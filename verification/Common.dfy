/** Values shared by every component: bytes, outcomes and the SDK's error codes. */
module Common {

  type byte = x: int | 0 <= x < 256

  datatype Option<+T> = None | Some(value: T)

  /** The outcomes the modelled operations can return; `Ok` is carried by `Result`. */
  datatype Error =
    | BadArgument
    | InternalError
    | CacheObjectNotFound
    | OcspInvalidResponse
    | OcspServerError
    | OcspInvalidRequest
    | OcspForbidden
    | CertNotFound
    | CertChainVerificationFailure
    | NrasTokenInvalid
    | UncaughtException
    | OverallResultFalse
    | RelyingPartyPolicyMismatch
    | RimMeasurementConflict
    | SpdmFieldNotFound
    | SpdmParseError
    | SpdmRequestParseError
    | SpdmMeasurementRecordParseError
    | SpdmOpaqueDataParseError
    | GpuEvidenceInvalid
    | GpuEvidenceInvalidSignature
    | GpuEvidenceNonceMismatch
    | GpuEvidenceDriverRimVersionMismatch
    | GpuEvidenceVbiosRimVersionMismatch
    | SwitchEvidenceInvalidSignature
    | SwitchEvidenceNonceMismatch
    | SwitchEvidenceVbiosRimVersionMismatch

  /**
   * The errors of everything but issuing a detached EAT, attesting and the remote verifiers:
   * only those report a false overall result.
   */
  type Fault = e: Error | e != OverallResultFalse witness InternalError

  datatype Result<+T> = Ok(value: T) | Err(error: Fault)

  function Min(a: int, b: int): int { if a <= b then a else b }

  function Max(a: int, b: int): int { if a >= b then a else b }

  /** Taking one occurrence of the last element of `a` out of a permutation `b` of `a`. */
  lemma TakeOut<T>(a: seq<T>, b: seq<T>) returns (before: seq<T>, after: seq<T>)
    requires a != [] && multiset(a) == multiset(b)
    ensures var front, last := a[..|a| - 1], a[|a| - 1];
            b == before + ([last] + after) && multiset(front) == multiset(before + after)
  {
    var front, last := a[..|a| - 1], a[|a| - 1];
    assert a == front + [last];
    assert last in multiset(b);
    var k :| 0 <= k < |b| && b[k] == last;
    before, after := b[..k], b[k + 1..];
    assert b == before + ([last] + after);
    assert multiset(front) == multiset(a) - multiset{last};
    assert multiset(b) == multiset(before) + multiset{last} + multiset(after);
    assert multiset(before + after) == multiset(b) - multiset{last};
  }

  lemma Shuffle<T>(f: seq<T>, x: seq<T>, y: seq<T>, z: seq<T>)
    requires multiset(f) == multiset(x + z)
    ensures multiset(f + y) == multiset(x + (y + z))
  {
  }

  /** A set that is not empty has a member. */
  lemma Member<T>(s: set<T>) returns (x: T)
    requires s != {}
    ensures x in s
  {
    assert (forall y :: y !in s) ==> s == {};
    x :| x in s;
  }

  /** A sequence is its four parts. */
  lemma FourParts<T>(s: seq<T>, i: nat, j: nat, k: nat)
    requires i <= j <= k <= |s|
    ensures s == s[..i] + s[i..j] + s[j..k] + s[k..]
  {
  }
}
