/**
 * Revocation status of a verified certificate path: the loop that asks an OCSP client
 * about every certificate below the root, root side first, and folds the answers into
 * the claims of the chain.
 */
module ChainStatus {
  import opened Common
  import opened RawProof

  datatype Status = Undefined | Good | Revoked | Unknown

  /** `OCSPClaims`; a revocation reason is kept as its CRL reason code. */
  datatype OcspClaims = OcspClaims(
    status: Status, revocationReason: Option<int>, nonceMatches: bool, expirationTime: int, responseValid: bool,
    signedAge: bool, verificationTime: int, statusDeadline: int, oldestThisUpdate: int, coveredCertificates: nat)

  const NO_CLAIMS := OcspClaims(Undefined, None, false, 0, false, false, 0, 0, 0, 0)

  datatype ChainType = GpuDeviceIdentity | GpuVbiosRim | GpuDriverRim | SwitchDeviceIdentity | SwitchVbiosRim

  /** The leaf of a device chain is not asked about. */
  function StartIndex(kind: ChainType): nat {
    if kind.GpuDeviceIdentity? || kind.SwitchDeviceIdentity? then 1 else 0
  }

  /** An OCSP client: the number of this call, subject, issuer and intermediates to an answer. */
  type OcspClient = (nat, Cert, Cert, seq<Cert>) -> Result<OcspResponse>

  function Mapped(status: int): Status {
    match status
    case 0 => Good
    case 1 => Revoked
    case 2 => Unknown
    case _ => Undefined
  }

  // ---------------------------------------------------------------------------
  // What the claims of a chain mean
  // ---------------------------------------------------------------------------

  function CoveredCount(path: seq<Cert>, start: nat): nat {
    if |path| >= start + 1 then |path| - 1 - start else 0
  }

  /** The answers in the order asked: from the certificate next to the root down to `start`. */
  function Answers(path: seq<Cert>, start: nat, client: OcspClient): seq<Result<OcspResponse>> {
    seq(CoveredCount(path, start), k requires 0 <= k < CoveredCount(path, start) => Ask(path, client, k))
  }

  /** Each certificate is asked about with the ones above it, root excluded, as intermediates. */
  function Ask(path: seq<Cert>, client: OcspClient, k: nat): Result<OcspResponse>
    requires k + 2 <= |path|
  {
    var i := |path| - 2 - k;
    client(k, path[i], path[i + 1], path[i + 1..|path| - 1])
  }

  /** Position of the first answer that is not good, or the number of answers. */
  function FirstNotGood(rs: seq<OcspResponse>): (k: nat)
    ensures k <= |rs|
    ensures forall j :: 0 <= j < k ==> Mapped(rs[j].status) == Good
    ensures k < |rs| ==> Mapped(rs[k].status) != Good
  {
    if rs == [] then 0
    else
      var front := rs[..|rs| - 1];
      var k := FirstNotGood(front);
      if k < |front| then k
      else if Mapped(rs[|rs| - 1].status) == Good then |rs|
      else |rs| - 1
  }

  function ChainStatusOf(rs: seq<OcspResponse>): Status {
    if rs == [] then Undefined
    else if FirstNotGood(rs) == |rs| then Good
    else Mapped(rs[FirstNotGood(rs)].status)
  }

  /** A reason is recorded only for a revoked certificate below the first one asked about. */
  function ReasonOf(rs: seq<OcspResponse>): Option<int> {
    var k := FirstNotGood(rs);
    if 1 <= k < |rs| && Mapped(rs[k].status) == Revoked then Some(rs[k].reason) else None
  }

  function Least(xs: seq<int>): (m: int)
    requires xs != []
    ensures m in xs && forall x :: x in xs ==> m <= x
  {
    if |xs| == 1 then xs[0]
    else
      assert xs == xs[..|xs| - 1] + [xs[|xs| - 1]];
      Min(Least(xs[..|xs| - 1]), xs[|xs| - 1])
  }

  function Deadlines(rs: seq<OcspResponse>): seq<int> { seq(|rs|, i requires 0 <= i < |rs| => rs[i].statusDeadline) }

  function ThisUpdates(rs: seq<OcspResponse>): seq<int> { seq(|rs|, i requires 0 <= i < |rs| => rs[i].thisUpdate) }

  function NextUpdates(rs: seq<OcspResponse>): seq<int> { seq(|rs|, i requires 0 <= i < |rs| => rs[i].nextUpdate) }

  /** The running expiration time, where zero stands for "none yet". */
  function ExpirationOf(nexts: seq<int>): int {
    if nexts == [] then 0
    else
      var before, last := ExpirationOf(nexts[..|nexts| - 1]), nexts[|nexts| - 1];
      if before == 0 || last < before then last else before
  }

  predicate AllNonces(rs: seq<OcspResponse>) { forall i :: 0 <= i < |rs| ==> rs[i].nonceMatches }

  predicate AllValid(rs: seq<OcspResponse>) { forall i :: 0 <= i < |rs| ==> rs[i].responseValid }

  function Summary(rs: seq<OcspResponse>): OcspClaims {
    if rs == [] then NO_CLAIMS
    else
      var signed := rs[|rs| - 1].signedAge;
      OcspClaims(
        ChainStatusOf(rs), ReasonOf(rs),
        AllNonces(rs),
        ExpirationOf(NextUpdates(rs)),
        AllValid(rs),
        signed,
        if signed then rs[0].verificationTime else 0,
        if signed then Least(Deadlines(rs)) else 0,
        if signed then Least(ThisUpdates(rs)) else 0,
        |rs|)
  }

  /** One chain is judged one way: all by nonce, or all by signed age at one time. */
  predicate Uniform(rs: seq<OcspResponse>) {
    forall i :: 0 <= i < |rs| ==>
      && rs[i].signedAge == rs[0].signedAge
      && (rs[i].signedAge ==> !rs[i].nonceMatches && rs[i].verificationTime == rs[0].verificationTime)
  }

  predicate AllOk(answers: seq<Result<OcspResponse>>) {
    forall i :: 0 <= i < |answers| ==> answers[i].Ok?
  }

  function Values(answers: seq<Result<OcspResponse>>): (rs: seq<OcspResponse>)
    requires AllOk(answers)
    ensures |rs| == |answers|
  {
    seq(|answers|, i requires 0 <= i < |answers| => answers[i].value)
  }

  /** The first answer that stops the loop, if any does. */
  function FirstFault(answers: seq<Result<OcspResponse>>): (f: Option<Fault>)
    ensures f.None? <==> AllOk(answers) && Uniform(Values(answers))
  {
    if answers == [] then None
    else
      var front, last := answers[..|answers| - 1], answers[|answers| - 1];
      var earlier := FirstFault(front);
      assert AllOk(answers) ==> Values(front) == Values(answers)[..|front|];
      if earlier.Some? then earlier
      else if last.Err? then Some(last.error)
      else if Uniform(Values(answers)) then None
      else Some(OcspInvalidResponse)
  }

  function Outcome(answers: seq<Result<OcspResponse>>): Result<OcspClaims> {
    var fault := FirstFault(answers);
    if fault.Some? then Err(fault.value) else Ok(Summary(Values(answers)))
  }

  function ClaimsFor(path: seq<Cert>, kind: ChainType, client: OcspClient): Result<OcspClaims> {
    Outcome(Answers(path, StartIndex(kind), client))
  }

  // ---------------------------------------------------------------------------
  // The loop
  // ---------------------------------------------------------------------------

  /** One iteration: the answer's effect on the claims of those before it, or the error that ends the loop. */
  method Absorb(ghost rs: seq<OcspResponse>, claims: OcspClaims, initialized: bool, resp: OcspResponse) returns (r: Result<OcspClaims>)
    requires Uniform(rs) && claims == Summary(rs) && initialized == (rs != [])
    ensures r == if Uniform(rs + [resp]) then Ok(Summary(rs + [resp])) else Err(OcspInvalidResponse)
  {
    hide ChainStatusOf, ReasonOf, ExpirationOf, Least, FirstNotGood, NextUpdates, Deadlines, ThisUpdates, AllNonces, AllValid, Uniform;
    UniformStep(rs, resp);
    if initialized {
      SummaryStep(rs, resp);
    } else {
      assert rs + [resp] == [resp];
      SummaryOne(resp);
    }
    var c := claims;
    if !initialized {
      c := c.(responseValid := resp.responseValid, nonceMatches := resp.nonceMatches);
    } else {
      c := c.(responseValid := c.responseValid && resp.responseValid, nonceMatches := c.nonceMatches && resp.nonceMatches);
    }
    var mapped := Mapped(resp.status);
    if !initialized {
      c := c.(status := mapped);
    } else if c.status == Good {
      if mapped == Revoked {
        c := c.(revocationReason := Some(resp.reason));
      }
      c := c.(status := mapped);
    }
    var fault := false;
    if initialized && c.signedAge != resp.signedAge {
      fault := true;
    }
    c := c.(signedAge := resp.signedAge);
    if !fault && resp.signedAge {
      if resp.nonceMatches {
        fault := true;
      } else if !initialized {
        c := c.(verificationTime := resp.verificationTime, statusDeadline := resp.statusDeadline, oldestThisUpdate := resp.thisUpdate);
      } else if c.verificationTime != resp.verificationTime {
        fault := true;
      } else {
        c := c.(statusDeadline := Min(c.statusDeadline, resp.statusDeadline), oldestThisUpdate := Min(c.oldestThisUpdate, resp.thisUpdate));
      }
    }
    c := c.(coveredCertificates := c.coveredCertificates + 1);
    if c.expirationTime == 0 || resp.nextUpdate < c.expirationTime {
      c := c.(expirationTime := resp.nextUpdate);
    }
    r := if fault then Err(OcspInvalidResponse) else Ok(c);
  }

  /** `generate_ocsp_claims_for_path`: the leaf of a device chain is left out, every other certificate below the root is asked about. */
  method GenerateOcspClaims(path: seq<Cert>, kind: ChainType, client: OcspClient) returns (r: Result<OcspClaims>)
    ensures r == ClaimsFor(path, kind, client)
    ensures kind.GpuDeviceIdentity? || kind.SwitchDeviceIdentity? ==> Says(path, 1, client, r)
    ensures kind.GpuDriverRim? || kind.GpuVbiosRim? || kind.SwitchVbiosRim? ==> Says(path, 0, client, r)
  {
    hide ClaimsFor, Says;
    r := FoldAnswers(path, kind, client);
    ClaimsSay(path, kind, client);
  }

  /** The loop of `generate_ocsp_claims_for_path`. */
  method FoldAnswers(path: seq<Cert>, kind: ChainType, client: OcspClient) returns (r: Result<OcspClaims>)
    ensures r == ClaimsFor(path, kind, client)
  {
    hide Folded, Answers, Outcome;
    var claims := NO_CLAIMS;
    var initialized := false;
    var start := StartIndex(kind);
    var intermediates: seq<Cert> := [];
    ghost var answers := Answers(path, start, client);
    ghost var k := 0;
    AnswerCount(path, start, client);
    FoldedNone(answers);
    var subject := |path| - 2;
    while subject >= start
      invariant subject == |path| - 2 - k && k <= |answers|
      invariant k < |answers| ==> intermediates == path[subject + 1..|path| - 1]
      invariant initialized == (k > 0) && Folded(answers, k, claims)
    {
      var answer := client(|path| - 2 - subject, path[subject], path[subject + 1], intermediates);
      AskedInTurn(path, start, client, k);
      var next := AbsorbNext(answers, k, claims, initialized, answer);
      if next.Err? {
        return Err(next.error);
      }
      claims := next.value;
      Prepend(path, subject, |path| - 1);
      intermediates := [path[subject]] + intermediates;
      initialized := true;
      subject := subject - 1;
      k := k + 1;
    }
    FoldedAll(answers, claims);
    r := Ok(claims);
  }

  /** The first `k` answers raise no fault, and `claims` sums them up. */
  ghost predicate Folded(answers: seq<Result<OcspResponse>>, k: nat, claims: OcspClaims)
    requires k <= |answers|
  {
    && AllOk(answers[..k]) && Uniform(Values(answers[..k])) && FirstFault(answers[..k]).None?
    && claims == Summary(Values(answers[..k]))
  }

  lemma FoldedNone(answers: seq<Result<OcspResponse>>)
    ensures Folded(answers, 0, NO_CLAIMS)
  {
    assert answers[..0] == [];
  }

  lemma FoldedAll(answers: seq<Result<OcspResponse>>, claims: OcspClaims)
    requires Folded(answers, |answers|, claims)
    ensures Outcome(answers) == Ok(claims)
  {
    assert answers[..|answers|] == answers;
  }

  /** One round of the loop: an error ends it for good, otherwise the claims cover one answer more. */
  method AbsorbNext(ghost answers: seq<Result<OcspResponse>>, ghost k: nat, claims: OcspClaims, initialized: bool, answer: Result<OcspResponse>)
    returns (r: Result<OcspClaims>)
    requires k < |answers| && answer == answers[k] && Folded(answers, k, claims) && initialized == (k > 0)
    ensures if r.Ok? then Folded(answers, k + 1, r.value) else Outcome(answers) == r
  {
    hide Summary, Uniform, FirstFault, Values;
    FaultStep(answers, k);
    if answer.Err? {
      FaultStands(answers, k + 1);
      return Err(answer.error);
    }
    r := Absorb(Values(answers[..k]), claims, initialized, answer.value);
    if r.Err? {
      FaultStands(answers, k + 1);
    }
  }

  // ---------------------------------------------------------------------------
  // In terms of the certificates asked about
  // ---------------------------------------------------------------------------

  /** The answer about `path[i]`, asked with its issuer and the certificates above it, root excluded. */
  function Asked(path: seq<Cert>, client: OcspClient, i: nat): Result<OcspResponse>
    requires i + 1 < |path|
  {
    client(|path| - 2 - i, path[i], path[i + 1], path[i + 1..|path| - 1])
  }

  /** Every certificate from `first` to the one below the root has an answer. */
  ghost predicate AllAsked(path: seq<Cert>, first: nat, client: OcspClient) {
    forall i :: first <= i < |path| - 1 ==> Asked(path, client, i).Ok?
  }

  /** All answers are by nonce, or all by signed age at one time. */
  ghost predicate OneWay(path: seq<Cert>, first: nat, client: OcspClient)
    requires AllAsked(path, first, client)
  {
    forall i, j :: first <= i < |path| - 1 && first <= j < |path| - 1 ==> Agree(Asked(path, client, i).value, Asked(path, client, j).value)
  }

  predicate Agree(a: OcspResponse, b: OcspResponse) {
    a.signedAge == b.signedAge && (a.signedAge ==> !a.nonceMatches && a.verificationTime == b.verificationTime)
  }

  /** The certificate nearest to the root whose status code is not 0, that is, not good. */
  ghost predicate FirstBad(path: seq<Cert>, first: nat, client: OcspClient, i: nat)
    requires AllAsked(path, first, client)
  {
    && first <= i < |path| - 1 && Asked(path, client, i).value.status != 0
    && forall j :: i < j < |path| - 1 ==> Asked(path, client, j).value.status == 0
  }

  /** Some certificate is the first bad one, with this status code. */
  ghost predicate BadWith(path: seq<Cert>, first: nat, client: OcspClient, code: int)
    requires AllAsked(path, first, client)
  {
    exists i: nat :: FirstBad(path, first, client, i) && Asked(path, client, i).value.status == code
  }

  function CountFrom(path: seq<Cert>, first: nat): nat {
    if |path| > first then |path| - 1 - first else 0
  }

  /** The revocation status: code 0 is good, 1 revoked, 2 unknown, and the first bad one from the root decides. */
  ghost predicate StatusReflects(path: seq<Cert>, first: nat, client: OcspClient, c: OcspClaims)
    requires AllAsked(path, first, client)
  {
    && c.coveredCertificates == CountFrom(path, first)
    && (c.status == Good <==>
          CountFrom(path, first) > 0 && forall i :: first <= i < |path| - 1 ==> Asked(path, client, i).value.status == 0)
    && (c.status == Revoked <==> BadWith(path, first, client, 1))
    && (c.status == Unknown <==> BadWith(path, first, client, 2))
    && (c.revocationReason.Some? ==> c.status == Revoked)
    && (forall i: nat :: FirstBad(path, first, client, i) && Asked(path, client, i).value.status == 1 ==>
          c.revocationReason == if i == |path| - 2 then None else Some(Asked(path, client, i).value.reason))
  }

  /** The flags are conjunctions, the times are minima. */
  ghost predicate TimesReflect(path: seq<Cert>, first: nat, client: OcspClient, c: OcspClaims)
    requires AllAsked(path, first, client)
  {
    var n := CountFrom(path, first);
    && (c.nonceMatches <==> n > 0 && forall i :: first <= i < |path| - 1 ==> Asked(path, client, i).value.nonceMatches)
    && (c.responseValid <==> n > 0 && forall i :: first <= i < |path| - 1 ==> Asked(path, client, i).value.responseValid)
    && (forall i :: first <= i < |path| - 1 ==> c.signedAge == Asked(path, client, i).value.signedAge)
    && (!c.signedAge ==> c.verificationTime == 0 && c.statusDeadline == 0 && c.oldestThisUpdate == 0)
    && (c.signedAge ==>
          && (forall i :: first <= i < |path| - 1 ==> Within(c, Asked(path, client, i).value))
          && (exists i :: first <= i < |path| - 1 && c.statusDeadline == Asked(path, client, i).value.statusDeadline)
          && (exists i :: first <= i < |path| - 1 && c.oldestThisUpdate == Asked(path, client, i).value.thisUpdate))
  }

  predicate Within(c: OcspClaims, a: OcspResponse) {
    c.verificationTime == a.verificationTime && c.statusDeadline <= a.statusDeadline && c.oldestThisUpdate <= a.thisUpdate
  }

  /** What an outcome says about the answers for the certificates from `first` on. */
  ghost predicate Says(path: seq<Cert>, first: nat, client: OcspClient, r: Result<OcspClaims>) {
    && (r.Ok? <==> AllAsked(path, first, client) && OneWay(path, first, client))
    && (r.Ok? ==> StatusReflects(path, first, client, r.value) && TimesReflect(path, first, client, r.value))
  }

  /** Answers by position and by certificate: the k-th one asked about is `path[|path| - 2 - k]`. */
  lemma AnswerOf(path: seq<Cert>, first: nat, client: OcspClient)
    ensures |Answers(path, first, client)| == CountFrom(path, first)
    ensures forall k :: 0 <= k < CountFrom(path, first) ==> Answers(path, first, client)[k] == Asked(path, client, |path| - 2 - k)
    ensures forall i :: first <= i < |path| - 1 ==> Asked(path, client, i) == Answers(path, first, client)[|path| - 2 - i]
    ensures AllAsked(path, first, client) <==> AllOk(Answers(path, first, client))
  {
    var answers := Answers(path, first, client);
    forall i | first <= i < |path| - 1 ensures Asked(path, client, i) == answers[|path| - 2 - i] {
      var k := |path| - 2 - i;
      assert answers[k] == Ask(path, client, k);
    }
    forall k | 0 <= k < CountFrom(path, first) ensures answers[k] == Asked(path, client, |path| - 2 - k) {
      assert answers[k] == Ask(path, client, k);
    }
    if AllAsked(path, first, client) {
      forall k | 0 <= k < |answers| ensures answers[k].Ok? {
        assert Asked(path, client, |path| - 2 - k).Ok?;
      }
    }
  }

  lemma OneWayIsUniform(path: seq<Cert>, first: nat, client: OcspClient, rs: seq<OcspResponse>)
    requires AllAsked(path, first, client) && ByCertificate(path, first, client, rs)
    ensures OneWay(path, first, client) <==> Uniform(rs)
  {
    if Uniform(rs) {
      forall i, j | first <= i < |path| - 1 && first <= j < |path| - 1
        ensures Agree(Asked(path, client, i).value, Asked(path, client, j).value)
      {
        assert Asked(path, client, i).value == rs[|path| - 2 - i] && Asked(path, client, j).value == rs[|path| - 2 - j];
      }
    }
    if OneWay(path, first, client) {
      forall k | 0 <= k < |rs| ensures Agree(rs[k], rs[0]) {
        var i, j := |path| - 2 - k, |path| - 2;
        assert rs[k] == Asked(path, client, i).value && rs[0] == Asked(path, client, j).value;
      }
    }
  }

  /** `rs` are the answers, the one about the certificate below the root first. */
  ghost predicate ByCertificate(path: seq<Cert>, first: nat, client: OcspClient, rs: seq<OcspResponse>)
    requires AllAsked(path, first, client)
  {
    && |rs| == CountFrom(path, first)
    && (forall k :: 0 <= k < |rs| ==> rs[k] == Asked(path, client, |path| - 2 - k).value)
    && (forall i :: first <= i < |path| - 1 ==> Asked(path, client, i).value == rs[|path| - 2 - i])
  }

  lemma StatusSays(path: seq<Cert>, first: nat, client: OcspClient, rs: seq<OcspResponse>)
    requires AllAsked(path, first, client) && ByCertificate(path, first, client, rs)
    ensures StatusReflects(path, first, client, Summary(rs))
  {
    hide ExpirationOf, Least, Deadlines, ThisUpdates, NextUpdates, AllNonces, AllValid;
    var k := FirstNotGood(rs);
    if k < |rs| {
      var b: nat := |path| - 2 - k;
      assert Asked(path, client, b).value == rs[k];
      forall j | b < j < |path| - 1 ensures Asked(path, client, j).value.status == 0 {
        assert Mapped(rs[|path| - 2 - j].status) == Good;
      }
      assert FirstBad(path, first, client, b);
      forall i: nat | FirstBad(path, first, client, i) ensures i == b {
      }
    } else {
      forall i | first <= i < |path| - 1 ensures Asked(path, client, i).value.status == 0 {
        assert Mapped(rs[|path| - 2 - i].status) == Good;
      }
    }
  }

  lemma TimesSay(path: seq<Cert>, first: nat, client: OcspClient, rs: seq<OcspResponse>)
    requires AllAsked(path, first, client) && ByCertificate(path, first, client, rs) && Uniform(rs)
    ensures TimesReflect(path, first, client, Summary(rs))
  {
    hide ExpirationOf, NextUpdates, ChainStatusOf, ReasonOf, Least, Deadlines, ThisUpdates, AllNonces, AllValid, Uniform, Within;
    if rs == [] {
      assert CountFrom(path, first) == 0;
    } else {
      MinimaSay(path, first, client, rs);
      FlagsSay(path, first, client, rs);
    }
  }

  lemma MinimaSay(path: seq<Cert>, first: nat, client: OcspClient, rs: seq<OcspResponse>)
    requires AllAsked(path, first, client) && ByCertificate(path, first, client, rs) && Uniform(rs) && rs != []
    ensures var c := Summary(rs);
            && CountFrom(path, first) > 0
            && (forall i :: first <= i < |path| - 1 ==> c.signedAge == Asked(path, client, i).value.signedAge)
            && (c.signedAge ==>
                  && (forall i :: first <= i < |path| - 1 ==> Within(c, Asked(path, client, i).value))
                  && (exists i :: first <= i < |path| - 1 && c.statusDeadline == Asked(path, client, i).value.statusDeadline)
                  && (exists i :: first <= i < |path| - 1 && c.oldestThisUpdate == Asked(path, client, i).value.thisUpdate))
  {
    hide Summary, Uniform, Within;
    var d, t := SummaryTimes(rs);
    var i, j := |path| - 2 - d, |path| - 2 - t;
    assert Asked(path, client, i).value == rs[d] && Asked(path, client, j).value == rs[t];
  }

  lemma SummaryTimes(rs: seq<OcspResponse>) returns (d: nat, t: nat)
    requires Uniform(rs) && rs != []
    ensures var c := Summary(rs);
            && d < |rs| && t < |rs|
            && (forall k :: 0 <= k < |rs| ==> c.signedAge == rs[k].signedAge)
            && (c.signedAge ==>
                  && (forall k :: 0 <= k < |rs| ==> Within(c, rs[k]))
                  && c.statusDeadline == rs[d].statusDeadline && c.oldestThisUpdate == rs[t].thisUpdate)
  {
    hide ExpirationOf, NextUpdates, ChainStatusOf, ReasonOf, AllNonces, AllValid;
    d, t := LeastAt(rs);
    hide Least, Deadlines, ThisUpdates;
    assert rs[|rs| - 1].signedAge == rs[0].signedAge;
  }

  /** Where the smallest deadline and the oldest thisUpdate are. */
  lemma LeastAt(rs: seq<OcspResponse>) returns (d: nat, t: nat)
    requires rs != []
    ensures d < |rs| && rs[d].statusDeadline == Least(Deadlines(rs)) && t < |rs| && rs[t].thisUpdate == Least(ThisUpdates(rs))
    ensures forall k :: 0 <= k < |rs| ==> Least(Deadlines(rs)) <= rs[k].statusDeadline && Least(ThisUpdates(rs)) <= rs[k].thisUpdate
  {
    var ds, ts := Deadlines(rs), ThisUpdates(rs);
    assert forall k :: 0 <= k < |rs| ==> ds[k] in ds && ds[k] == rs[k].statusDeadline && ts[k] in ts && ts[k] == rs[k].thisUpdate;
    d :| 0 <= d < |rs| && ds[d] == Least(ds);
    t :| 0 <= t < |rs| && ts[t] == Least(ts);
  }

  lemma FlagsSay(path: seq<Cert>, first: nat, client: OcspClient, rs: seq<OcspResponse>)
    requires AllAsked(path, first, client) && ByCertificate(path, first, client, rs)
    ensures AllNonces(rs) <==> forall i :: first <= i < |path| - 1 ==> Asked(path, client, i).value.nonceMatches
    ensures AllValid(rs) <==> forall i :: first <= i < |path| - 1 ==> Asked(path, client, i).value.responseValid
  {
    if forall i :: first <= i < |path| - 1 ==> Asked(path, client, i).value.nonceMatches {
      forall k | 0 <= k < |rs| ensures rs[k].nonceMatches {
        assert Asked(path, client, |path| - 2 - k).value.nonceMatches;
      }
    }
    if forall i :: first <= i < |path| - 1 ==> Asked(path, client, i).value.responseValid {
      forall k | 0 <= k < |rs| ensures rs[k].responseValid {
        assert Asked(path, client, |path| - 2 - k).value.responseValid;
      }
    }
  }

  /** The outcome of a path in terms of its certificates alone. */
  lemma ClaimsSay(path: seq<Cert>, kind: ChainType, client: OcspClient)
    ensures Says(path, if kind.GpuDeviceIdentity? || kind.SwitchDeviceIdentity? then 1 else 0, client, ClaimsFor(path, kind, client))
  {
    hide Summary, Uniform, Answers, StatusReflects, TimesReflect, OneWay;
    var first := if kind.GpuDeviceIdentity? || kind.SwitchDeviceIdentity? then 1 else 0;
    assert StartIndex(kind) == first;
    var answers := Answers(path, first, client);
    AnswerOf(path, first, client);
    if AllOk(answers) {
      var rs := Values(answers);
      assert ByCertificate(path, first, client, rs);
      OneWayIsUniform(path, first, client, rs);
      StatusSays(path, first, client, rs);
      if Uniform(rs) {
        TimesSay(path, first, client, rs);
      }
    }
  }

  lemma AnswerCount(path: seq<Cert>, start: nat, client: OcspClient)
    ensures |Answers(path, start, client)| == CoveredCount(path, start)
  {
  }

  lemma AskedInTurn(path: seq<Cert>, start: nat, client: OcspClient, k: nat)
    requires k < CoveredCount(path, start)
    ensures |Answers(path, start, client)| == CoveredCount(path, start)
    ensures var i := |path| - 2 - k;
            Answers(path, start, client)[k] == client(k, path[i], path[i + 1], path[i + 1..|path| - 1])
  {
    assert Answers(path, start, client)[k] == Ask(path, client, k);
  }

  lemma Prepend(path: seq<Cert>, i: nat, end: nat)
    requires i < end <= |path|
    ensures path[i..end] == [path[i]] + path[i + 1..end]
  {
  }

  lemma FaultStep(answers: seq<Result<OcspResponse>>, k: nat)
    requires k < |answers| && AllOk(answers[..k]) && FirstFault(answers[..k]).None?
    ensures answers[k].Err? ==> FirstFault(answers[..k + 1]) == Some(answers[k].error)
    ensures answers[k].Ok? ==>
              && AllOk(answers[..k + 1]) && Values(answers[..k + 1]) == Values(answers[..k]) + [answers[k].value]
              && FirstFault(answers[..k + 1]) == if Uniform(Values(answers[..k + 1])) then None else Some(OcspInvalidResponse)
    ensures |Values(answers[..k])| == k
  {
    var upTo := answers[..k + 1];
    assert upTo[..k] == answers[..k];
    assert upTo == answers[..k] + [answers[k]];
    if answers[k].Ok? {
      assert AllOk(upTo);
      assert Values(upTo) == Values(answers[..k]) + [answers[k].value];
    }
  }

  lemma {:induction false} FaultStands(answers: seq<Result<OcspResponse>>, k: nat)
    requires k <= |answers| && FirstFault(answers[..k]).Some?
    ensures FirstFault(answers) == FirstFault(answers[..k])
  {
    if k == |answers| {
      assert answers[..k] == answers;
    } else {
      assert answers[..|answers| - 1][..k] == answers[..k];
      FaultStands(answers[..|answers| - 1], k);
    }
  }

  lemma UniformStep(rs: seq<OcspResponse>, x: OcspResponse)
    requires Uniform(rs)
    ensures Uniform(rs + [x]) <==>
            && (rs != [] ==> x.signedAge == rs[|rs| - 1].signedAge)
            && (x.signedAge ==> !x.nonceMatches && (rs != [] ==> x.verificationTime == rs[0].verificationTime))
  {
    var all := rs + [x];
    assert all[|rs|] == x;
    assert forall i :: 0 <= i < |rs| ==> all[i] == rs[i];
  }

  lemma SummaryStep(rs: seq<OcspResponse>, x: OcspResponse)
    requires rs != []
    ensures var all := rs + [x];
            && (ChainStatusOf(all) == if ChainStatusOf(rs) == Good then Mapped(x.status) else ChainStatusOf(rs))
            && (ReasonOf(all) == if ChainStatusOf(rs) == Good && Mapped(x.status) == Revoked then Some(x.reason) else ReasonOf(rs))
            && (ExpirationOf(NextUpdates(all)) == var e := ExpirationOf(NextUpdates(rs)); if e == 0 || x.nextUpdate < e then x.nextUpdate else e)
            && Least(Deadlines(all)) == Min(Least(Deadlines(rs)), x.statusDeadline)
            && Least(ThisUpdates(all)) == Min(Least(ThisUpdates(rs)), x.thisUpdate)
            && (AllNonces(all) <==> AllNonces(rs) && x.nonceMatches)
            && (AllValid(all) <==> AllValid(rs) && x.responseValid)
  {
    var all := rs + [x];
    assert all[..|rs|] == rs && all[|rs|] == x;
    assert forall i :: 0 <= i < |rs| ==> all[i] == rs[i];
    assert NextUpdates(all)[..|rs|] == NextUpdates(rs);
    assert Deadlines(all)[..|rs|] == Deadlines(rs);
    assert ThisUpdates(all)[..|rs|] == ThisUpdates(rs);
  }

  lemma SummaryOne(x: OcspResponse)
    ensures Summary([x]) == OcspClaims(
      Mapped(x.status), None, x.nonceMatches, x.nextUpdate, x.responseValid, x.signedAge,
      if x.signedAge then x.verificationTime else 0, if x.signedAge then x.statusDeadline else 0,
      if x.signedAge then x.thisUpdate else 0, 1)
  {
    assert NextUpdates([x]) == [x.nextUpdate] && Deadlines([x]) == [x.statusDeadline] && ThisUpdates([x]) == [x.thisUpdate];
    assert ExpirationOf([x.nextUpdate]) == x.nextUpdate;
    assert FirstNotGood([x]) == if Mapped(x.status) == Good then 1 else 0;
    assert AllNonces([x]) == x.nonceMatches && AllValid([x]) == x.responseValid;
  }

  // ---------------------------------------------------------------------------
  // What follows
  // ---------------------------------------------------------------------------

  /** Chains judged two ways, or at two times, never succeed, whatever the client answers. */
  lemma MixedModesFail(path: seq<Cert>, kind: ChainType, client: OcspClient, i: nat, j: nat)
    requires i < CoveredCount(path, StartIndex(kind)) && j < CoveredCount(path, StartIndex(kind))
    requires var answers := Answers(path, StartIndex(kind), client);
             && answers[i].Ok? && answers[j].Ok?
             && var a, b := answers[i].value, answers[j].value;
                a.signedAge != b.signedAge || (a.signedAge && a.verificationTime != b.verificationTime)
    ensures ClaimsFor(path, kind, client).Err?
  {
    var answers := Answers(path, StartIndex(kind), client);
    if AllOk(answers) {
      var rs := Values(answers);
      assert rs[i] == answers[i].value && rs[j] == answers[j].value;
    }
  }

  /**
   * The recorded expiration is the earliest nextUpdate exactly when that is not the
   * epoch itself, or the last certificate asked about also has it.
   */
  lemma {:induction false} ExpirationIsEarliest(nexts: seq<int>)
    requires nexts != []
    ensures ExpirationOf(nexts) == Least(nexts) <==> Least(nexts) != 0 || nexts[|nexts| - 1] == 0
    ensures ExpirationOf(nexts) in nexts
    ensures Least(nexts) != 0 ==> ExpirationOf(nexts) != 0
  {
    if |nexts| > 1 {
      ExpirationIsEarliest(nexts[..|nexts| - 1]);
    }
  }

  /** A first nextUpdate at the epoch is taken for "none yet" and lost. */
  lemma ExpirationLost(later: int)
    requires later > 0
    ensures Least([0, later]) == 0 && ExpirationOf([0, later]) == later
  {
    var nexts := [0, later];
    assert nexts[..1] == [0] && nexts[..1][..0] == [];
    assert ExpirationOf(nexts[..1]) == 0;
    assert Least(nexts) in nexts && nexts[0] in nexts;
  }

  /** The certificate below the root: revoked there, the chain is revoked without a reason. */
  lemma RevokedWithoutReason(rs: seq<OcspResponse>)
    ensures ChainStatusOf(rs) == Revoked ==> (ReasonOf(rs).None? <==> FirstNotGood(rs) == 0)
    ensures ReasonOf(rs).Some? ==> ChainStatusOf(rs) == Revoked
  {
  }

  // ---------------------------------------------------------------------------
  // The path that is asked about
  // ---------------------------------------------------------------------------

  /**
   * `X509CertChain::verify`: the presented chain is accepted only if it is not empty and is,
   * certificate by certificate, the path OpenSSL itself built and verified.
   */
  method VerifyPath(presented: seq<Cert>, build: seq<Cert> -> Option<seq<Cert>>) returns (r: Result<seq<Cert>>)
    ensures r.Ok? <==> presented != [] && build(presented) == Some(presented)
    ensures r.Ok? ==> r.value == presented
    ensures r.Err? ==> r.error == if presented == [] then InternalError else CertChainVerificationFailure
  {
    if presented == [] {
      return Err(InternalError);
    }
    var verified := build(presented);
    if verified.None? || |verified.value| != |presented| {
      return Err(CertChainVerificationFailure);
    }
    var path: seq<Cert> := [];
    for i := 0 to |presented|
      invariant path == presented[..i] == verified.value[..i]
    {
      if verified.value[i] != presented[i] {
        return Err(CertChainVerificationFailure);
      }
      path := path + [verified.value[i]];
    }
    assert presented[..|presented|] == presented == verified.value;
    r := Ok(path);
  }
}
