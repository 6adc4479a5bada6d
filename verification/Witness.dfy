/**
 * A switch with one measurement and evidence that is otherwise in order, and its attestation
 * without a request for a detached EAT when the measurement is not the golden one: it succeeds,
 * although the built-in policy does not hold.
 */
module Witness {
  import opened Common
  import opened Bytes
  import opened Json
  import opened RawProof
  import opened ChainStatus
  import opened Policy
  import opened SpdmRecords
  import opened SpdmMessages
  import opened Measurements
  import opened DetachedEat
  import opened LocalVerification
  import opened HttpRetry
  import opened Context
  import AR = Report

  function Zeros(n: nat): (s: seq<byte>)
    ensures |s| == n
  {
    seq(n, _ => 0)
  }

  const BLOCK := Block(1, Dmtf(0, [7]), [])
  const FIELD := Field(0, [])
  const POLICY := EvidencePolicy(true, true)

  function Reading(): AR.Parsed {
    assert ValidBlocks([BLOCK]);
    AR.Parsed(
      Request(0, 0, Zeros(32), 0),
      Response(0, 0, 1, RecordBytes([BLOCK]), BlockMap([BLOCK]), Zeros(32), OpaqueBytes([FIELD]), [FIELD], Zeros(96)))
  }

  /** Every certificate is good, and every nonce comes back. */
  const GOOD := OcspResponse(1, 2, 0, 0, true, true, false, 0, 0)

  function GoodChain(kind: ChainType): ChainJob {
    ChainJob([[1], [2], [3]], path => Some(path), Ok(1), 0, kind, (k, subject, issuer, intermediates) => Ok(GOOD))
  }

  /** The report has the value 7; the manifest asks for `value`. */
  function Manifest(value: byte): Rim {
    Rim(CertInvalid, Ok("1"), Ok(GoodChain(SwitchVbiosRim)), None, None, Ok(map[0 := Golden(1, [[value]])]))
  }

  function Sample(value: byte): SwitchInput {
    SwitchInput(
      AR.SignedBytes(Reading()) + Zeros(96), AR.Device((signed, signature) => true, fields => None, InternalError, InternalError),
      Zeros(32), GoodChain(SwitchDeviceIdentity), p => Ok("1"), p => None, p => None, p => Ok(Manifest(value)))
  }

  lemma ReadingIsAuthentic(value: byte)
    ensures AR.Authentic(Sample(value).device, [], Sample(value).report, Reading())
  {
    assert ValidBlocks([BLOCK]);
    assert Tiles(RecordBytes([BLOCK]), 1, [BLOCK]);
    assert OpaqueIs(OpaqueBytes([FIELD]), [FIELD]);
    OpaqueExact(OpaqueBytes([FIELD]), [FIELD]);
    Sizes();
  }

  lemma Sizes()
    ensures ValidBlocks([BLOCK]) && |RecordBytes([BLOCK])| == 8 && |OpaqueBytes([FIELD])| == 4
  {
    assert [BLOCK][1..] == [] && [FIELD][1..] == [];
    assert RecordBytes([BLOCK]) == BlockBytes(BLOCK) + RecordBytes([]);
    assert OpaqueBytes([FIELD]) == FieldBytes(FIELD) + OpaqueBytes([]);
  }

  /** The signed bytes of that report, one by one. */
  lemma ReadingSpelledOut()
    ensures AR.SignedBytes(Reading()) ==
              [0x11, 0xe0, 0, 0] + Zeros(32) + [0] + [0x11, 0x60, 0, 0, 1, 8, 0, 0]
              + [1, 1, 4, 0, 0, 1, 0, 7] + Zeros(32) + [4, 0, 0, 0, 0, 0]
  {
    Sizes();
    assert ToLe(0, 2) == [0, 0] && ToLe(1, 2) == [1, 0] && ToLe(4, 2) == [4, 0] && ToLe(8, 3) == [8, 0, 0] by { LeSamples(); }
    assert Measurement(BLOCK) == [0, 1, 0, 7];
    assert RecordBytes([BLOCK]) == [1, 1, 4, 0, 0, 1, 0, 7] by {
      assert [BLOCK][1..] == [];
      assert RecordBytes([BLOCK]) == BlockBytes(BLOCK) + RecordBytes([]);
    }
    assert OpaqueBytes([FIELD]) == [0, 0, 0, 0] by {
      assert [FIELD][1..] == [];
      assert OpaqueBytes([FIELD]) == FieldBytes(FIELD) + OpaqueBytes([]);
    }
  }

  lemma LeSamples()
    ensures ToLe(0, 2) == [0, 0] && ToLe(1, 2) == [1, 0] && ToLe(4, 2) == [4, 0] && ToLe(8, 3) == [8, 0, 0]
  {
    assert ToLe(0, 1) == [0] + ToLe(0, 0);
    assert ToLe(0, 2) == [0] + ToLe(0, 1);
  }

  lemma GoodChainTrusted(kind: ChainType)
    ensures Judged(GoodChain(kind)) && Trustworthy(GoodChain(kind))
  {
    var c := GoodChain(kind);
    var answers := Answers(c.presented, StartIndex(kind), c.client);
    assert AllOk(answers);
    assert Uniform(Values(answers));
  }

  /** Claims can always be made for the switch, and it is trustworthy exactly when the manifest asks for what it has. */
  lemma TrustByValue(value: byte)
    ensures var e := SwitchEvidence(Sample(value), map[]);
            Made(e, POLICY) && (DeviceTrustworthy(e, POLICY) <==> value == 7)
  {
    var g, p := Sample(value), Reading();
    ReadingIsAuthentic(value);
    GoodChainTrusted(SwitchDeviceIdentity);
    GoodChainTrusted(SwitchVbiosRim);
    hide AR.Authentic, Judged, GoodChain, Trustworthy;
    assert SwitchSteps(g, POLICY, p);
    ValueIsSeven();
    var golden, runtime := g.biosRim(p).value.golden.value, RuntimeOf(p.response.blocks);
    hide RuntimeOf;
    assert Failing(golden, runtime, false, 0) <==> value != 7;
    assert forall i :: i != 0 ==> !Failing(golden, runtime, false, i);
    forall q | AR.Authentic(g.device, [], g.report, q) ensures q == p {
      OneReading(g.device, g.report, p, q);
    }
    assert value == 7 ==> SwitchDeserves(g, POLICY, p);
  }

  lemma ValueIsSeven()
    ensures var runtime := RuntimeOf(Reading().response.blocks); 0 in runtime && runtime[0] == [7]
  {
    assert [BLOCK][..0] == [];
    assert BlockMap([BLOCK]) == BlockMap([])[1 := BLOCK.dmtf];
    RuntimeKeys(BlockMap([BLOCK]), 0);
  }

  function SampleWorld(crypto: Crypto): World {
    World(
      Factories((url, key, http) => None, (url, key, http) => None, (device, url, key, http) => None, (device, path) => None),
      Ok([0]), (source, nonce) => Ok([SwitchEvidence(Sample(8), map[])]), (verifier, evidence, policy, wantsEat) => (None, []),
      (evaluator, claims) => Ok(false), Ok((0, 1)), n => Ok([0]), crypto)
  }

  lemma SampleIsPopulated(crypto: Crypto)
    ensures WorldPopulated(SampleWorld(crypto))
  {
    var evidence := [SwitchEvidence(Sample(8), map[])];
    assert forall p :: GoldenPopulated(Sample(8).biosRim(p));
    assert InputPopulated(evidence[0]);
    assert EvidencePopulated(evidence);
  }

  /** The context after the two setters, and after initialization. */
  function Set(http: HttpOptions): State {
    Apply(Apply(Initial(http), Call.SetVerifierType(Local)), Call.SetDeviceType(DEVICE_NVSWITCH))
  }

  lemma Prepared(http: HttpOptions, w: World)
    requires w.factories.rim("", "", http).None? && w.factories.ocsp("", "", http).None?
    ensures var (t, error) := Init(Set(http), w.factories);
            && error.None? && t.evaluator.None? && t.policy == POLICY && Enabled(t) == SwitchDevice
            && SourceOf(t, SwitchDevice).Some? && VerifierOf(t, SwitchDevice).Some? && VerifierOf(t, SwitchDevice).value.LocalVerifier?
  {
  }

  lemma Unnoticed(t: State, crypto: Crypto, error: Option<Error>, claims: seq<Claim>)
    requires t.evaluator.None? && t.policy == POLICY && SourceOf(t, Enabled(t)).Some?
    requires VerifierOf(t, Enabled(t)).Some? && VerifierOf(t, Enabled(t)).value.LocalVerifier?
    requires Concluded(t, [1], false, SampleWorld(crypto), error, claims)
    ensures error.None? && |claims| == 1 && !OverallResult(Devices(claims))
  {
    var evidence := [SwitchEvidence(Sample(8), map[])];
    var w := SampleWorld(crypto);
    assert Locally(t, [1], w, evidence) by {
      hide Concluded, Sample, OverallResult;
    }
    hide Concluded, Sample, SampleWorld, OverallResult, Locally, EvidenceMade, EvidenceTrustworthy, AreClaimsOf;
    SampleTrust();
    LocalAttestationMeans(t, [1], false, w, evidence, error, claims);
    ResultOfClaims(evidence, POLICY, claims);
    SampleCount(claims);
  }

  lemma SampleTrust()
    ensures var evidence := [SwitchEvidence(Sample(8), map[])];
            EvidenceMade(evidence, POLICY) && !EvidenceTrustworthy(evidence, POLICY)
  {
    hide Made, DeviceTrustworthy, Sample;
    TrustByValue(8);
    var evidence := [SwitchEvidence(Sample(8), map[])];
    assert !DeviceTrustworthy(evidence[0], POLICY);
  }

  lemma SampleCount(claims: seq<Claim>)
    requires AreClaimsOf([SwitchEvidence(Sample(8), map[])], POLICY, claims)
    ensures |claims| == 1
  {
    hide IsClaimOf, Sample;
  }

  /**
   * Attesting that switch locally, without an evaluator and without asking for a detached EAT,
   * returns no error; the claims that come with it fail the built-in policy.
   */
  method MismatchGoesUnnoticed(http: HttpOptions, crypto: Crypto) returns (error: Option<Error>, claims: seq<Claim>)
    ensures error.None? && |claims| == 1 && !OverallResult(Devices(claims))
  {
    var w := SampleWorld(crypto);
    SampleIsPopulated(crypto);
    Prepared(http, w);
    var context := new AttestationContext(http);
    context.SetVerifierType(Local);
    context.SetDeviceType(DEVICE_NVSWITCH);
    assert context.View() == Set(http);
    hide Init, Apply, UpToDate, Concluded, WorldPopulated, SampleWorld, LocalSuccess, Locally, OverallResult;
    error, claims := context.AttestDevice([1], false, w);
    Unnoticed(context.View(), crypto, error, claims);
  }
}
