/**
 * Local verification as a whole: from a report, certificate chains and reference integrity
 * manifests to the claims of a device, from those to the overall result and a detached EAT.
 */
module LocalVerification {
  import opened Common
  import opened Bytes
  import opened Json
  import opened RawProof
  import opened ChainStatus
  import opened Policy
  import opened SpdmRecords
  import opened Measurements
  import opened DetachedEat
  import AR = Report

  function MeasresText(m: Measres): string {
    match m
    case Success => "success"
    case Failure => "fail"
    case NotRun => "not-run"
    case Absent => "absent"
  }

  // ---------------------------------------------------------------------------
  // Certificate chains
  // ---------------------------------------------------------------------------

  /** A chain to be judged: what was presented, the path the library builds, the earliest expiry and the time. */
  datatype ChainJob = ChainJob(
    presented: seq<Cert>, build: seq<Cert> -> Option<seq<Cert>>, expiry: Result<int>, now: int, kind: ChainType, client: OcspClient)

  function StatusOf(expiry: int, now: int): CertStatus { if expiry < now then CertExpired else CertValid }

  /** The chain's claims can be made. */
  predicate Judged(c: ChainJob) {
    && c.expiry.Ok?
    && c.presented != [] && c.build(c.presented) == Some(c.presented)
    && ClaimsFor(c.presented, c.kind, c.client).Ok?
  }

  function ChainOf(c: ChainJob): ChainClaims
    requires Judged(c)
  {
    Serialize(StatusOf(c.expiry.value, c.now), ClaimsFor(c.presented, c.kind, c.client).value)
  }

  /**
   * The chain is the verified path and has not expired, at least one certificate was asked
   * about, and all answers are good, valid and fresh in one way.
   */
  ghost predicate Trustworthy(c: ChainJob) {
    && c.expiry.Ok? && c.expiry.value >= c.now
    && c.presented != [] && c.build(c.presented) == Some(c.presented)
    && var answers := Answers(c.presented, StartIndex(c.kind), c.client);
    && AllOk(answers)
    && var rs := Values(answers);
    && rs != [] && Uniform(rs) && AllGood(rs) && AllValid(rs) && FreshAnswers(rs)
  }

  lemma ChainVerdict(c: ChainJob)
    ensures Judged(c) && ChainAccepted(ChainOf(c)) <==> Trustworthy(c)
  {
    hide ChainAccepted, Serialize, Answers, Values, Uniform, AllGood, AllValid, FreshAnswers, Summary;
    if Judged(c) {
      ChainAcceptedMeans(StatusOf(c.expiry.value, c.now), c.presented, c.kind, c.client);
    }
  }

  /** What a chain's claims say about its expiry and about the answers for its certificates. */
  ghost predicate ChainSays(c: ChainJob, s: ChainClaims) {
    var first := if c.kind.GpuDeviceIdentity? || c.kind.SwitchDeviceIdentity? then 1 else 0;
    && c.expiry.Ok? && (s.certStatus == if c.expiry.value < c.now then "expired" else "valid")
    && AllAsked(c.presented, first, c.client) && OneWay(c.presented, first, c.client)
    && exists o: OcspClaims ::
         StatusReflects(c.presented, first, c.client, o) && TimesReflect(c.presented, first, c.client, o) && Carries(s, o)
  }

  lemma ChainOfSays(c: ChainJob)
    requires Judged(c)
    ensures ChainSays(c, ChainOf(c))
  {
    hide ClaimsFor, Serialize, Carries, AllAsked, OneWay, StatusReflects, TimesReflect;
    ClaimsSay(c.presented, c.kind, c.client);
    SerializeCarries(StatusOf(c.expiry.value, c.now), ClaimsFor(c.presented, c.kind, c.client).value);
    StatusWords(StatusOf(c.expiry.value, c.now), ClaimsFor(c.presented, c.kind, c.client).value);
  }

  lemma StatusWords(status: CertStatus, o: OcspClaims)
    ensures status == CertExpired ==> Serialize(status, o).certStatus == "expired"
    ensures status == CertValid ==> Serialize(status, o).certStatus == "valid"
  {
  }

  /** All answers came with their nonce, or all are signed proofs before their deadline. */
  ghost predicate AskedFresh(path: seq<Cert>, first: nat, client: OcspClient)
    requires AllAsked(path, first, client)
  {
    || (forall i :: first <= i < |path| - 1 ==> !Asked(path, client, i).value.signedAge && Asked(path, client, i).value.nonceMatches)
    || (forall i :: first <= i < |path| - 1 ==> Unexpired(Asked(path, client, i).value))
  }

  predicate Unexpired(a: OcspResponse) { a.signedAge && a.statusDeadline > a.verificationTime }

  /** Trust in a chain, certificate by certificate: the leaf of a device chain is not asked about, all others below the root are. */
  lemma TrustworthyMeans(c: ChainJob)
    ensures var first := if c.kind.GpuDeviceIdentity? || c.kind.SwitchDeviceIdentity? then 1 else 0;
            Trustworthy(c) <==>
              && c.expiry.Ok? && c.expiry.value >= c.now && c.build(c.presented) == Some(c.presented)
              && |c.presented| >= first + 2 && AllAsked(c.presented, first, c.client) && OneWay(c.presented, first, c.client)
              && (forall i :: first <= i < |c.presented| - 1 ==>
                    Asked(c.presented, c.client, i).value.status == 0 && Asked(c.presented, c.client, i).value.responseValid)
              && AskedFresh(c.presented, first, c.client)
  {
    var first := if c.kind.GpuDeviceIdentity? || c.kind.SwitchDeviceIdentity? then 1 else 0;
    assert StartIndex(c.kind) == first;
    AnswerOf(c.presented, first, c.client);
    hide Answers, OneWay, Uniform;
    if AllAsked(c.presented, first, c.client) {
      var rs := Values(Answers(c.presented, first, c.client));
      assert ByCertificate(c.presented, first, c.client, rs);
      OneWayIsUniform(c.presented, first, c.client, rs);
      FlagsSay(c.presented, first, c.client, rs);
      FreshSay(c.presented, first, c.client, rs);
    }
  }

  lemma FreshSay(path: seq<Cert>, first: nat, client: OcspClient, rs: seq<OcspResponse>)
    requires AllAsked(path, first, client) && ByCertificate(path, first, client, rs)
    ensures FreshAnswers(rs) <==> AskedFresh(path, first, client)
    ensures AllGood(rs) <==> forall i :: first <= i < |path| - 1 ==> Asked(path, client, i).value.status == 0
  {
    forall k | 0 <= k < |rs|
      ensures first <= |path| - 2 - k < |path| - 1 && rs[k] == Asked(path, client, |path| - 2 - k).value
    {
    }
    if AskedFresh(path, first, client) {
      assert forall k :: 0 <= k < |rs| ==> (Unexpired(rs[k]) <==> Unexpired(Asked(path, client, |path| - 2 - k).value));
    }
    if FreshAnswers(rs) {
      assert forall i :: first <= i < |path| - 1 ==> Asked(path, client, i).value == rs[|path| - 2 - i];
    }
  }

  /** `X509CertChain::generate_cert_chain_claims`, serialized. */
  method GenerateCertChainClaims(c: ChainJob) returns (r: Result<ChainClaims>)
    ensures r.Ok? <==> Judged(c)
    ensures r.Ok? ==> r.value == ChainOf(c) && ChainSays(c, r.value)
    ensures r.Ok? && ChainAccepted(r.value) <==> Trustworthy(c)
  {
    hide ChainAccepted, Serialize, ClaimsFor, Trustworthy, ChainSays;
    ChainVerdict(c);
    if Judged(c) {
      ChainOfSays(c);
    }
    if c.expiry.Err? {
      return Err(c.expiry.error);
    }
    var status := if c.expiry.value < c.now then CertExpired else CertValid;
    var path := VerifyPath(c.presented, c.build);
    if path.Err? {
      return Err(path.error);
    }
    var claims := GenerateOcspClaims(path.value, c.kind, c.client);
    if claims.Err? {
      return Err(claims.error);
    }
    r := Ok(Serialize(status, claims.value));
  }

  // ---------------------------------------------------------------------------
  // Reference integrity manifests
  // ---------------------------------------------------------------------------

  /** What of a manifest is verified. */
  datatype EvidencePolicy = EvidencePolicy(verifyRimChain: bool, verifyRimSignature: bool)

  /** A fetched manifest, with the answers of the XML library; `unset` is the status its chain has when nothing sets it. */
  datatype Rim = Rim(
    unset: CertStatus, version: Result<string>, chain: Result<ChainJob>, signature: Option<Fault>, manufacturer: Option<Fault>, golden: Result<GoldenMap>)

  /** The manifest is for this version and passes what the policy asks for. */
  predicate RimMade(r: Result<Rim>, version: string, policy: EvidencePolicy, named: bool) {
    && r.Ok? && r.value.version == Ok(version)
    && (policy.verifyRimChain ==> r.value.chain.Ok? && Judged(r.value.chain.value))
    && (policy.verifyRimSignature ==> r.value.signature.None?)
    && (named ==> r.value.manufacturer.None?)
  }

  /** The chain claims of a manifest: those of its chain, or the defaults when it is not verified. */
  function RimChain(rim: Rim, policy: EvidencePolicy): ChainClaims
    requires policy.verifyRimChain ==> rim.chain.Ok? && Judged(rim.chain.value)
  {
    if policy.verifyRimChain then ChainOf(rim.chain.value) else Serialize(rim.unset, NO_CLAIMS)
  }

  /** Without verification a manifest's chain stays at its defaults and is never trustworthy. */
  ghost predicate RimTrustworthy(rim: Rim, policy: EvidencePolicy) {
    policy.verifyRimChain && rim.chain.Ok? && Trustworthy(rim.chain.value)
  }

  /** Version check and `set_driver_rim_claims` (`named`) or `set_vbios_rim_claims`. */
  method MakeRimClaims(r: Result<Rim>, version: string, policy: EvidencePolicy, named: bool, mismatch: Fault)
    returns (c: Result<ChainClaims>)
    ensures c.Ok? <==> RimMade(r, version, policy, named)
    ensures r.Err? ==> c == Err(r.error)
    ensures r.Ok? && r.value.version.Ok? && r.value.version.value != version ==> c == Err(mismatch)
    ensures c.Ok? ==> c.value == RimChain(r.value, policy) && (ChainAccepted(c.value) <==> RimTrustworthy(r.value, policy))
  {
    hide Judged, Trustworthy, ChainOf, ChainSays;
    if r.Err? {
      return Err(r.error);
    }
    var rim := r.value;
    if rim.version.Err? {
      return Err(rim.version.error);
    }
    if rim.version.value != version {
      return Err(mismatch);
    }
    var claims := Serialize(rim.unset, NO_CLAIMS);
    if policy.verifyRimChain {
      if rim.chain.Err? {
        return Err(rim.chain.error);
      }
      var made := GenerateCertChainClaims(rim.chain.value);
      if made.Err? {
        return Err(made.error);
      }
      claims := made.value;
    }
    if policy.verifyRimSignature && rim.signature.Some? {
      return Err(rim.signature.value);
    }
    if named && rim.manufacturer.Some? {
      return Err(rim.manufacturer.value);
    }
    c := Ok(claims);
  }

  // ---------------------------------------------------------------------------
  // One GPU
  // ---------------------------------------------------------------------------

  /**
   * The evidence of a GPU. What is read from the opaque fields of a report and looked up with
   * it are functions of the parsed report: both versions, the comparison of firmware ids,
   * model and mode, the NVDEC0 status and the two manifests.
   */
  datatype GpuInput = GpuInput(
    report: seq<byte>, device: AR.Device, nonce: seq<byte>, chain: ChainJob,
    versions: AR.Parsed -> Result<(string, string)>,
    identity: AR.Parsed -> Option<Fault>,
    model: AR.Parsed -> Option<Fault>,
    nvdec0: AR.Parsed -> Result<byte>,
    driverRim: AR.Parsed -> Result<Rim>,
    vbiosRim: AR.Parsed -> Result<Rim>)

  ghost predicate GoldenPopulated(r: Result<Rim>) {
    r.Ok? && r.value.golden.Ok? ==> Populated(r.value.golden.value)
  }

  ghost predicate GpuPopulated(g: GpuInput) {
    forall p :: GoldenPopulated(g.driverRim(p)) && GoldenPopulated(g.vbiosRim(p))
  }

  /** Nothing stands in the way of claims for a GPU with this report. */
  predicate GpuSteps(g: GpuInput, policy: EvidencePolicy, p: AR.Parsed) {
    && g.versions(p).Ok? && p.request.nonce == g.nonce && g.identity(p).None? && Judged(g.chain) && g.model(p).None?
    && RimMade(g.driverRim(p), g.versions(p).value.0, policy, true)
    && RimMade(g.vbiosRim(p), g.versions(p).value.1, policy, false)
    && g.driverRim(p).value.golden.Ok? && g.vbiosRim(p).value.golden.Ok?
    && Disjoint(g.driverRim(p).value.golden.value, g.vbiosRim(p).value.golden.value)
    && g.nvdec0(p).Ok? && g.nvdec0(p).value in {0xAA, 0x55}
  }

  /** The measurements in the report meet every golden value, index 35 aside with NVDEC0 disabled. */
  ghost predicate GpuMatches(g: GpuInput, policy: EvidencePolicy, p: AR.Parsed)
    requires GpuSteps(g, policy, p)
  {
    var runtime, exempt := RuntimeOf(p.response.blocks), g.nvdec0(p).value == 0x55;
    forall i ::
      && !Failing(g.driverRim(p).value.golden.value, runtime, exempt, i)
      && !Failing(g.vbiosRim(p).value.golden.value, runtime, exempt, i)
  }

  ghost predicate GpuDeserves(g: GpuInput, policy: EvidencePolicy, p: AR.Parsed) {
    && GpuSteps(g, policy, p) && GpuMatches(g, policy, p)
    && Trustworthy(g.chain) && RimTrustworthy(g.driverRim(p).value, policy) && RimTrustworthy(g.vbiosRim(p).value, policy)
  }

  /** The claims of a GPU: each chain in its own place, and whether the golden values are met. */
  ghost predicate GpuSays(g: GpuInput, policy: EvidencePolicy, p: AR.Parsed, d: DeviceClaims)
    requires GpuSteps(g, policy, p)
  {
    && d.Gpu?
    && d.report == ChainOf(g.chain)
    && d.driverRim == RimChain(g.driverRim(p).value, policy)
    && d.vbiosRim == RimChain(g.vbiosRim(p).value, policy)
    && d.measres == if GpuMatches(g, policy, p) then "success" else "fail"
  }

  ghost predicate GpuDescribed(g: GpuInput, policy: EvidencePolicy, d: DeviceClaims) {
    exists p :: AR.Authentic(g.device, [], g.report, p) && GpuSteps(g, policy, p) && GpuSays(g, policy, p, d)
  }

  ghost predicate GpuMade(g: GpuInput, policy: EvidencePolicy) {
    exists p :: AR.Authentic(g.device, [], g.report, p) && GpuSteps(g, policy, p)
  }

  /** The report is authentic, answers to the nonce and meets all golden values, and every chain is trustworthy. */
  ghost predicate GpuTrustworthy(g: GpuInput, policy: EvidencePolicy) {
    exists p :: AR.Authentic(g.device, [], g.report, p) && GpuDeserves(g, policy, p)
  }

  /** Every golden value is met: each index but an exempt 35 has a block, one higher, with one of the values asked for. */
  ghost predicate Met(golden: GoldenMap, blocks: map<byte, Dmtf>, exempt: bool) {
    forall i :: i in golden && !(exempt && i == 35) ==> -1 <= i < 255 && i + 1 in blocks && blocks[i + 1].value in golden[i].values
  }

  lemma MetMeans(golden: GoldenMap, blocks: map<byte, Dmtf>, exempt: bool)
    ensures Met(golden, blocks, exempt) <==> forall i :: !Failing(golden, RuntimeOf(blocks), exempt, i)
  {
    hide RuntimeOf;
    forall i ensures i in RuntimeOf(blocks) <==> -1 <= i < 255 && i + 1 in blocks
      ensures i in RuntimeOf(blocks) ==> RuntimeOf(blocks)[i] == blocks[i + 1].value
    {
      RuntimeKeys(blocks, i);
    }
    if Met(golden, blocks, exempt) {
      forall i ensures !Failing(golden, RuntimeOf(blocks), exempt, i) {
      }
    }
    if forall i :: !Failing(golden, RuntimeOf(blocks), exempt, i) {
      forall i | i in golden && !(exempt && i == 35)
        ensures -1 <= i < 255 && i + 1 in blocks && blocks[i + 1].value in golden[i].values
      {
        assert !Failing(golden, RuntimeOf(blocks), exempt, i);
      }
    }
  }

  lemma TrustedReading(g: GpuInput, policy: EvidencePolicy) returns (p: AR.Parsed)
    requires GpuTrustworthy(g, policy)
    ensures AR.Authentic(g.device, [], g.report, p) && GpuDeserves(g, policy, p)
  {
    hide AR.Authentic, GpuDeserves;
    p :| AR.Authentic(g.device, [], g.report, p) && GpuDeserves(g, policy, p);
  }

  /** What a trustworthy GPU is, in terms of its inputs alone. */
  lemma GpuTrustMeans(g: GpuInput, policy: EvidencePolicy) returns (p: AR.Parsed)
    requires GpuTrustworthy(g, policy)
    ensures AR.Spells(g.report, p) && g.device.verify(AR.SignedBytes(p), p.response.signature) && g.device.refuses(p.response.fields).None?
    ensures p.request.nonce == g.nonce && g.identity(p).None? && g.model(p).None? && g.versions(p).Ok?
    ensures policy.verifyRimChain && g.driverRim(p).Ok? && g.vbiosRim(p).Ok?
    ensures g.driverRim(p).value.version == Ok(g.versions(p).value.0) && g.vbiosRim(p).value.version == Ok(g.versions(p).value.1)
    ensures policy.verifyRimSignature ==> g.driverRim(p).value.signature.None? && g.vbiosRim(p).value.signature.None?
    ensures Trustworthy(g.chain)
    ensures g.driverRim(p).value.chain.Ok? && Trustworthy(g.driverRim(p).value.chain.value)
    ensures g.vbiosRim(p).value.chain.Ok? && Trustworthy(g.vbiosRim(p).value.chain.value)
    ensures g.driverRim(p).value.golden.Ok? && g.vbiosRim(p).value.golden.Ok? && g.nvdec0(p).Ok?
    ensures var exempt := g.nvdec0(p).value == 0x55;
            && (exempt || g.nvdec0(p).value == 0xAA)
            && Met(g.driverRim(p).value.golden.value, p.response.blocks, exempt)
            && Met(g.vbiosRim(p).value.golden.value, p.response.blocks, exempt)
  {
    p := TrustedReading(g, policy);
    hide Judged, Trustworthy, AR.Spells, AR.SignedBytes, Met, RuntimeOf, Failing, Disjoint;
    var exempt := g.nvdec0(p).value == 0x55;
    assert [] + p.response.fields == p.response.fields;
    MetMeans(g.driverRim(p).value.golden.value, p.response.blocks, exempt);
    MetMeans(g.vbiosRim(p).value.golden.value, p.response.blocks, exempt);
  }

  /** The round of `generate_claims_v3` for one GPU, after its report is parsed. */
  method MakeGpuClaimsFrom(g: GpuInput, policy: EvidencePolicy, p: AR.Parsed) returns (r: Result<DeviceClaims>)
    requires GoldenPopulated(g.driverRim(p)) && GoldenPopulated(g.vbiosRim(p))
    ensures r.Ok? <==> GpuSteps(g, policy, p)
    ensures r.Ok? ==> GpuSays(g, policy, p, r.value)
    ensures g.versions(p).Ok? && p.request.nonce != g.nonce ==> r == Err(GpuEvidenceNonceMismatch)
    ensures r.Ok? && DeviceAccepted(r.value) <==> GpuDeserves(g, policy, p)
  {
    hide Judged, Trustworthy, RimTrustworthy, RimMade, ChainAccepted, RuntimeOf, Failing, Populated, Disjoint, ChainOf, RimChain, ChainSays;
    assert GpuDeserves(g, policy, p) ==> GpuSteps(g, policy, p);
    hide GpuDeserves, DeviceAccepted;
    var versions := g.versions(p);
    if versions.Err? {
      return Err(versions.error);
    }
    if p.request.nonce != g.nonce {
      return Err(GpuEvidenceNonceMismatch);
    }
    if g.identity(p).Some? {
      return Err(g.identity(p).value);
    }
    var report := GenerateCertChainClaims(g.chain);
    if report.Err? {
      return Err(report.error);
    }
    if g.model(p).Some? {
      return Err(g.model(p).value);
    }
    var driverRim, vbiosRim := g.driverRim(p), g.vbiosRim(p);
    var rims := MakeGpuRims(driverRim, vbiosRim, versions.value, policy);
    if rims.Err? {
      return Err(rims.error);
    }
    var measured := MeasureGpu(driverRim.value.golden, vbiosRim.value.golden, g.nvdec0(p), p.response.blocks);
    if measured.Err? {
      return Err(measured.error);
    }
    r := Ok(Gpu(MeasresText(measured.value), report.value, rims.value.0, rims.value.1));
    GpuAccepted(g, policy, p, measured.value, report.value, rims.value.0, rims.value.1);
  }

  /** The claims of both manifests of a GPU. */
  method MakeGpuRims(driverRim: Result<Rim>, vbiosRim: Result<Rim>, versions: (string, string), policy: EvidencePolicy)
    returns (r: Result<(ChainClaims, ChainClaims)>)
    ensures r.Ok? <==> RimMade(driverRim, versions.0, policy, true) && RimMade(vbiosRim, versions.1, policy, false)
    ensures r.Ok? ==>
              && driverRim.Ok? && vbiosRim.Ok?
              && RimMade(driverRim, versions.0, policy, true) && RimMade(vbiosRim, versions.1, policy, false)
              && r.value.0 == RimChain(driverRim.value, policy) && r.value.1 == RimChain(vbiosRim.value, policy)
              && (ChainAccepted(r.value.0) <==> RimTrustworthy(driverRim.value, policy))
              && (ChainAccepted(r.value.1) <==> RimTrustworthy(vbiosRim.value, policy))
  {
    hide RimTrustworthy, RimMade, ChainAccepted, RimChain;
    var driver := MakeRimClaims(driverRim, versions.0, policy, true, GpuEvidenceDriverRimVersionMismatch);
    if driver.Err? {
      return Err(driver.error);
    }
    var vbios := MakeRimClaims(vbiosRim, versions.1, policy, false, GpuEvidenceVbiosRimVersionMismatch);
    if vbios.Err? {
      return Err(vbios.error);
    }
    RimThere(driverRim, versions.0, policy, true);
    RimThere(vbiosRim, versions.1, policy, false);
    r := Ok((driver.value, vbios.value));
  }

  /** The claims made of these parts pass the policy exactly when the GPU deserves it. */
  lemma GpuAccepted(
    g: GpuInput, policy: EvidencePolicy, p: AR.Parsed, m: Measres, report: ChainClaims, driver: ChainClaims, vbios: ChainClaims)
    requires GpuSteps(g, policy, p) && (m == Success || m == Failure) && (m == Success <==> GpuMatches(g, policy, p))
    requires ChainAccepted(report) <==> Trustworthy(g.chain)
    requires ChainAccepted(driver) <==> RimTrustworthy(g.driverRim(p).value, policy)
    requires ChainAccepted(vbios) <==> RimTrustworthy(g.vbiosRim(p).value, policy)
    ensures DeviceAccepted(Gpu(MeasresText(m), report, driver, vbios)) <==> GpuDeserves(g, policy, p)
  {
    hide GpuSteps, GpuMatches, ChainAccepted, Trustworthy, RimTrustworthy, MeasresText;
    OnlySuccessReads(m);
  }

  /** The golden values of both manifests against the blocks of the report. */
  method MeasureGpu(driver: Result<GoldenMap>, vbios: Result<GoldenMap>, nvdec0: Result<byte>, blocks: map<byte, Dmtf>)
    returns (r: Result<Measres>)
    requires driver.Ok? ==> Populated(driver.value)
    requires vbios.Ok? ==> Populated(vbios.value)
    ensures r.Ok? <==>
              && driver.Ok? && vbios.Ok? && Disjoint(driver.value, vbios.value)
              && nvdec0.Ok? && nvdec0.value in {0xAA, 0x55}
    ensures r.Ok? ==> r.value == Success || r.value == Failure
    ensures r.Ok? ==>
              var runtime, exempt := RuntimeOf(blocks), nvdec0.value == 0x55;
              r.value == Success <==> forall i :: !Failing(driver.value, runtime, exempt, i) && !Failing(vbios.value, runtime, exempt, i)
  {
    hide RuntimeOf, Failing, Populated, Disjoint;
    if driver.Err? {
      return Err(driver.error);
    }
    if vbios.Err? {
      return Err(vbios.error);
    }
    var m := new GpuClaims();
    var error := m.SetMeasurementClaims(driver.value, vbios.value, nvdec0, blocks);
    if error.Some? {
      return Err(error.value);
    }
    r := Ok(m.measres);
  }

  lemma RimThere(r: Result<Rim>, version: string, policy: EvidencePolicy, named: bool)
    requires RimMade(r, version, policy, named)
    ensures r.Ok?
  {
  }

  lemma OnlySuccessReads(m: Measres)
    ensures MeasresText(m) == "success" <==> m == Success
  {
  }

  /** The round of `generate_claims_v3` for one GPU. */
  method MakeGpuClaims(g: GpuInput, policy: EvidencePolicy) returns (r: Result<DeviceClaims>)
    requires GpuPopulated(g)
    ensures r.Ok? <==> GpuMade(g, policy)
    ensures r.Ok? ==> GpuDescribed(g, policy, r.value)
    ensures r.Ok? && DeviceAccepted(r.value) <==> GpuTrustworthy(g, policy)
  {
    hide GpuSteps, GpuDeserves, GpuSays, AR.Signed, DeviceAccepted, GoldenPopulated;
    var report := new AR.AttestationReport();
    var error := report.Create(g.device, g.report);
    if error.Some? {
      return Err(error.value);
    }
    var p := report.View([]);
    forall q | AR.Authentic(g.device, [], g.report, q) ensures q == p {
      OneReading(g.device, g.report, p, q);
    }
    r := MakeGpuClaimsFrom(g, policy, p);
  }

  lemma OneReading(device: AR.Device, report: seq<byte>, p: AR.Parsed, q: AR.Parsed)
    requires AR.Authentic(device, [], report, p) && AR.Authentic(device, [], report, q)
    ensures p == q
  {
    hide AR.Spells;
    AR.SameFields(report, p, q);
  }

  // ---------------------------------------------------------------------------
  // One switch
  // ---------------------------------------------------------------------------

  /** The evidence of a switch, read in the same way. */
  datatype SwitchInput = SwitchInput(
    report: seq<byte>, device: AR.Device, nonce: seq<byte>, chain: ChainJob,
    version: AR.Parsed -> Result<string>,
    identity: AR.Parsed -> Option<Fault>,
    model: AR.Parsed -> Option<Fault>,
    biosRim: AR.Parsed -> Result<Rim>)

  ghost predicate SwitchPopulated(g: SwitchInput) {
    forall p :: GoldenPopulated(g.biosRim(p))
  }

  predicate SwitchSteps(g: SwitchInput, policy: EvidencePolicy, p: AR.Parsed) {
    && p.request.nonce == g.nonce && g.version(p).Ok? && g.identity(p).None? && Judged(g.chain) && g.model(p).None?
    && RimMade(g.biosRim(p), g.version(p).value, policy, false)
    && g.biosRim(p).value.golden.Ok?
  }

  ghost predicate SwitchMatches(g: SwitchInput, policy: EvidencePolicy, p: AR.Parsed)
    requires SwitchSteps(g, policy, p)
  {
    forall i :: !Failing(g.biosRim(p).value.golden.value, RuntimeOf(p.response.blocks), false, i)
  }

  ghost predicate SwitchDeserves(g: SwitchInput, policy: EvidencePolicy, p: AR.Parsed) {
    && SwitchSteps(g, policy, p) && SwitchMatches(g, policy, p)
    && Trustworthy(g.chain) && RimTrustworthy(g.biosRim(p).value, policy)
  }

  ghost predicate SwitchSays(g: SwitchInput, policy: EvidencePolicy, p: AR.Parsed, d: DeviceClaims)
    requires SwitchSteps(g, policy, p)
  {
    && d.Switch?
    && d.report == ChainOf(g.chain)
    && d.biosRim == RimChain(g.biosRim(p).value, policy)
    && d.measres == if SwitchMatches(g, policy, p) then "success" else "fail"
  }

  ghost predicate SwitchDescribed(g: SwitchInput, policy: EvidencePolicy, d: DeviceClaims) {
    exists p :: AR.Authentic(g.device, [], g.report, p) && SwitchSteps(g, policy, p) && SwitchSays(g, policy, p, d)
  }

  ghost predicate SwitchMade(g: SwitchInput, policy: EvidencePolicy) {
    exists p :: AR.Authentic(g.device, [], g.report, p) && SwitchSteps(g, policy, p)
  }

  ghost predicate SwitchTrustworthy(g: SwitchInput, policy: EvidencePolicy) {
    exists p :: AR.Authentic(g.device, [], g.report, p) && SwitchDeserves(g, policy, p)
  }

  /** What a trustworthy switch is, in terms of its inputs alone. */
  lemma SwitchTrustMeans(g: SwitchInput, policy: EvidencePolicy) returns (p: AR.Parsed)
    requires SwitchTrustworthy(g, policy)
    ensures AR.Spells(g.report, p) && g.device.verify(AR.SignedBytes(p), p.response.signature) && g.device.refuses(p.response.fields).None?
    ensures p.request.nonce == g.nonce && g.identity(p).None? && g.model(p).None? && g.version(p).Ok?
    ensures policy.verifyRimChain && g.biosRim(p).Ok? && g.biosRim(p).value.version == g.version(p)
    ensures policy.verifyRimSignature ==> g.biosRim(p).value.signature.None?
    ensures Trustworthy(g.chain) && g.biosRim(p).value.chain.Ok? && Trustworthy(g.biosRim(p).value.chain.value)
    ensures g.biosRim(p).value.golden.Ok? && Met(g.biosRim(p).value.golden.value, p.response.blocks, false)
  {
    p :| AR.Authentic(g.device, [], g.report, p) && SwitchDeserves(g, policy, p);
    hide Judged, Trustworthy, AR.Spells, AR.SignedBytes, Met, RuntimeOf, Failing, Disjoint;
    assert [] + p.response.fields == p.response.fields;
    MetMeans(g.biosRim(p).value.golden.value, p.response.blocks, false);
  }

  /** The round of `generate_claims_v3` for one switch, after its report is parsed. */
  method MakeSwitchClaimsFrom(g: SwitchInput, policy: EvidencePolicy, p: AR.Parsed) returns (r: Result<DeviceClaims>)
    requires GoldenPopulated(g.biosRim(p))
    ensures r.Ok? <==> SwitchSteps(g, policy, p)
    ensures r.Ok? ==> SwitchSays(g, policy, p, r.value)
    ensures p.request.nonce != g.nonce ==> r == Err(SwitchEvidenceNonceMismatch)
    ensures r.Ok? && DeviceAccepted(r.value) <==> SwitchDeserves(g, policy, p)
  {
    hide Judged, Trustworthy, RimTrustworthy, RimMade, ChainAccepted, RuntimeOf, Failing, Populated, ChainOf, RimChain, ChainSays;
    assert SwitchDeserves(g, policy, p) ==> SwitchSteps(g, policy, p);
    hide SwitchDeserves, DeviceAccepted;
    if p.request.nonce != g.nonce {
      return Err(SwitchEvidenceNonceMismatch);
    }
    var version := g.version(p);
    if version.Err? {
      return Err(version.error);
    }
    if g.identity(p).Some? {
      return Err(g.identity(p).value);
    }
    var report := GenerateCertChainClaims(g.chain);
    if report.Err? {
      return Err(report.error);
    }
    if g.model(p).Some? {
      return Err(g.model(p).value);
    }
    var rim := g.biosRim(p);
    var bios := MakeRimClaims(rim, version.value, policy, false, SwitchEvidenceVbiosRimVersionMismatch);
    if bios.Err? {
      return Err(bios.error);
    }
    RimThere(rim, version.value, policy, false);
    if rim.value.golden.Err? {
      return Err(rim.value.golden.error);
    }
    var m := new SwitchClaims();
    m.SetMeasurementClaims(rim.value.golden.value, p.response.blocks);
    r := Ok(Switch(MeasresText(m.measres), report.value, bios.value));
    SwitchAccepted(g, policy, p, m.measres, report.value, bios.value);
  }

  /** The claims made of these parts pass the policy exactly when the switch deserves it. */
  lemma SwitchAccepted(g: SwitchInput, policy: EvidencePolicy, p: AR.Parsed, m: Measres, report: ChainClaims, bios: ChainClaims)
    requires SwitchSteps(g, policy, p) && (m == Success <==> SwitchMatches(g, policy, p))
    requires ChainAccepted(report) <==> Trustworthy(g.chain)
    requires ChainAccepted(bios) <==> RimTrustworthy(g.biosRim(p).value, policy)
    ensures DeviceAccepted(Switch(MeasresText(m), report, bios)) <==> SwitchDeserves(g, policy, p)
  {
    hide SwitchSteps, SwitchMatches, ChainAccepted, Trustworthy, RimTrustworthy, MeasresText;
    OnlySuccessReads(m);
  }

  /** The round of `generate_claims_v3` for one switch. */
  method MakeSwitchClaims(g: SwitchInput, policy: EvidencePolicy) returns (r: Result<DeviceClaims>)
    requires SwitchPopulated(g)
    ensures r.Ok? <==> SwitchMade(g, policy)
    ensures r.Ok? ==> SwitchDescribed(g, policy, r.value)
    ensures r.Ok? && DeviceAccepted(r.value) <==> SwitchTrustworthy(g, policy)
  {
    hide SwitchSteps, SwitchDeserves, SwitchSays, AR.Signed, DeviceAccepted, GoldenPopulated;
    var report := new AR.AttestationReport();
    var error := report.Create(g.device, g.report);
    if error.Some? {
      return Err(error.value);
    }
    var p := report.View([]);
    forall q | AR.Authentic(g.device, [], g.report, q) ensures q == p {
      OneReading(g.device, g.report, p, q);
    }
    r := MakeSwitchClaimsFrom(g, policy, p);
  }

  // ---------------------------------------------------------------------------
  // All evidence
  // ---------------------------------------------------------------------------

  datatype DeviceInput = GpuEvidence(gpu: GpuInput, extra: Payload) | SwitchEvidence(switch: SwitchInput, extra: Payload)

  ghost predicate InputPopulated(e: DeviceInput) {
    match e
    case GpuEvidence(g, _) => GpuPopulated(g)
    case SwitchEvidence(g, _) => SwitchPopulated(g)
  }

  ghost predicate Made(e: DeviceInput, policy: EvidencePolicy) {
    match e
    case GpuEvidence(g, _) => GpuMade(g, policy)
    case SwitchEvidence(g, _) => SwitchMade(g, policy)
  }

  ghost predicate DeviceTrustworthy(e: DeviceInput, policy: EvidencePolicy) {
    match e
    case GpuEvidence(g, _) => GpuTrustworthy(g, policy)
    case SwitchEvidence(g, _) => SwitchTrustworthy(g, policy)
  }

  ghost predicate EvidencePopulated(evidence: seq<DeviceInput>) {
    forall k :: 0 <= k < |evidence| ==> InputPopulated(evidence[k])
  }

  ghost predicate EvidenceMade(evidence: seq<DeviceInput>, policy: EvidencePolicy) {
    forall k :: 0 <= k < |evidence| ==> Made(evidence[k], policy)
  }

  /** There is a device, and every device is trustworthy. */
  ghost predicate EvidenceTrustworthy(evidence: seq<DeviceInput>, policy: EvidencePolicy) {
    evidence != [] && forall k :: 0 <= k < |evidence| ==> DeviceTrustworthy(evidence[k], policy)
  }

  function NonceOf(e: DeviceInput): seq<byte> { if e.GpuEvidence? then e.gpu.nonce else e.switch.nonce }

  /** The claims are those of the device's own report, chains and manifests. */
  ghost predicate Described(e: DeviceInput, policy: EvidencePolicy, d: DeviceClaims) {
    match e
    case GpuEvidence(g, _) => GpuDescribed(g, policy, d)
    case SwitchEvidence(g, _) => SwitchDescribed(g, policy, d)
  }

  /** What the claim of a device says: its type, the nonce, its own claims, acceptable exactly when it is trustworthy. */
  ghost predicate IsClaimOf(e: DeviceInput, policy: EvidencePolicy, c: Claim) {
    && c.deviceType == Ok(if e.GpuEvidence? then "gpu" else "switch")
    && c.nonce == Ok(ToHex(NonceOf(e)))
    && c.extra == e.extra
    && Described(e, policy, c.device)
    && (DeviceAccepted(c.device) <==> DeviceTrustworthy(e, policy))
  }

  ghost predicate AreClaimsOf(evidence: seq<DeviceInput>, policy: EvidencePolicy, claims: seq<Claim>) {
    |claims| == |evidence| && forall k :: 0 <= k < |claims| ==> IsClaimOf(evidence[k], policy, claims[k])
  }

  lemma TrustworthyIsMade(e: DeviceInput, policy: EvidencePolicy)
    requires DeviceTrustworthy(e, policy)
    ensures Made(e, policy)
  {
    hide AR.Authentic, GpuSteps, SwitchSteps;
  }

  method MakeClaim(e: DeviceInput, policy: EvidencePolicy) returns (r: Result<Claim>)
    requires InputPopulated(e)
    ensures r.Ok? <==> Made(e, policy)
    ensures r.Ok? ==> IsClaimOf(e, policy, r.value)
  {
    hide GpuMade, SwitchMade, GpuTrustworthy, SwitchTrustworthy, GpuPopulated, SwitchPopulated, DeviceAccepted, ToHex,
      GpuDescribed, SwitchDescribed;
    match e
    case GpuEvidence(g, extra) =>
      var made := MakeGpuClaims(g, policy);
      if made.Err? {
        return Err(made.error);
      }
      var nonce := ToHexString(g.nonce);
      r := Ok(Claim(Ok("gpu"), Ok(nonce), extra, made.value));
    case SwitchEvidence(g, extra) =>
      var made := MakeSwitchClaims(g, policy);
      if made.Err? {
        return Err(made.error);
      }
      var nonce := ToHexString(g.nonce);
      r := Ok(Claim(Ok("switch"), Ok(nonce), extra, made.value));
  }

  /** The claims of the devices in front of the first for which none can be made. */
  ghost predicate StoppedAfter(evidence: seq<DeviceInput>, policy: EvidencePolicy, claims: seq<Claim>) {
    && |claims| < |evidence| && !Made(evidence[|claims|], policy)
    && EvidenceMade(evidence[..|claims|], policy) && AreClaimsOf(evidence[..|claims|], policy, claims)
  }

  /**
   * The loop of `generate_claims_v3`. There is no error exactly when claims can be made for every
   * device, and the built-in policy holds of them exactly when there is a device and each is
   * trustworthy. After an error the claims of the devices before it are there.
   */
  method GenerateClaims(evidence: seq<DeviceInput>, policy: EvidencePolicy) returns (error: Option<Fault>, claims: seq<Claim>)
    requires EvidencePopulated(evidence)
    ensures error.None? <==> EvidenceMade(evidence, policy)
    ensures if error.None? then AreClaimsOf(evidence, policy, claims) else StoppedAfter(evidence, policy, claims)
    ensures error.None? && OverallResult(Devices(claims)) <==> EvidenceTrustworthy(evidence, policy)
  {
    hide Made, IsClaimOf, DeviceTrustworthy, InputPopulated, OverallResult;
    forall k | 0 <= k < |evidence| && DeviceTrustworthy(evidence[k], policy) ensures Made(evidence[k], policy) {
      TrustworthyIsMade(evidence[k], policy);
    }
    claims := [];
    for k := 0 to |evidence|
      invariant |claims| == k
      invariant forall j :: 0 <= j < k ==> Made(evidence[j], policy) && IsClaimOf(evidence[j], policy, claims[j])
    {
      var claim := MakeClaim(evidence[k], policy);
      if claim.Err? {
        return Some(claim.error), claims;
      }
      claims := claims + [claim.value];
    }
    ResultOfClaims(evidence, policy, claims);
    error := None;
  }

  lemma ResultOfClaims(evidence: seq<DeviceInput>, policy: EvidencePolicy, claims: seq<Claim>)
    requires AreClaimsOf(evidence, policy, claims)
    ensures OverallResult(Devices(claims)) <==> EvidenceTrustworthy(evidence, policy)
  {
    hide DeviceAccepted, DeviceTrustworthy, Described, ToHex;
    var devices := Devices(claims);
    assert forall k :: 0 <= k < |claims| ==> devices[k] in devices && devices[k] == claims[k].device;
    assert forall k :: 0 <= k < |claims| ==> IsClaimOf(evidence[k], policy, claims[k]);
  }

  // ---------------------------------------------------------------------------
  // The answer
  // ---------------------------------------------------------------------------

  /** A detached EAT can be issued for the claims of the session. */
  ghost predicate Issuable(s: Session) { Ready(s) && Clean(s, |s.claims|) }

  /**
   * When a detached EAT can be issued for the claims of evidence: clock, random bytes and digests
   * work, and the nonces agree. Device types never stand in the way.
   */
  lemma IssuableIff(evidence: seq<DeviceInput>, policy: EvidencePolicy, s: Session)
    requires AreClaimsOf(evidence, policy, s.claims)
    ensures Issuable(s) <==>
              && s.now.Ok? && (forall n :: 0 <= n <= |evidence| ==> s.random(n).Ok?)
              && (forall i, j :: 0 <= i < j < |evidence| && NonceOf(evidence[i]) != [] ==> NonceOf(evidence[j]) == NonceOf(evidence[i]))
              && (forall k :: 0 <= k < |evidence| ==> s.crypto.sha256(DeviceToken(s, k)).Ok?)
  {
    hide DeviceToken, IsClaimOf, FaultAt, NonceClash;
    var n := |evidence|;
    forall k | 0 <= k < n ensures FaultAt(s, k).None? <==> !NonceClash(s.claims, k) && RandomAfter(s, k) && DigestAt(s, k) {
      ClaimFault(evidence[k], policy, s, k);
    }
    NoncesOf(evidence, policy, s.claims);
    RandomFrom(s, n);
    assert forall k :: 0 <= k < n ==> (DigestAt(s, k) <==> s.crypto.sha256(DeviceToken(s, k)).Ok?);
  }

  predicate DigestAt(s: Session, k: nat)
    requires k < |s.claims|
  {
    s.crypto.sha256(DeviceToken(s, k)).Ok?
  }

  lemma ClaimFault(e: DeviceInput, policy: EvidencePolicy, s: Session, k: nat)
    requires k < |s.claims| && IsClaimOf(e, policy, s.claims[k])
    ensures FaultAt(s, k).None? <==> !NonceClash(s.claims, k) && RandomAfter(s, k) && DigestAt(s, k)
  {
    hide DeviceToken, IsClaimOf, NonceClash;
    ClaimKind(e, policy, s.claims[k]);
  }

  /** The texts of the nonces agree exactly when the nonces do. */
  lemma NoncesOf(evidence: seq<DeviceInput>, policy: EvidencePolicy, claims: seq<Claim>)
    requires AreClaimsOf(evidence, policy, claims)
    ensures (forall k :: 0 <= k < |claims| ==> !NonceClash(claims, k)) <==>
            (forall i, j :: 0 <= i < j < |evidence| && NonceOf(evidence[i]) != [] ==> NonceOf(evidence[j]) == NonceOf(evidence[i]))
  {
    hide IsClaimOf, NonceClash, NonceAfter, FromHex, ToHex;
    NoncesAgree(claims, |claims|);
    forall k | 0 <= k < |claims| ensures NonceText(claims[k]) == ToHex(NonceOf(evidence[k])) {
      ClaimKind(evidence[k], policy, claims[k]);
    }
    hide NonceText, NonceOf;
    forall i, j | 0 <= i < |claims| && 0 <= j < |claims|
      ensures NonceText(claims[i]) == NonceText(claims[j]) <==> NonceOf(evidence[i]) == NonceOf(evidence[j])
      ensures NonceText(claims[i]) == "" <==> NonceOf(evidence[i]) == []
    {
      HexRoundTrip(NonceOf(evidence[i]));
      HexRoundTrip(NonceOf(evidence[j]));
    }
  }

  lemma RandomFrom(s: Session, n: nat)
    ensures (forall k :: 0 <= k <= n ==> s.random(k).Ok?) <==> s.random(0).Ok? && forall k :: 0 <= k < n ==> RandomAfter(s, k)
  {
    if s.random(0).Ok? && forall k :: 0 <= k < n ==> RandomAfter(s, k) {
      forall k | 0 <= k <= n ensures s.random(k).Ok? {
        assert k > 0 ==> RandomAfter(s, k - 1);
      }
    }
  }

  predicate RandomAfter(s: Session, k: nat) { s.random(k + 1).Ok? }

  lemma ClaimKind(e: DeviceInput, policy: EvidencePolicy, c: Claim)
    requires IsClaimOf(e, policy, c)
    ensures c.deviceType.Ok? && c.nonce == Ok(ToHex(NonceOf(e)))
    ensures KindOf(c) == if e.GpuEvidence? then "GPU" else "SWITCH"
  {
    hide ToHex, Described, DeviceTrustworthy, DeviceAccepted;
    hide Upper;
    UpperAt("gpu");
    UpperAt("switch");
    assert Upper("gpu") == "GPU";
    assert Upper("switch") == "SWITCH";
  }

  /** What `verify_evidence` answers; `desk` is what a detached EAT is issued with. */
  ghost predicate LocalAnswer(
    evidence: seq<DeviceInput>, policy: EvidencePolicy, wantsEat: bool, desk: Session, error: Option<Error>, claims: seq<Claim>)
  {
    if !EvidenceMade(evidence, policy) then error.Some? && error.value != OverallResultFalse && StoppedAfter(evidence, policy, claims)
    else
      && AreClaimsOf(evidence, policy, claims)
      && (!wantsEat ==> error.None?)
      && (wantsEat && !Issuable(desk.(claims := claims)) ==>
            error.Some? && error.value != OverallResultFalse && RefusedFor(desk.(claims := claims), error.value))
      && (wantsEat && Issuable(desk.(claims := claims)) ==>
            error == if EvidenceTrustworthy(evidence, policy) then None else Some(OverallResultFalse))
  }

  /** `verify_evidence` of a local verifier: the claims, and the detached EAT if one is wanted. */
  method VerifyEvidence(evidence: seq<DeviceInput>, policy: EvidencePolicy, wantsEat: bool, desk: Session)
    returns (error: Option<Error>, claims: seq<Claim>, eat: Option<Eat>)
    requires EvidencePopulated(evidence)
    ensures LocalAnswer(evidence, policy, wantsEat, desk, error, claims)
    ensures eat.Some? <==> EvidenceMade(evidence, policy) && wantsEat && Issuable(desk.(claims := claims))
    ensures eat.Some? ==> IssuedAs(desk.(claims := claims), eat.value, EvidenceTrustworthy(evidence, policy))
  {
    hide EvidenceMade, EvidenceTrustworthy, AreClaimsOf, StoppedAfter, OverallResult, IssuedAs, Clean, Ready, EvidencePopulated, RefusedFor;
    var stopped: Option<Fault>;
    stopped, claims := GenerateClaims(evidence, policy);
    if stopped.Some? {
      return stopped, claims, None;
    }
    if !wantsEat {
      return None, claims, None;
    }
    var s := desk.(claims := claims);
    var o := GetDetachedEat(s);
    ResultCarried(s, o);
    error := ErrorCode(o);
    eat := if o.Issued? then Some(o.eat) else None;
  }

  lemma ResultCarried(s: Session, o: Outcome)
    requires o.Issued? ==> IssuedAs(s, o.eat, o.result)
    ensures o.Issued? ==> o.result == OverallResult(Devices(s.claims))
  {
  }
}
