/**
 * The built-in overall-result policy, over the claims as they are serialized for it, and
 * what it accepts when the chains in those claims come from the OCSP fold.
 */
module Policy {
  import opened Common
  import opened Calendar
  import opened RawProof
  import opened ChainStatus
  import opened StatusDeadline

  datatype CertStatus = CertValid | CertInvalid | CertRevoked | CertExpired

  function CertStatusText(s: CertStatus): string {
    match s
    case CertValid => "valid"
    case CertInvalid => "invalid"
    case CertRevoked => "revoked"
    case CertExpired => "expired"
  }

  function OcspStatusText(s: Status): string {
    match s
    case Good => "good"
    case Revoked => "revoked"
    case Unknown => "unknown"
    case Undefined => "undefined"
  }

  /** The object under "x-sol-cert-ocsp-signed-age". */
  datatype SignedAgeClaim = SignedAgeClaim(
    version: int, mode: string, verificationTime: int, statusDeadline: int, oldestThisUpdate: int, coveredCertificates: int)

  /** One serialized certificate chain; `signedAge` is absent rather than null. */
  datatype ChainClaims = ChainClaims(
    certStatus: string, ocspStatus: string, nonceMatches: bool, responseValid: bool, signedAge: Option<SignedAgeClaim>)

  datatype DeviceClaims =
    | Gpu(measres: string, report: ChainClaims, driverRim: ChainClaims, vbiosRim: ChainClaims)
    | Switch(measres: string, report: ChainClaims, biosRim: ChainClaims)

  function MakeSignedAge(c: OcspClaims): Option<SignedAgeClaim> {
    if !c.signedAge then None
    else Some(SignedAgeClaim(1, "signed-age", c.verificationTime, c.statusDeadline, c.oldestThisUpdate, c.coveredCertificates))
  }

  /** How the verifiers copy a chain's claims into the device claims. */
  function Serialize(status: CertStatus, c: OcspClaims): ChainClaims {
    ChainClaims(CertStatusText(status), OcspStatusText(c.status), c.nonceMatches, c.responseValid, MakeSignedAge(c))
  }

  /** What serialized claims carry, in the words of the claims themselves. */
  predicate Carries(s: ChainClaims, c: OcspClaims) {
    && (s.ocspStatus == "good" <==> c.status == Good)
    && (s.ocspStatus == "revoked" <==> c.status == Revoked)
    && (s.ocspStatus == "unknown" <==> c.status == Unknown)
    && (s.ocspStatus == "undefined" <==> c.status == Undefined)
    && s.nonceMatches == c.nonceMatches && s.responseValid == c.responseValid
    && (s.signedAge.Some? <==> c.signedAge)
    && (c.signedAge ==>
          && s.signedAge.value.version == 1 && s.signedAge.value.mode == "signed-age"
          && s.signedAge.value.verificationTime == c.verificationTime
          && s.signedAge.value.statusDeadline == c.statusDeadline
          && s.signedAge.value.oldestThisUpdate == c.oldestThisUpdate
          && s.signedAge.value.coveredCertificates == c.coveredCertificates)
  }

  lemma SerializeCarries(status: CertStatus, c: OcspClaims)
    ensures Carries(Serialize(status, c), c)
    ensures Serialize(status, c).certStatus == "valid" <==> status == CertValid
    ensures Serialize(status, c).certStatus == "expired" <==> status == CertExpired
  {
  }

  // ---------------------------------------------------------------------------
  // The policy
  // ---------------------------------------------------------------------------

  predicate NonceFresh(c: ChainClaims) {
    c.nonceMatches && c.signedAge.None?
  }

  predicate SignedAgeFresh(c: ChainClaims) {
    && !c.nonceMatches
    && c.signedAge.Some?
    && c.signedAge.value.version == 1
    && c.signedAge.value.mode == "signed-age"
    && c.signedAge.value.coveredCertificates > 0
    && c.signedAge.value.statusDeadline > c.signedAge.value.verificationTime
  }

  predicate ChainAccepted(c: ChainClaims) {
    && c.certStatus == "valid"
    && c.ocspStatus == "good"
    && c.responseValid
    && (NonceFresh(c) || SignedAgeFresh(c))
  }

  predicate DeviceAccepted(d: DeviceClaims) {
    match d
    case Gpu(measres, report, driver, vbios) =>
      measres == "success" && ChainAccepted(report) && ChainAccepted(driver) && ChainAccepted(vbios)
    case Switch(measres, report, bios) =>
      measres == "success" && ChainAccepted(report) && ChainAccepted(bios)
  }

  predicate OverallResult(claims: seq<DeviceClaims>) {
    |claims| > 0 && forall d :: d in claims ==> DeviceAccepted(d)
  }

  function Chains(d: DeviceClaims): seq<ChainClaims> {
    match d
    case Gpu(_, report, driver, vbios) => [report, driver, vbios]
    case Switch(_, report, bios) => [report, bios]
  }

  // ---------------------------------------------------------------------------
  // What it accepts
  // ---------------------------------------------------------------------------

  predicate AllGood(rs: seq<OcspResponse>) {
    forall i :: 0 <= i < |rs| ==> Mapped(rs[i].status) == Good
  }

  /** Every answer in the chain came back with its nonce, or every one is a live signed proof. */
  predicate FreshAnswers(rs: seq<OcspResponse>) {
    || (forall i :: 0 <= i < |rs| ==> !rs[i].signedAge && rs[i].nonceMatches)
    || (forall i :: 0 <= i < |rs| ==> rs[i].signedAge && rs[i].statusDeadline > rs[i].verificationTime)
  }

  /**
   * The policy on a chain says what the answers were: for any OCSP client whose answers
   * make up claims, the chain passes exactly when it is valid, at least one certificate was
   * covered, every answer is good and valid, and all of them are fresh in the same way.
   */
  lemma ChainAcceptedMeans(status: CertStatus, path: seq<Cert>, kind: ChainType, client: OcspClient)
    requires ClaimsFor(path, kind, client).Ok?
    ensures AllOk(Answers(path, StartIndex(kind), client))
    ensures var rs := Values(Answers(path, StartIndex(kind), client));
            ChainAccepted(Serialize(status, ClaimsFor(path, kind, client).value)) <==>
              status == CertValid && rs != [] && AllGood(rs) && AllValid(rs) && FreshAnswers(rs)
  {
    hide ExpirationOf, Least, Answers;
    var rs := Values(Answers(path, StartIndex(kind), client));
    assert Uniform(rs);
    if rs != [] {
      StatusGood(rs);
      FreshnessOf(rs);
    }
  }

  lemma StatusGood(rs: seq<OcspResponse>)
    requires rs != []
    ensures ChainStatusOf(rs) == Good <==> AllGood(rs)
  {
  }

  lemma FreshnessOf(rs: seq<OcspResponse>)
    requires rs != [] && Uniform(rs)
    ensures var c := Summary(rs);
            (c.nonceMatches && !c.signedAge) || (!c.nonceMatches && c.signedAge && c.statusDeadline > c.verificationTime)
            <==> FreshAnswers(rs)
  {
    hide ExpirationOf, FirstNotGood;
    var ds := Deadlines(rs);
    assert forall i :: 0 <= i < |rs| ==> ds[i] in ds && ds[i] == rs[i].statusDeadline;
    var m :| 0 <= m < |rs| && ds[m] == Least(ds);
    assert rs[|rs| - 1].signedAge == rs[0].signedAge == rs[m].signedAge;
  }

  /**
   * Offline chains: success with coverage always satisfies the signed-age rule and never the
   * nonce rule, so the policy then only asks for a valid chain of good certificates.
   */
  lemma OfflineChains(ssl: OpenSsl, ders: seq<seq<byte>>, time: int, path: seq<Cert>, kind: ChainType, status: CertStatus)
    requires Run(ssl, ders, time, path, kind).Ok?
    ensures var c := Run(ssl, ders, time, path, kind).value;
            var s := Serialize(status, c);
            && !NonceFresh(s)
            && (SignedAgeFresh(s) <==> c.coveredCertificates > 0)
            && (ChainAccepted(s) <==> status == CertValid && c.status == Good)
  {
    hide Evidence, Verdict, EvidenceAt, ParseAll;
    var responses := ParseAll(ssl, ders).value;
    var rs := Reports(ssl, Client(responses, time), path, kind);
    if rs != [] {
      assert rs[0].signedAge && !rs[0].nonceMatches;
      DeadlineExact(ssl, ders, path, kind, time, time);
      assert AllValid(rs) by {
        assert forall k :: 0 <= k < |rs| ==> rs[k].responseValid;
      }
    }
  }

  /** Online chains can only be fresh by nonce, and are so exactly when every nonce came back. */
  lemma OnlineChains(path: seq<Cert>, kind: ChainType, client: OcspClient, status: CertStatus)
    requires ClaimsFor(path, kind, client).Ok?
    requires forall k, s, i, inter :: client(k, s, i, inter).Ok? ==> !client(k, s, i, inter).value.signedAge
    ensures AllOk(Answers(path, StartIndex(kind), client))
    ensures var s := Serialize(status, ClaimsFor(path, kind, client).value);
            var rs := Values(Answers(path, StartIndex(kind), client));
            !SignedAgeFresh(s) && (NonceFresh(s) <==> rs != [] && AllNonces(rs))
  {
    hide ExpirationOf, Least, FirstNotGood;
    var answers := Answers(path, StartIndex(kind), client);
    var rs := Values(answers);
    if rs != [] {
      assert answers[|rs| - 1] == Ask(path, client, |rs| - 1);
    }
  }

  /**
   * A chain with no covered certificate, among them one whose verification was skipped and
   * left at its defaults, keeps the overall result from holding, whatever else is claimed.
   */
  lemma NoCoverageNoResult(claims: seq<DeviceClaims>, d: DeviceClaims, i: nat, status: CertStatus, c: OcspClaims)
    requires d in claims && i < |Chains(d)| && Chains(d)[i] == Serialize(status, c)
    requires c == NO_CLAIMS || exists rs :: c == Summary(rs) && c.coveredCertificates == 0
    ensures !OverallResult(claims)
  {
    assert c == NO_CLAIMS;
    assert Serialize(status, c).ocspStatus == "undefined";
    assert !ChainAccepted(Chains(d)[i]);
  }

  // ---------------------------------------------------------------------------
  // Whole devices offline
  // ---------------------------------------------------------------------------

  datatype OfflineChain = OfflineChain(path: seq<Cert>, kind: ChainType, status: CertStatus)

  /** A device whose chains are judged from raw proofs; its measurements do not depend on the time. */
  datatype OfflineDevice =
    | OfflineGpu(measres: string, report: OfflineChain, driverRim: OfflineChain, vbiosRim: OfflineChain)
    | OfflineSwitch(measres: string, report: OfflineChain, biosRim: OfflineChain)

  function PathsOf(d: OfflineDevice): seq<OfflineChain> {
    match d
    case OfflineGpu(_, report, driver, vbios) => [report, driver, vbios]
    case OfflineSwitch(_, report, bios) => [report, bios]
  }

  predicate ChainMade(ssl: OpenSsl, ders: seq<seq<byte>>, time: int, c: OfflineChain) {
    Run(ssl, ders, time, c.path, c.kind).Ok?
  }

  predicate DeviceMade(ssl: OpenSsl, ders: seq<seq<byte>>, time: int, d: OfflineDevice) {
    forall c :: c in PathsOf(d) ==> ChainMade(ssl, ders, time, c)
  }

  function ChainClaimsAt(ssl: OpenSsl, ders: seq<seq<byte>>, time: int, c: OfflineChain): ChainClaims
    requires ChainMade(ssl, ders, time, c)
  {
    Serialize(c.status, Run(ssl, ders, time, c.path, c.kind).value)
  }

  /** The claims of a device, judged from the proofs at one time. */
  function DeviceClaimsAt(ssl: OpenSsl, ders: seq<seq<byte>>, time: int, d: OfflineDevice): DeviceClaims
    requires DeviceMade(ssl, ders, time, d)
  {
    var chains := PathsOf(d);
    assert forall i :: 0 <= i < |chains| ==> chains[i] in chains;
    match d
    case OfflineGpu(measres, _, _, _) =>
      Gpu(measres, ChainClaimsAt(ssl, ders, time, chains[0]), ChainClaimsAt(ssl, ders, time, chains[1]), ChainClaimsAt(ssl, ders, time, chains[2]))
    case OfflineSwitch(measres, _, _) =>
      Switch(measres, ChainClaimsAt(ssl, ders, time, chains[0]), ChainClaimsAt(ssl, ders, time, chains[1]))
  }

  predicate AllMade(ssl: OpenSsl, ders: seq<seq<byte>>, time: int, devices: seq<OfflineDevice>) {
    forall k :: 0 <= k < |devices| ==> DeviceMade(ssl, ders, time, devices[k])
  }

  /** The claims of any number of devices; without `AllMade` there are none. */
  function AllClaimsAt(ssl: OpenSsl, ders: seq<seq<byte>>, time: int, devices: seq<OfflineDevice>): seq<DeviceClaims>
    requires AllMade(ssl, ders, time, devices)
  {
    seq(|devices|, k requires 0 <= k < |devices| => DeviceClaimsAt(ssl, ders, time, devices[k]))
  }

  /** The chains of all devices. */
  function ChainsOfAll(devices: seq<OfflineDevice>): (cs: seq<OfflineChain>)
    ensures forall c :: c in cs <==> exists k :: 0 <= k < |devices| && c in PathsOf(devices[k])
    ensures devices != [] ==> cs != []
  {
    if devices == [] then []
    else
      var front, last := devices[..|devices| - 1], devices[|devices| - 1];
      assert devices == front + [last];
      ChainsOfAll(front) + PathsOf(last)
  }

  function DeadlineOf(ssl: OpenSsl, ders: seq<seq<byte>>, time: int, c: OfflineChain): int {
    if ChainMade(ssl, ders, time, c) then Run(ssl, ders, time, c.path, c.kind).value.statusDeadline else 0
  }

  /** The smallest deadline of any chain of any device. */
  function LeastDeadline(ssl: OpenSsl, ders: seq<seq<byte>>, time: int, devices: seq<OfflineDevice>): (m: int)
    requires devices != []
    ensures forall c :: c in ChainsOfAll(devices) ==> m <= DeadlineOf(ssl, ders, time, c)
    ensures exists c :: c in ChainsOfAll(devices) && m == DeadlineOf(ssl, ders, time, c)
  {
    var cs := ChainsOfAll(devices);
    var ds := seq(|cs|, i requires 0 <= i < |cs| => DeadlineOf(ssl, ders, time, cs[i]));
    assert forall i :: 0 <= i < |cs| ==> ds[i] in ds && ds[i] == DeadlineOf(ssl, ders, time, cs[i]);
    Least(ds)
  }

  lemma ChainShelfLife(ssl: OpenSsl, ders: seq<seq<byte>>, v: int, w: int, chain: OfflineChain)
    requires ChainMade(ssl, ders, v, chain) && ChainAccepted(ChainClaimsAt(ssl, ders, v, chain))
    requires v <= w <= MAX_VERIFICATION_TIME
    ensures v < DeadlineOf(ssl, ders, v, chain)
    ensures ChainMade(ssl, ders, w, chain) <==> w < DeadlineOf(ssl, ders, v, chain)
    ensures ChainMade(ssl, ders, w, chain) ==>
            ChainAccepted(ChainClaimsAt(ssl, ders, w, chain)) && DeadlineOf(ssl, ders, w, chain) == DeadlineOf(ssl, ders, v, chain)
  {
    hide Run;
    OfflineChains(ssl, ders, v, chain.path, chain.kind, chain.status);
    DeadlineExact(ssl, ders, chain.path, chain.kind, v, w);
  }

  predicate ChainsAccepted(ssl: OpenSsl, ders: seq<seq<byte>>, time: int, d: OfflineDevice)
    requires DeviceMade(ssl, ders, time, d)
  {
    forall c :: c in PathsOf(d) ==> ChainAccepted(ChainClaimsAt(ssl, ders, time, c))
  }

  lemma DeviceByChains(ssl: OpenSsl, ders: seq<seq<byte>>, time: int, d: OfflineDevice)
    requires DeviceMade(ssl, ders, time, d)
    ensures DeviceAccepted(DeviceClaimsAt(ssl, ders, time, d)) <==> d.measres == "success" && ChainsAccepted(ssl, ders, time, d)
  {
    hide ChainAccepted, ChainClaimsAt, ChainMade;
    var chains := PathsOf(d);
    assert forall i :: 0 <= i < |chains| ==> chains[i] in chains;
  }

  lemma DeviceShelfLife(ssl: OpenSsl, ders: seq<seq<byte>>, v: int, w: int, d: OfflineDevice)
    requires DeviceMade(ssl, ders, v, d) && DeviceAccepted(DeviceClaimsAt(ssl, ders, v, d))
    requires v <= w <= MAX_VERIFICATION_TIME
    ensures forall c :: c in PathsOf(d) ==> v < DeadlineOf(ssl, ders, v, c)
    ensures DeviceMade(ssl, ders, w, d) <==> forall c :: c in PathsOf(d) ==> w < DeadlineOf(ssl, ders, v, c)
    ensures DeviceMade(ssl, ders, w, d) ==>
            && DeviceAccepted(DeviceClaimsAt(ssl, ders, w, d))
            && forall c :: c in PathsOf(d) ==> DeadlineOf(ssl, ders, w, c) == DeadlineOf(ssl, ders, v, c)
  {
    hide ChainAccepted, ChainMade, ChainClaimsAt, DeadlineOf, PathsOf, DeviceAccepted, DeviceClaimsAt;
    DeviceByChains(ssl, ders, v, d);
    forall c | c in PathsOf(d)
      ensures v < DeadlineOf(ssl, ders, v, c) && (ChainMade(ssl, ders, w, c) <==> w < DeadlineOf(ssl, ders, v, c))
      ensures ChainMade(ssl, ders, w, c) ==>
                ChainAccepted(ChainClaimsAt(ssl, ders, w, c)) && DeadlineOf(ssl, ders, w, c) == DeadlineOf(ssl, ders, v, c)
    {
      assert ChainMade(ssl, ders, v, c);
      ChainShelfLife(ssl, ders, v, w, c);
    }
    if DeviceMade(ssl, ders, w, d) {
      DeviceByChains(ssl, ders, w, d);
    }
  }

  /**
   * A positive offline result has a shelf life, and it is exactly the smallest deadline of all
   * chains of all its devices, GPUs and switches in any number: at any later time a client can
   * be built for, the same proofs give a positive result again, with the same deadline, before
   * it, and from it on there are no claims to judge.
   */
  lemma OverallResultShelfLife(ssl: OpenSsl, ders: seq<seq<byte>>, v: int, w: int, devices: seq<OfflineDevice>)
    requires AllMade(ssl, ders, v, devices) && OverallResult(AllClaimsAt(ssl, ders, v, devices))
    requires v <= w <= MAX_VERIFICATION_TIME
    ensures devices != [] && v < LeastDeadline(ssl, ders, v, devices)
    ensures AllMade(ssl, ders, w, devices) <==> w < LeastDeadline(ssl, ders, v, devices)
    ensures AllMade(ssl, ders, w, devices) ==>
            && OverallResult(AllClaimsAt(ssl, ders, w, devices))
            && LeastDeadline(ssl, ders, w, devices) == LeastDeadline(ssl, ders, v, devices)
  {
    hide DeviceMade, DeviceAccepted, DeviceClaimsAt, DeadlineOf, PathsOf, LeastDeadline, ChainsOfAll;
    var n := |devices|;
    var claims := AllClaimsAt(ssl, ders, v, devices);
    forall k | 0 <= k < n
      ensures forall c :: c in PathsOf(devices[k]) ==> v < DeadlineOf(ssl, ders, v, c)
      ensures DeviceMade(ssl, ders, w, devices[k]) <==> forall c :: c in PathsOf(devices[k]) ==> w < DeadlineOf(ssl, ders, v, c)
      ensures DeviceMade(ssl, ders, w, devices[k]) ==>
                && DeviceAccepted(DeviceClaimsAt(ssl, ders, w, devices[k]))
                && forall c :: c in PathsOf(devices[k]) ==> DeadlineOf(ssl, ders, w, c) == DeadlineOf(ssl, ders, v, c)
    {
      assert claims[k] in claims && claims[k] == DeviceClaimsAt(ssl, ders, v, devices[k]);
      DeviceShelfLife(ssl, ders, v, w, devices[k]);
    }
    var m := LeastDeadline(ssl, ders, v, devices);
    var c :| c in ChainsOfAll(devices) && m == DeadlineOf(ssl, ders, v, c);
    assert (forall k :: 0 <= k < n ==> DeviceMade(ssl, ders, w, devices[k])) <==> w < m;
  }
}
