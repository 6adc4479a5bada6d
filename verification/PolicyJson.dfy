/**
 * The built-in policy as its Rego text reads it, on JSON, and the members the SDK writes for it.
 */
module PolicyJson {
  import opened Common
  import opened Json
  import opened Policy

  // ---------------------------------------------------------------------------
  // What the SDK writes
  // ---------------------------------------------------------------------------

  function SignedAgeJson(s: SignedAgeClaim): Value {
    Obj(map["version" := Num(s.version), "mode" := Str(s.mode),
            "verification_time_unix" := Num(s.verificationTime), "status_deadline_unix" := Num(s.statusDeadline),
            "oldest_this_update_unix" := Num(s.oldestThisUpdate), "covered_certificates" := Num(s.coveredCertificates)])
  }

  /** A serialized chain; the expiration date and the revocation reason are not read by the policy. */
  function ChainJson(c: ChainClaims): Value {
    var base: Payload :=
      map["x-nvidia-cert-status" := Str(c.certStatus), "x-nvidia-cert-ocsp-status" := Str(c.ocspStatus),
          "x-nvidia-cert-ocsp-nonce-matches" := Bool(c.nonceMatches), "x-nvidia-cert-ocsp-response-valid" := Bool(c.responseValid)];
    Obj(if c.signedAge.None? then base else base["x-sol-cert-ocsp-signed-age" := SignedAgeJson(c.signedAge.value)])
  }

  /** The members of a device's claims that the policy reads. */
  function DeviceJson(d: DeviceClaims): Payload {
    match d
    case Gpu(measres, report, driver, vbios) =>
      map["x-nvidia-device-type" := Str("gpu"), "measres" := Str(measres),
          "x-nvidia-gpu-attestation-report-cert-chain" := ChainJson(report),
          "x-nvidia-gpu-driver-rim-cert-chain" := ChainJson(driver),
          "x-nvidia-gpu-vbios-rim-cert-chain" := ChainJson(vbios)]
    case Switch(measres, report, bios) =>
      map["x-nvidia-device-type" := Str("nvswitch"), "measres" := Str(measres),
          "x-nvidia-switch-attestation-report-cert-chain" := ChainJson(report),
          "x-nvidia-switch-bios-rim-cert-chain" := ChainJson(bios)]
  }

  // ---------------------------------------------------------------------------
  // What the policy reads
  // ---------------------------------------------------------------------------

  /** Defined and not false, which is when `not x` fails. */
  predicate Holds(p: Payload, key: string) { key in p && p[key] != Bool(false) }

  predicate NumberAbove(p: Payload, key: string, than: Option<int>) {
    key in p && p[key].Num? && than.Some? && p[key].number > than.value
  }

  function NumberAt(p: Payload, key: string): Option<int> {
    if key in p && p[key].Num? then Some(p[key].number) else None
  }

  predicate ReadsSignedAge(v: Value) {
    && v.Obj?
    && NumberAt(v.fields, "version") == Some(1)
    && Text(v.fields, "mode") == Some("signed-age")
    && NumberAbove(v.fields, "covered_certificates", Some(0))
    && NumberAbove(v.fields, "status_deadline_unix", NumberAt(v.fields, "verification_time_unix"))
  }

  predicate ReadsFresh(c: Payload) {
    || (Flag(c, "x-nvidia-cert-ocsp-nonce-matches") == Some(true) && !Holds(c, "x-sol-cert-ocsp-signed-age"))
    || (Flag(c, "x-nvidia-cert-ocsp-nonce-matches") == Some(false)
        && "x-sol-cert-ocsp-signed-age" in c && ReadsSignedAge(c["x-sol-cert-ocsp-signed-age"]))
  }

  predicate ReadsChain(p: Payload, key: string) {
    && key in p && p[key].Obj?
    && var c := p[key].fields;
    && Text(c, "x-nvidia-cert-status") == Some("valid")
    && Text(c, "x-nvidia-cert-ocsp-status") == Some("good")
    && Flag(c, "x-nvidia-cert-ocsp-response-valid") == Some(true)
    && ReadsFresh(c)
  }

  predicate ReadsGpu(p: Payload) {
    && Text(p, "measres") == Some("success")
    && ReadsChain(p, "x-nvidia-gpu-attestation-report-cert-chain")
    && ReadsChain(p, "x-nvidia-gpu-driver-rim-cert-chain")
    && ReadsChain(p, "x-nvidia-gpu-vbios-rim-cert-chain")
  }

  predicate ReadsSwitch(p: Payload) {
    && Text(p, "measres") == Some("success")
    && ReadsChain(p, "x-nvidia-switch-attestation-report-cert-chain")
    && ReadsChain(p, "x-nvidia-switch-bios-rim-cert-chain")
  }

  /** `validate_claim_by_device_type`. */
  predicate ReadsDevice(p: Payload) {
    || (Text(p, "x-nvidia-device-type") == Some("gpu") && ReadsGpu(p))
    || (Text(p, "x-nvidia-device-type") == Some("nvswitch") && ReadsSwitch(p))
  }

  // ---------------------------------------------------------------------------
  // The two agree
  // ---------------------------------------------------------------------------

  lemma SignedAgeAgrees(s: SignedAgeClaim)
    ensures SignedAgeJson(s).Obj?
    ensures ReadsSignedAge(SignedAgeJson(s)) <==>
            s.version == 1 && s.mode == "signed-age" && s.coveredCertificates > 0 && s.statusDeadline > s.verificationTime
  {
    var f := SignedAgeJson(s).fields;
    assert NumberAt(f, "version") == Some(s.version);
    assert Text(f, "mode") == Some(s.mode);
    assert NumberAt(f, "covered_certificates") == Some(s.coveredCertificates);
    assert NumberAt(f, "status_deadline_unix") == Some(s.statusDeadline);
    assert NumberAt(f, "verification_time_unix") == Some(s.verificationTime);
  }

  lemma ChainMembers(c: ChainClaims)
    ensures ChainJson(c).Obj?
    ensures var f := ChainJson(c).fields;
            && Text(f, "x-nvidia-cert-status") == Some(c.certStatus)
            && Text(f, "x-nvidia-cert-ocsp-status") == Some(c.ocspStatus)
            && Flag(f, "x-nvidia-cert-ocsp-nonce-matches") == Some(c.nonceMatches)
            && Flag(f, "x-nvidia-cert-ocsp-response-valid") == Some(c.responseValid)
            && ("x-sol-cert-ocsp-signed-age" in f <==> c.signedAge.Some?)
            && (c.signedAge.Some? ==> f["x-sol-cert-ocsp-signed-age"] == SignedAgeJson(c.signedAge.value))
  {
    hide SignedAgeJson;
  }

  lemma ChainAgrees(p: Payload, key: string, c: ChainClaims)
    requires key in p && p[key] == ChainJson(c)
    ensures ReadsChain(p, key) <==> ChainAccepted(c)
  {
    hide ChainJson, SignedAgeJson, ReadsSignedAge, Text, Flag;
    ChainMembers(c);
    if c.signedAge.Some? {
      SignedAgeAgrees(c.signedAge.value);
    }
  }

  /** A payload that holds what the SDK writes about a device, whatever else is in it. */
  ghost predicate Shows(p: Payload, d: DeviceClaims) {
    forall key :: key in DeviceJson(d) ==> key in p && p[key] == DeviceJson(d)[key]
  }

  lemma GpuMembers(p: Payload, d: DeviceClaims)
    requires d.Gpu? && Shows(p, d)
    ensures Text(p, "x-nvidia-device-type") == Some("gpu") && Text(p, "measres") == Some(d.measres)
    ensures "x-nvidia-gpu-attestation-report-cert-chain" in p && p["x-nvidia-gpu-attestation-report-cert-chain"] == ChainJson(d.report)
    ensures "x-nvidia-gpu-driver-rim-cert-chain" in p && p["x-nvidia-gpu-driver-rim-cert-chain"] == ChainJson(d.driverRim)
    ensures "x-nvidia-gpu-vbios-rim-cert-chain" in p && p["x-nvidia-gpu-vbios-rim-cert-chain"] == ChainJson(d.vbiosRim)
  {
    hide ChainJson;
    var j := DeviceJson(d);
    assert "x-nvidia-device-type" in j && "measres" in j;
    assert "x-nvidia-gpu-attestation-report-cert-chain" in j && "x-nvidia-gpu-driver-rim-cert-chain" in j;
    assert "x-nvidia-gpu-vbios-rim-cert-chain" in j;
  }

  lemma SwitchMembers(p: Payload, d: DeviceClaims)
    requires d.Switch? && Shows(p, d)
    ensures Text(p, "x-nvidia-device-type") == Some("nvswitch") && Text(p, "measres") == Some(d.measres)
    ensures "x-nvidia-switch-attestation-report-cert-chain" in p && p["x-nvidia-switch-attestation-report-cert-chain"] == ChainJson(d.report)
    ensures "x-nvidia-switch-bios-rim-cert-chain" in p && p["x-nvidia-switch-bios-rim-cert-chain"] == ChainJson(d.biosRim)
  {
    hide ChainJson;
    var j := DeviceJson(d);
    assert "x-nvidia-device-type" in j && "measres" in j;
    assert "x-nvidia-switch-attestation-report-cert-chain" in j && "x-nvidia-switch-bios-rim-cert-chain" in j;
  }

  /** The policy on the JSON the SDK writes is the policy on the claims, whatever else stands in that JSON. */
  lemma PolicyAgrees(p: Payload, d: DeviceClaims)
    requires Shows(p, d)
    ensures ReadsDevice(p) <==> DeviceAccepted(d)
  {
    hide Shows, ReadsChain, ChainJson, ChainAccepted, Text;
    match d
    case Gpu(_, report, driver, vbios) =>
      GpuMembers(p, d);
      ChainAgrees(p, "x-nvidia-gpu-attestation-report-cert-chain", report);
      ChainAgrees(p, "x-nvidia-gpu-driver-rim-cert-chain", driver);
      ChainAgrees(p, "x-nvidia-gpu-vbios-rim-cert-chain", vbios);
    case Switch(_, report, bios) =>
      SwitchMembers(p, d);
      ChainAgrees(p, "x-nvidia-switch-attestation-report-cert-chain", report);
      ChainAgrees(p, "x-nvidia-switch-bios-rim-cert-chain", bios);
  }
}
