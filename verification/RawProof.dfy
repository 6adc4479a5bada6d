/**
 * Offline certificate status: the raw-proof OCSP client that judges signed responses by
 * their signed age (thisUpdate and nextUpdate of RFC 6960, section 4.2.2.1) against a
 * verification time its owner supplies. OpenSSL is a set of deterministic functions.
 */
module RawProof {
  import opened Common
  import opened Calendar
  import StatusBundle

  /** A certificate, named by its DER encoding, and a CertID likewise. */
  type Cert = seq<byte>
  type CertId = seq<byte>

  /** An ASN.1 time, if OpenSSL can turn it into calendar fields. */
  datatype Asn1Time = Unreadable | Readable(tm: Tm)

  /** One SingleResponse; `status` is negative when OpenSSL cannot read it. */
  datatype Single = Single(id: Option<CertId>, status: int, reason: int, thisUpdate: Asn1Time, nextUpdate: Option<Asn1Time>)

  datatype BasicResponse = BasicResponse(singles: seq<Single>, signature: seq<byte>)

  datatype Signature = Valid | Invalid | Broken

  /** The foreign functions, for one trust store. */
  datatype OpenSsl = OpenSsl(
    certId: (Cert, Cert) -> Option<CertId>,
    parse: seq<byte> -> Result<BasicResponse>,
    verify: (BasicResponse, seq<Cert>) -> Signature)

  /** `NvOcspResponse`, what any OCSP client reports about one certificate. */
  datatype OcspResponse = OcspResponse(
    thisUpdate: int, nextUpdate: int, reason: int, status: int, nonceMatches: bool, responseValid: bool,
    signedAge: bool, verificationTime: int, statusDeadline: int)

  const MAX_SIGNED_AGE_SECONDS := 86400
  const FUTURE_TOLERANCE_SECONDS := 60

  /** The client's own state: parsed responses and the time they are judged at. */
  datatype Client = Client(responses: seq<BasicResponse>, verificationTime: int)

  // ---------------------------------------------------------------------------
  // Coverage
  // ---------------------------------------------------------------------------

  function Matches(singles: seq<Single>, id: CertId): nat {
    if singles == [] then 0
    else Matches(singles[..|singles| - 1], id) + (if singles[|singles| - 1].id == Some(id) then 1 else 0)
  }

  method CountSingleResponses(response: BasicResponse, id: CertId) returns (matches: nat)
    ensures matches == Matches(response.singles, id)
  {
    matches := 0;
    var singles := response.singles;
    for i := 0 to |singles|
      invariant matches == Matches(singles[..i], id)
    {
      assert singles[..i + 1][..i] == singles[..i];
      if singles[i].id == Some(id) {
        matches := matches + 1;
      }
    }
    assert singles[..|singles|] == singles;
  }

  function Coverage(responses: seq<BasicResponse>, id: CertId): nat {
    if responses == [] then 0
    else Coverage(responses[..|responses| - 1], id) + Matches(responses[|responses| - 1].singles, id)
  }

  /** The responses that say anything about `id`, in the order supplied. */
  function Covering(responses: seq<BasicResponse>, id: CertId): (c: seq<BasicResponse>)
    ensures |c| <= Coverage(responses, id)
    ensures Coverage(responses, id) > 0 ==> |c| > 0
    ensures forall r :: r in c ==> r in responses && Matches(r.singles, id) > 0
  {
    if responses == [] then []
    else
      var last := responses[|responses| - 1];
      Covering(responses[..|responses| - 1], id) + (if Matches(last.singles, id) > 0 then [last] else [])
  }

  // ---------------------------------------------------------------------------
  // One certificate
  // ---------------------------------------------------------------------------

  /** What a covering response says: the fields `get_single_status` extracts. */
  datatype SignedStatus = SignedStatus(status: int, reason: int, thisUpdate: int, nextUpdate: Option<int>)

  /** `OCSP_resp_find`: the first entry for `id`. */
  function Find(singles: seq<Single>, id: CertId): (i: nat)
    requires Matches(singles, id) > 0
    ensures i < |singles| && singles[i].id == Some(id)
    ensures forall j :: 0 <= j < i ==> singles[j].id != Some(id)
  {
    var front := singles[..|singles| - 1];
    if Matches(front, id) > 0 then Find(front, id)
    else NoMatches(front, id); |singles| - 1
  }

  lemma {:induction false} NoMatches(singles: seq<Single>, id: CertId)
    ensures Matches(singles, id) == 0 <==> forall j :: 0 <= j < |singles| ==> singles[j].id != Some(id)
  {
    if singles != [] {
      NoMatches(singles[..|singles| - 1], id);
    }
  }

  function SingleStatus(response: BasicResponse, id: CertId): Result<SignedStatus> {
    if Matches(response.singles, id) != 1 then Err(OcspInvalidResponse)
    else
      var single := response.singles[Find(response.singles, id)];
      if single.status < 0 || single.thisUpdate.Unreadable? || single.nextUpdate == Some(Unreadable) then
        Err(OcspInvalidResponse)
      else
        Ok(SignedStatus(
          single.status, single.reason, TimeGm(single.thisUpdate.tm),
          if single.nextUpdate.None? then None else Some(TimeGm(single.nextUpdate.value.tm))))
  }

  function Deadline(thisUpdate: int, nextUpdate: int): int {
    Min(nextUpdate, thisUpdate + MAX_SIGNED_AGE_SECONDS)
  }

  /** The signed status is fit for use at `time`. */
  predicate Fresh(s: SignedStatus, time: int) {
    && s.nextUpdate.Some?
    && s.thisUpdate < s.nextUpdate.value
    && s.thisUpdate - FUTURE_TOLERANCE_SECONDS <= time < Deadline(s.thisUpdate, s.nextUpdate.value)
  }

  /** The answer about a certificate whose signed status is `s`. */
  function Report(s: SignedStatus, time: int): OcspResponse
    requires s.nextUpdate.Some?
  {
    OcspResponse(s.thisUpdate, s.nextUpdate.value, s.reason, s.status, false, true,
                 true, time, Deadline(s.thisUpdate, s.nextUpdate.value))
  }

  /** The signed status the supplied responses hold for a certificate, whatever the time. */
  function Evidence(ssl: OpenSsl, responses: seq<BasicResponse>, subject: Cert, issuer: Cert, intermediates: seq<Cert>)
    : Result<SignedStatus>
  {
    match ssl.certId(subject, issuer)
    case None => Err(InternalError)
    case Some(id) =>
      if Coverage(responses, id) != 1 then Err(OcspInvalidResponse)
      else
        var covering := Covering(responses, id)[0];
        match ssl.verify(covering, intermediates)
        case Invalid => Err(OcspInvalidResponse)
        case Broken => Err(InternalError)
        case Valid => SingleStatus(covering, id)
  }

  /** The verdict of the raw-proof client on one certificate. */
  function Verdict(ssl: OpenSsl, client: Client, subject: Cert, issuer: Cert, intermediates: seq<Cert>)
    : Result<OcspResponse>
  {
    match Evidence(ssl, client.responses, subject, issuer, intermediates)
    case Err(e) => Err(e)
    case Ok(s) =>
      if Fresh(s, client.verificationTime) then Ok(Report(s, client.verificationTime))
      else Err(OcspInvalidResponse)
  }

  /** `RawProofOcspClient::get_ocsp_response`. */
  method GetOcspResponse(ssl: OpenSsl, client: Client, subject: Cert, issuer: Cert, intermediates: seq<Cert>)
    returns (r: Result<OcspResponse>)
    ensures r == Verdict(ssl, client, subject, issuer, intermediates)
    ensures Means(ssl, client, subject, issuer, intermediates, r)
  {
    hide SingleStatus, Matches, Means, Fresh;
    VerdictMeans(ssl, client, subject, issuer, intermediates);
    var maybeId := ssl.certId(subject, issuer);
    if maybeId.None? {
      return Err(InternalError);
    }
    var id := maybeId.value;
    var responses := client.responses;
    var coverage: nat := 0;
    var covering: Option<BasicResponse> := None;
    for i := 0 to |responses|
      invariant coverage == Coverage(responses[..i], id)
      invariant covering == if Covering(responses[..i], id) == [] then None else Some(Covering(responses[..i], id)[0])
    {
      assert responses[..i + 1][..i] == responses[..i];
      var matches := CountSingleResponses(responses[i], id);
      coverage := coverage + matches;
      if matches > 0 && covering.None? {
        covering := Some(responses[i]);
      }
    }
    assert responses[..|responses|] == responses;
    if coverage != 1 {
      return Err(OcspInvalidResponse);
    }
    match ssl.verify(covering.value, intermediates)
    case Invalid => return Err(OcspInvalidResponse);
    case Broken => return Err(InternalError);
    case Valid =>
    var status := SingleStatus(covering.value, id);
    if status.Err? {
      return Err(status.error);
    }
    r := JudgeByAge(status.value, client.verificationTime);
  }

  /** The end of `get_ocsp_response`: the checks of the two times. */
  method JudgeByAge(s: SignedStatus, time: int) returns (r: Result<OcspResponse>)
    ensures r == if Fresh(s, time) then Ok(Report(s, time)) else Err(OcspInvalidResponse)
  {
    if s.nextUpdate.None? {
      return Err(OcspInvalidResponse);
    }
    var nextUpdate := s.nextUpdate.value;
    if nextUpdate <= s.thisUpdate {
      return Err(OcspInvalidResponse);
    }
    if s.thisUpdate - FUTURE_TOLERANCE_SECONDS > time {
      return Err(OcspInvalidResponse);
    }
    var deadline := Min(nextUpdate, s.thisUpdate + MAX_SIGNED_AGE_SECONDS);
    if time >= deadline {
      return Err(OcspInvalidResponse);
    }
    r := Ok(OcspResponse(s.thisUpdate, nextUpdate, s.reason, s.status, false, true, true, time, deadline));
  }

  // ---------------------------------------------------------------------------
  // Which responses matter
  // ---------------------------------------------------------------------------

  /** The place of one entry among all entries of all supplied responses. */
  predicate EntryFor(responses: seq<BasicResponse>, id: CertId, i: nat, j: nat) {
    i < |responses| && j < |responses[i].singles| && responses[i].singles[j].id == Some(id)
  }

  /** One entry is about the certificate, and no other. */
  ghost predicate OnlyEntry(responses: seq<BasicResponse>, id: CertId, i: nat, j: nat) {
    && EntryFor(responses, id, i, j)
    && forall i': nat, j': nat :: EntryFor(responses, id, i', j') ==> i' == i && j' == j
  }

  /** A signed entry that can be used at time `v`: readable, in order, not from the future, not too old. */
  ghost predicate Fit(ssl: OpenSsl, response: BasicResponse, single: Single, intermediates: seq<Cert>, v: int) {
    && ssl.verify(response, intermediates) == Valid
    && single.status >= 0 && single.thisUpdate.Readable? && single.nextUpdate.Some? && single.nextUpdate.value.Readable?
    && var from, to := TimeGm(single.thisUpdate.tm), TimeGm(single.nextUpdate.value.tm);
    && from < to && from - 60 <= v && v < to && v < from + 86400
  }

  /** The answer says what the entry says, and until when. */
  ghost predicate Repeats(a: OcspResponse, single: Single, v: int) {
    && single.thisUpdate.Readable? && single.nextUpdate.Some? && single.nextUpdate.value.Readable?
    && var from, to := TimeGm(single.thisUpdate.tm), TimeGm(single.nextUpdate.value.tm);
    && a.status == single.status && a.reason == single.reason
    && a.thisUpdate == from && a.nextUpdate == to
    && a.statusDeadline == (if to < from + 86400 then to else from + 86400)
    && a.verificationTime == v && a.signedAge && !a.nonceMatches && a.responseValid
  }

  /**
   * What an answer of the client means in terms of the supplied responses alone: it is given
   * exactly when one entry covers the certificate and is fit, and repeats that entry; a refusal
   * is internal only when there is no CertID or the signature check itself breaks.
   */
  ghost predicate Means(ssl: OpenSsl, client: Client, subject: Cert, issuer: Cert, intermediates: seq<Cert>, r: Result<OcspResponse>) {
    match ssl.certId(subject, issuer)
    case None => r == Err(InternalError)
    case Some(id) =>
      var responses, v := client.responses, client.verificationTime;
      && (r.Ok? <==>
            exists i: nat, j: nat :: OnlyEntry(responses, id, i, j) && Fit(ssl, responses[i], responses[i].singles[j], intermediates, v))
      && (r.Ok? ==> forall i: nat, j: nat :: OnlyEntry(responses, id, i, j) ==> Repeats(r.value, responses[i].singles[j], v))
      && (r.Err? ==> r.error == if Breaks(ssl, responses, id, intermediates) then InternalError else OcspInvalidResponse)
  }

  /** The signature of the one response with an entry cannot be checked. */
  ghost predicate Breaks(ssl: OpenSsl, responses: seq<BasicResponse>, id: CertId, intermediates: seq<Cert>) {
    exists i: nat, j: nat :: OnlyEntry(responses, id, i, j) && ssl.verify(responses[i], intermediates) == Broken
  }

  lemma {:induction false} MatchesUnique(singles: seq<Single>, id: CertId, j: nat)
    requires j < |singles| && singles[j].id == Some(id)
    requires forall k :: 0 <= k < |singles| && singles[k].id == Some(id) ==> k == j
    ensures Matches(singles, id) == 1
  {
    var front := singles[..|singles| - 1];
    if j < |front| {
      MatchesUnique(front, id, j);
    } else {
      NoMatches(front, id);
    }
  }

  lemma {:induction false} CoverageSingle(responses: seq<BasicResponse>, id: CertId, i: nat)
    requires i < |responses| && Matches(responses[i].singles, id) == 1
    requires forall k :: 0 <= k < |responses| && k != i ==> Matches(responses[k].singles, id) == 0
    ensures Coverage(responses, id) == 1 && Covering(responses, id) == [responses[i]]
  {
    hide Matches;
    var front := responses[..|responses| - 1];
    assert forall k :: 0 <= k < |front| ==> front[k] == responses[k];
    if i < |front| {
      CoverageSingle(front, id, i);
    } else {
      assert forall r :: r in front ==> Matches(r.singles, id) == 0;
      NothingCovered(front, id);
    }
  }

  lemma CoveredByOnly(responses: seq<BasicResponse>, id: CertId, i: nat, j: nat)
    requires OnlyEntry(responses, id, i, j)
    ensures Coverage(responses, id) == 1 && Covering(responses, id) == [responses[i]]
    ensures Matches(responses[i].singles, id) == 1 && Find(responses[i].singles, id) == j
  {
    forall k | 0 <= k < |responses[i].singles| && responses[i].singles[k].id == Some(id) ensures k == j {
      assert EntryFor(responses, id, i, k);
    }
    MatchesUnique(responses[i].singles, id, j);
    forall k | 0 <= k < |responses| && k != i ensures Matches(responses[k].singles, id) == 0 {
      forall m | 0 <= m < |responses[k].singles| ensures responses[k].singles[m].id != Some(id) {
        assert EntryFor(responses, id, k, m) ==> k == i;
      }
      NoMatches(responses[k].singles, id);
    }
    CoverageSingle(responses, id, i);
    var f := Find(responses[i].singles, id);
    assert EntryFor(responses, id, i, f);
  }

  lemma OnlyCovered(responses: seq<BasicResponse>, id: CertId) returns (i: nat, j: nat)
    requires Coverage(responses, id) == 1
    ensures OnlyEntry(responses, id, i, j)
  {
    var covering := Covering(responses, id)[0];
    i :| 0 <= i < |responses| && responses[i] == covering;
    j := Find(covering.singles, id);
    forall i': nat, j': nat | EntryFor(responses, id, i', j') ensures i' == i && j' == j {
      NoMatches(responses[i'].singles, id);
      CoverageAt(responses, id, i);
      MatchesOne(responses[i].singles, id, j, if i' == i then j' else j);
    }
  }

  lemma VerdictMeans(ssl: OpenSsl, client: Client, subject: Cert, issuer: Cert, intermediates: seq<Cert>)
    ensures Means(ssl, client, subject, issuer, intermediates, Verdict(ssl, client, subject, issuer, intermediates))
  {
    if ssl.certId(subject, issuer).Some? {
      var id := ssl.certId(subject, issuer).value;
      hide Coverage, Covering, Matches, Find;
      if Coverage(client.responses, id) == 1 {
        var i, j := OnlyCovered(client.responses, id);
        CoveredByOnly(client.responses, id, i, j);
        EvidenceOfEntry(ssl, client, subject, issuer, intermediates, id, i, j);
      } else {
        forall i: nat, j: nat | OnlyEntry(client.responses, id, i, j) ensures false {
          CoveredByOnly(client.responses, id, i, j);
        }
      }
    }
  }

  /** With the one entry known, the verdict follows from it. */
  lemma EvidenceOfEntry(
    ssl: OpenSsl, client: Client, subject: Cert, issuer: Cert, intermediates: seq<Cert>, id: CertId, i: nat, j: nat)
    requires ssl.certId(subject, issuer) == Some(id) && OnlyEntry(client.responses, id, i, j)
    requires Coverage(client.responses, id) == 1 && Covering(client.responses, id) == [client.responses[i]]
    requires Matches(client.responses[i].singles, id) == 1 && Find(client.responses[i].singles, id) == j
    ensures var r := Verdict(ssl, client, subject, issuer, intermediates);
            var response, single := client.responses[i], client.responses[i].singles[j];
            && (r.Ok? <==> Fit(ssl, response, single, intermediates, client.verificationTime))
            && (r.Ok? ==> Repeats(r.value, single, client.verificationTime))
            && (r.Err? ==> r.error == if ssl.verify(response, intermediates) == Broken then InternalError else OcspInvalidResponse)
  {
    hide Coverage, Covering, Matches, Find, TimeGm;
  }

  lemma {:induction false} MatchesOne(singles: seq<Single>, id: CertId, j: nat, k: nat)
    requires Matches(singles, id) <= 1
    requires j < |singles| && k < |singles| && singles[j].id == Some(id) && singles[k].id == Some(id)
    ensures j == k
  {
    var front := singles[..|singles| - 1];
    NoMatches(front, id);
    assert forall i :: 0 <= i < |front| ==> front[i] == singles[i];
    if j < |front| && k < |front| {
      MatchesOne(front, id, j, k);
    }
  }

  lemma {:induction false} CoverageAt(responses: seq<BasicResponse>, id: CertId, i: nat)
    requires i < |responses|
    ensures Coverage(responses, id) >= Matches(responses[i].singles, id)
    ensures forall k :: 0 <= k < |responses| && k != i ==>
              Coverage(responses, id) >= Matches(responses[i].singles, id) + Matches(responses[k].singles, id)
  {
    var front := responses[..|responses| - 1];
    if i < |front| {
      CoverageAt(front, id, i);
      assert forall k :: 0 <= k < |front| ==> front[k] == responses[k];
    } else {
      forall k | 0 <= k < |front|
        ensures Coverage(front, id) >= Matches(responses[k].singles, id)
      {
        CoverageAt(front, id, k);
      }
    }
  }

  /** Success means one entry in all the supplied responses is about the certificate, and no more. */
  lemma SuccessCoversOnce(ssl: OpenSsl, client: Client, subject: Cert, issuer: Cert, intermediates: seq<Cert>)
    returns (i: nat, j: nat)
    requires Verdict(ssl, client, subject, issuer, intermediates).Ok?
    ensures ssl.certId(subject, issuer).Some?
    ensures var id := ssl.certId(subject, issuer).value;
            && EntryFor(client.responses, id, i, j)
            && forall i': nat, j': nat :: EntryFor(client.responses, id, i', j') ==> i' == i && j' == j
  {
    i, j := OnlyCovered(client.responses, ssl.certId(subject, issuer).value);
  }

  lemma {:induction false} CoverageOfCovering(responses: seq<BasicResponse>, id: CertId)
    ensures Coverage(Covering(responses, id), id) == Coverage(responses, id)
    ensures Covering(Covering(responses, id), id) == Covering(responses, id)
  {
    if responses != [] {
      var front, last := responses[..|responses| - 1], responses[|responses| - 1];
      CoverageOfCovering(front, id);
      if Matches(last.singles, id) > 0 {
        var c := Covering(responses, id);
        assert c[..|c| - 1] == Covering(front, id);
      } else {
        assert Covering(responses, id) == Covering(front, id);
      }
    }
  }

  lemma {:induction false} CoverageConcat(a: seq<BasicResponse>, b: seq<BasicResponse>, id: CertId)
    ensures Coverage(a + b, id) == Coverage(a, id) + Coverage(b, id)
  {
    if b == [] {
      assert a + b == a;
    } else {
      assert (a + b)[..|a + b| - 1] == a + b[..|b| - 1];
      CoverageConcat(a, b[..|b| - 1], id);
    }
  }

  /** Coverage does not depend on the order of the responses. */
  lemma {:induction false} CoveragePermuted(a: seq<BasicResponse>, b: seq<BasicResponse>, id: CertId)
    requires multiset(a) == multiset(b)
    ensures Coverage(a, id) == Coverage(b, id)
  {
    if a == [] {
      assert |multiset(b)| == 0;
    } else {
      var before, after := TakeOut(a, b);
      CoveragePermuted(a[..|a| - 1], before + after, id);
      CoverageConcat(before, after, id);
      CoverageConcat(before, [a[|a| - 1]] + after, id);
      CoverageConcat([a[|a| - 1]], after, id);
    }
  }

  /** The same covering responses, in any order, carry the same evidence. */
  lemma EvidenceFromCovering(ssl: OpenSsl, a: seq<BasicResponse>, b: seq<BasicResponse>, subject: Cert, issuer: Cert, intermediates: seq<Cert>)
    requires forall id :: ssl.certId(subject, issuer) == Some(id) ==> multiset(Covering(a, id)) == multiset(Covering(b, id))
    ensures Evidence(ssl, a, subject, issuer, intermediates) == Evidence(ssl, b, subject, issuer, intermediates)
  {
    if ssl.certId(subject, issuer).Some? {
      SameCovering(a, b, ssl.certId(subject, issuer).value);
    }
  }

  lemma SameCovering(a: seq<BasicResponse>, b: seq<BasicResponse>, id: CertId)
    requires multiset(Covering(a, id)) == multiset(Covering(b, id))
    ensures Coverage(a, id) == Coverage(b, id)
    ensures Coverage(a, id) == 1 ==> Covering(a, id)[0] == Covering(b, id)[0]
  {
    var ca, cb := Covering(a, id), Covering(b, id);
    CoverageOfCovering(a, id);
    CoverageOfCovering(b, id);
    CoveragePermuted(ca, cb, id);
    if Coverage(a, id) == 1 {
      assert cb == [cb[0]];
      assert ca[0] in multiset(cb);
    }
  }

  lemma {:induction false} CoveringConcat(a: seq<BasicResponse>, b: seq<BasicResponse>, id: CertId)
    ensures Covering(a + b, id) == Covering(a, id) + Covering(b, id)
  {
    if b == [] {
      assert a + b == a;
    } else {
      assert (a + b)[..|a + b| - 1] == a + b[..|b| - 1];
      CoveringConcat(a, b[..|b| - 1], id);
    }
  }

  lemma {:induction false} CoveringPermuted(a: seq<BasicResponse>, b: seq<BasicResponse>, id: CertId)
    requires multiset(a) == multiset(b)
    ensures multiset(Covering(a, id)) == multiset(Covering(b, id))
  {
    hide Matches, Coverage, Covering;
    if a == [] {
      assert |multiset(b)| == 0;
      assert a == b;
    } else {
      var front, last := a[..|a| - 1], a[|a| - 1];
      var before, after := TakeOut(a, b);
      CoveringPermuted(front, before + after, id);
      CoveringConcat(before, [last] + after, id);
      CoveringConcat([last], after, id);
      CoveringConcat(before, after, id);
      CoveringConcat(front, [last], id);
      assert front + [last] == a;
      Shuffle(Covering(front, id), Covering(before, id), Covering([last], id), Covering(after, id));
    }
  }

  /** Permuting the supplied responses changes no verdict. */
  lemma VerdictPermuted(ssl: OpenSsl, a: Client, b: Client, subject: Cert, issuer: Cert, intermediates: seq<Cert>)
    requires a.verificationTime == b.verificationTime && multiset(a.responses) == multiset(b.responses)
    ensures Verdict(ssl, a, subject, issuer, intermediates) == Verdict(ssl, b, subject, issuer, intermediates)
  {
    hide Evidence;
    forall id { CoveringPermuted(a.responses, b.responses, id); }
    EvidenceFromCovering(ssl, a.responses, b.responses, subject, issuer, intermediates);
  }

  /** Responses about other certificates can be added or removed anywhere. */
  lemma VerdictIgnoresOthers(ssl: OpenSsl, client: Client, before: seq<BasicResponse>, others: seq<BasicResponse>, after: seq<BasicResponse>,
                             subject: Cert, issuer: Cert, intermediates: seq<Cert>)
    requires client.responses == before + others + after
    requires forall id, r :: ssl.certId(subject, issuer) == Some(id) && r in others ==> Matches(r.singles, id) == 0
    ensures Verdict(ssl, client, subject, issuer, intermediates)
         == Verdict(ssl, client.(responses := before + after), subject, issuer, intermediates)
  {
    hide Evidence;
    forall id | ssl.certId(subject, issuer) == Some(id)
      ensures Covering(before + others + after, id) == Covering(before + after, id)
    {
      OthersCoverNothing(before, others, after, id);
    }
    EvidenceFromCovering(ssl, client.responses, before + after, subject, issuer, intermediates);
  }

  lemma OthersCoverNothing(before: seq<BasicResponse>, others: seq<BasicResponse>, after: seq<BasicResponse>, id: CertId)
    requires forall r :: r in others ==> Matches(r.singles, id) == 0
    ensures Covering(before + others + after, id) == Covering(before + after, id)
  {
    hide Matches, Coverage, Covering;
    CoveringConcat(before + others, after, id);
    CoveringConcat(before, others, id);
    CoveringConcat(before, after, id);
    NothingCovered(others, id);
  }

  lemma {:induction false} NothingCovered(others: seq<BasicResponse>, id: CertId)
    requires forall r :: r in others ==> Matches(r.singles, id) == 0
    ensures Covering(others, id) == []
  {
    if others != [] {
      NothingCovered(others[..|others| - 1], id);
    }
  }

  // ---------------------------------------------------------------------------
  // Building a client
  // ---------------------------------------------------------------------------

  /** The responses of a client built from `ders`, if each of them is accepted. */
  function ParseAll(ssl: OpenSsl, ders: seq<seq<byte>>): Result<seq<BasicResponse>> {
    if ders == [] then Ok([])
    else
      match ParseAll(ssl, ders[..|ders| - 1])
      case Err(e) => Err(e)
      case Ok(front) =>
        var der := ders[|ders| - 1];
        if |der| == 0 || |der| > StatusBundle.MAX_RESPONSE_BYTES || ssl.parse(der).Err? then Err(OcspInvalidResponse)
        else Ok(front + [ssl.parse(der).value])
  }

  function Create(ssl: OpenSsl, ders: seq<seq<byte>>, time: int): Result<Client> {
    if |ders| == 0 || |ders| > StatusBundle.MAX_RESPONSES then Err(OcspInvalidResponse)
    else if time <= 0 || time > MAX_VERIFICATION_TIME then Err(BadArgument)
    else
      match ParseAll(ssl, ders)
      case Err(e) => Err(e)
      case Ok(responses) => Ok(Client(responses, time))
  }

  /** `RawProofOcspClient::create`. */
  method CreateClient(ssl: OpenSsl, ders: seq<seq<byte>>, time: int) returns (r: Result<Client>)
    ensures r == Create(ssl, ders, time)
    ensures r.Ok? <==>
              && 1 <= |ders| <= 16 && 1 <= time <= 253402300799
              && forall i :: 0 <= i < |ders| ==> 1 <= |ders[i]| <= 2048 && ssl.parse(ders[i]).Ok?
    ensures r.Ok? ==>
              && r.value.verificationTime == time && |r.value.responses| == |ders|
              && forall i :: 0 <= i < |ders| ==> ssl.parse(ders[i]) == Ok(r.value.responses[i])
    ensures r.Err? ==> r.error == if 1 <= |ders| <= 16 && !(1 <= time <= 253402300799) then BadArgument else OcspInvalidResponse
  {
    if |ders| == 0 || |ders| > StatusBundle.MAX_RESPONSES {
      return Err(OcspInvalidResponse);
    }
    if time <= 0 || time > MAX_VERIFICATION_TIME {
      return Err(BadArgument);
    }
    var responses := [];
    for i := 0 to |ders|
      invariant ParseAll(ssl, ders[..i]) == Ok(responses)
      invariant |responses| == i
      invariant forall k :: 0 <= k < i ==> 1 <= |ders[k]| <= 2048 && ssl.parse(ders[k]) == Ok(responses[k])
    {
      assert ders[..i + 1][..i] == ders[..i];
      var der := ders[i];
      if |der| == 0 || |der| > StatusBundle.MAX_RESPONSE_BYTES || ssl.parse(der).Err? {
        ParseStops(ssl, ders, i + 1);
        return Err(OcspInvalidResponse);
      }
      responses := responses + [ssl.parse(der).value];
    }
    assert ders[..|ders|] == ders;
    r := Ok(Client(responses, time));
  }

  lemma {:induction false} ParseStops(ssl: OpenSsl, ders: seq<seq<byte>>, k: nat)
    requires k <= |ders| && ParseAll(ssl, ders[..k]).Err?
    ensures ParseAll(ssl, ders) == ParseAll(ssl, ders[..k])
  {
    if k == |ders| {
      assert ders[..k] == ders;
    } else {
      assert ders[..|ders| - 1][..k] == ders[..k];
      ParseStops(ssl, ders[..|ders| - 1], k);
    }
  }

  /** `RawProofOcspClient::create_from_bundle`: a client from a bundle is a client from its responses. */
  method CreateFromBundle(ssl: OpenSsl, bundle: seq<byte>, time: int) returns (r: Result<Client>)
    ensures forall ders :: StatusBundle.Encodes(bundle, ders) ==> r == Create(ssl, ders, time)
    ensures (forall ders :: !StatusBundle.Encodes(bundle, ders)) ==> r == Err(OcspInvalidResponse)
  {
    var decoded := StatusBundle.DecodeBundle(bundle);
    if decoded.Err? {
      return Err(decoded.error);
    }
    assert StatusBundle.Encodes(bundle, decoded.value);
    r := CreateClient(ssl, decoded.value, time);
  }
}
