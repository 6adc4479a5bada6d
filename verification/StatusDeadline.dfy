/**
 * The deadline a chain judged by signed age carries is exact: from raw proofs and a
 * verification time to the claims of the chain, across the client and the fold.
 */
module StatusDeadline {
  import opened Common
  import opened Calendar
  import opened RawProof
  import opened ChainStatus

  /** The raw-proof client as the OCSP client of a chain; it keeps no state between calls. */
  function Offline(ssl: OpenSsl, client: Client): OcspClient {
    (k: nat, subject: Cert, issuer: Cert, intermediates: seq<Cert>) => Verdict(ssl, client, subject, issuer, intermediates)
  }

  /** One whole offline run: build the client for `time`, then judge the path. */
  function Run(ssl: OpenSsl, ders: seq<seq<byte>>, time: int, path: seq<Cert>, kind: ChainType): Result<OcspClaims> {
    match Create(ssl, ders, time)
    case Err(e) => Err(e)
    case Ok(client) => ClaimsFor(path, kind, Offline(ssl, client))
  }

  /** The signed status for the k-th certificate asked about; it does not depend on the time. */
  function EvidenceAt(ssl: OpenSsl, responses: seq<BasicResponse>, path: seq<Cert>, k: nat): Result<SignedStatus>
    requires k + 2 <= |path|
  {
    var i := |path| - 2 - k;
    Evidence(ssl, responses, path[i], path[i + 1], path[i + 1..|path| - 1])
  }

  predicate AllEvidence(ssl: OpenSsl, responses: seq<BasicResponse>, path: seq<Cert>, n: nat)
    requires n == 0 || n + 1 <= |path|
  {
    forall k :: 0 <= k < n ==> EvidenceAt(ssl, responses, path, k).Ok?
  }

  predicate AllFresh(ssl: OpenSsl, responses: seq<BasicResponse>, path: seq<Cert>, n: nat, time: int)
    requires n == 0 || n + 1 <= |path|
  {
    forall k :: 0 <= k < n ==>
      EvidenceAt(ssl, responses, path, k).Ok? && Fresh(EvidenceAt(ssl, responses, path, k).value, time)
  }

  lemma AnswerAt(ssl: OpenSsl, client: Client, path: seq<Cert>, kind: ChainType, k: nat)
    requires k < CoveredCount(path, StartIndex(kind))
    ensures var a := Answers(path, StartIndex(kind), Offline(ssl, client))[k];
            var e := EvidenceAt(ssl, client.responses, path, k);
            && (a.Ok? <==> e.Ok? && Fresh(e.value, client.verificationTime))
            && (a.Ok? ==> a.value == Report(e.value, client.verificationTime))
  {
    hide Evidence, Fresh;
    var i := |path| - 2 - k;
    var a := Answers(path, StartIndex(kind), Offline(ssl, client))[k];
    assert a == Ask(path, Offline(ssl, client), k);
    assert a == Verdict(ssl, client, path[i], path[i + 1], path[i + 1..|path| - 1]);
    assert EvidenceAt(ssl, client.responses, path, k)
        == Evidence(ssl, client.responses, path[i], path[i + 1], path[i + 1..|path| - 1]);
  }

  /** An offline chain succeeds exactly when every signed status is there and fresh. */
  lemma SucceedsWhenFresh(ssl: OpenSsl, client: Client, path: seq<Cert>, kind: ChainType)
    ensures var n := CoveredCount(path, StartIndex(kind));
            ClaimsFor(path, kind, Offline(ssl, client)).Ok? <==> AllFresh(ssl, client.responses, path, n, client.verificationTime)
  {
    hide Evidence, Verdict, EvidenceAt, Fresh, Answers, Summary;
    var n := CoveredCount(path, StartIndex(kind));
    var answers := Answers(path, StartIndex(kind), Offline(ssl, client));
    assert |answers| == n by { AnswerCount(path, StartIndex(kind), Offline(ssl, client)); }
    forall k | 0 <= k < n
      ensures var e := EvidenceAt(ssl, client.responses, path, k);
              && (answers[k].Ok? <==> e.Ok? && Fresh(e.value, client.verificationTime))
              && (answers[k].Ok? ==> SignedAt(answers[k].value, client.verificationTime))
    {
      AnswerAt(ssl, client, path, kind, k);
    }
    if AllOk(answers) {
      SignedIsUniform(Values(answers), client.verificationTime);
    }
  }

  /** What every answer of the raw-proof client looks like. */
  predicate SignedAt(r: OcspResponse, time: int) {
    r.signedAge && !r.nonceMatches && r.verificationTime == time
  }

  lemma SignedIsUniform(rs: seq<OcspResponse>, time: int)
    requires forall k :: 0 <= k < |rs| ==> SignedAt(rs[k], time)
    ensures Uniform(rs)
  {
  }

  /** The answers of a successful offline chain, each from its own evidence. */
  lemma Reports(ssl: OpenSsl, client: Client, path: seq<Cert>, kind: ChainType) returns (rs: seq<OcspResponse>)
    requires ClaimsFor(path, kind, Offline(ssl, client)).Ok?
    ensures var n := CoveredCount(path, StartIndex(kind));
            && |rs| == n && ClaimsFor(path, kind, Offline(ssl, client)) == Ok(Summary(rs))
            && AllFresh(ssl, client.responses, path, n, client.verificationTime)
            && forall k :: 0 <= k < n ==> rs[k] == Report(EvidenceAt(ssl, client.responses, path, k).value, client.verificationTime)
  {
    hide Evidence, Verdict, EvidenceAt, Summary;
    SucceedsWhenFresh(ssl, client, path, kind);
    var answers := Answers(path, StartIndex(kind), Offline(ssl, client));
    rs := Values(answers);
    forall k | 0 <= k < |rs|
      ensures rs[k] == Report(EvidenceAt(ssl, client.responses, path, k).value, client.verificationTime)
    {
      AnswerAt(ssl, client, path, kind, k);
    }
  }

  /** Judging the same reports at another time changes only the recorded verification time. */
  lemma SummaryRetimed(rs: seq<OcspResponse>, rs': seq<OcspResponse>, time: int)
    requires |rs| == |rs'| > 0
    requires forall k :: 0 <= k < |rs| ==> rs[k].signedAge && rs'[k] == rs[k].(verificationTime := time)
    ensures Summary(rs') == Summary(rs).(verificationTime := time)
  {
    assert NextUpdates(rs) == NextUpdates(rs') && Deadlines(rs) == Deadlines(rs') && ThisUpdates(rs) == ThisUpdates(rs');
    assert forall k :: 0 <= k < |rs| ==> rs[k].status == rs'[k].status;
    assert FirstNotGood(rs) == FirstNotGood(rs');
    assert AllNonces(rs) == AllNonces(rs') && AllValid(rs) == AllValid(rs');
  }

  /**
   * The acceptance window. If a chain with at least one covered certificate is accepted at
   * time v, then at any time w the same proofs give the same claims but for the recorded
   * time, or fail; and they succeed exactly when w is a time the client can be built for,
   * no thisUpdate lies more than the tolerance after w, and w is before the deadline.
   */
  lemma AcceptanceWindow(ssl: OpenSsl, ders: seq<seq<byte>>, path: seq<Cert>, kind: ChainType, v: int, w: int)
    requires Run(ssl, ders, v, path, kind).Ok? && Run(ssl, ders, v, path, kind).value.coveredCertificates > 0
    ensures ParseAll(ssl, ders).Ok?
    ensures var c := Run(ssl, ders, v, path, kind).value;
            var responses := ParseAll(ssl, ders).value;
            var n := CoveredCount(path, StartIndex(kind));
            && c.coveredCertificates == n && AllEvidence(ssl, responses, path, n)
            && (Run(ssl, ders, w, path, kind).Ok? <==>
                  && 0 < w <= MAX_VERIFICATION_TIME
                  && (forall k :: 0 <= k < n ==> EvidenceAt(ssl, responses, path, k).value.thisUpdate - FUTURE_TOLERANCE_SECONDS <= w)
                  && w < c.statusDeadline)
            && (Run(ssl, ders, w, path, kind).Ok? ==> Run(ssl, ders, w, path, kind).value == c.(verificationTime := w))
  {
    hide Evidence, Verdict, EvidenceAt, ParseAll, ClaimsFor;
    var responses := ParseAll(ssl, ders).value;
    var n := CoveredCount(path, StartIndex(kind));
    var rs := Reports(ssl, Client(responses, v), path, kind);
    DeadlineIsLeast(ssl, responses, path, n, v, rs);
    if 0 < w <= MAX_VERIFICATION_TIME {
      SucceedsWhenFresh(ssl, Client(responses, w), path, kind);
      FreshByDeadline(ssl, responses, path, n, rs, v, w);
      if Run(ssl, ders, w, path, kind).Ok? {
        var rs' := Reports(ssl, Client(responses, w), path, kind);
        SummaryRetimed(rs, rs', w);
      }
    }
  }

  lemma DeadlineIsLeast(ssl: OpenSsl, responses: seq<BasicResponse>, path: seq<Cert>, n: nat, v: int, rs: seq<OcspResponse>)
    requires n == 0 || n + 1 <= |path|
    requires AllFresh(ssl, responses, path, n, v) && |rs| == n
    requires forall k :: 0 <= k < n ==> rs[k] == Report(EvidenceAt(ssl, responses, path, k).value, v)
    requires Summary(rs).coveredCertificates > 0
    ensures n > 0 && Summary(rs).coveredCertificates == n
    ensures Summary(rs).statusDeadline == Least(Deadlines(rs))
    ensures AllEvidence(ssl, responses, path, n)
  {
    hide Evidence, EvidenceAt, Least;
  }

  /** With the evidence there, freshness at w is: not too far in the future, and before the deadline. */
  lemma FreshByDeadline(ssl: OpenSsl, responses: seq<BasicResponse>, path: seq<Cert>, n: nat, rs: seq<OcspResponse>, v: int, w: int)
    requires 0 < n && n + 1 <= |path| && |rs| == n && AllFresh(ssl, responses, path, n, v)
    requires forall k :: 0 <= k < n ==> rs[k] == Report(EvidenceAt(ssl, responses, path, k).value, v)
    ensures AllFresh(ssl, responses, path, n, w) <==>
              && (forall k :: 0 <= k < n ==> EvidenceAt(ssl, responses, path, k).value.thisUpdate - FUTURE_TOLERANCE_SECONDS <= w)
              && w < Least(Deadlines(rs))
  {
    hide Evidence, EvidenceAt;
    var ds := Deadlines(rs);
    assert forall k :: 0 <= k < n ==> ds[k] in ds && ds[k] == rs[k].statusDeadline;
    var m :| 0 <= m < n && ds[m] == Least(ds);
    assert rs[m].statusDeadline == Least(ds);
    if AllFresh(ssl, responses, path, n, w) {
      assert Fresh(EvidenceAt(ssl, responses, path, m).value, w);
    }
    if w < Least(ds) && forall k :: 0 <= k < n ==> EvidenceAt(ssl, responses, path, k).value.thisUpdate - FUTURE_TOLERANCE_SECONDS <= w {
      forall k | 0 <= k < n ensures Fresh(EvidenceAt(ssl, responses, path, k).value, w) {
        assert ds[k] >= Least(ds);
        assert Fresh(EvidenceAt(ssl, responses, path, k).value, v);
      }
    }
  }

  /**
   * Later times: the same run keeps succeeding with the same claims up to but excluding the
   * deadline (and the last time a client can be built for), and fails from there on.
   */
  lemma DeadlineExact(ssl: OpenSsl, ders: seq<seq<byte>>, path: seq<Cert>, kind: ChainType, v: int, w: int)
    requires Run(ssl, ders, v, path, kind).Ok? && Run(ssl, ders, v, path, kind).value.coveredCertificates > 0
    requires w >= v
    ensures var c := Run(ssl, ders, v, path, kind).value;
            && v < c.statusDeadline
            && (Run(ssl, ders, w, path, kind).Ok? <==> w < c.statusDeadline && w <= MAX_VERIFICATION_TIME)
            && (Run(ssl, ders, w, path, kind).Ok? ==> Run(ssl, ders, w, path, kind).value == c.(verificationTime := w))
  {
    hide Evidence, Verdict, EvidenceAt, ParseAll, ClaimsFor;
    AcceptanceWindow(ssl, ders, path, kind, v, v);
    AcceptanceWindow(ssl, ders, path, kind, v, w);
  }

  /**
   * An offline chain always reports the earliest nextUpdate of its proofs, because a fresh
   * proof expires after a time that is itself after the epoch.
   */
  lemma OfflineExpiration(ssl: OpenSsl, ders: seq<seq<byte>>, path: seq<Cert>, kind: ChainType, v: int) returns (m: nat)
    requires Run(ssl, ders, v, path, kind).Ok? && Run(ssl, ders, v, path, kind).value.coveredCertificates > 0
    ensures ParseAll(ssl, ders).Ok?
    ensures var c := Run(ssl, ders, v, path, kind).value;
            var responses := ParseAll(ssl, ders).value;
            var n := CoveredCount(path, StartIndex(kind));
            && n + 1 <= |path| && m < n
            && EvidenceAt(ssl, responses, path, m).Ok? && EvidenceAt(ssl, responses, path, m).value.nextUpdate == Some(c.expirationTime)
            && forall k :: 0 <= k < n && EvidenceAt(ssl, responses, path, k).Ok? ==>
                 && EvidenceAt(ssl, responses, path, k).value.nextUpdate.Some?
                 && c.expirationTime <= EvidenceAt(ssl, responses, path, k).value.nextUpdate.value
  {
    hide Evidence, Verdict, EvidenceAt, ParseAll, ClaimsFor, ExpirationOf, Summary;
    var responses := ParseAll(ssl, ders).value;
    var n := CoveredCount(path, StartIndex(kind));
    var rs := Reports(ssl, Client(responses, v), path, kind);
    DeadlineIsLeast(ssl, responses, path, n, v, rs);
    m := EarliestUpdate(rs, v);
    assert forall k :: 0 <= k < n ==> EvidenceAt(ssl, responses, path, k).value.nextUpdate == Some(rs[k].nextUpdate);
  }

  lemma EarliestUpdate(rs: seq<OcspResponse>, v: int) returns (m: nat)
    requires rs != [] && v > 0 && forall k :: 0 <= k < |rs| ==> v < rs[k].statusDeadline <= rs[k].nextUpdate
    ensures m < |rs| && Summary(rs).expirationTime == rs[m].nextUpdate
    ensures forall k :: 0 <= k < |rs| ==> rs[m].nextUpdate <= rs[k].nextUpdate
  {
    hide ExpirationOf, FirstNotGood, Deadlines, ThisUpdates;
    var nexts := NextUpdates(rs);
    assert forall k :: 0 <= k < |rs| ==> nexts[k] in nexts && nexts[k] == rs[k].nextUpdate;
    ExpirationIsEarliest(nexts);
    m :| 0 <= m < |rs| && nexts[m] == Least(nexts);
  }
}
