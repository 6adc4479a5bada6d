/**
 * Issuing a detached EAT: one signed token for each device under a label of its own, and
 * one overall token that carries their digests, the shared nonce and the overall result.
 */
module DetachedEat {
  import opened Common
  import opened Bytes
  import opened Json
  import opened Policy
  import opened PolicyJson

  /** A decoded token: header and payload. */
  datatype Decoded = Decoded(header: Payload, payload: Payload)

  /**
   * The JWT library and the digest. `sign` takes the kid header, the payload and the private
   * key (an empty key means the algorithm "none"); `decode` is `None` where it throws.
   */
  datatype Crypto = Crypto(
    sign: (Option<string>, Payload, string) -> string,
    decode: string -> Option<Decoded>,
    verify: (string, string) -> bool,
    sha256: string -> Result<string>)

  datatype Options = Options(privateKey: string, issuer: string, kid: string)

  /** One device's claims, with the answers of its accessors; `extra` are the members no policy reads. */
  datatype Claim = Claim(deviceType: Result<string>, nonce: Result<string>, extra: Payload, device: DeviceClaims)

  /** `to_json_object`. */
  function ClaimJson(c: Claim): Payload { c.extra + DeviceJson(c.device) }

  /** All that `get_detached_eat` works from: clock and random bytes included. */
  datatype Session = Session(
    claims: seq<Claim>,
    options: Options,
    now: Result<(int, int)>,
    random: nat -> Result<seq<byte>>,
    crypto: Crypto)

  datatype Eat = Eat(overallToken: string, deviceTokens: map<string, string>)

  datatype OverallClaims = OverallClaims(
    sub: string, iat: int, exp: int, jti: string, iss: string,
    version: string, result: bool, nonce: string, digests: map<string, string>)

  /** A refusal, or a document; the caller still gets the document when the result is false. */
  datatype Outcome = Refused(error: Fault) | Issued(eat: Eat, result: bool)

  function ErrorCode(o: Outcome): Option<Error> {
    if o.Refused? then Some(o.error) else if o.result then None else Some(OverallResultFalse)
  }

  // ---------------------------------------------------------------------------
  // JSON forms
  // ---------------------------------------------------------------------------

  function CommonJson(iat: int, exp: int, jti: string, iss: string): Payload {
    map["iat" := Num(iat), "exp" := Num(exp), "jti" := Str(jti), "iss" := Str(iss)]
  }

  function DigestEntry(hex: string): Value {
    Arr([Str("DIGEST"), Arr([Str("SHA256"), Str(hex)])])
  }

  function DigestObject(digests: map<string, string>): Payload {
    map k | k in digests :: DigestEntry(digests[k])
  }

  /** The member "submods" is only there when there is a digest to put in it. */
  function OverallToJson(c: OverallClaims): Payload {
    var base := CommonJson(c.iat, c.exp, c.jti, c.iss)
      + map["sub" := Str(c.sub), "x-nvidia-ver" := Str(c.version),
            "x-nvidia-overall-att-result" := Bool(c.result), "eat_nonce" := Str(c.nonce)];
    if c.digests == map[] then base else base["submods" := Obj(DigestObject(c.digests))]
  }

  /** `.at(1).at(1).get<std::string>()`. */
  function DigestOf(v: Value): Option<string> {
    var inner := At(v, 1);
    if inner.None? then None
    else
      var hex := At(inner.value, 1);
      if hex.Some? && hex.value.Str? then Some(hex.value.text) else None
  }

  function DigestsOf(v: Value): Option<map<string, string>> {
    var items := Items(v);
    if forall k :: k in items ==> DigestOf(items[k]).Some?
    then Some(map k | k in items :: DigestOf(items[k]).value)
    else None
  }

  function OverallFromJson(p: Payload): Result<OverallClaims> {
    var sub, jti, iss := Text(p, "sub"), Text(p, "jti"), Text(p, "iss");
    var iat, exp := Number(p, "iat"), Number(p, "exp");
    var version, nonce := Text(p, "x-nvidia-ver"), Text(p, "eat_nonce");
    var result := Flag(p, "x-nvidia-overall-att-result");
    if sub.None? || iat.None? || exp.None? || jti.None? || iss.None? || version.None? || result.None? || nonce.None?
       || "submods" !in p || DigestsOf(p["submods"]).None?
    then Err(InternalError)
    else Ok(OverallClaims(sub.value, iat.value, exp.value, jti.value, iss.value,
                          version.value, result.value, nonce.value, DigestsOf(p["submods"]).value))
  }

  /** The overall claims survive their JSON form exactly when they hold at least one digest. */
  lemma OverallJsonRoundTrip(c: OverallClaims)
    ensures OverallFromJson(OverallToJson(c)) == if c.digests == map[] then Err(InternalError) else Ok(c)
  {
    hide DigestsOf, DigestObject, OverallToJson, Text, Number, Flag;
    CommonFields(c);
    OwnFields(c);
    SubmodsField(c);
    if c.digests != map[] {
      DigestsRoundTrip(c.digests);
    }
  }

  lemma CommonFields(c: OverallClaims)
    ensures var p := OverallToJson(c);
            && Number(p, "iat") == Some(c.iat) && Number(p, "exp") == Some(c.exp)
            && Text(p, "jti") == Some(c.jti) && Text(p, "iss") == Some(c.iss)
  {
    hide DigestObject;
  }

  lemma OwnFields(c: OverallClaims)
    ensures var p := OverallToJson(c);
            && Text(p, "sub") == Some(c.sub) && Text(p, "x-nvidia-ver") == Some(c.version) && Text(p, "eat_nonce") == Some(c.nonce)
            && Flag(p, "x-nvidia-overall-att-result") == Some(c.result)
  {
    hide DigestObject;
  }

  lemma SubmodsField(c: OverallClaims)
    ensures var p := OverallToJson(c);
            && ("submods" in p <==> c.digests != map[])
            && (c.digests != map[] ==> p["submods"] == Obj(DigestObject(c.digests)))
  {
    hide DigestObject;
  }

  lemma DigestsRoundTrip(digests: map<string, string>)
    ensures DigestsOf(Obj(DigestObject(digests))) == Some(digests)
  {
    var items := Items(Obj(DigestObject(digests)));
    assert items == DigestObject(digests);
    assert forall k :: k in items ==> DigestOf(items[k]) == Some(digests[k]);
    assert (map k | k in items :: DigestOf(items[k]).value) == digests;
  }

  function EatToJson(e: Eat): Value {
    Arr([Arr([Str("JWT"), Str(e.overallToken)]), Obj(map k | k in e.deviceTokens :: Str(e.deviceTokens[k]))])
  }

  function EatFromJson(v: Value): Result<Eat> {
    var head, body := At(v, 0), At(v, 1);
    var token := if head.Some? then At(head.value, 1) else None;
    if token.None? || !token.value.Str? || body.None? then Err(InternalError)
    else
      var items := Items(body.value);
      if forall k :: k in items ==> items[k].Str?
      then Ok(Eat(token.value.text, map k | k in items :: items[k].text))
      else Err(InternalError)
  }

  lemma EatJsonRoundTrip(e: Eat)
    ensures EatFromJson(EatToJson(e)) == Ok(e)
  {
    var items := map k | k in e.deviceTokens :: Str(e.deviceTokens[k]);
    assert (map k | k in items :: items[k].text) == e.deviceTokens;
  }

  // ---------------------------------------------------------------------------
  // Labels
  // ---------------------------------------------------------------------------

  function ToUpper(c: char): char {
    if 'a' <= c <= 'z' then (c as int - 32) as char else c
  }

  function Upper(s: string): string {
    if s == "" then "" else [ToUpper(s[0])] + Upper(s[1..])
  }

  lemma {:induction false} UpperAt(s: string)
    ensures |Upper(s)| == |s| && forall i :: 0 <= i < |s| ==> Upper(s)[i] == ToUpper(s[i])
  {
    if s != "" {
      UpperAt(s[1..]);
      forall i | 0 <= i < |s| ensures Upper(s)[i] == ToUpper(s[i]) {
        assert i > 0 ==> s[i] == s[1..][i - 1];
      }
    }
  }

  /** The upper-case device type of a claim, empty when its accessor fails. */
  function KindOf(c: Claim): string {
    if c.deviceType.Ok? then Upper(c.deviceType.value) else ""
  }

  predicate Known(kind: string) { kind == "GPU" || kind == "SWITCH" }

  /** How many of the first `k` claims are of a kind. */
  function Before(claims: seq<Claim>, k: nat, kind: string): nat
    requires k <= |claims|
  {
    if k == 0 then 0 else Before(claims, k - 1, kind) + (if KindOf(claims[k - 1]) == kind then 1 else 0)
  }

  function Rank(claims: seq<Claim>, k: nat): nat
    requires k < |claims|
  {
    Before(claims, k, KindOf(claims[k]))
  }

  function MakeLabel(kind: string, index: nat): string { kind + "-" + Decimal(index) }

  function Label(claims: seq<Claim>, k: nat): string
    requires k < |claims|
  {
    MakeLabel(KindOf(claims[k]), Rank(claims, k))
  }

  /** A label is the type, a dash and the number in decimal. */
  lemma LabelText(claims: seq<Claim>, k: nat)
    requires k < |claims|
    ensures KindOf(claims[k]) + "-" <= Label(claims, k)
    ensures Reading(Label(claims, k)[|KindOf(claims[k])| + 1..]) == Rank(claims, k)
    ensures KindOf(claims[k]) == "GPU" && Rank(claims, k) == 0 ==> Label(claims, k) == "GPU-0"
    ensures KindOf(claims[k]) == "SWITCH" && Rank(claims, k) == 12 ==> Label(claims, k) == "SWITCH-12"
  {
    var kind, n := KindOf(claims[k]), Rank(claims, k);
    assert Label(claims, k)[|kind| + 1..] == Decimal(n);
    DecimalReads(n);
    assert Decimal(12) == Decimal(1) + "2";
  }

  lemma LabelDetermines(kind: string, i: nat, kind': string, i': nat)
    requires Known(kind) && Known(kind') && MakeLabel(kind, i) == MakeLabel(kind', i')
    ensures kind == kind' && i == i'
  {
    var text := MakeLabel(kind, i);
    assert text[0] == kind[0] == kind'[0];
    assert text[|kind| + 1..] == Decimal(i);
    assert MakeLabel(kind', i')[|kind'| + 1..] == Decimal(i');
    DecimalReads(i);
    DecimalReads(i');
  }

  lemma {:induction false} BeforeGrows(claims: seq<Claim>, i: nat, j: nat, kind: string)
    requires i <= j <= |claims|
    ensures Before(claims, i, kind) <= Before(claims, j, kind)
    ensures i < j && KindOf(claims[i]) == kind ==> Before(claims, i, kind) < Before(claims, j, kind)
    decreases j
  {
    hide KindOf;
    if i < j {
      BeforeGrows(claims, i, j - 1, kind);
    }
  }

  /** No two claims share a label. */
  lemma LabelsDistinct(claims: seq<Claim>, i: nat, j: nat)
    requires i < |claims| && j < |claims| && Known(KindOf(claims[i])) && Known(KindOf(claims[j]))
    ensures Label(claims, i) == Label(claims, j) <==> i == j
  {
    if Label(claims, i) == Label(claims, j) {
      LabelDetermines(KindOf(claims[i]), Rank(claims, i), KindOf(claims[j]), Rank(claims, j));
      BeforeGrows(claims, Min(i, j), Max(i, j), KindOf(claims[i]));
    }
  }

  /** The numbers of a kind are 0, 1, 2 and so on without a gap, in the order of the claims. */
  lemma {:induction false} LabelsContiguous(claims: seq<Claim>, n: nat, kind: string, index: nat)
    requires n <= |claims|
    ensures index < Before(claims, n, kind) <==>
            exists k :: 0 <= k < n && KindOf(claims[k]) == kind && Rank(claims, k) == index
  {
    hide KindOf;
    if n > 0 {
      LabelsContiguous(claims, n - 1, kind, index);
      var k := n - 1;
      if KindOf(claims[k]) == kind && index == Before(claims, k, kind) {
        assert Rank(claims, k) == index;
      }
    }
  }

  // ---------------------------------------------------------------------------
  // The nonce
  // ---------------------------------------------------------------------------

  function NonceText(c: Claim): string {
    if c.nonce.Ok? then c.nonce.value else ""
  }

  /** The overall nonce after `k` claims: an empty one is replaced by the next. */
  function NonceAfter(claims: seq<Claim>, k: nat): string
    requires k <= |claims|
  {
    if k == 0 then ""
    else if NonceAfter(claims, k - 1) == "" then NonceText(claims[k - 1])
    else NonceAfter(claims, k - 1)
  }

  predicate NonceClash(claims: seq<Claim>, k: nat)
    requires k < |claims|
  {
    NonceAfter(claims, k) != "" && NonceAfter(claims, k) != NonceText(claims[k])
  }

  /**
   * Exactly when the nonces agree: once a claim has a nonce every later one repeats it.
   * Claims without a nonce are let through in front of it and refused behind it.
   */
  lemma {:induction false} NoncesAgree(claims: seq<Claim>, n: nat)
    requires n <= |claims|
    ensures (forall k :: 0 <= k < n ==> !NonceClash(claims, k)) <==>
            (forall i, j :: 0 <= i < j < n && NonceText(claims[i]) != "" ==> NonceText(claims[j]) == NonceText(claims[i]))
    ensures (forall k :: 0 <= k < n ==> !NonceClash(claims, k)) ==>
            forall k :: 0 <= k < n ==> NonceText(claims[k]) == "" || NonceText(claims[k]) == NonceAfter(claims, n)
    ensures NonceAfter(claims, n) == "" <==> forall k :: 0 <= k < n ==> NonceText(claims[k]) == ""
    ensures NonceAfter(claims, n) != "" ==> exists k :: 0 <= k < n && NonceText(claims[k]) == NonceAfter(claims, n)
  {
    if n > 0 {
      NoncesAgree(claims, n - 1);
      var last := n - 1;
      if forall k :: 0 <= k < last ==> !NonceClash(claims, k) {
        if NonceClash(claims, last) {
          var i :| 0 <= i < last && NonceText(claims[i]) == NonceAfter(claims, last);
          assert NonceText(claims[last]) != NonceText(claims[i]);
        }
      }
    }
  }

  // ---------------------------------------------------------------------------
  // Issuing
  // ---------------------------------------------------------------------------

  function KidOf(options: Options): Option<string> {
    if options.kid == "" then None else Some(options.kid)
  }

  predicate Ready(s: Session) { s.now.Ok? && s.random(0).Ok? }

  function IssuedAt(s: Session): (int, int) {
    if s.now.Ok? then s.now.value else (0, 0)
  }

  /** The `jti` of the overall token (0) and of the tokens of the claims (1, 2 and so on). */
  function Jti(s: Session, n: nat): string {
    if s.random(n).Ok? then ToHex(s.random(n).value) else ""
  }

  function SubmodPayload(s: Session, k: nat): Payload
    requires k < |s.claims|
  {
    CommonJson(IssuedAt(s).0, IssuedAt(s).1, Jti(s, k + 1), s.options.issuer) + ClaimJson(s.claims[k])
  }

  function DeviceToken(s: Session, k: nat): string
    requires k < |s.claims|
  {
    s.crypto.sign(KidOf(s.options), SubmodPayload(s, k), s.options.privateKey)
  }

  /** Why the loop stops at claim `k`, if it gets there and does. */
  function FaultAt(s: Session, k: nat): Option<Fault>
    requires k < |s.claims|
  {
    var c := s.claims[k];
    if c.deviceType.Err? then Some(c.deviceType.error)
    else if !Known(KindOf(c)) then Some(BadArgument)
    else if c.nonce.Err? then Some(c.nonce.error)
    else if NonceClash(s.claims, k) then Some(BadArgument)
    else if s.random(k + 1).Err? then Some(s.random(k + 1).error)
    else if s.crypto.sha256(DeviceToken(s, k)).Err? then Some(s.crypto.sha256(DeviceToken(s, k)).error)
    else None
  }

  ghost predicate Clean(s: Session, n: nat)
    requires n <= |s.claims|
  {
    forall k :: 0 <= k < n ==> FaultAt(s, k).None?
  }

  ghost function Labels(claims: seq<Claim>, n: nat): set<string>
    requires n <= |claims|
  {
    set k | 0 <= k < n :: Label(claims, k)
  }

  /** `tokens` holds the token of each of the first `n` claims under its label, and no more. */
  ghost predicate HoldsTokens(s: Session, n: nat, tokens: map<string, string>)
    requires n <= |s.claims|
  {
    && tokens.Keys == Labels(s.claims, n)
    && forall k :: 0 <= k < n ==> Label(s.claims, k) in tokens && tokens[Label(s.claims, k)] == DeviceToken(s, k)
  }

  ghost predicate HoldsDigests(s: Session, tokens: map<string, string>, digests: map<string, string>) {
    digests.Keys == tokens.Keys && forall id :: id in tokens ==> s.crypto.sha256(tokens[id]) == Ok(digests[id])
  }

  function Devices(claims: seq<Claim>): seq<DeviceClaims> {
    seq(|claims|, k requires 0 <= k < |claims| => claims[k].device)
  }

  function OverallOf(s: Session, digests: map<string, string>): OverallClaims {
    OverallClaims("NVIDIA-PLATFORM-ATTESTATION", IssuedAt(s).0, IssuedAt(s).1, Jti(s, 0), s.options.issuer,
                  "3.0", OverallResult(Devices(s.claims)), NonceAfter(s.claims, |s.claims|), digests)
  }

  /** What a document issued in this session is. */
  ghost predicate IssuedAs(s: Session, eat: Eat, result: bool) {
    && Ready(s)
    && Clean(s, |s.claims|)
    && HoldsTokens(s, |s.claims|, eat.deviceTokens)
    && result == OverallResult(Devices(s.claims))
    && exists digests ::
         && HoldsDigests(s, eat.deviceTokens, digests)
         && eat.overallToken == s.crypto.sign(KidOf(s.options), OverallToJson(OverallOf(s, digests)), s.options.privateKey)
  }

  /** The first fault, in the order in which the operation meets them. */
  ghost predicate RefusedFor(s: Session, error: Error) {
    if s.now.Err? then error == s.now.error
    else if s.random(0).Err? then error == s.random(0).error
    else exists k :: 0 <= k < |s.claims| && Clean(s, k) && FaultAt(s, k) == Some(error)
  }

  /** `device_index_for_submod_label` after `k` claims; a kind it lacks stands at zero. */
  ghost predicate Counted(claims: seq<Claim>, k: nat, counters: map<string, nat>)
    requires k <= |claims|
  {
    forall kind: string :: (if kind in counters then counters[kind] else 0) == Before(claims, k, kind)
  }

  lemma CounterAt(claims: seq<Claim>, k: nat, counters: map<string, nat>, kind: string)
    requires k <= |claims| && Counted(claims, k, counters)
    ensures (if kind in counters then counters[kind] else 0) == Before(claims, k, kind)
  {
  }

  lemma CountOne(claims: seq<Claim>, k: nat, counters: map<string, nat>, kind: string, index: nat)
    requires k < |claims| && Counted(claims, k, counters) && kind == KindOf(claims[k]) && index == Before(claims, k, kind)
    ensures Counted(claims, k + 1, counters[kind := index + 1])
  {
    hide KindOf;
    var counters' := counters[kind := index + 1];
    forall other: string ensures (if other in counters' then counters'[other] else 0) == Before(claims, k + 1, other) {
      assert (if other in counters then counters[other] else 0) == Before(claims, k, other);
    }
  }

  /** What one round of the loop adds: the label, the token, its digest and the nonce so far. */
  datatype Entry = Entry(key: string, token: string, digest: string, nonce: string, counters: map<string, nat>)

  /** One round of the loop of `get_detached_eat`. */
  method IssueOne(s: Session, k: nat, counters: map<string, nat>, nonce: string) returns (r: Result<Entry>)
    requires k < |s.claims| && Counted(s.claims, k, counters) && nonce == NonceAfter(s.claims, k)
    ensures r.Err? ==> FaultAt(s, k) == Some(r.error)
    ensures s.claims[k].deviceType.Ok? && Upper(s.claims[k].deviceType.value) !in {"GPU", "SWITCH"} ==> r == Err(BadArgument)
    ensures r.Ok? ==>
              && FaultAt(s, k).None?
              && r.value.key == Label(s.claims, k)
              && r.value.token == DeviceToken(s, k)
              && s.crypto.sha256(r.value.token) == Ok(r.value.digest)
              && r.value.nonce == NonceAfter(s.claims, k + 1)
              && Counted(s.claims, k + 1, r.value.counters)
  {
    hide SubmodPayload, ToHex, Decimal, Upper, Before, Counted;
    var c := s.claims[k];
    if c.deviceType.Err? {
      return Err(c.deviceType.error);
    }
    var kind := Upper(c.deviceType.value);
    if kind != "GPU" && kind != "SWITCH" {
      return Err(BadArgument);
    }
    var index := if kind in counters then counters[kind] else 0;
    CounterAt(s.claims, k, counters, kind);
    CountOne(s.claims, k, counters, kind, index);
    var key := kind + "-" + Decimal(index);
    if c.nonce.Err? {
      return Err(c.nonce.error);
    }
    var nonce' := nonce;
    if nonce == "" {
      nonce' := c.nonce.value;
    } else if nonce != c.nonce.value {
      return Err(BadArgument);
    }
    var jti := s.random(k + 1);
    if jti.Err? {
      return Err(jti.error);
    }
    var token := s.crypto.sign(KidOf(s.options), SubmodPayload(s, k), s.options.privateKey);
    var digest := s.crypto.sha256(token);
    if digest.Err? {
      return Err(digest.error);
    }
    r := Ok(Entry(key, token, digest.value, nonce', counters[kind := index + 1]));
  }

  /** `get_detached_eat`. */
  method GetDetachedEat(s: Session) returns (o: Outcome)
    ensures o.Refused? ==> RefusedFor(s, o.error)
    ensures o.Issued? ==> IssuedAs(s, o.eat, o.result)
    ensures o.Issued? <==> Ready(s) && Clean(s, |s.claims|)
  {
    hide *;
    if s.now.Err? {
      NotReady(s);
      return Refused(s.now.error);
    }
    var overallJti := s.random(0);
    if overallJti.Err? {
      NotReady(s);
      return Refused(overallJti.error);
    }
    var nonce := "";
    var counters: map<string, nat> := map[];
    var digests: map<string, string>, tokens: map<string, string> := map[], map[];
    NothingHeld(s);
    for k := 0 to |s.claims|
      invariant Clean(s, k) && HoldsTokens(s, k, tokens) && HoldsDigests(s, tokens, digests)
      invariant Counted(s.claims, k, counters) && nonce == NonceAfter(s.claims, k)
    {
      var entry := IssueOne(s, k, counters, nonce);
      if entry.Err? {
        StoppedAt(s, k);
        return Refused(entry.error);
      }
      OneMoreHeld(s, k, tokens, digests, entry.value.digest);
      digests := digests[entry.value.key := entry.value.digest];
      tokens := tokens[entry.value.key := entry.value.token];
      nonce, counters := entry.value.nonce, entry.value.counters;
    }
    var result := OverallResult(Devices(s.claims));
    var overall := s.crypto.sign(KidOf(s.options), OverallToJson(OverallOf(s, digests)), s.options.privateKey);
    o := Issued(Eat(overall, tokens), result);
    Completed(s, o.eat, digests);
  }

  lemma NotReady(s: Session)
    requires s.now.Err? || s.random(0).Err?
    ensures !Ready(s) && RefusedFor(s, if s.now.Err? then s.now.error else s.random(0).error)
  {
  }

  lemma StoppedAt(s: Session, k: nat)
    requires s.now.Ok? && s.random(0).Ok? && k < |s.claims| && Clean(s, k) && FaultAt(s, k).Some?
    ensures !Clean(s, |s.claims|) && RefusedFor(s, FaultAt(s, k).value)
  {
    hide FaultAt;
  }

  lemma Completed(s: Session, eat: Eat, digests: map<string, string>)
    requires s.now.Ok? && s.random(0).Ok? && Clean(s, |s.claims|)
    requires HoldsTokens(s, |s.claims|, eat.deviceTokens) && HoldsDigests(s, eat.deviceTokens, digests)
    requires eat.overallToken == s.crypto.sign(KidOf(s.options), OverallToJson(OverallOf(s, digests)), s.options.privateKey)
    ensures Ready(s) && IssuedAs(s, eat, OverallResult(Devices(s.claims)))
  {
    hide OverallToJson, OverallOf, OverallResult, HoldsTokens, HoldsDigests, Clean;
  }

  lemma NothingHeld(s: Session)
    ensures HoldsTokens(s, 0, map[]) && HoldsDigests(s, map[], map[])
    ensures Counted(s.claims, 0, map[]) && Clean(s, 0) && NonceAfter(s.claims, 0) == ""
  {
    assert Labels(s.claims, 0) == {};
  }

  lemma OneMoreHeld(s: Session, k: nat, tokens: map<string, string>, digests: map<string, string>, digest: string)
    requires k < |s.claims| && Clean(s, k) && FaultAt(s, k).None?
    requires HoldsTokens(s, k, tokens) && HoldsDigests(s, tokens, digests)
    requires s.crypto.sha256(DeviceToken(s, k)) == Ok(digest)
    ensures Clean(s, k + 1)
    ensures HoldsTokens(s, k + 1, tokens[Label(s.claims, k) := DeviceToken(s, k)])
    ensures HoldsDigests(s, tokens[Label(s.claims, k) := DeviceToken(s, k)], digests[Label(s.claims, k) := digest])
  {
    hide Label, DeviceToken, FaultAt;
    NewLabel(s, k);
    hide Labels;
  }

  lemma NewLabel(s: Session, k: nat)
    requires k < |s.claims| && Clean(s, k) && FaultAt(s, k).None?
    ensures Label(s.claims, k) !in Labels(s.claims, k)
    ensures Labels(s.claims, k + 1) == Labels(s.claims, k) + {Label(s.claims, k)}
    ensures forall i :: 0 <= i < k ==> Label(s.claims, i) in Labels(s.claims, k)
  {
    hide Label, FaultAt, KindOf;
    KnownKind(s, k);
    forall i | 0 <= i < k ensures Label(s.claims, i) != Label(s.claims, k) {
      KnownKind(s, i);
      LabelsDistinct(s.claims, i, k);
    }
  }

  lemma KnownKind(s: Session, k: nat)
    requires k < |s.claims| && FaultAt(s, k).None?
    ensures Known(KindOf(s.claims[k]))
  {
  }

  /** One token for each claim. */
  lemma {:induction false} OneTokenEach(s: Session, n: nat)
    requires n <= |s.claims| && Clean(s, n)
    ensures |Labels(s.claims, n)| == n
  {
    if n == 0 {
      assert Labels(s.claims, 0) == {};
    } else {
      hide FaultAt, Label, Labels;
      assert Clean(s, n - 1) && FaultAt(s, n - 1).None?;
      hide Clean;
      OneTokenEach(s, n - 1);
      NewLabel(s, n - 1);
    }
  }
}
