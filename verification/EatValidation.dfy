/**
 * Validating a detached EAT: which documents are accepted, what the claims handed out are,
 * and that what the issuer makes is what the validator opens.
 */
module EatValidation {
  import opened Common
  import opened Bytes
  import opened Json
  import opened Policy
  import opened PolicyJson
  import opened DetachedEat

  /** Who validates: the token library, the key store and the issuer it expects. */
  datatype Verifier = Verifier(crypto: Crypto, keys: string -> Result<string>, issuer: string)

  datatype Opened = Opened(nonce: seq<byte>, claims: map<string, Payload>, result: bool)

  /** `NvJwt::validate_and_decode`; decoding a malformed token throws past it. */
  function Decode(v: Verifier, token: string): Result<Payload> {
    var decoded := v.crypto.decode(token);
    if decoded.None? then Err(UncaughtException)
    else
      var kid, issuer := Text(decoded.value.header, "kid"), Text(decoded.value.payload, "iss");
      if kid.None? || issuer.None? || issuer.value != v.issuer then Err(NrasTokenInvalid)
      else
        var key := v.keys(kid.value);
        if key.Err? then Err(key.error)
        else if !v.crypto.verify(token, key.value) then Err(NrasTokenInvalid)
        else Ok(decoded.value.payload)
  }

  /** A token is accepted exactly when it decodes, names a known key and the expected issuer, and verifies under that key. */
  lemma DecodeMeans(v: Verifier, token: string, p: Payload)
    ensures Decode(v, token) == Ok(p) <==>
            exists header: Payload, kid: string, key: string ::
              && v.crypto.decode(token) == Some(Decoded(header, p))
              && "kid" in header && header["kid"] == Str(kid) && "iss" in p && p["iss"] == Str(v.issuer)
              && v.keys(kid) == Ok(key) && v.crypto.verify(token, key)
  {
    if Decode(v, token) == Ok(p) {
      var d := v.crypto.decode(token).value;
      var kid := Text(d.header, "kid").value;
      assert d == Decoded(d.header, p) && v.keys(kid) == Ok(v.keys(kid).value);
    }
  }

  /** The overall claims, up to the check that there is a nonce. */
  function OverallClaimsOf(v: Verifier, token: string): Result<OverallClaims> {
    var payload := Decode(v, token);
    if payload.Err? then Err(payload.error)
    else
      var claims := OverallFromJson(payload.value);
      if claims.Ok? && claims.value.nonce == "" then Err(NrasTokenInvalid) else claims
  }

  /** The check of one digest against the token under the same label. */
  function DeviceFault(v: Verifier, tokens: map<string, string>, id: string, digest: string): Option<Fault> {
    if id !in tokens then Some(NrasTokenInvalid)
    else if Decode(v, tokens[id]).Err? then Some(Decode(v, tokens[id]).error)
    else if v.crypto.sha256(tokens[id]).Err? then Some(v.crypto.sha256(tokens[id]).error)
    else if v.crypto.sha256(tokens[id]).value != digest then Some(NrasTokenInvalid)
    else None
  }

  /** A token that decodes for this verifier and has this digest. */
  predicate Sealed(v: Verifier, token: string, digest: string) {
    Decode(v, token).Ok? && v.crypto.sha256(token) == Ok(digest)
  }

  /** Digests and tokens stand under the same labels, and each digest is that of its token. */
  ghost predicate Bound(v: Verifier, digests: map<string, string>, tokens: map<string, string>) {
    digests.Keys == tokens.Keys && forall id :: id in digests ==> Sealed(v, tokens[id], digests[id])
  }

  /** The payloads handed out: that of each device token, under its label. */
  function Payloads(v: Verifier, tokens: map<string, string>): map<string, Payload> {
    map id | id in tokens && Decode(v, tokens[id]).Ok? :: Decode(v, tokens[id]).value
  }

  /** When a document is accepted, and what then comes out. */
  ghost predicate Opens(v: Verifier, eat: Eat, o: Opened) {
    var overall := OverallClaimsOf(v, eat.overallToken);
    && overall.Ok?
    && Bound(v, overall.value.digests, eat.deviceTokens)
    && o == Opened(FromHex(overall.value.nonce), Payloads(v, eat.deviceTokens), overall.value.result)
  }

  /** An error that checking these tokens can end in. */
  ghost predicate TokenError(v: Verifier, tokens: map<string, string>, error: Fault) {
    || error == NrasTokenInvalid
    || exists id :: id in tokens && (Decode(v, tokens[id]) == Err(error) || v.crypto.sha256(tokens[id]) == Err(error))
  }

  /** The claims collected for some of the labels. */
  ghost predicate Collected(v: Verifier, digests: map<string, string>, tokens: map<string, string>, claims: map<string, Payload>) {
    forall id :: id in claims ==>
      && id in digests && id in tokens
      && Sealed(v, tokens[id], digests[id]) && claims[id] == Decode(v, tokens[id]).value
  }

  /** The loop of `validate_and_decode_EAT`, which walks the digests in no particular order. */
  method CheckDevices(v: Verifier, digests: map<string, string>, tokens: map<string, string>) returns (r: Result<map<string, Payload>>)
    ensures r.Ok? <==> Bound(v, digests, tokens)
    ensures r.Ok? ==> r.value == Payloads(v, tokens)
    ensures r.Err? ==> TokenError(v, tokens, r.error)
  {
    hide *;
    var claims: map<string, Payload> := map[];
    var left := digests.Keys;
    NothingCollected(v, digests, tokens);
    while left != {}
      invariant left <= digests.Keys && Collected(v, digests, tokens, claims)
      invariant forall id :: id in digests.Keys ==> id in left || id in claims
      decreases |left|
    {
      ghost var some := Member(left);
      var id :| id in left;
      var fault := DeviceFault(v, tokens, id, digests[id]);
      if fault.Some? {
        FaultStops(v, digests, tokens, id);
        return Err(fault.value);
      }
      OneMoreCollected(v, digests, tokens, claims, id);
      claims := claims[id := Decode(v, tokens[id]).value];
      left := left - {id};
    }
    if |digests| != |tokens| {
      SizesDiffer(v, digests, tokens);
      return Err(NrasTokenInvalid);
    }
    AllCollected(v, digests, tokens, claims);
    r := Ok(claims);
  }

  lemma NothingCollected(v: Verifier, digests: map<string, string>, tokens: map<string, string>)
    ensures Collected(v, digests, tokens, map[])
  {
  }

  lemma OneMoreCollected(v: Verifier, digests: map<string, string>, tokens: map<string, string>, claims: map<string, Payload>, id: string)
    requires Collected(v, digests, tokens, claims) && id in digests && DeviceFault(v, tokens, id, digests[id]).None?
    ensures id in tokens && Decode(v, tokens[id]).Ok?
    ensures Collected(v, digests, tokens, claims[id := Decode(v, tokens[id]).value])
  {
    hide Decode;
  }

  lemma FaultStops(v: Verifier, digests: map<string, string>, tokens: map<string, string>, id: string)
    requires id in digests && DeviceFault(v, tokens, id, digests[id]).Some?
    ensures !Bound(v, digests, tokens) && TokenError(v, tokens, DeviceFault(v, tokens, id, digests[id]).value)
  {
    hide Decode;
    assert id in tokens ==> !Sealed(v, tokens[id], digests[id]);
  }

  lemma SizesDiffer(v: Verifier, digests: map<string, string>, tokens: map<string, string>)
    requires |digests| != |tokens|
    ensures !Bound(v, digests, tokens) && TokenError(v, tokens, NrasTokenInvalid)
  {
    assert |digests.Keys| == |digests| && |tokens.Keys| == |tokens|;
  }

  /** Equal counts turn "every digest has its token" into "the same labels". */
  lemma AllCollected(v: Verifier, digests: map<string, string>, tokens: map<string, string>, claims: map<string, Payload>)
    requires Collected(v, digests, tokens, claims) && (forall id :: id in digests.Keys ==> id in claims) && |digests| == |tokens|
    ensures Bound(v, digests, tokens) && claims == Payloads(v, tokens)
  {
    hide Decode;
    assert |digests.Keys| == |digests| && |tokens.Keys| == |tokens|;
    forall id | id in digests.Keys ensures id in tokens.Keys {
      assert id in claims;
    }
    SameSize(digests.Keys, tokens.Keys);
    assert forall id :: id in tokens ==> id in claims;
  }

  /** `validate_and_decode_EAT`. */
  method Validate(v: Verifier, eat: Eat) returns (r: Result<Opened>)
    ensures forall o :: r == Ok(o) <==> Opens(v, eat, o)
    ensures OverallClaimsOf(v, eat.overallToken).Err? ==> r == Err(OverallClaimsOf(v, eat.overallToken).error)
    ensures r.Err? && OverallClaimsOf(v, eat.overallToken).Ok? ==> TokenError(v, eat.deviceTokens, r.error)
  {
    hide OverallClaimsOf, FromHex, Bound, Payloads, TokenError;
    var overall := OverallClaimsOf(v, eat.overallToken);
    if overall.Err? {
      return Err(overall.error);
    }
    var nonce := HexStringToBytes(overall.value.nonce);
    var claims := CheckDevices(v, overall.value.digests, eat.deviceTokens);
    if claims.Err? {
      return Err(claims.error);
    }
    r := Ok(Opened(nonce, claims.value, overall.value.result));
  }

  // ---------------------------------------------------------------------------
  // What acceptance means
  // ---------------------------------------------------------------------------

  /** An accepted document has the same labels for digests, device tokens and claims handed out. */
  lemma SameLabels(v: Verifier, eat: Eat, o: Opened)
    requires Opens(v, eat, o)
    ensures OverallClaimsOf(v, eat.overallToken).Ok?
    ensures var digests := OverallClaimsOf(v, eat.overallToken).value.digests;
            && digests.Keys == eat.deviceTokens.Keys == o.claims.Keys
            && forall id :: id in o.claims ==>
                 v.crypto.sha256(eat.deviceTokens[id]) == Ok(digests[id]) && Decode(v, eat.deviceTokens[id]) == Ok(o.claims[id])
  {
    hide Decode, OverallClaimsOf;
  }

  /** Without a collision of the digest, the overall token leaves no choice of device tokens. */
  lemma OverallTokenBinds(v: Verifier, eat: Eat, eat': Eat, o: Opened, o': Opened)
    requires Opens(v, eat, o) && Opens(v, eat', o') && eat.overallToken == eat'.overallToken
    requires forall s, t :: v.crypto.sha256(s).Ok? && v.crypto.sha256(s) == v.crypto.sha256(t) ==> s == t
    ensures eat == eat' && o == o'
  {
    hide Decode, OverallClaimsOf;
    SameLabels(v, eat, o);
    SameLabels(v, eat', o');
    assert eat.deviceTokens == eat'.deviceTokens;
  }

  // ---------------------------------------------------------------------------
  // From issuer to validator
  // ---------------------------------------------------------------------------

  /**
   * What is asked of the token library: a signed token decodes to what went in, and with
   * these times in its payload it verifies exactly when it was signed with a key at all.
   */
  ghost predicate Signs(crypto: Crypto, privateKey: string, publicKey: string, iat: int, exp: int) {
    forall kid: Option<string>, p: Payload ::
      var token := crypto.sign(kid, p, privateKey);
      && crypto.decode(token).Some?
      && crypto.decode(token).value.payload == p
      && Text(crypto.decode(token).value.header, "kid") == kid
      && (Number(p, "iat") == Some(iat) && Number(p, "exp") == Some(exp) ==> (crypto.verify(token, publicKey) <==> privateKey != ""))
  }

  /** The device claims leave the common members of the payload alone. */
  ghost predicate OwnMembers(claims: seq<Claim>) {
    forall k, name :: 0 <= k < |claims| && name in {"iat", "exp", "jti", "iss"} ==> name !in claims[k].extra
  }

  lemma NoCommonMembers(d: DeviceClaims)
    ensures "iat" !in DeviceJson(d) && "exp" !in DeviceJson(d) && "iss" !in DeviceJson(d) && "jti" !in DeviceJson(d)
  {
    hide ChainJson;
  }

  /** A device token's payload shows the claims of the device to the policy. */
  lemma PayloadShows(s: Session, k: nat)
    requires k < |s.claims|
    ensures Shows(SubmodPayload(s, k), s.claims[k].device)
    ensures var extra := s.claims[k].extra;
            forall key :: key in extra && key !in DeviceJson(s.claims[k].device) ==>
              key in SubmodPayload(s, k) && SubmodPayload(s, k)[key] == extra[key]
  {
    hide DeviceJson, CommonJson;
  }

  /** The verifier uses the same library and knows the public key under the session's kid. */
  ghost predicate Paired(s: Session, v: Verifier, publicKey: string) {
    && v.crypto == s.crypto
    && (s.options.kid != "" ==> v.keys(s.options.kid) == Ok(publicKey))
    && Signs(s.crypto, s.options.privateKey, publicKey, IssuedAt(s).0, IssuedAt(s).1)
  }

  predicate CanValidate(s: Session, v: Verifier) {
    s.options.privateKey != "" && s.options.kid != "" && s.options.issuer == v.issuer
  }

  /** A token made in the session decodes exactly when key, kid and issuer are right. */
  lemma TokenDecodes(s: Session, v: Verifier, publicKey: string, p: Payload)
    requires Paired(s, v, publicKey)
    requires Number(p, "iat") == Some(IssuedAt(s).0) && Number(p, "exp") == Some(IssuedAt(s).1)
    requires Text(p, "iss") == Some(s.options.issuer)
    ensures Decode(v, s.crypto.sign(KidOf(s.options), p, s.options.privateKey))
            == if CanValidate(s, v) then Ok(p) else Err(NrasTokenInvalid)
  {
    hide IssuedAt, Text, Number;
  }

  /** What the overall token's payload says besides the digests. */
  lemma OverallMembers(s: Session, digests: map<string, string>)
    ensures var p := OverallToJson(OverallOf(s, digests));
            && Text(p, "sub") == Some("NVIDIA-PLATFORM-ATTESTATION") && Text(p, "x-nvidia-ver") == Some("3.0")
            && Text(p, "eat_nonce") == Some(NonceAfter(s.claims, |s.claims|)) && Text(p, "iss") == Some(s.options.issuer)
            && Flag(p, "x-nvidia-overall-att-result") == Some(OverallResult(Devices(s.claims)))
            && (s.now.Ok? ==> Number(p, "iat") == Some(s.now.value.0) && Number(p, "exp") == Some(s.now.value.1))
            && (s.random(0).Ok? ==> Text(p, "jti") == Some(ToHex(s.random(0).value)))
  {
    hide OverallToJson, Text, Flag, Number, ToHex, OverallResult, Devices;
    CommonFields(OverallOf(s, digests));
    OwnFields(OverallOf(s, digests));
  }

  lemma SubmodMembers(s: Session, k: nat)
    requires k < |s.claims| && OwnMembers(s.claims)
    ensures var p := SubmodPayload(s, k);
            && Number(p, "iat") == Some(IssuedAt(s).0) && Number(p, "exp") == Some(IssuedAt(s).1)
            && Text(p, "iss") == Some(s.options.issuer)
            && (s.random(k + 1).Ok? ==> Text(p, "jti") == Some(ToHex(s.random(k + 1).value)))
  {
    hide IssuedAt, ToHex, DeviceJson;
    var extra := s.claims[k].extra;
    assert "iat" !in extra && "exp" !in extra && "iss" !in extra && "jti" !in extra;
    NoCommonMembers(s.claims[k].device);
    var json := ClaimJson(s.claims[k]);
    assert "iat" !in json && "exp" !in json && "iss" !in json && "jti" !in json;
  }

  /** One payload for each claim, under the label of the claim and nothing else. */
  ghost predicate HoldsPayloads(s: Session, claims: map<string, Payload>) {
    && |claims| == |s.claims|
    && claims.Keys == Labels(s.claims, |s.claims|)
    && forall k :: 0 <= k < |s.claims| ==>
         Label(s.claims, k) in claims && claims[Label(s.claims, k)] == SubmodPayload(s, k)
  }

  /**
   * A document made by the issuer opens exactly when it was signed with a key and a kid for
   * the issuer that is expected, holds at least one claim and has a nonce. What comes out is
   * one payload for each claim under its own label, the nonce and the overall result.
   */
  lemma IssuedOpens(s: Session, v: Verifier, publicKey: string, eat: Eat, result: bool)
    requires IssuedAs(s, eat, result) && OwnMembers(s.claims) && Paired(s, v, publicKey)
    ensures (exists o :: Opens(v, eat, o)) <==> CanValidate(s, v) && s.claims != [] && NonceAfter(s.claims, |s.claims|) != ""
    ensures forall o :: Opens(v, eat, o) ==>
              && HoldsPayloads(s, o.claims)
              && o.nonce == FromHex(NonceAfter(s.claims, |s.claims|))
              && o.result == result == OverallResult(Devices(s.claims))
              && (o.result <==> o.claims != map[] && forall id :: id in o.claims ==> ReadsDevice(o.claims[id]))
  {
    hide OverallResult, FromHex, OverallToJson, NonceAfter, Paired, HoldsTokens, HoldsDigests, HoldsPayloads, Clean, Bound, Payloads,
      OwnMembers, OverallClaimsOf, Jti, IssuedAt, CanValidate;
    var digests :| HoldsDigests(s, eat.deviceTokens, digests)
      && eat.overallToken == s.crypto.sign(KidOf(s.options), OverallToJson(OverallOf(s, digests)), s.options.privateKey);
    SameKeys(s, eat.deviceTokens, digests);
    OverallOpens(s, v, publicKey, digests);
    if CanValidate(s, v) && s.claims != [] && NonceAfter(s.claims, |s.claims|) != "" {
      DevicesOpen(s, v, publicKey, eat.deviceTokens, digests);
      assert Opens(v, eat, Opened(FromHex(NonceAfter(s.claims, |s.claims|)), Payloads(v, eat.deviceTokens), result));
      ResultOnPayloads(s, Payloads(v, eat.deviceTokens));
    }
  }

  /** The overall result is the policy's verdict on the payloads that are handed out with it. */
  lemma ResultOnPayloads(s: Session, claims: map<string, Payload>)
    requires HoldsPayloads(s, claims)
    ensures OverallResult(Devices(s.claims)) <==> claims != map[] && forall id :: id in claims ==> ReadsDevice(claims[id])
  {
    hide ReadsDevice, DeviceAccepted, SubmodPayload, Label, Shows;
    var devices := Devices(s.claims);
    forall k | 0 <= k < |s.claims|
      ensures Label(s.claims, k) in claims && (ReadsDevice(claims[Label(s.claims, k)]) <==> DeviceAccepted(devices[k]))
    {
      PayloadShows(s, k);
      PolicyAgrees(SubmodPayload(s, k), s.claims[k].device);
    }
    assert claims == map[] <==> |claims| == 0;
    if forall id :: id in claims ==> ReadsDevice(claims[id]) {
      forall d | d in devices ensures DeviceAccepted(d) {
        var k :| 0 <= k < |devices| && devices[k] == d;
        assert ReadsDevice(claims[Label(s.claims, k)]);
      }
    }
    if forall d :: d in devices ==> DeviceAccepted(d) {
      forall id | id in claims ensures ReadsDevice(claims[id]) {
        assert id in Labels(s.claims, |s.claims|);
        var k :| 0 <= k < |s.claims| && Label(s.claims, k) == id;
        assert devices[k] in devices;
      }
    }
  }

  lemma SameKeys(s: Session, tokens: map<string, string>, digests: map<string, string>)
    requires HoldsTokens(s, |s.claims|, tokens) && HoldsDigests(s, tokens, digests)
    ensures digests.Keys == Labels(s.claims, |s.claims|)
  {
  }

  lemma OverallOpens(s: Session, v: Verifier, publicKey: string, digests: map<string, string>)
    requires Paired(s, v, publicKey)
    requires digests.Keys == Labels(s.claims, |s.claims|)
    ensures var overall := OverallClaimsOf(v, s.crypto.sign(KidOf(s.options), OverallToJson(OverallOf(s, digests)), s.options.privateKey));
            && (overall.Ok? <==> CanValidate(s, v) && s.claims != [] && NonceAfter(s.claims, |s.claims|) != "")
            && (overall.Ok? ==> overall.value == OverallOf(s, digests))
  {
    hide OverallResult, OverallToJson, OverallFromJson, Decode, NonceAfter, Label, Signs, Jti;
    var c := OverallOf(s, digests);
    CommonFields(c);
    TokenDecodes(s, v, publicKey, OverallToJson(c));
    OverallJsonRoundTrip(c);
    assert s.claims != [] ==> Label(s.claims, 0) in digests.Keys;
    assert s.claims == [] ==> digests.Keys == {};
  }

  lemma DevicesOpen(s: Session, v: Verifier, publicKey: string, tokens: map<string, string>, digests: map<string, string>)
    requires Paired(s, v, publicKey) && CanValidate(s, v) && OwnMembers(s.claims)
    requires Clean(s, |s.claims|) && HoldsTokens(s, |s.claims|, tokens) && HoldsDigests(s, tokens, digests)
    ensures Bound(v, digests, tokens) && HoldsPayloads(s, Payloads(v, tokens))
  {
    hide Decode, Label, SubmodPayload, Signs, IssuedAt, OwnMembers, Clean, CanValidate;
    forall k | 0 <= k < |s.claims| ensures Decode(v, DeviceToken(s, k)) == Ok(SubmodPayload(s, k)) {
      SubmodMembers(s, k);
      TokenDecodes(s, v, publicKey, SubmodPayload(s, k));
    }
    forall id | id in tokens ensures Decode(v, tokens[id]).Ok? {
      assert id in Labels(s.claims, |s.claims|);
      var k :| 0 <= k < |s.claims| && Label(s.claims, k) == id;
    }
    OneTokenEach(s, |s.claims|);
    var claims := Payloads(v, tokens);
    assert claims.Keys == tokens.Keys == Labels(s.claims, |s.claims|);
    assert |claims| == |claims.Keys|;
    hide Labels;
    forall k | 0 <= k < |s.claims|
      ensures Label(s.claims, k) in claims && claims[Label(s.claims, k)] == SubmodPayload(s, k)
    {
      assert tokens[Label(s.claims, k)] == DeviceToken(s, k);
    }
  }

  /** If the claims carry a nonce as the SDK writes it, its bytes come back. */
  lemma NonceRestored(s: Session, v: Verifier, publicKey: string, eat: Eat, result: bool, o: Opened, k: nat, nonce: seq<byte>)
    requires IssuedAs(s, eat, result) && OwnMembers(s.claims) && Paired(s, v, publicKey) && Opens(v, eat, o)
    requires k < |s.claims| && nonce != [] && s.claims[k].nonce == Ok(ToHex(nonce))
    ensures o.nonce == nonce
  {
    hide Opens, Paired, OwnMembers, HoldsTokens, HoldsDigests, HoldsPayloads, Label, FromHex, NonceAfter, OverallResult, OverallToJson;
    IssuedOpens(s, v, publicKey, eat, result);
    SharedNonce(s, k);
    HexRoundTrip(nonce);
  }

  lemma SharedNonce(s: Session, k: nat)
    requires Clean(s, |s.claims|) && k < |s.claims| && NonceText(s.claims[k]) != ""
    ensures NonceText(s.claims[k]) == NonceAfter(s.claims, |s.claims|)
  {
    hide NonceAfter, NonceText, KindOf, DeviceToken;
    assert forall i :: 0 <= i < |s.claims| ==> FaultAt(s, i).None? && !NonceClash(s.claims, i);
    NoncesAgree(s.claims, |s.claims|);
  }

  /** A subset that is as large as the whole is the whole. */
  lemma SameSize(a: set<string>, b: set<string>)
    requires a <= b && |a| == |b|
    ensures a == b
  {
    assert |b - a| == |b| - |a|;
    assert b == a + (b - a);
  }
}
