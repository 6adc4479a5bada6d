/**
 * The version 1 status-proof bundle,
 *   SEQUENCE { version INTEGER (1), responses SEQUENCE OF OCTET STRING },
 * as the capture script encodes it and as `RawProofOcspClient::decode_bundle` reads it
 * back: definite lengths (section 8.1.3 of ITU-T X.690) in the fewest octets (section
 * 10.1), at most two length octets.
 */
module StatusBundle {
  import opened Common

  const MAX_BUNDLE_BYTES := 16384
  const MAX_RESPONSES := 16
  const MAX_RESPONSE_BYTES := 2048
  const BUNDLE_VERSION: byte := 1

  const SEQUENCE: byte := 0x30
  const INTEGER: byte := 0x02
  const OCTET_STRING: byte := 0x04

  // ---------------------------------------------------------------------------
  // The encoder
  // ---------------------------------------------------------------------------

  /** The big-endian octets of `n` without leading zeros. */
  function BigEndian(n: nat): seq<byte> {
    if n == 0 then [] else BigEndian(n / 256) + [n % 256]
  }

  /** A DER length; two length octets are all a bundle within the size limit needs. */
  function DerLength(n: nat): (s: seq<byte>)
    requires n < 0x10000
    ensures 1 <= |s| <= 3
  {
    if n < 0x80 then [n]
    else
      LongForm(n);
      [0x80 + |BigEndian(n)|] + BigEndian(n)
  }

  function Tlv(tag: byte, value: seq<byte>): (s: seq<byte>)
    requires |value| < 0x10000
    ensures |value| + 2 <= |s| <= |value| + 4
  {
    [tag] + DerLength(|value|) + value
  }

  function Items(responses: seq<seq<byte>>): (s: seq<byte>)
    requires Bounded(responses)
    ensures |s| <= 2052 * |responses|
    ensures responses == [] <==> s == []
  {
    if responses == [] then []
    else Tlv(OCTET_STRING, responses[0]) + Items(responses[1..])
  }

  function Body(responses: seq<seq<byte>>): (s: seq<byte>)
    requires Acceptable(responses)
    ensures |s| < 0x10000
  {
    Tlv(INTEGER, [BUNDLE_VERSION]) + Tlv(SEQUENCE, Items(responses))
  }

  function Bundle(responses: seq<seq<byte>>): seq<byte>
    requires Acceptable(responses)
  {
    Tlv(SEQUENCE, Body(responses))
  }

  predicate Bounded(responses: seq<seq<byte>>) {
    forall i :: 0 <= i < |responses| ==> 1 <= |responses[i]| <= MAX_RESPONSE_BYTES
  }

  predicate Acceptable(responses: seq<seq<byte>>) {
    1 <= |responses| <= MAX_RESPONSES && Bounded(responses)
  }

  /** The bundle `b` is the encoding of `responses` and both are within their limits. */
  predicate Encodes(b: seq<byte>, responses: seq<seq<byte>>) {
    Acceptable(responses) && |b| <= MAX_BUNDLE_BYTES && b == Bundle(responses)
  }

  lemma LongForm(n: nat)
    requires 0x80 <= n < 0x10000
    ensures BigEndian(n) == if n < 0x100 then [n] else [n / 256, n % 256]
  {
    assert n / 256 < 256;
    assert BigEndian(n / 256 / 256) == [];
    if n < 0x100 {
      assert BigEndian(n / 256) == [];
    } else {
      assert BigEndian(n / 256) == [] + [n / 256 % 256];
    }
  }

  // ---------------------------------------------------------------------------
  // One length, one element
  // ---------------------------------------------------------------------------

  predicate At(data: seq<byte>, offset: nat, s: seq<byte>) {
    offset <= |data| && s <= data[offset..]
  }

  lemma AtConcat(data: seq<byte>, offset: nat, s: seq<byte>, t: seq<byte>)
    ensures At(data, offset, s + t) <==> At(data, offset, s) && At(data, offset + |s|, t)
  {
    if At(data, offset, s) {
      var d := data[offset..];
      assert data[offset + |s|..] == d[|s|..];
      if t <= d[|s|..] {
        assert d == s + d[|s|..];
      }
      if s + t <= d {
        assert (s + t)[|s|..] == t;
      }
    } else {
      assert s <= s + t;
    }
  }

  /** No length encoding is a prefix of another one. */
  lemma LengthUnique(data: seq<byte>, offset: nat, n: nat, m: nat)
    requires n < 0x10000 && m < 0x10000
    requires At(data, offset, DerLength(n)) && At(data, offset, DerLength(m))
    ensures n == m
  {
    LengthOctets(data, offset, n);
    LengthOctets(data, offset, m);
  }

  lemma LengthOctets(data: seq<byte>, offset: nat, n: nat)
    requires n < 0x10000
    ensures At(data, offset, DerLength(n)) <==>
            offset < |data|
            && (if n < 0x80 then data[offset] == n
                else if n < 0x100 then offset + 1 < |data| && data[offset] == 0x81 && data[offset + 1] == n
                else offset + 2 < |data| && data[offset] == 0x82
                     && data[offset + 1] == n / 256 && data[offset + 2] == n % 256)
  {
    if n >= 0x80 {
      LongForm(n);
    }
  }

  /** Reads a strict DER length: what it accepts is exactly what `DerLength` writes. */
  method ReadDerLength(data: seq<byte>, offset: nat) returns (ok: bool, next: nat, length: nat)
    ensures ok ==> length < 0x10000 && next == offset + |DerLength(length)| && At(data, offset, DerLength(length))
    ensures !ok ==> forall n: nat :: n < 0x10000 ==> !At(data, offset, DerLength(n))
  {
    ok, next, length := false, offset, 0;
    forall n: nat | n < 0x10000
      ensures At(data, offset, DerLength(n)) <==>
              offset < |data|
              && (if n < 0x80 then data[offset] == n
                  else if n < 0x100 then offset + 1 < |data| && data[offset] == 0x81 && data[offset + 1] == n
                  else offset + 2 < |data| && data[offset] == 0x82
                       && data[offset + 1] == n / 256 && data[offset + 2] == n % 256)
    {
      LengthOctets(data, offset, n);
    }
    if offset >= |data| {
      return;
    }
    var first := data[offset];
    next := offset + 1;
    if first < 0x80 {
      return true, next, first;
    }
    var count := first - 0x80;
    if count == 0 || count > 2 || next + count > |data| {
      return;
    }
    var value: int := 0;
    for i := 0 to count
      invariant value == if i == 0 then 0 else if i == 1 then data[next] as int else 256 * (data[next] as int) + data[next + 1]
    {
      value := 256 * value + data[next + i];
    }
    if data[next] == 0 || value < 0x80 {
      return;
    }
    LongForm(value);
    ok, next, length := true, next + count, value;
  }

  lemma TlvParts(data: seq<byte>, offset: nat, tag: byte, v: seq<byte>)
    requires |v| < 0x10000
    ensures At(data, offset, Tlv(tag, v)) <==>
            offset < |data| && data[offset] == tag
            && At(data, offset + 1, DerLength(|v|)) && At(data, offset + 1 + |DerLength(|v|)|, v)
  {
    var l := DerLength(|v|);
    assert Tlv(tag, v) == [tag] + (l + v);
    AtConcat(data, offset, [tag], l + v);
    AtConcat(data, offset + 1, l, v);
  }

  /** An element with this tag is encoded at `offset` and ends by `limit`. */
  ghost predicate ElementAt(data: seq<byte>, offset: nat, limit: nat, tag: byte, v: seq<byte>) {
    |v| < 0x10000 && offset + |Tlv(tag, v)| <= limit && At(data, offset, Tlv(tag, v))
  }

  /** An element there has its tag, its length and its end where the reader looks for them. */
  lemma ElementHeader(data: seq<byte>, offset: nat, limit: nat, tag: byte, v: seq<byte>)
    requires limit <= |data| && ElementAt(data, offset, limit, tag, v)
    ensures offset < limit && data[offset] == tag
    ensures At(data, offset + 1, DerLength(|v|))
    ensures offset + 1 + |DerLength(|v|)| + |v| <= limit
  {
    TlvParts(data, offset, tag, v);
  }

  ghost predicate NoElement(data: seq<byte>, offset: nat, limit: nat, tag: byte) {
    forall v: seq<byte> :: !ElementAt(data, offset, limit, tag, v)
  }

  lemma NoElementWithoutTag(data: seq<byte>, offset: nat, limit: nat, tag: byte)
    requires limit <= |data| && (offset >= limit || data[offset] != tag)
    ensures NoElement(data, offset, limit, tag)
  {
    forall v: seq<byte> ensures !ElementAt(data, offset, limit, tag, v) {
      if ElementAt(data, offset, limit, tag, v) {
        ElementHeader(data, offset, limit, tag, v);
      }
    }
  }

  lemma NoElementWithoutLength(data: seq<byte>, offset: nat, limit: nat, tag: byte)
    requires limit <= |data|
    requires forall n: nat :: n < 0x10000 ==> !At(data, offset + 1, DerLength(n))
    ensures NoElement(data, offset, limit, tag)
  {
    forall v: seq<byte> ensures !ElementAt(data, offset, limit, tag, v) {
      if ElementAt(data, offset, limit, tag, v) {
        ElementHeader(data, offset, limit, tag, v);
      }
    }
  }

  lemma NoElementTooLong(data: seq<byte>, offset: nat, limit: nat, tag: byte, n: nat)
    requires limit <= |data| && n < 0x10000 && At(data, offset + 1, DerLength(n))
    requires offset + 1 + |DerLength(n)| + n > limit
    ensures NoElement(data, offset, limit, tag)
  {
    forall v: seq<byte> ensures !ElementAt(data, offset, limit, tag, v) {
      if ElementAt(data, offset, limit, tag, v) {
        ElementHeader(data, offset, limit, tag, v);
        LengthUnique(data, offset + 1, |v|, n);
      }
    }
  }

  lemma ElementFound(data: seq<byte>, offset: nat, limit: nat, tag: byte, n: nat)
    requires limit <= |data| && n < 0x10000 && offset < limit && data[offset] == tag
    requires At(data, offset + 1, DerLength(n)) && offset + 1 + |DerLength(n)| + n <= limit
    ensures var start := offset + 1 + |DerLength(n)|;
            var v := data[start..start + n];
            ElementAt(data, offset, limit, tag, v) && start + n == offset + |Tlv(tag, v)|
  {
    var start := offset + 1 + |DerLength(n)|;
    var v := data[start..start + n];
    assert data[start..] == v + data[start + n..];
    TlvParts(data, offset, tag, v);
  }

  /** Reads one element inside `limit`; it succeeds exactly when an encoded element is there. */
  method ReadDerTlv(data: seq<byte>, offset: nat, limit: nat, tag: byte)
    returns (ok: bool, next: nat, start: nat, length: nat)
    requires limit <= |data|
    ensures ok ==> offset < start <= start + length == next <= limit && length < 0x10000
    ensures ok ==> ElementAt(data, offset, limit, tag, data[start..next]) && next == offset + |Tlv(tag, data[start..next])|
    ensures !ok ==> NoElement(data, offset, limit, tag)
  {
    ok, next, start, length := false, offset, 0, 0;
    if offset >= limit || data[offset] != tag {
      NoElementWithoutTag(data, offset, limit, tag);
      return;
    }
    var valid;
    valid, next, length := ReadDerLength(data, offset + 1);
    if !valid {
      NoElementWithoutLength(data, offset, limit, tag);
      return;
    }
    if next > limit || length > limit - next {
      NoElementTooLong(data, offset, limit, tag, length);
      return;
    }
    ElementFound(data, offset, limit, tag, length);
    ok, start := true, next;
    next := next + length;
  }

  // ---------------------------------------------------------------------------
  // The bundle
  // ---------------------------------------------------------------------------

  lemma {:induction false} ItemsAppend(rs: seq<seq<byte>>, r: seq<byte>)
    requires Bounded(rs) && 1 <= |r| <= MAX_RESPONSE_BYTES
    ensures Items(rs + [r]) == Items(rs) + Tlv(OCTET_STRING, r)
  {
    if rs == [] {
      assert rs + [r] == [r];
      assert Items([r]) == Tlv(OCTET_STRING, r) + Items([]);
    } else {
      assert (rs + [r])[1..] == rs[1..] + [r];
      ItemsAppend(rs[1..], r);
    }
  }

  lemma ElementUnique(data: seq<byte>, offset: nat, limit: nat, tag: byte, u: seq<byte>, v: seq<byte>)
    requires ElementAt(data, offset, limit, tag, u) && ElementAt(data, offset, limit, tag, v)
    ensures u == v
  {
    TlvParts(data, offset, tag, u);
    TlvParts(data, offset, tag, v);
    LengthUnique(data, offset + 1, |u|, |v|);
  }

  /** An element at the front of a region is what the region starts with, and conversely. */
  lemma RegionStarts(data: seq<byte>, offset: nat, limit: nat, tag: byte, v: seq<byte>, rest: seq<byte>)
    requires offset <= limit <= |data| && |v| < 0x10000
    ensures data[offset..limit] == Tlv(tag, v) + rest <==>
            ElementAt(data, offset, limit, tag, v) && data[offset + |Tlv(tag, v)|..limit] == rest
  {
    var t := Tlv(tag, v);
    var region := data[offset..limit];
    assert data[offset..] == region + data[limit..];
    if region == t + rest {
      assert t <= region;
      assert data[offset + |t|..limit] == region[|t|..] == rest;
    }
    if ElementAt(data, offset, limit, tag, v) {
      assert region == region[..|t|] + region[|t|..];
      assert data[offset + |t|..limit] == region[|t|..];
    }
  }

  /** After `k` responses the rest of the list of `rs` lies between `item` and `end`. */
  ghost predicate Pending(b: seq<byte>, rs: seq<seq<byte>>, done: seq<seq<byte>>, item: nat, end: nat) {
    Acceptable(rs) && done <= rs && item <= end <= |b| && b[item..end] == Items(rs[|done|..])
  }

  /** Only `rs` that have `done` as a prefix and the rest still unread can encode `b`. */
  ghost predicate Narrowed(b: seq<byte>, done: seq<seq<byte>>, item: nat, end: nat) {
    forall rs :: Encodes(b, rs) ==> Pending(b, rs, done, item, end)
  }

  ghost predicate Unencodable(b: seq<byte>) {
    forall rs :: !Encodes(b, rs)
  }

  // Each way of refusing a bundle refuses only what no list of responses encodes to.

  lemma NotOneSequence(b: seq<byte>)
    requires NoElement(b, 0, |b|, SEQUENCE)
    ensures Unencodable(b)
  {
    forall rs ensures !Encodes(b, rs) {
      if Encodes(b, rs) {
        assert b[0..|b|] == Tlv(SEQUENCE, Body(rs)) + [];
        RegionStarts(b, 0, |b|, SEQUENCE, Body(rs), []);
      }
    }
  }

  /** Once the outer element is read, its value must be the body of any encoded list. */
  lemma BodyKnown(b: seq<byte>, start: nat, next: nat)
    requires start <= next <= |b| && ElementAt(b, 0, |b|, SEQUENCE, b[start..next])
    requires next == |Tlv(SEQUENCE, b[start..next])|
    ensures forall rs :: Encodes(b, rs) ==> next == |b| && b[start..next] == Body(rs)
  {
    forall rs | Encodes(b, rs) ensures next == |b| && b[start..next] == Body(rs) {
      assert b[0..|b|] == Tlv(SEQUENCE, Body(rs)) + [];
      RegionStarts(b, 0, |b|, SEQUENCE, Body(rs), []);
      ElementUnique(b, 0, |b|, SEQUENCE, Body(rs), b[start..next]);
    }
  }

  /** In a body both headers are readable, and the list is what follows the version. */
  lemma BodyReadable(b: seq<byte>, start: nat, rs: seq<seq<byte>>)
    requires start <= |b| && Encodes(b, rs) && b[start..] == Body(rs)
    ensures ElementAt(b, start, |b|, INTEGER, [BUNDLE_VERSION])
    ensures var list := start + |Tlv(INTEGER, [BUNDLE_VERSION])|;
            && ElementAt(b, list, |b|, SEQUENCE, Items(rs))
            && list + |Tlv(SEQUENCE, Items(rs))| == |b|
  {
    assert b[start..|b|] == b[start..];
    RegionStarts(b, start, |b|, INTEGER, [BUNDLE_VERSION], Tlv(SEQUENCE, Items(rs)));
    var list := start + |Tlv(INTEGER, [BUNDLE_VERSION])|;
    assert b[list..|b|] == Tlv(SEQUENCE, Items(rs)) + [];
    RegionStarts(b, list, |b|, SEQUENCE, Items(rs), []);
  }

  /** The three headers around a list of responses make a bundle of that list. */
  lemma BundleAssembled(b: seq<byte>, body: nat, version: seq<byte>, list: nat, rs: seq<seq<byte>>)
    requires |b| <= MAX_BUNDLE_BYTES && Acceptable(rs)
    requires body <= |b| && version == [BUNDLE_VERSION]
    requires ElementAt(b, 0, |b|, SEQUENCE, b[body..]) && |Tlv(SEQUENCE, b[body..])| == |b|
    requires ElementAt(b, body, |b|, INTEGER, version) && list == body + |Tlv(INTEGER, version)|
    requires ElementAt(b, list, |b|, SEQUENCE, Items(rs)) && list + |Tlv(SEQUENCE, Items(rs))| == |b|
    ensures Encodes(b, rs)
  {
    assert b[list + |Tlv(SEQUENCE, Items(rs))|..|b|] == [];
    RegionStarts(b, list, |b|, SEQUENCE, Items(rs), []);
    assert b[list..|b|] == Tlv(SEQUENCE, Items(rs));
    RegionStarts(b, body, |b|, INTEGER, version, Tlv(SEQUENCE, Items(rs)));
    assert b[body..|b|] == b[body..] == Body(rs);
    assert b[|Tlv(SEQUENCE, b[body..])|..|b|] == [];
    RegionStarts(b, 0, |b|, SEQUENCE, b[body..], []);
    assert b[0..|b|] == b;
  }

  lemma ListKnown(b: seq<byte>, body: nat, list: nat, next: nat)
    requires body <= list <= next <= |b|
    requires forall rs :: Encodes(b, rs) ==> b[body..] == Body(rs)
    requires var at := body + |Tlv(INTEGER, [BUNDLE_VERSION])|;
             ElementAt(b, at, |b|, SEQUENCE, b[list..next]) && next == at + |Tlv(SEQUENCE, b[list..next])|
    ensures forall rs :: Encodes(b, rs) ==> next == |b|
    ensures Narrowed(b, [], list, next)
  {
    forall rs | Encodes(b, rs) ensures next == |b| && Pending(b, rs, [], list, next) {
      BodyReadable(b, body, rs);
      ElementUnique(b, body + |Tlv(INTEGER, [BUNDLE_VERSION])|, |b|, SEQUENCE, Items(rs), b[list..next]);
      assert rs[0..] == rs;
    }
  }

  lemma ResponseReadable(b: seq<byte>, done: seq<seq<byte>>, item: nat, end: nat, rs: seq<seq<byte>>)
    requires Pending(b, rs, done, item, end) && item < end
    ensures |done| < |rs| && ElementAt(b, item, end, OCTET_STRING, rs[|done|])
    ensures b[item + |Tlv(OCTET_STRING, rs[|done|])|..end] == Items(rs[|done| + 1..])
  {
    var left := rs[|done|..];
    assert left != [];
    assert left[1..] == rs[|done| + 1..];
    RegionStarts(b, item, end, OCTET_STRING, left[0], Items(left[1..]));
  }

  /** A list that cannot be read on, or holds a seventeenth item, encodes nothing. */
  lemma ListRefused(b: seq<byte>, done: seq<seq<byte>>, item: nat, end: nat)
    requires Narrowed(b, done, item, end) && item < end <= |b|
    requires |done| >= MAX_RESPONSES || NoElement(b, item, end, OCTET_STRING)
    ensures Unencodable(b)
  {
    forall rs ensures !Encodes(b, rs) {
      if Encodes(b, rs) {
        ResponseReadable(b, done, item, end, rs);
      }
    }
  }

  lemma ResponseRefused(b: seq<byte>, done: seq<seq<byte>>, item: nat, end: nat, v: seq<byte>)
    requires Narrowed(b, done, item, end) && item < end <= |b|
    requires ElementAt(b, item, end, OCTET_STRING, v) && !(1 <= |v| <= MAX_RESPONSE_BYTES)
    ensures Unencodable(b)
  {
    forall rs ensures !Encodes(b, rs) {
      if Encodes(b, rs) {
        ResponseReadable(b, done, item, end, rs);
        ElementUnique(b, item, end, OCTET_STRING, v, rs[|done|]);
      }
    }
  }

  lemma ResponseTaken(b: seq<byte>, done: seq<seq<byte>>, item: nat, end: nat, v: seq<byte>)
    requires Narrowed(b, done, item, end) && item < end <= |b|
    requires ElementAt(b, item, end, OCTET_STRING, v)
    ensures Narrowed(b, done + [v], item + |Tlv(OCTET_STRING, v)|, end)
  {
    forall rs | Encodes(b, rs) ensures Pending(b, rs, done + [v], item + |Tlv(OCTET_STRING, v)|, end) {
      PendingStep(b, rs, done, item, end, v);
    }
  }

  lemma PendingStep(b: seq<byte>, rs: seq<seq<byte>>, done: seq<seq<byte>>, item: nat, end: nat, v: seq<byte>)
    requires Pending(b, rs, done, item, end) && item < end
    requires ElementAt(b, item, end, OCTET_STRING, v)
    ensures Pending(b, rs, done + [v], item + |Tlv(OCTET_STRING, v)|, end)
  {
    ResponseReadable(b, done, item, end, rs);
    ElementUnique(b, item, end, OCTET_STRING, v, rs[|done|]);
    assert |done + [v]| == |done| + 1;
  }

  lemma ElementSlice(data: seq<byte>, offset: nat, limit: nat, tag: byte, v: seq<byte>)
    requires limit <= |data| && ElementAt(data, offset, limit, tag, v)
    ensures data[offset..offset + |Tlv(tag, v)|] == Tlv(tag, v)
  {
    var t := Tlv(tag, v);
    assert data[offset..][..|t|] == t;
  }

  lemma RegionExtended(b: seq<byte>, list: nat, item: nat, end: nat, done: seq<seq<byte>>, v: seq<byte>)
    requires list <= item < end <= |b| && Bounded(done) && b[list..item] == Items(done)
    requires 1 <= |v| <= MAX_RESPONSE_BYTES && ElementAt(b, item, end, OCTET_STRING, v)
    ensures Bounded(done + [v]) && b[list..item + |Tlv(OCTET_STRING, v)|] == Items(done + [v])
  {
    ItemsAppend(done, v);
    ElementSlice(b, item, end, OCTET_STRING, v);
    SliceJoin(b, list, item, item + |Tlv(OCTET_STRING, v)|);
  }

  lemma SliceJoin(b: seq<byte>, i: nat, j: nat, k: nat)
    requires i <= j <= k <= |b|
    ensures b[i..k] == b[i..j] + b[j..k]
  {
  }

  /** The loop over the list region: all of it is read, or no list of responses fits. */
  method DecodeList(b: seq<byte>, listStart: nat, listEnd: nat) returns (ok: bool, responses: seq<seq<byte>>)
    requires listStart <= listEnd <= |b| && Narrowed(b, [], listStart, listEnd)
    ensures ok ==> |responses| <= MAX_RESPONSES && Bounded(responses) && b[listStart..listEnd] == Items(responses)
    ensures ok ==> forall rs :: Encodes(b, rs) ==> rs == responses
    ensures !ok ==> Unencodable(b)
  {
    hide NoElement, Narrowed, Unencodable, Encodes, Items, ElementAt, Tlv;
    var item := listStart;
    responses := [];
    ok := true;
    while item < listEnd
      invariant listStart <= item <= listEnd
      invariant |responses| <= MAX_RESPONSES && Bounded(responses)
      invariant b[listStart..item] == Items(responses)
      invariant Narrowed(b, responses, item, listEnd)
    {
      if |responses| >= MAX_RESPONSES {
        ListRefused(b, responses, item, listEnd);
        return false, responses;
      }
      var next, start, length;
      ok, next, start, length := ReadDerTlv(b, item, listEnd, OCTET_STRING);
      if !ok {
        ListRefused(b, responses, item, listEnd);
        return;
      }
      var value := b[start..start + length];
      if length == 0 || length > MAX_RESPONSE_BYTES {
        ResponseRefused(b, responses, item, listEnd, value);
        return false, responses;
      }
      RegionExtended(b, listStart, item, listEnd, responses, value);
      ResponseTaken(b, responses, item, listEnd, value);
      responses := responses + [value];
      item := next;
    }
    ok := true;
    ListFinished(b, responses, listEnd);
  }

  lemma ListFinished(b: seq<byte>, done: seq<seq<byte>>, end: nat)
    requires Narrowed(b, done, end, end) && end <= |b|
    ensures forall rs :: Encodes(b, rs) ==> rs == done
  {
    forall rs | Encodes(b, rs) ensures rs == done {
      assert b[end..end] == [];
      assert rs == rs[..|done|] + rs[|done|..];
    }
  }

  /** Behind the version, the list element is there for every encoded list. */
  lemma HeadersReadable(b: seq<byte>, body: nat)
    requires body <= |b| && forall rs :: Encodes(b, rs) ==> b[body..] == Body(rs)
    ensures (exists rs :: Encodes(b, rs)) ==> ElementAt(b, body, |b|, INTEGER, [BUNDLE_VERSION])
    ensures NoElement(b, body + |Tlv(INTEGER, [BUNDLE_VERSION])|, |b|, SEQUENCE) ==> Unencodable(b)
  {
    forall rs | Encodes(b, rs)
      ensures ElementAt(b, body, |b|, INTEGER, [BUNDLE_VERSION])
      ensures !NoElement(b, body + |Tlv(INTEGER, [BUNDLE_VERSION])|, |b|, SEQUENCE)
    {
      BodyReadable(b, body, rs);
    }
  }

  /** The version element, if any list encodes to `b`, holds exactly the byte 1. */
  lemma VersionKnown(b: seq<byte>, body: nat, start: nat, next: nat)
    requires body <= |b| && start <= next <= |b| && ElementAt(b, body, |b|, INTEGER, b[start..next])
    requires (exists rs :: Encodes(b, rs)) ==> ElementAt(b, body, |b|, INTEGER, [BUNDLE_VERSION])
    ensures next - start != 1 || b[start] != BUNDLE_VERSION ==> Unencodable(b)
  {
    if !Unencodable(b) {
      ElementUnique(b, body, |b|, INTEGER, b[start..next], [BUNDLE_VERSION]);
      assert b[start..next][0] == b[start];
    }
  }

  /** The headers of `b` fit around any list whose items fill it from `list` on. */
  ghost predicate Framed(b: seq<byte>, list: nat) {
    list <= |b| && forall rs :: Acceptable(rs) && b[list..] == Items(rs) ==> Encodes(b, rs)
  }

  lemma HeadersFrame(b: seq<byte>, body: nat, at: nat, list: nat)
    requires body <= at <= list <= |b| <= MAX_BUNDLE_BYTES
    requires ElementAt(b, 0, |b|, SEQUENCE, b[body..]) && |Tlv(SEQUENCE, b[body..])| == |b|
    requires ElementAt(b, body, |b|, INTEGER, [BUNDLE_VERSION]) && at == body + |Tlv(INTEGER, [BUNDLE_VERSION])|
    requires ElementAt(b, at, |b|, SEQUENCE, b[list..]) && at + |Tlv(SEQUENCE, b[list..])| == |b|
    ensures Framed(b, list)
  {
    forall rs | Acceptable(rs) && b[list..] == Items(rs) ensures Encodes(b, rs) {
      BundleAssembled(b, body, [BUNDLE_VERSION], at, rs);
    }
  }

  /** Reads the outer sequence, the version and the header of the list of responses. */
  method ReadHeaders(b: seq<byte>) returns (ok: bool, listStart: nat)
    requires |b| <= MAX_BUNDLE_BYTES
    ensures ok ==> Framed(b, listStart) && Narrowed(b, [], listStart, |b|)
    ensures !ok ==> Unencodable(b)
  {
    hide NoElement, Narrowed, Framed, Tlv;
    listStart := 0;
    var offset, bodyStart, bodyLength;
    ok, offset, bodyStart, bodyLength := ReadDerTlv(b, 0, |b|, SEQUENCE);
    if !ok {
      NotOneSequence(b);
      return;
    }
    BodyKnown(b, bodyStart, offset);
    if offset != |b| {
      return false, 0;
    }
    var bodyEnd := bodyStart + bodyLength;
    assert b[bodyStart..bodyEnd] == b[bodyStart..];
    HeadersReadable(b, bodyStart);
    var cursor, versionStart, versionLength;
    ok, cursor, versionStart, versionLength := ReadDerTlv(b, bodyStart, bodyEnd, INTEGER);
    if !ok {
      return;
    }
    VersionKnown(b, bodyStart, versionStart, cursor);
    if versionLength != 1 || b[versionStart] != BUNDLE_VERSION {
      return false, 0;
    }
    assert b[versionStart..cursor] == [BUNDLE_VERSION];
    var at, listLength := cursor, 0;
    ok, cursor, listStart, listLength := ReadDerTlv(b, cursor, bodyEnd, SEQUENCE);
    if !ok {
      return;
    }
    ListKnown(b, bodyStart, listStart, cursor);
    if cursor != bodyEnd {
      return false, 0;
    }
    assert b[listStart..cursor] == b[listStart..];
    HeadersFrame(b, bodyStart, at, listStart);
  }

  /** The raw-proof bundle decoder accepts exactly the encodings of acceptable lists. */
  method DecodeBundle(b: seq<byte>) returns (r: Result<seq<seq<byte>>>)
    ensures forall rs :: r == Ok(rs) <==> Encodes(b, rs)
    ensures r.Ok? ==> |b| <= 16384 && 1 <= |r.value| <= 16 && forall i :: 0 <= i < |r.value| ==> 1 <= |r.value[i]| <= 2048
    ensures r.Err? ==> r.error == OcspInvalidResponse
  {
    r := Err(OcspInvalidResponse);
    if |b| == 0 || |b| > MAX_BUNDLE_BYTES {
      return;
    }
    var ok, listStart := ReadHeaders(b);
    if !ok {
      return;
    }
    var responses;
    ok, responses := DecodeList(b, listStart, |b|);
    if !ok || responses == [] {
      return;
    }
    assert b[listStart..|b|] == b[listStart..];
    r := Ok(responses);
  }

  /** One encoding per value: two acceptable lists with the same bundle are the same list. */
  lemma BundleInjective(rs: seq<seq<byte>>, rs': seq<seq<byte>>)
    requires Acceptable(rs) && Acceptable(rs') && Bundle(rs) == Bundle(rs')
    ensures rs == rs'
  {
    TlvInjective(SEQUENCE, Body(rs), [], Body(rs'), []);
    TlvInjective(INTEGER, [BUNDLE_VERSION], Tlv(SEQUENCE, Items(rs)), [BUNDLE_VERSION], Tlv(SEQUENCE, Items(rs')));
    TlvInjective(SEQUENCE, Items(rs), [], Items(rs'), []);
    ItemsInjective(rs, rs');
  }

  lemma TlvInjective(tag: byte, u: seq<byte>, s: seq<byte>, v: seq<byte>, t: seq<byte>)
    requires |u| < 0x10000 && |v| < 0x10000
    requires Tlv(tag, u) + s == Tlv(tag, v) + t || (s == [] && t == [] && Tlv(tag, u) == Tlv(tag, v))
    ensures u == v && s == t
  {
    var data := Tlv(tag, u) + s;
    assert data[0..|data|] == Tlv(tag, u) + s;
    assert data[0..|data|] == Tlv(tag, v) + t;
    RegionStarts(data, 0, |data|, tag, u, s);
    RegionStarts(data, 0, |data|, tag, v, t);
    ElementUnique(data, 0, |data|, tag, u, v);
  }

  lemma {:induction false} ItemsInjective(rs: seq<seq<byte>>, rs': seq<seq<byte>>)
    requires Bounded(rs) && Bounded(rs') && Items(rs) == Items(rs')
    ensures rs == rs'
  {
    if rs != [] {
      TlvInjective(OCTET_STRING, rs[0], Items(rs[1..]), rs'[0], Items(rs'[1..]));
      ItemsInjective(rs[1..], rs'[1..]);
    }
  }

  /** Every list within the limits whose bundle is within its limit is encoded by that bundle. */
  lemma WithinLimits(rs: seq<seq<byte>>)
    requires 1 <= |rs| <= 16 && forall i :: 0 <= i < |rs| ==> 1 <= |rs[i]| <= 2048
    ensures Acceptable(rs) && (Encodes(Bundle(rs), rs) <==> |Bundle(rs)| <= 16384)
  {
  }

  /** Lengths in the fewest octets: one below 128, then 0x81 and one, then 0x82 and two, the higher first. */
  lemma LengthForms(n: nat)
    requires n < 0x10000
    ensures DerLength(n) == if n < 128 then [n] else if n < 256 then [0x81, n] else [0x82, n / 256, n % 256]
  {
    if n >= 128 {
      assert BigEndian(n) == BigEndian(n / 256) + [n % 256];
      if n < 256 {
        assert BigEndian(n / 256) == [];
      } else {
        assert BigEndian(n / 256) == BigEndian(n / 256 / 256) + [n / 256 % 256];
      }
    }
  }

  /** The smallest bundle, octet by octet. */
  lemma SmallestBundle(x: byte)
    ensures Acceptable([[x]]) && Bundle([[x]]) == [0x30, 8, 0x02, 1, 1, 0x30, 3, 0x04, 1, x]
  {
    var rs := [[x]];
    assert Acceptable(rs) && rs[1..] == [];
    assert Items(rs) == Tlv(OCTET_STRING, rs[0]) + Items(rs[1..]);
    assert Items(rs) == [0x04, 1, x];
    assert Body(rs) == [0x02, 1, 1] + [0x30, 3] + [0x04, 1, x];
  }
}
