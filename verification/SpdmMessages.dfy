/**
 * The two SPDM 1.1 messages of a report, GET_MEASUREMENTS request and MEASUREMENTS
 * response: parsers that fill an object field by field, and the bytes those fields stand for.
 */
module SpdmMessages {
  import opened Common
  import opened Bytes
  import opened SpdmRecords

  const SPDM_VERSION_1_1: byte := 0x11
  const GET_MEASUREMENTS: byte := 0xe0
  const MEASUREMENTS: byte := 0x60
  const NONCE_SIZE := 32
  const REQUEST_LENGTH := 37

  // ---------------------------------------------------------------------------
  // Request
  // ---------------------------------------------------------------------------

  datatype Request = Request(param1: byte, param2: byte, nonce: seq<byte>, slotId: byte)

  predicate ValidRequest(q: Request) { |q.nonce| == NONCE_SIZE }

  function RequestBytes(q: Request): seq<byte> {
    [SPDM_VERSION_1_1, GET_MEASUREMENTS, q.param1, q.param2] + q.nonce + [q.slotId]
  }

  class RequestMessage {
    var version: byte
    var code: byte
    var param1: byte
    var param2: byte
    var nonce: seq<byte>
    var slotId: byte

    constructor () {
      version, code, param1, param2, nonce, slotId := 0, 0, 0, 0, [], 0;
    }

    function View(): Request
      reads this
    {
      Request(param1, param2, nonce, slotId)
    }

    /** Accepts exactly the 37 bytes of a request, and holds its fields afterwards. */
    method Parse(data: seq<byte>) returns (ok: bool)
      modifies this
      ensures ok <==> exists q :: ValidRequest(q) && RequestBytes(q) == data
      ensures ok ==> ValidRequest(View()) && RequestBytes(View()) == data
    {
      ok := false;
      if |data| != REQUEST_LENGTH {
        return;
      }
      var offset := 0;
      version := data[offset];
      offset := offset + 1;
      if version != SPDM_VERSION_1_1 {
        return;
      }
      code := data[offset];
      offset := offset + 1;
      if code != GET_MEASUREMENTS {
        return;
      }
      param1 := data[offset];
      offset := offset + 1;
      param2 := data[offset];
      offset := offset + 1;
      nonce := data[offset..offset + NONCE_SIZE];
      offset := offset + NONCE_SIZE;
      slotId := data[offset];
      offset := offset + 1;
      assert RequestBytes(View()) == data;
      ok := true;
    }
  }

  // ---------------------------------------------------------------------------
  // Response
  // ---------------------------------------------------------------------------

  datatype Response = Response(
    param1: byte, param2: byte, numberOfBlocks: byte, record: seq<byte>, blocks: map<byte, Dmtf>,
    nonce: seq<byte>, opaqueData: seq<byte>, fields: seq<Field>, signature: seq<byte>)

  /** The structured parts agree with the raw ones, and every length fits its field. */
  ghost predicate ValidResponse(m: Response, signatureLength: nat) {
    && m.numberOfBlocks > 0 && |m.record| < 0x1000000
    && (exists bs :: Tiles(m.record, m.numberOfBlocks, bs) && m.blocks == BlockMap(bs))
    && |m.nonce| == NONCE_SIZE
    && 0 < |m.opaqueData| < 0x10000 && FieldsOf(m.opaqueData) == Some(m.fields)
    && |m.signature| == signatureLength
  }

  /** Everything of the response that the signature covers. */
  function UnsignedBytes(m: Response): seq<byte> {
    [SPDM_VERSION_1_1, MEASUREMENTS, m.param1, m.param2, m.numberOfBlocks] + ToLe(|m.record|, 3) + m.record
    + m.nonce + ToLe(|m.opaqueData|, 2) + m.opaqueData
  }

  function ResponseBytes(m: Response): seq<byte> {
    UnsignedBytes(m) + m.signature
  }

  /** Where the fields of a response lie, given the two lengths it carries. */
  lemma ResponseSlices(m: Response, data: seq<byte>)
    requires |m.record| < 0x1000000 && |m.opaqueData| < 0x10000 && |m.nonce| == NONCE_SIZE
    requires data == ResponseBytes(m)
    ensures var r, o := 8 + |m.record|, 8 + |m.record| + 34;
            && |data| == o + |m.opaqueData| + |m.signature|
            && data[..5] == [SPDM_VERSION_1_1, MEASUREMENTS, m.param1, m.param2, m.numberOfBlocks]
            && FromLe(data[5..8]) == |m.record| && data[8..r] == m.record && data[r..r + 32] == m.nonce
            && FromLe(data[r + 32..o]) == |m.opaqueData| && data[o..o + |m.opaqueData|] == m.opaqueData
            && data[o + |m.opaqueData|..] == m.signature
  {
    Widths();
    LeRoundTrip(|m.record|, 3);
    LeRoundTrip(|m.opaqueData|, 2);
    var head := [SPDM_VERSION_1_1, MEASUREMENTS, m.param1, m.param2, m.numberOfBlocks];
    var l3, l2 := ToLe(|m.record|, 3), ToLe(|m.opaqueData|, 2);
    assert data == head + l3 + m.record + m.nonce + l2 + m.opaqueData + m.signature;
    var r, o := 8 + |m.record|, 8 + |m.record| + 34;
    assert data[5..8] == l3 && data[8..r] == m.record && data[r..r + 32] == m.nonce;
    assert data[r + 32..o] == l2 && data[o..o + |m.opaqueData|] == m.opaqueData;
  }

  /** The slices put together again are the response. */
  lemma SlicesJoin(m: Response, data: seq<byte>, r: nat, o: nat, e: nat)
    requires 8 <= r <= r + 34 == o <= e <= |data|
    requires data[..5] == [SPDM_VERSION_1_1, MEASUREMENTS, m.param1, m.param2, m.numberOfBlocks]
    requires r == 8 + FromLe(data[5..8]) && e == o + FromLe(data[r + 32..o])
    requires m.record == data[8..r] && m.nonce == data[r..r + 32] && m.opaqueData == data[o..e] && m.signature == data[e..]
    ensures data == ResponseBytes(m) && |m.record| < 0x1000000 && |m.opaqueData| < 0x10000
  {
    Widths();
    LeBytes(data[5..8]);
    LeBytes(data[r + 32..o]);
    assert data == data[..5] + data[5..8] + data[8..r] + data[r..r + 32] + data[r + 32..o] + data[o..e] + data[e..];
  }

  class ResponseMessage {
    var version: byte
    var code: byte
    var param1: byte
    var param2: byte
    var numberOfBlocks: byte
    var record: seq<byte>
    var blocks: map<byte, Dmtf>
    var nonce: seq<byte>
    var opaqueData: seq<byte>
    const opaqueFields: OpaqueParser
    var signature: seq<byte>

    constructor ()
      ensures fresh(opaqueFields) && opaqueFields.fields == []
    {
      opaqueFields := new OpaqueParser();
      version, code, param1, param2, numberOfBlocks := 0, 0, 0, 0, 0;
      record, blocks, nonce, opaqueData, signature := [], map[], [], [], [];
    }

    function View(): Response
      reads this, opaqueFields
    {
      Response(param1, param2, numberOfBlocks, record, blocks, nonce, opaqueData, opaqueFields.fields, signature)
    }

    /** Version, code, parameters, block count and the measurement record; `next` is where it ends. */
    method ParseHead(data: seq<byte>) returns (error: Option<Fault>, next: nat)
      modifies this
      ensures error.None? <==>
                && |data| >= 8 && data[0] == SPDM_VERSION_1_1 && data[1] == MEASUREMENTS && data[4] != 0
                && 8 + FromLe(data[5..8]) <= |data|
                && Tileable(data[8..8 + FromLe(data[5..8])], data[4])
      ensures error.None? ==>
                && next == 8 + FromLe(data[5..8]) && record == data[8..next]
                && [param1, param2, numberOfBlocks] == data[2..5]
                && forall bs :: Tiles(record, numberOfBlocks, bs) ==> blocks == BlockMap(bs)
    {
      hide Tiles, BlockMap;
      error, next := Some(SpdmParseError), 0;
      if |data| < 1 {
        return;
      }
      version := data[0];
      if version != SPDM_VERSION_1_1 {
        return;
      }
      if |data| < 2 {
        return;
      }
      code := data[1];
      if code != MEASUREMENTS {
        return;
      }
      if |data| < 5 {
        return;
      }
      param1, param2, numberOfBlocks := data[2], data[3], data[4];
      if numberOfBlocks == 0 {
        return;
      }
      var read, length := ReadLittleEndian(data, 5, 3);
      if !read {
        return;
      }
      if 8 + length > |data| {
        return;
      }
      next := 8 + length;
      record := data[8..next];
      var parser := new RecordParser();
      var parsed := parser.Parse(record, numberOfBlocks);
      if !parsed {
        error := Some(SpdmMeasurementRecordParseError);
        return;
      }
      blocks := parser.blocks;
      error := None;
    }

    /** Nonce, opaque data and signature, up to the last byte. */
    method ParseTail(data: seq<byte>, at: nat, signatureLength: nat) returns (error: Option<Fault>)
      requires at <= |data|
      modifies this`nonce, this`opaqueData, this`signature, opaqueFields
      ensures error.None? <==>
                && at + 34 <= |data|
                && var e := at + 34 + FromLe(data[at + 32..at + 34]);
                && at + 34 < e && e + signatureLength == |data| && FieldsOf(data[at + 34..e]).Some?
      ensures error.None? ==>
                && var e := at + 34 + FromLe(data[at + 32..at + 34]);
                && nonce == data[at..at + 32] && opaqueData == data[at + 34..e] && signature == data[e..]
                && opaqueFields.fields == old(opaqueFields.fields) + FieldsOf(opaqueData).value
    {
      hide FieldsOf;
      error := Some(SpdmParseError);
      if at + NONCE_SIZE > |data| {
        return;
      }
      nonce := data[at..at + NONCE_SIZE];
      var offset := at + NONCE_SIZE;
      var read, length := ReadLittleEndian(data, offset, 2);
      if !read {
        return;
      }
      offset := offset + 2;
      if offset + length > |data| {
        return;
      }
      opaqueData := data[offset..offset + length];
      offset := offset + length;
      if opaqueData == [] {
        return;
      }
      var parsed := opaqueFields.Parse(opaqueData);
      if !parsed {
        error := Some(SpdmOpaqueDataParseError);
        return;
      }
      if offset + signatureLength > |data| {
        return;
      }
      signature := data[offset..offset + signatureLength];
      offset := offset + signatureLength;
      if offset != |data| {
        return;
      }
      error := None;
    }

    /** The response in the fields, apart from the opaque fields of earlier calls. */
    function Since(earlier: seq<Field>): Response
      requires |earlier| <= |opaqueFields.fields|
      reads this, opaqueFields
    {
      View().(fields := opaqueFields.fields[|earlier|..])
    }

    /**
     * Accepts exactly the bytes of a valid response, and holds that response afterwards; its
     * opaque fields stand behind those of earlier calls.
     */
    method Parse(data: seq<byte>, signatureLength: nat) returns (error: Option<Fault>)
      modifies this, opaqueFields
      ensures error.None? <==> exists m :: ValidResponse(m, signatureLength) && ResponseBytes(m) == data
      ensures error.None? ==>
                && old(opaqueFields.fields) <= opaqueFields.fields
                && ValidResponse(Since(old(opaqueFields.fields)), signatureLength)
                && ResponseBytes(Since(old(opaqueFields.fields))) == data
    {
      hide Tiles, BlockMap, FieldsOf, ResponseBytes, ToLe, FromLe;
      forall m | ValidResponse(m, signatureLength) && ResponseBytes(m) == data
        ensures Shaped(data, signatureLength)
      {
        ValidIsShaped(m, data, signatureLength);
      }
      var next;
      error, next := ParseHead(data);
      if error.Some? {
        return;
      }
      ghost var bs :| Tiles(record, numberOfBlocks, bs);
      assert blocks == BlockMap(bs);
      error := ParseTail(data, next, signatureLength);
      if error.Some? {
        return;
      }
      ghost var m := Since(old(opaqueFields.fields));
      assert m.fields == FieldsOf(opaqueData).value;
      assert data[..5] == [data[0], data[1]] + data[2..5];
      SlicesJoin(m, data, next, next + 34, |data| - signatureLength);
      assert FieldsOf(m.opaqueData) == Some(m.fields);
      assert Tiles(m.record, m.numberOfBlocks, bs) && m.blocks == BlockMap(bs);
      assert |m.signature| == signatureLength;
      assert ValidResponse(m, signatureLength);
    }
  }

  /** The checks of both halves of the parser, on the bytes alone. */
  ghost predicate Shaped(data: seq<byte>, signatureLength: nat) {
    && |data| >= 8 && data[0] == SPDM_VERSION_1_1 && data[1] == MEASUREMENTS && data[4] != 0
    && 8 + FromLe(data[5..8]) <= |data|
    && Tileable(data[8..8 + FromLe(data[5..8])], data[4])
    && var at := 8 + FromLe(data[5..8]);
    && at + 34 <= |data|
    && var e := at + 34 + FromLe(data[at + 32..at + 34]);
    && at + 34 < e && e + signatureLength == |data| && FieldsOf(data[at + 34..e]).Some?
  }

  lemma ValidIsShaped(m: Response, data: seq<byte>, signatureLength: nat)
    requires ValidResponse(m, signatureLength) && ResponseBytes(m) == data
    ensures Shaped(data, signatureLength)
  {
    hide Tiles, BlockMap, FieldsOf, ResponseBytes, FromLe;
    ResponseSlices(m, data);
    assert data[..5][0] == data[0] && data[..5][1] == data[1] && data[..5][4] == data[4];
  }
}
