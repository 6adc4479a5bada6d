/**
 * The two length-driven areas of an SPDM 1.1 MEASUREMENTS response (DMTF DSP0274): the
 * measurement record and the opaque data, each parsed by advancing an offset, each judged
 * against its serialization.
 */
module SpdmRecords {
  import opened Common
  import opened Bytes

  const DMTF_SPECIFICATION: byte := 0x01

  // ---------------------------------------------------------------------------
  // Measurement blocks
  // ---------------------------------------------------------------------------

  /** A DMTF measurement value as the SDK keeps it. */
  datatype Dmtf = Dmtf(kind: byte, value: seq<byte>)

  /** A block on the wire; `extra` are bytes behind the DMTF value, which the SDK skips. */
  datatype Block = Block(index: byte, dmtf: Dmtf, extra: seq<byte>)

  predicate ValidBlock(b: Block) {
    b.index >= 1 && 3 + |b.dmtf.value| + |b.extra| < 0x10000
  }

  function Measurement(b: Block): seq<byte>
    requires ValidBlock(b)
  {
    [b.dmtf.kind] + ToLe(|b.dmtf.value|, 2) + b.dmtf.value + b.extra
  }

  function BlockBytes(b: Block): seq<byte>
    requires ValidBlock(b)
  {
    [b.index, DMTF_SPECIFICATION] + ToLe(|Measurement(b)|, 2) + Measurement(b)
  }

  predicate ValidBlocks(bs: seq<Block>) {
    forall i :: 0 <= i < |bs| ==> ValidBlock(bs[i])
  }

  function RecordBytes(bs: seq<Block>): seq<byte>
    requires ValidBlocks(bs)
  {
    if bs == [] then [] else BlockBytes(bs[0]) + RecordBytes(bs[1..])
  }

  /** The parsed map: the last block with an index wins. */
  function BlockMap(bs: seq<Block>): map<byte, Dmtf> {
    if bs == [] then map[] else BlockMap(bs[..|bs| - 1])[bs[|bs| - 1].index := bs[|bs| - 1].dmtf]
  }

  /** `n` blocks tile the record without gap or overlap. */
  ghost predicate Tiles(record: seq<byte>, n: nat, bs: seq<Block>) {
    |bs| == n && ValidBlocks(bs) && record == RecordBytes(bs)
  }

  ghost predicate Tileable(record: seq<byte>, n: nat) {
    exists bs :: Tiles(record, n, bs)
  }

  /** The block at the front of `data` and what follows it. */
  function FrontBlock(data: seq<byte>): Option<(Block, seq<byte>)> {
    if |data| < 4 || data[0] < 1 || data[1] != DMTF_SPECIFICATION then None
    else
      var size := FromLe(data[2..4]);
      if 4 + size > |data| then None
      else
        var measurement, rest := data[4..4 + size], data[4 + size..];
        if size < 3 then None
        else
          var valueSize := FromLe(measurement[1..3]);
          if 3 + valueSize > size then None
          else Some((Block(data[0], Dmtf(measurement[0], measurement[3..3 + valueSize]), measurement[3 + valueSize..]), rest))
  }

  lemma FrontBlockSound(data: seq<byte>)
    requires FrontBlock(data).Some?
    ensures var (b, rest) := FrontBlock(data).value;
            ValidBlock(b) && data == BlockBytes(b) + rest
  {
    var (b, rest) := FrontBlock(data).value;
    Widths();
    LeBytes(data[2..4]);
    var size := FromLe(data[2..4]);
    var m := data[4..4 + size];
    LeBytes(m[1..3]);
    var valueSize := FromLe(m[1..3]);
    FourParts(m, 1, 3, 3 + valueSize);
    assert m[..1] == [m[0]];
    assert Measurement(b) == m;
    FourParts(data, 2, 4, 4 + size);
    assert data[..2] == [data[0], data[1]];
  }

  lemma FrontBlockComplete(b: Block, rest: seq<byte>)
    requires ValidBlock(b)
    ensures FrontBlock(BlockBytes(b) + rest) == Some((b, rest))
  {
    var data := BlockBytes(b) + rest;
    var m := Measurement(b);
    Widths();
    LeRoundTrip(|m|, 2);
    LeRoundTrip(|b.dmtf.value|, 2);
    assert data[2..4] == ToLe(|m|, 2);
    assert data[4..4 + |m|] == m && data[4 + |m|..] == rest;
    assert m[1..3] == ToLe(|b.dmtf.value|, 2);
    assert m[3..3 + |b.dmtf.value|] == b.dmtf.value && m[3 + |b.dmtf.value|..] == b.extra;
  }

  /** The first `n` blocks of `data` and what follows them. */
  function FrontBlocks(data: seq<byte>, n: nat): (r: Option<(seq<Block>, seq<byte>)>)
    ensures r.Some? ==> |r.value.0| == n
  {
    if n == 0 then Some(([], data))
    else
      var first := FrontBlock(data);
      if first.None? then None
      else
        var others := FrontBlocks(first.value.1, n - 1);
        if others.None? then None else Some(([first.value.0] + others.value.0, others.value.1))
  }

  lemma {:induction false} FrontBlocksSound(data: seq<byte>, n: nat)
    requires FrontBlocks(data, n).Some?
    ensures var (bs, rest) := FrontBlocks(data, n).value;
            ValidBlocks(bs) && data == RecordBytes(bs) + rest
    decreases n
  {
    hide FrontBlock, BlockBytes;
    if n > 0 {
      var (b, tail) := FrontBlock(data).value;
      FrontBlockSound(data);
      FrontBlocksSound(tail, n - 1);
      var (bs, rest) := FrontBlocks(data, n).value;
      assert bs[1..] == FrontBlocks(tail, n - 1).value.0;
      assert ValidBlocks(bs);
      assert RecordBytes(bs) + rest == BlockBytes(b) + (RecordBytes(bs[1..]) + rest);
    }
  }

  lemma {:induction false} FrontBlocksComplete(bs: seq<Block>, rest: seq<byte>)
    requires ValidBlocks(bs)
    ensures FrontBlocks(RecordBytes(bs) + rest, |bs|) == Some((bs, rest))
  {
    hide FrontBlock, BlockBytes;
    if bs == [] {
      assert RecordBytes(bs) + rest == rest;
    } else {
      assert RecordBytes(bs) + rest == BlockBytes(bs[0]) + (RecordBytes(bs[1..]) + rest);
      FrontBlockComplete(bs[0], RecordBytes(bs[1..]) + rest);
      FrontBlocksComplete(bs[1..], rest);
      assert bs == [bs[0]] + bs[1..];
    }
  }

  /** Serialized blocks are read back as they were, and only serialized blocks are read. */
  lemma TilingExact(record: seq<byte>, n: nat, bs: seq<Block>)
    ensures Tiles(record, n, bs) <==> FrontBlocks(record, n) == Some((bs, []))
  {
    hide FrontBlocks, RecordBytes;
    if Tiles(record, n, bs) {
      FrontBlocksComplete(bs, []);
      assert RecordBytes(bs) + [] == record;
    }
    if FrontBlocks(record, n) == Some((bs, [])) {
      FrontBlocksSound(record, n);
      assert RecordBytes(bs) + [] == record;
    }
  }

  class RecordParser {
    var blocks: map<byte, Dmtf>
    var numBlocks: nat

    constructor ()
      ensures blocks == map[] && numBlocks == 0
    {
      blocks, numBlocks := map[], 0;
    }

    /** `parse_measurement_block`: one block at `offset`, stored under its index. */
    method ParseBlock(record: seq<byte>, offset: nat) returns (ok: bool, next: nat)
      requires offset <= |record|
      modifies this`blocks
      ensures ok <==> FrontBlock(record[offset..]).Some?
      ensures ok ==>
                && var (b, rest) := FrontBlock(record[offset..]).value;
                && next <= |record| && record[next..] == rest && blocks == old(blocks)[b.index := b.dmtf]
      ensures !ok ==> blocks == old(blocks)
    {
      ok, next := false, offset;
      ghost var data := record[offset..];
      if offset + 1 > |record| {
        return;
      }
      var index := record[offset];
      if index < 1 {
        return;
      }
      if offset + 2 > |record| {
        return;
      }
      if record[offset + 1] != DMTF_SPECIFICATION {
        return;
      }
      var read, size := ReadLittleEndian(record, offset + 2, 2);
      if !read {
        return;
      }
      assert record[offset + 2..offset + 4] == data[2..4];
      if offset + 4 + size > |record| {
        return;
      }
      var measurement := record[offset + 4..offset + 4 + size];
      assert measurement == data[4..4 + size];
      var parsed, dmtf := ParseDmtf(measurement);
      if !parsed {
        return;
      }
      blocks := blocks[index := dmtf];
      ok, next := true, offset + 4 + size;
      assert record[next..] == data[4 + size..];
    }

    /** `SpdmMeasurementRecordParser::parse`, as the factory runs it on a new parser. */
    method Parse(record: seq<byte>, n: byte) returns (ok: bool)
      requires blocks == map[]
      modifies this
      ensures ok <==> Tileable(record, n)
      ensures forall bs :: ok && Tiles(record, n, bs) ==> blocks == BlockMap(bs)
    {
      forall bs ensures Tiles(record, n, bs) <==> FrontBlocks(record, n) == Some((bs, [])) {
        TilingExact(record, n, bs);
      }
      hide FrontBlock, Tiles, BlockMap;
      BlockMapEmpty();
      NoBlocksNoBytes(record, n);
      if n == 0 && record != [] {
        return false;
      }
      if n > 0 && record == [] {
        return false;
      }
      if n == 0 && record == [] {
        assert FrontBlocks(record, n) == Some(([], []));
        return true;
      }
      numBlocks := n;
      blocks := map[];
      var offset: nat := 0;
      ghost var done: seq<Block> := [];
      assert record[0..] == record;
      PrependNothing(FrontBlocks(record, n));
      for i := 0 to n
        invariant offset <= |record| && |done| == i && blocks == BlockMap(done)
        invariant FrontBlocks(record, n) == Prepend(done, FrontBlocks(record[offset..], n - i))
      {
        ghost var data := record[offset..];
        ok, offset := ParseBlock(record, offset);
        if !ok {
          return;
        }
        ghost var b := FrontBlock(data).value.0;
        PrependStep(done, data, n - i);
        BlockMapStep(done, b);
        done := done + [b];
      }
      assert FrontBlocks(record, n) == Some((done, record[offset..])) by {
        assert done + [] == done;
      }
      if offset != |record| {
        return false;
      }
      assert record[offset..] == [];
      ok := true;
    }
  }

  /** `DmtfMeasurementBlock::parse`; bytes behind the value are left unread. */
  method ParseDmtf(measurement: seq<byte>) returns (ok: bool, dmtf: Dmtf)
    ensures ok <==> |measurement| >= 3 && 3 + FromLe(measurement[1..3]) <= |measurement|
    ensures ok ==> dmtf == Dmtf(measurement[0], measurement[3..3 + FromLe(measurement[1..3])])
  {
    dmtf := Dmtf(0, []);
    if |measurement| < 1 {
      return false, dmtf;
    }
    var kind := measurement[0];
    var read, valueSize := ReadLittleEndian(measurement, 1, 2);
    if !read || 3 + valueSize > |measurement| {
      return false, dmtf;
    }
    return true, Dmtf(kind, measurement[3..3 + valueSize]);
  }

  ghost function Prepend(done: seq<Block>, r: Option<(seq<Block>, seq<byte>)>): Option<(seq<Block>, seq<byte>)> {
    if r.None? then None else Some((done + r.value.0, r.value.1))
  }

  lemma PrependNothing(r: Option<(seq<Block>, seq<byte>)>)
    ensures Prepend([], r) == r
  {
    if r.Some? {
      assert [] + r.value.0 == r.value.0;
    }
  }

  lemma PrependStep(done: seq<Block>, data: seq<byte>, n: nat)
    requires n > 0
    ensures FrontBlock(data).None? ==> FrontBlocks(data, n).None?
    ensures FrontBlock(data).Some? ==>
              Prepend(done, FrontBlocks(data, n)) == Prepend(done + [FrontBlock(data).value.0], FrontBlocks(FrontBlock(data).value.1, n - 1))
  {
    hide FrontBlock;
    if FrontBlocks(data, n).Some? {
      var b := FrontBlock(data).value.0;
      var others := FrontBlocks(FrontBlock(data).value.1, n - 1).value.0;
      assert done + ([b] + others) == (done + [b]) + others;
    }
  }

  lemma BlockMapEmpty()
    ensures BlockMap([]) == map[]
  {
  }

  lemma BlockMapStep(done: seq<Block>, b: Block)
    ensures BlockMap(done + [b]) == BlockMap(done)[b.index := b.dmtf]
  {
    assert (done + [b])[..|done|] == done;
  }

  lemma NoBlocksNoBytes(record: seq<byte>, n: nat)
    ensures n == 0 && record != [] ==> FrontBlocks(record, n) == Some(([], record))
    ensures n > 0 && record == [] ==> FrontBlocks(record, n).None?
  {
  }

  // ---------------------------------------------------------------------------
  // What the map holds
  // ---------------------------------------------------------------------------

  /** Position `i` holds the last block with index `k`. */
  predicate LastWith(bs: seq<Block>, k: byte, i: nat) {
    i < |bs| && bs[i].index == k && forall j :: i < j < |bs| ==> bs[j].index != k
  }

  lemma {:induction false} BlockMapHoldsLast(bs: seq<Block>, k: byte)
    ensures k in BlockMap(bs) <==> exists i: nat :: LastWith(bs, k, i)
    ensures forall i: nat :: LastWith(bs, k, i) ==> k in BlockMap(bs) && BlockMap(bs)[k] == bs[i].dmtf
  {
    if bs != [] {
      var front, last := bs[..|bs| - 1], bs[|bs| - 1];
      BlockMapHoldsLast(front, k);
      if last.index == k {
        assert LastWith(bs, k, |bs| - 1);
      } else {
        forall i: nat ensures LastWith(bs, k, i) <==> LastWith(front, k, i) {
          if LastWith(front, k, i) {
            assert forall j :: i < j < |bs| ==> bs[j].index != k;
          }
        }
      }
    }
  }

  /** With distinct indices nothing is overwritten: every block is in the map, and only those. */
  lemma DistinctIndicesKept(bs: seq<Block>)
    requires forall i, j :: 0 <= i < j < |bs| ==> bs[i].index != bs[j].index
    ensures forall i :: 0 <= i < |bs| ==> bs[i].index in BlockMap(bs) && BlockMap(bs)[bs[i].index] == bs[i].dmtf
    ensures forall k :: k in BlockMap(bs) ==> exists i :: 0 <= i < |bs| && bs[i].index == k
  {
    hide BlockMap;
    forall i | 0 <= i < |bs| ensures bs[i].index in BlockMap(bs) && BlockMap(bs)[bs[i].index] == bs[i].dmtf {
      BlockMapHoldsLast(bs, bs[i].index);
      assert LastWith(bs, bs[i].index, i);
    }
    forall k | k in BlockMap(bs) ensures exists i :: 0 <= i < |bs| && bs[i].index == k {
      BlockMapHoldsLast(bs, k);
      var i: nat :| LastWith(bs, k, i);
    }
  }

  predicate Measured(blocks: map<byte, Dmtf>, i: int) { -1 <= i < 255 && i + 1 in blocks }

  /** The runtime measurements: SPDM's index 1 is measurement 0. */
  function RuntimeOf(blocks: map<byte, Dmtf>): map<int, seq<byte>> {
    map i: int | -1 <= i < 255 && Measured(blocks, i) :: blocks[i + 1].value
  }

  /** `get_measurements`, whatever the order in which the blocks are visited. */
  method GetMeasurements(blocks: map<byte, Dmtf>) returns (m: map<int, seq<byte>>)
    ensures m == RuntimeOf(blocks)
  {
    hide RuntimeOf;
    m := map[];
    var left := blocks.Keys;
    ghost var done: map<byte, Dmtf> := map[];
    RuntimeEmpty();
    while left != {}
      invariant left <= blocks.Keys && done == blocks - left && m == RuntimeOf(done)
      decreases |left|
    {
      var k :| k in left;
      left := left - {k};
      m := m[k - 1 := blocks[k].value];
      RuntimeStep(done, k, blocks[k]);
      done := done[k := blocks[k]];
    }
    assert done == blocks;
  }

  lemma RuntimeEmpty()
    ensures RuntimeOf(map[]) == map[]
  {
  }

  lemma RuntimeStep(blocks: map<byte, Dmtf>, k: byte, d: Dmtf)
    ensures RuntimeOf(blocks[k := d]) == RuntimeOf(blocks)[k - 1 := d.value]
  {
    hide RuntimeOf;
    var more := blocks[k := d];
    var a, b := RuntimeOf(more), RuntimeOf(blocks)[k - 1 := d.value];
    forall i: int ensures (i in a <==> i in b) && (i in a ==> a[i] == b[i]) {
      RuntimeKeys(more, i);
      RuntimeKeys(blocks, i);
    }
    assert a == b;
  }

  lemma RuntimeKeys(blocks: map<byte, Dmtf>, i: int)
    ensures i in RuntimeOf(blocks) <==> Measured(blocks, i)
    ensures Measured(blocks, i) ==> RuntimeOf(blocks)[i] == blocks[i + 1].value
  {
  }

  /** The runtime map sends k - 1 to the value of the last block with index k, and has no other keys. */
  lemma RuntimeHoldsLast(bs: seq<Block>, k: byte)
    ensures k - 1 in RuntimeOf(BlockMap(bs)) <==> exists p: nat :: LastWith(bs, k, p)
    ensures forall p: nat :: LastWith(bs, k, p) ==> k - 1 in RuntimeOf(BlockMap(bs)) && RuntimeOf(BlockMap(bs))[k - 1] == bs[p].dmtf.value
    ensures forall i :: i in RuntimeOf(BlockMap(bs)) ==> -1 <= i < 255
  {
    BlockMapHoldsLast(bs, k);
    assert Measured(BlockMap(bs), k - 1) <==> k in BlockMap(bs);
  }

  // ---------------------------------------------------------------------------
  // Opaque data
  // ---------------------------------------------------------------------------

  datatype Field = Field(kind: nat, data: seq<byte>)

  predicate ValidField(f: Field) { f.kind < 0x10000 && |f.data| < 0x10000 }

  predicate ValidFields(fs: seq<Field>) { forall i :: 0 <= i < |fs| ==> ValidField(fs[i]) }

  function FieldBytes(f: Field): seq<byte> {
    ToLe(f.kind, 2) + ToLe(|f.data|, 2) + f.data
  }

  function OpaqueBytes(fs: seq<Field>): seq<byte> {
    if fs == [] then [] else FieldBytes(fs[0]) + OpaqueBytes(fs[1..])
  }

  ghost predicate OpaqueIs(raw: seq<byte>, fs: seq<Field>) {
    ValidFields(fs) && raw == OpaqueBytes(fs)
  }

  function FrontField(data: seq<byte>): Option<(Field, seq<byte>)> {
    if |data| < 4 then None
    else
      var size := FromLe(data[2..4]);
      if 4 + size > |data| then None
      else Some((Field(FromLe(data[..2]), data[4..4 + size]), data[4 + size..]))
  }

  function FieldsOf(data: seq<byte>): Option<seq<Field>>
    decreases |data|
  {
    if data == [] then Some([])
    else
      var first := FrontField(data);
      if first.None? then None
      else
        var others := FieldsOf(first.value.1);
        if others.None? then None else Some([first.value.0] + others.value)
  }

  /** The fields at the front of the data, up to the first that is not whole. */
  function LeadingFields(data: seq<byte>): seq<Field>
    decreases |data|
  {
    if data == [] || FrontField(data).None? then []
    else [FrontField(data).value.0] + LeadingFields(FrontField(data).value.1)
  }

  lemma FrontFieldSound(data: seq<byte>)
    requires FrontField(data).Some?
    ensures var (f, rest) := FrontField(data).value; ValidField(f) && data == FieldBytes(f) + rest
  {
    Widths();
    LeBytes(data[..2]);
    LeBytes(data[2..4]);
    var size := FromLe(data[2..4]);
    FourParts(data, 2, 4, 4 + size);
  }

  lemma FrontFieldComplete(f: Field, rest: seq<byte>)
    requires ValidField(f)
    ensures FrontField(FieldBytes(f) + rest) == Some((f, rest))
  {
    var data := FieldBytes(f) + rest;
    Widths();
    LeRoundTrip(f.kind, 2);
    LeRoundTrip(|f.data|, 2);
    assert data[..2] == ToLe(f.kind, 2) && data[2..4] == ToLe(|f.data|, 2);
    assert data[4..4 + |f.data|] == f.data && data[4 + |f.data|..] == rest;
  }

  lemma {:induction false} FieldsOfSound(data: seq<byte>)
    requires FieldsOf(data).Some?
    ensures OpaqueIs(data, FieldsOf(data).value)
    decreases |data|
  {
    if data != [] {
      var (f, rest) := FrontField(data).value;
      FrontFieldSound(data);
      FieldsOfSound(rest);
      hide FrontField, FieldBytes;
      var fs := FieldsOf(data).value;
      assert fs[1..] == FieldsOf(rest).value;
      assert ValidFields(fs);
    }
  }

  lemma {:induction false} FieldsOfComplete(fs: seq<Field>)
    requires ValidFields(fs)
    ensures FieldsOf(OpaqueBytes(fs)) == Some(fs)
  {
    if fs != [] {
      FrontFieldComplete(fs[0], OpaqueBytes(fs[1..]));
      assert |FieldBytes(fs[0])| >= 4;
      hide FrontField, FieldBytes;
      FieldsOfComplete(fs[1..]);
      assert fs == [fs[0]] + fs[1..];
    }
  }

  /** Opaque data is accepted exactly when it is a serialized list of fields, which is then returned. */
  lemma OpaqueExact(raw: seq<byte>, fs: seq<Field>)
    ensures OpaqueIs(raw, fs) <==> FieldsOf(raw) == Some(fs)
  {
    hide FieldsOf, OpaqueBytes;
    if ValidFields(fs) {
      FieldsOfComplete(fs);
    }
    if FieldsOf(raw).Some? {
      FieldsOfSound(raw);
    }
  }

  class OpaqueParser {
    var fields: seq<Field>

    constructor ()
      ensures fields == []
    {
      fields := [];
    }

    /**
     * `OpaqueDataParser::parse`. What an earlier call left in `fields` stays in front, and the
     * fields in front of the first bad one stay when it fails.
     */
    method Parse(raw: seq<byte>) returns (ok: bool)
      modifies this
      ensures ok <==> FieldsOf(raw).Some?
      ensures fields == old(fields) + LeadingFields(raw)
      ensures ok ==> fields == old(fields) + FieldsOf(raw).value
    {
      LeadingIsAll(raw);
      hide FieldsOf, LeadingFields;
      var offset: nat := 0;
      ghost var done: seq<Field> := [];
      assert raw[0..] == raw;
      while offset < |raw|
        invariant offset <= |raw| && fields == old(fields) + done
        invariant FieldsOf(raw).None? <==> FieldsOf(raw[offset..]).None?
        invariant LeadingFields(raw) == done + LeadingFields(raw[offset..])
      {
        FieldsStep(done, raw[offset..]);
        var read, next, field := ReadField(raw, offset);
        if !read {
          return false;
        }
        fields := fields + [field];
        done := done + [field];
        offset := next;
      }
      FieldsEnd();
      assert raw[offset..] == [];
      ok := true;
    }
  }

  /** One field at `offset`. */
  method ReadField(raw: seq<byte>, offset: nat) returns (ok: bool, next: nat, field: Field)
    requires offset <= |raw|
    ensures ok <==> FrontField(raw[offset..]).Some?
    ensures ok ==> offset < next <= |raw| && FrontField(raw[offset..]) == Some((field, raw[next..]))
  {
    ok, next, field := false, offset, Field(0, []);
    ghost var data := raw[offset..];
    var read, kind := ReadLittleEndian(raw, offset, 2);
    if !read {
      return;
    }
    var size;
    read, size := ReadLittleEndian(raw, offset + 2, 2);
    if !read {
      return;
    }
    assert raw[offset..offset + 2] == data[..2] && raw[offset + 2..offset + 4] == data[2..4];
    if offset + 4 + size > |raw| {
      return;
    }
    assert raw[offset + 4..offset + 4 + size] == data[4..4 + size];
    assert raw[offset + 4 + size..] == data[4 + size..];
    ok, next, field := true, offset + 4 + size, Field(kind, raw[offset + 4..offset + 4 + size]);
  }

  lemma FieldsEnd()
    ensures FieldsOf([]) == Some([]) && LeadingFields([]) == []
  {
  }

  lemma FieldsStep(done: seq<Field>, data: seq<byte>)
    requires data != []
    ensures FrontField(data).None? ==> FieldsOf(data).None? && LeadingFields(data) == []
    ensures FrontField(data).Some? ==>
            && var (f, rest) := FrontField(data).value;
            && (FieldsOf(data).None? <==> FieldsOf(rest).None?)
            && done + LeadingFields(data) == (done + [f]) + LeadingFields(rest)
  {
    hide FrontField;
  }

  /** On good data the leading fields are all fields. */
  lemma {:induction false} LeadingIsAll(data: seq<byte>)
    ensures FieldsOf(data).Some? ==> FieldsOf(data).value == LeadingFields(data)
    decreases |data|
  {
    if data != [] && FrontField(data).Some? {
      LeadingIsAll(FrontField(data).value.1);
    }
  }

  /** The leading fields stand at the front of the data, and no field follows them. */
  lemma {:induction false} LeadingExact(data: seq<byte>) returns (rest: seq<byte>)
    ensures ValidFields(LeadingFields(data)) && data == OpaqueBytes(LeadingFields(data)) + rest
    ensures rest == [] || FrontField(rest).None?
    decreases |data|
  {
    if data == [] {
      rest := [];
    } else if FrontField(data).None? {
      rest := data;
      assert [] + rest == data;
    } else {
      var (f, tail) := FrontField(data).value;
      FrontFieldSound(data);
      rest := LeadingExact(tail);
      hide FrontField, FieldBytes;
      var fs := LeadingFields(data);
      assert fs[0] == f && fs[1..] == LeadingFields(tail);
    }
  }
}
