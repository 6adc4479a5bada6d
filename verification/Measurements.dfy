/**
 * The measurement verdict: golden values of the RIM documents against the runtime
 * measurements of the report, for GPUs (driver and VBIOS, with the conditional index 35)
 * and for switches.
 */
module Measurements {
  import opened Common
  import opened Bytes
  import opened SpdmRecords

  const NVDEC_STATUS_ENABLED: byte := 0xAA
  const NVDEC_STATUS_DISABLED: byte := 0x55
  const CONDITIONAL_INDEX := 35

  /** A golden measurement: its size as the RIM states it, and the values any of which is right. */
  datatype Golden = Golden(size: int, values: seq<seq<byte>>)

  /** `std::map<int, Measurement>`. */
  type GoldenMap = map<int, Golden>

  type Runtime = map<int, seq<byte>>

  datatype Source = Driver | Vbios

  datatype Mismatch = Mismatch(
    index: int, goldenSize: int, goldenValue: string, runtimeSize: int, runtimeValue: string, source: Source)

  datatype Measres = Success | Failure | NotRun | Absent

  /** Conversion to `uint32_t`. */
  function U32(x: int): int { x % 0x1_0000_0000 }

  predicate Populated(g: GoldenMap) {
    forall i :: i in g ==> g[i].values != []
  }

  // ---------------------------------------------------------------------------
  // The verdict
  // ---------------------------------------------------------------------------

  /** The runtime value at an index equals one of the golden alternatives. */
  predicate Matched(g: GoldenMap, runtime: Runtime, i: int)
    requires i in g
  {
    i in runtime && runtime[i] in g[i].values
  }

  /** A golden index that is not exempt and is not matched. */
  predicate Failing(g: GoldenMap, runtime: Runtime, exempt: bool, i: int) {
    i in g && !(exempt && i == CONDITIONAL_INDEX) && !Matched(g, runtime, i)
  }

  /** Strictly ascending, and made of exactly the members of `s`. */
  ghost predicate Ascending(r: seq<int>, s: set<int>) {
    && (forall a, b :: 0 <= a < b < |r| ==> r[a] < r[b])
    && (forall a :: 0 <= a < |r| ==> r[a] in s)
    && (forall x :: x in s ==> x in r)
  }

  ghost function FailingSet(g: GoldenMap, runtime: Runtime, exempt: bool): set<int> {
    set i | i in g && Failing(g, runtime, exempt, i)
  }

  function Record(g: GoldenMap, runtime: Runtime, source: Source, i: int): Mismatch
    requires i in g && g[i].values != []
  {
    if i !in runtime then Mismatch(U32(i), U32(g[i].size), ToHex(g[i].values[0]), 0, "NA", source)
    else Mismatch(U32(i), U32(g[i].size), ToHex(g[i].values[0]), U32(|runtime[i]|), ToHex(runtime[i]), source)
  }

  /** One record for each failing index, in ascending order of the index, and nothing else. */
  ghost predicate RecordsOf(records: seq<Mismatch>, g: GoldenMap, runtime: Runtime, exempt: bool, source: Source)
    requires Populated(g)
  {
    exists order: seq<int> :: Ascending(order, FailingSet(g, runtime, exempt)) && Lists(records, order, g, runtime, source)
  }

  /** The `a`-th record describes the index `order[a]`. */
  ghost predicate Lists(records: seq<Mismatch>, order: seq<int>, g: GoldenMap, runtime: Runtime, source: Source)
    requires Populated(g)
  {
    && |records| == |order|
    && forall a :: 0 <= a < |order| ==> order[a] in g && records[a] == Record(g, runtime, source, order[a])
  }

  /** `get_all_indices`: a `std::map` is walked in ascending order of its keys. */
  method GetAllIndices(g: GoldenMap) returns (r: seq<int>)
    ensures Ascending(r, g.Keys)
  {
    r := [];
    var left := g.Keys;
    while left != {}
      invariant left <= g.Keys && Ascending(r, g.Keys - left)
      invariant forall a, x :: 0 <= a < |r| && x in left ==> r[a] < x
      decreases |left|
    {
      ghost var y := Member(left);
      LeastExists(left, y);
      var m :| m in left && forall x :: x in left ==> m <= x;
      AscendingPush(r, g.Keys - left, m);
      assert g.Keys - (left - {m}) == (g.Keys - left) + {m};
      r := r + [m];
      left := left - {m};
    }
    assert g.Keys - left == g.Keys;
  }

  lemma {:induction false} LeastExists(s: set<int>, y: int)
    requires y in s
    ensures exists m :: m in s && forall x :: x in s ==> m <= x
    decreases |s|
  {
    if z :| z in s && z < y {
      LeastExists(s - {y}, z);
      var m :| m in s - {y} && forall x :: x in s - {y} ==> m <= x;
      forall x | x in s ensures m <= x {
        assert x == y || x in s - {y};
      }
    }
  }

  lemma AscendingPush(r: seq<int>, s: set<int>, m: int)
    requires Ascending(r, s) && forall a :: 0 <= a < |r| ==> r[a] < m
    ensures Ascending(r + [m], s + {m})
  {
    forall x | x in s + {m} ensures x in r + [m] {
      if x in s {
        assert x in r;
      }
    }
  }

  method Contains(values: seq<seq<byte>>, v: seq<byte>) returns (found: bool)
    ensures found <==> v in values
  {
    found := false;
    for k := 0 to |values|
      invariant found <==> v in values[..k]
    {
      if v == values[k] {
        return true;
      }
    }
    assert values[..|values|] == values;
  }

  /** What the loop has found in `indices[..k]`: `order` lists the failing ones among them. */
  ghost predicate Found(
    order: seq<int>, records: seq<Mismatch>, indices: seq<int>, k: nat,
    g: GoldenMap, runtime: Runtime, exempt: bool, source: Source)
    requires Populated(g) && k <= |indices|
  {
    && Ascending(order, FailingAmong(indices, k, g, runtime, exempt))
    && Lists(records, order, g, runtime, source)
  }

  ghost function FailingAmong(indices: seq<int>, k: nat, g: GoldenMap, runtime: Runtime, exempt: bool): set<int>
    requires k <= |indices|
  {
    set a | 0 <= a < k && Failing(g, runtime, exempt, indices[a]) :: indices[a]
  }

  lemma FoundSkip(
    order: seq<int>, records: seq<Mismatch>, indices: seq<int>, k: nat,
    g: GoldenMap, runtime: Runtime, exempt: bool, source: Source)
    requires Populated(g) && k < |indices| && Found(order, records, indices, k, g, runtime, exempt, source)
    requires !Failing(g, runtime, exempt, indices[k])
    ensures Found(order, records, indices, k + 1, g, runtime, exempt, source)
  {
    hide Ascending, Lists, Failing;
    assert FailingAmong(indices, k + 1, g, runtime, exempt) == FailingAmong(indices, k, g, runtime, exempt);
  }

  lemma FoundPush(
    order: seq<int>, records: seq<Mismatch>, indices: seq<int>, k: nat,
    g: GoldenMap, runtime: Runtime, exempt: bool, source: Source)
    requires Populated(g) && k < |indices| && Found(order, records, indices, k, g, runtime, exempt, source)
    requires Failing(g, runtime, exempt, indices[k]) && indices[k] in g && Ascending(indices, g.Keys)
    ensures Found(order + [indices[k]], records + [Record(g, runtime, source, indices[k])], indices, k + 1, g, runtime, exempt, source)
  {
    hide Failing, Record;
    var before := FailingAmong(indices, k, g, runtime, exempt);
    assert FailingAmong(indices, k + 1, g, runtime, exempt) == before + {indices[k]} by {
      hide Ascending, Lists;
    }
    assert forall a :: 0 <= a < |order| ==> order[a] < indices[k] by {
      hide Lists;
      assert forall a :: 0 <= a < |order| ==> order[a] in before;
    }
    hide FailingAmong;
    ListsPush(records, order, indices[k], g, runtime, source);
    hide Lists;
    AscendingPush(order, before, indices[k]);
  }

  lemma ListsPush(records: seq<Mismatch>, order: seq<int>, i: int, g: GoldenMap, runtime: Runtime, source: Source)
    requires Populated(g) && Lists(records, order, g, runtime, source) && i in g
    ensures Lists(records + [Record(g, runtime, source, i)], order + [i], g, runtime, source)
  {
  }

  lemma FoundAll(
    order: seq<int>, records: seq<Mismatch>, indices: seq<int>,
    g: GoldenMap, runtime: Runtime, exempt: bool, source: Source)
    requires Populated(g) && Found(order, records, indices, |indices|, g, runtime, exempt, source)
    requires Ascending(indices, g.Keys)
    ensures RecordsOf(records, g, runtime, exempt, source)
    ensures order == [] <==> forall i :: !Failing(g, runtime, exempt, i)
  {
    hide Lists;
    var found := FailingAmong(indices, |indices|, g, runtime, exempt);
    forall i | Failing(g, runtime, exempt, i) ensures i in found {
      assert i in g.Keys;
      assert i in indices;
      var a :| 0 <= a < |indices| && indices[a] == i;
    }
    assert found == FailingSet(g, runtime, exempt);
    assert order != [] ==> Failing(g, runtime, exempt, order[0]);
  }

  /** The loop over one golden map: its flag and its mismatch records. */
  method Compare(g: GoldenMap, runtime: Runtime, exempt: bool, source: Source) returns (match_: bool, records: seq<Mismatch>)
    requires Populated(g)
    ensures match_ <==> forall i :: !Failing(g, runtime, exempt, i)
    ensures match_ <==> forall i :: i in g && !(exempt && i == 35) ==>
              i in runtime && exists a :: 0 <= a < |g[i].values| && g[i].values[a] == runtime[i]
    ensures RecordsOf(records, g, runtime, exempt, source)
    ensures match_ <==> records == []
  {
    var indices := GetAllIndices(g);
    match_, records := true, [];
    ghost var order: seq<int> := [];
    assert Found(order, records, indices, 0, g, runtime, exempt, source);
    hide Found, RecordsOf, Lists;
    for k := 0 to |indices|
      invariant Found(order, records, indices, k, g, runtime, exempt, source)
      invariant |records| == |order| && (match_ <==> order == [])
    {
      var index := indices[k];
      if index == CONDITIONAL_INDEX && exempt {
        FoundSkip(order, records, indices, k, g, runtime, exempt, source);
        continue;
      }
      var golden := g[index];
      var present := index in runtime;
      var found := false;
      if present {
        found := Contains(golden.values, runtime[index]);
      }
      if found {
        FoundSkip(order, records, indices, k, g, runtime, exempt, source);
      } else {
        FoundPush(order, records, indices, k, g, runtime, exempt, source);
        match_ := false;
        var expected := ToHexString(golden.values[0]);
        if present {
          var actual := ToHexString(runtime[index]);
          records := records + [Mismatch(U32(index), U32(golden.size), expected, U32(|runtime[index]|), actual, source)];
        } else {
          records := records + [Mismatch(U32(index), U32(golden.size), expected, 0, "NA", source)];
        }
        order := order + [index];
      }
    }
    FoundAll(order, records, indices, g, runtime, exempt, source);
    NoneFailing(g, runtime, exempt);
  }

  lemma NoneFailing(g: GoldenMap, runtime: Runtime, exempt: bool)
    ensures (forall i :: !Failing(g, runtime, exempt, i)) <==>
            forall i :: i in g && !(exempt && i == 35) ==>
              i in runtime && exists a :: 0 <= a < |g[i].values| && g[i].values[a] == runtime[i]
  {
    forall i ensures !Failing(g, runtime, exempt, i) <==>
      (i in g && !(exempt && i == 35) ==> i in runtime && exists a :: 0 <= a < |g[i].values| && g[i].values[a] == runtime[i])
    {
      if i in g && i in runtime {
        assert runtime[i] in g[i].values <==> exists a :: 0 <= a < |g[i].values| && g[i].values[a] == runtime[i];
      }
    }
  }

  predicate Disjoint(driver: GoldenMap, vbios: GoldenMap) {
    forall i :: i in driver ==> i !in vbios
  }

  /** The loop over the union of the two index sets. */
  method FindConflict(driver: GoldenMap, vbios: GoldenMap) returns (conflict: bool)
    ensures conflict <==> !Disjoint(driver, vbios)
  {
    var all := GetAllIndices(driver + vbios);
    for k := 0 to |all|
      invariant forall a :: 0 <= a < k ==> all[a] !in driver || all[a] !in vbios
    {
      var index := all[k];
      if index in driver && index in vbios {
        return true;
      }
    }
    forall i | i in driver ensures i !in vbios {
      assert i in (driver + vbios).Keys;
      assert i in all;
    }
    conflict := false;
  }

  class GpuClaims {
    var vbiosIndexNoConflict: bool
    var measres: Measres
    var secureBoot: Option<bool>
    var debugStatus: Option<string>
    var mismatches: Option<seq<Mismatch>>

    constructor ()
      ensures measres == Failure && !vbiosIndexNoConflict && secureBoot == None && debugStatus == None && mismatches == None
    {
      vbiosIndexNoConflict, measres := false, Failure;
      secureBoot, debugStatus, mismatches := None, None, None;
    }

    /** `LocalGpuVerifier::generate_set_measurement_claims`. */
    method SetMeasurementClaims(driver: GoldenMap, vbios: GoldenMap, nvdec0: Result<byte>, blocks: map<byte, Dmtf>)
      returns (error: Option<Fault>)
      requires Populated(driver) && Populated(vbios)
      modifies this
      ensures error == if !Disjoint(driver, vbios) then Some(RimMeasurementConflict)
                       else if nvdec0.Err? then Some(nvdec0.error)
                       else if nvdec0.value !in {NVDEC_STATUS_ENABLED, NVDEC_STATUS_DISABLED} then Some(InternalError)
                       else None
      ensures vbiosIndexNoConflict == Disjoint(driver, vbios)
      ensures error.Some? ==> measres == if Disjoint(driver, vbios) then old(measres) else Failure
      ensures error.Some? ==>
                secureBoot == old(secureBoot) && debugStatus == old(debugStatus) && mismatches == old(mismatches)
      ensures error.None? ==>
                && var runtime, exempt := RuntimeOf(blocks), nvdec0.value == NVDEC_STATUS_DISABLED;
                && (measres == Success <==> forall i :: !Failing(driver, runtime, exempt, i) && !Failing(vbios, runtime, exempt, i))
                && (measres == Success ==> secureBoot == Some(true) && debugStatus == Some("disabled") && mismatches == None)
                && (measres != Success ==>
                      && measres == Failure && secureBoot == None && debugStatus == None && mismatches.Some?
                      && exists split: nat ::
                           && 0 <= split <= |mismatches.value| && mismatches.value != []
                           && RecordsOf(mismatches.value[..split], driver, runtime, exempt, Driver)
                           && RecordsOf(mismatches.value[split..], vbios, runtime, exempt, Vbios))
    {
      hide RecordsOf, RuntimeOf;
      var conflict := FindConflict(driver, vbios);
      if conflict {
        vbiosIndexNoConflict, measres := false, Failure;
        return Some(RimMeasurementConflict);
      }
      vbiosIndexNoConflict := true;
      if nvdec0.Err? {
        return Some(nvdec0.error);
      }
      var validate35 := true;
      if nvdec0.value == NVDEC_STATUS_DISABLED {
        validate35 := false;
      } else if nvdec0.value == NVDEC_STATUS_ENABLED {
        validate35 := true;
      } else {
        return Some(InternalError);
      }
      var runtime := GetMeasurements(blocks);
      var driverMatch, driverRecords := Compare(driver, runtime, !validate35, Driver);
      var vbiosMatch, vbiosRecords := Compare(vbios, runtime, !validate35, Vbios);
      var all := driverRecords + vbiosRecords;
      if driverMatch && vbiosMatch {
        measres, secureBoot, debugStatus, mismatches := Success, Some(true), Some("disabled"), None;
      } else {
        measres, secureBoot, debugStatus := Failure, None, None;
        mismatches := Some(all);
        assert all[..|driverRecords|] == driverRecords && all[|driverRecords|..] == vbiosRecords;
      }
      error := None;
    }
  }

  class SwitchClaims {
    var measres: Measres
    var secureBoot: Option<bool>
    var debugStatus: Option<string>
    var mismatches: Option<seq<Mismatch>>

    constructor ()
      ensures measres == Failure
    {
      measres := Failure;
      secureBoot, debugStatus, mismatches := None, None, None;
    }

    /** `LocalSwitchVerifier::generate_set_measurement_claims`. */
    method SetMeasurementClaims(golden: GoldenMap, blocks: map<byte, Dmtf>)
      requires Populated(golden)
      modifies this
      ensures var runtime := RuntimeOf(blocks);
              && (measres == Success <==> forall i :: !Failing(golden, runtime, false, i))
              && (measres == Success ==> secureBoot == Some(true) && debugStatus == Some("disabled") && mismatches == None)
              && (measres != Success ==>
                    && measres == Failure && secureBoot == None && debugStatus == None
                    && mismatches.Some? && mismatches.value != []
                    && RecordsOf(mismatches.value, golden, runtime, false, Vbios))
    {
      hide RecordsOf, RuntimeOf;
      var runtime := GetMeasurements(blocks);
      var matched, records := Compare(golden, runtime, false, Vbios);
      if matched {
        measres, secureBoot, debugStatus, mismatches := Success, Some(true), Some("disabled"), None;
      } else {
        measres, secureBoot, debugStatus, mismatches := Failure, None, None, Some(records);
      }
    }
  }

  // ---------------------------------------------------------------------------
  // What the record list means
  // ---------------------------------------------------------------------------

  /** The failing indices in ascending order are one list only, so the records are too. */
  lemma RecordsDetermined(r: seq<Mismatch>, r': seq<Mismatch>, g: GoldenMap, runtime: Runtime, exempt: bool, source: Source)
    requires Populated(g) && RecordsOf(r, g, runtime, exempt, source) && RecordsOf(r', g, runtime, exempt, source)
    ensures r == r' && |r| == |FailingSet(g, runtime, exempt)|
  {
    var s := FailingSet(g, runtime, exempt);
    hide FailingSet, Record, Lists, Populated;
    var o: seq<int> :| Ascending(o, s) && Lists(r, o, g, runtime, source);
    var o': seq<int> :| Ascending(o', s) && Lists(r', o', g, runtime, source);
    AscendingUnique(o, o', s);
    AscendingCount(o, s);
    ListsUnique(r, r', o, g, runtime, source);
  }

  lemma ListsUnique(r: seq<Mismatch>, r': seq<Mismatch>, order: seq<int>, g: GoldenMap, runtime: Runtime, source: Source)
    requires Populated(g) && Lists(r, order, g, runtime, source) && Lists(r', order, g, runtime, source)
    ensures r == r' && |r| == |order|
  {
    hide Record;
  }

  lemma {:induction false} AscendingCount(r: seq<int>, s: set<int>)
    requires Ascending(r, s)
    ensures |r| == |s|
  {
    if r == [] {
      NothingLeft(s);
    } else {
      var last := r[|r| - 1];
      AscendingPop(r, s);
      AscendingCount(r[..|r| - 1], s - {last});
    }
  }

  lemma NothingLeft(s: set<int>)
    requires Ascending([], s)
    ensures s == {}
  {
    if s != {} {
      var x := Member(s);
    }
  }

  lemma AscendingPop(r: seq<int>, s: set<int>)
    requires Ascending(r, s) && r != []
    ensures r[|r| - 1] in s && Ascending(r[..|r| - 1], s - {r[|r| - 1]})
    ensures forall x :: x in s ==> x <= r[|r| - 1]
  {
    var front, last := r[..|r| - 1], r[|r| - 1];
    forall x | x in s ensures x == last || x in front {
      var a :| 0 <= a < |r| && r[a] == x;
      assert a < |front| ==> front[a] == x;
    }
    assert forall a :: 0 <= a < |front| ==> front[a] == r[a];
  }

  lemma {:induction false} AscendingUnique(r: seq<int>, r': seq<int>, s: set<int>)
    requires Ascending(r, s) && Ascending(r', s)
    ensures r == r'
    decreases |r|
  {
    if r == [] {
      NothingLeft(s);
    } else {
      AscendingPop(r, s);
      var last := r[|r| - 1];
      assert last in s;
      assert last in r';
      AscendingPop(r', s);
      assert r[|r| - 1] == r'[|r'| - 1];
      AscendingUnique(r[..|r| - 1], r'[..|r'| - 1], s - {r[|r| - 1]});
      assert r == r[..|r| - 1] + [r[|r| - 1]];
      assert r' == r'[..|r'| - 1] + [r'[|r'| - 1]];
    }
  }

  /** What a record says: index and sizes as 32-bit numbers, the first golden value, and the runtime value or its absence. */
  lemma RecordMeans(g: GoldenMap, runtime: Runtime, source: Source, i: int)
    requires i in g && g[i].values != []
    ensures var r := Record(g, runtime, source, i);
            && r.source == source && r.index == i % 0x1_0000_0000 && r.goldenSize == g[i].size % 0x1_0000_0000
            && FromHex(r.goldenValue) == g[i].values[0]
            && (i !in runtime ==> r.runtimeSize == 0 && r.runtimeValue == "NA")
            && (i in runtime ==> r.runtimeSize == |runtime[i]| % 0x1_0000_0000 && FromHex(r.runtimeValue) == runtime[i])
  {
    hide FromHex, ToHex;
    HexRoundTrip(g[i].values[0]);
    if i in runtime {
      HexRoundTrip(runtime[i]);
    }
  }

  /** Turning NVDEC0 off can only drop index 35 from what fails. */
  lemma ExemptionIsOneIndex(g: GoldenMap, runtime: Runtime)
    ensures FailingSet(g, runtime, true) == FailingSet(g, runtime, false) - {35}
  {
  }
}
