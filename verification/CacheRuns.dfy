/**
 * NvCache over whole runs: consistency, the byte budget, and the order in which entries
 * are given up; and the class whose methods carry the operations out in place.
 */
module CacheRuns {
  import opened Common
  import opened NvCache

  datatype Op<V> = PutOp(key: Key, value: V, size: uint64) | GetOp(key: Key) | RemoveOp(key: Key) | ClearOp

  ghost function Step<V>(s: State<V>, o: Options, clock: nat -> int, op: Op<V>): (r: State<V>)
    requires Consistent(s)
    ensures Consistent(r)
  {
    match op
    case PutOp(k, v, size) => Put(s, o, clock, k, v, size)
    case GetOp(k) => Get(s, clock, k)
    case RemoveOp(k) => Remove(s, k)
    case ClearOp => Empty(s.ticks).(nextNode := s.nextNode)
  }

  /** The state after a run of operations on a new cache; every state on the way is consistent. */
  ghost function Run<V>(o: Options, clock: nat -> int, ops: seq<Op<V>>): (s: State<V>)
    ensures Consistent(s)
  {
    if ops == [] then Empty(0)
    else Step(Run(o, clock, ops[..|ops| - 1]), o, clock, ops[|ops| - 1])
  }

  ghost function KeySet(list: seq<Node>): set<Key> { set i | 0 <= i < |list| :: list[i].key }

  lemma {:induction false} DistinctKeysCount(list: seq<Node>)
    requires forall i, j :: 0 <= i < j < |list| ==> list[i].key != list[j].key
    ensures |KeySet(list)| == |list|
  {
    if list != [] {
      var front, last := list[..|list| - 1], list[|list| - 1];
      DistinctKeysCount(front);
      assert KeySet(list) == KeySet(front) + {last.key};
    }
  }

  /** What consistency means after any run: both lists hold each key of the map exactly once. */
  lemma RunLists<V>(o: Options, clock: nat -> int, ops: seq<Op<V>>)
    ensures var s := Run(o, clock, ops);
            && KeySet(s.lru) == KeySet(s.insertion) == s.entries.Keys
            && |s.lru| == |s.insertion| == |s.entries|
            && (forall k :: k in s.entries ==> Node(s.entries[k].lruNode, k) in s.lru && Node(s.entries[k].insertionNode, k) in s.insertion)
  {
    var s := Run(o, clock, ops);
    hide Run, Total, Linked, KeySet;
    ListMatches(s.lru, LruPointers(s.entries), s.nextNode);
    ListMatches(s.insertion, InsertionPointers(s.entries), s.nextNode);
  }

  lemma ListMatches(list: seq<Node>, pointers: map<Key, nat>, nextNode: nat)
    requires Linked(list, pointers, nextNode)
    ensures KeySet(list) == pointers.Keys && |list| == |pointers.Keys|
    ensures forall k :: k in pointers ==> Node(pointers[k], k) in list
  {
    KeysDistinct(list, pointers, nextNode);
    DistinctKeysCount(list);
    forall k | k in pointers ensures k in KeySet(list) && Node(pointers[k], k) in list {
      var p := PositionOf(list, pointers, nextNode, k);
    }
  }

  ghost function Held<V>(s: State<V>): nat { Total(s.insertion, s.entries) }

  // ---------------------------------------------------------------------------
  // The byte budget
  // ---------------------------------------------------------------------------

  /** The entries fit the budget and the counter says so. */
  ghost predicate WithinBudget<V>(s: State<V>, o: Options) {
    s.bytes == Held(s) <= o.maxSizeBytes
  }

  /** One turn of the first loop. */
  lemma EvictExpiredStep<V>(s: State<V>, o: Options, clock: nat -> int, size: uint64)
    requires Consistent(s) && s.insertion != [] && Full(s, o, size)
    ensures OldestInserted(s) in s.entries && Consistent(s.(ticks := s.ticks + 1))
    ensures var k, read := OldestInserted(s), s.(ticks := s.ticks + 1);
            var next := Removed(read, k);
            && (s.entries[k].expiry > clock(s.ticks) ==> EvictExpired(s, o, clock, size) == read)
            && Consistent(next) && |next.insertion| < |s.insertion| && Held(next) <= Held(s)
            && (s.entries[k].expiry <= clock(s.ticks) ==> EvictExpired(s, o, clock, size) == EvictExpired(next, o, clock, size))
  {
    hide Consistent, Total, Removed;
    EndsPresent(s);
    ReadConsistent(s);
    RemovedConsistent(s.(ticks := s.ticks + 1), OldestInserted(s));
  }

  lemma EvictExpiredDone<V>(s: State<V>, o: Options, clock: nat -> int, size: uint64)
    requires Consistent(s)
    ensures s.insertion == [] || !Full(s, o, size) ==> EvictExpired(s, o, clock, size) == s
  {
  }

  /** One turn of the second loop. */
  lemma EvictLruStep<V>(s: State<V>, o: Options, size: uint64)
    requires Consistent(s) && s.lru != [] && Full(s, o, size)
    ensures LeastRecentlyUsed(s) in s.entries
    ensures var next := Removed(s, LeastRecentlyUsed(s));
            && Consistent(next) && |next.lru| < |s.lru| && Held(next) <= Held(s)
            && EvictLru(s, o, size) == EvictLru(next, o, size)
  {
    hide Consistent, Total, Removed;
    EndsPresent(s);
    RemovedConsistent(s, LeastRecentlyUsed(s));
  }

  lemma {:induction false} EvictExpiredHeld<V>(s: State<V>, o: Options, clock: nat -> int, size: uint64)
    requires Consistent(s)
    ensures Held(EvictExpired(s, o, clock, size)) <= Held(s)
    decreases |s.insertion|
  {
    hide Consistent, Total, Removed;
    if s.insertion != [] && Full(s, o, size) {
      EvictExpiredStep(s, o, clock, size);
      var k := OldestInserted(s);
      if s.entries[k].expiry <= clock(s.ticks) {
        EvictExpiredHeld(Removed(s.(ticks := s.ticks + 1), k), o, clock, size);
      }
    }
  }

  lemma {:induction false} EvictLruHeld<V>(s: State<V>, o: Options, size: uint64)
    requires Consistent(s)
    ensures Held(EvictLru(s, o, size)) <= Held(s)
    decreases |s.lru|
  {
    hide Consistent, Total, Removed;
    if s.lru != [] && Full(s, o, size) {
      EvictLruStep(s, o, size);
      EvictLruHeld(Removed(s, LeastRecentlyUsed(s)), o, size);
    }
  }

  lemma NothingListed<V>(s: State<V>)
    requires Consistent(s) && s.lru == []
    ensures s.insertion == [] && s.entries == map[] && Held(s) == 0
  {
    assert forall k :: k in s.entries ==> k in LruPointers(s.entries);
    assert forall k :: k in s.entries ==> InList(s.lru, k);
    assert InsertionPointers(s.entries) == map[];
  }

  lemma CounterExact<V>(s: State<V>, o: Options)
    requires Consistent(s) && Held(s) <= o.maxSizeBytes
    ensures s.bytes == Held(s)
  {
  }

  lemma PutWithinBudget<V>(s: State<V>, o: Options, clock: nat -> int, k: Key, value: V, size: uint64)
    requires Consistent(s) && Held(s) <= o.maxSizeBytes && 2 * o.maxSizeBytes < TWO64
    ensures Held(Put(s, o, clock, k, value, size)) <= o.maxSizeBytes
  {
    if size <= o.maxSizeBytes {
      hide Consistent, Total, EvictExpired, EvictLru, Full, Removed;
      EvictedHeld(s, o, clock, k, size);
      StillAbsent(s, o, clock, k, size);
      var room := EvictLru(EvictExpired(Cleared(s, k), o, clock, size), o, size);
      InsertedConsistent(room, o, clock, k, value, size);
      RoomMade(room, o, size);
    }
  }

  lemma EvictedHeld<V>(s: State<V>, o: Options, clock: nat -> int, k: Key, size: uint64)
    requires Consistent(s)
    ensures Held(EvictLru(EvictExpired(Cleared(s, k), o, clock, size), o, size)) <= Held(s)
  {
    hide Consistent, Total, EvictExpired, EvictLru, Removed;
    if k in s.entries {
      RemovedConsistent(s, k);
    }
    EvictExpiredHeld(Cleared(s, k), o, clock, size);
    EvictLruHeld(EvictExpired(Cleared(s, k), o, clock, size), o, size);
  }

  lemma RoomMade<V>(s: State<V>, o: Options, size: uint64)
    requires Consistent(s) && Held(s) <= o.maxSizeBytes && size <= o.maxSizeBytes && 2 * o.maxSizeBytes < TWO64
    requires s.lru == [] || !Full(s, o, size)
    ensures Held(s) + size <= o.maxSizeBytes
  {
    CounterExact(s, o);
    if s.lru == [] {
      NothingListed(s);
    }
  }

  /** With a budget below 2^63 bytes no run ever holds more than the budget, and the counter is exact. */
  lemma {:induction false} BudgetHolds<V>(o: Options, clock: nat -> int, ops: seq<Op<V>>)
    requires 2 * o.maxSizeBytes < TWO64
    ensures WithinBudget(Run(o, clock, ops), o)
  {
    hide Consistent, Put, Get, Remove;
    if ops != [] {
      var front := ops[..|ops| - 1];
      BudgetHolds(o, clock, front);
      StepWithinBudget(Run(o, clock, front), o, clock, ops[|ops| - 1]);
    }
    CounterExact(Run(o, clock, ops), o);
  }

  lemma StepWithinBudget<V>(s: State<V>, o: Options, clock: nat -> int, op: Op<V>)
    requires Consistent(s) && Held(s) <= o.maxSizeBytes && 2 * o.maxSizeBytes < TWO64
    ensures Held(Step(s, o, clock, op)) <= o.maxSizeBytes
  {
    hide Consistent, Put;
    match op
    case PutOp(k, v, size) => PutWithinBudget(s, o, clock, k, v, size);
    case GetOp(k) =>
    case RemoveOp(k) =>
      if k in s.entries {
        RemovedConsistent(s, k);
      }
    case ClearOp =>
  }

  /** From 2^63 bytes on the 64-bit sum wraps, and two puts of the full budget both stay. */
  lemma BudgetBroken<V>(o: Options, clock: nat -> int, v: V)
    requires 2 * o.maxSizeBytes >= TWO64
    ensures var ops := [PutOp([0], v, o.maxSizeBytes), PutOp([1], v, o.maxSizeBytes)];
            Held(Run(o, clock, ops)) == 2 * o.maxSizeBytes > o.maxSizeBytes
  {
    hide Consistent, Put;
    var size := o.maxSizeBytes;
    var k0: Key, k1: Key := [0], [1];
    var first, second := PutOp(k0, v, size), PutOp(k1, v, size);
    var ops := [first, second];
    assert ops[..1] == [first] && [first][..0] == [];
    var s0: State<V> := Empty(0);
    assert Run(o, clock, ops[..1][..0]) == s0;
    PutWithRoom(s0, o, clock, k0, v, size);
    var s1 := Put(s0, o, clock, k0, v, size);
    assert Run(o, clock, ops[..1]) == s1;
    assert k0[0] != k1[0];
    PutWithRoom(s1, o, clock, k1, v, size);
  }

  /** Where the (wrapped) sum fits, `put` of a new key evicts nothing. */
  lemma PutWithRoom<V>(s: State<V>, o: Options, clock: nat -> int, k: Key, v: V, size: uint64)
    requires Consistent(s) && k !in s.entries && size <= o.maxSizeBytes && !Full(s, o, size)
    ensures Put(s, o, clock, k, v, size) == Inserted(s, o, clock, k, v, size)
    ensures Held(Put(s, o, clock, k, v, size)) == Held(s) + size
  {
    hide Consistent, Total;
    InsertedConsistent(s, o, clock, k, v, size);
  }

  // ---------------------------------------------------------------------------
  // What becomes of an entry
  // ---------------------------------------------------------------------------

  lemma PutReadsClock<V>(s: State<V>, o: Options, clock: nat -> int, k: Key, v: V, size: uint64)
    requires Consistent(s) && size <= o.maxSizeBytes
    ensures var r := Put(s, o, clock, k, v, size);
            && r.ticks > 0 && k in r.entries && r.entries[k].value == v
            && r.entries[k].expiry == clock(r.ticks - 1) + o.ttlSeconds
  {
    hide Consistent, EvictExpired, EvictLru, Cleared;
    StillAbsent(s, o, clock, k, size);
  }

  /** A put leaves the other entries as they are, or drops them. */
  lemma PutKeepsOthers<V>(s: State<V>, o: Options, clock: nat -> int, k: Key, v: V, size: uint64)
    requires Consistent(s)
    ensures var r := Put(s, o, clock, k, v, size);
            forall q :: q in r.entries && (q != k || size > o.maxSizeBytes) ==> q in s.entries && r.entries[q] == s.entries[q]
  {
    hide Consistent, EvictExpired, EvictLru, Removed;
    if size <= o.maxSizeBytes {
      ExpiredShrinks(Cleared(s, k), o, clock, size);
      LruShrinks(EvictExpired(Cleared(s, k), o, clock, size), o, size);
      StillAbsent(s, o, clock, k, size);
      ClearedShrinks(s, k);
    }
  }

  lemma ClearedShrinks<V>(s: State<V>, k: Key)
    requires Consistent(s)
    ensures Shrunk(Cleared(s, k), s)
  {
  }

  /** Where the sizes fit the budget, `put` gives up no entry but the one it replaces. */
  lemma RoomKeepsAll<V>(s: State<V>, o: Options, clock: nat -> int, k: Key, v: V, size: uint64)
    requires Consistent(s) && Held(Cleared(s, k)) + size <= o.maxSizeBytes
    ensures forall q :: q in s.entries && q != k ==>
              q in Put(s, o, clock, k, v, size).entries && Put(s, o, clock, k, v, size).entries[q] == s.entries[q]
  {
    hide Consistent, Total;
    var c := Cleared(s, k);
    CounterExact(c, o);
    assert !Full(c, o, size);
    PutWithRoom(c, o, clock, k, v, size);
    PutClears(s, o, clock, k, v, size);
    assert forall q :: q in s.entries && q != k ==> q in c.entries && c.entries[q] == s.entries[q];
  }

  lemma PutClears<V>(s: State<V>, o: Options, clock: nat -> int, k: Key, v: V, size: uint64)
    requires Consistent(s) && size <= o.maxSizeBytes
    ensures Put(s, o, clock, k, v, size) == Put(Cleared(s, k), o, clock, k, v, size)
  {
    hide Consistent, EvictExpired, EvictLru, Removed;
  }

  lemma StepKeepsEntry<V>(s: State<V>, o: Options, clock: nat -> int, op: Op<V>, k: Key)
    requires Consistent(s) && k in Step(s, o, clock, op).entries && !(op.PutOp? && op.key == k)
    ensures k in s.entries && Step(s, o, clock, op).entries[k].value == s.entries[k].value
    ensures Step(s, o, clock, op).entries[k].expiry == s.entries[k].expiry
  {
    hide Consistent, Put;
    if op.PutOp? {
      PutKeepsOthers(s, o, clock, op.key, op.value, op.size);
    }
  }

  /**
   * As long as an entry is there and its key has not been put again, it holds the value put and
   * expires a time to live after the clock reading of that put, whatever has happened in between.
   */
  lemma {:induction false} EntrySurvives<V>(
    o: Options, clock: nat -> int, before: seq<Op<V>>, k: Key, v: V, size: uint64, after: seq<Op<V>>)
    requires size <= o.maxSizeBytes && forall i :: 0 <= i < |after| ==> !(after[i].PutOp? && after[i].key == k)
    requires k in Run(o, clock, before + [PutOp(k, v, size)] + after).entries
    ensures var put, now := Run(o, clock, before + [PutOp(k, v, size)]), Run(o, clock, before + [PutOp(k, v, size)] + after);
            && put.ticks > 0 && now.entries[k].value == v && now.entries[k].expiry == clock(put.ticks - 1) + o.ttlSeconds
  {
    hide Consistent, Step, Put;
    var base := before + [PutOp(k, v, size)];
    if after == [] {
      assert base + after == base && base[..|base| - 1] == before;
      var s := Run(o, clock, before);
      PutIsStep(s, o, clock, k, v, size);
      PutReadsClock(s, o, clock, k, v, size);
    } else {
      var front, last := after[..|after| - 1], after[|after| - 1];
      var ops := base + after;
      assert ops[..|ops| - 1] == base + front;
      StepKeepsEntry(Run(o, clock, base + front), o, clock, last, k);
      EntrySurvives(o, clock, before, k, v, size, front);
    }
  }

  lemma PutIsStep<V>(s: State<V>, o: Options, clock: nat -> int, k: Key, v: V, size: uint64)
    requires Consistent(s)
    ensures Step(s, o, clock, PutOp(k, v, size)) == Put(s, o, clock, k, v, size)
  {
  }

  /** An operation that cannot take the entry of `k` away: it is about another key, and finds room for what it puts. */
  ghost predicate Spares<V>(s: State<V>, o: Options, op: Op<V>, k: Key)
    requires Consistent(s)
  {
    match op
    case PutOp(q, _, size) => q != k && (size > o.maxSizeBytes || Held(Cleared(s, q)) + size <= o.maxSizeBytes)
    case GetOp(_) => true
    case RemoveOp(q) => q != k
    case ClearOp => false
  }

  lemma StepSpares<V>(s: State<V>, o: Options, clock: nat -> int, op: Op<V>, k: Key)
    requires Consistent(s) && k in s.entries && Spares(s, o, op, k)
    ensures k in Step(s, o, clock, op).entries
  {
    hide Consistent, Put, Total;
    if op.PutOp? {
      if op.size > o.maxSizeBytes {
        PutRefused(s, o, clock, op.key, op.value, op.size);
      } else {
        RoomKeepsAll(s, o, clock, op.key, op.value, op.size);
      }
    }
  }

  /** An entry put stays through any run of operations that spare it. */
  lemma {:induction false} EntryStays<V>(
    o: Options, clock: nat -> int, before: seq<Op<V>>, k: Key, v: V, size: uint64, after: seq<Op<V>>)
    requires size <= o.maxSizeBytes
    requires forall i :: 0 <= i < |after| ==> SparesNext(o, clock, before + [PutOp(k, v, size)], after, i, k)
    ensures k in Run(o, clock, before + [PutOp(k, v, size)] + after).entries
  {
    hide Consistent, Step, Put, Spares;
    var base := before + [PutOp(k, v, size)];
    if after == [] {
      assert base + after == base && base[..|base| - 1] == before;
      PutIsStep(Run(o, clock, before), o, clock, k, v, size);
      PutReadsClock(Run(o, clock, before), o, clock, k, v, size);
    } else {
      var front, last := after[..|after| - 1], after[|after| - 1];
      var ops := base + after;
      assert ops[..|ops| - 1] == base + front;
      forall i | 0 <= i < |front| ensures SparesNext(o, clock, base, front, i, k) {
        assert SparesNext(o, clock, base, after, i, k) && front[..i] == after[..i] && front[i] == after[i];
      }
      EntryStays(o, clock, before, k, v, size, front);
      assert SparesNext(o, clock, base, after, |front|, k) && after[..|front|] == front;
      StepSpares(Run(o, clock, base + front), o, clock, last, k);
    }
  }

  ghost predicate SparesNext<V>(o: Options, clock: nat -> int, base: seq<Op<V>>, after: seq<Op<V>>, i: nat, k: Key)
    requires i < |after|
  {
    Spares(Run(o, clock, base + after[..i]), o, after[i], k)
  }

  /** The first loop gives up only what had expired at one of its clock readings. */
  lemma {:induction false} ExpiredOnly<V>(s: State<V>, o: Options, clock: nat -> int, size: uint64, q: Key)
    requires Consistent(s) && q in s.entries && q !in EvictExpired(s, o, clock, size).entries
    ensures exists t: nat :: s.ticks <= t < EvictExpired(s, o, clock, size).ticks && s.entries[q].expiry <= clock(t)
    decreases |s.insertion|
  {
    hide Consistent, Total, Removed;
    EvictExpiredDone(s, o, clock, size);
    if s.insertion != [] && Full(s, o, size) {
      EvictExpiredStep(s, o, clock, size);
      var k := OldestInserted(s);
      if s.entries[k].expiry <= clock(s.ticks) {
        var next := Removed(s.(ticks := s.ticks + 1), k);
        RemovedEntries(s.(ticks := s.ticks + 1), k);
        TicksGrow(next, o, clock, size);
        if q != k {
          ExpiredOnly(next, o, clock, size, q);
        }
      }
    }
  }

  lemma RemovedEntries<V>(s: State<V>, k: Key)
    requires k in s.entries
    ensures Removed(s, k).entries == s.entries - {k} && Removed(s, k).ticks == s.ticks && Removed(s, k).bytes == Sub64(s.bytes, s.entries[k].size)
  {
  }

  lemma {:induction false} TicksGrow<V>(s: State<V>, o: Options, clock: nat -> int, size: uint64)
    requires Consistent(s)
    ensures EvictExpired(s, o, clock, size).ticks >= s.ticks
    decreases |s.insertion|
  {
    hide Consistent, Total, Removed;
    EvictExpiredDone(s, o, clock, size);
    if s.insertion != [] && Full(s, o, size) {
      EvictExpiredStep(s, o, clock, size);
      var k := OldestInserted(s);
      if s.entries[k].expiry <= clock(s.ticks) {
        RemovedEntries(s.(ticks := s.ticks + 1), k);
        TicksGrow(Removed(s.(ticks := s.ticks + 1), k), o, clock, size);
      }
    }
  }

  /** The second loop gives up no more than it must: with one of the entries it gave up put back there would be no room. */
  lemma {:induction false} EvictLruMinimal<V>(s: State<V>, o: Options, size: uint64) returns (q: Key)
    requires Consistent(s) && s.lru != [] && Full(s, o, size)
    ensures q in s.entries && q !in EvictLru(s, o, size).entries
    ensures Add64(Add64(EvictLru(s, o, size).bytes, s.entries[q].size), size) > o.maxSizeBytes
    decreases |s.lru|
  {
    hide Consistent, Total, Removed;
    EvictLruStep(s, o, size);
    var k := LeastRecentlyUsed(s);
    var next := Removed(s, k);
    RemovedEntries(s, k);
    if next.lru != [] && Full(next, o, size) {
      q := EvictLruMinimal(next, o, size);
    } else {
      q := k;
      EvictLruIdle(next, o, size);
      assert Add64(next.bytes, s.entries[k].size) == s.bytes;
    }
  }

  // ---------------------------------------------------------------------------
  // Order of expiry and of last use
  // ---------------------------------------------------------------------------

  ghost predicate NonDecreasing(clock: nat -> int) {
    forall i: nat, j: nat :: i <= j ==> clock(i) <= clock(j)
  }

  /** Position of the last use of `k` in a log of uses; -1 if there is none. */
  function LastUse(log: seq<Key>, k: Key): int {
    if log == [] then -1
    else if log[|log| - 1] == k then |log| - 1
    else LastUse(log[..|log| - 1], k)
  }

  lemma {:induction false} LastUseBounds(log: seq<Key>, k: Key)
    ensures -1 <= LastUse(log, k) < |log|
  {
    if log != [] {
      LastUseBounds(log[..|log| - 1], k);
    }
  }

  /** Newest insertion in front, and its expiry is no earlier than that of anything behind it. */
  ghost predicate SortedByExpiry<V>(list: seq<Node>, entries: map<Key, Entry<V>>) {
    forall i, j :: 0 <= i < j < |list| && list[i].key in entries && list[j].key in entries ==>
      entries[list[i].key].expiry >= entries[list[j].key].expiry
  }

  ghost predicate ExpiryBounded<V>(s: State<V>, o: Options, clock: nat -> int) {
    forall k, t: nat :: k in s.entries && t >= s.ticks ==> s.entries[k].expiry <= clock(t) + o.ttlSeconds
  }

  /** Last used in front. */
  ghost predicate SortedByUse(list: seq<Node>, log: seq<Key>) {
    && (forall i :: 0 <= i < |list| ==> LastUse(log, list[i].key) >= 0)
    && (forall i, j :: 0 <= i < j < |list| ==> LastUse(log, list[i].key) > LastUse(log, list[j].key))
  }

  ghost predicate Ordered<V>(s: State<V>, o: Options, clock: nat -> int, log: seq<Key>) {
    SortedByExpiry(s.insertion, s.entries) && ExpiryBounded(s, o, clock) && SortedByUse(s.lru, log)
  }

  lemma RemovedOrdered<V>(s: State<V>, o: Options, clock: nat -> int, log: seq<Key>, k: Key)
    requires Consistent(s) && Ordered(s, o, clock, log) && k in s.entries
    ensures Ordered(Removed(s, k), o, clock, log)
  {
    hide Linked, Total, LastUse;
    var p := PositionOf(s.lru, LruPointers(s.entries), s.nextNode, k);
    var q := PositionOf(s.insertion, InsertionPointers(s.entries), s.nextNode, k);
    WithoutIs(s.lru, p);
    WithoutIs(s.insertion, q);
    var r := Removed(s, k);
    assert r.lru == Without(s.lru, p) && r.insertion == Without(s.insertion, q);
  }

  lemma {:induction false} EvictExpiredOrdered<V>(s: State<V>, o: Options, clock: nat -> int, log: seq<Key>, size: uint64)
    requires Consistent(s) && Ordered(s, o, clock, log)
    ensures Ordered(EvictExpired(s, o, clock, size), o, clock, log)
    decreases |s.insertion|
  {
    hide Consistent, Total, SortedByUse, SortedByExpiry;
    if s.insertion != [] && Full(s, o, size) {
      EvictExpiredStep(s, o, clock, size);
      var k := OldestInserted(s);
      if s.entries[k].expiry <= clock(s.ticks) {
        var read := s.(ticks := s.ticks + 1);
        RemovedOrdered(read, o, clock, log, k);
        EvictExpiredOrdered(Removed(read, k), o, clock, log, size);
      }
    }
  }

  lemma {:induction false} EvictLruOrdered<V>(s: State<V>, o: Options, clock: nat -> int, log: seq<Key>, size: uint64)
    requires Consistent(s) && Ordered(s, o, clock, log)
    ensures Ordered(EvictLru(s, o, size), o, clock, log)
    decreases |s.lru|
  {
    hide Consistent, Total, Ordered;
    if s.lru != [] && Full(s, o, size) {
      EvictLruStep(s, o, size);
      var k := LeastRecentlyUsed(s);
      RemovedOrdered(s, o, clock, log, k);
      EvictLruOrdered(Removed(s, k), o, clock, log, size);
    }
  }

  /** A use of `k` puts it in front of everything else. */
  lemma UsedInFront(rest: seq<Node>, log: seq<Key>, n: Node)
    requires SortedByUse(rest, log) && forall i :: 0 <= i < |rest| ==> rest[i].key != n.key
    ensures SortedByUse([n] + rest, log + [n.key])
  {
    var log' := log + [n.key];
    assert log'[..|log|] == log;
    forall i | 0 <= i < |rest| ensures LastUse(log', rest[i].key) == LastUse(log, rest[i].key) < |log| {
      LastUseBounds(log, rest[i].key);
    }
    assert LastUse(log', n.key) == |log|;
  }

  lemma InsertedOrdered<V>(s: State<V>, o: Options, clock: nat -> int, log: seq<Key>, k: Key, value: V, size: uint64)
    requires Consistent(s) && Ordered(s, o, clock, log) && k !in s.entries && NonDecreasing(clock)
    ensures Ordered(Inserted(s, o, clock, k, value, size), o, clock, log + [k])
  {
    hide Total, LastUse, SortedByUse, NonDecreasing;
    assert forall i :: 0 <= i < |s.lru| ==> s.lru[i].key in LruPointers(s.entries);
    UsedInFront(s.lru, log, Node(s.nextNode, k));
    InsertedByExpiry(s, o, clock, k, value, size);
  }

  lemma InsertedByExpiry<V>(s: State<V>, o: Options, clock: nat -> int, k: Key, value: V, size: uint64)
    requires Consistent(s) && SortedByExpiry(s.insertion, s.entries) && ExpiryBounded(s, o, clock)
    requires k !in s.entries && NonDecreasing(clock)
    ensures var r := Inserted(s, o, clock, k, value, size);
            SortedByExpiry(r.insertion, r.entries) && ExpiryBounded(r, o, clock)
  {
    var r := Inserted(s, o, clock, k, value, size);
    AbsentKeys(s, k);
    hide Consistent;
    assert forall i :: 0 < i < |r.insertion| ==> r.insertion[i] == s.insertion[i - 1];
  }

  lemma PutOrdered<V>(s: State<V>, o: Options, clock: nat -> int, log: seq<Key>, k: Key, value: V, size: uint64)
    requires Consistent(s) && Ordered(s, o, clock, log) && NonDecreasing(clock) && size <= o.maxSizeBytes
    ensures Ordered(Put(s, o, clock, k, value, size), o, clock, log + [k])
  {
    hide Consistent, Ordered, NonDecreasing;
    if k in s.entries {
      RemovedOrdered(s, o, clock, log, k);
    }
    var a := Cleared(s, k);
    EvictExpiredOrdered(a, o, clock, log, size);
    var b := EvictExpired(a, o, clock, size);
    EvictLruOrdered(b, o, clock, log, size);
    StillAbsent(s, o, clock, k, size);
    InsertedOrdered(EvictLru(b, o, size), o, clock, log, k, value, size);
  }

  lemma GetOrdered<V>(s: State<V>, o: Options, clock: nat -> int, log: seq<Key>, k: Key)
    requires Consistent(s) && Ordered(s, o, clock, log)
    ensures Ordered(Get(s, clock, k), o, clock, if Live(s, clock, k) then log + [k] else log)
  {
    if Live(s, clock, k) {
      var p := PositionOf(s.lru, LruPointers(s.entries), s.nextNode, k);
      KeysDistinct(s.lru, LruPointers(s.entries), s.nextNode);
      hide Total, Linked, SortedByUse, SortedByExpiry, Without;
      WithoutIs(s.lru, p);
      SortedWithout(s.lru, log, p);
      UsedInFront(Without(s.lru, p), log, s.lru[p]);
    }
  }

  lemma SortedWithout(list: seq<Node>, log: seq<Key>, p: nat)
    requires p < |list| && SortedByUse(list, log)
    ensures SortedByUse(Without(list, p), log)
  {
    hide Without, LastUse;
  }

  /** The log of successful gets and puts of a run. */
  ghost function Uses<V>(o: Options, clock: nat -> int, ops: seq<Op<V>>): seq<Key> {
    if ops == [] then []
    else
      var front, op := ops[..|ops| - 1], ops[|ops| - 1];
      var used := match op
        case PutOp(k, _, size) => size <= o.maxSizeBytes
        case GetOp(k) => Live(Run(o, clock, front), clock, k)
        case _ => false;
      Uses(o, clock, front) + (if used then [op.key] else [])
  }

  /** Under a clock that never runs backwards every run keeps both lists in order. */
  lemma {:induction false} RunOrdered<V>(o: Options, clock: nat -> int, ops: seq<Op<V>>)
    requires NonDecreasing(clock)
    ensures Ordered(Run(o, clock, ops), o, clock, Uses(o, clock, ops))
  {
    hide Consistent, Put, Get, NonDecreasing;
    if ops != [] {
      var front := ops[..|ops| - 1];
      RunOrdered(o, clock, front);
      var s, log := Run(o, clock, front), Uses(o, clock, front);
      match ops[|ops| - 1]
      case PutOp(k, v, size) =>
        if size <= o.maxSizeBytes {
          PutOrdered(s, o, clock, log, k, v, size);
        } else {
          PutRefused(s, o, clock, k, v, size);
        }
      case GetOp(k) =>
        assert log + [] == log;
        GetOrdered(s, o, clock, log, k);
      case RemoveOp(k) =>
        if k in s.entries {
          RemovedOrdered(s, o, clock, log, k);
        }
      case ClearOp =>
    }
  }

  lemma PutRefused<V>(s: State<V>, o: Options, clock: nat -> int, k: Key, v: V, size: uint64)
    requires Consistent(s) && size > o.maxSizeBytes
    ensures Put(s, o, clock, k, v, size) == s
  {
  }

  // ---------------------------------------------------------------------------
  // What eviction gives up
  // ---------------------------------------------------------------------------

  /** If the first loop stops short of making room, nothing it leaves behind has expired. */
  lemma {:induction false} ExpiredAllGone<V>(s: State<V>, o: Options, clock: nat -> int, log: seq<Key>, size: uint64)
    requires Consistent(s) && Ordered(s, o, clock, log)
    ensures var r := EvictExpired(s, o, clock, size);
            Full(r, o, size) && r.entries != map[] ==>
              r.ticks > 0 && forall k :: k in r.entries ==> r.entries[k].expiry > clock(r.ticks - 1)
    decreases |s.insertion|
  {
    hide Consistent, Total, Ordered, Removed;
    if s.insertion == [] {
      NothingInserted(s);
    } else if Full(s, o, size) {
      EvictExpiredStep(s, o, clock, size);
      var k := OldestInserted(s);
      if s.entries[k].expiry <= clock(s.ticks) {
        var read := s.(ticks := s.ticks + 1);
        ReadOrdered(s, o, clock, log);
        RemovedOrdered(read, o, clock, log, k);
        ExpiredAllGone(Removed(read, k), o, clock, log, size);
      } else {
        OldestExpiresFirst(s, o, clock, log);
      }
    }
  }

  lemma ReadOrdered<V>(s: State<V>, o: Options, clock: nat -> int, log: seq<Key>)
    requires Ordered(s, o, clock, log)
    ensures Ordered(s.(ticks := s.ticks + 1), o, clock, log)
  {
  }

  lemma NothingInserted<V>(s: State<V>)
    requires Consistent(s) && s.insertion == []
    ensures s.entries == map[]
  {
    assert forall k :: k in s.entries ==> k in InsertionPointers(s.entries);
    assert forall k :: k in s.entries ==> InList(s.insertion, k);
  }

  lemma OldestExpiresFirst<V>(s: State<V>, o: Options, clock: nat -> int, log: seq<Key>)
    requires Consistent(s) && Ordered(s, o, clock, log) && s.insertion != []
    ensures OldestInserted(s) in s.entries
    ensures forall k :: k in s.entries ==> s.entries[k].expiry >= s.entries[OldestInserted(s)].expiry
  {
    hide Total;
    EndsPresent(s);
    forall k | k in s.entries ensures s.entries[k].expiry >= s.entries[OldestInserted(s)].expiry {
      var p := PositionOf(s.insertion, InsertionPointers(s.entries), s.nextNode, k);
    }
  }

  /** The second loop drops a tail of the list of uses. */
  lemma {:induction false} EvictLruDropsTail<V>(s: State<V>, o: Options, size: uint64)
    requires Consistent(s)
    ensures EvictLru(s, o, size).lru <= s.lru
    decreases |s.lru|
  {
    hide Consistent, Total;
    if s.lru != [] && Full(s, o, size) {
      EndsPresent(s);
      var k := LeastRecentlyUsed(s);
      RemovedConsistent(s, k);
      LastErased(s);
      EvictLruDropsTail(Removed(s, k), o, size);
    }
  }

  lemma EvictLruIdle<V>(s: State<V>, o: Options, size: uint64)
    requires Consistent(s) && (s.lru == [] || !Full(s, o, size))
    ensures EvictLru(s, o, size) == s
  {
  }

  lemma LastErased<V>(s: State<V>)
    requires Consistent(s) && s.lru != [] && LeastRecentlyUsed(s) in s.entries
    ensures Removed(s, LeastRecentlyUsed(s)).lru == s.lru[..|s.lru| - 1]
  {
    hide Total;
    EraseAt(s.lru, |s.lru| - 1);
  }

  /**
   * What `put` gives up. Whenever the second loop discards an entry, every entry left by the
   * first one is still alive at the last time read, and whatever is discarded was used less
   * recently than whatever stays.
   */
  lemma EvictionOrder<V>(s: State<V>, o: Options, clock: nat -> int, log: seq<Key>, k: Key, size: uint64)
    requires Consistent(s) && Ordered(s, o, clock, log) && size <= o.maxSizeBytes
    ensures var a := EvictExpired(Cleared(s, k), o, clock, size);
            var b := EvictLru(a, o, size);
            && (b != a ==> a.ticks > 0 && forall q :: q in a.entries ==> a.entries[q].expiry > clock(a.ticks - 1))
            && (forall q, r :: q in a.entries && q !in b.entries && r in b.entries ==> LastUse(log, q) < LastUse(log, r))
  {
    hide Consistent, Ordered, Total, EvictExpired, EvictLru, LastUse, Removed;
    if k in s.entries {
      RemovedOrdered(s, o, clock, log, k);
    }
    var c := Cleared(s, k);
    var a := EvictExpired(c, o, clock, size);
    var b := EvictLru(a, o, size);
    ExpiredAllGone(c, o, clock, log, size);
    EvictExpiredOrdered(c, o, clock, log, size);
    EvictLruDropsTail(a, o, size);
    if a.lru == [] || !Full(a, o, size) {
      EvictLruIdle(a, o, size);
    } else {
      EndsPresent(a);
    }
    forall q, r | q in a.entries && q !in b.entries && r in b.entries ensures LastUse(log, q) < LastUse(log, r) {
      UsedLater(a, b, o, clock, log, q, r);
    }
  }

  /**
   * The same over whole runs: whatever has happened before, the next `put` under a clock that
   * does not go back discards live entries only when no expired one is left, and always those
   * whose last successful get or put is longest ago.
   */
  lemma NextPutEvicts<V>(o: Options, clock: nat -> int, ops: seq<Op<V>>, k: Key, size: uint64)
    requires NonDecreasing(clock) && size <= o.maxSizeBytes
    ensures var log := Uses(o, clock, ops);
            var a := EvictExpired(Cleared(Run(o, clock, ops), k), o, clock, size);
            var b := EvictLru(a, o, size);
            && (b != a ==> a.ticks > 0 && forall q :: q in a.entries ==> a.entries[q].expiry > clock(a.ticks - 1))
            && (forall q, r :: q in a.entries && q !in b.entries && r in b.entries ==> LastUse(log, q) < LastUse(log, r))
  {
    hide Consistent, Ordered, Total, EvictExpired, EvictLru, LastUse, Removed, Run, Uses;
    RunOrdered(o, clock, ops);
    EvictionOrder(Run(o, clock, ops), o, clock, Uses(o, clock, ops), k, size);
  }

  lemma UsedLater<V>(a: State<V>, b: State<V>, o: Options, clock: nat -> int, log: seq<Key>, q: Key, r: Key)
    requires Consistent(a) && Consistent(b) && Ordered(a, o, clock, log) && b.lru <= a.lru
    requires q in a.entries && q !in b.entries && r in b.entries
    ensures LastUse(log, q) < LastUse(log, r)
  {
    hide Total, LastUse, SortedByUse;
    var i := PositionOf(a.lru, LruPointers(a.entries), a.nextNode, q);
    var j := PositionOf(b.lru, LruPointers(b.entries), b.nextNode, r);
    NotKept(b, a.lru, q, i);
    assert a.lru[j] == b.lru[j];
    assert LastUse(log, a.lru[j].key) > LastUse(log, a.lru[i].key) by { SortedPair(a.lru, log, j, i); }
  }

  lemma SortedPair(list: seq<Node>, log: seq<Key>, i: nat, j: nat)
    requires i < j < |list| && SortedByUse(list, log)
    ensures LastUse(log, list[i].key) > LastUse(log, list[j].key)
  {
  }

  lemma NotKept<V>(b: State<V>, list: seq<Node>, q: Key, i: nat)
    requires Consistent(b) && b.lru <= list && q !in b.entries && i < |list| && list[i].key == q
    ensures i >= |b.lru|
  {
    hide Total;
    assert forall m :: 0 <= m < |b.lru| ==> b.lru[m].key in b.entries;
  }

  // ---------------------------------------------------------------------------
  // The cache itself
  // ---------------------------------------------------------------------------

  class Cache<V> {
    var entries: map<Key, Entry<V>>
    var lruList: seq<Node>
    var insertionList: seq<Node>
    var currentSizeBytes: uint64
    var nextNode: nat
    var ticks: nat
    const options: Options
    const clock: nat -> int

    ghost function View(): State<V>
      reads this
    {
      State(entries, lruList, insertionList, currentSizeBytes, nextNode, ticks)
    }

    ghost predicate Valid()
      reads this
    {
      Consistent(View())
    }

    constructor (options: Options, clock: nat -> int)
      ensures Valid() && View() == Empty(0) && this.options == options && this.clock == clock
    {
      entries, lruList, insertionList, currentSizeBytes, nextNode, ticks := map[], [], [], 0, 0, 0;
      this.options, this.clock := options, clock;
    }

    /** `time(nullptr)`. */
    method Time() returns (now: int)
      modifies this`ticks
      ensures now == clock(old(ticks)) && View() == old(View()).(ticks := old(ticks) + 1)
    {
      now := clock(ticks);
      ticks := ticks + 1;
    }

    method RemoveHelper(key: Key)
      requires Valid() && key in entries
      modifies this
      ensures Valid() && View() == Removed(old(View()), key)
    {
      RemovedConsistent(View(), key);
      var e := entries[key];
      currentSizeBytes := Sub64(currentSizeBytes, e.size);
      lruList := Erase(lruList, e.lruNode);
      insertionList := Erase(insertionList, e.insertionNode);
      entries := entries - {key};
    }

    method EvictExpiredEntries(size: uint64)
      requires Valid()
      modifies this
      ensures Valid() && View() == EvictExpired(old(View()), options, clock, size)
    {
      hide Consistent, Removed, EvictExpired;
      EvictExpiredDone(View(), options, clock, size);
      while insertionList != [] && Add64(currentSizeBytes, size) > options.maxSizeBytes
        invariant Valid() && EvictExpired(View(), options, clock, size) == EvictExpired(old(View()), options, clock, size)
        invariant insertionList == [] || !Full(View(), options, size) ==> View() == EvictExpired(View(), options, clock, size)
        decreases |insertionList|
      {
        EvictExpiredStep(View(), options, clock, size);
        var oldest := insertionList[|insertionList| - 1].key;
        var now := Time();
        if entries[oldest].expiry > now {
          return;
        }
        RemoveHelper(oldest);
        EvictExpiredDone(View(), options, clock, size);
      }
    }

    method EvictLeastRecentlyUsed(size: uint64)
      requires Valid()
      modifies this
      ensures Valid() && View() == EvictLru(old(View()), options, size)
    {
      hide Consistent;
      while lruList != [] && Add64(currentSizeBytes, size) > options.maxSizeBytes
        invariant Valid() && EvictLru(View(), options, size) == EvictLru(old(View()), options, size)
        decreases |lruList|
      {
        EvictLruStep(View(), options, size);
        var oldest := lruList[|lruList| - 1].key;
        RemoveHelper(oldest);
      }
    }

    method Put(key: Key, value: V, size: uint64) returns (ok: bool)
      requires Valid()
      modifies this
      ensures Valid() && View() == NvCache.Put(old(View()), options, clock, key, value, size)
      ensures ok <==> size <= options.maxSizeBytes
      ensures if ok then key in entries && entries[key].value == value else View() == old(View())
      ensures ok ==> ticks > 0 && entries[key].expiry == clock(ticks - 1) + options.ttlSeconds
    {
      hide Consistent, EvictExpired, EvictLru, Removed;
      ghost var before := View();
      if size > options.maxSizeBytes {
        return false;
      }
      if key in entries {
        RemoveHelper(key);
      }
      EvictExpiredEntries(size);
      EvictLeastRecentlyUsed(size);
      StillAbsent(before, options, clock, key, size);
      AddEntry(key, value, size);
      ok := true;
    }

    method AddEntry(key: Key, value: V, size: uint64)
      requires Valid() && key !in entries
      modifies this
      ensures Valid() && View() == Inserted(old(View()), options, clock, key, value, size)
    {
      hide Consistent;
      InsertedConsistent(View(), options, clock, key, value, size);
      currentSizeBytes := Add64(currentSizeBytes, size);
      lruList := [Node(nextNode, key)] + lruList;
      insertionList := [Node(nextNode + 1, key)] + insertionList;
      var now := Time();
      entries := entries[key := Entry(value, size, now + options.ttlSeconds, nextNode, nextNode + 1)];
      nextNode := nextNode + 2;
    }

    method Get(key: Key) returns (found: Option<V>)
      requires Valid()
      modifies this
      ensures Valid() && View() == NvCache.Get(old(View()), clock, key)
      ensures found == if key in old(entries) && old(entries)[key].expiry > clock(old(ticks)) then Some(old(entries)[key].value) else None
      ensures entries == old(entries)
    {
      hide Consistent;
      if key !in entries {
        return None;
      }
      ReadConsistent(View());
      var now := Time();
      if entries[key].expiry <= now {
        return None;
      }
      found := Some(entries[key].value);
      lruList := MoveToFront(lruList, Node(entries[key].lruNode, key));
      assert View() == NvCache.Get(old(View()), clock, key);
    }

    method Remove(key: Key)
      requires Valid()
      modifies this
      ensures Valid() && View() == NvCache.Remove(old(View()), key)
      ensures entries == old(entries) - {key}
    {
      hide Consistent;
      if key in entries {
        RemoveHelper(key);
      }
    }

    method Clear()
      requires Valid()
      modifies this
      ensures Valid() && View() == Empty(ticks).(nextNode := nextNode) && ticks == old(ticks)
    {
      entries, lruList, insertionList, currentSizeBytes := map[], [], [], 0;
    }
  }
}
