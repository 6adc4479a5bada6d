/**
 * NvCache: one map, two linked lists, a byte budget and a time to live. A `std::list` is a
 * sequence of nodes with identities, so that the node pointers the entries keep can be
 * wrong; `uint64_t` sums wrap; every call of `time` is the next reading of a clock.
 */
module NvCache {
  import opened Common

  type Key = seq<byte>

  const TWO64 := 0x1_0000_0000_0000_0000

  type uint64 = x: int | 0 <= x < TWO64

  datatype Options = Options(maxSizeBytes: uint64, ttlSeconds: int)

  datatype Node = Node(id: nat, key: Key)

  datatype Entry<V> = Entry(value: V, size: uint64, expiry: int, lruNode: nat, insertionNode: nat)

  /** The fields of the cache, the next unused node and the number of clock readings so far. */
  datatype State<V> = State(
    entries: map<Key, Entry<V>>, lru: seq<Node>, insertion: seq<Node>, bytes: uint64, nextNode: nat, ticks: nat)

  function Empty<V>(ticks: nat): State<V> { State(map[], [], [], 0, 0, ticks) }

  function Add64(a: uint64, b: uint64): uint64 { (a + b) % TWO64 }

  function Sub64(a: uint64, b: uint64): uint64 { (a - b) % TWO64 }

  // ---------------------------------------------------------------------------
  // Lists of nodes
  // ---------------------------------------------------------------------------

  /** `list.erase(node)`. */
  function Erase(list: seq<Node>, id: nat): seq<Node> {
    if list == [] then []
    else if list[0].id == id then list[1..]
    else [list[0]] + Erase(list[1..], id)
  }

  /** `list.splice(list.begin(), list, node)` for a node of the list. */
  function MoveToFront(list: seq<Node>, node: Node): seq<Node> {
    [node] + Erase(list, node.id)
  }

  /** The list is a duplicate-free permutation of the keys, and the pointers point at their own nodes. */
  ghost predicate Linked(list: seq<Node>, pointers: map<Key, nat>, nextNode: nat) {
    Pointed(list, pointers, nextNode) && DistinctIds(list) && AllListed(list, pointers)
  }

  ghost predicate Pointed(list: seq<Node>, pointers: map<Key, nat>, nextNode: nat) {
    forall i :: 0 <= i < |list| ==>
      list[i].key in pointers && pointers[list[i].key] == list[i].id && list[i].id < nextNode
  }

  ghost predicate DistinctIds(list: seq<Node>) {
    forall i, j :: 0 <= i < j < |list| ==> list[i].id != list[j].id
  }

  ghost predicate AllListed(list: seq<Node>, pointers: map<Key, nat>) {
    forall k :: k in pointers ==> InList(list, k)
  }

  ghost predicate InList(list: seq<Node>, k: Key) {
    exists i :: 0 <= i < |list| && list[i].key == k
  }

  /** Nothing but the position of a node decides what `erase` removes. */
  lemma {:induction false} EraseAt(list: seq<Node>, p: nat)
    requires p < |list| && DistinctIds(list)
    ensures Erase(list, list[p].id) == list[..p] + list[p + 1..]
  {
    if p > 0 {
      EraseAt(list[1..], p - 1);
      assert list[0].id != list[p].id;
      assert list[1..][..p - 1] == list[1..p];
    }
  }

  lemma KeysDistinct(list: seq<Node>, pointers: map<Key, nat>, nextNode: nat)
    requires Linked(list, pointers, nextNode)
    ensures forall i, j :: 0 <= i < j < |list| ==> list[i].key != list[j].key
  {
  }

  lemma PositionOf(list: seq<Node>, pointers: map<Key, nat>, nextNode: nat, k: Key) returns (p: nat)
    requires Linked(list, pointers, nextNode) && k in pointers
    ensures p < |list| && list[p] == Node(pointers[k], k)
    ensures Erase(list, pointers[k]) == list[..p] + list[p + 1..]
  {
    assert InList(list, k);
    p :| 0 <= p < |list| && list[p].key == k;
    EraseAt(list, p);
  }

  function Without(list: seq<Node>, p: nat): (r: seq<Node>)
    requires p < |list|
    ensures |r| == |list| - 1 && forall i :: 0 <= i < |r| ==> r[i] == list[if i < p then i else i + 1]
  {
    list[..p] + list[p + 1..]
  }

  lemma LinkedErase(list: seq<Node>, pointers: map<Key, nat>, nextNode: nat, k: Key)
    requires Linked(list, pointers, nextNode) && k in pointers
    ensures Linked(Erase(list, pointers[k]), pointers - {k}, nextNode)
  {
    hide InList, Without;
    var p := PositionOf(list, pointers, nextNode, k);
    KeysDistinct(list, pointers, nextNode);
    assert Erase(list, pointers[k]) == Without(list, p) by { WithoutIs(list, p); }
    forall q | q in pointers - {k} ensures InList(Without(list, p), q) {
      ListedWithout(list, p, q);
    }
  }

  lemma WithoutIs(list: seq<Node>, p: nat)
    requires p < |list|
    ensures Without(list, p) == list[..p] + list[p + 1..]
  {
  }

  lemma ListedWithout(list: seq<Node>, p: nat, q: Key)
    requires p < |list| && InList(list, q) && list[p].key != q
    ensures InList(Without(list, p), q)
  {
    hide Without;
    var i :| 0 <= i < |list| && list[i].key == q;
    assert Without(list, p)[if i < p then i else i - 1].key == q;
  }

  lemma ListedPush(list: seq<Node>, n: Node, q: Key)
    requires q == n.key || InList(list, q)
    ensures InList([n] + list, q)
  {
    if q == n.key {
      assert ([n] + list)[0].key == q;
    } else {
      var i :| 0 <= i < |list| && list[i].key == q;
      assert ([n] + list)[i + 1].key == q;
    }
  }

  lemma LinkedPush(list: seq<Node>, pointers: map<Key, nat>, nextNode: nat, k: Key, id: nat, nextNode': nat)
    requires Linked(list, pointers, nextNode) && k !in pointers && nextNode <= id < nextNode'
    ensures Linked([Node(id, k)] + list, pointers[k := id], nextNode')
  {
    hide InList;
    forall q | q in pointers[k := id] ensures InList([Node(id, k)] + list, q) {
      ListedPush(list, Node(id, k), q);
    }
  }

  lemma LinkedMove(list: seq<Node>, pointers: map<Key, nat>, nextNode: nat, k: Key)
    requires Linked(list, pointers, nextNode) && k in pointers
    ensures Linked(MoveToFront(list, Node(pointers[k], k)), pointers, nextNode)
  {
    hide Linked;
    LinkedErase(list, pointers, nextNode, k);
    var p := PositionOf(list, pointers, nextNode, k);
    ErasedNode(list, pointers, nextNode, k);
  }

  /** Putting the erased node itself back in front keeps the pointers right. */
  lemma ErasedNode(list: seq<Node>, pointers: map<Key, nat>, nextNode: nat, k: Key)
    requires k in pointers && Linked(list, pointers, nextNode) && Linked(Erase(list, pointers[k]), pointers - {k}, nextNode)
    ensures Linked([Node(pointers[k], k)] + Erase(list, pointers[k]), pointers, nextNode)
  {
    hide InList, Without;
    var p := PositionOf(list, pointers, nextNode, k);
    WithoutIs(list, p);
    var rest := Erase(list, pointers[k]);
    assert rest == Without(list, p);
    forall q | q in pointers ensures InList([Node(pointers[k], k)] + rest, q) {
      ListedPush(rest, Node(pointers[k], k), q);
    }
  }

  // ---------------------------------------------------------------------------
  // Consistency
  // ---------------------------------------------------------------------------

  ghost function LruPointers<V>(entries: map<Key, Entry<V>>): map<Key, nat> {
    map k | k in entries :: entries[k].lruNode
  }

  ghost function InsertionPointers<V>(entries: map<Key, Entry<V>>): map<Key, nat> {
    map k | k in entries :: entries[k].insertionNode
  }

  /** The sizes of the entries, counted along a list of their keys. */
  ghost function Total<V>(list: seq<Node>, entries: map<Key, Entry<V>>): nat {
    if list == [] then 0
    else Total(list[1..], entries) + (if list[0].key in entries then entries[list[0].key].size else 0)
  }

  ghost predicate Consistent<V>(s: State<V>) {
    && Linked(s.lru, LruPointers(s.entries), s.nextNode)
    && Linked(s.insertion, InsertionPointers(s.entries), s.nextNode)
    && s.bytes == Total(s.insertion, s.entries) % TWO64
  }

  lemma {:induction false} TotalConcat<V>(a: seq<Node>, b: seq<Node>, entries: map<Key, Entry<V>>)
    ensures Total(a + b, entries) == Total(a, entries) + Total(b, entries)
  {
    if a == [] {
      assert a + b == b;
    } else {
      assert (a + b)[1..] == a[1..] + b;
      TotalConcat(a[1..], b, entries);
    }
  }

  lemma {:induction false} TotalFrame<V>(list: seq<Node>, entries: map<Key, Entry<V>>, entries': map<Key, Entry<V>>)
    requires forall i :: 0 <= i < |list| ==>
               (list[i].key in entries <==> list[i].key in entries')
               && (list[i].key in entries ==> entries[list[i].key].size == entries'[list[i].key].size)
    ensures Total(list, entries) == Total(list, entries')
  {
    if list != [] {
      TotalFrame(list[1..], entries, entries');
    }
  }

  // ---------------------------------------------------------------------------
  // The operations
  // ---------------------------------------------------------------------------

  /** `remove_helper`, and `remove` of a key that is present. */
  function Removed<V>(s: State<V>, k: Key): State<V>
    requires k in s.entries
  {
    var e := s.entries[k];
    s.(bytes := Sub64(s.bytes, e.size), lru := Erase(s.lru, e.lruNode), insertion := Erase(s.insertion, e.insertionNode),
       entries := s.entries - {k})
  }

  predicate Full<V>(s: State<V>, o: Options, size: uint64) {
    Add64(s.bytes, size) > o.maxSizeBytes
  }

  function OldestInserted<V>(s: State<V>): Key
    requires s.insertion != []
  {
    s.insertion[|s.insertion| - 1].key
  }

  function LeastRecentlyUsed<V>(s: State<V>): Key
    requires s.lru != []
  {
    s.lru[|s.lru| - 1].key
  }

  /** The first eviction loop of `put`: expired entries, oldest insertion first. */
  ghost function EvictExpired<V>(s: State<V>, o: Options, clock: nat -> int, size: uint64): (r: State<V>)
    requires Consistent(s)
    ensures Consistent(r)
    decreases |s.insertion|
  {
    if s.insertion == [] || !Full(s, o, size) then s
    else
      var k := OldestInserted(s);
      EndsPresent(s);
      var read := s.(ticks := s.ticks + 1);
      if s.entries[k].expiry > clock(s.ticks) then read
      else
        RemovedConsistent(read, k);
        EvictExpired(Removed(read, k), o, clock, size)
  }

  /** The second eviction loop of `put`: least recently used first. */
  ghost function EvictLru<V>(s: State<V>, o: Options, size: uint64): (r: State<V>)
    requires Consistent(s)
    ensures Consistent(r)
    ensures r.lru == [] || !Full(r, o, size)
    decreases |s.lru|
  {
    if s.lru == [] || !Full(s, o, size) then s
    else
      var k := LeastRecentlyUsed(s);
      EndsPresent(s);
      RemovedConsistent(s, k);
      EvictLru(Removed(s, k), o, size)
  }

  function Inserted<V>(s: State<V>, o: Options, clock: nat -> int, k: Key, value: V, size: uint64): State<V> {
    State(
      s.entries[k := Entry(value, size, clock(s.ticks) + o.ttlSeconds, s.nextNode, s.nextNode + 1)],
      [Node(s.nextNode, k)] + s.lru, [Node(s.nextNode + 1, k)] + s.insertion,
      Add64(s.bytes, size), s.nextNode + 2, s.ticks + 1)
  }

  /** The state from which `put` starts evicting: without the entry it replaces. */
  ghost function Cleared<V>(s: State<V>, k: Key): (r: State<V>)
    requires Consistent(s)
    ensures Consistent(r) && k !in r.entries
  {
    if k in s.entries then
      RemovedConsistent(s, k);
      Removed(s, k)
    else s
  }

  ghost function Put<V>(s: State<V>, o: Options, clock: nat -> int, k: Key, value: V, size: uint64): (r: State<V>)
    requires Consistent(s)
    ensures Consistent(r)
    ensures size > o.maxSizeBytes ==> r == s
    ensures size <= o.maxSizeBytes ==> k in r.entries && r.entries[k].value == value && r.entries[k].size == size
  {
    if size > o.maxSizeBytes then s
    else
      var room := EvictLru(EvictExpired(Cleared(s, k), o, clock, size), o, size);
      StillAbsent(s, o, clock, k, size);
      InsertedConsistent(room, o, clock, k, value, size);
      Inserted(room, o, clock, k, value, size)
  }

  predicate Live<V>(s: State<V>, clock: nat -> int, k: Key) {
    k in s.entries && s.entries[k].expiry > clock(s.ticks)
  }

  /** `get`; an absent key is found out without reading the clock. */
  ghost function Get<V>(s: State<V>, clock: nat -> int, k: Key): (r: State<V>)
    requires Consistent(s)
    ensures Consistent(r) && r.entries == s.entries && r.insertion == s.insertion
    ensures k in s.entries && s.entries[k].expiry > clock(s.ticks) ==> r.lru != [] && r.lru[0].key == k
    ensures !(k in s.entries && s.entries[k].expiry > clock(s.ticks)) ==> r.lru == s.lru
  {
    if k !in s.entries then s
    else if !Live(s, clock, k) then s.(ticks := s.ticks + 1)
    else
      LinkedMove(s.lru, LruPointers(s.entries), s.nextNode, k);
      s.(lru := MoveToFront(s.lru, Node(s.entries[k].lruNode, k)), ticks := s.ticks + 1)
  }

  ghost function Remove<V>(s: State<V>, k: Key): (r: State<V>)
    requires Consistent(s)
    ensures Consistent(r) && r.entries == s.entries - {k}
  {
    if k in s.entries then RemovedConsistent(s, k); Removed(s, k) else s
  }

  lemma ReadConsistent<V>(s: State<V>)
    requires Consistent(s)
    ensures Consistent(s.(ticks := s.ticks + 1))
  {
  }

  /** The ends of both lists are keys of the map. */
  lemma EndsPresent<V>(s: State<V>)
    requires Consistent(s)
    ensures s.insertion != [] ==> OldestInserted(s) in s.entries
    ensures s.lru != [] ==> LeastRecentlyUsed(s) in s.entries
  {
  }

  lemma RemovedConsistent<V>(s: State<V>, k: Key)
    requires Consistent(s) && k in s.entries
    ensures Consistent(Removed(s, k))
    ensures |Removed(s, k).lru| < |s.lru| && |Removed(s, k).insertion| < |s.insertion|
    ensures Total(Removed(s, k).insertion, Removed(s, k).entries) == Total(s.insertion, s.entries) - s.entries[k].size
  {
    hide Linked, Total;
    var r := Removed(s, k);
    LinkedErase(s.lru, LruPointers(s.entries), s.nextNode, k);
    LinkedErase(s.insertion, InsertionPointers(s.entries), s.nextNode, k);
    assert LruPointers(r.entries) == LruPointers(s.entries) - {k};
    assert InsertionPointers(r.entries) == InsertionPointers(s.entries) - {k};
    var p := PositionOf(s.lru, LruPointers(s.entries), s.nextNode, k);
    var q := PositionOf(s.insertion, InsertionPointers(s.entries), s.nextNode, k);
    KeysDistinct(s.insertion, InsertionPointers(s.entries), s.nextNode);
    TotalRemoved(s.insertion, s.entries, k, q);
  }

  lemma TotalRemoved<V>(list: seq<Node>, entries: map<Key, Entry<V>>, k: Key, q: nat)
    requires k in entries && q < |list| && list[q].key == k
    requires forall i, j :: 0 <= i < j < |list| ==> list[i].key != list[j].key
    ensures Total(list[..q] + list[q + 1..], entries - {k}) == Total(list, entries) - entries[k].size
  {
    hide Total;
    TotalSplit(list, entries, q);
    TotalConcat(list[..q], list[q + 1..], entries - {k});
    TotalFrame(list[..q], entries, entries - {k});
    TotalFrame(list[q + 1..], entries, entries - {k});
  }

  lemma TotalSplit<V>(list: seq<Node>, entries: map<Key, Entry<V>>, q: nat)
    requires q < |list| && list[q].key in entries
    ensures Total(list, entries) == Total(list[..q], entries) + entries[list[q].key].size + Total(list[q + 1..], entries)
  {
    assert list == list[..q] + list[q..];
    TotalConcat(list[..q], list[q..], entries);
    assert list[q..][1..] == list[q + 1..];
  }

  lemma InsertedConsistent<V>(s: State<V>, o: Options, clock: nat -> int, k: Key, value: V, size: uint64)
    requires Consistent(s) && k !in s.entries
    ensures Consistent(Inserted(s, o, clock, k, value, size))
    ensures var r := Inserted(s, o, clock, k, value, size);
            Total(r.insertion, r.entries) == Total(s.insertion, s.entries) + size
  {
    hide Linked, Total;
    var r := Inserted(s, o, clock, k, value, size);
    LinkedPush(s.lru, LruPointers(s.entries), s.nextNode, k, s.nextNode, r.nextNode);
    LinkedPush(s.insertion, InsertionPointers(s.entries), s.nextNode, k, s.nextNode + 1, r.nextNode);
    assert LruPointers(r.entries) == LruPointers(s.entries)[k := s.nextNode];
    assert InsertionPointers(r.entries) == InsertionPointers(s.entries)[k := s.nextNode + 1];
    TotalInserted(s, r.entries[k], r.insertion[0]);
  }

  lemma TotalInserted<V>(s: State<V>, e: Entry<V>, n: Node)
    requires Consistent(s) && n.key !in s.entries
    ensures Total([n] + s.insertion, s.entries[n.key := e]) == Total(s.insertion, s.entries) + e.size
  {
    AbsentKeys(s, n.key);
    hide Consistent;
    assert ([n] + s.insertion)[1..] == s.insertion;
    TotalFrame(s.insertion, s.entries, s.entries[n.key := e]);
  }

  lemma AbsentKeys<V>(s: State<V>, k: Key)
    requires Consistent(s) && k !in s.entries
    ensures forall i :: 0 <= i < |s.insertion| ==> s.insertion[i].key in s.entries && s.insertion[i].key != k
  {
  }

  /** Some entries may be gone; the others are as they were. */
  ghost predicate Shrunk<V>(r: State<V>, s: State<V>) {
    r.entries.Keys <= s.entries.Keys && forall q :: q in r.entries ==> r.entries[q] == s.entries[q]
  }

  /** Neither loop brings a key back. */
  lemma StillAbsent<V>(s: State<V>, o: Options, clock: nat -> int, k: Key, size: uint64)
    requires Consistent(s)
    ensures k !in EvictLru(EvictExpired(Cleared(s, k), o, clock, size), o, size).entries
  {
    ExpiredShrinks(Cleared(s, k), o, clock, size);
    LruShrinks(EvictExpired(Cleared(s, k), o, clock, size), o, size);
  }

  lemma {:induction false} ExpiredShrinks<V>(s: State<V>, o: Options, clock: nat -> int, size: uint64)
    requires Consistent(s)
    ensures Shrunk(EvictExpired(s, o, clock, size), s)
    decreases |s.insertion|
  {
    hide Consistent;
    if s.insertion != [] && Full(s, o, size) {
      var k := OldestInserted(s);
      EndsPresent(s);
      if s.entries[k].expiry <= clock(s.ticks) {
        var read := s.(ticks := s.ticks + 1);
        ReadConsistent(s);
        RemovedConsistent(read, k);
        ExpiredShrinks(Removed(read, k), o, clock, size);
      }
    }
  }

  lemma {:induction false} LruShrinks<V>(s: State<V>, o: Options, size: uint64)
    requires Consistent(s)
    ensures Shrunk(EvictLru(s, o, size), s)
    decreases |s.lru|
  {
    hide Consistent;
    if s.lru != [] && Full(s, o, size) {
      var k := LeastRecentlyUsed(s);
      EndsPresent(s);
      RemovedConsistent(s, k);
      LruShrinks(Removed(s, k), o, size);
    }
  }
}
