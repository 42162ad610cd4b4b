/** The compile cache: a most-recently-used list and an index over the same entries, byte accounting,
    and reference-counted entries shared with program handles. */
module Cache {
  import opened Graph
  import opened Sequences

  /** An entry; `id` stands for the identity of the heap object. */
  datatype Entry<K> = Entry(id: nat, key: K, size: nat)

  /** The shared-pointer counts of all entries ever created, and the log of release-function calls. */
  datatype Heap = Heap(refs: map<nat, nat>, released: seq<nat>, next: nat)

  /** The cache, most recently used entry first. */
  datatype State<K> = State(maxBytes: nat, current: int, lru: seq<Entry<K>>, index: map<K, Entry<K>>,
                            hits: nat, misses: nat, evictions: nat, heap: Heap)

  function Empty<K>(maxBytes: nat): State<K> {
    State(maxBytes, 0, [], map[], 0, 0, 0, Heap(map[], [], 0))
  }

  // ----- the operations -----

  /** One shared pointer to the entry goes away; the last one releases the program. */
  function DropRef(h: Heap, id: nat): Heap {
    if id !in h.refs || h.refs[id] == 0 then h
    else
      h.(refs := h.refs[id := h.refs[id] - 1],
         released := if h.refs[id] == 1 then h.released + [id] else h.released)
  }

  function DropEach(h: Heap, ids: seq<nat>): Heap {
    if ids == [] then h else DropRef(DropEach(h, ids[..|ids| - 1]), ids[|ids| - 1])
  }

  function AddRef(h: Heap, id: nat): Heap {
    h.(refs := h.refs[id := (if id in h.refs then h.refs[id] else 0) + 1])
  }

  /** A new entry with the given number of pointers to it. */
  function Create(h: Heap, pointers: nat): Heap {
    h.(refs := h.refs[h.next := pointers], next := h.next + 1)
  }

  function Ids<K>(lru: seq<Entry<K>>): seq<nat> {
    seq(|lru|, i requires 0 <= i < |lru| => lru[i].id)
  }

  /** The list without its entry for key k. */
  function Without<K(==)>(lru: seq<Entry<K>>, k: K): seq<Entry<K>> {
    if lru == [] then []
    else
      var rest := Without(lru[..|lru| - 1], k);
      if lru[|lru| - 1].key == k then rest else rest + [lru[|lru| - 1]]
  }

  /** First half of a lookup, under the shared lock: only counts. */
  function Look<K(==)>(s: State<K>, k: K): State<K> {
    if k in s.index then s.(hits := s.hits + 1) else s.(misses := s.misses + 1)
  }

  /** Second half, under the exclusive lock: finds the entry again, moves it to the front and shares
      it; null if it is gone by now. */
  function Promote<K(==)>(s: State<K>, k: K): State<K> {
    if k in s.index
    then s.(lru := [s.index[k]] + Without(s.lru, k), heap := AddRef(s.heap, s.index[k].id))
    else s
  }

  /** Removes the entry that a new entry for k replaces: first its list node, then its index node. */
  function Replace<K(==)>(s: State<K>, k: K): State<K> {
    if k !in s.index then s
    else
      var e := s.index[k];
      s.(current := s.current - e.size, lru := Without(s.lru, k), index := s.index - {k},
         heap := DropRef(DropRef(s.heap, e.id), e.id))
  }

  function Evict<K(==)>(s: State<K>): State<K>
    requires s.lru != []
  {
    var e := s.lru[|s.lru| - 1];
    s.(current := s.current - e.size, index := s.index - {e.key}, lru := s.lru[..|s.lru| - 1],
       heap := DropRef(DropRef(s.heap, e.id), e.id), evictions := s.evictions + 1)
  }

  function EvictUntil<K(==)>(s: State<K>, size: nat): State<K>
    decreases |s.lru|
  {
    if s.current + size > s.maxBytes && s.lru != [] then EvictUntil(Evict(s), size) else s
  }

  /** The list, the index and the caller each keep a pointer to the new entry. */
  function Insert<K(==)>(s: State<K>, k: K, size: nat): State<K> {
    var e := Entry(s.heap.next, k, size);
    s.(lru := [e] + s.lru, index := s.index[k := e], current := s.current + size, heap := Create(s.heap, 3))
  }

  function Put<K(==)>(s: State<K>, k: K, size: nat): State<K> {
    Insert(EvictUntil(Replace(s, k), size), k, size)
  }

  function Flush<K>(s: State<K>): State<K> {
    s.(lru := [], index := map[], current := 0, heap := DropEach(DropEach(s.heap, Ids(s.lru)), Ids(s.lru)))
  }

  // ----- reference counts -----

  /** `owners` lists every live pointer.  Counts agree with it, and exactly the entries that nobody
      points to any more have been released, each once. */
  ghost predicate RefsOk(h: Heap, owners: multiset<nat>) {
    && (forall id :: id in h.refs <==> 0 <= id < h.next)
    && (forall id: nat :: id in owners ==> id < h.next)
    && (forall id: nat :: id < h.next ==> h.refs[id] == owners[id])
    && NoDuplicates(h.released)
    && (forall id: nat :: id in h.released <==> id < h.next && owners[id] == 0)
  }

  lemma DropRefOk(h: Heap, owners: multiset<nat>, id: nat)
    requires RefsOk(h, owners) && id in owners
    ensures RefsOk(DropRef(h, id), owners - multiset{id}) && DropRef(h, id).next == h.next
  {
    var t := DropRef(h, id);
    if h.refs[id] == 1 {
      assert id !in h.released;
      forall x: nat ensures x in t.released <==> x in h.released || x == id {}
    }
  }

  lemma DropTwiceOk(h: Heap, owners: multiset<nat>, rest: multiset<nat>, id: nat)
    requires RefsOk(h, owners) && owners == rest + multiset{id} + multiset{id}
    ensures RefsOk(DropRef(DropRef(h, id), id), rest) && DropRef(DropRef(h, id), id).next == h.next
  {
    DropRefOk(h, owners, id);
    DropRefOk(DropRef(h, id), owners - multiset{id}, id);
    assert owners - multiset{id} - multiset{id} == rest;
  }

  lemma {:induction false} DropEachOk(h: Heap, owners: multiset<nat>, ids: seq<nat>)
    requires RefsOk(h, owners) && multiset(ids) <= owners
    ensures RefsOk(DropEach(h, ids), owners - multiset(ids)) && DropEach(h, ids).next == h.next
  {
    if ids != [] {
      var pre, id := ids[..|ids| - 1], ids[|ids| - 1];
      assert ids == pre + [id];
      assert multiset(ids) == multiset(pre) + multiset{id};
      DropEachOk(h, owners, pre);
      DropRefOk(DropEach(h, pre), owners - multiset(pre), id);
      assert owners - multiset(pre) - multiset{id} == owners - multiset(ids);
    }
  }

  lemma AddRefOk(h: Heap, owners: multiset<nat>, id: nat)
    requires RefsOk(h, owners) && id in owners
    ensures RefsOk(AddRef(h, id), owners + multiset{id})
  {
  }

  lemma CreateOk(h: Heap, owners: multiset<nat>)
    requires RefsOk(h, owners)
    ensures RefsOk(Create(h, 3), owners + multiset{h.next, h.next, h.next})
  {
  }

  // ----- the list and the index -----

  /** List and index describe the same entries, one per key. */
  ghost predicate SameEntries<K>(lru: seq<Entry<K>>, index: map<K, Entry<K>>) {
    && DistinctKeys(lru)
    && (forall i :: 0 <= i < |lru| ==> lru[i].key in index && index[lru[i].key] == lru[i])
    && (forall k <- index :: index[k] in lru && index[k].key == k)
  }

  ghost predicate DistinctKeys<K>(lru: seq<Entry<K>>) {
    forall i, j :: 0 <= i < j < |lru| ==> lru[i].key != lru[j].key
  }

  function Total<K>(lru: seq<Entry<K>>): nat {
    if lru == [] then 0 else Total(lru[..|lru| - 1]) + lru[|lru| - 1].size
  }

  /** The list without position p. */
  function Cutout<K>(lru: seq<Entry<K>>, p: nat): seq<Entry<K>>
    requires p < |lru|
  {
    lru[..p] + lru[p + 1..]
  }

  /** Removing a key takes out one entry and keeps the order of the others. */
  lemma {:induction false} WithoutIsCutout<K>(lru: seq<Entry<K>>, k: K, p: nat)
    requires p < |lru| && lru[p].key == k && DistinctKeys(lru)
    ensures Without(lru, k) == Cutout(lru, p)
  {
    var m := |lru| - 1;
    if p == m {
      WithoutNothing(lru[..m], k);
    } else {
      WithoutIsCutout(lru[..m], k, p);
      assert Cutout(lru, p) == Cutout(lru[..m], p) + [lru[m]];
    }
  }

  lemma {:induction false} WithoutNothing<K>(lru: seq<Entry<K>>, k: K)
    requires forall i :: 0 <= i < |lru| ==> lru[i].key != k
    ensures Without(lru, k) == lru
  {
    if lru != [] { WithoutNothing(lru[..|lru| - 1], k); }
  }

  lemma {:induction false} CutoutTotal<K>(lru: seq<Entry<K>>, p: nat)
    requires p < |lru|
    ensures Total(Cutout(lru, p)) + lru[p].size == Total(lru)
  {
    var m := |lru| - 1;
    if p == m {
      assert Cutout(lru, p) == lru[..m];
    } else {
      CutoutTotal(lru[..m], p);
      assert Cutout(lru, p)[..m - 1] == Cutout(lru[..m], p);
    }
  }

  lemma {:induction false} TotalOfCons<K>(e: Entry<K>, lru: seq<Entry<K>>)
    ensures Total([e] + lru) == e.size + Total(lru)
  {
    if lru == [] {
      assert [e] + lru == [e] && [e][..0] == [];
    } else {
      var m := |lru| - 1;
      assert ([e] + lru)[..m + 1] == [e] + lru[..m];
      TotalOfCons(e, lru[..m]);
    }
  }

  lemma CutoutSame<K>(lru: seq<Entry<K>>, index: map<K, Entry<K>>, p: nat)
    requires SameEntries(lru, index) && p < |lru|
    ensures SameEntries(Cutout(lru, p), index - {lru[p].key})
  {
    var t := Cutout(lru, p);
    forall i | 0 <= i < |t| ensures t[i] == lru[if i < p then i else i + 1] {}
    var rest := index - {lru[p].key};
    forall k <- rest ensures rest[k] in t && rest[k].key == k {
      assert index[k] in lru;
      var i :| 0 <= i < |lru| && lru[i] == index[k];
      assert t[if i < p then i else i - 1] == lru[i];
    }
  }

  lemma ConsSame<K>(e: Entry<K>, lru: seq<Entry<K>>, index: map<K, Entry<K>>)
    requires SameEntries(lru, index) && e.key !in index
    ensures SameEntries([e] + lru, index[e.key := e])
  {
    var t, more := [e] + lru, index[e.key := e];
    forall i | 0 <= i < |t| ensures t[i] == if i == 0 then e else lru[i - 1] {}
    forall k <- more ensures more[k] in t && more[k].key == k {
      if k == e.key { assert t[0] == e; } else { assert index[k] in lru; }
    }
  }

  /** The pointers held by the list, by the index, and by program handles. */
  ghost function Owners<K>(lru: seq<Entry<K>>, held: multiset<nat>): multiset<nat> {
    multiset(Ids(lru)) + multiset(Ids(lru)) + held
  }

  lemma OwnersOfCutout<K>(lru: seq<Entry<K>>, p: nat, held: multiset<nat>)
    requires p < |lru|
    ensures Owners(lru, held) == Owners(Cutout(lru, p), held) + multiset{lru[p].id} + multiset{lru[p].id}
  {
    var a, e, b := Ids(lru)[..p], lru[p].id, Ids(lru)[p + 1..];
    assert Ids(lru) == a + [e] + b;
    assert Ids(Cutout(lru, p)) == a + b;
  }

  lemma OwnersOfCons<K>(e: Entry<K>, lru: seq<Entry<K>>, held: multiset<nat>)
    ensures Owners([e] + lru, held) == Owners(lru, held) + multiset{e.id} + multiset{e.id}
  {
    assert Ids([e] + lru) == [e.id] + Ids(lru);
  }

  // ----- what every operation keeps -----

  ghost predicate Inv<K>(s: State<K>, held: multiset<nat>) {
    && SameEntries(s.lru, s.index)
    && s.current == Total(s.lru)
    && RefsOk(s.heap, Owners(s.lru, held))
  }

  /** Dropping the entry at position p from list and index, with its two pointers. */
  lemma UnlinkKeeps<K>(s: State<K>, held: multiset<nat>, p: nat, t: State<K>)
    requires Inv(s, held) && p < |s.lru|
    requires t.heap == DropRef(DropRef(s.heap, s.lru[p].id), s.lru[p].id)
    requires t.lru == Cutout(s.lru, p) && t.index == s.index - {s.lru[p].key}
    requires t.current == s.current - s.lru[p].size
    ensures Inv(t, held) && 0 <= t.current <= s.current && t.heap.next == s.heap.next
  {
    CutoutSame(s.lru, s.index, p);
    CutoutTotal(s.lru, p);
    OwnersOfCutout(s.lru, p, held);
    DropTwiceOk(s.heap, Owners(s.lru, held), Owners(t.lru, held), s.lru[p].id);
  }

  /** Where the entry for a key sits in the list. */
  lemma PositionOf<K>(s: State<K>, k: K) returns (p: nat)
    requires SameEntries(s.lru, s.index) && k in s.index
    ensures p < |s.lru| && s.lru[p] == s.index[k] && s.lru[p].key == k
    ensures Without(s.lru, k) == Cutout(s.lru, p)
  {
    assert s.index[k] in s.lru;
    p :| 0 <= p < |s.lru| && s.lru[p] == s.index[k];
    WithoutIsCutout(s.lru, k, p);
  }

  lemma ReplaceKeeps<K>(s: State<K>, held: multiset<nat>, k: K)
    requires Inv(s, held)
    ensures Inv(Replace(s, k), held) && k !in Replace(s, k).index
    ensures Replace(s, k).lru == Without(s.lru, k) && Replace(s, k).heap.next == s.heap.next
    ensures |Replace(s, k).lru| == |s.lru| - if k in s.index then 1 else 0
  {
    if k in s.index {
      var p := PositionOf(s, k);
      UnlinkKeeps(s, held, p, Replace(s, k));
    } else {
      WithoutNothing(s.lru, k);
    }
  }

  lemma EvictKeeps<K>(s: State<K>, held: multiset<nat>)
    requires Inv(s, held) && s.lru != []
    ensures Inv(Evict(s), held) && 0 <= Evict(s).current <= s.current && Evict(s).heap.next == s.heap.next
  {
    var p := |s.lru| - 1;
    assert Cutout(s.lru, p) == s.lru[..p];
    UnlinkKeeps(s, held, p, Evict(s));
  }

  /** s' is s with some entries taken off the old end, and that many evictions counted. */
  ghost predicate Shortened<K>(s: State<K>, s': State<K>) {
    && |s'.lru| <= |s.lru| && s'.lru == s.lru[..|s'.lru|] && s'.index.Keys <= s.index.Keys
    && s'.evictions == s.evictions + |s.lru| - |s'.lru|
    && s'.maxBytes == s.maxBytes && s'.heap.next == s.heap.next && s'.hits == s.hits && s'.misses == s.misses
  }

  lemma {:induction false} EvictUntilInv<K>(s: State<K>, held: multiset<nat>, size: nat)
    requires Inv(s, held)
    ensures Inv(EvictUntil(s, size), held)
    decreases |s.lru|
  {
    if s.current + size > s.maxBytes && s.lru != [] {
      EvictKeeps(s, held);
      EvictUntilInv(Evict(s), held, size);
    }
  }

  /** Eviction takes entries off the old end only, and no more of them than the new entry needs. */
  lemma {:induction false} EvictUntilShape<K>(s: State<K>, size: nat)
    requires s.current == Total(s.lru)
    ensures var t := EvictUntil(s, size);
            && Shortened(s, t)
            && (t.current + size <= t.maxBytes || t.lru == [])
            && (|t.lru| < |s.lru| ==> Total(s.lru[..|t.lru| + 1]) + size > s.maxBytes)
    decreases |s.lru|
  {
    if s.current + size > s.maxBytes && s.lru != [] {
      var a, t := Evict(s), EvictUntil(s, size);
      EvictUntilShape(a, size);
      assert a.lru[..|t.lru|] == s.lru[..|t.lru|];
      if |t.lru| < |a.lru| {
        assert a.lru[..|t.lru| + 1] == s.lru[..|t.lru| + 1];
      } else {
        assert s.lru[..|t.lru| + 1] == s.lru;
      }
    }
  }

  lemma InsertRefs<K>(h: Heap, lru: seq<Entry<K>>, held: multiset<nat>, e: Entry<K>)
    requires RefsOk(h, Owners(lru, held)) && e.id == h.next
    ensures RefsOk(Create(h, 3), Owners([e] + lru, held + multiset{e.id}))
  {
    OwnersOfCons(e, lru, held + multiset{e.id});
    CreateOk(h, Owners(lru, held));
    assert Owners([e] + lru, held + multiset{e.id}) == Owners(lru, held) + multiset{e.id, e.id, e.id};
  }

  lemma InsertKeeps<K>(s: State<K>, held: multiset<nat>, k: K, size: nat)
    requires Inv(s, held) && k !in s.index
    ensures Inv(Insert(s, k, size), held + multiset{s.heap.next})
  {
    var e := Entry(s.heap.next, k, size);
    TotalOfCons(e, s.lru);
    ConsSame(e, s.lru, s.index);
    InsertRefs(s.heap, s.lru, held, e);
  }

  /** t is s after storing an entry for k: the new entry in front, behind it what replacement and
      eviction left of the list, and the evictions counted. */
  ghost predicate Stored<K>(s: State<K>, t: State<K>, k: K, size: nat) {
    && t.lru != [] && t.lru[0] == Entry(s.heap.next, k, size)
    && |t.lru| - 1 <= |Without(s.lru, k)| && t.lru[1..] == Without(s.lru, k)[..|t.lru| - 1]
    && t.evictions == s.evictions + |Without(s.lru, k)| - (|t.lru| - 1)
    && |Without(s.lru, k)| == |s.lru| - (if k in s.index then 1 else 0)
    && t.hits == s.hits && t.misses == s.misses && t.maxBytes == s.maxBytes && t.heap.next == s.heap.next + 1
  }

  /** a is s without its old entry for k, all counters unchanged. */
  ghost predicate Removed<K>(s: State<K>, a: State<K>, k: K) {
    && a.lru == Without(s.lru, k) && |a.lru| == |s.lru| - (if k in s.index then 1 else 0)
    && a.heap.next == s.heap.next && a.evictions == s.evictions && a.hits == s.hits && a.misses == s.misses
    && a.maxBytes == s.maxBytes
  }

  lemma StoredFrom<K>(s: State<K>, a: State<K>, b: State<K>, k: K, size: nat)
    requires Removed(s, a, k) && Shortened(a, b)
    ensures Stored(s, Insert(b, k, size), k, size)
  {
    var e := Entry(b.heap.next, k, size);
    assert ([e] + b.lru)[1..] == b.lru;
  }

  lemma PutKeeps<K>(s: State<K>, held: multiset<nat>, k: K, size: nat)
    requires Inv(s, held)
    ensures Inv(Put(s, k, size), held + multiset{s.heap.next}) && Stored(s, Put(s, k, size), k, size)
    ensures var t := Put(s, k, size); t.current <= t.maxBytes || |t.lru| == 1
  {
    ReplaceKeeps(s, held, k);
    EvictionKeeps(Replace(s, k), held, size);
    StoredFrom(s, Replace(s, k), EvictUntil(Replace(s, k), size), k, size);
    InsertKeeps(EvictUntil(Replace(s, k), size), held, k, size);
  }

  lemma EvictionKeeps<K>(a: State<K>, held: multiset<nat>, size: nat)
    requires Inv(a, held)
    ensures Inv(EvictUntil(a, size), held) && Shortened(a, EvictUntil(a, size))
    ensures var b := EvictUntil(a, size); b.current + size <= b.maxBytes || b.lru == []
  {
    EvictUntilInv(a, held, size);
    EvictUntilShape(a, size);
  }

  lemma PromoteRefs<K>(h: Heap, lru: seq<Entry<K>>, p: nat, held: multiset<nat>)
    requires p < |lru| && RefsOk(h, Owners(lru, held))
    ensures RefsOk(AddRef(h, lru[p].id), Owners([lru[p]] + Cutout(lru, p), held + multiset{lru[p].id}))
  {
    var e, rest := lru[p], Cutout(lru, p);
    OwnersOfCutout(lru, p, held);
    OwnersOfCons(e, rest, held + multiset{e.id});
    AddRefOk(h, Owners(lru, held), e.id);
    assert Owners(rest, held + multiset{e.id}) + multiset{e.id} + multiset{e.id} == Owners(lru, held) + multiset{e.id};
  }

  lemma PromoteKeeps<K>(s: State<K>, held: multiset<nat>, k: K)
    requires Inv(s, held) && k in s.index
    ensures Inv(Promote(s, k), held + multiset{s.index[k].id})
    ensures |Promote(s, k).lru| == |s.lru|
  {
    var p := PositionOf(s, k);
    var e, rest := s.lru[p], Cutout(s.lru, p);
    CutoutSame(s.lru, s.index, p);
    ConsSame(e, rest, s.index - {k});
    assert (s.index - {k})[k := e] == s.index;
    CutoutTotal(s.lru, p);
    TotalOfCons(e, rest);
    PromoteRefs(s.heap, s.lru, p, held);
  }

  lemma FlushRefs(h: Heap, ids: seq<nat>, held: multiset<nat>)
    requires RefsOk(h, multiset(ids) + multiset(ids) + held)
    ensures var t := DropEach(DropEach(h, ids), ids); RefsOk(t, held) && t.next == h.next
  {
    var m := multiset(ids);
    DropEachOk(h, m + m + held, ids);
    assert m + m + held - m == m + held;
    DropEachOk(DropEach(h, ids), m + held, ids);
    assert m + held - m == held;
  }

  lemma FlushKeeps<K>(s: State<K>, held: multiset<nat>)
    requires Inv(s, held)
    ensures Inv(Flush(s), held) && Flush(s).heap.next == s.heap.next
  {
    FlushRefs(s.heap, Ids(s.lru), held);
    assert Ids<K>([]) == [];
    assert Owners<K>([], held) == held;
  }

  /** The cache object; each method is one critical section. */
  class CompileCache<K(==)> {
    const maxBytes: nat
    var currentBytes: int
    var lru: seq<Entry<K>>
    var index: map<K, Entry<K>>
    var hits: nat
    var misses: nat
    var evictions: nat
    var heap: Heap

    function Now(): State<K>
      reads this
    {
      State(maxBytes, currentBytes, lru, index, hits, misses, evictions, heap)
    }

    constructor (limit: nat)
      ensures Now() == Empty(limit) && Inv(Now(), multiset{})
    {
      maxBytes, currentBytes, lru, index := limit, 0, [], map[];
      hits, misses, evictions, heap := 0, 0, 0, Heap(map[], [], 0);
      new;
      assert Ids<K>([]) == [];
    }

    /** The first critical section of get. */
    method FindShared(key: K) returns (found: bool)
      modifies this`hits, this`misses
      ensures Now() == Look(old(Now()), key)
      ensures found <==> key in old(index)
    {
      found := key in index;
      if found { hits := hits + 1; } else { misses := misses + 1; }
    }

    /** The second critical section of get. */
    method FindExclusive(key: K) returns (r: Option<Entry<K>>)
      modifies this`lru, this`heap
      ensures Now() == Promote(old(Now()), key)
      ensures r == if key in index then Some(index[key]) else None
    {
      if key !in index { return None; }
      var e := index[key];
      lru := [e] + Without(lru, key);
      heap := AddRef(heap, e.id);
      return Some(e);
    }

    method EvictLru()
      modifies this`currentBytes, this`lru, this`index, this`heap, this`evictions
      ensures Now() == if old(lru) == [] then old(Now()) else Evict(old(Now()))
    {
      if lru == [] { return; }
      var victim := lru[|lru| - 1];
      currentBytes := currentBytes - victim.size;
      index := index - {victim.key};
      heap := DropRef(heap, victim.id);
      lru := lru[..|lru| - 1];
      heap := DropRef(heap, victim.id);
      evictions := evictions + 1;
    }

    /** Stores an entry and returns it; the caller gets a pointer of its own. */
    method Add(key: K, size: nat) returns (e: Entry<K>)
      modifies this
      ensures Now() == Put(old(Now()), key, size)
      ensures lru != [] && e == lru[0]
    {
      ghost var cleared := Replace(Now(), key);
      if key in index {
        var was := index[key];
        currentBytes := currentBytes - was.size;
        lru := Without(lru, key);
        heap := DropRef(heap, was.id);
        index := index - {key};
        heap := DropRef(heap, was.id);
      }
      while currentBytes + size > maxBytes && lru != []
        invariant EvictUntil(Now(), size) == EvictUntil(cleared, size)
        decreases |lru|
      {
        EvictLru();
      }
      e := Entry(heap.next, key, size);
      heap := Create(heap, 3);
      lru := [e] + lru;
      index := index[key := e];
      currentBytes := currentBytes + size;
    }

    method DropList(ids: seq<nat>)
      modifies this`heap
      ensures heap == DropEach(old(heap), ids)
    {
      for i := 0 to |ids|
        invariant heap == DropEach(old(heap), ids[..i])
      {
        assert ids[..i + 1][..i] == ids[..i];
        heap := DropRef(heap, ids[i]);
      }
      assert ids[..|ids|] == ids;
    }

    /** Empties the list, then the index; each node drops its pointer. */
    method Clear()
      modifies this`currentBytes, this`lru, this`index, this`heap
      ensures Now() == Flush(old(Now()))
    {
      var ids := Ids(lru);
      lru := [];
      DropList(ids);
      index := map[];
      DropList(ids);
      currentBytes := 0;
    }
  }
}
