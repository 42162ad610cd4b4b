/** Whole runs of the compile cache: any interleaving of two-phase lookups, stores, handle releases
    and flushes by any number of threads. */
module CacheRuns {
  import opened Graph
  import opened Sequences
  import opened Cache

  /** The atomic steps.  A lookup is two of them: Lookup under the shared lock and, if the key was
      found, some time later Finish under the exclusive lock. */
  datatype Event<K> =
    | Lookup(key: K)
    | Finish(key: K)
    | Store(key: K, size: nat)
    | Release(id: nat)
    | FlushAll

  /** `held` are the entries that program handles point to, once per handle; `pending` are the keys of
      lookups between their two halves. */
  datatype System<K> = System(cache: State<K>, held: multiset<nat>, pending: multiset<K>)

  function Step<K(==)>(s: System<K>, e: Event<K>): System<K> {
    var c := s.cache;
    match e
    case Lookup(k) =>
      s.(cache := Look(c, k), pending := if k in c.index then s.pending + multiset{k} else s.pending)
    case Finish(k) =>
      if k !in s.pending then s
      else
        System(Promote(c, k), if k in c.index then s.held + multiset{c.index[k].id} else s.held,
               s.pending - multiset{k})
    case Store(k, size) => s.(cache := Put(c, k, size), held := s.held + multiset{c.heap.next})
    case Release(id) =>
      if id !in s.held then s
      else s.(cache := c.(heap := DropRef(c.heap, id)), held := s.held - multiset{id})
    case FlushAll => s.(cache := Flush(c))
  }

  function Run<K(==)>(max: nat, evs: seq<Event<K>>): System<K> {
    if evs == [] then System(Empty(max), multiset{}, multiset{})
    else Step(Run(max, evs[..|evs| - 1]), evs[|evs| - 1])
  }

  // ----- the invariant over runs -----

  ghost predicate SystemInv<K>(s: System<K>, max: nat) {
    && Inv(s.cache, s.held) && s.cache.maxBytes == max
    && (s.cache.current <= max || |s.cache.lru| == 1)
  }

  lemma ReleaseKeeps<K>(c: State<K>, held: multiset<nat>, id: nat)
    requires Inv(c, held) && id in held
    ensures Inv(c.(heap := DropRef(c.heap, id)), held - multiset{id})
  {
    var o := Owners(c.lru, held);
    DropRefOk(c.heap, o, id);
    assert o - multiset{id} == Owners(c.lru, held - multiset{id});
  }

  lemma StepKeeps<K>(s: System<K>, max: nat, e: Event<K>)
    requires SystemInv(s, max)
    ensures SystemInv(Step(s, e), max)
  {
    var c := s.cache;
    match e
    case Lookup(k) =>
    case Finish(k) =>
      if k in s.pending && k in c.index { PromoteKeeps(c, s.held, k); }
    case Store(k, size) => StoreKeeps(s, max, k, size);
    case Release(id) => if id in s.held { ReleaseKeeps(c, s.held, id); }
    case FlushAll => FlushKeeps(c, s.held);
  }

  lemma StoreKeeps<K>(s: System<K>, max: nat, k: K, size: nat)
    requires SystemInv(s, max)
    ensures SystemInv(Step(s, Store(k, size)), max)
    ensures Step(s, Store(k, size)).cache.heap.next == s.cache.heap.next + 1
  {
    PutKeeps(s.cache, s.held, k, size);
  }

  /** After every run: list and index describe the same entries, the byte count is the sum of the live
      sizes and within the limit unless exactly one entry is live, and counts match pointers. */
  lemma {:induction false} RunKeeps<K>(max: nat, evs: seq<Event<K>>)
    ensures SystemInv(Run(max, evs), max)
  {
    if evs == [] {
      assert Ids<K>([]) == [];
    } else {
      RunKeeps(max, evs[..|evs| - 1]);
      StepKeeps(Run(max, evs[..|evs| - 1]), max, evs[|evs| - 1]);
    }
  }

  /** A program is released at most once, and it has been released exactly when neither the cache nor
      any handle points to it any more: never earlier, and never forgotten. */
  lemma ReleasedExactlyWhenUnreferenced<K>(max: nat, evs: seq<Event<K>>, id: nat)
    ensures var s := Run(max, evs);
            && NoDuplicates(s.cache.heap.released)
            && (id in s.cache.heap.released <==>
                  id < s.cache.heap.next && id !in s.held && forall e <- s.cache.lru :: e.id != id)
  {
    RunKeeps(max, evs);
    var s := Run(max, evs);
    var lru := s.cache.lru;
    assert forall i :: 0 <= i < |lru| ==> Ids(lru)[i] == lru[i].id;
    assert id in multiset(Ids(lru)) <==> exists e :: e in lru && e.id == id by {
      if id in multiset(Ids(lru)) {
        var i :| 0 <= i < |lru| && Ids(lru)[i] == id;
        assert lru[i] in lru;
      }
      if e :| e in lru && e.id == id {
        var i :| 0 <= i < |lru| && lru[i] == e;
        assert Ids(lru)[i] in Ids(lru);
      }
    }
  }

  // ----- what a lookup returns -----

  function Puts<K>(evs: seq<Event<K>>): nat {
    if evs == [] then 0 else Puts(evs[..|evs| - 1]) + if evs[|evs| - 1].Store? then 1 else 0
  }

  /** The entry created by the latest store for k, entries being numbered in store order. */
  function LastPut<K(==)>(evs: seq<Event<K>>, k: K): Option<nat> {
    if evs == [] then None
    else
      var pre, e := evs[..|evs| - 1], evs[|evs| - 1];
      if e.Store? && e.key == k then Some(Puts(pre)) else LastPut(pre, k)
  }

  lemma StepNumbers<K>(s: System<K>, max: nat, e: Event<K>)
    requires SystemInv(s, max)
    ensures Step(s, e).cache.heap.next == s.cache.heap.next + if e.Store? then 1 else 0
  {
    if e.Store? {
      StoreKeeps(s, max, e.key, e.size);
    } else if e.FlushAll? {
      FlushKeeps(s.cache, s.held);
    } else {
      OtherNumbers(s, e);
    }
  }

  lemma OtherNumbers<K>(s: System<K>, e: Event<K>)
    requires !e.Store? && !e.FlushAll?
    ensures Step(s, e).cache.heap.next == s.cache.heap.next
  {
  }

  lemma {:induction false} NextIsPuts<K>(max: nat, evs: seq<Event<K>>)
    ensures Run(max, evs).cache.heap.next == Puts(evs)
  {
    if evs != [] {
      var pre := evs[..|evs| - 1];
      NextIsPuts(max, pre);
      RunKeeps(max, pre);
      StepNumbers(Run(max, pre), max, evs[|evs| - 1]);
    }
  }

  /** Entries of the list after a step were in the list before, except the one just stored. */
  lemma EntriesStay<K>(s: System<K>, max: nat, e: Event<K>, x: Entry<K>)
    requires SystemInv(s, max) && x in Step(s, e).cache.lru
    ensures x in s.cache.lru || (e.Store? && x == Entry(s.cache.heap.next, e.key, e.size))
    ensures e.Store? && x.key == e.key ==> x.id == s.cache.heap.next
  {
    var c := s.cache;
    match e
    case Store(k, size) =>
      PutKeeps(c, s.held, k, size);
      var t := Put(c, k, size);
      if x != t.lru[0] {
        assert x in t.lru[1..];
        var w := Without(c.lru, k);
        assert x in w;
        WithoutElements(c.lru, k, x);
      }
    case Finish(k) =>
      if k in s.pending && k in c.index && x != c.index[k] { WithoutElements(c.lru, k, x); }
    case _ =>
  }

  lemma {:induction false} WithoutElements<K>(lru: seq<Entry<K>>, k: K, x: Entry<K>)
    ensures x in Without(lru, k) <==> x in lru && x.key != k
  {
    if lru != [] {
      var pre, last := lru[..|lru| - 1], lru[|lru| - 1];
      assert lru == pre + [last];
      WithoutElements(pre, k, x);
    }
  }

  /** Every live entry is the latest one stored for its key. */
  lemma {:induction false} LiveIsLatest<K>(max: nat, evs: seq<Event<K>>, x: Entry<K>)
    requires x in Run(max, evs).cache.lru
    ensures LastPut(evs, x.key) == Some(x.id)
  {
    if evs != [] {
      var pre, e := evs[..|evs| - 1], evs[|evs| - 1];
      var s := Run(max, pre);
      RunKeeps(max, pre);
      NextIsPuts(max, pre);
      EntriesStay(s, max, e, x);
      if e.Store? && x.key == e.key {
      } else {
        LiveIsLatest(max, pre, x);
      }
    }
  }

  /** What the second half of a lookup for k returns at this point of the run. */
  function Answer<K(==)>(s: System<K>, k: K): Option<nat> {
    if k in s.cache.index then Some(s.cache.index[k].id) else None
  }

  /** A non-null answer is the entry of the latest store for the key, live and not released; the
      answer is null only if no entry for the key is live. */
  lemma AnswerIsLatestPut<K>(max: nat, evs: seq<Event<K>>, k: K)
    ensures var s := Run(max, evs);
            match Answer(s, k)
            case Some(id) => LastPut(evs, k) == Some(id) && id !in s.cache.heap.released
            case None => forall x <- s.cache.lru :: x.key != k
  {
    RunKeeps(max, evs);
    var s := Run(max, evs);
    if k in s.cache.index {
      var x := s.cache.index[k];
      LiveIsLatest(max, evs, x);
      ReleasedExactlyWhenUnreferenced(max, evs, x.id);
    }
  }

  // ----- recency -----

  /** The time at which an entry was last stored or handed out; 0 if never. */
  function LastUse<K(==)>(max: nat, evs: seq<Event<K>>, id: nat): nat {
    if evs == [] then 0
    else
      var pre, e := evs[..|evs| - 1], evs[|evs| - 1];
      var s := Run(max, pre);
      if e.Store? && Puts(pre) == id then |evs|
      else if e.Finish? && e.key in s.pending && Answer(s, e.key) == Some(id) then |evs|
      else LastUse(max, pre, id)
  }

  lemma {:induction false} LastUseBound<K>(max: nat, evs: seq<Event<K>>, id: nat)
    ensures LastUse(max, evs, id) <= |evs|
  {
    if evs != [] { LastUseBound(max, evs[..|evs| - 1], id); }
  }

  /** Entries are listed by strictly decreasing time of last use. */
  ghost predicate Recent<K>(lru: seq<Entry<K>>, use: nat -> nat) {
    forall i, j :: 0 <= i < j < |lru| ==> use(lru[i].id) > use(lru[j].id)
  }

  lemma RecentCutout<K>(lru: seq<Entry<K>>, p: nat, use: nat -> nat)
    requires Recent(lru, use) && p < |lru|
    ensures Recent(Cutout(lru, p), use)
    ensures forall x <- Cutout(lru, p) :: x.id != lru[p].id
  {
    var t := Cutout(lru, p);
    forall i | 0 <= i < |t| ensures t[i] == lru[if i < p then i else i + 1] {}
  }

  lemma RecentCons<K>(x: Entry<K>, lru: seq<Entry<K>>, use: nat -> nat, use': nat -> nat)
    requires Recent(lru, use) && forall y <- lru :: use'(y.id) == use(y.id) && use(y.id) < use'(x.id)
    ensures Recent([x] + lru, use')
  {
    var t := [x] + lru;
    forall i, j | 0 <= i < j < |t| ensures use'(t[i].id) > use'(t[j].id) {
      assert t[j] == lru[j - 1] && lru[j - 1] in lru;
      if i > 0 { assert t[i] == lru[i - 1] && lru[i - 1] in lru; }
    }
  }

  lemma IdsBelowNext<K>(c: State<K>, held: multiset<nat>, x: Entry<K>)
    requires Inv(c, held) && x in c.lru
    ensures x.id < c.heap.next
  {
    var i :| 0 <= i < |c.lru| && c.lru[i] == x;
    assert Ids(c.lru)[i] in multiset(Ids(c.lru));
    assert x.id in Owners(c.lru, held);
  }

  /** Taking the entry for k out of the list keeps the order. */
  lemma RecentWithout<K>(c: State<K>, k: K, use: nat -> nat)
    requires SameEntries(c.lru, c.index) && Recent(c.lru, use)
    ensures Recent(Without(c.lru, k), use)
  {
    if k in c.index {
      var p := PositionOf(c, k);
      RecentCutout(c.lru, p, use);
    } else {
      WithoutNothing(c.lru, k);
    }
  }

  lemma PutIsRecent<K>(c: State<K>, held: multiset<nat>, k: K, size: nat, use: nat -> nat, use': nat -> nat)
    requires Inv(c, held) && Recent(c.lru, use)
    requires forall id: nat :: id < c.heap.next ==> use'(id) == use(id) && use(id) < use'(c.heap.next)
    ensures Recent(Put(c, k, size).lru, use')
  {
    PutKeeps(c, held, k, size);
    RecentWithout(c, k, use);
    var t, w := Put(c, k, size), Without(c.lru, k);
    var rest := w[..|t.lru| - 1];
    forall y <- rest ensures y.id < c.heap.next {
      assert y in w;
      WithoutElements(c.lru, k, y);
      IdsBelowNext(c, held, y);
    }
    RecentCons(t.lru[0], rest, use, use');
    assert t.lru == [t.lru[0]] + rest;
  }

  lemma PromoteIsRecent<K>(c: State<K>, held: multiset<nat>, k: K, use: nat -> nat, use': nat -> nat)
    requires Inv(c, held) && Recent(c.lru, use) && k in c.index
    requires forall id: nat :: id != c.index[k].id ==> use'(id) == use(id)
    requires forall id: nat :: use(id) < use'(c.index[k].id)
    ensures Recent(Promote(c, k).lru, use')
  {
    var p := PositionOf(c, k);
    RecentCutout(c.lru, p, use);
    RecentCons(c.lru[p], Cutout(c.lru, p), use, use');
  }

  /** After every run the list is in strictly decreasing order of last use. */
  lemma {:induction false} ListIsRecent<K>(max: nat, evs: seq<Event<K>>)
    ensures Recent(Run(max, evs).cache.lru, id => LastUse(max, evs, id))
  {
    if evs != [] {
      var pre, e := evs[..|evs| - 1], evs[|evs| - 1];
      ListIsRecent(max, pre);
      RunKeeps(max, pre);
      match e
      case Store(k, size) => StoreIsRecent(max, evs);
      case Finish(k) => FinishIsRecent(max, evs);
      case _ => OtherIsRecent(max, evs);
    }
  }

  lemma OtherIsRecent<K>(max: nat, evs: seq<Event<K>>)
    requires evs != [] && !evs[|evs| - 1].Store? && !evs[|evs| - 1].Finish?
    requires Recent(Run(max, evs[..|evs| - 1]).cache.lru, id => LastUse(max, evs[..|evs| - 1], id))
    ensures Recent(Run(max, evs).cache.lru, id => LastUse(max, evs, id))
  {
    var pre := evs[..|evs| - 1];
    var use, use' := id => LastUse(max, pre, id), id => LastUse(max, evs, id);
    forall id: nat ensures use'(id) == use(id) { UseAfterOther(max, evs, id); }
    ListAfterOther(Run(max, pre), evs[|evs| - 1]);
    RecentSame(Run(max, pre).cache.lru, Run(max, evs).cache.lru, use, use');
  }

  lemma UseAfterOther<K>(max: nat, evs: seq<Event<K>>, id: nat)
    requires evs != [] && !evs[|evs| - 1].Store? && !evs[|evs| - 1].Finish?
    ensures LastUse(max, evs, id) == LastUse(max, evs[..|evs| - 1], id)
  {
  }

  lemma ListAfterOther<K>(s: System<K>, e: Event<K>)
    requires !e.Store? && !e.Finish?
    ensures Step(s, e).cache.lru == [] || Step(s, e).cache.lru == s.cache.lru
  {
  }

  lemma RecentSame<K>(lru: seq<Entry<K>>, lru': seq<Entry<K>>, use: nat -> nat, use': nat -> nat)
    requires Recent(lru, use) && (lru' == [] || lru' == lru) && forall id: nat :: use'(id) == use(id)
    ensures Recent(lru', use')
  {
  }

  lemma StoreIsRecent<K>(max: nat, evs: seq<Event<K>>)
    requires evs != [] && evs[|evs| - 1].Store?
    requires Recent(Run(max, evs[..|evs| - 1]).cache.lru, id => LastUse(max, evs[..|evs| - 1], id))
    ensures Recent(Run(max, evs).cache.lru, id => LastUse(max, evs, id))
  {
    var pre, e := evs[..|evs| - 1], evs[|evs| - 1];
    var s, use, use' := Run(max, pre), id => LastUse(max, pre, id), id => LastUse(max, evs, id);
    RunKeeps(max, pre);
    NextIsPuts(max, pre);
    forall id: nat | id < s.cache.heap.next ensures use'(id) == use(id) && use(id) < use'(s.cache.heap.next) {
      LastUseBound(max, pre, id);
    }
    PutIsRecent(s.cache, s.held, e.key, e.size, use, use');
  }

  lemma FinishIsRecent<K>(max: nat, evs: seq<Event<K>>)
    requires evs != [] && evs[|evs| - 1].Finish?
    requires Recent(Run(max, evs[..|evs| - 1]).cache.lru, id => LastUse(max, evs[..|evs| - 1], id))
    ensures Recent(Run(max, evs).cache.lru, id => LastUse(max, evs, id))
  {
    var pre, k := evs[..|evs| - 1], evs[|evs| - 1].key;
    var s, use, use' := Run(max, pre), id => LastUse(max, pre, id), id => LastUse(max, evs, id);
    RunKeeps(max, pre);
    assert Run(max, evs) == Step(s, evs[|evs| - 1]);
    if k in s.pending && k in s.cache.index {
      forall id: nat
        ensures use(id) <= |pre| && use'(id) == if id == s.cache.index[k].id then |evs| else use(id)
      {
        LastUseBound(max, pre, id);
        UseAfterFinish(max, evs, id);
      }
      PromoteIsRecent(s.cache, s.held, k, use, use');
    } else {
      forall id: nat ensures use'(id) == use(id) { UseAfterFinish(max, evs, id); }
      RecentSame(s.cache.lru, Run(max, evs).cache.lru, use, use');
    }
  }

  lemma UseAfterFinish<K>(max: nat, evs: seq<Event<K>>, id: nat)
    requires evs != [] && evs[|evs| - 1].Finish?
    ensures var pre, k := evs[..|evs| - 1], evs[|evs| - 1].key;
            LastUse(max, evs, id) ==
              if k in Run(max, pre).pending && Answer(Run(max, pre), k) == Some(id) then |evs|
              else LastUse(max, pre, id)
  {
  }

  /** A store evicts the least recently used entries: whatever it evicts was used before everything
      it keeps. */
  lemma EvictionTakesOldest<K>(max: nat, evs: seq<Event<K>>, k: K, size: nat, gone: Entry<K>, kept: Entry<K>)
    requires var c := Run(max, evs).cache; var t := Put(c, k, size);
             gone in c.lru && gone.key != k && gone !in t.lru && kept in c.lru && kept in t.lru
    ensures LastUse(max, evs, gone.id) < LastUse(max, evs, kept.id)
  {
    var s, use := Run(max, evs), (id: nat) => LastUse(max, evs, id);
    RunKeeps(max, evs);
    ListIsRecent(max, evs);
    PutTakesOldest(s.cache, s.held, k, size, use, gone, kept);
  }

  lemma PutTakesOldest<K>(c: State<K>, held: multiset<nat>, k: K, size: nat, use: nat -> nat, gone: Entry<K>,
                          kept: Entry<K>)
    requires Inv(c, held) && Recent(c.lru, use)
    requires gone in c.lru && gone.key != k && gone !in Put(c, k, size).lru
    requires kept in c.lru && kept in Put(c, k, size).lru
    ensures use(gone.id) < use(kept.id)
  {
    PutKeeps(c, held, k, size);
    RecentWithout(c, k, use);
    WithoutElements(c.lru, k, gone);
    IdsBelowNext(c, held, kept);
    var t := Put(c, k, size).lru;
    OldEndIsOlder(Without(c.lru, k), t[0], t, use, gone, kept);
  }

  /** What a prefix keeps was used after what it drops. */
  lemma OldEndIsOlder<K>(w: seq<Entry<K>>, e: Entry<K>, t: seq<Entry<K>>, use: nat -> nat, gone: Entry<K>,
                         kept: Entry<K>)
    requires Recent(w, use) && t != [] && t[0] == e && |t| - 1 <= |w| && t[1..] == w[..|t| - 1]
    requires gone in w && gone !in t && kept in t && kept != e
    ensures use(gone.id) < use(kept.id)
  {
    var n := |t| - 1;
    var a :| 0 <= a < |t| && t[a] == kept;
    var b :| 0 <= b < |w| && w[b] == gone;
    assert t[a] == t[1..][a - 1] == w[a - 1];
    forall i | 0 <= i < n ensures w[i] in t { assert t[i + 1] == t[1..][i] == w[i]; }
  }

  // ----- conservation -----

  function Replaced<K(==)>(max: nat, evs: seq<Event<K>>): nat {
    if evs == [] then 0
    else
      var pre, e := evs[..|evs| - 1], evs[|evs| - 1];
      Replaced(max, pre) + if e.Store? && e.key in Run(max, pre).cache.index then 1 else 0
  }

  function Flushed<K(==)>(max: nat, evs: seq<Event<K>>): nat {
    if evs == [] then 0
    else
      var pre, e := evs[..|evs| - 1], evs[|evs| - 1];
      Flushed(max, pre) + if e.FlushAll? then |Run(max, pre).cache.lru| else 0
  }

  function Lookups<K>(evs: seq<Event<K>>): nat {
    if evs == [] then 0 else Lookups(evs[..|evs| - 1]) + if evs[|evs| - 1].Lookup? then 1 else 0
  }

  /** One step moves entries between the four accounts and creates one per store. */
  lemma StepConserves<K>(s: System<K>, max: nat, e: Event<K>)
    requires SystemInv(s, max)
    ensures var c, t := s.cache, Step(s, e).cache;
            && |t.lru| + t.evictions + (if e.Store? && e.key in c.index then 1 else 0)
                 + (if e.FlushAll? then |c.lru| else 0)
               == |c.lru| + c.evictions + (if e.Store? then 1 else 0)
            && t.hits + t.misses == c.hits + c.misses + (if e.Lookup? then 1 else 0)
  {
    match e
    case Store(k, size) => PutKeeps(s.cache, s.held, k, size);
    case Finish(k) => if k in s.pending && k in s.cache.index { PromoteKeeps(s.cache, s.held, k); }
    case _ =>
  }

  /** Every entry ever stored is live, evicted, replaced or flushed; every lookup was a hit or a miss. */
  lemma {:induction false} EntriesConserved<K>(max: nat, evs: seq<Event<K>>)
    ensures var c := Run(max, evs).cache;
            && Puts(evs) == |c.lru| + c.evictions + Replaced(max, evs) + Flushed(max, evs)
            && c.hits + c.misses == Lookups(evs)
  {
    if evs != [] {
      var pre := evs[..|evs| - 1];
      EntriesConserved(max, pre);
      RunKeeps(max, pre);
      StepConserves(Run(max, pre), max, evs[|evs| - 1]);
    }
  }

  /** The lookups of a run that found their key live, by the time of their first half. */
  function LiveLookups<K(==)>(max: nat, evs: seq<Event<K>>): nat {
    if evs == [] then 0
    else
      var pre, e := evs[..|evs| - 1], evs[|evs| - 1];
      LiveLookups(max, pre)
      + if e.Lookup? && exists x :: x in Run(max, pre).cache.lru && x.key == e.key then 1 else 0
  }

  lemma LiveIffIndexed<K>(c: State<K>, held: multiset<nat>, k: K)
    requires Inv(c, held)
    ensures k in c.index <==> exists x :: x in c.lru && x.key == k
  {
  }

  /** A lookup counts as a hit exactly when an entry for its key is live. */
  lemma {:induction false} HitsAreLive<K>(max: nat, evs: seq<Event<K>>)
    ensures Run(max, evs).cache.hits == LiveLookups(max, evs)
  {
    if evs != [] {
      var pre, e := evs[..|evs| - 1], evs[|evs| - 1];
      HitsAreLive(max, pre);
      RunKeeps(max, pre);
      if e.Lookup? { LiveIffIndexed(Run(max, pre).cache, Run(max, pre).held, e.key); }
      if !e.Lookup? { HitsStay(Run(max, pre), e); }
    }
  }

  lemma HitsStay<K>(s: System<K>, e: Event<K>)
    requires !e.Lookup?
    ensures Step(s, e).cache.hits == s.cache.hits
  {
    if e.Store? { PutKeepsHits(s.cache, e.key, e.size); }
  }

  lemma PutKeepsHits<K>(c: State<K>, k: K, size: nat)
    ensures Put(c, k, size).hits == c.hits
  {
    EvictKeepsHits(Replace(c, k), size);
  }

  lemma {:induction false} EvictKeepsHits<K>(c: State<K>, size: nat)
    ensures EvictUntil(c, size).hits == c.hits
    decreases |c.lru|
  {
    if c.current + size > c.maxBytes && c.lru != [] { EvictKeepsHits(Evict(c), size); }
  }
}
