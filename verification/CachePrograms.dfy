/** What a cached answer means.  Two entry points share the key space but lay weights out differently:
    the single-op entry point stores them as given, the matmul entry point transposed. */
module CachePrograms {
  import opened Graph
  import opened Cache
  import opened CacheRuns

  datatype EntryPoint = SingleOp | MatmulF16

  /** A cache step and the entry point that takes it. */
  datatype Tagged<K> = Tagged(event: Event<K>, caller: EntryPoint)

  function Events<K>(ts: seq<Tagged<K>>): (evs: seq<Event<K>>)
    ensures |evs| == |ts| && forall i :: 0 <= i < |ts| ==> evs[i] == ts[i].event
  {
    seq(|ts|, i requires 0 <= i < |ts| => ts[i].event)
  }

  /** Who made the entries, in the order of their ids. */
  function Makers<K>(ts: seq<Tagged<K>>): seq<EntryPoint> {
    if ts == [] then []
    else
      var last := ts[|ts| - 1];
      Makers(ts[..|ts| - 1]) + if last.event.Store? then [last.caller] else []
  }

  /** The entry point of the latest store for k. */
  function LastMaker<K(==)>(ts: seq<Tagged<K>>, k: K): Option<EntryPoint> {
    if ts == [] then None
    else
      var last := ts[|ts| - 1];
      if last.event.Store? && last.event.key == k then Some(last.caller) else LastMaker(ts[..|ts| - 1], k)
  }

  lemma {:induction false} MakersCountPuts<K>(ts: seq<Tagged<K>>)
    ensures |Makers(ts)| == Puts(Events(ts))
  {
    if ts != [] {
      var n := |ts| - 1;
      MakersCountPuts(ts[..n]);
      assert Events(ts)[..n] == Events(ts[..n]);
    }
  }

  lemma {:induction false} LastPutHasMaker<K>(ts: seq<Tagged<K>>, k: K)
    ensures match LastPut(Events(ts), k)
            case Some(id) => id < |Makers(ts)| && LastMaker(ts, k) == Some(Makers(ts)[id])
            case None => LastMaker(ts, k) == None
  {
    if ts != [] {
      var n := |ts| - 1;
      LastPutHasMaker(ts[..n], k);
      MakersCountPuts(ts[..n]);
      assert Events(ts)[..n] == Events(ts[..n]);
    }
  }

  /** The program that the second half of a lookup hands out: by whom, and for which key, it was compiled. */
  function Program<K(==)>(max: nat, ts: seq<Tagged<K>>, k: K): Option<(EntryPoint, K)> {
    var s := Run(max, Events(ts));
    if k in s.cache.index && s.cache.index[k].id < |Makers(ts)|
    then Some((Makers(ts)[s.cache.index[k].id], s.cache.index[k].key))
    else None
  }

  /** An answer is the program that the latest store for the key compiled for that key.  So it is the asking
      entry point's own program exactly when that entry point made the latest store for the key. */
  lemma AnswerIsLastMakers<K>(max: nat, ts: seq<Tagged<K>>, k: K)
    ensures Program(max, ts, k).Some? <==> Answer(Run(max, Events(ts)), k).Some?
    ensures Program(max, ts, k).Some? ==>
              LastMaker(ts, k).Some? && Program(max, ts, k) == Some((LastMaker(ts, k).value, k))
  {
    var s := Run(max, Events(ts));
    AnswerIsLatestPut(max, Events(ts), k);
    LastPutHasMaker(ts, k);
    RunKeeps(max, Events(ts));
  }

  lemma {:induction false} MakersAre<K>(ts: seq<Tagged<K>>, caller: EntryPoint, k: K)
    requires forall i :: 0 <= i < |ts| ==> ts[i].caller == caller
    ensures LastMaker(ts, k).Some? ==> LastMaker(ts, k).value == caller
  {
    if ts != [] { MakersAre(ts[..|ts| - 1], caller, k); }
  }

  /** A run of one entry point is always answered with its own program for the key. */
  lemma OneEntryPoint<K>(max: nat, ts: seq<Tagged<K>>, caller: EntryPoint, k: K)
    requires forall i :: 0 <= i < |ts| ==> ts[i].caller == caller
    ensures Program(max, ts, k).Some? ==> Program(max, ts, k) == Some((caller, k))
  {
    AnswerIsLastMakers(max, ts, k);
    MakersAre(ts, caller, k);
  }

  /** Mixed runs are not: once the matmul entry point has stored a program for k, the single-op entry point
      is answered with it. */
  lemma MixedAnswers<K>(max: nat, k: K, size: nat)
    ensures var ts := [Tagged(Store(k, size), MatmulF16), Tagged(Lookup(k), SingleOp)];
            Program(max, ts, k) == Some((MatmulF16, k))
  {
    var a, b := Tagged(Store(k, size), MatmulF16), Tagged(Lookup(k), SingleOp);
    var ts := [a, b];
    var evs := Events(ts);
    assert evs == [a.event, b.event] && evs[..1] == [a.event] && evs[..1][..0] == [];
    var s := Run<K>(max, []);
    assert Run(max, [a.event]) == Step(s, a.event);
    assert Run(max, evs) == Step(Run(max, [a.event]), b.event);
    RunKeeps<K>(max, []);
    PutKeeps(s.cache, s.held, k, size);
    assert k in Put(s.cache, k, size).index;
    AnswerIsLastMakers(max, ts, k);
    assert ts[..1] == [a] && ts[..1][..0] == [];
    assert LastMaker([a], k) == Some(MatmulF16);
  }
}
