/** The buffer pool: buffers are lent out, come back, and are kept by size for reuse. */
module Pool {
  import opened Graph
  import opened Sequences

  type BufId = nat

  /** A buffer: its size, the tensor layout it was last acquired for, and what it holds (None until
      it is first written). */
  datatype Buffer<V> = Buffer(bytes: nat, layout: Option<(int, int)>, content: Option<V>)

  /** The state of the pool and of every buffer that exists.  `lent` are those handed out. */
  datatype State<V> = State(maxIdle: nat, mem: map<BufId, Buffer<V>>, idle: map<nat, seq<BufId>>,
                            lent: set<BufId>, next: BufId)

  /** No buffer is both idle and lent, none is lost, idle lists hold buffers of their key's size, each
      once, and never more than the limit. */
  ghost predicate Ok<V>(s: State<V>) {
    && (forall b <- s.mem :: b < s.next)
    && s.lent <= s.mem.Keys
    && (forall n <- s.idle :: IdleListOk(s, n))
    && (forall b <- s.mem :: b in s.lent || (s.mem[b].bytes in s.idle && b in s.idle[s.mem[b].bytes]))
  }

  ghost predicate IdleListOk<V>(s: State<V>, n: nat)
    requires n in s.idle
  {
    var list := s.idle[n];
    && |list| <= s.maxIdle && NoDuplicates(list)
    && forall k :: 0 <= k < |list| ==> list[k] in s.mem && list[k] !in s.lent && s.mem[list[k]].bytes == n
  }

  function Fresh<V>(maxIdle: nat): State<V> {
    State(maxIdle, map[], map[], {}, 0)
  }

  predicate HasIdle<V>(s: State<V>, n: nat) {
    n in s.idle && s.idle[n] != []
  }

  /** The buffer that an acquire of n bytes hands out. */
  function Next<V>(s: State<V>, n: nat): BufId {
    if HasIdle(s, n) then s.idle[n][|s.idle[n]| - 1] else s.next
  }

  /** Acquire n bytes, for a tensor of the given layout if any: an idle buffer of exactly that size,
      with whatever it holds, or a new one. */
  function Acquire<V>(s: State<V>, n: nat, layout: Option<(int, int)>): State<V> {
    var b := Next(s, n);
    var stale := if HasIdle(s, n) && b in s.mem then s.mem[b].content else None;
    s.(mem := s.mem[b := Buffer(n, layout, stale)],
       idle := if HasIdle(s, n) then s.idle[n := s.idle[n][..|s.idle[n]| - 1]] else s.idle,
       lent := s.lent + {b},
       next := if HasIdle(s, n) then s.next else s.next + 1)
  }

  /** Give a buffer back: it is kept if there is room for its size, destroyed otherwise. */
  function Release<V>(s: State<V>, b: BufId): State<V>
    requires b in s.mem
  {
    var n := s.mem[b].bytes;
    var list := if n in s.idle then s.idle[n] else [];
    if |list| < s.maxIdle then s.(idle := s.idle[n := list + [b]], lent := s.lent - {b})
    else s.(idle := s.idle[n := list], lent := s.lent - {b}, mem := s.mem - {b})
  }

  /** The holder of a lent buffer destroys it instead of giving it back. */
  function Destroy<V>(s: State<V>, b: BufId): State<V> {
    s.(lent := s.lent - {b}, mem := s.mem - {b})
  }

  lemma DestroyKeeps<V>(s: State<V>, b: BufId)
    requires Ok(s) && b in s.lent
    ensures var t := Destroy(s, b);
            && Ok(t) && t.mem.Keys == s.mem.Keys - {b} && t.idle == s.idle
            && forall x <- t.mem :: t.mem[x] == s.mem[x]
  {
    var t := Destroy(s, b);
    forall n <- t.idle ensures IdleListOk(t, n) { assert IdleListOk(s, n); }
  }

  /** Destroy what is idle. */
  function Flush<V>(s: State<V>): State<V> {
    s.(idle := map[], mem := map b | b in s.mem && b in s.lent :: s.mem[b])
  }

  function Write<V>(s: State<V>, b: BufId, v: V): State<V>
    requires b in s.mem
  {
    s.(mem := s.mem[b := s.mem[b].(content := Some(v))])
  }

  /** An acquired buffer was not in anyone's hands, has the size asked for, and nothing else moves. */
  lemma AcquireKeeps<V>(s: State<V>, n: nat, layout: Option<(int, int)>)
    requires Ok(s)
    ensures var t, b := Acquire(s, n, layout), Next(s, n);
            && Ok(t) && b !in s.lent && t.lent == s.lent + {b}
            && b in t.mem && t.mem[b].bytes == n && t.mem[b].layout == layout
            && forall x <- s.lent :: x in t.mem && t.mem[x] == s.mem[x]
  {
    var t, b := Acquire(s, n, layout), Next(s, n);
    if HasIdle(s, n) {
      assert IdleListOk(s, n);
      assert s.idle[n][|s.idle[n]| - 1] == b;
    }
    forall k <- t.idle ensures IdleListOk(t, k) {
      assert IdleListOk(s, k);
    }
    forall x <- t.mem ensures x in t.lent || (t.mem[x].bytes in t.idle && x in t.idle[t.mem[x].bytes]) {
      if x != b && x !in s.lent {
        var m := s.mem[x].bytes;
        assert x in s.idle[m];
        if m == n && HasIdle(s, n) {
          var k :| 0 <= k < |s.idle[n]| && s.idle[n][k] == x;
          assert t.idle[n][k] == x;
        }
      }
    }
  }

  /** Giving a lent buffer back leaves every other lent buffer as it was. */
  lemma ReleaseKeeps<V>(s: State<V>, b: BufId)
    requires Ok(s) && b in s.lent
    ensures var t := Release(s, b);
            && Ok(t) && t.lent == s.lent - {b}
            && forall x <- t.lent :: x in t.mem && t.mem[x] == s.mem[x]
  {
    var t := Release(s, b);
    var n := s.mem[b].bytes;
    if n in s.idle { assert IdleListOk(s, n); }
    forall k <- t.idle ensures IdleListOk(t, k) {
      if k in s.idle { assert IdleListOk(s, k); }
    }
    forall x <- t.mem ensures x in t.lent || (t.mem[x].bytes in t.idle && x in t.idle[t.mem[x].bytes]) {
      if x == b {
        assert t.idle[n][|t.idle[n]| - 1] == b;
      } else if x !in s.lent {
        var m := s.mem[x].bytes;
        var k :| 0 <= k < |s.idle[m]| && s.idle[m][k] == x;
        assert t.idle[m][k] == x;
      }
    }
  }

  lemma FlushKeeps<V>(s: State<V>)
    requires Ok(s)
    ensures Ok(Flush(s)) && Flush(s).lent == s.lent == Flush(s).mem.Keys
    ensures forall x <- s.lent :: x in Flush(s).mem && Flush(s).mem[x] == s.mem[x]
  {
  }

  lemma WriteKeeps<V>(s: State<V>, b: BufId, v: V)
    requires Ok(s) && b in s.lent
    ensures Ok(Write(s, b, v)) && Write(s, b, v).lent == s.lent
  {
    var t := Write(s, b, v);
    forall n <- t.idle ensures IdleListOk(t, n) { assert IdleListOk(s, n); }
  }

  // ----- reuse -----

  ghost predicate IsIdle<V>(s: State<V>, b: BufId) {
    b in s.mem && b !in s.lent
  }

  /** How many buffers of n bytes are idle. */
  function IdleCount<V>(s: State<V>, n: nat): nat {
    if n in s.idle then |s.idle[n]| else 0
  }

  /** The idle buffers of n bytes. */
  ghost function IdleSet<V>(s: State<V>, n: nat): set<BufId> {
    set b | b in s.mem && IsIdle(s, b) && s.mem[b].bytes == n
  }

  function Elements(s: seq<BufId>): set<BufId> {
    set b | b in s
  }

  lemma {:induction false} DistinctCount(s: seq<BufId>)
    requires NoDuplicates(s)
    ensures |Elements(s)| == |s|
  {
    if s != [] {
      var pre, last := s[..|s| - 1], s[|s| - 1];
      DistinctCount(pre);
      assert s == pre + [last] && last !in Elements(pre);
      assert Elements(s) == Elements(pre) + {last};
    }
  }

  /** The count is the number of existing buffers of that size that nobody holds. */
  lemma IdleAreUnlent<V>(s: State<V>, n: nat)
    requires Ok(s)
    ensures IdleCount(s, n) == |IdleSet(s, n)|
  {
    if n in s.idle {
      assert IdleListOk(s, n);
      var list := s.idle[n];
      DistinctCount(list);
      forall b ensures b in IdleSet(s, n) <==> b in list {
        if b in list { var k :| 0 <= k < |list| && list[k] == b; }
      }
      assert IdleSet(s, n) == Elements(list);
    } else {
      assert IdleSet(s, n) == {};
    }
  }

  /** A returned buffer goes on existing, idle and with what it holds, exactly when fewer than the limit of
      its size are idle; every other buffer stays as it is. */
  lemma ReturnedIsKept<V>(s: State<V>, b: BufId)
    requires Ok(s) && b in s.lent
    ensures var t, n := Release(s, b), s.mem[b].bytes;
            && (b in t.mem <==> |IdleSet(s, n)| < s.maxIdle)
            && (b in t.mem ==> IsIdle(t, b) && t.mem[b] == s.mem[b])
            && t.mem.Keys - {b} == s.mem.Keys - {b} && t.next == s.next
            && forall x <- t.mem :: t.mem[x] == s.mem[x]
  {
    IdleAreUnlent(s, s.mem[b].bytes);
  }

  /** An acquire creates a buffer exactly when all of that size are in someone's hands; otherwise it hands
      out an idle one with what that holds.  No other buffer changes. */
  lemma AcquireReuses<V>(s: State<V>, n: nat, layout: Option<(int, int)>)
    requires Ok(s)
    ensures var t, b := Acquire(s, n, layout), Next(s, n);
            && (b !in s.mem <==> forall x <- s.mem :: s.mem[x].bytes == n ==> x in s.lent)
            && (b !in s.mem ==> t.mem[b].content == None && t.next == s.next + 1)
            && (b in s.mem ==> IsIdle(s, b) && s.mem[b].bytes == n && t.mem[b].content == s.mem[b].content)
            && (b in s.mem ==> t.next == s.next)
            && t.mem.Keys == s.mem.Keys + {b}
            && forall x <- s.mem :: x != b ==> t.mem[x] == s.mem[x]
  {
    if HasIdle(s, n) {
      assert IdleListOk(s, n);
      assert s.idle[n][|s.idle[n]| - 1] == Next(s, n);
    }
  }

  /** Give back and ask again: with room the same buffer returns, with what it held. */
  lemma ReturnThenGet<V>(s: State<V>, b: BufId, layout: Option<(int, int)>)
    requires Ok(s) && b in s.lent && |IdleSet(s, s.mem[b].bytes)| < s.maxIdle
    ensures var n := s.mem[b].bytes;
            var t := Acquire(Release(s, b), n, layout);
            && Next(Release(s, b), n) == b && t.lent == s.lent && t.next == s.next
            && t.mem == s.mem[b := s.mem[b].(layout := layout)]
            && forall m :: IdleCount(t, m) == IdleCount(s, m)
  {
    var n := s.mem[b].bytes;
    IdleAreUnlent(s, n);
    KeptThenTaken(s, b, layout, if n in s.idle then s.idle[n] else []);
  }

  lemma KeptThenTaken<V>(s: State<V>, b: BufId, layout: Option<(int, int)>, list: seq<BufId>)
    requires b in s.mem && b in s.lent && |list| < s.maxIdle
    requires list == if s.mem[b].bytes in s.idle then s.idle[s.mem[b].bytes] else []
    ensures var n := s.mem[b].bytes;
            && Next(Release(s, b), n) == b
            && Acquire(Release(s, b), n, layout)
               == s.(mem := s.mem[b := s.mem[b].(layout := layout)], idle := s.idle[n := list])
  {
    var n := s.mem[b].bytes;
    var r := Release(s, b);
    assert r == s.(idle := s.idle[n := list + [b]], lent := s.lent - {b});
    assert r.idle[n][..|r.idle[n]| - 1] == list;
    assert r.lent + {b} == s.lent;
    assert r.idle[n := list] == s.idle[n := list];
  }

  // ----- whole runs -----

  datatype Event<V> =
    | DoAcquire(bytes: nat, layout: Option<(int, int)>)
    | DoRelease(buf: BufId)
    | DoDestroy(victim: BufId)
    | DoWrite(dst: BufId, value: V)
    | DoFlush

  /** A client can only release or write what it holds. */
  function Step<V>(s: State<V>, e: Event<V>): State<V> {
    match e
    case DoAcquire(n, layout) => Acquire(s, n, layout)
    case DoRelease(b) => if b in s.lent && b in s.mem then Release(s, b) else s
    case DoDestroy(b) => if b in s.lent then Destroy(s, b) else s
    case DoWrite(b, v) => if b in s.lent && b in s.mem then Write(s, b, v) else s
    case DoFlush => Flush(s)
  }

  function Play<V>(maxIdle: nat, events: seq<Event<V>>): State<V> {
    if events == [] then Fresh(maxIdle) else Step(Play(maxIdle, events[..|events| - 1]), events[|events| - 1])
  }

  /** Over every sequence of pool operations the invariant holds. */
  lemma {:induction false} PoolSafe<V>(maxIdle: nat, events: seq<Event<V>>)
    ensures Ok(Play(maxIdle, events)) && Play(maxIdle, events).maxIdle == maxIdle
  {
    if events != [] {
      var s, e := Play(maxIdle, events[..|events| - 1]), events[|events| - 1];
      PoolSafe(maxIdle, events[..|events| - 1]);
      match e
      case DoAcquire(n, layout) => AcquireKeeps(s, n, layout);
      case DoRelease(b) => if b in s.lent { ReleaseKeeps(s, b); }
      case DoDestroy(b) => if b in s.lent { DestroyKeeps(s, b); }
      case DoWrite(b, v) => if b in s.lent { WriteKeeps(s, b, v); }
      case DoFlush => FlushKeeps(s);
    }
  }

  /** The pool object.  `lent` only records who holds what. */
  class BufferPool<V> {
    const maxIdle: nat
    var mem: map<BufId, Buffer<V>>
    var idle: map<nat, seq<BufId>>
    var next: BufId
    ghost var lent: set<BufId>

    ghost function Now(): State<V>
      reads this
    {
      State(maxIdle, mem, idle, lent, next)
    }

    ghost predicate Valid()
      reads this
    {
      Ok(Now())
    }

    constructor (limit: nat)
      ensures Valid() && Now() == Fresh(limit)
    {
      maxIdle, mem, idle, next, lent := limit, map[], map[], 0, {};
    }

    method Get(bytes: nat) returns (b: BufId)
      requires Valid()
      modifies this
      ensures Valid() && b == Next(old(Now()), bytes) && Now() == Acquire(old(Now()), bytes, None)
    {
      AcquireKeeps(Now(), bytes, None);
      if bytes in idle && idle[bytes] != [] {
        var list := idle[bytes];
        b := list[|list| - 1];
        assert IdleListOk(Now(), bytes) && list[|list| - 1] == b;
        idle := idle[bytes := list[..|list| - 1]];
        mem := mem[b := mem[b].(layout := None)];
      } else {
        b := next;
        next := next + 1;
        mem := mem[b := Buffer(bytes, None, None)];
      }
      lent := lent + {b};
    }

    /** A buffer for a [1, channels, 1, width] tensor, of at least `least` bytes. */
    method GetTensor(channels: int, width: int, least: nat) returns (b: BufId)
      requires Valid() && channels > 0 && width > 0
      modifies this
      ensures Valid() && b !in old(lent) && lent == old(lent) + {b}
      ensures b in mem && mem[b].layout == Some((channels, width))
      ensures mem[b].bytes == if channels * width * 2 < least then least else channels * width * 2
      ensures b == Next(old(Now()), mem[b].bytes)
      ensures Now() == Acquire(old(Now()), mem[b].bytes, Some((channels, width)))
      ensures forall x <- old(lent) :: x in mem && mem[x] == old(mem)[x]
    {
      var logical := channels * width * 2;
      var bytes := if logical < least then least else logical;
      AcquireKeeps(Now(), bytes, Some((channels, width)));
      ghost var was := Now();
      b := Get(bytes);
      mem := mem[b := mem[b].(layout := Some((channels, width)))];
      assert Now() == Acquire(was, bytes, Some((channels, width)));
    }

    method CopyFrom(b: BufId, v: V)
      requires Valid() && b in lent && b in mem
      modifies this`mem
      ensures Valid() && Now() == Write(old(Now()), b, v)
    {
      WriteKeeps(Now(), b, v);
      mem := mem[b := mem[b].(content := Some(v))];
    }

    method Return(b: BufId)
      requires Valid() && b in lent && b in mem
      modifies this
      ensures Valid() && Now() == Release(old(Now()), b) && lent == old(lent) - {b}
      ensures forall x <- lent :: x in mem && mem[x] == old(mem)[x]
    {
      ghost var s := Now();
      ReleaseKeeps(s, b);
      var n := mem[b].bytes;
      if n !in idle { idle := idle[n := []]; }
      if |idle[n]| < maxIdle {
        idle := idle[n := idle[n] + [b]];
      } else {
        mem := mem - {b};
      }
      lent := lent - {b};
      assert idle == Release(s, b).idle;
    }

    method Drop(b: BufId)
      requires Valid() && b in lent
      modifies this
      ensures Valid() && Now() == Destroy(old(Now()), b) && lent == old(lent) - {b}
      ensures forall x <- lent :: x in mem && mem[x] == old(mem)[x]
    {
      DestroyKeeps(Now(), b);
      mem := mem - {b};
      lent := lent - {b};
    }

    method Clear()
      requires Valid()
      modifies this
      ensures Valid() && Now() == Flush(old(Now()))
    {
      FlushKeeps(Now());
      ghost var was := Now();
      var kept: map<BufId, Buffer<V>> := mem;
      var sizes := idle.Keys;
      while sizes != {}
        invariant sizes <= idle.Keys
        invariant kept == map b | b in was.mem && (b in lent || was.mem[b].bytes in sizes) :: was.mem[b]
        decreases sizes
      {
        var n :| n in sizes;
        assert IdleListOk(was, n);
        var gone := set b | b in idle[n];
        sizes := sizes - {n};
        kept := kept - gone;
        forall b | b in was.mem && b !in lent ensures b in gone <==> was.mem[b].bytes == n {
          if b in gone { assert exists k :: 0 <= k < |idle[n]| && idle[n][k] == b; }
        }
        forall b <- gone ensures b !in lent {
          var k :| 0 <= k < |idle[n]| && idle[n][k] == b;
        }
      }
      mem := kept;
      idle := map[];
    }
  }
}
