/** The HWX patcher: rewrites op words in a captured binary, moves its constant section and fixes up
    the addresses that refer to it. */
module Hwx {
  import opened Arith
  import opened Graph

  type u32 = x: int | 0 <= x < 0x1_0000_0000

  datatype OpConfig = OpConfig(programSize: u32, stageFlags: u32, opcode: u32, extraConfig: u32, numWords: u32)

  const MAGIC := 0xBEEFFACE
  const TEXT_SIZE_OFF := 0x0208
  const CONST_ADDR_OFF := 0x0250
  const CONST_FILE_OFF := 0x0260
  const INSTR_COUNT_OFF := 0x0AE4
  const TEXT_OFF := 0x4000
  const CONST_SIZE := 0x4000
  const VM_BASE := 0x30008000
  const PROGRAM_SIZE_OFF := 0x4010
  const STAGE_FLAGS_OFF := 0x4030
  const OPCODE_OFF := 0x404C
  const EXTRA_CONFIG_OFF := 0x405C
  const MIN_SIZE := 0x4060
  const SCAN_START := 0x20

  // ----- little-endian words -----

  function Val(s: seq<byte>): nat {
    if s == [] then 0 else s[0] as int + 256 * Val(s[1..])
  }

  function Bytes(v: nat, n: nat): (s: seq<byte>)
    ensures |s| == n
    decreases n, v
  {
    if n == 0 then [] else [v % 256] + Bytes(v / 256, n - 1)
  }

  function Pow256(n: nat): nat {
    if n == 0 then 1 else 256 * Pow256(n - 1)
  }

  lemma {:induction false} BytesRoundTrip(v: nat, n: nat)
    requires v < Pow256(n)
    ensures Val(Bytes(v, n)) == v
  {
    if n > 0 {
      BytesRoundTrip(v / 256, n - 1);
      assert Bytes(v, n)[1..] == Bytes(v / 256, n - 1);
    }
  }

  lemma FirstDigit(x: byte, u: nat, y: byte, v: nat)
    requires x as int + 256 * u == y as int + 256 * v
    ensures x == y && u == v
  {
  }

  lemma {:induction false} ValInjective(a: seq<byte>, b: seq<byte>)
    requires |a| == |b| && Val(a) == Val(b)
    ensures a == b
  {
    if a != [] {
      FirstDigit(a[0], Val(a[1..]), b[0], Val(b[1..]));
      ValInjective(a[1..], b[1..]);
      assert a == [a[0]] + a[1..] && b == [b[0]] + b[1..];
    }
  }

  function Rd(b: seq<byte>, off: nat, n: nat): nat
    requires off + n <= |b|
  {
    Val(b[off..off + n])
  }

  /** In-place write of a block. */
  function Overwrite(b: seq<byte>, off: nat, s: seq<byte>): (r: seq<byte>)
    requires off + |s| <= |b|
    ensures |r| == |b| && r[off..off + |s|] == s
    ensures forall p :: 0 <= p < |b| ==> r[p] == if off <= p < off + |s| then s[p - off] else b[p]
  {
    b[..off] + s + b[off + |s|..]
  }

  function Zeros(n: nat): seq<byte> {
    seq(n, i => 0)
  }

  // ----- the layout -----

  predicate ValidHwx(b: seq<byte>) {
    |b| >= MIN_SIZE && Rd(b, 0, 4) == MAGIC
  }

  /** The byte length of the text section, computed in 32-bit arithmetic. */
  function TextBytes(words: u32): nat {
    (words * 4) % 0x1_0000_0000
  }

  /** The constant section starts at the next multiple of 64 after the text. */
  function ConstOff(text: nat): nat {
    ((TEXT_OFF + text + 63) / 64) * 64
  }

  function ConstAddr(text: nat): nat {
    VM_BASE + (ConstOff(text) - TEXT_OFF)
  }

  function Extract(b: seq<byte>): OpConfig {
    if |b| < MIN_SIZE then OpConfig(0, 0, 0, 0, 0)
    else
      OpConfig(Word(b, PROGRAM_SIZE_OFF), Word(b, STAGE_FLAGS_OFF), Word(b, OPCODE_OFF), Word(b, EXTRA_CONFIG_OFF),
               (Rd(b, TEXT_SIZE_OFF, 8) / 4) % 0x1_0000_0000)
  }

  function Word(b: seq<byte>, off: nat): u32
    requires off + 4 <= |b|
  {
    ValBound(b[off..off + 4]);
    assert Pow256(4) == 0x1_0000_0000;
    Rd(b, off, 4)
  }

  lemma {:induction false} ValBound(s: seq<byte>)
    ensures Val(s) < Pow256(|s|)
  {
    if s != [] { ValBound(s[1..]); }
  }

  // ----- the patch, step by step -----

  function WithOpWords(b: seq<byte>, c: OpConfig): (r: seq<byte>)
    requires |b| >= MIN_SIZE
    ensures |r| == |b|
  {
    FourWords(b, Bytes(c.programSize, 4), Bytes(c.stageFlags, 4), Bytes(c.opcode, 4), Bytes(c.extraConfig, 4))
  }

  function FourWords(b: seq<byte>, w0: seq<byte>, w1: seq<byte>, w2: seq<byte>, w3: seq<byte>): (r: seq<byte>)
    requires |b| >= MIN_SIZE && |w0| == |w1| == |w2| == |w3| == 4
    ensures |r| == |b|
  {
    Overwrite(Overwrite(Overwrite(Overwrite(b, PROGRAM_SIZE_OFF, w0), STAGE_FLAGS_OFF, w1), OPCODE_OFF, w2),
              EXTRA_CONFIG_OFF, w3)
  }

  /** The byte patterns a relocation writes and looks for. */
  datatype Fields = Fields(size: seq<byte>, addr: seq<byte>, file: seq<byte>, oldAddr: seq<byte>, count: seq<byte>)

  predicate FieldsOk(e: Fields) {
    |e.size| == 8 && |e.addr| == 8 && |e.file| == 4 && |e.oldAddr| == 8 && |e.count| == 4
  }

  function FieldsFor(words: u32, newText: nat, oldText: nat): (e: Fields)
    ensures FieldsOk(e)
  {
    Fields(Bytes(newText, 8), Bytes(ConstAddr(newText), 8), Bytes(ConstOff(newText) % 0x1_0000_0000, 4),
           Bytes(ConstAddr(oldText), 8), Bytes(words, 4))
  }

  /** The constant section lies in the file; otherwise it is not moved. */
  predicate HasConst(b: seq<byte>, oldText: nat) {
    ConstOff(oldText) + CONST_SIZE <= |b|
  }

  function ConstBytes(b: seq<byte>, text: nat): (s: seq<byte>)
    requires HasConst(b, text)
    ensures |s| == CONST_SIZE
  {
    b[ConstOff(text)..ConstOff(text) + CONST_SIZE]
  }

  function Saved(b: seq<byte>, oldText: nat): (s: seq<byte>)
    ensures |s| == if HasConst(b, oldText) then CONST_SIZE else 0
  {
    if HasConst(b, oldText) then ConstBytes(b, oldText) else []
  }

  /** Grows the file if the new layout needs it. */
  function Grown(b: seq<byte>, newText: nat): (r: seq<byte>)
    ensures |r| >= ConstOff(newText) + CONST_SIZE && |r| >= |b| && r[..|b|] == b
  {
    var needed := ConstOff(newText) + CONST_SIZE;
    if |b| < needed then b + Zeros(needed - |b|) else b
  }

  /** The old text, whose tail is cleared when the text shrinks, must lie in the buffer. */
  predicate InBounds(b: seq<byte>, newText: nat, oldText: nat) {
    newText < oldText ==> TEXT_OFF + oldText <= |Grown(b, newText)|
  }

  function TailCleared(b: seq<byte>, newText: nat, oldText: nat): (r: seq<byte>)
    requires newText < oldText ==> TEXT_OFF + oldText <= |b|
    ensures |r| == |b|
  {
    if newText < oldText then Overwrite(b, TEXT_OFF + newText, Zeros(oldText - newText)) else b
  }

  /** Moves the saved constant section to its new place. */
  function ConstMoved(b: seq<byte>, saved: seq<byte>, newText: nat, oldText: nat): (r: seq<byte>)
    requires saved != [] ==> |saved| == CONST_SIZE && HasConst(b, oldText) && HasConst(b, newText)
    ensures |r| == |b|
  {
    if ConstOff(oldText) != ConstOff(newText) && saved != []
    then Overwrite(Overwrite(b, ConstOff(oldText), Zeros(CONST_SIZE)), ConstOff(newText), saved)
    else b
  }

  function HeaderUpdated(b: seq<byte>, e: Fields): (r: seq<byte>)
    requires |b| >= MIN_SIZE && FieldsOk(e)
    ensures |r| == |b|
  {
    Overwrite(Overwrite(Overwrite(b, TEXT_SIZE_OFF, e.size), CONST_ADDR_OFF, e.addr), CONST_FILE_OFF, e.file)
  }

  predicate Match(b: seq<byte>, i: nat, oldAddr: seq<byte>) {
    i + 8 <= |b| && b[i..i + 8] == oldAddr
  }

  /** The scan for old addresses: left to right, skipping over each replacement. */
  function Rewritten(b: seq<byte>, i: nat, end: nat, oldAddr: seq<byte>, newAddr: seq<byte>): (r: seq<byte>)
    requires |oldAddr| == 8 && |newAddr| == 8 && end <= |b|
    ensures |r| == |b|
    decreases |b| - i
  {
    if i + 8 > end then b
    else if Match(b, i, oldAddr) then Rewritten(Overwrite(b, i, newAddr), i + 8, end, oldAddr, newAddr)
    else Rewritten(b, i + 1, end, oldAddr, newAddr)
  }

  /** The file before the scan. */
  function Relocated(b: seq<byte>, newText: nat, oldText: nat, e: Fields): (r: seq<byte>)
    requires |b| >= MIN_SIZE && InBounds(b, newText, oldText) && FieldsOk(e)
    ensures |r| >= |b| && |r| >= ConstOff(newText) + CONST_SIZE
  {
    HeaderUpdated(ConstMoved(TailCleared(Grown(b, newText), newText, oldText), Saved(b, oldText), newText, oldText), e)
  }

  /** The scan and the instruction count, which is written last. */
  function Finished(moved: seq<byte>, e: Fields): (r: seq<byte>)
    requires |moved| >= MIN_SIZE && FieldsOk(e)
    ensures |r| == |moved|
  {
    Overwrite(Rewritten(moved, SCAN_START, TEXT_OFF, e.oldAddr, e.addr), INSTR_COUNT_OFF, e.count)
  }

  /** The patch writes outside the buffer: it shrinks a text that does not lie in the file. */
  predicate LeavesBuffer(b: seq<byte>, c: OpConfig, was: OpConfig) {
    && ValidHwx(b) && c.numWords != was.numWords
    && !InBounds(b, TextBytes(c.numWords), TextBytes(was.numWords))
  }

  function Patched(b: seq<byte>, c: OpConfig, was: OpConfig): seq<byte>
    requires !LeavesBuffer(b, c, was)
  {
    if !ValidHwx(b) then b
    else if c.numWords == was.numWords then WithOpWords(b, c)
    else Resized(WithOpWords(b, c), c.numWords, TextBytes(c.numWords), TextBytes(was.numWords))
  }

  function Resized(w: seq<byte>, words: u32, newText: nat, oldText: nat): (r: seq<byte>)
    requires |w| >= MIN_SIZE && InBounds(w, newText, oldText)
    ensures |r| >= |w| && |r| >= ConstOff(newText) + CONST_SIZE
  {
    var e := FieldsFor(words, newText, oldText);
    Finished(Relocated(w, newText, oldText, e), e)
  }

  /** The patcher, editing one buffer in place; None if it would write outside the buffer. */
  method PatchOp(hwx: seq<byte>, c: OpConfig, was: OpConfig) returns (r: Option<seq<byte>>)
    ensures r.None? <==> LeavesBuffer(hwx, c, was)
    ensures r.Some? ==> r.value == Patched(hwx, c, was)
  {
    if !ValidHwx(hwx) { return Some(hwx); }
    var b := WriteOpWords(hwx, Bytes(c.programSize, 4), Bytes(c.stageFlags, 4), Bytes(c.opcode, 4),
                          Bytes(c.extraConfig, 4));
    if c.numWords == was.numWords { return Some(b); }
    r := Resize(b, c.numWords, TextBytes(c.numWords), TextBytes(was.numWords));
  }

  method WriteOpWords(b0: seq<byte>, w0: seq<byte>, w1: seq<byte>, w2: seq<byte>, w3: seq<byte>) returns (b: seq<byte>)
    requires |b0| >= MIN_SIZE && |w0| == |w1| == |w2| == |w3| == 4
    ensures b == FourWords(b0, w0, w1, w2, w3)
  {
    b := Overwrite(b0, PROGRAM_SIZE_OFF, w0);
    b := Overwrite(b, STAGE_FLAGS_OFF, w1);
    b := Overwrite(b, OPCODE_OFF, w2);
    b := Overwrite(b, EXTRA_CONFIG_OFF, w3);
  }

  method Resize(w: seq<byte>, words: u32, newText: nat, oldText: nat) returns (r: Option<seq<byte>>)
    requires |w| >= MIN_SIZE
    ensures r.None? <==> !InBounds(w, newText, oldText)
    ensures r.Some? ==> r.value == Resized(w, words, newText, oldText)
  {
    var e := FieldsFor(words, newText, oldText);
    r := Relocate(w, newText, oldText, e);
    if r.Some? {
      var b := ReplaceAddresses(r.value, e.oldAddr, e.addr);
      r := Some(Overwrite(b, INSTR_COUNT_OFF, e.count));
    }
  }

  /** Saves the constant section, makes room, moves it and updates the section headers. */
  method Relocate(b0: seq<byte>, newText: nat, oldText: nat, e: Fields) returns (r: Option<seq<byte>>)
    requires |b0| >= MIN_SIZE && FieldsOk(e)
    ensures r.None? <==> !InBounds(b0, newText, oldText)
    ensures r.Some? ==> r.value == Relocated(b0, newText, oldText, e)
  {
    var saved := Saved(b0, oldText);
    var b := Grow(b0, newText);
    r := ClearTail(b, newText, oldText);
    if r.Some? {
      b := MoveConst(r.value, saved, newText, oldText);
      b := WriteHeader(b, e);
      r := Some(b);
    }
  }

  method Grow(b0: seq<byte>, newText: nat) returns (b: seq<byte>)
    ensures b == Grown(b0, newText)
  {
    b := b0;
    var needed := ConstOff(newText) + CONST_SIZE;
    if |b| < needed { b := b + Zeros(needed - |b|); }
  }

  /** Clears the unused end of the old text; None if that lies outside the buffer. */
  method ClearTail(b: seq<byte>, newText: nat, oldText: nat) returns (r: Option<seq<byte>>)
    ensures r.None? <==> newText < oldText && TEXT_OFF + oldText > |b|
    ensures r.Some? ==> r.value == TailCleared(b, newText, oldText)
  {
    if newText >= oldText { return Some(b); }
    if TEXT_OFF + oldText > |b| { return None; }
    return Some(Overwrite(b, TEXT_OFF + newText, Zeros(oldText - newText)));
  }

  method MoveConst(b0: seq<byte>, saved: seq<byte>, newText: nat, oldText: nat) returns (b: seq<byte>)
    requires saved != [] ==> |saved| == CONST_SIZE && HasConst(b0, oldText) && HasConst(b0, newText)
    ensures b == ConstMoved(b0, saved, newText, oldText)
  {
    b := b0;
    var oldConst, newConst := ConstOff(oldText), ConstOff(newText);
    if oldConst != newConst && saved != [] {
      b := Overwrite(b, oldConst, Zeros(CONST_SIZE));
      b := Overwrite(b, newConst, saved);
    }
  }

  method WriteHeader(b0: seq<byte>, e: Fields) returns (b: seq<byte>)
    requires |b0| >= MIN_SIZE && FieldsOk(e)
    ensures b == HeaderUpdated(b0, e)
  {
    b := Overwrite(b0, TEXT_SIZE_OFF, e.size);
    b := Overwrite(b, CONST_ADDR_OFF, e.addr);
    b := Overwrite(b, CONST_FILE_OFF, e.file);
  }

  method ReplaceAddresses(b0: seq<byte>, oldAddr: seq<byte>, newAddr: seq<byte>) returns (b: seq<byte>)
    requires |b0| >= TEXT_OFF && |oldAddr| == 8 && |newAddr| == 8
    ensures b == Rewritten(b0, SCAN_START, TEXT_OFF, oldAddr, newAddr)
  {
    b := b0;
    var i := SCAN_START;
    while i + 8 <= TEXT_OFF
      invariant |b| == |b0|
      invariant Rewritten(b, i, TEXT_OFF, oldAddr, newAddr) == Rewritten(b0, SCAN_START, TEXT_OFF, oldAddr, newAddr)
      decreases TEXT_OFF - i
    {
      if Match(b, i, oldAddr) {
        b := Overwrite(b, i, newAddr);
        i := i + 7;
      }
      i := i + 1;
    }
  }

  // ----- what the scan does -----

  /** The positions at which the scan replaces. */
  function Hits(b: seq<byte>, i: nat, end: nat, oldAddr: seq<byte>): seq<nat>
    requires end <= |b|
    decreases |b| - i
  {
    if i + 8 > end then []
    else if Match(b, i, oldAddr) then [i] + Hits(b, i + 8, end, oldAddr)
    else Hits(b, i + 1, end, oldAddr)
  }

  lemma {:induction false} HitsDependOnRest(a: seq<byte>, b: seq<byte>, i: nat, end: nat, oldAddr: seq<byte>)
    requires end <= |a| == |b| && i <= end && forall p :: i <= p < end ==> a[p] == b[p]
    ensures Hits(a, i, end, oldAddr) == Hits(b, i, end, oldAddr)
    decreases |b| - i
  {
    if i + 8 <= end {
      assert a[i..i + 8] == b[i..i + 8];
      HitsDependOnRest(a, b, if Match(a, i, oldAddr) then i + 8 else i + 1, end, oldAddr);
    }
  }

  /** Byte p lies in the replacement at h. */
  ghost predicate Covers(h: nat, p: nat) {
    h <= p < h + 8
  }

  lemma {:induction false} HitsAreMatches(b: seq<byte>, i: nat, end: nat, oldAddr: seq<byte>, h: nat)
    requires end <= |b| && |oldAddr| == 8 && h in Hits(b, i, end, oldAddr)
    ensures i <= h && h + 8 <= end && Match(b, h, oldAddr)
    decreases |b| - i
  {
    if Match(b, i, oldAddr) {
      if h != i { HitsAreMatches(b, i + 8, end, oldAddr, h); }
    } else {
      HitsAreMatches(b, i + 1, end, oldAddr, h);
    }
  }

  /** Every byte after the scan: taken from the new address where a hit covers it, unchanged elsewhere. */
  lemma {:induction false} ScanResult(b: seq<byte>, i: nat, end: nat, oldAddr: seq<byte>, newAddr: seq<byte>, p: nat)
    requires |oldAddr| == 8 && |newAddr| == 8 && end <= |b| && p < |b|
    ensures forall h <- Hits(b, i, end, oldAddr) :: Covers(h, p) ==>
              Rewritten(b, i, end, oldAddr, newAddr)[p] == newAddr[p - h]
    ensures (forall h <- Hits(b, i, end, oldAddr) :: !Covers(h, p)) ==>
              Rewritten(b, i, end, oldAddr, newAddr)[p] == b[p]
    decreases |b| - i
  {
    if i + 8 <= end {
      if Match(b, i, oldAddr) {
        var c := Overwrite(b, i, newAddr);
        HitsDependOnRest(b, c, i + 8, end, oldAddr);
        ScanResult(c, i + 8, end, oldAddr, newAddr, p);
        var rest := Hits(b, i + 8, end, oldAddr);
        forall h <- rest ensures h >= i + 8 { HitsAreMatches(b, i + 8, end, oldAddr, h); }
        assert Hits(b, i, end, oldAddr) == [i] + rest && ([i] + rest)[0] == i;
        if forall h <- Hits(b, i, end, oldAddr) :: !Covers(h, p) {
          assert i in Hits(b, i, end, oldAddr) && !Covers(i, p);
          assert c[p] == b[p];
          forall h <- rest ensures !Covers(h, p) { assert h in Hits(b, i, end, oldAddr); }
        }
      } else {
        ScanResult(b, i + 1, end, oldAddr, newAddr, p);
      }
    }
  }

  /** A match that no earlier match runs into is a hit. */
  lemma {:induction false} FirstMatchIsHit(b: seq<byte>, i: nat, end: nat, oldAddr: seq<byte>, h: nat)
    requires end <= |b| && i <= h && h + 8 <= end && Match(b, h, oldAddr)
    requires forall q :: i <= q < h ==> !Match(b, q, oldAddr)
    ensures h in Hits(b, i, end, oldAddr)
    decreases |b| - i
  {
    if i < h {
      assert !Match(b, i, oldAddr);
      FirstMatchIsHit(b, i + 1, end, oldAddr, h);
    }
  }

  /** What a reader of a field takes from its byte at position i. */
  type View = (nat, byte) -> int

  /** A hit changes what a reader takes from the range lo, .., hi - 1. */
  ghost predicate Disturbs(h: nat, lo: nat, hi: nat, oldAddr: seq<byte>, newAddr: seq<byte>, view: View)
    requires |oldAddr| == 8 && |newAddr| == 8
  {
    exists p :: lo <= p < hi && Covers(h, p) && view(p - lo, oldAddr[p - h]) != view(p - lo, newAddr[p - h])
  }

  /** Two files read the same in the range lo, .., hi - 1. */
  ghost predicate ReadSame(a: seq<byte>, b: seq<byte>, lo: nat, hi: nat, view: View)
    requires hi <= |a| && hi <= |b|
  {
    forall p :: lo <= p < hi ==> view(p - lo, a[p]) == view(p - lo, b[p])
  }

  /** A field reads as before the scan exactly when no hit disturbs it. */
  lemma FieldSurvives(b: seq<byte>, i: nat, end: nat, oldAddr: seq<byte>, newAddr: seq<byte>, lo: nat, hi: nat,
                      view: View)
    requires |oldAddr| == 8 && |newAddr| == 8 && end <= |b| && lo <= hi <= |b|
    ensures ReadSame(Rewritten(b, i, end, oldAddr, newAddr), b, lo, hi, view) <==>
            forall h <- Hits(b, i, end, oldAddr) :: !Disturbs(h, lo, hi, oldAddr, newAddr, view)
  {
    var r, hits := Rewritten(b, i, end, oldAddr, newAddr), Hits(b, i, end, oldAddr);
    forall h, p | h in hits && lo <= p < hi && Covers(h, p)
      ensures r[p] == newAddr[p - h] && b[p] == oldAddr[p - h]
    {
      ScanResult(b, i, end, oldAddr, newAddr, p);
      HitsAreMatches(b, i, end, oldAddr, h);
      assert b[h..h + 8][p - h] == oldAddr[p - h];
    }
    if forall h <- hits :: !Disturbs(h, lo, hi, oldAddr, newAddr, view) {
      forall p | lo <= p < hi ensures view(p - lo, r[p]) == view(p - lo, b[p]) {
        ScanResult(b, i, end, oldAddr, newAddr, p);
        if h :| h in hits && Covers(h, p) { assert !Disturbs(h, lo, hi, oldAddr, newAddr, view); }
      }
    }
  }

  // ----- what a relocation guarantees, for arbitrary field patterns -----

  predicate IsOpWordByte(p: nat) {
    PROGRAM_SIZE_OFF <= p < PROGRAM_SIZE_OFF + 4 || STAGE_FLAGS_OFF <= p < STAGE_FLAGS_OFF + 4
    || OPCODE_OFF <= p < OPCODE_OFF + 4 || EXTRA_CONFIG_OFF <= p < EXTRA_CONFIG_OFF + 4
  }

  lemma SliceKept(a: seq<byte>, b: seq<byte>, lo: nat, hi: nat)
    requires lo <= hi <= |a| && hi <= |b| && forall p :: lo <= p < hi ==> a[p] == b[p]
    ensures a[lo..hi] == b[lo..hi]
  {
  }

  lemma FourWordsElsewhere(b: seq<byte>, w0: seq<byte>, w1: seq<byte>, w2: seq<byte>, w3: seq<byte>, p: nat)
    requires |b| >= MIN_SIZE && |w0| == |w1| == |w2| == |w3| == 4 && p < |b| && !IsOpWordByte(p)
    ensures FourWords(b, w0, w1, w2, w3)[p] == b[p]
  {
  }

  lemma FourWordsRead(b: seq<byte>, w0: seq<byte>, w1: seq<byte>, w2: seq<byte>, w3: seq<byte>)
    requires |b| >= MIN_SIZE && |w0| == |w1| == |w2| == |w3| == 4
    ensures var w := FourWords(b, w0, w1, w2, w3);
            && w[PROGRAM_SIZE_OFF..PROGRAM_SIZE_OFF + 4] == w0 && w[STAGE_FLAGS_OFF..STAGE_FLAGS_OFF + 4] == w1
            && w[OPCODE_OFF..OPCODE_OFF + 4] == w2 && w[EXTRA_CONFIG_OFF..EXTRA_CONFIG_OFF + 4] == w3
  {
    var b1 := Overwrite(b, PROGRAM_SIZE_OFF, w0);
    var b2 := Overwrite(b1, STAGE_FLAGS_OFF, w1);
    var b3 := Overwrite(b2, OPCODE_OFF, w2);
    var b4 := Overwrite(b3, EXTRA_CONFIG_OFF, w3);
    SliceKept(b4, b1, PROGRAM_SIZE_OFF, PROGRAM_SIZE_OFF + 4);
    SliceKept(b4, b2, STAGE_FLAGS_OFF, STAGE_FLAGS_OFF + 4);
    SliceKept(b4, b3, OPCODE_OFF, OPCODE_OFF + 4);
  }

  lemma HeaderKeepsText(m: seq<byte>, e: Fields, p: nat)
    requires |m| >= MIN_SIZE && FieldsOk(e) && TEXT_OFF <= p < |m|
    ensures HeaderUpdated(m, e)[p] == m[p]
  {
  }

  lemma HeaderFields(m: seq<byte>, e: Fields)
    requires |m| >= MIN_SIZE && FieldsOk(e)
    ensures var h := HeaderUpdated(m, e);
            && h[TEXT_SIZE_OFF..TEXT_SIZE_OFF + 8] == e.size && h[CONST_ADDR_OFF..CONST_ADDR_OFF + 8] == e.addr
            && h[CONST_FILE_OFF..CONST_FILE_OFF + 4] == e.file
  {
    var h1 := Overwrite(m, TEXT_SIZE_OFF, e.size);
    var h2 := Overwrite(h1, CONST_ADDR_OFF, e.addr);
    var h3 := Overwrite(h2, CONST_FILE_OFF, e.file);
    SliceKept(h3, h1, TEXT_SIZE_OFF, TEXT_SIZE_OFF + 8);
    SliceKept(h3, h2, CONST_ADDR_OFF, CONST_ADDR_OFF + 8);
  }

  /** Text below both ends is not touched by relocation. */
  lemma TextKept(w: seq<byte>, newText: nat, oldText: nat, e: Fields, p: nat)
    requires |w| >= MIN_SIZE && InBounds(w, newText, oldText) && FieldsOk(e)
    requires TEXT_OFF <= p < TEXT_OFF + oldText && p < TEXT_OFF + newText && p < |w|
    ensures Relocated(w, newText, oldText, e)[p] == w[p]
  {
    var g := Grown(w, newText);
    var t := TailCleared(g, newText, oldText);
    var m := ConstMoved(t, Saved(w, oldText), newText, oldText);
    assert g[p] == g[..|w|][p];
    assert m[p] == t[p] == g[p];
    HeaderKeepsText(m, e, p);
  }

  /** The constant section arrives unchanged. */
  lemma ConstArrives(w: seq<byte>, newText: nat, oldText: nat, e: Fields)
    requires |w| >= MIN_SIZE && HasConst(w, oldText) && InBounds(w, newText, oldText) && FieldsOk(e)
    ensures ConstBytes(Relocated(w, newText, oldText, e), newText)
         == ConstBytes(w, oldText)
  {
    var o, n := ConstOff(oldText), ConstOff(newText);
    var saved := Saved(w, oldText);
    var g := Grown(w, newText);
    var t := TailCleared(g, newText, oldText);
    var m := ConstMoved(t, saved, newText, oldText);
    if o == n {
      forall p | o <= p < o + CONST_SIZE ensures m[p] == w[p] { assert g[p] == g[..|w|][p]; }
      SliceKept(m, w, o, o + CONST_SIZE);
    }
    forall p | n <= p < n + CONST_SIZE ensures HeaderUpdated(m, e)[p] == m[p] { HeaderKeepsText(m, e, p); }
    SliceKept(HeaderUpdated(m, e), m, n, n + CONST_SIZE);
  }

  /** The scan and the instruction count leave everything from the text on alone. */
  lemma AboveHeader(moved: seq<byte>, e: Fields, p: nat)
    requires |moved| >= MIN_SIZE && FieldsOk(e) && TEXT_OFF <= p < |moved|
    ensures Finished(moved, e)[p] == moved[p]
  {
    ScanResult(moved, SCAN_START, TEXT_OFF, e.oldAddr, e.addr, p);
    forall h <- Hits(moved, SCAN_START, TEXT_OFF, e.oldAddr) ensures !Covers(h, p) {
      HitsAreMatches(moved, SCAN_START, TEXT_OFF, e.oldAddr, h);
    }
  }

  /** The scan changes what a reader takes from the range lo, .., hi - 1. */
  ghost predicate ScanDisturbs(moved: seq<byte>, e: Fields, lo: nat, hi: nat, view: View)
    requires |moved| >= TEXT_OFF && FieldsOk(e)
  {
    exists h :: h in Hits(moved, SCAN_START, TEXT_OFF, e.oldAddr) && Disturbs(h, lo, hi, e.oldAddr, e.addr, view)
  }

  /** A header field below the instruction count reads as before exactly when the scan does not disturb it. */
  lemma HeaderFieldSurvives(moved: seq<byte>, e: Fields, lo: nat, hi: nat, view: View)
    requires |moved| >= MIN_SIZE && FieldsOk(e) && lo <= hi <= INSTR_COUNT_OFF
    ensures ReadSame(Finished(moved, e), moved, lo, hi, view) <==> !ScanDisturbs(moved, e, lo, hi, view)
  {
    FieldSurvives(moved, SCAN_START, TEXT_OFF, e.oldAddr, e.addr, lo, hi, view);
    var scanned, r := Rewritten(moved, SCAN_START, TEXT_OFF, e.oldAddr, e.addr), Finished(moved, e);
    assert forall p :: lo <= p < hi ==> r[p] == scanned[p];
  }

  // ----- what a resize guarantees -----

  /** A resize between two layouts that both contain the patched op words. */
  ghost predicate Resizable(w: seq<byte>, newText: nat, oldText: nat) {
    |w| >= MIN_SIZE && HasConst(w, oldText) && newText >= 96 && oldText >= 96
  }

  lemma ResizableInBounds(w: seq<byte>, newText: nat, oldText: nat)
    requires Resizable(w, newText, oldText)
    ensures InBounds(w, newText, oldText)
  {
  }

  lemma ResizedText(w: seq<byte>, newText: nat, oldText: nat, e: Fields)
    requires Resizable(w, newText, oldText) && InBounds(w, newText, oldText) && FieldsOk(e)
    ensures TextShared(w, newText, oldText, Finished(Relocated(w, newText, oldText, e), e))
  {
    var moved := Relocated(w, newText, oldText, e);
    forall p | TEXT_OFF <= p < TEXT_OFF + oldText && p < TEXT_OFF + newText ensures Finished(moved, e)[p] == w[p] {
      AboveHeader(moved, e, p);
      TextKept(w, newText, oldText, e, p);
    }
  }

  lemma FinishedKeepsAbove(moved: seq<byte>, e: Fields, lo: nat, hi: nat)
    requires |moved| >= MIN_SIZE && FieldsOk(e) && TEXT_OFF <= lo <= hi <= |moved|
    ensures Finished(moved, e)[lo..hi] == moved[lo..hi]
  {
    var r := Finished(moved, e);
    forall p | lo <= p < hi ensures r[p] == moved[p] { AboveHeader(moved, e, p); }
    SliceKept(r, moved, lo, hi);
  }

  lemma ResizedConst(w: seq<byte>, newText: nat, oldText: nat, e: Fields)
    requires Resizable(w, newText, oldText) && InBounds(w, newText, oldText) && FieldsOk(e)
    ensures ConstTaken(w, newText, oldText, Finished(Relocated(w, newText, oldText, e), e))
  {
    ConstArrives(w, newText, oldText, e);
    var moved := Relocated(w, newText, oldText, e);
    FinishedKeepsConst(moved, e, newText);
    ConstTakenOn(w, moved, newText, oldText, Finished(moved, e));
  }

  lemma FinishedKeepsConst(moved: seq<byte>, e: Fields, text: nat)
    requires |moved| >= MIN_SIZE && FieldsOk(e) && HasConst(moved, text)
    ensures ConstBytes(Finished(moved, e), text) == ConstBytes(moved, text)
  {
    ConstAligned(text);
    FinishedKeepsAbove(moved, e, ConstOff(text), ConstOff(text) + CONST_SIZE);
  }

  lemma ConstAligned(text: nat)
    ensures ConstOff(text) % 64 == 0 && TEXT_OFF + text <= ConstOff(text) < TEXT_OFF + text + 64
  {
  }

  /** Taking the section over step by step. */
  lemma ConstTakenOn(w: seq<byte>, moved: seq<byte>, newText: nat, oldText: nat, r: seq<byte>)
    requires HasConst(w, oldText) && HasConst(moved, newText) && HasConst(r, newText)
    requires ConstBytes(moved, newText) == ConstBytes(w, oldText)
    requires ConstBytes(r, newText) == ConstBytes(moved, newText)
    ensures ConstTaken(w, newText, oldText, r)
  {
    ConstAligned(newText);
  }

  lemma ConstTakenFrom(b: seq<byte>, w: seq<byte>, newText: nat, oldText: nat, r: seq<byte>)
    requires ConstTaken(w, newText, oldText, r) && HasConst(b, oldText)
    requires ConstBytes(w, oldText) == ConstBytes(b, oldText)
    ensures ConstTaken(b, newText, oldText, r)
  {
  }

  lemma ResizedHeader(w: seq<byte>, newText: nat, oldText: nat, e: Fields, view: View)
    requires |w| >= MIN_SIZE && InBounds(w, newText, oldText) && FieldsOk(e)
    ensures HeaderReads(Relocated(w, newText, oldText, e), e, view)
  {
    var moved := Relocated(w, newText, oldText, e);
    MovedTextSize(w, newText, oldText, e);
    HeaderFieldSurvives(moved, e, TEXT_SIZE_OFF, TEXT_SIZE_OFF + 8, view);
    SizeIsPattern(moved, e, view);
  }

  lemma SizeIsPattern(moved: seq<byte>, e: Fields, view: View)
    requires |moved| >= MIN_SIZE && FieldsOk(e) && moved[TEXT_SIZE_OFF..TEXT_SIZE_OFF + 8] == e.size
    ensures ReadSame(Finished(moved, e), moved, TEXT_SIZE_OFF, TEXT_SIZE_OFF + 8, view)
       <==> SizeReads(Finished(moved, e), e.size, view)
  {
    var r := Finished(moved, e);
    forall i: nat | i < 8 ensures moved[TEXT_SIZE_OFF + i] == e.size[i] {
      assert moved[TEXT_SIZE_OFF..TEXT_SIZE_OFF + 8][i] == e.size[i];
    }
    if SizeReads(r, e.size, view) {
      forall p | TEXT_SIZE_OFF <= p < TEXT_SIZE_OFF + 8
        ensures view(p - TEXT_SIZE_OFF, r[p]) == view(p - TEXT_SIZE_OFF, moved[p])
      {
        var i := p - TEXT_SIZE_OFF;
        assert view(i, r[TEXT_SIZE_OFF + i]) == view(i, e.size[i]);
      }
    }
  }

  /** The size field reads like the pattern. */
  ghost predicate SizeReads(r: seq<byte>, size: seq<byte>, view: View)
    requires |r| >= MIN_SIZE && |size| == 8
  {
    forall i: nat :: i < 8 ==> view(i, r[TEXT_SIZE_OFF + i]) == view(i, size[i])
  }

  /** After the scan the count holds its pattern, and the size field reads like its own exactly when not
      disturbed. */
  ghost predicate HeaderReads(moved: seq<byte>, e: Fields, view: View) {
    && |moved| >= MIN_SIZE && FieldsOk(e)
    && var r := Finished(moved, e);
    && r[INSTR_COUNT_OFF..INSTR_COUNT_OFF + 4] == e.count
    && (SizeReads(r, e.size, view) <==> !ScanDisturbs(moved, e, TEXT_SIZE_OFF, TEXT_SIZE_OFF + 8, view))
  }

  ghost predicate TextShared(w: seq<byte>, newText: nat, oldText: nat, r: seq<byte>) {
    && |w| >= TEXT_OFF + oldText && |r| >= TEXT_OFF + newText
    && forall p :: TEXT_OFF <= p < TEXT_OFF + oldText && p < TEXT_OFF + newText ==> r[p] == w[p]
  }

  ghost predicate ConstTaken(w: seq<byte>, newText: nat, oldText: nat, r: seq<byte>) {
    var n := ConstOff(newText);
    && n % 64 == 0 && TEXT_OFF + newText <= n < TEXT_OFF + newText + 64
    && HasConst(w, oldText) && HasConst(r, newText)
    && ConstBytes(r, newText) == ConstBytes(w, oldText)
  }

  lemma MovedTextSize(w: seq<byte>, newText: nat, oldText: nat, e: Fields)
    requires |w| >= MIN_SIZE && InBounds(w, newText, oldText) && FieldsOk(e)
    ensures Relocated(w, newText, oldText, e)[TEXT_SIZE_OFF..TEXT_SIZE_OFF + 8] == e.size
  {
    HeaderFields(ConstMoved(TailCleared(Grown(w, newText), newText, oldText), Saved(w, oldText), newText, oldText), e);
  }

  // ----- the patch theorems -----

  /** A patch that changes the word count, between two layouts that both contain the op words. */
  ghost predicate Relocatable(b: seq<byte>, c: OpConfig, was: OpConfig) {
    && ValidHwx(b) && c.numWords != was.numWords
    && 24 <= c.numWords < 0x4000_0000 && 24 <= was.numWords < 0x4000_0000
    && HasConst(b, 4 * was.numWords)
  }

  lemma PatchIsResize(b: seq<byte>, c: OpConfig, was: OpConfig)
    requires Relocatable(b, c, was)
    ensures InBounds(b, TextBytes(c.numWords), TextBytes(was.numWords))
    ensures Resizable(WithOpWords(b, c), 4 * c.numWords, 4 * was.numWords)
    ensures InBounds(WithOpWords(b, c), 4 * c.numWords, 4 * was.numWords)
    ensures Patched(b, c, was) == Resized(WithOpWords(b, c), c.numWords, 4 * c.numWords, 4 * was.numWords)
  {
    assert TextBytes(c.numWords) == 4 * c.numWords && TextBytes(was.numWords) == 4 * was.numWords;
    ResizableInBounds(b, 4 * c.numWords, 4 * was.numWords);
    ResizableInBounds(WithOpWords(b, c), 4 * c.numWords, 4 * was.numWords);
  }

  /** Everything the resize promises about a file w whose op words are in place. */
  lemma ResizeWorks(w: seq<byte>, words: u32, newText: nat, oldText: nat, view: View)
    requires Resizable(w, newText, oldText) && InBounds(w, newText, oldText)
    ensures var r, e := Resized(w, words, newText, oldText), FieldsFor(words, newText, oldText);
            && TextShared(w, newText, oldText, r) && ConstTaken(w, newText, oldText, r)
            && HeaderReads(Relocated(w, newText, oldText, e), e, view)
  {
    var e := FieldsFor(words, newText, oldText);
    ResizedText(w, newText, oldText, e);
    ResizedConst(w, newText, oldText, e);
    ResizedHeader(w, newText, oldText, e, view);
  }

  /** All shared text words other than the four op words keep their value. */
  lemma PatchKeepsText(b: seq<byte>, c: OpConfig, was: OpConfig, p: nat)
    requires Relocatable(b, c, was)
    requires TEXT_OFF <= p < TEXT_OFF + 4 * c.numWords && p < TEXT_OFF + 4 * was.numWords && !IsOpWordByte(p)
    ensures InBounds(b, TextBytes(c.numWords), TextBytes(was.numWords))
    ensures p < |b| && p < |Patched(b, c, was)| && Patched(b, c, was)[p] == b[p]
  {
    PatchIsResize(b, c, was);
    ResizeWorks(WithOpWords(b, c), c.numWords, 4 * c.numWords, 4 * was.numWords, Exact);
    OpWordsElsewhere(b, c, p);
  }

  /** The constant section moves unchanged to its new aligned offset. */
  lemma PatchMovesConst(b: seq<byte>, c: OpConfig, was: OpConfig)
    requires Relocatable(b, c, was)
    ensures InBounds(b, TextBytes(c.numWords), TextBytes(was.numWords))
    ensures ConstTaken(b, 4 * c.numWords, 4 * was.numWords, Patched(b, c, was))
  {
    PatchIsResize(b, c, was);
    ResizeWorks(WithOpWords(b, c), c.numWords, 4 * c.numWords, 4 * was.numWords, Exact);
    OpWordsKeepConst(b, c, 4 * was.numWords);
    ConstTakenFrom(b, WithOpWords(b, c), 4 * c.numWords, 4 * was.numWords, Patched(b, c, was));
  }

  lemma OpWordsElsewhere(b: seq<byte>, c: OpConfig, p: nat)
    requires |b| >= MIN_SIZE && p < |b| && !IsOpWordByte(p)
    ensures WithOpWords(b, c)[p] == b[p]
  {
    FourWordsElsewhere(b, Bytes(c.programSize, 4), Bytes(c.stageFlags, 4), Bytes(c.opcode, 4),
                       Bytes(c.extraConfig, 4), p);
  }

  lemma OpWordsKeepConst(b: seq<byte>, c: OpConfig, text: nat)
    requires |b| >= MIN_SIZE && HasConst(b, text) && text >= 96
    ensures ConstBytes(WithOpWords(b, c), text) == ConstBytes(b, text)
  {
    ConstAligned(text);
    OpWordsKeepAbove(b, c, ConstOff(text), ConstOff(text) + CONST_SIZE);
  }

  lemma OpWordsKeepAbove(b: seq<byte>, c: OpConfig, lo: nat, hi: nat)
    requires MIN_SIZE <= lo <= hi <= |b|
    ensures WithOpWords(b, c)[lo..hi] == b[lo..hi]
  {
    var w0, w1, w2, w3 := Bytes(c.programSize, 4), Bytes(c.stageFlags, 4), Bytes(c.opcode, 4), Bytes(c.extraConfig, 4);
    FourWordsKeepAbove(b, w0, w1, w2, w3, lo, hi);
  }

  lemma FourWordsKeepAbove(b: seq<byte>, w0: seq<byte>, w1: seq<byte>, w2: seq<byte>, w3: seq<byte>, lo: nat, hi: nat)
    requires |w0| == |w1| == |w2| == |w3| == 4 && MIN_SIZE <= lo <= hi <= |b|
    ensures FourWords(b, w0, w1, w2, w3)[lo..hi] == b[lo..hi]
  {
    forall p | lo <= p < hi ensures FourWords(b, w0, w1, w2, w3)[p] == b[p] {
      FourWordsElsewhere(b, w0, w1, w2, w3, p);
    }
    SliceKept(FourWords(b, w0, w1, w2, w3), b, lo, hi);
  }

  lemma PowFacts()
    ensures Pow256(4) == 0x1_0000_0000 && Pow256(8) == 0x1_0000_0000_0000_0000
  {
    assert Pow256(4) == 256 * 256 * 256 * 256;
    assert Pow256(6) == 256 * 256 * Pow256(4);
    assert Pow256(8) == 256 * 256 * Pow256(6);
  }

  lemma WordOf(r: seq<byte>, off: nat, v: u32)
    requires off + 4 <= |r| && r[off..off + 4] == Bytes(v, 4)
    ensures Word(r, off) == v
  {
    PowFacts();
    BytesRoundTrip(v, 4);
  }

  /** The four op words hold the configuration. */
  ghost predicate HoldsOpWords(r: seq<byte>, c: OpConfig) {
    && |r| >= MIN_SIZE
    && Word(r, PROGRAM_SIZE_OFF) == c.programSize && Word(r, STAGE_FLAGS_OFF) == c.stageFlags
    && Word(r, OPCODE_OFF) == c.opcode && Word(r, EXTRA_CONFIG_OFF) == c.extraConfig
  }

  lemma OpWordsWritten(b: seq<byte>, c: OpConfig)
    requires |b| >= MIN_SIZE
    ensures HoldsOpWords(WithOpWords(b, c), c)
  {
    var w := WithOpWords(b, c);
    FourWordsRead(b, Bytes(c.programSize, 4), Bytes(c.stageFlags, 4), Bytes(c.opcode, 4), Bytes(c.extraConfig, 4));
    WordOf(w, PROGRAM_SIZE_OFF, c.programSize);
    WordOf(w, STAGE_FLAGS_OFF, c.stageFlags);
    WordOf(w, OPCODE_OFF, c.opcode);
    WordOf(w, EXTRA_CONFIG_OFF, c.extraConfig);
  }

  lemma OpWordsShared(w: seq<byte>, newText: nat, oldText: nat, r: seq<byte>, c: OpConfig)
    requires TextShared(w, newText, oldText, r) && newText >= 96 && oldText >= 96 && HoldsOpWords(w, c)
    ensures HoldsOpWords(r, c)
  {
    SliceKept(r, w, PROGRAM_SIZE_OFF, PROGRAM_SIZE_OFF + 4);
    SliceKept(r, w, STAGE_FLAGS_OFF, STAGE_FLAGS_OFF + 4);
    SliceKept(r, w, OPCODE_OFF, OPCODE_OFF + 4);
    SliceKept(r, w, EXTRA_CONFIG_OFF, EXTRA_CONFIG_OFF + 4);
  }

  /** The four op words read back as the new configuration, whatever else the patch does. */
  lemma OpWordsReadBack(b: seq<byte>, c: OpConfig, was: OpConfig)
    requires Relocatable(b, c, was)
    ensures InBounds(b, TextBytes(c.numWords), TextBytes(was.numWords))
    ensures HoldsOpWords(Patched(b, c, was), c)
  {
    PatchIsResize(b, c, was);
    var w := WithOpWords(b, c);
    ResizeWorks(w, c.numWords, 4 * c.numWords, 4 * was.numWords, Exact);
    OpWordsWritten(b, c);
    OpWordsShared(w, 4 * c.numWords, 4 * was.numWords, Patched(b, c, was), c);
  }

  /** Reading every bit of a field. */
  function Exact(i: nat, x: byte): int {
    x
  }

  /** Reading what the word count takes from the section size: bits 2 to 33. */
  function CountBits(i: nat, x: byte): int {
    if i == 0 then x / 4 else if i < 4 then x else if i == 4 then x % 4 else 0
  }

  /** The replaced addresses of a patch change what a reader takes from the section-size field. */
  ghost predicate SizeDisturbed(b: seq<byte>, c: OpConfig, was: OpConfig, view: View)
    requires Relocatable(b, c, was)
  {
    PatchIsResize(b, c, was);
    var newText, oldText := 4 * c.numWords, 4 * was.numWords;
    var e := FieldsFor(c.numWords, newText, oldText);
    ScanDisturbs(Relocated(WithOpWords(b, c), newText, oldText, e), e, TEXT_SIZE_OFF, TEXT_SIZE_OFF + 8, view)
  }

  /** The size field of a patched file reads like the new size exactly when not disturbed. */
  lemma PatchedSizeReads(b: seq<byte>, c: OpConfig, was: OpConfig, view: View)
    requires Relocatable(b, c, was)
    ensures InBounds(b, TextBytes(c.numWords), TextBytes(was.numWords)) && |Patched(b, c, was)| >= MIN_SIZE
    ensures SizeReads(Patched(b, c, was), Bytes(4 * c.numWords, 8), view) <==> !SizeDisturbed(b, c, was, view)
    ensures Word(Patched(b, c, was), INSTR_COUNT_OFF) == c.numWords
  {
    PatchIsResize(b, c, was);
    ResizeWorks(WithOpWords(b, c), c.numWords, 4 * c.numWords, 4 * was.numWords, view);
    WordOf(Patched(b, c, was), INSTR_COUNT_OFF, c.numWords);
  }

  lemma SizeField(r: seq<byte>, text: nat)
    requires |r| >= MIN_SIZE && text < 0x1_0000_0000_0000_0000
    ensures Rd(r, TEXT_SIZE_OFF, 8) == text <==> SizeReads(r, Bytes(text, 8), Exact)
  {
    PowFacts();
    BytesRoundTrip(text, 8);
    var f, size := r[TEXT_SIZE_OFF..TEXT_SIZE_OFF + 8], Bytes(text, 8);
    if Val(f) == text { ValInjective(f, size); }
    if SizeReads(r, size, Exact) {
      forall i: nat | i < 8 ensures f[i] == size[i] { assert Exact(i, r[TEXT_SIZE_OFF + i]) == Exact(i, size[i]); }
      assert f == size;
    }
  }

  /** The section size reads back exactly when no replaced address overlaps that field in a byte in which
      the two addresses differ; the instruction count always reads back. */
  lemma SizeReadBack(b: seq<byte>, c: OpConfig, was: OpConfig)
    requires Relocatable(b, c, was)
    ensures InBounds(b, TextBytes(c.numWords), TextBytes(was.numWords)) && |Patched(b, c, was)| >= MIN_SIZE
    ensures Rd(Patched(b, c, was), TEXT_SIZE_OFF, 8) == 4 * c.numWords <==> !SizeDisturbed(b, c, was, Exact)
    ensures Word(Patched(b, c, was), INSTR_COUNT_OFF) == c.numWords
  {
    PatchedSizeReads(b, c, was, Exact);
    SizeField(Patched(b, c, was), 4 * c.numWords);
  }

  /** The word count of a size, from its bytes. */
  function CountOf(f: seq<byte>): nat
    requires |f| == 8
  {
    f[0] as int / 4 + 64 * (f[1] as int + 256 * (f[2] as int + 256 * (f[3] as int + 256 * (f[4] as int % 4))))
  }

  lemma ValSplit(f: seq<byte>) returns (t: nat)
    requires |f| == 8
    ensures t == Val(f[5..])
    ensures Val(f) == f[0] as int
              + 256 * (f[1] as int + 256 * (f[2] as int + 256 * (f[3] as int + 256 * (f[4] as int + 256 * t))))
  {
    var f1, f2, f3 := f[1..], f[2..], f[3..];
    var f4, f5 := f[4..], f[5..];
    assert f1[1..] == f2 && f2[1..] == f3 && f3[1..] == f4 && f4[1..] == f5;
    assert Val(f4) == f4[0] as int + 256 * Val(f5);
    assert Val(f3) == f3[0] as int + 256 * Val(f4);
    assert Val(f2) == f2[0] as int + 256 * Val(f3);
    assert Val(f1) == f1[0] as int + 256 * Val(f2);
    t := Val(f5);
  }

  lemma CountIsCountOf(f: seq<byte>)
    requires |f| == 8
    ensures Val(f) / 4 % 0x1_0000_0000 == CountOf(f)
  {
    var t := ValSplit(f);
    CountNumeral(f[0], f[1], f[2], f[3], f[4], t);
  }

  lemma CountNumeral(f0: byte, f1: byte, f2: byte, f3: byte, f4: byte, t: nat)
    ensures (f0 + 256 * (f1 + 256 * (f2 + 256 * (f3 + 256 * (f4 + 256 * t))))) / 4 % 0x1_0000_0000
         == f0 / 4 + 64 * (f1 + 256 * (f2 + 256 * (f3 + 256 * (f4 % 4))))
  {
    var rest := f1 + 256 * (f2 + 256 * (f3 + 256 * (f4 + 256 * t)));
    var count := f0 / 4 + 64 * (f1 + 256 * (f2 + 256 * (f3 + 256 * (f4 % 4))));
    var hi := f4 / 4 + 64 * t;
    assert (f0 + 256 * rest) / 4 == f0 / 4 + 64 * rest;
    assert f4 + 256 * t == f4 % 4 + 4 * hi;
    assert f0 / 4 + 64 * rest == count + 0x1_0000_0000 * hi;
    DivModUnique(count + 0x1_0000_0000 * hi, 0x1_0000_0000, hi, count);
  }

  /** Mixed-radix numerals are equal exactly when all their digits are. */
  lemma SameNumeral(a0: nat, a1: nat, a2: nat, a3: nat, a4: nat, b0: nat, b1: nat, b2: nat, b3: nat, b4: nat)
    requires a0 < 64 && a1 < 256 && a2 < 256 && a3 < 256 && b0 < 64 && b1 < 256 && b2 < 256 && b3 < 256
    ensures a0 + 64 * (a1 + 256 * (a2 + 256 * (a3 + 256 * a4))) == b0 + 64 * (b1 + 256 * (b2 + 256 * (b3 + 256 * b4)))
       <==> a0 == b0 && a1 == b1 && a2 == b2 && a3 == b3 && a4 == b4
  {
    var x3, y3 := a3 + 256 * a4, b3 + 256 * b4;
    var x2, y2 := a2 + 256 * x3, b2 + 256 * y3;
    var x1, y1 := a1 + 256 * x2, b1 + 256 * y2;
    if a0 + 64 * x1 == b0 + 64 * y1 {
      RemainderUnique(64, x1, a0, y1, b0);
      RemainderUnique(256, x2, a1, y2, b1);
      RemainderUnique(256, x3, a2, y3, b2);
      RemainderUnique(256, a4, a3, b4, b3);
    }
  }

  lemma SameCount(f: seq<byte>, g: seq<byte>)
    requires |f| == |g| == 8
    ensures CountOf(f) == CountOf(g) <==> ReadSame(f, g, 0, 8, CountBits)
  {
    SameNumeral(f[0] / 4, f[1], f[2], f[3], f[4] % 4, g[0] / 4, g[1], g[2], g[3], g[4] % 4);
    SameViews(f, g);
  }

  lemma SameViews(f: seq<byte>, g: seq<byte>)
    requires |f| == |g| == 8
    ensures ReadSame(f, g, 0, 8, CountBits)
       <==> f[0] / 4 == g[0] / 4 && f[1] == g[1] && f[2] == g[2] && f[3] == g[3] && f[4] % 4 == g[4] % 4
  {
    if ReadSame(f, g, 0, 8, CountBits) {
      assert CountBits(0 - 0, f[0]) == CountBits(0 - 0, g[0]);
      assert CountBits(1 - 0, f[1]) == CountBits(1 - 0, g[1]);
      assert CountBits(2 - 0, f[2]) == CountBits(2 - 0, g[2]);
      assert CountBits(3 - 0, f[3]) == CountBits(3 - 0, g[3]);
      assert CountBits(4 - 0, f[4]) == CountBits(4 - 0, g[4]);
    }
  }

  lemma CountField(r: seq<byte>, words: u32)
    requires |r| >= MIN_SIZE
    ensures Extract(r).numWords == words <==> SizeReads(r, Bytes(4 * words, 8), CountBits)
  {
    var f, size := r[TEXT_SIZE_OFF..TEXT_SIZE_OFF + 8], Bytes(4 * words, 8);
    CountIsCountOf(f);
    CountOfSize(words);
    SameCount(f, size);
    FieldReads(r, f, size);
  }

  lemma CountOfSize(words: u32)
    ensures CountOf(Bytes(4 * words, 8)) == words
  {
    PowFacts();
    BytesRoundTrip(4 * words, 8);
    CountIsCountOf(Bytes(4 * words, 8));
  }

  lemma FieldReads(r: seq<byte>, f: seq<byte>, size: seq<byte>)
    requires |r| >= MIN_SIZE && f == r[TEXT_SIZE_OFF..TEXT_SIZE_OFF + 8] && |size| == 8
    ensures SizeReads(r, size, CountBits) <==> ReadSame(f, size, 0, 8, CountBits)
  {
    forall i: nat | i < 8 ensures f[i] == r[TEXT_SIZE_OFF + i] {}
    if ReadSame(f, size, 0, 8, CountBits) {
      forall i: nat | i < 8 ensures CountBits(i, r[TEXT_SIZE_OFF + i]) == CountBits(i, size[i]) {
        assert CountBits(i - 0, f[i]) == CountBits(i - 0, size[i]);
      }
    }
  }

  /** The round trip between two layouts that contain the op words: a patch reads back as the configuration it
      was given exactly when no replaced address changes bits 2 to 33 of the section size. */
  lemma RelocationReadsBack(b: seq<byte>, c: OpConfig, was: OpConfig)
    requires Relocatable(b, c, was)
    ensures InBounds(b, TextBytes(c.numWords), TextBytes(was.numWords))
    ensures Extract(Patched(b, c, was)) == c <==> !SizeDisturbed(b, c, was, CountBits)
  {
    OpWordsReadBack(b, c, was);
    PatchedSizeReads(b, c, was, CountBits);
    CountField(Patched(b, c, was), c.numWords);
    ExtractIs(Patched(b, c, was), c);
  }

  lemma ExtractIs(r: seq<byte>, c: OpConfig)
    requires HoldsOpWords(r, c)
    ensures Extract(r) == c <==> Extract(r).numWords == c.numWords
  {
  }

  /** Without a layout change only the op words change, and the result reads back with the file's own
      word count. */
  lemma SameSizeReadsBack(b: seq<byte>, c: OpConfig, was: OpConfig)
    requires ValidHwx(b) && c.numWords == was.numWords
    ensures Extract(Patched(b, c, was)) == c.(numWords := Extract(b).numWords)
    ensures |Patched(b, c, was)| == |b|
    ensures forall p: nat :: p < |b| && !IsOpWordByte(p) ==> Patched(b, c, was)[p] == b[p]
  {
    OpWordsWritten(b, c);
    var w := WithOpWords(b, c);
    forall p: nat | p < |b| && !IsOpWordByte(p) ensures w[p] == b[p] {
      OpWordsElsewhere(b, c, p);
    }
    SliceKept(w, b, TEXT_SIZE_OFF, TEXT_SIZE_OFF + 8);
  }

  // ----- a straddling match does occur -----

  /** A file of zeros behind the magic number, but for its section size. */
  function SizedFile(n: nat, size: seq<byte>): (b: seq<byte>)
    requires n >= MIN_SIZE && |size| == 8
    ensures |b| == n
  {
    Overwrite([0xCE, 0xFA, 0xEF, 0xBE] + Zeros(n - 4), TEXT_SIZE_OFF, size)
  }

  lemma SizedFileBytes(n: nat, size: seq<byte>)
    requires n >= MIN_SIZE && |size| == 8
    ensures var b := SizedFile(n, size);
            && b[0..4] == [0xCE, 0xFA, 0xEF, 0xBE] && b[TEXT_SIZE_OFF..TEXT_SIZE_OFF + 8] == size
            && forall p :: 4 <= p < TEXT_SIZE_OFF ==> b[p] == 0
  {
    var blank: seq<byte> := [0xCE, 0xFA, 0xEF, 0xBE] + Zeros(n - 4);
    assert blank[0..4] == [0xCE, 0xFA, 0xEF, 0xBE];
    SliceKept(SizedFile(n, size), blank, 0, 4);
  }

  lemma MagicBytes(s: seq<byte>)
    requires s == [0xCE, 0xFA, 0xEF, 0xBE]
    ensures Val(s) == MAGIC
  {
    var s1, s2, s3 := s[1..], s[2..], s[3..];
    assert s1[1..] == s2 && s2[1..] == s3 && s3[1..] == [];
    assert Val(s3) == 0xBE && Val(s2) == 0xEF + 256 * Val(s3) && Val(s1) == 0xFA + 256 * Val(s2);
  }

  /** It is valid, and its word count is that of the size written into it. */
  lemma SizedFileReads(n: nat, text: nat)
    requires n >= MIN_SIZE && text < 0x1_0000_0000
    ensures ValidHwx(SizedFile(n, Bytes(text, 8))) && Extract(SizedFile(n, Bytes(text, 8))).numWords == text / 4
  {
    SizedFileBytes(n, Bytes(text, 8));
    MagicBytes(SizedFile(n, Bytes(text, 8))[0..4]);
    PowFacts();
    BytesRoundTrip(text, 8);
  }

  lemma StraddleHit(moved: seq<byte>, e: Fields)
    requires |moved| >= MIN_SIZE && FieldsOk(e)
    requires forall p :: SCAN_START <= p < TEXT_SIZE_OFF ==> moved[p] == 0
    requires moved[TEXT_SIZE_OFF..TEXT_SIZE_OFF + 8] == e.size == [4, 0x30, 0, 0, 0, 0, 0, 0]
    requires e.oldAddr == [0, 0, 4, 0x30, 0, 0, 0, 0] && e.addr[2] == 0
    ensures Finished(moved, e)[TEXT_SIZE_OFF] == 0
    ensures ScanDisturbs(moved, e, TEXT_SIZE_OFF, TEXT_SIZE_OFF + 8, CountBits)
  {
    var h := TEXT_SIZE_OFF - 2;
    forall k | 0 <= k < 8 ensures moved[h..h + 8][k] == e.oldAddr[k] {
      if k >= 2 { assert moved[h + k] == moved[TEXT_SIZE_OFF..TEXT_SIZE_OFF + 8][k - 2]; }
    }
    assert moved[h..h + 8] == e.oldAddr;
    forall q | SCAN_START <= q < h ensures !Match(moved, q, e.oldAddr) {
      assert moved[q..q + 8][2] == moved[q + 2] == 0;
    }
    FirstMatchIsHit(moved, SCAN_START, TEXT_OFF, e.oldAddr, h);
    assert Covers(h, TEXT_SIZE_OFF);
    ScanResult(moved, SCAN_START, TEXT_OFF, e.oldAddr, e.addr, TEXT_SIZE_OFF);
    assert Disturbs(h, TEXT_SIZE_OFF, TEXT_SIZE_OFF + 8, e.oldAddr, e.addr, CountBits);
  }

  /** Below the section-size field relocation changes nothing. */
  lemma FrontKept(w: seq<byte>, newText: nat, oldText: nat, e: Fields, p: nat)
    requires |w| >= MIN_SIZE && InBounds(w, newText, oldText) && FieldsOk(e) && p < TEXT_SIZE_OFF
    ensures Relocated(w, newText, oldText, e)[p] == w[p]
  {
    var g := Grown(w, newText);
    var t := TailCleared(g, newText, oldText);
    var m := ConstMoved(t, Saved(w, oldText), newText, oldText);
    assert g[p] == g[..|w|][p];
    assert m[p] == t[p] == g[p];
  }

  lemma {:induction false} BytesOfVal(s: seq<byte>)
    ensures Bytes(Val(s), |s|) == s
  {
    if s != [] {
      DivModUnique(Val(s), 256, Val(s[1..]), s[0] as int);
      BytesOfVal(s[1..]);
      assert s == [s[0]] + s[1..];
    }
  }

  lemma {:induction false} ZeroVal(s: seq<byte>)
    requires forall i :: 0 <= i < |s| ==> s[i] == 0
    ensures Val(s) == 0
  {
    if s != [] { ZeroVal(s[1..]); }
  }

  lemma Bytes8(v: nat, s: seq<byte>)
    requires |s| == 8 && v == s[0] as int + 256 * (s[1] as int + 256 * (s[2] as int + 256 * (s[3] as int)))
    requires s[4] == s[5] == s[6] == s[7] == 0
    ensures Bytes(v, 8) == s
  {
    var t := ValSplit(s);
    ZeroVal(s[5..]);
    BytesOfVal(s);
  }

  /** An op of 0xC01 words emitted into a file captured with 0xE000 words makes the scan overwrite the size
      just written: the word count does not read back. */
  lemma SizeCanBeMisread(n: nat, text: nat, c: OpConfig)
    requires n == 0x40000 && text == 0x38000 && c.numWords == 0xC01
    ensures var tmpl := SizedFile(n, Bytes(text, 8));
            && ValidHwx(tmpl) && Extract(tmpl).numWords == 0xE000
            && Relocatable(tmpl, c, Extract(tmpl)) && SizeDisturbed(tmpl, c, Extract(tmpl), CountBits)
            && Emittable(tmpl, c) && Extract(Emitted(tmpl, c)) != c
  {
    var tmpl := SizedFile(n, Bytes(text, 8));
    SizedFileReads(n, text);
    SizedFileBytes(n, Bytes(text, 8));
    MisreadEmission(tmpl, c, Extract(tmpl));
  }

  lemma MisreadEmission(b: seq<byte>, c: OpConfig, was: OpConfig)
    requires ValidHwx(b) && |b| == 0x40000 && c.numWords == 0xC01 && was.numWords == 0xE000
    requires forall p :: 4 <= p < TEXT_SIZE_OFF ==> b[p] == 0
    ensures Relocatable(b, c, was) && SizeDisturbed(b, c, was, CountBits)
    ensures InBounds(b, TextBytes(c.numWords), TextBytes(was.numWords)) && Extract(Patched(b, c, was)) != c
  {
    var newText, oldText := 4 * c.numWords, 4 * was.numWords;
    MisreadRelocatable(b, c, was);
    PatchIsResize(b, c, was);
    ZeroFront(b, c);
    MisreadFields(c.numWords, newText, oldText);
    MisreadResize(WithOpWords(b, c), newText, oldText, FieldsFor(c.numWords, newText, oldText));
    RelocationReadsBack(b, c, was);
  }

  lemma MisreadRelocatable(b: seq<byte>, c: OpConfig, was: OpConfig)
    requires ValidHwx(b) && |b| == 0x40000 && c.numWords == 0xC01 && was.numWords == 0xE000
    ensures Relocatable(b, c, was)
  {
  }

  lemma ZeroFront(b: seq<byte>, c: OpConfig)
    requires |b| >= MIN_SIZE && forall p :: 4 <= p < TEXT_SIZE_OFF ==> b[p] == 0
    ensures forall p :: SCAN_START <= p < TEXT_SIZE_OFF ==> WithOpWords(b, c)[p] == 0
  {
    forall p | SCAN_START <= p < TEXT_SIZE_OFF ensures WithOpWords(b, c)[p] == 0 { OpWordsElsewhere(b, c, p); }
  }

  lemma MisreadFields(words: u32, newText: nat, oldText: nat)
    requires newText == 0x3004 && oldText == 0x38000
    ensures var e := FieldsFor(words, newText, oldText);
            && e.size == [4, 0x30, 0, 0, 0, 0, 0, 0] && e.oldAddr == [0, 0, 4, 0x30, 0, 0, 0, 0] && e.addr[2] == 0
  {
    assert ConstAddr(newText) == 0x3000B040 && ConstAddr(oldText) == 0x30040000;
    Bytes8(newText, [4, 0x30, 0, 0, 0, 0, 0, 0]);
    Bytes8(ConstAddr(newText), [0x40, 0xB0, 0, 0x30, 0, 0, 0, 0]);
    Bytes8(ConstAddr(oldText), [0, 0, 4, 0x30, 0, 0, 0, 0]);
  }

  lemma MisreadResize(w: seq<byte>, newText: nat, oldText: nat, e: Fields)
    requires |w| >= MIN_SIZE && InBounds(w, newText, oldText) && FieldsOk(e)
    requires forall p :: SCAN_START <= p < TEXT_SIZE_OFF ==> w[p] == 0
    requires e.size == [4, 0x30, 0, 0, 0, 0, 0, 0] && e.oldAddr == [0, 0, 4, 0x30, 0, 0, 0, 0] && e.addr[2] == 0
    ensures var moved := Relocated(w, newText, oldText, e);
            && Finished(moved, e)[TEXT_SIZE_OFF] == 0
            && ScanDisturbs(moved, e, TEXT_SIZE_OFF, TEXT_SIZE_OFF + 8, CountBits)
  {
    var moved := Relocated(w, newText, oldText, e);
    forall p | SCAN_START <= p < TEXT_SIZE_OFF ensures moved[p] == 0 { FrontKept(w, newText, oldText, e, p); }
    MovedTextSize(w, newText, oldText, e);
    StraddleHit(moved, e);
  }

  // ----- the capture cache -----

  datatype ShapeKey = ShapeKey(channels: int, seqLen: int)

  /** The emitter: captured files by shape and op words by op, each kept from its first capture on. */
  class HwxEmitter {
    var shapes: map<ShapeKey, seq<byte>>
    var ops: map<Op, OpConfig>

    /** Only valid files are ever cached. */
    ghost predicate Valid() reads this {
      forall k <- shapes :: ValidHwx(shapes[k])
    }

    constructor ()
      ensures Valid() && shapes == map[] && ops == map[]
    {
      shapes, ops := map[], map[];
    }

    /** Captures a file read from a model directory (empty when there was none to read). */
    method Capture(file: seq<byte>, channels: int, seqLen: int, op: Op) returns (ok: bool)
      requires Valid()
      modifies this
      ensures Valid() && ok == ValidHwx(file)
      ensures !ok ==> shapes == old(shapes) && ops == old(ops)
      ensures ok ==> shapes == map[ShapeKey(channels, seqLen) := file] + old(shapes)
                     && ops == map[op := Extract(file)] + old(ops)
    {
      if !ValidHwx(file) { return false; }
      var key := ShapeKey(channels, seqLen);
      if key !in shapes { shapes := shapes[key := file]; }
      if op !in ops { ops := ops[op := Extract(file)]; }
      return true;
    }

    predicate CanEmit(channels: int, seqLen: int, op: Op) reads this {
      ShapeKey(channels, seqLen) in shapes && op in ops
    }

    /** Emits the file captured for the shape with the op words captured for the op; the empty file when
        either is missing, None if the patch would write outside the buffer. */
    method Emit(channels: int, seqLen: int, op: Op) returns (r: Option<seq<byte>>)
      requires Valid()
      ensures r == Some([]) <==> !CanEmit(channels, seqLen, op)
      ensures CanEmit(channels, seqLen, op) ==>
                var tmpl, c := shapes[ShapeKey(channels, seqLen)], ops[op];
                && (r.None? <==> !Emittable(tmpl, c))
                && (r.Some? ==> r.value == Emitted(tmpl, c))
    {
      if !CanEmit(channels, seqLen, op) { return Some([]); }
      var tmpl, c := shapes[ShapeKey(channels, seqLen)], ops[op];
      r := PatchOp(tmpl, c, Extract(tmpl));
      if r.Some? { EmittedIsNotEmpty(tmpl, c); }
    }
  }

  predicate Emittable(tmpl: seq<byte>, c: OpConfig) {
    !LeavesBuffer(tmpl, c, Extract(tmpl))
  }

  function Emitted(tmpl: seq<byte>, c: OpConfig): seq<byte>
    requires Emittable(tmpl, c)
  {
    Patched(tmpl, c, Extract(tmpl))
  }

  /** Emitting a shorter op into a file whose section size runs past its end, and past the end of the new
      layout, writes outside the buffer; 24 words into the shortest valid file that claims 0xE000. */
  lemma EmitCanLeaveBuffer(n: nat, text: nat, c: OpConfig)
    requires n >= MIN_SIZE && text < 0x1_0000_0000 && text % 4 == 0 && 4 * c.numWords < text
    requires TEXT_OFF + text > n && TEXT_OFF + text > ConstOff(4 * c.numWords) + CONST_SIZE
    ensures ValidHwx(SizedFile(n, Bytes(text, 8))) && !Emittable(SizedFile(n, Bytes(text, 8)), c)
  {
    SizedFileReads(n, text);
    assert TextBytes(c.numWords) == 4 * c.numWords && TextBytes(text / 4) == text;
  }

  lemma EmittedIsNotEmpty(tmpl: seq<byte>, c: OpConfig)
    requires ValidHwx(tmpl) && Emittable(tmpl, c)
    ensures |Emitted(tmpl, c)| >= |tmpl|
  {
    var w := WithOpWords(tmpl, c);
  }

  /** Re-emitting an op for the very file it was captured from returns that file. */
  lemma EmitOwnConfig(tmpl: seq<byte>)
    requires ValidHwx(tmpl)
    ensures Emitted(tmpl, Extract(tmpl)) == tmpl
  {
    var c := Extract(tmpl);
    OpWordBytes(tmpl, c);
    RewriteInPlace(tmpl, Bytes(c.programSize, 4), Bytes(c.stageFlags, 4), Bytes(c.opcode, 4), Bytes(c.extraConfig, 4));
  }

  lemma OpWordBytes(b: seq<byte>, c: OpConfig)
    requires |b| >= MIN_SIZE && c == Extract(b)
    ensures b[PROGRAM_SIZE_OFF..PROGRAM_SIZE_OFF + 4] == Bytes(c.programSize, 4)
    ensures b[STAGE_FLAGS_OFF..STAGE_FLAGS_OFF + 4] == Bytes(c.stageFlags, 4)
    ensures b[OPCODE_OFF..OPCODE_OFF + 4] == Bytes(c.opcode, 4)
    ensures b[EXTRA_CONFIG_OFF..EXTRA_CONFIG_OFF + 4] == Bytes(c.extraConfig, 4)
  {
    WordBytes(b[PROGRAM_SIZE_OFF..PROGRAM_SIZE_OFF + 4], c.programSize);
    WordBytes(b[STAGE_FLAGS_OFF..STAGE_FLAGS_OFF + 4], c.stageFlags);
    WordBytes(b[OPCODE_OFF..OPCODE_OFF + 4], c.opcode);
    WordBytes(b[EXTRA_CONFIG_OFF..EXTRA_CONFIG_OFF + 4], c.extraConfig);
  }

  lemma WordBytes(s: seq<byte>, v: u32)
    requires |s| == 4 && Val(s) == v
    ensures s == Bytes(v, 4)
  {
    PowFacts();
    BytesRoundTrip(v, 4);
    ValInjective(s, Bytes(v, 4));
  }

  lemma RewriteInPlace(b: seq<byte>, w0: seq<byte>, w1: seq<byte>, w2: seq<byte>, w3: seq<byte>)
    requires |b| >= MIN_SIZE && |w0| == |w1| == |w2| == |w3| == 4
    requires b[PROGRAM_SIZE_OFF..PROGRAM_SIZE_OFF + 4] == w0 && b[STAGE_FLAGS_OFF..STAGE_FLAGS_OFF + 4] == w1
    requires b[OPCODE_OFF..OPCODE_OFF + 4] == w2 && b[EXTRA_CONFIG_OFF..EXTRA_CONFIG_OFF + 4] == w3
    ensures FourWords(b, w0, w1, w2, w3) == b
  {
    OverwriteSame(b, PROGRAM_SIZE_OFF, w0);
    OverwriteSame(b, STAGE_FLAGS_OFF, w1);
    OverwriteSame(b, OPCODE_OFF, w2);
    OverwriteSame(b, EXTRA_CONFIG_OFF, w3);
  }

  lemma OverwriteSame(b: seq<byte>, off: nat, s: seq<byte>)
    requires off + |s| <= |b| && b[off..off + |s|] == s
    ensures Overwrite(b, off, s) == b
  {
  }
}
