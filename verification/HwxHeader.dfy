/** What the header of a patched HWX file says about the constant section, for every file and every pair of
    word counts.  Offsets and addresses are written out. */
module HwxHeader {
  import opened Graph
  import opened Hwx
  import opened HwxReadBack

  /** Where the constant section of a file with that much text lies: behind the text, on the next multiple
      of 64. */
  function SectionAt(text: nat): nat {
    0x4000 + (text + 63) / 64 * 64
  }

  /** The address at which that offset is mapped. */
  function AddressOf(at: nat): nat
    requires at >= 0x4000
  {
    0x30008000 + at - 0x4000
  }

  lemma SectionIsNext(text: nat)
    ensures SectionAt(text) == ConstOff(text) && AddressOf(SectionAt(text)) == ConstAddr(text)
    ensures SectionAt(text) % 64 == 0 && 0x4000 + text <= SectionAt(text) < 0x4000 + text + 64
  {
  }

  /** A patch that changes the word count and stays in its buffer. */
  ghost predicate ChangesLayout(b: seq<byte>, c: OpConfig, was: OpConfig) {
    ValidHwx(b) && !LeavesBuffer(b, c, was) && c.numWords != was.numWords
  }

  /** The patterns of the patch: the address it looks for and the one it puts there. */
  function OldPattern(was: OpConfig): (s: seq<byte>)
    ensures |s| == 8
  {
    Bytes(AddressOf(SectionAt(TextBytes(was.numWords))), 8)
  }

  function NewPattern(c: OpConfig): (s: seq<byte>)
    ensures |s| == 8
  {
    Bytes(AddressOf(SectionAt(TextBytes(c.numWords))), 8)
  }

  /** The patterns are the fields that the patch writes and looks for. */
  lemma PatternsAreFields(c: OpConfig, was: OpConfig, e: Fields)
    requires e == FieldsFor(c.numWords, TextBytes(c.numWords), TextBytes(was.numWords))
    ensures e.addr == NewPattern(c) && e.oldAddr == OldPattern(was)
    ensures e.file == Bytes(SectionAt(TextBytes(c.numWords)) % 0x1_0000_0000, 4)
  {
    SectionIsNext(TextBytes(c.numWords));
    SectionIsNext(TextBytes(was.numWords));
  }

  /** The file before the scan. */
  ghost function BeforeScan(b: seq<byte>, c: OpConfig, was: OpConfig): (m: seq<byte>)
    requires ChangesLayout(b, c, was)
    ensures |m| >= 0x4060
  {
    PatchResizes(b, c, was);
    var newText, oldText := TextBytes(c.numWords), TextBytes(was.numWords);
    Relocated(WithOpWords(b, c), newText, oldText, FieldsFor(c.numWords, newText, oldText))
  }

  /** Where the patch replaces an address. */
  ghost function Replacements(b: seq<byte>, c: OpConfig, was: OpConfig): seq<nat>
    requires ChangesLayout(b, c, was)
  {
    Hits(BeforeScan(b, c, was), 0x20, 0x4000, OldPattern(was))
  }

  /** A replacement changes a byte of the field lo, .., hi - 1. */
  ghost predicate FieldHit(b: seq<byte>, c: OpConfig, was: OpConfig, lo: nat, hi: nat)
    requires ChangesLayout(b, c, was)
  {
    exists h :: h in Replacements(b, c, was) && Disturbs(h, lo, hi, OldPattern(was), NewPattern(c), Exact)
  }

  // ----- reading a field -----

  lemma FieldIs(r: seq<byte>, m: seq<byte>, lo: nat, n: nat, v: nat)
    requires lo + n <= |r| && lo + n <= |m| && m[lo..lo + n] == Bytes(v, n) && v < Pow256(n)
    ensures Rd(r, lo, n) == v <==> ReadSame(r, m, lo, lo + n, Exact)
  {
    BytesRoundTrip(v, n);
    var f := r[lo..lo + n];
    if Val(f) == v {
      ValInjective(f, Bytes(v, n));
      forall p | lo <= p < lo + n ensures Exact(p - lo, r[p]) == Exact(p - lo, m[p]) {
        assert f[p - lo] == m[lo..lo + n][p - lo];
      }
    }
    if ReadSame(r, m, lo, lo + n, Exact) {
      forall p | lo <= p < lo + n ensures r[p] == m[p] { assert Exact(p - lo, r[p]) == Exact(p - lo, m[p]); }
      SliceKept(r, m, lo, lo + n);
    }
  }

  lemma MovedFields(w: seq<byte>, newText: nat, oldText: nat, e: Fields)
    requires |w| >= MIN_SIZE && InBounds(w, newText, oldText) && FieldsOk(e)
    ensures var m := Relocated(w, newText, oldText, e);
            && m[0x208..0x208 + 8] == e.size && m[0x250..0x250 + 8] == e.addr && m[0x260..0x260 + 4] == e.file
  {
    HeaderFields(ConstMoved(TailCleared(Grown(w, newText), newText, oldText), Saved(w, oldText), newText, oldText), e);
  }

  /** A field of the header that the patch sets reads as set exactly when no replacement hits it. */
  lemma FieldAfterScan(moved: seq<byte>, e: Fields, lo: nat, n: nat, v: nat)
    requires |moved| >= MIN_SIZE && FieldsOk(e) && lo + n <= 0xAE4
    requires moved[lo..lo + n] == Bytes(v, n) && v < Pow256(n)
    ensures Rd(Finished(moved, e), lo, n) == v <==> !ScanDisturbs(moved, e, lo, lo + n, Exact)
  {
    HeaderFieldSurvives(moved, e, lo, lo + n, Exact);
    FieldIs(Finished(moved, e), moved, lo, n, v);
  }

  /** An address that the scan replaces reads as the new one, unless the instruction count overwrites it. */
  lemma ReplacedReads(moved: seq<byte>, e: Fields, h: nat)
    requires |moved| >= MIN_SIZE && FieldsOk(e) && h in Hits(moved, 0x20, 0x4000, e.oldAddr)
    requires h + 8 <= 0xAE4 || 0xAE8 <= h
    ensures h + 8 <= 0x4000 && Finished(moved, e)[h..h + 8] == e.addr
  {
    HitsAreMatches(moved, 0x20, 0x4000, e.oldAddr, h);
    var r := Finished(moved, e);
    forall p | h <= p < h + 8 ensures r[p] == e.addr[p - h] {
      ScanResult(moved, 0x20, 0x4000, e.oldAddr, e.addr, p);
      assert Covers(h, p);
    }
    assert r[h..h + 8] == e.addr;
  }

  // ----- the header of a patched file -----

  lemma PatchedIsScanned(b: seq<byte>, c: OpConfig, was: OpConfig) returns (e: Fields)
    requires ChangesLayout(b, c, was)
    ensures e == FieldsFor(c.numWords, TextBytes(c.numWords), TextBytes(was.numWords)) && FieldsOk(e)
    ensures Patched(b, c, was) == Finished(BeforeScan(b, c, was), e)
    ensures e.addr == NewPattern(c) && e.oldAddr == OldPattern(was)
    ensures var m := BeforeScan(b, c, was);
            && m[0x250..0x250 + 8] == e.addr && m[0x260..0x260 + 4] == e.file && m[0x208..0x208 + 8] == e.size
  {
    e := FieldsFor(c.numWords, TextBytes(c.numWords), TextBytes(was.numWords));
    PatchResizes(b, c, was);
    PatternsAreFields(c, was, e);
    MovedFields(WithOpWords(b, c), TextBytes(c.numWords), TextBytes(was.numWords), e);
  }

  lemma FieldOfPatch(b: seq<byte>, c: OpConfig, was: OpConfig, lo: nat, n: nat, v: nat)
    requires ChangesLayout(b, c, was) && lo + n <= 0xAE4 && v < Pow256(n)
    requires BeforeScan(b, c, was)[lo..lo + n] == Bytes(v, n)
    ensures |Patched(b, c, was)| >= 0x4060
    ensures Rd(Patched(b, c, was), lo, n) == v <==> !FieldHit(b, c, was, lo, lo + n)
  {
    var e := PatchedIsScanned(b, c, was);
    FieldAfterScan(BeforeScan(b, c, was), e, lo, n, v);
  }

  /** After every patch that changes the layout, the header's address of the constant section is that of its
      new place exactly when no replacement hits the field, */
  lemma AddressFollows(b: seq<byte>, c: OpConfig, was: OpConfig)
    requires ChangesLayout(b, c, was)
    ensures |Patched(b, c, was)| >= 0x4060
    ensures Rd(Patched(b, c, was), 0x250, 8) == AddressOf(SectionAt(TextBytes(c.numWords)))
       <==> !FieldHit(b, c, was, 0x250, 0x258)
  {
    var e := PatchedIsScanned(b, c, was);
    PowFacts();
    AddressSmall(TextBytes(c.numWords));
    FieldOfPatch(b, c, was, 0x250, 8, AddressOf(SectionAt(TextBytes(c.numWords))));
  }

  /** so is the header's file offset of it, in 32 bits, */
  lemma OffsetFollows(b: seq<byte>, c: OpConfig, was: OpConfig)
    requires ChangesLayout(b, c, was)
    ensures |Patched(b, c, was)| >= 0x4060
    ensures Rd(Patched(b, c, was), 0x260, 4) == SectionAt(TextBytes(c.numWords)) % 0x1_0000_0000
       <==> !FieldHit(b, c, was, 0x260, 0x264)
  {
    var e := PatchedIsScanned(b, c, was);
    PowFacts();
    PatternsAreFields(c, was, e);
    FieldOfPatch(b, c, was, 0x260, 4, SectionAt(TextBytes(c.numWords)) % 0x1_0000_0000);
  }

  /** and so is the size of the text. */
  lemma SizeFollows(b: seq<byte>, c: OpConfig, was: OpConfig)
    requires ChangesLayout(b, c, was)
    ensures |Patched(b, c, was)| >= 0x4060
    ensures Rd(Patched(b, c, was), 0x208, 8) == TextBytes(c.numWords) <==> !FieldHit(b, c, was, 0x208, 0x210)
  {
    var e := PatchedIsScanned(b, c, was);
    PowFacts();
    FieldOfPatch(b, c, was, 0x208, 8, TextBytes(c.numWords));
  }

  lemma AddressSmall(text: nat)
    requires text < 0x1_0000_0000
    ensures AddressOf(SectionAt(text)) < 0x1_0000_0000_0000_0000
  {
  }

  /** Every address that the scan replaces was the old one and is the new one, unless the instruction count,
      which is written last, overlaps it. */
  lemma ReplacedAddresses(b: seq<byte>, c: OpConfig, was: OpConfig, h: nat)
    requires ChangesLayout(b, c, was) && h in Replacements(b, c, was) && (h + 8 <= 0xAE4 || 0xAE8 <= h)
    ensures h + 8 <= |Patched(b, c, was)| && h + 8 <= |BeforeScan(b, c, was)|
    ensures Rd(BeforeScan(b, c, was), h, 8) == AddressOf(SectionAt(TextBytes(was.numWords)))
    ensures Rd(Patched(b, c, was), h, 8) == AddressOf(SectionAt(TextBytes(c.numWords)))
  {
    var e := PatchedIsScanned(b, c, was);
    var m := BeforeScan(b, c, was);
    ReplacedReads(m, e, h);
    HitsAreMatches(m, 0x20, 0x4000, e.oldAddr, h);
    PowFacts();
    AddressSmall(TextBytes(c.numWords));
    AddressSmall(TextBytes(was.numWords));
    BytesRoundTrip(AddressOf(SectionAt(TextBytes(c.numWords))), 8);
    BytesRoundTrip(AddressOf(SectionAt(TextBytes(was.numWords))), 8);
  }

  /** The section of b lies in p at its new place. */
  ghost predicate SectionCopied(b: seq<byte>, p: seq<byte>, from: nat, at: nat) {
    from + 0x4000 <= |b| && at + 0x4000 <= |p| && p[at..at + 0x4000] == b[from..from + 0x4000]
  }

  lemma TakenInNumbers(b: seq<byte>, newText: nat, oldText: nat, p: seq<byte>)
    requires ConstTaken(b, newText, oldText, p)
    ensures SectionCopied(b, p, SectionAt(oldText), SectionAt(newText))
  {
    SectionIsNext(newText);
    SectionIsNext(oldText);
  }

  lemma SectionMoves(b: seq<byte>, c: OpConfig, was: OpConfig)
    requires Relocatable(b, c, was) && !LeavesBuffer(b, c, was)
    ensures SectionCopied(b, Patched(b, c, was), SectionAt(4 * was.numWords), SectionAt(4 * c.numWords))
  {
    PatchMovesConst(b, c, was);
    TakenInNumbers(b, 4 * c.numWords, 4 * was.numWords, Patched(b, c, was));
  }

  lemma TextNotWrapped(words: u32)
    requires words < 0x4000_0000
    ensures TextBytes(words) == 4 * words
  {
  }

  lemma SmallStays(at: nat)
    requires at < 0x1_0000_0000
    ensures at % 0x1_0000_0000 == at
  {
  }

  lemma OffsetIs(b: seq<byte>, c: OpConfig, was: OpConfig, at: nat)
    requires ChangesLayout(b, c, was) && !FieldHit(b, c, was, 0x260, 0x264)
    requires at == SectionAt(TextBytes(c.numWords)) < 0x1_0000_0000
    ensures |Patched(b, c, was)| >= 0x4060 && Rd(Patched(b, c, was), 0x260, 4) == at
  {
    SmallStays(at);
    OffsetFollows(b, c, was);
  }

  /** So a reader that follows the header's file offset finds the constant section, unless the offset was
      hit or does not fit 32 bits. */
  lemma OffsetLeadsToSection(b: seq<byte>, c: OpConfig, was: OpConfig)
    requires Relocatable(b, c, was) && !LeavesBuffer(b, c, was) && !FieldHit(b, c, was, 0x260, 0x264)
    requires SectionAt(4 * c.numWords) < 0x1_0000_0000
    ensures |Patched(b, c, was)| >= 0x4060
    ensures SectionCopied(b, Patched(b, c, was), SectionAt(4 * was.numWords), Rd(Patched(b, c, was), 0x260, 4))
  {
    TextNotWrapped(c.numWords);
    var at := SectionAt(4 * c.numWords);
    SectionMoves(b, c, was);
    assert SectionCopied(b, Patched(b, c, was), SectionAt(4 * was.numWords), at);
    OffsetIs(b, c, was, at);
  }

  /** The op words and the instruction count at their places. */
  lemma OpWordPlaces(b: seq<byte>, c: OpConfig, was: OpConfig)
    requires Relocatable(b, c, was) && !LeavesBuffer(b, c, was)
    ensures |Patched(b, c, was)| >= 0x4060
    ensures var p := Patched(b, c, was);
            && Rd(p, 0x4010, 4) == c.programSize && Rd(p, 0x4030, 4) == c.stageFlags
            && Rd(p, 0x404C, 4) == c.opcode && Rd(p, 0x405C, 4) == c.extraConfig && Rd(p, 0xAE4, 4) == c.numWords
  {
    OpWordsReadBack(b, c, was);
    SizeReadBack(b, c, was);
  }

  /** Which patches leave the buffer: those that shrink a text that lies neither in the file nor in the
      grown buffer; */
  lemma LeavesIff(b: seq<byte>, c: OpConfig, was: OpConfig)
    requires ValidHwx(b)
    ensures var now, past := TextBytes(c.numWords), TextBytes(was.numWords);
            LeavesBuffer(b, c, was) <==> now < past && 0x4000 + past > |b| && 0x4000 + past > SectionAt(now) + 0x4000
  {
    SectionIsNext(TextBytes(c.numWords));
  }

  /** which move the section: those of a file that contains it; */
  lemma RelocatableIff(b: seq<byte>, c: OpConfig, was: OpConfig)
    ensures Relocatable(b, c, was) <==>
            && ValidHwx(b) && c.numWords != was.numWords && 24 <= c.numWords < 0x4000_0000
            && 24 <= was.numWords < 0x4000_0000 && SectionAt(4 * was.numWords) + 0x4000 <= |b|
  {
    SectionIsNext(4 * was.numWords);
  }

  /** which files are accepted, */
  lemma ValidIff(b: seq<byte>)
    ensures ValidHwx(b) <==> |b| >= 0x4060 && b[0] == 0xCE && b[1] == 0xFA && b[2] == 0xEF && b[3] == 0xBE
  {
    if |b| >= 0x4060 {
      var magic: seq<byte> := [0xCE, 0xFA, 0xEF, 0xBE];
      MagicBytes(magic);
      if Val(b[0..4]) == Val(magic) { ValInjective(b[0..4], magic); }
      assert b[0..4] == magic <==> b[0] == 0xCE && b[1] == 0xFA && b[2] == 0xEF && b[3] == 0xBE;
    }
  }

  /** and where a configuration is read. */
  lemma ConfigPlaces(b: seq<byte>)
    requires |b| >= 0x4060
    ensures var c := Extract(b);
            && Rd(b, 0x4010, 4) == c.programSize && Rd(b, 0x4030, 4) == c.stageFlags
            && Rd(b, 0x404C, 4) == c.opcode && Rd(b, 0x405C, 4) == c.extraConfig
    ensures Extract(b).numWords == Rd(b, 0x208, 8) / 4 % 0x1_0000_0000
  {
  }

  /** A section that moves from 0x4400 to 0x4800. */
  lemma GrownByAPage(was: OpConfig, c: OpConfig)
    requires was.numWords == 0x100 && c.numWords == 0x200
    ensures SectionAt(TextBytes(was.numWords)) == 0x4400 && SectionAt(TextBytes(c.numWords)) == 0x4800
    ensures AddressOf(SectionAt(TextBytes(c.numWords))) == 0x30008800
  {
  }
}
