/** What can be read back from a patched HWX file, for every file and every pair of word counts. */
module HwxReadBack {
  import opened Graph
  import opened Hwx

  // ----- the text section after a relocation -----

  /** What a relocation does to a byte: replaces it by one of the moved constant section, clears it, or keeps
      it.  The section is saved after the op words were written, so it carries them along if it lies on them. */
  datatype Fate = Replaced | Wiped | Kept

  function FateOf(w: seq<byte>, newText: nat, oldText: nat, p: nat): Fate {
    var o, n := ConstOff(oldText), ConstOff(newText);
    FateAt(HasConst(w, oldText) && o != n, o, n, TEXT_OFF + newText, TEXT_OFF + oldText, p)
  }

  /** The same for a section that moves from o to n, if it does, and a text whose end moves from `was` to
      `end`. */
  function FateAt(moves: bool, o: nat, n: nat, end: nat, was: nat, p: nat): Fate {
    if moves && n <= p < n + CONST_SIZE then Replaced
    else if moves && o <= p < o + CONST_SIZE then Wiped
    else if end <= p < was then Wiped
    else Kept
  }

  /** Where in the file the byte that replaces the one at p comes from. */
  function SourceOf(newText: nat, oldText: nat, p: nat): int {
    ConstOff(oldText) + (p - ConstOff(newText))
  }

  function ByteAfter(w: seq<byte>, newText: nat, oldText: nat, p: nat): byte
    requires p < |w|
  {
    match FateOf(w, newText, oldText, p)
    case Replaced => w[SourceOf(newText, oldText, p)]
    case Wiped => 0
    case Kept => w[p]
  }

  /** Moving the section: from where the byte at p comes. */
  lemma MovedByte(t: seq<byte>, saved: seq<byte>, newText: nat, oldText: nat, p: nat)
    requires saved != [] ==> |saved| == CONST_SIZE && HasConst(t, oldText) && HasConst(t, newText)
    requires p < |t|
    ensures var o, n := ConstOff(oldText), ConstOff(newText);
            var moves := o != n && saved != [];
            ConstMoved(t, saved, newText, oldText)[p] ==
              if moves && n <= p < n + CONST_SIZE then saved[p - n]
              else if moves && o <= p < o + CONST_SIZE then 0
              else t[p]
  {
  }

  lemma ClearedByte(g: seq<byte>, newText: nat, oldText: nat, p: nat)
    requires newText < oldText ==> TEXT_OFF + oldText <= |g|
    requires p < |g|
    ensures TailCleared(g, newText, oldText)[p] ==
            if newText < oldText && TEXT_OFF + newText <= p < TEXT_OFF + oldText then 0 else g[p]
  {
  }

  lemma SavedByte(w: seq<byte>, newText: nat, oldText: nat, p: nat)
    requires HasConst(w, oldText) && ConstOff(newText) <= p < ConstOff(newText) + CONST_SIZE
    ensures 0 <= SourceOf(newText, oldText, p) < |w| && |Saved(w, oldText)| == CONST_SIZE
    ensures Saved(w, oldText)[p - ConstOff(newText)] == w[SourceOf(newText, oldText, p)]
  {
  }

  /** The relocation before the header is written, byte by byte. */
  lemma SectionByte(w: seq<byte>, g: seq<byte>, t: seq<byte>, newText: nat, oldText: nat, p: nat)
    requires p < |w| <= |g| == |t| && g[p] == w[p] && HasConst(g, newText)
    requires t[p] == if newText < oldText && TEXT_OFF + newText <= p < TEXT_OFF + oldText then 0 else g[p]
    ensures ConstMoved(t, Saved(w, oldText), newText, oldText)[p] == ByteAfter(w, newText, oldText, p)
  {
    MovedByte(t, Saved(w, oldText), newText, oldText, p);
    if FateOf(w, newText, oldText, p).Replaced? { SavedByte(w, newText, oldText, p); }
  }

  lemma RelocatedByte(w: seq<byte>, newText: nat, oldText: nat, e: Fields, p: nat)
    requires |w| >= MIN_SIZE && InBounds(w, newText, oldText) && FieldsOk(e) && TEXT_OFF <= p < |w|
    ensures Relocated(w, newText, oldText, e)[p] == ByteAfter(w, newText, oldText, p)
  {
    var g := Grown(w, newText);
    var t := TailCleared(g, newText, oldText);
    assert g[p] == g[..|w|][p];
    ClearedByte(g, newText, oldText, p);
    SectionByte(w, g, t, newText, oldText, p);
    HeaderKeepsText(ConstMoved(t, Saved(w, oldText), newText, oldText), e, p);
  }

  lemma ResizedByte(w: seq<byte>, words: u32, newText: nat, oldText: nat, p: nat)
    requires |w| >= MIN_SIZE && InBounds(w, newText, oldText) && TEXT_OFF <= p < |w|
    ensures Resized(w, words, newText, oldText)[p] == ByteAfter(w, newText, oldText, p)
  {
    var e := FieldsFor(words, newText, oldText);
    RelocatedByte(w, newText, oldText, e, p);
    AboveHeader(Relocated(w, newText, oldText, e), e, p);
  }

  /** The same for aligned words, which share one fate. */
  function WordAfter(w: seq<byte>, newText: nat, oldText: nat, off: nat): u32
    requires off % 4 == 0 && off + 4 <= |w|
  {
    match FateOf(w, newText, oldText, off)
    case Replaced => ReplacedWordInFile(w, newText, oldText, off); Word(w, SourceOf(newText, oldText, off))
    case Wiped => 0
    case Kept => Word(w, off)
  }

  lemma ReplacedWordInFile(w: seq<byte>, newText: nat, oldText: nat, off: nat)
    requires off % 4 == 0 && FateOf(w, newText, oldText, off).Replaced?
    ensures 0 <= SourceOf(newText, oldText, off) && SourceOf(newText, oldText, off) + 4 <= |w|
  {
    var n := ConstOff(newText);
    FourTimes(16 * ((TEXT_OFF + newText + 63) / 64), n);
    LastWordFits(off, n);
  }

  lemma LastWordFits(off: nat, n: nat)
    requires off % 4 == 0 && n % 4 == 0 && off < n + CONST_SIZE
    ensures off + 4 <= n + CONST_SIZE
  {
  }

  lemma WordOfBytes(r: seq<byte>, off: nat, w: seq<byte>, from: nat)
    requires off + 4 <= |r| && from + 4 <= |w| && forall p :: off <= p < off + 4 ==> r[p] == w[from + (p - off)]
    ensures Word(r, off) == Word(w, from)
  {
    assert r[off..off + 4] == w[from..from + 4];
  }

  lemma WordOfZeros(r: seq<byte>, off: nat)
    requires off + 4 <= |r| && forall p :: off <= p < off + 4 ==> r[p] == 0
    ensures Word(r, off) == 0
  {
    ZeroVal(r[off..off + 4]);
  }

  /** An aligned word lies in or outside an aligned region as a whole. */
  lemma WholeWord(off: nat, lo: nat, hi: nat, p: nat)
    requires off % 4 == 0 && lo % 4 == 0 && hi % 4 == 0 && off <= p < off + 4
    ensures lo <= p < hi <==> lo <= off < hi
  {
  }

  lemma SameFateAt(moves: bool, o: nat, n: nat, end: nat, was: nat, off: nat, p: nat)
    requires o % 4 == 0 && n % 4 == 0 && end % 4 == 0 && was % 4 == 0 && off % 4 == 0 && off <= p < off + 4
    ensures FateAt(moves, o, n, end, was, p) == FateAt(moves, o, n, end, was, off)
  {
    WholeWord(off, n, n + CONST_SIZE, p);
    WholeWord(off, o, o + CONST_SIZE, p);
    WholeWord(off, end, was, p);
  }

  lemma SameFate(w: seq<byte>, newText: nat, oldText: nat, off: nat, p: nat)
    requires newText % 4 == 0 && oldText % 4 == 0 && off % 4 == 0 && off <= p < off + 4
    ensures FateOf(w, newText, oldText, p) == FateOf(w, newText, oldText, off)
  {
    TextEnds(newText);
    TextEnds(oldText);
    var o, n := ConstOff(oldText), ConstOff(newText);
    SameFateAt(HasConst(w, oldText) && o != n, o, n, TEXT_OFF + newText, TEXT_OFF + oldText, off, p);
  }

  lemma TextEnds(text: nat)
    requires text % 4 == 0
    ensures (TEXT_OFF + text) % 4 == 0 && ConstOff(text) % 4 == 0
  {
    var q := (TEXT_OFF + text + 63) / 64;
    FourTimes(16 * q, ConstOff(text));
    FourTimes(0x1000 + text / 4, TEXT_OFF + text);
  }

  lemma FourTimes(k: nat, x: nat)
    requires x == 4 * k
    ensures x % 4 == 0
  {
  }

  lemma ByteOfWord(w: seq<byte>, newText: nat, oldText: nat, off: nat, p: nat)
    requires newText % 4 == 0 && oldText % 4 == 0 && off % 4 == 0 && off <= p < off + 4 <= |w|
    ensures match FateOf(w, newText, oldText, off)
            case Replaced =>
              var from := SourceOf(newText, oldText, off);
              0 <= from && from + 4 <= |w| && ByteAfter(w, newText, oldText, p) == w[from + (p - off)]
            case Wiped => ByteAfter(w, newText, oldText, p) == 0
            case Kept => ByteAfter(w, newText, oldText, p) == w[p]
  {
    SameFate(w, newText, oldText, off, p);
    if FateOf(w, newText, oldText, off).Replaced? { ReplacedWordInFile(w, newText, oldText, off); }
  }

  lemma WordFromBytes(r: seq<byte>, w: seq<byte>, newText: nat, oldText: nat, off: nat)
    requires newText % 4 == 0 && oldText % 4 == 0 && off % 4 == 0 && off + 4 <= |w| && off + 4 <= |r|
    requires forall p :: off <= p < off + 4 ==> r[p] == ByteAfter(w, newText, oldText, p)
    ensures Word(r, off) == WordAfter(w, newText, oldText, off)
  {
    match FateOf(w, newText, oldText, off)
    case Replaced =>
      ReplacedWordInFile(w, newText, oldText, off);
      var from := SourceOf(newText, oldText, off);
      forall p | off <= p < off + 4 ensures r[p] == w[from + (p - off)] { ByteOfWord(w, newText, oldText, off, p); }
      WordOfBytes(r, off, w, from);
    case Wiped =>
      forall p | off <= p < off + 4 ensures r[p] == 0 { ByteOfWord(w, newText, oldText, off, p); }
      WordOfZeros(r, off);
    case Kept =>
      forall p | off <= p < off + 4 ensures r[p] == w[off + (p - off)] { ByteOfWord(w, newText, oldText, off, p); }
      WordOfBytes(r, off, w, off);
  }

  /** Every aligned word of the old file's text after a patch that changes the layout. */
  lemma ResizedWord(w: seq<byte>, words: u32, newText: nat, oldText: nat, off: nat)
    requires |w| >= MIN_SIZE && InBounds(w, newText, oldText) && newText % 4 == 0 && oldText % 4 == 0
    requires off % 4 == 0 && TEXT_OFF <= off && off + 4 <= |w|
    ensures Word(Resized(w, words, newText, oldText), off) == WordAfter(w, newText, oldText, off)
  {
    var r := Resized(w, words, newText, oldText);
    forall p | off <= p < off + 4 ensures r[p] == ByteAfter(w, newText, oldText, p) {
      ResizedByte(w, words, newText, oldText, p);
    }
    WordFromBytes(r, w, newText, oldText, off);
  }

  // ----- the section size after the scan -----

  /** The byte at position i of the size field: from the new address where a replaced one covers it, else of
      the size just written. */
  ghost function SizeByteAfter(moved: seq<byte>, e: Fields, i: nat): byte
    requires |moved| >= MIN_SIZE && FieldsOk(e) && i < 8
  {
    var hits := Hits(moved, SCAN_START, TEXT_OFF, e.oldAddr);
    if h :| h in hits && Covers(h, TEXT_SIZE_OFF + i) then e.addr[TEXT_SIZE_OFF + i - h] else e.size[i]
  }

  lemma SizeByteScanned(moved: seq<byte>, e: Fields, i: nat)
    requires |moved| >= MIN_SIZE && FieldsOk(e) && i < 8 && moved[TEXT_SIZE_OFF..TEXT_SIZE_OFF + 8] == e.size
    ensures Finished(moved, e)[TEXT_SIZE_OFF + i] == SizeByteAfter(moved, e, i)
  {
    ScanResult(moved, SCAN_START, TEXT_OFF, e.oldAddr, e.addr, TEXT_SIZE_OFF + i);
    assert moved[TEXT_SIZE_OFF..TEXT_SIZE_OFF + 8][i] == moved[TEXT_SIZE_OFF + i];
  }

  /** The word count that the scan leaves is the given one. */
  ghost predicate CountLeft(moved: seq<byte>, e: Fields, words: u32)
    requires |moved| >= MIN_SIZE && FieldsOk(e)
  {
    forall i: nat :: i < 8 ==> CountBits(i, SizeByteAfter(moved, e, i)) == CountBits(i, Bytes(4 * words, 8)[i])
  }

  lemma CountScanned(moved: seq<byte>, e: Fields, words: u32)
    requires |moved| >= MIN_SIZE && FieldsOk(e) && moved[TEXT_SIZE_OFF..TEXT_SIZE_OFF + 8] == e.size
    ensures Extract(Finished(moved, e)).numWords == words <==> CountLeft(moved, e, words)
  {
    var r, size := Finished(moved, e), Bytes(4 * words, 8);
    CountField(r, words);
    forall i: nat | i < 8 ensures r[TEXT_SIZE_OFF + i] == SizeByteAfter(moved, e, i) { SizeByteScanned(moved, e, i); }
    if CountLeft(moved, e, words) {
      forall i: nat | i < 8 ensures CountBits(i, r[TEXT_SIZE_OFF + i]) == CountBits(i, size[i]) {
        assert CountBits(i, SizeByteAfter(moved, e, i)) == CountBits(i, size[i]);
      }
    }
    if SizeReads(r, size, CountBits) {
      forall i: nat | i < 8 ensures CountBits(i, SizeByteAfter(moved, e, i)) == CountBits(i, size[i]) {
        assert CountBits(i, r[TEXT_SIZE_OFF + i]) == CountBits(i, size[i]);
      }
    }
  }

  // ----- the round trip -----

  /** The four op words are neither wiped nor replaced by the relocation. */
  predicate OpWordsStay(w: seq<byte>, newText: nat, oldText: nat, c: OpConfig)
    requires |w| >= MIN_SIZE
  {
    && WordAfter(w, newText, oldText, PROGRAM_SIZE_OFF) == c.programSize
    && WordAfter(w, newText, oldText, STAGE_FLAGS_OFF) == c.stageFlags
    && WordAfter(w, newText, oldText, OPCODE_OFF) == c.opcode
    && WordAfter(w, newText, oldText, EXTRA_CONFIG_OFF) == c.extraConfig
  }

  lemma ResizedOpWords(w: seq<byte>, words: u32, newText: nat, oldText: nat, c: OpConfig)
    requires |w| >= MIN_SIZE && InBounds(w, newText, oldText) && newText % 4 == 0 && oldText % 4 == 0
    ensures HoldsOpWords(Resized(w, words, newText, oldText), c) <==> OpWordsStay(w, newText, oldText, c)
  {
    ResizedWord(w, words, newText, oldText, PROGRAM_SIZE_OFF);
    ResizedWord(w, words, newText, oldText, STAGE_FLAGS_OFF);
    ResizedWord(w, words, newText, oldText, OPCODE_OFF);
    ResizedWord(w, words, newText, oldText, EXTRA_CONFIG_OFF);
  }

  lemma ExtractParts(r: seq<byte>, c: OpConfig)
    requires |r| >= MIN_SIZE
    ensures Extract(r) == c <==> HoldsOpWords(r, c) && Extract(r).numWords == c.numWords
  {
  }

  /** The patch leaves the word count as given. */
  ghost predicate CountStays(w: seq<byte>, newText: nat, oldText: nat, words: u32)
    requires |w| >= MIN_SIZE && InBounds(w, newText, oldText)
  {
    var e := FieldsFor(words, newText, oldText);
    CountLeft(Relocated(w, newText, oldText, e), e, words)
  }

  lemma ResizedReadsBack(w: seq<byte>, newText: nat, oldText: nat, c: OpConfig)
    requires |w| >= MIN_SIZE && InBounds(w, newText, oldText) && newText % 4 == 0 && oldText % 4 == 0
    ensures Extract(Resized(w, c.numWords, newText, oldText)) == c
       <==> OpWordsStay(w, newText, oldText, c) && CountStays(w, newText, oldText, c.numWords)
  {
    var e := FieldsFor(c.numWords, newText, oldText);
    MovedTextSize(w, newText, oldText, e);
    CountScanned(Relocated(w, newText, oldText, e), e, c.numWords);
    ResizedOpWords(w, c.numWords, newText, oldText, c);
    ExtractParts(Resized(w, c.numWords, newText, oldText), c);
  }

  /** What decides whether a patch reads back: the file's own word count if the layout does not change; else
      that the relocation leaves the op words and the scan leaves the word count.  Byte sizes wrap at 32 bits. */
  ghost predicate ReadsBack(b: seq<byte>, c: OpConfig, was: OpConfig)
    requires ValidHwx(b) && !LeavesBuffer(b, c, was)
  {
    if c.numWords == was.numWords then Extract(b).numWords == c.numWords
    else
      var w, newText, oldText := WithOpWords(b, c), TextBytes(c.numWords), TextBytes(was.numWords);
      OpWordsStay(w, newText, oldText, c) && CountStays(w, newText, oldText, c.numWords)
  }

  lemma PatchResizes(b: seq<byte>, c: OpConfig, was: OpConfig)
    requires ValidHwx(b) && !LeavesBuffer(b, c, was) && c.numWords != was.numWords
    ensures InBounds(WithOpWords(b, c), TextBytes(c.numWords), TextBytes(was.numWords))
    ensures Patched(b, c, was) == Resized(WithOpWords(b, c), c.numWords, TextBytes(c.numWords), TextBytes(was.numWords))
    ensures TextBytes(c.numWords) % 4 == 0 && TextBytes(was.numWords) % 4 == 0
  {
    WrapsToWords(c.numWords);
    WrapsToWords(was.numWords);
  }

  lemma WrapsToWords(words: u32)
    ensures TextBytes(words) % 4 == 0
  {
    var q := words * 4 / 0x1_0000_0000;
    assert words * 4 == 0x1_0000_0000 * q + TextBytes(words);
  }

  /** Every patch that stays in its buffer: it reads back as the configuration it was given exactly then. */
  lemma PatchReadsBack(b: seq<byte>, c: OpConfig, was: OpConfig)
    requires ValidHwx(b) && !LeavesBuffer(b, c, was)
    ensures Extract(Patched(b, c, was)) == c <==> ReadsBack(b, c, was)
  {
    if c.numWords == was.numWords {
      SameSizeReadsBack(b, c, was);
    } else {
      PatchResizes(b, c, was);
      ResizedReadsBack(WithOpWords(b, c), TextBytes(c.numWords), TextBytes(was.numWords), c);
    }
  }

  /** Every emission. */
  lemma EmitReadsBack(tmpl: seq<byte>, c: OpConfig)
    requires ValidHwx(tmpl) && Emittable(tmpl, c)
    ensures Extract(Emitted(tmpl, c)) == c <==> ReadsBack(tmpl, c, Extract(tmpl))
  {
    PatchReadsBack(tmpl, c, Extract(tmpl));
  }

  /** Between layouts of 24 to 2^30 - 1 words with the constant section in the file only the scan matters. */
  lemma ReadsBackIfUndisturbed(b: seq<byte>, c: OpConfig, was: OpConfig)
    requires Relocatable(b, c, was)
    ensures !LeavesBuffer(b, c, was)
    ensures ReadsBack(b, c, was) <==> !SizeDisturbed(b, c, was, CountBits)
  {
    RelocationReadsBack(b, c, was);
    PatchReadsBack(b, c, was);
  }

  // ----- a short op is wiped -----

  /** An op of 10 words emitted into a file captured with 100 does not read back unless its stage flags are
      zero: clearing the end of the old text wipes the word just written. */
  lemma ShortOpIsWiped(tmpl: seq<byte>, c: OpConfig)
    requires ValidHwx(tmpl) && |tmpl| >= 0x9000 && Extract(tmpl).numWords == 100
    requires c.numWords == 10 && c.stageFlags != 0
    ensures Emittable(tmpl, c) && Extract(Emitted(tmpl, c)).stageFlags == 0 && Extract(Emitted(tmpl, c)) != c
  {
    ShortPatchWipes(tmpl, c, Extract(tmpl));
  }

  lemma ShortPatchWipes(b: seq<byte>, c: OpConfig, was: OpConfig)
    requires ValidHwx(b) && |b| >= 0x9000 && was.numWords == 100 && c.numWords == 10
    ensures !LeavesBuffer(b, c, was) && |Patched(b, c, was)| >= MIN_SIZE
    ensures Word(Patched(b, c, was), STAGE_FLAGS_OFF) == 0
  {
    StageFlagsWiped(b, TextBytes(c.numWords), TextBytes(was.numWords));
    PatchResizes(b, c, was);
    ShortResizeWipes(WithOpWords(b, c), c.numWords, TextBytes(c.numWords), TextBytes(was.numWords));
  }

  lemma ShortResizeWipes(w: seq<byte>, words: u32, newText: nat, oldText: nat)
    requires |w| >= 0x9000 && newText == 40 && oldText == 400 && InBounds(w, newText, oldText)
    ensures Word(Resized(w, words, newText, oldText), STAGE_FLAGS_OFF) == 0
  {
    StageFlagsWiped(w, newText, oldText);
    ResizedWord(w, words, newText, oldText, STAGE_FLAGS_OFF);
  }

  lemma StageFlagsWiped(w: seq<byte>, newText: nat, oldText: nat)
    requires |w| >= 0x9000 && newText == 40 && oldText == 400
    ensures InBounds(w, newText, oldText) && FateOf(w, newText, oldText, STAGE_FLAGS_OFF) == Wiped
  {
    assert ConstOff(newText) == 0x4040 && ConstOff(oldText) == 0x41C0;
  }

  /** Such files exist. */
  lemma ShortOpTemplate(n: nat, text: nat)
    requires n >= 0x9000 && text == 400
    ensures ValidHwx(SizedFile(n, Bytes(text, 8))) && |SizedFile(n, Bytes(text, 8))| >= 0x9000
    ensures Extract(SizedFile(n, Bytes(text, 8))).numWords == 100
  {
    SizedFileReads(n, text);
  }
}
