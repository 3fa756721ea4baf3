/** Membership rows as machine words: projecting a group of samples, word by word and in place. */
module MarkWords {
  import opened Samplers
  import opened Tags
  import opened BatchedReplay

  const WORD_BITS := 64

  /** An unsigned machine word, least significant bit first. */
  type Word = w: seq<bool> | |w| == WORD_BITS witness seq(WORD_BITS, _ => false)

  function ZeroWord(): Word {
    seq(WORD_BITS, _ => false)
  }

  function ShiftRight(w: Word, off: nat): Word
    requires off < WORD_BITS
  {
    seq(WORD_BITS, i requires 0 <= i < WORD_BITS => i + off < WORD_BITS && w[i + off])
  }

  function ShiftLeft(w: Word, off: nat): Word
    requires off < WORD_BITS
  {
    seq(WORD_BITS, i requires 0 <= i < WORD_BITS => off <= i && w[i - off])
  }

  function Or(a: Word, b: Word): Word {
    seq(WORD_BITS, i requires 0 <= i < WORD_BITS => a[i] || b[i])
  }

  /** The word cut to its low bits: and with a mask of that many ones. */
  function KeepLow(w: Word, bits: nat): Word
    requires bits < WORD_BITS
  {
    seq(WORD_BITS, i requires 0 <= i < WORD_BITS => w[i] && i < bits)
  }

  /** Words needed for k samples. */
  function MarkWordsOf(k: nat): nat {
    if k == 0 then 0 else (k - 1) / WORD_BITS + 1
  }

  /** Sample p of a row of words; clear past its end. */
  predicate RowBit(row: seq<Word>, p: nat) {
    p / WORD_BITS < |row| && row[p / WORD_BITS][p % WORD_BITS]
  }

  /** The row as membership bits of k samples. */
  function RowBits(row: seq<Word>, k: nat): (bits: seq<bool>)
    ensures |bits| == k && forall j :: 0 <= j < k ==> bits[j] == RowBit(row, j)
  {
    seq(k, j requires 0 <= j < k => RowBit(row, j))
  }

  /** The source word at a bit position, shifted down. */
  function LowWord(row: seq<Word>, bitPos: nat): Word {
    if bitPos / WORD_BITS < |row| then ShiftRight(row[bitPos / WORD_BITS], bitPos % WORD_BITS) else ZeroWord()
  }

  /** The word after it, shifted up into the bits the first one leaves clear. */
  function HighWord(row: seq<Word>, bitPos: nat): Word {
    if bitPos % WORD_BITS != 0 && bitPos / WORD_BITS + 1 < |row|
    then ShiftLeft(row[bitPos / WORD_BITS + 1], WORD_BITS - bitPos % WORD_BITS)
    else ZeroWord()
  }

  /** Word w of a projection before its last word is cut. */
  function ShiftedWord(row: seq<Word>, start: nat, w: nat): Word {
    Or(LowWord(row, start + w * WORD_BITS), HighWord(row, start + w * WORD_BITS))
  }

  lemma Split(bitPos: nat, i: nat)
    requires i < WORD_BITS
    ensures var q, off := bitPos / WORD_BITS, bitPos % WORD_BITS;
            && (off + i < WORD_BITS ==> (bitPos + i) / WORD_BITS == q && (bitPos + i) % WORD_BITS == off + i)
            && (off + i >= WORD_BITS ==>
                  (bitPos + i) / WORD_BITS == q + 1 && (bitPos + i) % WORD_BITS == off + i - WORD_BITS)
  {
  }

  lemma ShiftedBits(row: seq<Word>, start: nat, w: nat, i: nat)
    requires i < WORD_BITS
    ensures ShiftedWord(row, start, w)[i] == RowBit(row, start + w * WORD_BITS + i)
  {
    hide LowWord, HighWord, Or;
    var bitPos := start + w * WORD_BITS;
    Split(bitPos, i);
    JoinedBit(row, bitPos, i);
  }

  lemma JoinedBit(row: seq<Word>, bitPos: nat, i: nat)
    requires i < WORD_BITS
    ensures var q, off := bitPos / WORD_BITS, bitPos % WORD_BITS;
            Or(LowWord(row, bitPos), HighWord(row, bitPos))[i]
            == if off + i < WORD_BITS then q < |row| && row[q][off + i]
              else q + 1 < |row| && row[q + 1][off + i - WORD_BITS]
  {
    hide Or, ShiftLeft, ShiftRight;
    OrBit(LowWord(row, bitPos), HighWord(row, bitPos), i);
    var q, off := bitPos / WORD_BITS, bitPos % WORD_BITS;
    if q < |row| {
      ShiftBits(row[q], off, i);
    }
    if 0 < off && q + 1 < |row| {
      ShiftBits(row[q + 1], WORD_BITS - off, i);
    }
  }

  lemma OrBit(a: Word, b: Word, i: nat)
    requires i < WORD_BITS
    ensures Or(a, b)[i] == (a[i] || b[i]) && !ZeroWord()[i]
  {
  }

  lemma ShiftBits(w: Word, off: nat, i: nat)
    requires off < WORD_BITS && i < WORD_BITS
    ensures ShiftRight(w, off)[i] == (i + off < WORD_BITS && w[i + off])
    ensures ShiftLeft(w, off)[i] == (off <= i && w[i - off])
  {
  }

  /** Projection to one word. */
  function ProjectMarkSliceOneWord(row: seq<Word>, start: nat, count: nat): (value: Word)
    requires 0 < count <= WORD_BITS
    ensures RowBits([value], count) == Project(RowBits(row, start + count), start, count)
    ensures value != ZeroWord() <==> true in Project(RowBits(row, start + count), start, count)
  {
    OneWordBits(row, start, count);
    CutWord(row, start, count)
  }

  function CutWord(row: seq<Word>, start: nat, count: nat): Word {
    if count < WORD_BITS then KeepLow(ShiftedWord(row, start, 0), count) else ShiftedWord(row, start, 0)
  }

  lemma OneWordBits(row: seq<Word>, start: nat, count: nat)
    requires 0 < count <= WORD_BITS
    ensures RowBits([CutWord(row, start, count)], count) == Project(RowBits(row, start + count), start, count)
    ensures CutWord(row, start, count) != ZeroWord() <==> true in Project(RowBits(row, start + count), start, count)
  {
    hide ShiftedWord;
    var value := CutWord(row, start, count);
    var p := Project(RowBits(row, start + count), start, count);
    forall i | 0 <= i < WORD_BITS ensures value[i] == (i < count && p[i]) {
      ShiftedBits(row, start, 0, i);
    }
    if value != ZeroWord() {
      var i :| 0 <= i < WORD_BITS && value[i] != ZeroWord()[i];
      assert p[i];
    }
    if true in p {
      var i :| 0 <= i < count && p[i];
      assert value[i] != ZeroWord()[i];
    }
  }

  // ----- whole rows -----

  /** Word w of a projected row: the last word is cut to the bits that are left. */
  function ProjectedWord(row: seq<Word>, start: nat, count: nat, w: nat): Word {
    if w + 1 == MarkWordsOf(count) && count % WORD_BITS != 0 then KeepLow(ShiftedWord(row, start, w), count % WORD_BITS)
    else ShiftedWord(row, start, w)
  }

  function ProjectedRow(row: seq<Word>, start: nat, count: nat): (r: seq<Word>)
    ensures |r| == MarkWordsOf(count)
  {
    seq(MarkWordsOf(count), w requires 0 <= w < MarkWordsOf(count) => ProjectedWord(row, start, count, w))
  }

  predicate AnyWord(row: seq<Word>) {
    exists w :: 0 <= w < |row| && row[w] != ZeroWord()
  }

  lemma ProjectedBits(row: seq<Word>, start: nat, count: nat, w: nat, i: nat)
    requires w < MarkWordsOf(count) && i < WORD_BITS
    ensures ProjectedWord(row, start, count, w)[i] == (w * WORD_BITS + i < count
                                                       && RowBit(row, start + (w * WORD_BITS + i)))
  {
    hide ShiftedWord;
    ShiftedBits(row, start, w, i);
  }

  /** A projected row holds exactly the group's samples, and is nonzero exactly when one of them marks it. */
  lemma ProjectedRowBits(row: seq<Word>, start: nat, count: nat)
    ensures RowBits(ProjectedRow(row, start, count), count) == Project(RowBits(row, start + count), start, count)
    ensures AnyWord(ProjectedRow(row, start, count)) <==> true in Project(RowBits(row, start + count), start, count)
  {
    hide ProjectedWord;
    var r, p := ProjectedRow(row, start, count), Project(RowBits(row, start + count), start, count);
    forall j | 0 <= j < count ensures RowBit(r, j) == p[j] {
      ProjectedBits(row, start, count, j / WORD_BITS, j % WORD_BITS);
    }
    if AnyWord(r) {
      var w :| 0 <= w < |r| && r[w] != ZeroWord();
      var i :| 0 <= i < WORD_BITS && r[w][i] != ZeroWord()[i];
      ProjectedBits(row, start, count, w, i);
      assert p[w * WORD_BITS + i];
    }
    if true in p {
      var j :| 0 <= j < count && p[j];
      assert r[j / WORD_BITS][j % WORD_BITS] != ZeroWord()[j % WORD_BITS];
    }
  }

  /** Up to one word, the row projection is the one-word projection. */
  lemma OneWordRow(row: seq<Word>, start: nat, count: nat)
    requires 0 < count <= WORD_BITS
    ensures ProjectedRow(row, start, count) == [ProjectMarkSliceOneWord(row, start, count)]
  {
  }

  /** The words of a row that sits at base. */
  function RowAt(s: seq<Word>, base: nat, words: nat): (row: seq<Word>)
    requires base + words <= |s|
    ensures |row| == words
  {
    s[base..base + words]
  }

  /**
   * Projects a row word by word. The destination may be the same buffer at or below the source: a word is written only
   * after every source word it overlaps has been read.
   */
  method ProjectMarkSlice(src: array<Word>, srcBase: nat, srcWords: nat, start: nat, count: nat, dst: array<Word>,
                          dstBase: nat)
    requires 0 < count && srcBase + srcWords <= src.Length && dstBase + MarkWordsOf(count) <= dst.Length
    requires src == dst ==> dstBase <= srcBase
    modifies dst
    ensures dst[..] == Within(old(dst[..]), dstBase, ProjectedRow(old(RowAt(src[..], srcBase, srcWords)), start, count))
  {
    hide ShiftedWord, Within;
    ghost var row, d0, s0 := RowAt(src[..], srcBase, srcWords), dst[..], src[..];
    var dstWords := MarkWordsOf(count);
    for w := 0 to dstWords
      invariant |dst[..]| == |d0|
      invariant forall v :: 0 <= v < w ==> dst[dstBase + v] == ShiftedWord(row, start, v)
      invariant forall p :: 0 <= p < |d0| && !(dstBase <= p < dstBase + w) ==> dst[p] == d0[p]
      invariant src != dst ==> src[..] == s0
    {
      var bitPos := start + w * WORD_BITS;
      var srcW, off := bitPos / WORD_BITS, bitPos % WORD_BITS;
      assert w <= srcW;
      var low, high := ZeroWord(), ZeroWord();
      if srcW < srcWords {
        assert src[srcBase + srcW] == row[srcW];
        low := ShiftRight(src[srcBase + srcW], off);
      }
      if off != 0 && srcW + 1 < srcWords {
        assert src[srcBase + srcW + 1] == row[srcW + 1];
        high := ShiftLeft(src[srcBase + srcW + 1], WORD_BITS - off);
      }
      ShiftedParts(row, start, w, low, high);
      dst[dstBase + w] := Or(low, high);
    }
    var valid := count % WORD_BITS;
    if valid != 0 {
      dst[dstBase + dstWords - 1] := KeepLow(dst[dstBase + dstWords - 1], valid);
    }
    ProjectedWithin(d0, dst[..], dstBase, row, start, count);
  }

  lemma ShiftedParts(row: seq<Word>, start: nat, w: nat, low: Word, high: Word)
    requires low == LowWord(row, start + w * WORD_BITS) && high == HighWord(row, start + w * WORD_BITS)
    ensures Or(low, high) == ShiftedWord(row, start, w)
  {
  }

  lemma ProjectedWithin(d0: seq<Word>, d: seq<Word>, base: nat, row: seq<Word>, start: nat, count: nat)
    requires 0 < count && |d| == |d0| && base + MarkWordsOf(count) <= |d|
    requires forall v :: 0 <= v < MarkWordsOf(count) ==> d[base + v] == ProjectedWord(row, start, count, v)
    requires forall p :: 0 <= p < |d0| && !(base <= p < base + MarkWordsOf(count)) ==> d[p] == d0[p]
    ensures d == Within(d0, base, ProjectedRow(row, start, count))
  {
    hide ProjectedWord;
    var r := ProjectedRow(row, start, count);
    forall p | 0 <= p < |d| ensures d[p] == Within(d0, base, r)[p] {
      if base <= p < base + |r| {
        assert d[base + (p - base)] == r[p - base];
      }
    }
  }

  /** The sampler's membership test: any of the words a group spans, one word's worth of samples at a time. */
  method HasMembership(row: seq<Word>, start: nat, count: nat) returns (any: bool)
    ensures any == (true in Project(RowBits(row, start + count), start, count))
  {
    hide ProjectMarkSliceOneWord;
    ghost var p := Project(RowBits(row, start + count), start, count);
    any := false;
    var offset: nat := 0;
    assert p[..0] == [];
    while offset < count
      invariant offset <= count && any == (true in p[..offset])
    {
      var take := if WORD_BITS < count - offset then WORD_BITS else count - offset;
      var word := ProjectMarkSliceOneWord(row, start + offset, take);
      assert p[..offset + take] == p[..offset] + Project(RowBits(row, start + offset + take), start + offset, take);
      any := any || word != ZeroWord();
      offset := offset + take;
    }
    assert p[..count] == p;
  }

  /** The tag of a row that fits one word: two masks, for the first leftK samples and the rightK after them. */
  function OneWordTag(row: Word, leftK: nat, rightK: nat): Tag
    requires leftK < WORD_BITS && rightK < WORD_BITS
  {
    Tag(KeepLow(row, leftK) != ZeroWord(), And(row, ShiftLeft(LowMask(rightK), leftK)) != ZeroWord())
  }

  function LowMask(bits: nat): Word {
    seq(WORD_BITS, i requires 0 <= i < WORD_BITS => i < bits)
  }

  function And(a: Word, b: Word): Word {
    seq(WORD_BITS, i requires 0 <= i < WORD_BITS => a[i] && b[i])
  }

  /** The masked tag is the tag of the two groups. */
  lemma OneWordTagIsForkTag(row: Word, k: nat)
    requires 1 < k <= WORD_BITS
    ensures [OneWordTag(row, k / 2, k - k / 2)] == ForkTags([RowBits([row], k)], k)
  {
    hide KeepLow, And, ShiftLeft, LowMask, RowBit;
    var bits := RowBits([row], k);
    var leftK := k / 2;
    MaskBits(row, leftK, k - leftK);
    forall j | 0 <= j < k ensures bits[j] == row[j] {
      OneWordBit(row, j);
    }
    MaskedAny(row, bits, 0, leftK, KeepLow(row, leftK));
    MaskedAny(row, bits, leftK, k - leftK, And(row, ShiftLeft(LowMask(k - leftK), leftK)));
    assert |ForkTags([bits], k)| == 1;
  }

  lemma OneWordBit(row: Word, j: nat)
    requires j < WORD_BITS
    ensures RowBit([row], j) == row[j]
  {
  }

  lemma MaskBits(row: Word, leftK: nat, rightK: nat)
    requires leftK < WORD_BITS && rightK < WORD_BITS
    ensures forall i :: 0 <= i < WORD_BITS ==> KeepLow(row, leftK)[i] == (row[i] && i < leftK)
    ensures forall i :: 0 <= i < WORD_BITS ==>
              And(row, ShiftLeft(LowMask(rightK), leftK))[i] == (row[i] && leftK <= i < leftK + rightK)
  {
  }

  lemma MaskedAny(row: Word, bits: seq<bool>, start: nat, count: nat, masked: Word)
    requires start + count <= |bits| <= WORD_BITS && forall i :: 0 <= i < |bits| ==> bits[i] == row[i]
    requires forall i :: 0 <= i < WORD_BITS ==> masked[i] == (row[i] && start <= i < start + count)
    ensures masked != ZeroWord() <==> true in Project(bits, start, count)
  {
    var p := Project(bits, start, count);
    if masked != ZeroWord() {
      var i :| 0 <= i < WORD_BITS && masked[i] != ZeroWord()[i];
      assert p[i - start];
    }
    if true in p {
      var i :| 0 <= i < count && p[i];
      assert masked[start + i] != ZeroWord()[start + i];
    }
  }
}
