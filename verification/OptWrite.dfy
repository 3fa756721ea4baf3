/**
 * The in-place write of FFOS_C_Opt: sibling bits before descendants, rows narrowed where they stand, the same tape as
 * FFOS_C.
 */
module OptWrite {
  import opened Flattening
  import opened Products
  import opened BatchedReplay
  import opened PackedBits
  import opened Sampling
  import opened Samplers
  import opened MarkWords
  import opened RowBuffers
  import opened OptPlan
  import Delivery
  import OptRead

  // ----- what is written where -----

  /** The buffer holds these bits from offset on. */
  ghost predicate TapeAt(bytes: seq<bv8>, offset: nat, tape: seq<bool>) {
    offset + |tape| <= 8 * |bytes| && BitsOf(bytes, offset, |tape|) == tape
  }

  /** Only bits in [lo, hi) differ. */
  ghost predicate OnlyBits(b: seq<bv8>, b0: seq<bv8>, lo: nat, hi: nat) {
    |b| == |b0| && forall p :: 0 <= p < 8 * |b| && !(lo <= p < hi) ==> BitAt(b, p) == BitAt(b0, p)
  }

  lemma OnlyBitsJoin(b2: seq<bv8>, b1: seq<bv8>, b0: seq<bv8>, lo: nat, hi: nat, lo': nat, hi': nat, from: nat, to: nat)
    requires OnlyBits(b2, b1, lo', hi') && OnlyBits(b1, b0, lo, hi)
    requires from <= lo && hi <= to && from <= lo' && hi' <= to
    ensures OnlyBits(b2, b0, from, to)
  {
    hide BitAt;
  }

  /** Bits outside a change stay. */
  lemma TapeStays(b: seq<bv8>, b0: seq<bv8>, lo: nat, hi: nat, offset: nat, tape: seq<bool>)
    requires OnlyBits(b, b0, lo, hi) && TapeAt(b0, offset, tape) && (offset + |tape| <= lo || hi <= offset)
    ensures TapeAt(b, offset, tape)
  {
    hide BitAt;
  }

  lemma TapeJoins(b: seq<bv8>, offset: nat, x: seq<bool>, y: seq<bool>)
    requires TapeAt(b, offset, x) && TapeAt(b, offset + |x|, y)
    ensures TapeAt(b, offset, x + y)
  {
    hide BitAt;
    assert BitsOf(b, offset, |x + y|) == BitsOf(b, offset, |x|) + BitsOf(b, offset + |x|, |y|);
  }

  // ----- narrowing rows in place -----

  /** The first i rows are projected; the rows from i on are still the source's. */
  ghost predicate Narrowed(dst: seq<Word>, src: seq<Word>, src0: seq<Word>, rows: seq<seq<Word>>, start: nat,
                           count: nat, i: nat,
                           srcBase: nat, dstBase: nat, end: nat) {
    && i <= |rows| && srcBase <= end <= |src| == |src0| && dstBase <= |dst|
    && dst[..dstBase] == Flatten(ProjectedRows(rows[..i], start, count))
    && src[srcBase..end] == src0[srcBase..end] && src0[srcBase..end] == Flatten(rows[i..])
  }

  function ProjectedRows(rows: seq<seq<Word>>, start: nat, count: nat): (r: seq<seq<Word>>)
    ensures |r| == |rows| && forall i :: 0 <= i < |rows| ==> r[i] == ProjectedRow(rows[i], start, count)
  {
    seq(|rows|, i requires 0 <= i < |rows| => ProjectedRow(rows[i], start, count))
  }

  /** The flags of the projected rows: any word nonzero. */
  function RowFlags(rows: seq<seq<Word>>): (flags: seq<bool>)
    ensures |flags| == |rows| && forall i :: 0 <= i < |rows| ==> flags[i] == AnyWord(rows[i])
  {
    seq(|rows|, i requires 0 <= i < |rows| => AnyWord(rows[i]))
  }

  /** One row further, in the same buffer or another. */
  lemma NarrowedStep(dst: seq<Word>, dst': seq<Word>, src: seq<Word>, src': seq<Word>, src0: seq<Word>,
                     rows: seq<seq<Word>>,
                     start: nat, count: nat, i: nat, srcBase: nat, dstBase: nat, end: nat, words: nat, same: bool)
    requires Narrowed(dst, src, src0, rows, start, count, i, srcBase, dstBase, end)
    requires i < |rows| && |rows[i]| == words && MarkWordsOf(count) <= words && dstBase + MarkWordsOf(count) <= |dst|
    requires dst' == Within(dst, dstBase, ProjectedRow(rows[i], start, count))
    requires if same then dst == src && dst' == src' && dstBase <= srcBase else src' == src
    ensures Narrowed(dst', src', src0, rows, start, count, i + 1, srcBase + words, dstBase + MarkWordsOf(count), end)
  {
    hide ProjectedRow;
    var out := ProjectedRow(rows[i], start, count);
    assert rows[i..] == [rows[i]] + rows[i + 1..];
    assert src0[srcBase..end] == rows[i] + Flatten(rows[i + 1..]);
    assert src0[srcBase + words..end] == Flatten(rows[i + 1..]) by {
      assert src0[srcBase..end][words..] == src0[srcBase + words..end];
    }
    assert src'[srcBase + words..end] == src0[srcBase + words..end] by {
      assert src[srcBase..end][words..] == src[srcBase + words..end];
      assert src0[srcBase..end][words..] == src0[srcBase + words..end];
    }
    assert rows[..i + 1] == rows[..i] + [rows[i]];
    assert ProjectedRows(rows[..i + 1], start, count) == ProjectedRows(rows[..i], start, count) + [out];
    FlattenSnoc(ProjectedRows(rows[..i], start, count), out);
    assert dst'[..dstBase + |out|] == dst[..dstBase] + out;
  }

  /** Any of the words at base nonzero. */
  method AnyOf(dst: array<Word>, base: nat, words: nat) returns (any: bool)
    requires base + words <= dst.Length
    ensures any == AnyWord(dst[base..base + words])
  {
    any := false;
    for w := 0 to words
      invariant any == AnyWord(dst[base..base + w])
    {
      ghost var before, after := dst[base..base + w], dst[base..base + (w + 1)];
      assert after == before + [dst[base + w]];
      AnySnoc(before, dst[base + w]);
      any := any || dst[base + w] != ZeroWord();
    }
  }

  lemma AnySnoc(row: seq<Word>, w: Word)
    ensures AnyWord(row + [w]) == (AnyWord(row) || w != ZeroWord())
  {
    hide ZeroWord;
    var all := row + [w];
    if AnyWord(row) {
      var i :| 0 <= i < |row| && row[i] != ZeroWord();
      assert all[i] == row[i];
    }
    if w != ZeroWord() {
      assert all[|row|] == w;
    }
  }

  /** One row: projected into place, one word or several. */
  method ProjectOneRow(src: array<Word>, srcBase: nat, words: nat, start: nat, count: nat, dst: array<Word>,
                       dstBase: nat)
    requires 0 < count && srcBase + words <= src.Length && dstBase + MarkWordsOf(count) <= dst.Length
    requires src == dst ==> dstBase <= srcBase
    modifies dst
    ensures dst[..] == Within(old(dst[..]), dstBase, ProjectedRow(old(src[srcBase..srcBase + words]), start, count))
  {
    if MarkWordsOf(count) == 1 {
      ghost var row := src[srcBase..srcBase + words];
      OneWordRow(row, start, count);
      dst[dstBase] := ProjectMarkSliceOneWord(src[srcBase..srcBase + words], start, count);
    } else {
      assert RowAt(src[..], srcBase, words) == src[srcBase..srcBase + words];
      ProjectMarkSlice(src, srcBase, words, start, count, dst, dstBase);
    }
  }

  /** The scan is at row i of both buffers. */
  ghost predicate BasesAt(i: nat, words: nat, dw: nat, srcBase: nat, dstBase: nat) {
    srcBase == i * words && dstBase == i * dw
  }

  lemma FirstBases(words: nat, dw: nat)
    ensures BasesAt(0, words, dw, 0, 0)
  {
  }

  lemma Bases(i: nat, n: nat, dw: nat, words: nat, srcBase: nat, dstBase: nat)
    requires i < n && dw <= words && BasesAt(i, words, dw, srcBase, dstBase)
    ensures dstBase <= srcBase && dstBase + dw <= n * dw
    ensures BasesAt(i + 1, words, dw, srcBase + words, dstBase + dw)
  {
    Distribute(i, 1, dw);
    Distribute(i, 1, words);
    Distribute(i + 1, n - i - 1, dw);
    Distribute(dw, words - dw, i);
  }

  lemma LastBases(n: nat, words: nat, dw: nat, srcBase: nat, dstBase: nat)
    requires BasesAt(n, words, dw, srcBase, dstBase)
    ensures dstBase == n * dw
  {
  }

  /** The part of the flag tape written so far. */
  ghost predicate Flagged(bytes: seq<bv8>, b0: seq<bv8>, selected: seq<bool>, offset: nat, rows: seq<seq<Word>>,
                          start: nat, count: nat, i: nat) {
    && i <= |rows| && i <= |selected| && offset + i <= 8 * |bytes| && OnlyBits(bytes, b0, offset, offset + i)
    && selected[..i] == RowFlags(ProjectedRows(rows[..i], start, count)) && TapeAt(bytes, offset, selected[..i])
  }

  lemma FlaggedStep(bytes: seq<bv8>, bytes': seq<bv8>, b0: seq<bv8>, selected: seq<bool>, selected': seq<bool>,
                    offset: nat,
                    rows: seq<seq<Word>>, start: nat, count: nat, i: nat, any: bool)
    requires Flagged(bytes, b0, selected, offset, rows, start, count, i) && i < |rows| && i < |selected|
             && offset + i < 8 * |bytes|
    requires any == AnyWord(ProjectedRow(rows[i], start, count)) && selected' == selected[i := any]
    requires |bytes'| == |bytes| && forall q :: 0 <= q < 8 * |bytes| ==>
             BitAt(bytes', q) == if q == offset + i then any else BitAt(bytes, q)
    ensures Flagged(bytes', b0, selected', offset, rows, start, count, i + 1)
  {
    hide BitAt, AnyWord, ProjectedRow;
    assert rows[..i + 1] == rows[..i] + [rows[i]];
    assert selected'[..i + 1] == selected[..i] + [any];
    assert BitsOf(bytes', offset, i + 1) == BitsOf(bytes, offset, i) + [any];
  }

  /** Flags one narrowed row: selected when any of its samples is marked, on the scratch list and on the tape. */
  method FlagRow(dst: array<Word>, base: nat, dw: nat, selected: array<bool>, bits: array<bv8>, offset: nat, i: nat,
                 ghost b0: seq<bv8>, ghost rows: seq<seq<Word>>, ghost start: nat, ghost count: nat)
    requires base + dw <= dst.Length && i < |rows| && i < selected.Length && offset + i < 8 * bits.Length
    requires dst as object !in {selected as object, bits} && selected as object != bits
    requires dst[..][base..base + dw] == ProjectedRow(rows[i], start, count)
    requires Flagged(bits[..], b0, selected[..], offset, rows, start, count, i)
    modifies selected, bits
    ensures Flagged(bits[..], b0, selected[..], offset, rows, start, count, i + 1)
  {
    hide Flagged, ProjectedRow, AnyWord, BitAt;
    assert dst[..][base..base + dw] == dst[base..base + dw];
    var any := AnyOf(dst, base, dw);
    ghost var b, sel := bits[..], selected[..];
    selected[i] := any;
    WriteBit(bits, offset + i, any);
    FlaggedStep(b, bits[..], b0, sel, selected[..], offset, rows, start, count, i, any);
  }

  /** Narrows every row and records its flag: the loop of the projection, before the rows are compacted. */
  method NarrowRows(src: array<Word>, words: nat, dst: array<Word>, n: nat, start: nat, count: nat, compact: bool,
                    selected: array<bool>, bits: array<bv8>, offset: nat)
    requires 0 < words && 0 < count && MarkWordsOf(count) <= words
    requires n * words <= src.Length && n * MarkWordsOf(count) <= dst.Length
    requires compact ==> selected.Length == n && offset + n <= 8 * bits.Length
    requires {src as object, dst} !! {selected, bits} && selected as object != bits
    modifies dst, selected, bits
    ensures var rows := old(Chunks(src[..n * words], words));
            && |rows| == n
            && dst[..n * MarkWordsOf(count)] == Flatten(ProjectedRows(rows, start, count))
            && (compact ==> Flagged(bits[..], old(bits[..]), selected[..], offset, rows, start, count, n))
    ensures !compact ==> bits[..] == old(bits[..])
    ensures src != dst ==> src[..] == old(src[..])
  {
    hide Narrowed, Flagged, ProjectedRow, ProjectedRows, Chunks, Flatten, AnyWord, BitAt, BasesAt, Within;
    ghost var end, src0, b0 := n * words, src[..], bits[..];
    ghost var rows := Chunks(src0[..end], words);
    var dw := MarkWordsOf(count);
    ChunkCount(src0[..end], words, n);
    var srcBase, dstBase: nat := 0, 0;
    NarrowedStart(dst[..], src0, rows, start, count, end);
    FlaggedStart(b0, selected[..], offset, rows, start, count);
    FirstBases(words, dw);
    for i := 0 to n
      invariant BasesAt(i, words, dw, srcBase, dstBase)
      invariant src != dst ==> src[..] == src0
      invariant Narrowed(dst[..], src[..], src0, rows, start, count, i, srcBase, dstBase, end)
      invariant bits.Length == |b0| && (compact ==> Flagged(bits[..], b0, selected[..], offset, rows, start, count, i))
      invariant !compact ==> bits[..] == b0
    {
      Bases(i, n, dw, words, srcBase, dstBase);
      NextRow(dst[..], src[..], src0, rows, start, count, i, srcBase, dstBase, end, words);
      ghost var d, s := dst[..], src[..];
      assert s[srcBase..srcBase + words] == src[srcBase..srcBase + words];
      ProjectOneRow(src, srcBase, words, start, count, dst, dstBase);
      NarrowedStep(d, dst[..], s, src[..], src0, rows, start, count, i, srcBase, dstBase, end, words, src == dst);
      if compact {
        WrittenRow(d, dst[..], dstBase, ProjectedRow(rows[i], start, count));
        FlagRow(dst, dstBase, dw, selected, bits, offset, i, b0, rows, start, count);
      }
      srcBase, dstBase := srcBase + words, dstBase + dw;
    }
    NarrowedEnd(dst[..], src[..], src0, rows, start, count, srcBase, dstBase, end);
    LastBases(n, words, dw, srcBase, dstBase);
    assert dst[..][..n * dw] == dst[..n * dw];
  }

  lemma NarrowedStart(dst: seq<Word>, src: seq<Word>, rows: seq<seq<Word>>, start: nat, count: nat, end: nat)
    requires end <= |src| && src[..end] == Flatten(rows)
    ensures Narrowed(dst, src, src, rows, start, count, 0, 0, 0, end)
  {
    assert rows[0..] == rows && ProjectedRows(rows[..0], start, count) == [] && src[0..end] == src[..end];
  }

  lemma FlaggedStart(b0: seq<bv8>, selected: seq<bool>, offset: nat, rows: seq<seq<Word>>, start: nat, count: nat)
    ensures offset <= 8 * |b0| ==> Flagged(b0, b0, selected, offset, rows, start, count, 0)
  {
  }

  lemma NextRow(dst: seq<Word>, src: seq<Word>, src0: seq<Word>, rows: seq<seq<Word>>, start: nat, count: nat, i: nat,
                srcBase: nat, dstBase: nat, end: nat, words: nat)
    requires Narrowed(dst, src, src0, rows, start, count, i, srcBase, dstBase, end) && i < |rows| && |rows[i]| == words
    ensures srcBase + words <= end && src[srcBase..srcBase + words] == rows[i]
  {
    assert rows[i..] == [rows[i]] + rows[i + 1..];
    assert src[srcBase..end] == rows[i] + Flatten(rows[i + 1..]);
    assert src[srcBase..end][..words] == src[srcBase..srcBase + words];
  }

  lemma WrittenRow(d: seq<Word>, d': seq<Word>, base: nat, row: seq<Word>)
    requires base + |row| <= |d| && d' == Within(d, base, row)
    ensures d'[base..base + |row|] == row
  {
  }

  lemma NarrowedEnd(dst: seq<Word>, src: seq<Word>, src0: seq<Word>, rows: seq<seq<Word>>, start: nat, count: nat,
                    srcBase: nat, dstBase: nat, end: nat)
    requires Narrowed(dst, src, src0, rows, start, count, |rows|, srcBase, dstBase, end)
    ensures dst[..dstBase] == Flatten(ProjectedRows(rows, start, count))
  {
    assert rows[..|rows|] == rows;
  }

  // ----- the tape of a group -----

  /** Without forks writing never fails and fills exactly what is counted, whatever the rows. */
  lemma {:induction false} EdgeAlwaysWrites(order: seq<bool> -> seq<nat>, rows: seq<seq<bool>>, m: nat, start: nat,
                                            count: nat)
    requires Compactor(order) && 0 < m <= |rows| && 0 < count
    ensures var w := WriteEdge(FILTERS, order, rows, m, start, count);
            w.Some? && Size(w.value) == CountEdge(FILTERS, |rows|, m, count)
    decreases count, 2
  {
    hide WriteTree, CountTree, Compacted, Flags, ProjectRows;
    CapacityFits(|rows|, m, count);
    if count > 1 {
      var projected, cap := ProjectRows(rows, start, count), NodeCapacity(|rows|, m, count);
      var child := if cap < |rows| then Compacted(order, Flags(projected), projected, cap) else projected;
      TreeAlwaysWrites(order, child, m, count);
    }
  }

  lemma {:induction false} TreeAlwaysWrites(order: seq<bool> -> seq<nat>, rows: seq<seq<bool>>, m: nat, k: nat)
    requires Compactor(order) && 0 < m <= |rows| && 0 < k
    ensures var w := WriteTree(FILTERS, order, rows, m, k); w.Some? && Size(w.value) == CountTree(FILTERS, |rows|, m, k)
    decreases k, 1
  {
    hide WriteEdge, CountEdge, WriteFork, CountFork;
    if k > 1 {
      EdgeAlwaysWrites(order, rows, m, 0, k / 2);
      EdgeAlwaysWrites(order, rows, m, k / 2, k - k / 2);
    }
  }

  /** The bits FFOS_C writes for a group of samples of these rows. */
  ghost function EdgeTape(order: seq<bool> -> seq<nat>, rows: seq<seq<bool>>, m: nat, start: nat,
                          count: nat): (t: seq<bool>)
    requires Compactor(order) && 0 < m <= |rows| && 0 < count
    ensures |t| == NodeBits(|rows|, m, count)
  {
    EdgeAlwaysWrites(order, rows, m, start, count);
    WriteEdge(FILTERS, order, rows, m, start, count).value.swo
  }

  /** The flags of a group, when it does not keep every row. */
  ghost function OwnFlags(rows: seq<seq<bool>>, m: nat, start: nat, count: nat): (flags: seq<bool>)
    requires m * count <= |rows|
    ensures |flags| == EdgeBits(|rows|, m, count)
  {
    if m * count < |rows| then Flags(ProjectRows(rows, start, count)) else []
  }

  /** The rows a group keeps. */
  ghost function KeptRows(order: seq<bool> -> seq<nat>, rows: seq<seq<bool>>, m: nat, start: nat,
                          count: nat): (kept: seq<seq<bool>>)
    requires Compactor(order) && m * count <= |rows|
    ensures |kept| == m * count
  {
    var projected := ProjectRows(rows, start, count);
    if m * count < |rows| then Compacted(order, Flags(projected), projected, m * count) else projected
  }

  lemma LeafTape(order: seq<bool> -> seq<nat>, rows: seq<seq<bool>>, m: nat, start: nat, count: nat)
    requires Compactor(order) && 0 < m <= |rows| && count == 1 && m * count <= |rows|
    ensures EdgeTape(order, rows, m, start, count) == OwnFlags(rows, m, start, count)
  {
    hide WriteEdge, CountEdge, Flags, ProjectRows;
    assert NodeCapacity(|rows|, m, count) == m * count;
    Delivery.LeafWrites(FILTERS, order, rows, m, start, count);
  }

  /** A group's bits are its own flags, then the bits of its two groups over the rows it keeps. */
  lemma GroupTape(order: seq<bool> -> seq<nat>, rows: seq<seq<bool>>, m: nat, start: nat, count: nat)
    requires Compactor(order) && 0 < m && 1 < count && m * count <= |rows| && m <= m * count
    ensures var kept := KeptRows(order, rows, m, start, count);
            EdgeTape(order, rows, m, start, count)
            == OwnFlags(rows, m, start, count) + EdgeTape(order, kept, m, 0, count / 2)
              + EdgeTape(order, kept, m, count / 2, count - count / 2)
  {
    hide CountEdge, WriteTree, Flags, ProjectRows, OwnFlags, KeptRows;
    var own, kept := OwnFlags(rows, m, start, count), KeptRows(order, rows, m, start, count);
    EdgeAlwaysWrites(order, kept, m, 0, count / 2);
    EdgeAlwaysWrites(order, kept, m, count / 2, count - count / 2);
    TreeOfEdges(order, kept, m, count);
    GroupWrites(order, rows, m, start, count);
    var l, r := EdgeTape(order, kept, m, 0, count / 2), EdgeTape(order, kept, m, count / 2, count - count / 2);
    assert own + (l + r) == own + l + r;
  }

  lemma GroupWrites(order: seq<bool> -> seq<nat>, rows: seq<seq<bool>>, m: nat, start: nat, count: nat)
    requires Compactor(order) && 0 < m && 1 < count && m * count <= |rows| && m <= m * count
    ensures WriteEdge(FILTERS, order, rows, m, start, count)
         == Join(Some(Tapes(OwnFlags(rows, m, start, count), [])),
                 WriteTree(FILTERS, order, KeptRows(order, rows, m, start, count), m, count))
  {
    hide WriteTree, Flags, ProjectRows, Compacted;
    assert NodeCapacity(|rows|, m, count) == m * count;
  }

  lemma TreeOfEdges(order: seq<bool> -> seq<nat>, rows: seq<seq<bool>>, m: nat, k: nat)
    requires Compactor(order) && 0 < m <= |rows| && 1 < k
    ensures WriteTree(FILTERS, order, rows, m, k)
         == Join(WriteEdge(FILTERS, order, rows, m, 0, k / 2), WriteEdge(FILTERS, order, rows, m, k / 2, k - k / 2))
  {
    hide WriteEdge;
  }

  // ----- projecting and compacting a whole buffer -----

  /** The buffer's first n rows of this width are these membership bits. */
  ghost predicate Holds(s: seq<Word>, n: nat, width: nat, k: nat, rows: seq<seq<bool>>) {
    0 < width && n * width <= |s| && BitRows(s[..n * width], width, k) == rows && |rows| == n
  }

  function MapBits(rows: seq<seq<Word>>, k: nat): (r: seq<seq<bool>>)
    ensures |r| == |rows| && forall i :: 0 <= i < |rows| ==> r[i] == RowBits(rows[i], k)
  {
    seq(|rows|, i requires 0 <= i < |rows| => RowBits(rows[i], k))
  }

  /** Projecting words is projecting bits, and a row is flagged when one of the group's samples marks it. */
  lemma ProjectedBitRows(rows: seq<seq<Word>>, start: nat, count: nat, k: nat)
    requires start + count <= k
    ensures MapBits(ProjectedRows(rows, start, count), count) == ProjectRows(MapBits(rows, k), start, count)
    ensures RowFlags(ProjectedRows(rows, start, count)) == Flags(ProjectRows(MapBits(rows, k), start, count))
  {
    hide ProjectedRow, AnyWord, RowBit;
    var out := ProjectedRows(rows, start, count);
    forall i | 0 <= i < |rows|
      ensures RowBits(out[i], count) == Project(RowBits(rows[i], k), start, count)
      ensures AnyWord(out[i]) == (true in Project(RowBits(rows[i], k), start, count))
    {
      ProjectedRowBits(rows[i], start, count);
      assert Project(RowBits(rows[i], k), start, count) == Project(RowBits(rows[i], start + count), start, count);
    }
  }

  lemma CompactedMap(order: seq<bool> -> seq<nat>, flags: seq<bool>, rows: seq<seq<Word>>, k: nat, cut: nat)
    requires Compactor(order) && |flags| == |rows| && cut <= |rows|
    ensures MapBits(Compacted(order, flags, rows, cut), k) == Compacted(order, flags, MapBits(rows, k), cut)
  {
    hide RowBit;
    PermutationShape(order(flags), |rows|);
  }

  /** The whole rows after the compaction of a group, kept and dropped ones. */
  ghost function MovedRows(order: seq<bool> -> seq<nat>, rows: seq<seq<bool>>, m: nat, start: nat,
                           count: nat): (moved: seq<seq<bool>>)
    requires Compactor(order)
    ensures |moved| == |rows|
  {
    var projected := ProjectRows(rows, start, count);
    if m * count < |rows| then Compacted(order, Flags(projected), projected, |rows|) else projected
  }

  lemma MovedKeeps(order: seq<bool> -> seq<nat>, rows: seq<seq<bool>>, m: nat, start: nat, count: nat)
    requires Compactor(order) && m * count <= |rows|
    ensures MovedRows(order, rows, m, start, count)[..m * count] == KeptRows(order, rows, m, start, count)
  {
    hide Flags, ProjectRows;
    var projected := ProjectRows(rows, start, count);
    if m * count < |rows| {
      PermutationShape(order(Flags(projected)), |rows|);
      var g := Gather(order(Flags(projected)), projected);
      assert g[..|rows|][..m * count] == g[..m * count];
    }
  }

  /** Projects a buffer for one group, writes the group's flags and moves the flagged rows to the front. */
  method ProjectCompact(src: array<Word>, words: nat, dst: array<Word>, node: Node, bits: array<bv8>, m: nat,
                        order: seq<bool> -> seq<nat>, ghost k: nat, ghost rows: seq<seq<bool>>)
    requires Compactor(order) && 0 < node.count && node.start + node.count <= k && MarkWordsOf(node.count) <= words
    requires m * node.count <= node.inputBlocks && Holds(src[..], node.inputBlocks, words, k, rows)
    requires node.inputBlocks * MarkWordsOf(node.count) <= dst.Length
    requires node.offset + EdgeBits(node.inputBlocks, m, node.count) <= 8 * bits.Length
    requires {src as object, dst} !! {bits}
    modifies dst, bits
    ensures Holds(dst[..], node.inputBlocks, MarkWordsOf(node.count), node.count,
                  MovedRows(order, rows, m, node.start, node.count))
    ensures TapeAt(bits[..], node.offset, OwnFlags(rows, m, node.start, node.count))
    ensures OnlyBits(bits[..], old(bits[..]), node.offset, node.offset + EdgeBits(node.inputBlocks, m, node.count))
    ensures src != dst ==> src[..] == old(src[..])
  {
    hide Flatten, Chunks, BitAt, ProjectedRows, RowFlags, Compacted, AnyWord, BitRows, MapBits, Flags, ProjectRows;
    var n, dw := node.inputBlocks, MarkWordsOf(node.count);
    var compact := m * node.count < n;
    EdgeBitsOf(n, m, node.count);
    var selected := new bool[if compact then n else 0];
    ghost var chunks, b0 := Chunks(src[..][..n * words], words), bits[..];
    assert src[..n * words] == src[..][..n * words];
    BitRowsAreMap(src[..][..n * words], words, k);
    NarrowRows(src, words, dst, n, node.start, node.count, compact, selected, bits, node.offset);
    ghost var out := ProjectedRows(chunks, node.start, node.count);
    ProjectedBitRows(chunks, node.start, node.count, k);
    ProjectedWidths(chunks, node.start, node.count);
    ChunksOfFlat(out, dw);
    if compact {
      assert chunks[..n] == chunks && selected[..][..n] == selected[..];
      TightCompactRows(dst, n, dw, selected, order);
      CompactedWidths(order, selected[..], out, n, dw);
      ChunksOfFlat(Compacted(order, selected[..], out, n), dw);
      CompactedMap(order, selected[..], out, node.count, n);
    } else {
      NothingWritten(b0, node.offset);
    }
    assert dst[..][..n * dw] == dst[..n * dw];
    BitRowsAreMap(dst[..][..n * dw], dw, node.count);
  }

  lemma BitRowsAreMap(s: seq<Word>, width: nat, k: nat)
    requires 0 < width
    ensures BitRows(s, width, k) == MapBits(Chunks(s, width), k)
  {
    hide Chunks, RowBit;
  }

  lemma ProjectedWidths(rows: seq<seq<Word>>, start: nat, count: nat)
    ensures forall i :: 0 <= i < |rows| ==> |ProjectedRows(rows, start, count)[i]| == MarkWordsOf(count)
  {
  }

  lemma NothingWritten(b: seq<bv8>, offset: nat)
    requires offset <= 8 * |b|
    ensures TapeAt(b, offset, []) && OnlyBits(b, b, offset, offset)
  {
  }

  // ----- the recursion -----

  /** The bits below a group's own flags. */
  ghost function BelowTape(order: seq<bool> -> seq<nat>, kept: seq<seq<bool>>, m: nat, count: nat): (t: seq<bool>)
    requires Compactor(order) && 0 < count && (count > 1 ==> 0 < m <= |kept|)
    ensures count > 1 ==> |t| == NodeBits(|kept|, m, count / 2) + NodeBits(|kept|, m, count - count / 2)
    ensures count == 1 ==> t == []
  {
    if count > 1 then EdgeTape(order, kept, m, 0, count / 2) + EdgeTape(order, kept, m, count / 2, count - count / 2)
      else []
  }

  lemma WholeGroup(order: seq<bool> -> seq<nat>, rows: seq<seq<bool>>, m: nat, start: nat, count: nat)
    requires Compactor(order) && 0 < m && 0 < count && m * count <= |rows| && m <= m * count
    ensures EdgeTape(order, rows, m, start, count)
         == OwnFlags(rows, m, start, count) + BelowTape(order, KeptRows(order, rows, m, start, count), m, count)
  {
    hide EdgeTape, OwnFlags, KeptRows;
    var own := OwnFlags(rows, m, start, count);
    if count == 1 {
      LeafTape(order, rows, m, start, count);
      assert own + [] == own;
    } else {
      GroupTape(order, rows, m, start, count);
      var kept := KeptRows(order, rows, m, start, count);
      var l, r := EdgeTape(order, kept, m, 0, count / 2), EdgeTape(order, kept, m, count / 2, count - count / 2);
      assert own + (l + r) == own + l + r;
    }
  }

  lemma WordsOfPart(part: nat, whole: nat)
    requires part <= whole
    ensures MarkWordsOf(part) <= MarkWordsOf(whole)
  {
  }

  lemma Area(a: nat, a': nat, b: nat, b': nat)
    requires a <= a' && b <= b'
    ensures a * b <= a' * b'
  {
    Distribute(b, b' - b, a);
    Distribute(a, a' - a, b');
  }

  /** The rows a buffer prefix holds. */
  lemma HoldsPrefix(s: seq<Word>, n: nat, width: nat, k: nat, rows: seq<seq<bool>>, items: nat, t: seq<Word>)
    requires Holds(s, n, width, k, rows) && items <= n && items * width <= |s| && t == s[..items * width]
    ensures Holds(t, items, width, k, rows[..items])
  {
    hide Chunks, RowBit;
    ChunksPrefix(s[..n * width], width, n, items);
    assert s[..n * width][..items * width] == t && t[..items * width] == t;
    forall i | 0 <= i < items ensures BitRows(t, width, k)[i] == rows[i] {
      assert Chunks(t, width)[i] == Chunks(s[..n * width], width)[..items][i];
    }
  }

  lemma HoldsSize(s: seq<Word>, n: nat, width: nat, k: nat, rows: seq<seq<bool>>)
    requires Holds(s, n, width, k, rows)
    ensures 0 < width && n * width <= |s| && |rows| == n
  {
  }

  /** Copies the first rows out. */
  method CopyRows(source: array<Word>, items: nat, ghost n: nat, width: nat, ghost k: nat, ghost rows: seq<seq<bool>>)
      returns (child: array<Word>)
    requires Holds(source[..], n, width, k, rows) && items <= n
    ensures fresh(child) && Holds(child[..], items, width, k, rows[..items])
  {
    hide BitRows;
    Area(items, n, width, width);
    ghost var s1, size := source[..], items * width;
    child := new Word[items * width];
    forall i | 0 <= i < child.Length {
      child[i] := source[i];
    }
    assert child[..] == s1[..size];
    HoldsPrefix(s1, n, width, k, rows, items, child[..]);
  }

  /** Serves one side of a pair on its own buffer: its flags, and the rows its two groups will need. */
  method WriteSide(source: array<Word>, words: nat, node: Node, bits: array<bv8>, m: nat, order: seq<bool> -> seq<nat>,
                   ghost k: nat, ghost rows: seq<seq<bool>>)
    returns (child: array<Word>)
    requires Compactor(order) && 0 < node.count && node.start + node.count <= k && words == MarkWordsOf(k)
    requires m * node.count <= node.inputBlocks && Holds(source[..], node.inputBlocks, words, k, rows)
    requires node.offset + EdgeBits(node.inputBlocks, m, node.count) <= 8 * bits.Length
    requires source as object != bits
    modifies source, bits
    ensures fresh(child)
    ensures node.count > 1 ==>
              Holds(child[..], m * node.count, MarkWordsOf(node.count), node.count,
                    KeptRows(order, rows, m, node.start, node.count))
    ensures TapeAt(bits[..], node.offset, OwnFlags(rows, m, node.start, node.count))
    ensures OnlyBits(bits[..], old(bits[..]), node.offset, node.offset + EdgeBits(node.inputBlocks, m, node.count))
  {
    hide TapeAt, OnlyBits, OwnFlags, KeptRows, MovedRows, BitRows, EdgeBits, Holds;
    HoldsSize(source[..], node.inputBlocks, words, k, rows);
    WordsOfPart(node.count, k);
    var dw, n, items := MarkWordsOf(node.count), node.inputBlocks, m * node.count;
    Area(n, n, dw, words);
    ProjectCompact(source, words, source, node, bits, m, order, k, rows);
    if node.count > 1 {
      MovedKeeps(order, rows, m, node.start, node.count);
      child := CopyRows(source, items, n, dw, node.count, MovedRows(order, rows, m, node.start, node.count));
    } else {
      child := new Word[0];
    }
  }

  /** The rows below a served side, when it has more than one sample. */
  method WriteBelow(child: array<Word>, node: Node, nodes: seq<Node>, bits: array<bv8>, m: nat, backup: array<Word>,
                    order: seq<bool> -> seq<nat>, ghost id: nat, ghost n: nat, ghost start: nat, ghost count: nat,
                      ghost offset: nat,
                    ghost kept: seq<seq<bool>>)
    requires Compactor(order) && 0 < m && 0 < count && m * count <= n && m <= n
    requires Records(nodes, id, Plan(n, m, start, count, offset, id)) && id < |nodes| && node == nodes[id]
             && |kept| == m * count
    requires count > 1 ==>
             Holds(child[..], m * count, MarkWordsOf(count), count, kept)
               && m * count * MarkWordsOf(count) <= backup.Length
    requires offset + NodeBits(n, m, count) <= 8 * bits.Length
    requires child != backup && {child as object, backup} !! {bits}
    modifies child, backup, bits
    ensures count > 1 ==> m <= |kept|
    ensures EdgeBits(n, m, count) + |BelowTape(order, kept, m, count)| == NodeBits(n, m, count)
    ensures TapeAt(bits[..], offset + EdgeBits(n, m, count), BelowTape(order, kept, m, count))
    ensures OnlyBits(bits[..], old(bits[..]), offset + EdgeBits(n, m, count), offset + NodeBits(n, m, count))
    decreases count, 1
  {
    hide Plan, Records, EdgeBits, NodeBits, TapeAt, OnlyBits, Holds, EdgeTape, BitsOf;
    OptRead.GroupRecorded(nodes, id, n, m, start, count, offset);
    NodeBitsSplit(n, m, count);
    if node.count > 1 {
      ghost var e := EdgeBits(n, m, count);
      WritePair(child, MarkWordsOf(node.count), node.left.value, node.right.value, nodes, bits, m, backup, order,
                m * count, count / 2, count - count / 2, offset + e, kept);
    } else {
      NothingWritten(bits[..], offset + EdgeBits(n, m, count));
    }
  }

  /**
   * Writes the bits of both groups of an exactly filled input: both groups are projected, one on the input itself and
   * one on the shared backup, before either is served further. The tape is the one FFOS_C writes.
   */
  method WritePair(membership: array<Word>, words: nat, leftId: nat, rightId: nat, nodes: seq<Node>, bits: array<bv8>,
                   m: nat,
                   backup: array<Word>, order: seq<bool> -> seq<nat>,
                   ghost n: nat, ghost lk: nat, ghost rk: nat, ghost offset: nat, ghost rows: seq<seq<bool>>)
    requires Compactor(order) && 0 < m <= n && 0 < lk && 0 < rk && m * lk + m * rk == n && words == MarkWordsOf(lk + rk)
    requires Holds(membership[..], n, words, lk + rk, rows) && n * words <= backup.Length && |rows| == n
    requires Records(nodes, leftId, Plan(n, m, 0, lk, offset, leftId))
    requires Records(nodes, rightId, Plan(n, m, lk, rk, offset + NodeBits(n, m, lk), rightId))
    requires offset + NodeBits(n, m, lk) + NodeBits(n, m, rk) <= 8 * bits.Length
    requires membership != backup && {membership as object, backup} !! {bits}
    modifies membership, backup, bits
    ensures TapeAt(bits[..], offset, EdgeTape(order, rows, m, 0, lk) + EdgeTape(order, rows, m, lk, rk))
    ensures OnlyBits(bits[..], old(bits[..]), offset, offset + NodeBits(n, m, lk) + NodeBits(n, m, rk))
    decreases lk + rk, 0
  {
    hide Plan, Records, EdgeBits, NodeBits, TapeAt, OnlyBits, Holds, EdgeTape, BelowTape, OwnFlags, KeptRows;
    OptRead.GroupRecorded(nodes, leftId, n, m, 0, lk, offset);
    OptRead.GroupRecorded(nodes, rightId, n, m, lk, rk, offset + NodeBits(n, m, lk));
    var left, right := nodes[leftId], nodes[rightId];
    PlanStart(nodes, leftId, n, m, 0, lk, offset);
    PlanStart(nodes, rightId, n, m, lk, rk, offset + NodeBits(n, m, lk));
    CopyAll(membership, left.inputBlocks, words, backup, lk + rk, rows);
    ghost var b0, oR := bits[..], offset + NodeBits(n, m, lk);
    var leftChild := WriteSide(membership, words, left, bits, m, order, lk + rk, rows);
    ghost var b1 := bits[..];
    var rightChild := WriteSide(backup, words, right, bits, m, order, lk + rk, rows);
    ghost var b2, keptL, keptR := bits[..], KeptRows(order, rows, m, 0, lk), KeptRows(order, rows, m, lk, rk);
    BackupRoom(m, lk, lk + rk, n, words);
    BackupRoom(m, rk, lk + rk, n, words);
    WriteBelow(leftChild, left, nodes, bits, m, backup, order, leftId, n, 0, lk, offset, keptL);
    ghost var b3 := bits[..];
    WriteBelow(rightChild, right, nodes, bits, m, backup, order, rightId, n, lk, rk, oR, keptR);
    PairTapes(b0, b1, b2, b3, bits[..], order, rows, n, m, lk, rk, offset);
  }

  lemma PlanStart(nodes: seq<Node>, id: nat, n: nat, m: nat, start: nat, count: nat, offset: nat)
    requires 0 < m && 0 < count && m * count <= n && Records(nodes, id, Plan(n, m, start, count, offset, id))
    ensures id < |nodes| && nodes[id].start == start && nodes[id].offset == offset && nodes[id].count == count
            && nodes[id].inputBlocks == n
  {
    hide NodeBits, EdgeBits;
    var plan := Plan(n, m, start, count, offset, id);
    assert nodes[id] == nodes[id..id + |plan|][0] == plan[0];
  }

  method CopyAll(membership: array<Word>, n: nat, words: nat, backup: array<Word>, ghost k: nat,
                 ghost rows: seq<seq<bool>>)
    requires membership != backup && Holds(membership[..], n, words, k, rows) && n * words <= backup.Length
    modifies backup
    ensures Holds(backup[..], n, words, k, rows)
  {
    hide BitRows;
    ghost var s0, size := membership[..], n * words;
    forall i | 0 <= i < n * words {
      backup[i] := membership[i];
    }
    assert backup[..][..size] == s0[..size];
  }

  /** The backup that serves a whole input serves each of its groups. */
  lemma BackupRoom(m: nat, part: nat, whole: nat, n: nat, words: nat)
    requires part <= whole && m * part <= n && words == MarkWordsOf(whole)
    ensures m * part * MarkWordsOf(part) <= n * words
  {
    WordsOfPart(part, whole);
    Area(m * part, n, MarkWordsOf(part), words);
  }

  /** Flags of both sides first, then what lies below each: together the two groups' tapes. */
  lemma PairTapes(b0: seq<bv8>, b1: seq<bv8>, b2: seq<bv8>, b3: seq<bv8>, b4: seq<bv8>, order: seq<bool> -> seq<nat>,
                  rows: seq<seq<bool>>, n: nat, m: nat, lk: nat, rk: nat, offset: nat)
    requires Compactor(order) && 0 < m <= n && 0 < lk && 0 < rk && m * lk + m * rk == n && |rows| == n && m <= m * lk
             && m <= m * rk
    requires var keptL, keptR, l, r := KeptRows(order, rows, m, 0, lk), KeptRows(order, rows, m, lk, rk),
             NodeBits(n, m, lk), NodeBits(n, m, rk);
             var oR, eL, eR := offset + l, EdgeBits(n, m, lk), EdgeBits(n, m, rk);
             && TapeAt(b1, offset, OwnFlags(rows, m, 0, lk)) && OnlyBits(b1, b0, offset, offset + eL)
             && TapeAt(b2, oR, OwnFlags(rows, m, lk, rk)) && OnlyBits(b2, b1, oR, oR + eR)
             && eL + |BelowTape(order, keptL, m, lk)| == l && eR + |BelowTape(order, keptR, m, rk)| == r
             && TapeAt(b3, offset + eL, BelowTape(order, keptL, m, lk)) && OnlyBits(b3, b2, offset + eL, offset + l)
             && TapeAt(b4, oR + eR, BelowTape(order, keptR, m, rk)) && OnlyBits(b4, b3, oR + eR, oR + r)
    ensures TapeAt(b4, offset, EdgeTape(order, rows, m, 0, lk) + EdgeTape(order, rows, m, lk, rk))
    ensures OnlyBits(b4, b0, offset, offset + NodeBits(n, m, lk) + NodeBits(n, m, rk))
  {
    hide TapeAt, OnlyBits, EdgeTape, BelowTape, KeptRows, OwnFlags, NodeBits, EdgeBits;
    var l, r, eL, eR := NodeBits(n, m, lk), NodeBits(n, m, rk), EdgeBits(n, m, lk), EdgeBits(n, m, rk);
    var oR, end := offset + l, offset + l + r;
    var ownL, ownR := OwnFlags(rows, m, 0, lk), OwnFlags(rows, m, lk, rk);
    var belowL, belowR := BelowTape(order, KeptRows(order, rows, m, 0, lk), m, lk),
      BelowTape(order, KeptRows(order, rows, m, lk, rk), m, rk);
    TapeStays(b2, b1, oR, oR + eR, offset, ownL);
    TapeStays(b3, b2, offset + eL, oR, offset, ownL);
    TapeStays(b4, b3, oR + eR, end, offset, ownL);
    TapeStays(b4, b3, oR + eR, end, offset + eL, belowL);
    TapeStays(b3, b2, offset + eL, oR, oR, ownR);
    TapeStays(b4, b3, oR + eR, end, oR, ownR);
    TapeJoins(b4, offset, ownL, belowL);
    TapeJoins(b4, oR, ownR, belowR);
    WholeGroup(order, rows, m, 0, lk);
    WholeGroup(order, rows, m, lk, rk);
    TapeJoins(b4, offset, ownL + belowL, ownR + belowR);
    OnlyBitsJoin(b2, b1, b0, offset, offset + eL, oR, oR + eR, offset, end);
    OnlyBitsJoin(b3, b2, b0, offset, end, offset + eL, oR, offset, end);
    OnlyBitsJoin(b4, b3, b0, offset, end, oR + eR, end, offset, end);
  }
}
