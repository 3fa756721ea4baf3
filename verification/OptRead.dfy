/** The in-place read of FFOS_C_Opt: both groups of a node end up in their own output slices, with one shared backup. */
module OptRead {
  import opened Flattening
  import opened BatchedReplay
  import opened PackedBits
  import opened Sampling
  import opened Samplers
  import opened PreparedRead
  import opened OptPlan
  import Delivery

  /** Stands for the compaction network: rearranges a slice in place by the permutation its flags determine. */
  method TightCompact<T>(data: array<T>, lo: nat, n: nat, flags: array<bool>, order: seq<bool> -> seq<nat>)
    requires Compactor(order) && lo + n <= data.Length && n <= flags.Length
    modifies data
    ensures data[..] == Within(old(data[..]), lo, Compacted(order, old(flags[..n]), old(data[lo..lo + n]), n))
  {
    var s, p := data[lo..lo + n], order(flags[..n]);
    PermutationShape(p, n);
    ghost var s0 := data[..];
    forall i | 0 <= i < n {
      data[lo + i] := s[p[i]];
    }
    assert data[..] == Within(s0, lo, Gather(p, s)[..n]);
  }

  /** What compacting an input for a group leaves in place. */
  ghost function Moved<T>(order: seq<bool> -> seq<nat>, bits: seq<bv8>, offset: nat, s: seq<T>, m: nat,
                          count: nat): (r: seq<T>)
    requires Compactor(order) && m * count <= |s| && offset + EdgeBits(|s|, m, count) <= 8 * |bits|
    ensures |r| == |s|
  {
    if m * count < |s| then Compacted(order, BitsOf(bits, offset, |s|), s, |s|) else s
  }

  /** Compacts one group of a node in place, unless the group keeps every row. */
  method CompactData<T>(data: array<T>, lo: nat, node: Node, bits: seq<bv8>, m: nat, order: seq<bool> -> seq<nat>)
    requires Compactor(order) && m * node.count <= node.inputBlocks && lo + node.inputBlocks <= data.Length
    requires node.offset + EdgeBits(node.inputBlocks, m, node.count) <= 8 * |bits|
    modifies data
    ensures data[..] == Within(old(data[..]), lo, Moved(order, bits, node.offset, old(data[lo..lo + node.inputBlocks]),
                                                        m, node.count))
  {
    hide Within, BitsOf;
    if m * node.count == node.inputBlocks {
      WithinSelf(data[..], lo, node.inputBlocks);
      assert data[..][lo..lo + node.inputBlocks] == data[lo..lo + node.inputBlocks];
      return;
    }
    var n := node.inputBlocks;
    var selected := new bool[n];
    UnpackControlBitsToBoolArray(bits, node.offset, n, selected);
    assert selected[..n] == BitsOf(bits, node.offset, n);
    TightCompact(data, lo, n, selected, order);
  }

  // ----- what a group outputs -----

  /** The slices of a group of an input, side by side. */
  ghost function EdgeOutput<R>(order: seq<bool> -> seq<nat>, bits: seq<bool>, recs: seq<R>, m: nat,
                               count: nat): (out: seq<R>)
    requires Compactor(order) && 0 < m <= |recs| && 0 < count && |bits| == NodeBits(|recs|, m, count)
    ensures |out| == m * count
  {
    NoForkControls(|recs|, m, count);
    var slices := ReadEdge(FILTERS, order, Tapes(bits, []), recs, m, count);
    FlattenSize(slices, m);
    Flatten(slices)
  }

  lemma NoForkControls(n: nat, m: nat, count: nat)
    requires 0 < m <= n && 0 < count
    ensures CountEdge(FILTERS, n, m, count).ofr == 0
  {
    Delivery.NoForkControlsEdge(n, m, count);
  }

  /** What the compaction of a group leaves. */
  ghost function Kept<R>(order: seq<bool> -> seq<nat>, bits: seq<bool>, recs: seq<R>, m: nat,
                         count: nat): (kept: seq<R>)
    requires Compactor(order) && m * count <= |recs| && |bits| == EdgeBits(|recs|, m, count)
    ensures |kept| == m * count
  {
    if m * count < |recs| then Compacted(order, bits, recs, m * count) else recs
  }

  /** A group of one sample outputs what its compaction leaves. */
  lemma LeafOutput<R>(order: seq<bool> -> seq<nat>, bits: seq<bool>, recs: seq<R>, m: nat, count: nat)
    requires Compactor(order) && 0 < m && count == 1 && m * count <= |recs| && |bits| == EdgeBits(|recs|, m, count)
    ensures |bits| == NodeBits(|recs|, m, count)
    ensures EdgeOutput(order, bits, recs, m, count) == Kept(order, bits, recs, m, count)
  {
    hide CountEdge, ReadEdge, Compacted, Flatten;
    NodeBitsSplit(|recs|, m, count);
    NoForkControls(|recs|, m, count);
    assert NodeCapacity(|recs|, m, count) == m * count;
    Delivery.LeafReads(FILTERS, order, Tapes(bits, []), recs, m, count);
    OneFlat(Kept(order, bits, recs, m, count));
  }

  lemma OneFlat<T>(s: seq<T>)
    ensures Flatten([s]) == s
  {
    assert Flatten([s]) == s + Flatten([s][1..]);
  }

  /** A larger group outputs what its two groups output from what its compaction leaves. */
  lemma PairOutput<R>(order: seq<bool> -> seq<nat>, own: seq<bool>, l: seq<bool>, r: seq<bool>, recs: seq<R>, m: nat,
                      count: nat)
    requires Compactor(order) && 0 < m && 1 < count && m * count <= |recs| && |own| == EdgeBits(|recs|, m, count)
    requires m <= m * count
    requires |l| == NodeBits(m * count, m, count / 2) && |r| == NodeBits(m * count, m, count - count / 2)
    ensures |own + l + r| == NodeBits(|recs|, m, count)
    ensures var kept := Kept(order, own, recs, m, count);
            EdgeOutput(order, own + l + r, recs, m, count)
            == EdgeOutput(order, l, kept, m, count / 2) + EdgeOutput(order, r, kept, m, count - count / 2)
  {
    hide EdgeBits, CountEdge, ReadEdge, Flatten, Kept;
    NodeBitsSplit(|recs|, m, count);
    NoForkControls(|recs|, m, count);
    NoForkControls(m * count, m, count / 2);
    NoForkControls(m * count, m, count - count / 2);
    var kept := Kept(order, own, recs, m, count);
    var t := Tapes(own + l + r, []);
    GroupReads(order, t, own, l, r, recs, m, count);
    FlattenJoin(ReadEdge(FILTERS, order, Tapes(l, []), kept, m, count / 2),
                ReadEdge(FILTERS, order, Tapes(r, []), kept, m, count - count / 2));
  }

  lemma GroupReads<R>(order: seq<bool> -> seq<nat>, t: Tapes, own: seq<bool>, l: seq<bool>, r: seq<bool>, recs: seq<R>,
                      m: nat, count: nat)
    requires Compactor(order) && 0 < m && 1 < count && m * count <= |recs| && m <= m * count
             && |own| == EdgeBits(|recs|, m, count)
    requires t == Tapes(own + l + r, []) && Size(t) == CountEdge(FILTERS, |recs|, m, count)
    requires Counts(|l|, 0) == CountEdge(FILTERS, m * count, m, count / 2)
    requires Counts(|r|, 0) == CountEdge(FILTERS, m * count, m, count - count / 2)
    ensures var kept := Kept(order, own, recs, m, count);
            ReadEdge(FILTERS, order, t, recs, m, count)
            == ReadEdge(FILTERS, order, Tapes(l, []), kept, m, count / 2)
              + ReadEdge(FILTERS, order, Tapes(r, []), kept, m, count - count / 2)
  {
    hide CountEdge;
    assert NodeCapacity(|recs|, m, count) == m * count;
    var below := Tapes(l + r, []);
    assert t.swo[..|own|] == own && t.swo[|own|..] == l + r;
    assert Drop(t, Counts(|own|, 0)) == below;
    assert Take(below, Counts(|l|, 0)) == Tapes(l, []) && Drop(below, Counts(|l|, 0)) == Tapes(r, []);
  }

  // ----- the recursion in place -----

  /** A recorded group: its own fields, where its two groups are recorded, and how its bits split. */
  lemma GroupRecorded(nodes: seq<Node>, id: nat, n: nat, m: nat, start: nat, count: nat, offset: nat)
    requires 0 < m && 0 < count && m * count <= n && Records(nodes, id, Plan(n, m, start, count, offset, id))
    ensures m <= m * count && id < |nodes| && NodeBits(n, m, count) >= EdgeBits(n, m, count)
    ensures var node := nodes[id]; node.inputBlocks == n && node.count == count && node.offset == offset
    ensures count > 1 ==>
              var node, out := nodes[id], m * count;
              var next := offset + EdgeBits(n, m, count);
              var next' := next + NodeBits(out, m, count / 2);
              && m * (count / 2) <= out && m * (count - count / 2) <= out
              && m * (count / 2) + m * (count - count / 2) == out
              && node.left.Some? && node.right.Some?
              && Records(nodes, node.left.value, Plan(out, m, 0, count / 2, next, node.left.value))
              && Records(nodes, node.right.value, Plan(out, m, count / 2, count - count / 2, next', node.right.value))
              && NodeBits(n, m, count) == EdgeBits(n, m, count) + NodeBits(out, m, count / 2)
                + NodeBits(out, m, count - count / 2)
  {
    hide Plan, Records, EdgeBits, NodeBits;
    PlanUnfold(n, m, start, count, offset, id);
    GroupFits(m, count);
    NodeBitsSplit(n, m, count);
    if count == 1 {
      RecordsOne(nodes, id, Node(n, start, count, offset, None, None));
    } else {
      var leftK, out, next := count / 2, m * count, offset + EdgeBits(n, m, count);
      var root := Node(n, start, count, offset, Some(id + 1), Some(id + 2 * leftK));
      var left := Plan(out, m, 0, leftK, next, id + 1);
      var right := Plan(out, m, leftK, count - leftK, next + NodeBits(out, m, leftK), id + 2 * leftK);
      RecordsOne(nodes, id, root);
      RecordsJoin(nodes, id, [root], left);
      RecordsJoin(nodes, id, [root] + left, right);
    }
  }

  lemma BitsSplit(bytes: seq<bv8>, from: nat, a: nat, b: nat, c: nat)
    requires from + a + b + c <= 8 * |bytes|
    ensures BitsOf(bytes, from, a + b + c) == BitsOf(bytes, from, a) + BitsOf(bytes, from + a, b)
            + BitsOf(bytes, from + a + b, c)
  {
    hide BitAt;
  }

  /**
   * Two groups of one input that fill their output between them, with their nodes and their bits recorded one after the
   * other.
   */
  ghost predicate PairPlanned(nodes: seq<Node>, leftId: nat, rightId: nat, n: nat, m: nat, lk: nat, rk: nat,
                              offset: nat, total: nat) {
    && 0 < m <= n && 0 < lk && 0 < rk && m * lk <= n && m * rk <= n && m * lk + m * rk == n
    && Records(nodes, leftId, Plan(n, m, 0, lk, offset, leftId))
    && Records(nodes, rightId, Plan(n, m, lk, rk, offset + NodeBits(n, m, lk), rightId))
    && offset + NodeBits(n, m, lk) + NodeBits(n, m, rk) <= total
  }

  /** Serves a group whose compacted input already sits in its output slice. */
  method ReadBelow<R>(data: array<R>, lo: nat, id: nat, nodes: seq<Node>, bits: seq<bv8>, m: nat, backup: array<R>,
                      order: seq<bool> -> seq<nat>, ghost recs: seq<R>, ghost start: nat, ghost count: nat,
                      ghost offset: nat)
    requires Compactor(order) && 0 < m && 0 < count && m * count <= |recs| && m <= |recs|
    requires backup != data && lo + m * count <= data.Length && m * count <= backup.Length
    requires Records(nodes, id, Plan(|recs|, m, start, count, offset, id))
    requires offset + NodeBits(|recs|, m, count) <= 8 * |bits| && offset + EdgeBits(|recs|, m, count) <= 8 * |bits|
    requires data[lo..lo + m * count] == Kept(order, BitsOf(bits, offset, EdgeBits(|recs|, m, count)), recs, m, count)
    modifies data, backup
    ensures data[..] == Within(old(data[..]), lo, EdgeOutput(order, BitsOf(bits, offset, NodeBits(|recs|, m, count)),
                                                             recs, m, count))
    decreases count, 1
  {
    hide Plan, Records, EdgeBits, NodeBits, Kept, EdgeOutput, BitsOf, Within;
    ghost var n, s0 := |recs|, data[..];
    ghost var e := EdgeBits(n, m, count);
    GroupRecorded(nodes, id, n, m, start, count, offset);
    var node := nodes[id];
    ghost var own := BitsOf(bits, offset, e);
    if node.count > 1 {
      ghost var l, r := NodeBits(m * count, m, count / 2), NodeBits(m * count, m, count - count / 2);
      ReadPair(data, lo, node.left.value, node.right.value, nodes, bits, m, backup, order, m * count, count / 2,
               count - count / 2, offset + e);
      BitsSplit(bits, offset, e, l, r);
      PairOutput(order, own, BitsOf(bits, offset + e, l), BitsOf(bits, offset + e + l, r), recs, m, count);
      assert s0[lo..lo + m * count] == Kept(order, own, recs, m, count);
    } else {
      LeafOutput(order, own, recs, m, count);
      WithinSelf(s0, lo, m * count);
      assert s0[lo..lo + m * count] == Kept(order, own, recs, m, count);
    }
  }

  /**
   * Serves both groups of an input that fills its own output slice: the second group works on the backup, which is dead
   * again before either group is served further.
   */
  method ReadPair<R>(data: array<R>, lo: nat, leftId: nat, rightId: nat, nodes: seq<Node>, bits: seq<bv8>, m: nat,
                     backup: array<R>, order: seq<bool> -> seq<nat>, ghost n: nat, ghost lk: nat, ghost rk: nat,
                     ghost offset: nat)
    requires Compactor(order) && PairPlanned(nodes, leftId, rightId, n, m, lk, rk, offset, 8 * |bits|)
    requires backup != data && lo + n <= data.Length && n <= backup.Length
    modifies data, backup
    ensures data[..] == Within(old(data[..]), lo, PairOutputs(order, bits, offset, old(data[lo..lo + n]), n, m, lk, rk))
    decreases lk + rk, 0
  {
    hide Plan, Records, EdgeBits, NodeBits, Kept, EdgeOutput, BitsOf, Within;
    ghost var l, r, s0 := NodeBits(n, m, lk), NodeBits(n, m, rk), data[..];
    ghost var recs := s0[lo..lo + n];
    assert data[lo..lo + n] == recs;
    GroupRecorded(nodes, leftId, n, m, 0, lk, offset);
    GroupRecorded(nodes, rightId, n, m, lk, rk, offset + l);
    var left, right := nodes[leftId], nodes[rightId];
    var leftBlocks := m * left.count;
    CompactPair(data, lo, left, right, bits, m, backup, order);
    ghost var a := Kept(order, BitsOf(bits, offset, EdgeBits(n, m, lk)), recs, m, lk);
    ghost var b := Kept(order, BitsOf(bits, offset + l, EdgeBits(n, m, rk)), recs, m, rk);
    ghost var s1 := data[..];
    WithinSlices(s0, lo, a + b, |a|);
    assert (a + b)[..|a|] == a && (a + b)[|a|..] == b;
    assert data[lo..lo + leftBlocks] == s1[lo..lo + leftBlocks];
    ReadBelow(data, lo, leftId, nodes, bits, m, backup, order, recs, 0, lk, offset);
    ghost var x := EdgeOutput(order, BitsOf(bits, offset, l), recs, m, lk);
    ghost var s2 := data[..];
    WithinAfter(s1, lo, x, |b|);
    assert data[lo + leftBlocks..lo + leftBlocks + |b|] == s2[lo + leftBlocks..lo + leftBlocks + |b|];
    ReadBelow(data, lo + leftBlocks, rightId, nodes, bits, m, backup, order, recs, lk, rk, offset + l);
    ghost var y := EdgeOutput(order, BitsOf(bits, offset + l, r), recs, m, rk);
    WithinTwice(s1, lo, x, y);
    WithinAgain(s0, lo, a + b, x + y);
  }

  /** The slices of two groups of one input, side by side. */
  ghost function PairOutputs<R>(order: seq<bool> -> seq<nat>, bits: seq<bv8>, offset: nat, recs: seq<R>, n: nat, m: nat,
                                lk: nat, rk: nat): (out: seq<R>)
    requires Compactor(order) && |recs| == n && 0 < m <= n && 0 < lk && 0 < rk
    requires offset + NodeBits(n, m, lk) + NodeBits(n, m, rk) <= 8 * |bits|
    ensures |out| == m * lk + m * rk
  {
    var l, r := NodeBits(n, m, lk), NodeBits(n, m, rk);
    EdgeOutput(order, BitsOf(bits, offset, l), recs, m, lk)
      + EdgeOutput(order, BitsOf(bits, offset + l, r), recs, m, rk)
  }

  /** Compacts the first group in place and the second on the backup, then moves the second behind the first. */
  method CompactPair<R>(data: array<R>, lo: nat, left: Node, right: Node, bits: seq<bv8>, m: nat, backup: array<R>,
                        order: seq<bool> -> seq<nat>)
    requires Compactor(order) && backup != data && left.inputBlocks == right.inputBlocks == m * left.count
             + m * right.count
    requires lo + left.inputBlocks <= data.Length && left.inputBlocks <= backup.Length
    requires left.offset + EdgeBits(left.inputBlocks, m, left.count) <= 8 * |bits|
    requires right.offset + EdgeBits(right.inputBlocks, m, right.count) <= 8 * |bits|
    modifies data, backup
    ensures var n, recs := left.inputBlocks, old(data[lo..lo + left.inputBlocks]);
            data[..] == Within(old(data[..]), lo,
              Kept(order, BitsOf(bits, left.offset, EdgeBits(n, m, left.count)), recs, m, left.count)
              + Kept(order, BitsOf(bits, right.offset, EdgeBits(n, m, right.count)), recs, m, right.count))
  {
    hide EdgeBits, Kept, BitsOf, Moved, Within, Compactor;
    var n, leftBlocks, rightBlocks := left.inputBlocks, m * left.count, m * right.count;
    ghost var s0 := data[..];
    ghost var recs := s0[lo..lo + n];
    PartsOf(m, left.count, right.count, n);
    CopyBlocks(data, lo, n, backup, 0);
    ghost var t0 := backup[..];
    assert data[lo..lo + n] == recs && data[..] == s0;
    assert backup[0..0 + n] == recs;
    CompactData(data, lo, left, bits, m, order);
    CompactData(backup, 0, right, bits, m, order);
    ghost var s1, movedL, movedR :=
      data[..], Moved(order, bits, left.offset, recs, m, left.count),
        Moved(order, bits, right.offset, recs, m, right.count);
    KeptPrefix(order, bits, left.offset, recs, m, left.count);
    KeptPrefix(order, bits, right.offset, recs, m, right.count);
    WithinSlices(t0, 0, movedR, rightBlocks);
    assert backup[0..0 + rightBlocks] == backup[..][0..0 + rightBlocks];
    CopyBlocks(backup, 0, rightBlocks, data, lo + leftBlocks);
    JoinMoved(s0, lo, movedL, movedL[..leftBlocks], movedR[..rightBlocks]);
  }

  lemma PartsOf(m: nat, lk: nat, rk: nat, n: nat)
    requires m * lk + m * rk == n
    ensures 0 <= m * lk <= n && 0 <= m * rk <= n
  {
  }

  method CopyBlocks<R>(source: array<R>, from: nat, n: nat, target: array<R>, at: nat)
    requires source != target && from + n <= source.Length && at + n <= target.Length
    modifies target
    ensures target[..] == Within(old(target[..]), at, source[from..from + n])
    ensures target[at..at + n] == source[from..from + n]
  {
    forall i | 0 <= i < n {
      target[at + i] := source[from + i];
    }
  }

  lemma JoinMoved<T>(s0: seq<T>, lo: nat, moved: seq<T>, a: seq<T>, b: seq<T>)
    requires lo + |moved| <= |s0| && |moved| == |a| + |b| && moved[..|a|] == a
    ensures Within(Within(s0, lo, moved), lo + |a|, b) == Within(s0, lo, a + b)
  {
  }

  /** The group's own rows lead what the compaction leaves. */
  lemma KeptPrefix<R>(order: seq<bool> -> seq<nat>, bits: seq<bv8>, offset: nat, recs: seq<R>, m: nat, count: nat)
    requires Compactor(order) && m * count <= |recs| && offset + EdgeBits(|recs|, m, count) <= 8 * |bits|
    ensures Moved(order, bits, offset, recs, m, count)[..m * count]
         == Kept(order, BitsOf(bits, offset, EdgeBits(|recs|, m, count)), recs, m, count)
  {
    hide BitsOf, EdgeBits;
    EdgeBitsOf(|recs|, m, count);
    if m * count < |recs| {
      var flags := BitsOf(bits, offset, |recs|);
      PermutationShape(order(flags), |recs|);
      var g := Gather(order(flags), recs);
      assert g[..|recs|][..m * count] == g[..m * count];
    }
  }

  // ----- the whole read -----

  /** The output slices of groups that share one input, side by side. */
  ghost function RootsOutput<R>(order: seq<bool> -> seq<nat>, bits: seq<bv8>, offset: nat, recs: seq<R>, m: nat,
                                frontier: seq<FrontierNode>): (out: seq<R>)
    requires Compactor(order) && 0 < m <= |recs| && forall i :: 0 <= i < |frontier| ==> 0 < frontier[i].count
    requires offset + FrontierBits(frontier, |recs|, m) <= 8 * |bits|
    decreases |frontier|
  {
    if frontier == [] then []
    else
      var own := NodeBits(|recs|, m, frontier[0].count);
      EdgeOutput(order, BitsOf(bits, offset, own), recs, m, frontier[0].count)
      + RootsOutput(order, bits, offset + own, recs, m, frontier[1..])
  }

  /** The groups' slices are what FFOS_C reads from the same tape. */
  lemma {:induction false} RootsOutputIsRead<R>(order: seq<bool> -> seq<nat>, bits: seq<bv8>, offset: nat, recs: seq<R>,
                                                m: nat, frontier: seq<FrontierNode>)
    requires Compactor(order) && 0 < m <= |recs| && forall i :: 0 <= i < |frontier| ==> 0 < frontier[i].count
    requires offset + FrontierBits(frontier, |recs|, m) <= 8 * |bits|
    ensures CountNodes(FILTERS, frontier, |recs|, m) == Counts(FrontierBits(frontier, |recs|, m), 0)
    ensures RootsOutput(order, bits, offset, recs, m, frontier)
         == Flatten(ReadNodes(FILTERS, order, frontier,
                              Tapes(BitsOf(bits, offset, FrontierBits(frontier, |recs|, m)), []), recs, m))
    decreases |frontier|
  {
    hide CountEdge, CountNodes, ReadEdge, ReadNodes, Flatten, BitsOf, EdgeOutput, NodeBits;
    if frontier == [] {
      NoRootsRead(order, bits, offset, recs, m);
    } else {
      var own, rest := NodeBits(|recs|, m, frontier[0].count), FrontierBits(frontier[1..], |recs|, m);
      EdgeOutputIsRead(order, BitsOf(bits, offset, own), recs, m, frontier[0].count);
      RootsOutputIsRead(order, bits, offset + own, recs, m, frontier[1..]);
      FirstRootRead(order, bits, offset, recs, m, frontier, own, rest);
      FlattenJoin(ReadEdge(FILTERS, order, Tapes(BitsOf(bits, offset, own), []), recs, m, frontier[0].count),
                  ReadNodes(FILTERS, order, frontier[1..], Tapes(BitsOf(bits, offset + own, rest), []), recs, m));
    }
  }

  lemma NoRootsRead<R>(order: seq<bool> -> seq<nat>, bits: seq<bv8>, offset: nat, recs: seq<R>, m: nat)
    requires Compactor(order) && 0 < m <= |recs| && offset <= 8 * |bits|
    ensures CountNodes(FILTERS, [], |recs|, m) == Counts(0, 0)
    ensures Flatten(ReadNodes(FILTERS, order, [], Tapes(BitsOf(bits, offset, 0), []), recs, m)) == []
  {
  }

  lemma EdgeOutputIsRead<R>(order: seq<bool> -> seq<nat>, bits: seq<bool>, recs: seq<R>, m: nat, count: nat)
    requires Compactor(order) && 0 < m <= |recs| && 0 < count && |bits| == NodeBits(|recs|, m, count)
    ensures CountEdge(FILTERS, |recs|, m, count) == Counts(NodeBits(|recs|, m, count), 0)
    ensures EdgeOutput(order, bits, recs, m, count)
            == Flatten(ReadEdge(FILTERS, order, Tapes(bits, []), recs, m, count))
  {
    hide CountEdge, ReadEdge, Flatten;
    NoForkControls(|recs|, m, count);
  }

  lemma FirstRootRead<R>(order: seq<bool> -> seq<nat>, bits: seq<bv8>, offset: nat, recs: seq<R>, m: nat,
                         frontier: seq<FrontierNode>, own: nat, rest: nat)
    requires Compactor(order) && 0 < m <= |recs| && frontier != []
             && (forall i :: 0 <= i < |frontier| ==> 0 < frontier[i].count)
    requires offset + own + rest <= 8 * |bits|
    requires CountEdge(FILTERS, |recs|, m, frontier[0].count) == Counts(own, 0)
    requires CountNodes(FILTERS, frontier[1..], |recs|, m) == Counts(rest, 0)
    ensures CountNodes(FILTERS, frontier, |recs|, m) == Counts(own + rest, 0)
    ensures ReadNodes(FILTERS, order, frontier, Tapes(BitsOf(bits, offset, own + rest), []), recs, m)
         == ReadEdge(FILTERS, order, Tapes(BitsOf(bits, offset, own), []), recs, m, frontier[0].count)
            + ReadNodes(FILTERS, order, frontier[1..], Tapes(BitsOf(bits, offset + own, rest), []), recs, m)
  {
    hide CountEdge, ReadEdge, BitsOf;
    TakeDropBits(bits, offset, own, rest);
  }

  lemma TakeDropBits(bits: seq<bv8>, offset: nat, a: nat, b: nat)
    requires offset + a + b <= 8 * |bits|
    ensures var t := Tapes(BitsOf(bits, offset, a + b), []);
            Take(t, Counts(a, 0)) == Tapes(BitsOf(bits, offset, a), [])
              && Drop(t, Counts(a, 0)) == Tapes(BitsOf(bits, offset + a, b), [])
  {
    hide BitAt;
  }

  /** One root: a copy when it is the whole input, else a compacted copy served further in its output slice. */
  method ReadRoot<R>(data: array<R>, n: nat, samples: array<R>, at: nat, id: nat, nodes: seq<Node>, bits: seq<bv8>,
                     m: nat, backup: array<R>, order: seq<bool> -> seq<nat>, ghost start: nat, ghost count: nat,
                     ghost offset: nat)
    requires Compactor(order) && 0 < m && 0 < count && m * count <= n && m <= n
    requires data != samples && data != backup && samples != backup && n <= data.Length
    requires at + m * count <= samples.Length && (count > 1 || m < n ==> n <= backup.Length)
    requires Records(nodes, id, Plan(n, m, start, count, offset, id)) && offset + NodeBits(n, m, count) <= 8 * |bits|
    modifies samples, backup
    ensures samples[..] == Within(old(samples[..]), at,
                                  EdgeOutput(order, BitsOf(bits, offset, NodeBits(n, m, count)), data[..n], m, count))
  {
    hide Plan, Records, EdgeBits, NodeBits, Kept, EdgeOutput, BitsOf, Moved, Within;
    ghost var recs, s0 := data[..n], samples[..];
    ghost var own := BitsOf(bits, offset, 0);
    GroupRecorded(nodes, id, n, m, start, count, offset);
    var node := nodes[id];
    var blocks := m * node.count;
    assert data[0..0 + n] == recs;
    if node.count == 1 && blocks == n {
      CopyBlocks(data, 0, n, samples, at);
      EdgeBitsOf(n, m, count);
      LeafOutput(order, BitsOf(bits, offset, EdgeBits(n, m, count)), recs, m, count);
      WholeKept(order, BitsOf(bits, offset, EdgeBits(n, m, count)), recs, m, count);
    } else {
      EnoughBackup(m, n, count);
      CopyBlocks(data, 0, n, backup, 0);
      ghost var t0 := backup[..];
      assert data[..n] == recs;
      CompactData(backup, 0, node, bits, m, order);
      ghost var moved := Moved(order, bits, offset, recs, m, count);
      KeptPrefix(order, bits, offset, recs, m, count);
      WithinSlices(t0, 0, moved, blocks);
      assert backup[0..0 + blocks] == backup[..][0..0 + blocks];
      CopyBlocks(backup, 0, blocks, samples, at);
      ghost var s1 := samples[..];
      ReadBelow(samples, at, id, nodes, bits, m, backup, order, recs, start, count, offset);
      WithinAgain(s0, at, moved[..blocks], EdgeOutput(order, BitsOf(bits, offset, NodeBits(n, m, count)), recs, m,
                                                      count));
    }
  }

  lemma EnoughBackup(m: nat, n: nat, count: nat)
    requires 0 < m && m <= n && 0 < count && !(count == 1 && m * count == n)
    ensures count > 1 || m < n
  {
  }

  lemma WholeKept<R>(order: seq<bool> -> seq<nat>, bits: seq<bool>, recs: seq<R>, m: nat, count: nat)
    requires Compactor(order) && m * count == |recs| && |bits| == EdgeBits(|recs|, m, count)
    ensures Kept(order, bits, recs, m, count) == recs
  {
  }

  lemma {:induction false} RootsOutputSize<R>(order: seq<bool> -> seq<nat>, bits: seq<bv8>, offset: nat, recs: seq<R>,
                                              m: nat, frontier: seq<FrontierNode>, start: nat, k: nat)
    requires Compactor(order) && 0 < m <= |recs| && start <= k && Covers(frontier, start, k)
    requires forall i :: 0 <= i < |frontier| ==> 0 < frontier[i].count
    requires offset + FrontierBits(frontier, |recs|, m) <= 8 * |bits|
    ensures |RootsOutput(order, bits, offset, recs, m, frontier)| == m * (k - start)
    decreases |frontier|
  {
    hide NodeBits, EdgeOutput;
    if frontier != [] {
      var count := frontier[0].count;
      CoversBound(frontier[1..], start + count, k);
      RootsOutputSize(order, bits, offset + NodeBits(|recs|, m, count), recs, m, frontier[1..], start + count, k);
      assert m * (k - start) == m * count + m * (k - start - count);
    }
  }

  /** Every group that is served through the backup finds room in it. */
  ghost predicate BackupSuffices(frontier: seq<FrontierNode>, n: nat, m: nat, size: nat) {
    n <= size || (m == n && forall i :: 0 <= i < |frontier| ==> frontier[i].count == 1)
  }

  /** The root loop: every root's slices follow the previous root's. */
  method ReadRoots<R>(data: array<R>, n: nat, samples: array<R>, roots: seq<nat>, nodes: seq<Node>, bits: seq<bv8>,
                      m: nat, backup: array<R>, order: seq<bool> -> seq<nat>, ghost frontier: seq<FrontierNode>)
    requires Compactor(order) && 0 < m <= n <= data.Length && |roots| == |frontier|
    requires data != samples && data != backup && samples != backup
    requires forall i :: 0 <= i < |frontier| ==> 0 < frontier[i].count && m * frontier[i].count <= n
    requires RootsRecorded(nodes, roots, frontier, n, m, 0) && FrontierBits(frontier, n, m) <= 8 * |bits|
    requires |RootsOutput(order, bits, 0, data[..n], m, frontier)| <= samples.Length
    requires BackupSuffices(frontier, n, m, backup.Length)
    modifies samples, backup
    ensures samples[..] == Within(old(samples[..]), 0, RootsOutput(order, bits, 0, data[..n], m, frontier))
  {
    hide Records, Plan, NodeBits, EdgeOutput, BitsOf, Within;
    ghost var recs, s0 := data[..n], samples[..];
    ghost var total := RootsOutput(order, bits, 0, recs, m, frontier);
    ghost var done: seq<R>, offset: nat := [], 0;
    var written: nat := 0;
    WithinSelf(s0, 0, 0);
    assert s0[0..0] == [] && [] + total == total;
    assert roots[0..] == roots && frontier[0..] == frontier;
    for i := 0 to |roots|
      invariant data[..n] == recs && |done| == written <= samples.Length && samples[..] == Within(s0, 0, done)
      invariant RootsRecorded(nodes, roots[i..], frontier[i..], n, m, offset)
      invariant offset + FrontierBits(frontier[i..], n, m) <= 8 * |bits|
      invariant done + RootsOutput(order, bits, offset, recs, m, frontier[i..]) == total
    {
      assert frontier[i..][0] == frontier[i] && roots[i..][0] == roots[i];
      assert frontier[i..][1..] == frontier[i + 1..] && roots[i..][1..] == roots[i + 1..];
      ghost var g := frontier[i];
      ghost var own := NodeBits(n, m, g.count);
      ghost var out := EdgeOutput(order, BitsOf(bits, offset, own), recs, m, g.count);
      ghost var rest := RootsOutput(order, bits, offset + own, recs, m, frontier[i + 1..]);
      assert done + (out + rest) == done + out + rest;
      RootRecorded(nodes, roots[i], n, m, g, offset);
      ReadRoot(data, n, samples, written, roots[i], nodes, bits, m, backup, order, g.start, g.count, offset);
      WithinTwice(s0, 0, done, out);
      written := written + m * nodes[roots[i]].count;
      done, offset := done + out, offset + own;
    }
    assert frontier[|roots|..] == [] && done + [] == done;
  }

  lemma RootRecorded(nodes: seq<Node>, id: nat, n: nat, m: nat, g: FrontierNode, offset: nat)
    requires 0 < m && 0 < g.count && m * g.count <= n && Records(nodes, id, Plan(n, m, g.start, g.count, offset, id))
    ensures m <= n && id < |nodes| && nodes[id].count == g.count
  {
    hide Plan, Records, NodeBits;
    GroupRecorded(nodes, id, n, m, g.start, g.count, offset);
    GroupFits(m, g.count);
  }

  /**
   * FFOS_C_Opt reads what FFOS_C reads: for every accepted plan, every tape and every selected-first compaction, the
   * output slices are those of the copying sampler over the same tape, and the rest of the buffer is untouched.
   */
  method FFOS_C_OptControlRead<R(0)>(data: array<R>, nodes: seq<Node>, roots: seq<nat>, bitCount: nat, bits: seq<bv8>,
                                     n: nat, m: nat, k: nat, samples: array<R>, order: seq<bool> -> seq<nat>)
    requires Compactor(order) && Validate(nodes, roots, bitCount, |bits|, n, m, k)
    requires data != samples && data.Length == n && m * k <= samples.Length
    modifies samples
    ensures var frontier := FrontierOf(nodes, roots, 0);
            && (forall i :: 0 <= i < |frontier| ==> 0 < frontier[i].count) && Covers(frontier, 0, k)
            && bitCount <= 8 * |bits| && CountNodes(FILTERS, frontier, n, m) == Counts(bitCount, 0)
            && var out := Flatten(ReadNodes(FILTERS, order, frontier, Tapes(BitsOf(bits, 0, bitCount), []),
                                            old(data[..n]), m));
               |out| == m * k && samples[..] == Within(old(samples[..]), 0, out)
  {
    hide ValidateRoots, Records, RootsRecorded, Plan, NodeBits, FrontierBits, RootsOutput, PairOutputs, ReadNodes,
         CountNodes, Flatten,
         FrontierOf, EdgeOutput, BitsOf, Within, Covers;
    ghost var recs, s0, frontier := data[..], samples[..], FrontierOf(nodes, roots, 0);
    AcceptedRoots(nodes, roots, n, m, k, Walk(0, 0, 0));
    assert bitCount <= 8 * |bits|;
    RootsOutputIsRead(order, bits, 0, recs, m, frontier);
    RootsOutputSize(order, bits, 0, recs, m, frontier, 0, k);
    assert data[..n] == recs;
    var backup := new R[if bitCount != 0 then n else 0];
    NeedsBackup(frontier, n, m);
    if |roots| == 2 && m * k == n && nodes[roots[0]].count == k / 2 {
      ExactRoots(nodes, roots, n, m, k / 2, k - k / 2, order, bits, recs);
      assert m < m * k;
      CopyBlocks(data, 0, n, samples, 0);
      assert data[0..0 + n] == recs;
      WithinSlices(s0, 0, recs, n);
      ghost var s1 := samples[..];
      assert samples[0..0 + n] == s1[0..0 + n];
      ReadPair(samples, 0, roots[0], roots[1], nodes, bits, m, backup, order, n, k / 2, k - k / 2, 0);
      WithinAgain(s0, 0, recs, PairOutputs(order, bits, 0, recs, n, m, k / 2, k - k / 2));
    } else {
      ReadRoots(data, n, samples, roots, nodes, bits, m, backup, order, frontier);
    }
  }

  /** A group that is served through the backup has bits on the tape. */
  lemma {:induction false} NeedsBackup(frontier: seq<FrontierNode>, n: nat, m: nat)
    requires 0 < m <= n && frontier != [] && forall i :: 0 <= i < |frontier| ==>
             0 < frontier[i].count && m * frontier[i].count <= n
    ensures FrontierBits(frontier, n, m) == 0 ==> BackupSuffices(frontier, n, m, 0)
    decreases |frontier|
  {
    hide NodeBits;
    var rest := frontier[1..];
    assert forall i :: 0 <= i < |rest| ==> rest[i] == frontier[i + 1];
    NodeNeedsBackup(n, m, frontier[0].count);
    if rest != [] {
      NeedsBackup(rest, n, m);
    }
    if FrontierBits(frontier, n, m) == 0 {
      forall i | 0 <= i < |frontier| ensures frontier[i].count == 1 {
        assert i > 0 ==> frontier[i] == rest[i - 1];
      }
    }
  }

  lemma NodeNeedsBackup(n: nat, m: nat, count: nat)
    requires 0 < m <= n && 0 < count && m * count <= n
    ensures NodeBits(n, m, count) == 0 ==> count == 1 && m == n
  {
    hide CountEdge;
    NodeBitsSplit(n, m, count);
    EdgeBitsOf(n, m, count);
    if count > 1 {
      GroupFits(m, count);
      CapacityFits(m * count, m, count / 2);
      NodeBitsSplit(m * count, m, count / 2);
      EdgeBitsOf(m * count, m, count / 2);
    }
  }

  /** Two roots that fill the input exactly. */
  lemma ExactRoots<R>(nodes: seq<Node>, roots: seq<nat>, n: nat, m: nat, lk: nat, rk: nat, order: seq<bool> -> seq<nat>,
                      bits: seq<bv8>, recs: seq<R>)
    requires Compactor(order) && 0 < m <= n && |recs| == n && |roots| == 2 && m * (lk + rk) == n && roots[0] < |nodes|
    requires nodes[roots[0]].count == lk == (lk + rk) / 2
    requires var frontier := FrontierOf(nodes, roots, 0);
             && Covers(frontier, 0, lk + rk) && RootsRecorded(nodes, roots, frontier, n, m, 0)
             && (forall i :: 0 <= i < |frontier| ==> 0 < frontier[i].count)
             && FrontierBits(frontier, n, m) <= 8 * |bits|
    ensures 1 < lk + rk && PairPlanned(nodes, roots[0], roots[1], n, m, lk, rk, 0, 8 * |bits|)
    ensures PairOutputs(order, bits, 0, recs, n, m, lk, rk)
            == RootsOutput(order, bits, 0, recs, m, FrontierOf(nodes, roots, 0))
  {
    hide Records, RootsRecorded, FrontierOf, FrontierBits, Plan, NodeBits, EdgeOutput, BitsOf, RootsOutput, PairOutputs;
    TwoRoots(nodes, roots, lk + rk);
    GroupFits(m, lk + rk);
    var frontier := FrontierOf(nodes, roots, 0);
    TwoRecorded(nodes, roots, frontier, n, m);
    TwoOutputs(order, bits, recs, m, frontier);
  }

  lemma TwoRecorded(nodes: seq<Node>, roots: seq<nat>, frontier: seq<FrontierNode>, n: nat, m: nat)
    requires 0 < m <= n && |roots| == |frontier| == 2 && RootsRecorded(nodes, roots, frontier, n, m, 0)
    ensures 0 < frontier[0].count && m * frontier[0].count <= n && 0 < frontier[1].count && m * frontier[1].count <= n
    ensures Records(nodes, roots[0], Plan(n, m, frontier[0].start, frontier[0].count, 0, roots[0]))
    ensures Records(nodes, roots[1], Plan(n, m, frontier[1].start, frontier[1].count, NodeBits(n, m, frontier[0].count),
                                          roots[1]))
  {
    hide Records, Plan, NodeBits;
    var last := frontier[1..];
    assert RootsRecorded(nodes, roots[1..], last, n, m, 0 + NodeBits(n, m, frontier[0].count));
    assert last[0] == frontier[1] && roots[1..][0] == roots[1];
  }

  lemma TwoRoots(nodes: seq<Node>, roots: seq<nat>, k: nat)
    requires |roots| == 2 && roots[0] < |nodes| && nodes[roots[0]].count == k / 2
             && Covers(FrontierOf(nodes, roots, 0), 0, k)
    ensures 1 < k && FrontierOf(nodes, roots, 0) == [FrontierNode(0, k / 2), FrontierNode(k / 2, k - k / 2)]
  {
    var frontier := FrontierOf(nodes, roots, 0);
    var last := frontier[1..];
    assert frontier[0] == FrontierNode(0, k / 2) && Covers(last, k / 2, k);
    assert last[0] == frontier[1] && last[1..] == [] && Covers(last[1..], k / 2 + last[0].count, k);
  }

  lemma TwoOutputs<R>(order: seq<bool> -> seq<nat>, bits: seq<bv8>, recs: seq<R>, m: nat, frontier: seq<FrontierNode>)
    requires Compactor(order) && 0 < m <= |recs| && |frontier| == 2 && 0 < frontier[0].count && 0 < frontier[1].count
    requires FrontierBits(frontier, |recs|, m) <= 8 * |bits|
    ensures FrontierBits(frontier, |recs|, m) == NodeBits(|recs|, m, frontier[0].count)
            + NodeBits(|recs|, m, frontier[1].count)
    ensures RootsOutput(order, bits, 0, recs, m, frontier)
            == PairOutputs(order, bits, 0, recs, |recs|, m, frontier[0].count, frontier[1].count)
  {
    hide NodeBits, EdgeOutput, BitsOf;
    var last := frontier[1..];
    assert last[1..] == [] && last[0] == frontier[1];
    var l, r := NodeBits(|recs|, m, frontier[0].count), NodeBits(|recs|, m, frontier[1].count);
    assert FrontierBits(last, |recs|, m) == r;
    var y := EdgeOutput(order, BitsOf(bits, l, r), recs, m, frontier[1].count);
    assert y + RootsOutput(order, bits, l + r, recs, m, last[1..]) == y;
  }
}
