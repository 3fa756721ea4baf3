/**
 * The recursive samplers: what they count, write and read, and why every output slice is its sample. Without fork nodes
 * this is FFOS_C; with them it is FFOS_FR.
 */
module Samplers {
  import opened Tags
  import opened Routing
  import opened Normalization
  import opened Powers
  import opened Schedules
  import opened PostOrder
  import opened Sampling

  datatype Option<T> = Some(value: T) | None

  /** A group of consecutive samples served by one child. */
  datatype FrontierNode = FrontierNode(start: nat, count: nat)

  /** Which nodes fork, and whether fork nodes keep their controls in postorder where they can. */
  datatype Mode = Mode(forks: bool, prepared: bool)

  /** The selection bits and the fork controls of a sampler. */
  datatype Tapes = Tapes(swo: seq<bool>, ofr: seq<Control>)

  datatype Counts = Counts(swo: nat, ofr: nat)

  function Size(t: Tapes): Counts { Counts(|t.swo|, |t.ofr|) }

  function Add(a: Counts, b: Counts): Counts { Counts(a.swo + b.swo, a.ofr + b.ofr) }

  predicate FitsIn(a: Counts, b: Counts) { a.swo <= b.swo && a.ofr <= b.ofr }

  function Join(a: Option<Tapes>, b: Option<Tapes>): Option<Tapes> {
    if a.Some? && b.Some? then Some(Tapes(a.value.swo + b.value.swo, a.value.ofr + b.value.ofr)) else None
  }

  function Take(t: Tapes, c: Counts): (r: Tapes)
    requires FitsIn(c, Size(t))
    ensures Size(r) == c
  {
    Tapes(t.swo[..c.swo], t.ofr[..c.ofr])
  }

  function Drop(t: Tapes, c: Counts): (r: Tapes)
    requires FitsIn(c, Size(t))
    ensures Size(t) == Add(c, Size(r))
  {
    Tapes(t.swo[c.swo..], t.ofr[c.ofr..])
  }

  lemma TakeDropJoin(a: Tapes, b: Tapes)
    ensures var t := Join(Some(a), Some(b)).value;
            Size(t) == Add(Size(a), Size(b)) && Take(t, Size(a)) == a && Drop(t, Size(a)) == b
  {
  }

  // ----- shapes -----

  function NodeCapacity(n: nat, m: nat, count: nat): (r: nat)
    ensures r <= n
  {
    if m * count < n then m * count else n
  }

  /** Selection bits an edge writes: one a row, unless the child keeps every row. */
  function EdgeBits(n: nat, m: nat, count: nat): nat {
    if NodeCapacity(n, m, count) < n then n else 0
  }

  lemma CapacityFits(n: nat, m: nat, count: nat)
    requires 0 < m <= n && 0 < count
    ensures m <= NodeCapacity(n, m, count)
    ensures count == 1 ==> NodeCapacity(n, m, count) == m
  {
    assert m * count == m + m * (count - 1);
  }

  predicate IsFork(mode: Mode, n: nat, m: nat, k: nat) {
    mode.forks && 1 < k && m * k == n
  }

  lemma ForkFits(n: nat, m: nat, k: nat)
    requires 0 < m && 1 < k && m * k == n
    ensures m <= m * (k / 2) <= n && n - m * (k / 2) == m * (k - k / 2) >= m
  {
    assert m * k == m * (k / 2) + m * (k - k / 2);
    assert m * (k / 2) == m + m * (k / 2 - 1);
    assert m * (k - k / 2) == m + m * (k - k / 2 - 1);
  }

  /** Selection bits and fork controls of a node over n rows that serves k samples. */
  function CountTree(mode: Mode, n: nat, m: nat, k: nat): Counts
    requires 0 < m <= n && 0 < k
    decreases k, 1
  {
    if k == 1 then Counts(if n == m then 0 else n, 0)
    else if IsFork(mode, n, m, k) then CountFork(mode, n, m, k)
    else Add(CountEdge(mode, n, m, k / 2), CountEdge(mode, n, m, k - k / 2))
  }

  function CountFork(mode: Mode, n: nat, m: nat, k: nat): Counts
    requires 0 < m <= n && IsFork(mode, n, m, k)
    decreases k, 0
  {
    ForkFits(n, m, k);
    var leftN := m * (k / 2);
    Add(Counts(0, TapeLength(n, leftN)),
        Add(CountTree(mode, leftN, m, k / 2), CountTree(mode, n - leftN, m, k - k / 2)))
  }

  function CountEdge(mode: Mode, n: nat, m: nat, count: nat): Counts
    requires 0 < m <= n && 0 < count
    decreases count, 2
  {
    CapacityFits(n, m, count);
    Add(Counts(EdgeBits(n, m, count), 0),
        if count > 1 then CountTree(mode, NodeCapacity(n, m, count), m, count) else Counts(0, 0))
  }

  // ----- writing -----

  function Project(row: seq<bool>, start: nat, count: nat): (r: seq<bool>)
    ensures |r| == count && forall i :: 0 <= i < count ==> r[i] == Has(row, start + i)
  {
    seq(count, i requires 0 <= i < count => Has(row, start + i))
  }

  function ProjectRows(rows: seq<seq<bool>>, start: nat, count: nat): (r: seq<seq<bool>>)
    ensures |r| == |rows| && forall i :: 0 <= i < |rows| ==> r[i] == Project(rows[i], start, count)
  {
    seq(|rows|, i requires 0 <= i < |rows| => Project(rows[i], start, count))
  }

  /** Which rows are marked by any of their samples. */
  function Flags(rows: seq<seq<bool>>): (r: seq<bool>)
    ensures |r| == |rows| && forall i :: 0 <= i < |rows| ==> r[i] == (true in rows[i])
  {
    seq(|rows|, i requires 0 <= i < |rows| => true in rows[i])
  }

  /** The tags of a fork: is the row marked among the first k/2 samples, among the others? */
  function ForkTags(rows: seq<seq<bool>>, k: nat): (r: seq<Tag>)
    ensures |r| == |rows|
  {
    seq(|rows|, i requires 0 <= i < |rows| =>
      Tag(true in Project(rows[i], 0, k / 2), true in Project(rows[i], k / 2, k - k / 2)))
  }

  predicate PostOrdered(mode: Mode, n: nat, leftN: nat) {
    mode.prepared && 2 <= n && IsPowerOfTwo(n) && 2 * leftN == n
  }

  /** n is a power of two above one, and leftN is its half. */
  ghost predicate HalvesPower(n: nat, leftN: nat) {
    exists h :: IsHalving(n, leftN, h)
  }

  predicate IsHalving(n: nat, leftN: nat, h: nat) {
    Pow2(h + 1) == n && Pow2(h) == leftN
  }

  /** A prepared fork is stored in postorder exactly when it splits a power of two into equal halves. */
  lemma PostOrderedShape(mode: Mode, n: nat, leftN: nat)
    ensures PostOrdered(mode, n, leftN) <==> mode.prepared && HalvesPower(n, leftN)
  {
    hide IsPowerOfTwo, Log2, Pow2, IsHalving;
    if PostOrdered(mode, n, leftN) {
      HalvingFound(n, leftN);
    }
    if HalvesPower(n, leftN) {
      var h: nat :| IsHalving(n, leftN, h);
      HalvingPasses(n, leftN, h);
    }
  }

  lemma HalvingFound(n: nat, leftN: nat)
    requires 2 <= n && IsPowerOfTwo(n) && 2 * leftN == n
    ensures HalvesPower(n, leftN)
  {
    hide IsPowerOfTwo, Log2, Pow2;
    var p := Log2(n);
    Pow2Unfold(p);
    if p > 0 {
      var h := p - 1;
      assert h + 1 == p;
      assert IsHalving(n, leftN, h);
    }
  }

  lemma HalvingPasses(n: nat, leftN: nat, h: nat)
    requires IsHalving(n, leftN, h)
    ensures 2 <= n && IsPowerOfTwo(n) && 2 * leftN == n
  {
    hide IsPowerOfTwo;
    Pow2Unfold(h + 1);
    PowerPasses(h + 1);
  }

  lemma PostOrderedGates(mode: Mode, n: nat, leftN: nat)
    requires PostOrdered(mode, n, leftN)
    ensures TapeLength(n, leftN) == Gates(Log2(n))
  {
    GatesAreTapeLength(Log2(n));
  }

  /** The controls of a fork, in the order the node stores them. */
  function Layout(mode: Mode, n: nat, leftN: nat, tape: seq<Control>): (r: seq<Control>)
    requires leftN <= n && |tape| == TapeLength(n, leftN)
    ensures |r| == |tape|
  {
    if PostOrdered(mode, n, leftN) then PostOrderedGates(mode, n, leftN); PostOrderControls(Log2(n), tape) else tape
  }

  function Compacted<T>(order: seq<bool> -> seq<nat>, flags: seq<bool>, xs: seq<T>, cut: nat): (r: seq<T>)
    requires Compactor(order) && |flags| == |xs| && cut <= |xs|
    ensures |r| == cut
  {
    PermutationShape(order(flags), |xs|);
    Gather(order(flags), xs)[..cut]
  }

  /** Writes a node over rows that serves k samples; None where a fork's weights do not fit its capacities. */
  function WriteTree(mode: Mode, order: seq<bool> -> seq<nat>, rows: seq<seq<bool>>, m: nat, k: nat): Option<Tapes>
    requires Compactor(order) && 0 < m <= |rows| && 0 < k
    decreases k, 1
  {
    var n := |rows|;
    if k == 1 then Some(Tapes(if n == m then [] else Flags(ProjectRows(rows, 0, 1)), []))
    else if IsFork(mode, n, m, k) then WriteFork(mode, order, rows, m, k)
    else
      Join(WriteEdge(mode, order, rows, m, 0, k / 2), WriteEdge(mode, order, rows, m, k / 2, k - k / 2))
  }

  function WriteFork(mode: Mode, order: seq<bool> -> seq<nat>, rows: seq<seq<bool>>, m: nat, k: nat): Option<Tapes>
    requires Compactor(order) && 0 < m <= |rows| && IsFork(mode, |rows|, m, k)
    decreases k, 0
  {
    var n := |rows|;
    ForkFits(n, m, k);
    var leftN, tags := m * (k / 2), ForkTags(rows, k);
    if !Fits(tags, leftN, n - leftN) then None
    else
      var full := Filled(tags, leftN, n - leftN);
      TapeFits(full, leftN);
      var tape := Tape(full, leftN);
      var routed := Apply(tape, rows, leftN);
      Join(Some(Tapes([], Layout(mode, n, leftN, tape))),
           Join(WriteTree(mode, order, ProjectRows(routed[..leftN], 0, k / 2), m, k / 2),
                WriteTree(mode, order, ProjectRows(routed[leftN..], k / 2, k - k / 2), m, k - k / 2)))
  }

  /** Writes the selection bits of one child, then the child itself. */
  function WriteEdge(mode: Mode, order: seq<bool> -> seq<nat>, rows: seq<seq<bool>>, m: nat, start: nat,
                     count: nat): Option<Tapes>
    requires Compactor(order) && 0 < m <= |rows| && 0 < count
    decreases count, 2
  {
    CapacityFits(|rows|, m, count);
    var projected, cap := ProjectRows(rows, start, count), NodeCapacity(|rows|, m, count);
    var flags := if cap < |rows| then Flags(projected) else [];
    var child := if cap < |rows| then Compacted(order, flags, projected, cap) else projected;
    Join(Some(Tapes(flags, [])), if count > 1 then WriteTree(mode, order, child, m, count) else Some(Tapes([], [])))
  }

  // ----- reading -----

  function ReplayTape<R>(mode: Mode, tape: seq<Control>, recs: seq<R>, leftN: nat): (out: seq<R>)
    requires leftN <= |recs| && |tape| == TapeLength(|recs|, leftN)
    ensures |out| == |recs|
  {
    if PostOrdered(mode, |recs|, leftN) then
      PostOrderedGates(mode, |recs|, leftN);
      PostApply(Log2(|recs|), tape, recs)
    else Apply(tape, recs, leftN)
  }

  /** Reads a node: one output slice a sample. */
  function ReadTree<R>(mode: Mode, order: seq<bool> -> seq<nat>, t: Tapes, recs: seq<R>, m: nat,
                       k: nat): (out: seq<seq<R>>)
    requires Compactor(order) && 0 < m <= |recs| && 0 < k && Size(t) == CountTree(mode, |recs|, m, k)
    ensures |out| == k && forall j :: 0 <= j < k ==> |out[j]| == m
    decreases k, 2
  {
    var n := |recs|;
    if k == 1 then [if n == m then recs else Compacted(order, t.swo, recs, m)]
    else if IsFork(mode, n, m, k) then
      ReadFork(mode, order, t, recs, m, k)
    else
      var left := CountEdge(mode, n, m, k / 2);
      ReadEdge(mode, order, Take(t, left), recs, m, k / 2) + ReadEdge(mode, order, Drop(t, left), recs, m, k - k / 2)
  }

  datatype ForkSplit = ForkSplit(own: seq<Control>, left: Tapes, right: Tapes)

  /** A fork's own controls, then the tapes of its two children. */
  function ForkTapes(mode: Mode, t: Tapes, n: nat, m: nat, k: nat): (r: ForkSplit)
    requires 0 < m <= n && IsFork(mode, n, m, k) && Size(t) == CountFork(mode, n, m, k)
    ensures m * (k / 2) <= n && |r.own| == TapeLength(n, m * (k / 2))
    ensures m <= m * (k / 2) && Size(r.left) == CountTree(mode, m * (k / 2), m, k / 2)
    ensures m <= n - m * (k / 2) && Size(r.right) == CountTree(mode, n - m * (k / 2), m, k - k / 2)
  {
    ForkFits(n, m, k);
    var leftN := m * (k / 2);
    var own, left := Counts(0, TapeLength(n, leftN)), CountTree(mode, leftN, m, k / 2);
    var rest := Drop(t, own);
    ForkSplit(Take(t, own).ofr, Take(rest, left), Drop(rest, left))
  }

  function ReadFork<R>(mode: Mode, order: seq<bool> -> seq<nat>, t: Tapes, recs: seq<R>, m: nat,
                       k: nat): (out: seq<seq<R>>)
    requires Compactor(order) && 0 < m <= |recs| && IsFork(mode, |recs|, m, k)
             && Size(t) == CountFork(mode, |recs|, m, k)
    ensures |out| == k && forall j :: 0 <= j < k ==> |out[j]| == m
    decreases k, 1
  {
    var s := ForkTapes(mode, t, |recs|, m, k);
    ReadSides(mode, order, s, ReplayTape(mode, s.own, recs, m * (k / 2)), m * (k / 2), m, k)
  }

  /** Reads the two children of a fork, each on its own side of the routed records. */
  function ReadSides<R>(mode: Mode, order: seq<bool> -> seq<nat>, s: ForkSplit, routed: seq<R>, leftN: nat, m: nat,
                        k: nat): (out: seq<seq<R>>)
    requires Compactor(order) && 1 < k && 0 < m <= leftN <= |routed| && m <= |routed| - leftN
    requires Size(s.left) == CountTree(mode, leftN, m, k / 2)
             && Size(s.right) == CountTree(mode, |routed| - leftN, m, k - k / 2)
    ensures |out| == k && forall j :: 0 <= j < k ==> |out[j]| == m
    decreases k, 0
  {
    ReadTree(mode, order, s.left, routed[..leftN], m, k / 2)
      + ReadTree(mode, order, s.right, routed[leftN..], m, k - k / 2)
  }

  function ReadEdge<R>(mode: Mode, order: seq<bool> -> seq<nat>, t: Tapes, recs: seq<R>, m: nat,
                       count: nat): (out: seq<seq<R>>)
    requires Compactor(order) && 0 < m <= |recs| && 0 < count && Size(t) == CountEdge(mode, |recs|, m, count)
    ensures |out| == count && forall j :: 0 <= j < count ==> |out[j]| == m
    decreases count, 3
  {
    hide SplitEdge, CountTree, CountEdge, Compactor;
    var e := SplitEdge(mode, order, t, recs, m, count);
    if count == 1 then [e.child] else ReadTree(mode, order, e.rest, e.child, m, count)
  }

  /** What an edge hands to its child: the records that are kept and the tapes behind its own selection bits. */
  datatype EdgeSplit<R> = EdgeSplit(child: seq<R>, rest: Tapes)

  function SplitEdge<R>(mode: Mode, order: seq<bool> -> seq<nat>, t: Tapes, recs: seq<R>, m: nat,
                        count: nat): (e: EdgeSplit<R>)
    requires Compactor(order) && 0 < m <= |recs| && 0 < count && Size(t) == CountEdge(mode, |recs|, m, count)
    ensures m <= |e.child| && (count == 1 ==> |e.child| == m)
    ensures count > 1 ==> Size(e.rest) == CountTree(mode, |e.child|, m, count)
  {
    hide CountTree;
    CapacityFits(|recs|, m, count);
    var own, cap := Counts(EdgeBits(|recs|, m, count), 0), NodeCapacity(|recs|, m, count);
    EdgeSplit(if cap < |recs| then Compacted(order, Take(t, own).swo, recs, cap) else recs, Drop(t, own))
  }

  // ----- whole samplers -----

  /** The nodes are consecutive groups that cover the samples from start to k. */
  predicate Covers(nodes: seq<FrontierNode>, start: nat, k: nat) {
    if nodes == [] then start == k
    else nodes[0].start == start && 0 < nodes[0].count && Covers(nodes[1..], start + nodes[0].count, k)
  }

  lemma {:induction false} CoversBound(nodes: seq<FrontierNode>, start: nat, k: nat)
    requires Covers(nodes, start, k)
    ensures start <= k && forall i :: 0 <= i < |nodes| ==> 0 < nodes[i].count && nodes[i].start + nodes[i].count <= k
  {
    if nodes != [] {
      CoversBound(nodes[1..], start + nodes[0].count, k);
    }
  }

  /** A frontier FFOS_FR accepts: none, or a cover of the samples by groups that fit the rows. */
  predicate CheckFrontier(frontier: seq<FrontierNode>, n: nat, m: nat, k: nat) {
    frontier == []
    || (Covers(frontier, 0, k) && forall i :: 0 <= i < |frontier| ==> m * frontier[i].count <= n)
  }

  /** Group i is not empty and ends where the next group starts, the last one at k. */
  ghost predicate MeetsNext(nodes: seq<FrontierNode>, k: nat, i: nat)
    requires i < |nodes|
  {
    && 0 < nodes[i].count
    && nodes[i].start + nodes[i].count == if i + 1 < |nodes| then nodes[i + 1].start else k
  }

  /** A frontier is accepted exactly when its groups, each within the input, lie end to end from 0 to k. */
  lemma FrontierAccepted(frontier: seq<FrontierNode>, n: nat, m: nat, k: nat)
    requires frontier != []
    ensures CheckFrontier(frontier, n, m, k) <==>
              && frontier[0].start == 0
              && (forall i :: 0 <= i < |frontier| ==> m * frontier[i].count <= n)
              && forall i :: 0 <= i < |frontier| ==> MeetsNext(frontier, k, i)
  {
    hide Covers, MeetsNext;
    CoversEndToEnd(frontier, 0, k);
  }

  lemma {:induction false} CoversEndToEnd(nodes: seq<FrontierNode>, start: nat, k: nat)
    requires nodes != []
    ensures Covers(nodes, start, k) <==>
              nodes[0].start == start && forall i :: 0 <= i < |nodes| ==> MeetsNext(nodes, k, i)
    decreases |nodes|
  {
    var rest, next := nodes[1..], start + nodes[0].count;
    assert MeetsNext(nodes, k, 0) <==> 0 < nodes[0].count && next - start + nodes[0].start
                                       == if rest != [] then rest[0].start else k;
    if rest == [] {
      assert Covers(rest, next, k) <==> next == k;
    } else {
      CoversEndToEnd(rest, next, k);
      forall i | 0 <= i < |rest| ensures MeetsNext(rest, k, i) <==> MeetsNext(nodes, k, i + 1) {
      }
      if Covers(nodes, start, k) {
        forall i | 0 <= i < |nodes| ensures MeetsNext(nodes, k, i) {
          assert 0 < i ==> MeetsNext(rest, k, i - 1);
        }
      }
    }
  }

  /** The groups a root without frontier splits into. */
  function RootNodes(frontier: seq<FrontierNode>, k: nat): seq<FrontierNode> {
    if frontier != [] then frontier
    else if k == 1 then [FrontierNode(0, 1)]
    else [FrontierNode(0, k / 2), FrontierNode(k / 2, k - k / 2)]
  }

  function CountNodes(mode: Mode, nodes: seq<FrontierNode>, n: nat, m: nat): Counts
    requires 0 < m <= n && forall i :: 0 <= i < |nodes| ==> 0 < nodes[i].count
  {
    if nodes == [] then Counts(0, 0)
    else Add(CountEdge(mode, n, m, nodes[0].count), CountNodes(mode, nodes[1..], n, m))
  }

  function WriteNodes(mode: Mode, order: seq<bool> -> seq<nat>, nodes: seq<FrontierNode>, rows: seq<seq<bool>>,
                      m: nat): Option<Tapes>
    requires Compactor(order) && 0 < m <= |rows| && forall i :: 0 <= i < |nodes| ==> 0 < nodes[i].count
  {
    if nodes == [] then Some(Tapes([], []))
    else Join(WriteEdge(mode, order, rows, m, nodes[0].start, nodes[0].count),
              WriteNodes(mode, order, nodes[1..], rows, m))
  }

  function ReadNodes<R>(mode: Mode, order: seq<bool> -> seq<nat>, nodes: seq<FrontierNode>, t: Tapes, recs: seq<R>,
                        m: nat): seq<seq<R>>
    requires Compactor(order) && 0 < m <= |recs| && forall i :: 0 <= i < |nodes| ==> 0 < nodes[i].count
    requires Size(t) == CountNodes(mode, nodes, |recs|, m)
  {
    if nodes == [] then []
    else
      var first := CountEdge(mode, |recs|, m, nodes[0].count);
      ReadEdge(mode, order, Take(t, first), recs, m, nodes[0].count)
      + ReadNodes(mode, order, nodes[1..], Drop(t, first), recs, m)
  }

  /** A root that forks, or serves one sample, ignores its frontier. */
  predicate SingleTree(mode: Mode, frontier: seq<FrontierNode>, n: nat, m: nat, k: nat) {
    frontier == [] || k == 1 || IsFork(mode, n, m, k)
  }

  function CountNode(mode: Mode, frontier: seq<FrontierNode>, n: nat, m: nat, k: nat): Counts
    requires 0 < m <= n && 0 < k && CheckFrontier(frontier, n, m, k)
  {
    if SingleTree(mode, frontier, n, m, k) then CountTree(mode, n, m, k)
    else CoversBound(frontier, 0, k); CountNodes(mode, frontier, n, m)
  }

  function WriteNode(mode: Mode, order: seq<bool> -> seq<nat>, frontier: seq<FrontierNode>, rows: seq<seq<bool>>,
                     m: nat, k: nat): Option<Tapes>
    requires Compactor(order) && 0 < m <= |rows| && 0 < k && CheckFrontier(frontier, |rows|, m, k)
  {
    if SingleTree(mode, frontier, |rows|, m, k) then WriteTree(mode, order, rows, m, k)
    else CoversBound(frontier, 0, k); WriteNodes(mode, order, frontier, rows, m)
  }

  function ReadNode<R>(mode: Mode, order: seq<bool> -> seq<nat>, frontier: seq<FrontierNode>, t: Tapes, recs: seq<R>,
                       m: nat, k: nat): seq<seq<R>>
    requires Compactor(order) && 0 < m <= |recs| && 0 < k && CheckFrontier(frontier, |recs|, m, k)
    requires Size(t) == CountNode(mode, frontier, |recs|, m, k)
  {
    if SingleTree(mode, frontier, |recs|, m, k) then ReadTree(mode, order, t, recs, m, k)
    else CoversBound(frontier, 0, k); ReadNodes(mode, order, frontier, t, recs, m)
  }
}
