/**
 * Reading a prepared fork subtree in place: every descendant checks its plan node and routes its own slice of one
 * buffer.
 */
module PreparedRead {
  import opened Flattening
  import opened Tags
  import opened TagBits
  import opened Routing
  import opened Powers
  import opened Schedules
  import opened PostOrder
  import opened PackedTape
  import opened Strided
  import opened Replay
  import opened BatchedReplay
  import opened Sampling
  import opened Samplers
  import opened ReadPlan
  import Delivery

  /** A contiguous slice is the view of stride one. */
  lemma SliceView<T>(s: seq<T>, lo: nat, n: nat)
    requires lo + n <= |s|
    ensures InRange(|s|, lo, 1, n) && View(s, lo, 1, n) == s[lo..lo + n]
  {
    assert forall i: nat :: Lane(lo, 1, i) == lo + i;
  }

  lemma SliceOutside<T>(a: seq<T>, b: seq<T>, lo: nat, n: nat)
    requires lo + n <= |b| && SameOutside(a, b, lo, 1, n)
    ensures a == Within(b, lo, a[lo..lo + n])
  {
    assert forall i: nat :: Lane(lo, 1, i) == lo + i;
    forall p | 0 <= p < |b| && !(lo <= p < lo + n) ensures a[p] == b[p] {
      assert Outside(p, lo, 1, n);
    }
  }

  lemma UpcomingControls(bytes: seq<bv8>, count: nat, from: nat, len: nat)
    requires count <= 4 * |bytes| && from + len <= count
    ensures Upcoming(bytes, from, len) == ControlsOf(GatesOf(bytes, count))[from..from + len]
  {
    hide GateAt, ControlOf;
  }

  /** Replays a fork's controls in the layout its plan node names. */
  function RoutedBy<R>(postordered: bool, tape: seq<Control>, recs: seq<R>, leftN: nat): (out: seq<R>)
    requires leftN <= |recs| && |tape| == TapeLength(|recs|, leftN)
    requires postordered ==> PostOrdered(Mode(true, true), |recs|, leftN)
    ensures |out| == |recs|
  {
    if postordered then
      PostOrderedGates(Mode(true, true), |recs|, leftN);
      PostApply(Log2(|recs|), tape, recs)
    else Apply(tape, recs, leftN)
  }

  lemma RoutedByMode<R>(mode: Mode, tape: seq<Control>, recs: seq<R>, leftN: nat)
    requires leftN <= |recs| && |tape| == TapeLength(|recs|, leftN)
    ensures RoutedBy(PostOrdered(mode, |recs|, leftN), tape, recs, leftN) == ReplayTape(mode, tape, recs, leftN)
  {
  }

  /** What the read checks of a node before it routes: the reader's own checks and those of the two in-place replays. */
  predicate RouteAllowed(node: PlanNode, n: nat, leftN: nat, position: nat, size: nat)
    requires leftN <= n
  {
    && node.offset == position && node.offset + node.count <= size && node.shape == Shape(n, leftN, n - leftN)
    && node.count == TapeLength(n, leftN) && (node.postordered ==> PostOrdered(Mode(true, true), n, leftN))
  }

  /** Routes one fork node, in whichever layout its plan node names. */
  method RouteNode<R>(data: array<R>, lo: nat, controls: PackedControls, node: PlanNode, n: nat, leftN: nat)
    requires lo + n <= data.Length && 0 < leftN < n && controls.Valid()
    requires RouteAllowed(node, n, leftN, node.offset, controls.count)
    modifies data
    ensures data[..] == Within(old(data[..]), lo,
              RoutedBy(node.postordered, controls.Controls()[node.offset..node.offset + node.count],
                       old(data[lo..lo + n]), leftN))
  {
    hide PostApply, Apply, TapeLength, Upcoming, GateAt, View, SameOutside, Within, Gates, IsPowerOfTwo, GatesOf,
         ControlsOf;
    ghost var s0 := data[..];
    assert s0[lo..lo + n] == data[lo..lo + n];
    SpanCovered(controls.bytes, controls.count);
    if node.postordered {
      PostOrderedGates(Mode(true, true), n, leftN);
      var cursor := new PackedControlCursor(controls.bytes, node.offset, node.count, 0);
      ApplyPostOrderGates(data, lo, cursor, n, Log2(n));
      UpcomingControls(controls.bytes, controls.count, node.offset, node.count);
    } else {
      SliceView(s0, lo, n);
      var next := OFRApplyStrided(data, controls, lo, 1, n, leftN, n - leftN, node.offset);
      SliceView(data[..], lo, n);
      SliceOutside(data[..], s0, lo, n);
    }
  }

  lemma SpanCovered(bytes: seq<bv8>, count: nat)
    requires |bytes| == ByteCount(count)
    ensures count <= 4 * |bytes|
  {
  }

  /** A tree of forks uses no selection bit, and its size is that of its own controls and its children's. */
  lemma {:induction false} ForkTreeCounts(mode: Mode, n: nat, m: nat, k: nat)
    requires mode.forks && 0 < m && 0 < k && m * k == n
    ensures m <= n && CountTree(mode, n, m, k).swo == 0
    decreases k
  {
    hide CountFork, CountEdge, TapeLength;
    if k > 1 {
      ForkParts(mode, n, m, k, 0);
      ForkFits(n, m, k);
      ForkTreeCounts(mode, m * (k / 2), m, k / 2);
      ForkTreeCounts(mode, n - m * (k / 2), m, k - k / 2);
    }
  }

  /** The output buffer of a fork subtree: its slices side by side. */
  ghost function ForkOutput<R>(mode: Mode, order: seq<bool> -> seq<nat>, tape: seq<Control>, recs: seq<R>, m: nat,
                               k: nat): (out: seq<R>)
    requires Compactor(order) && mode.forks && 0 < m && 0 < k && m * k == |recs|
    requires m <= |recs| && |tape| == CountTree(mode, |recs|, m, k).ofr
    ensures |out| == |recs|
  {
    ForkTreeCounts(mode, |recs|, m, k);
    FlattenSize(ReadTree(mode, order, Tapes([], tape), recs, m, k), m);
    Flatten(ReadTree(mode, order, Tapes([], tape), recs, m, k))
  }

  lemma OneSlice<R>(mode: Mode, order: seq<bool> -> seq<nat>, recs: seq<R>, m: nat)
    requires Compactor(order) && mode.forks && 0 < m == |recs|
    ensures CountTree(mode, m, m, 1) == Counts(0, 0) && ForkOutput(mode, order, [], recs, m, 1) == recs
  {
    assert ReadTree(mode, order, Tapes([], []), recs, m, 1) == [recs];
    assert Flatten([recs]) == recs + Flatten([]);
  }

  lemma Cut<T>(s: seq<T>, p: nat)
    requires p <= |s|
    ensures s[..p] + s[p..] == s && |s[..p]| == p && |s[p..]| == |s| - p
  {
  }

  /** Routing once, then serving the two sides on their own slices. */
  lemma ForkOutputParts<R>(mode: Mode, order: seq<bool> -> seq<nat>, own: seq<Control>, l: seq<Control>,
                           r: seq<Control>, recs: seq<R>, m: nat, k: nat, leftN: nat)
    requires leftN == m * (k / 2) && m * (k - k / 2) == |recs| - leftN
    requires 0 < m <= leftN <= |recs| - m && IsFork(mode, |recs|, m, k) && Compactor(order)
    requires |own| == TapeLength(|recs|, leftN) && |l| == CountTree(mode, leftN, m, k / 2).ofr
    requires |r| == CountTree(mode, |recs| - leftN, m, k - k / 2).ofr
    ensures |own + l + r| == CountTree(mode, |recs|, m, k).ofr
    ensures var routed := ReplayTape(mode, own, recs, leftN);
            ForkOutput(mode, order, own + l + r, recs, m, k)
            == ForkOutput(mode, order, l, routed[..leftN], m, k / 2)
              + ForkOutput(mode, order, r, routed[leftN..], m, k - k / 2)
  {
    hide TapeLength, ReplayTape, CountFork, CountEdge, ReadFork, ReadEdge, ReadTree, CountTree, Flatten, Compactor,
         PlanFork, PlanTree, ForkTapes;
    var n := |recs|;
    ForkParts(mode, n, m, k, 0);
    ForkTreeCounts(mode, leftN, m, k / 2);
    ForkTreeCounts(mode, n - leftN, m, k - k / 2);
    ForkTreeCounts(mode, n, m, k);
    var a, b := Tapes([], l), Tapes([], r);
    var t := Tapes([], own + l + r);
    TapesInLine(own, l, r);
    Delivery.ForkReads(mode, own, a, b, t, n, m, k, leftN);
    var routed := ReplayTape(mode, own, recs, leftN);
    Cut(routed, leftN);
    ReadForkParts(mode, order, t, ForkSplit(own, a, b), recs, routed[..leftN], routed[leftN..], m, k, leftN);
    FlattenJoin(ReadTree(mode, order, a, routed[..leftN], m, k / 2),
                ReadTree(mode, order, b, routed[leftN..], m, k - k / 2));
  }

  lemma TapesInLine(own: seq<Control>, l: seq<Control>, r: seq<Control>)
    ensures Some(Tapes([], own + l + r)) == Join(Some(Tapes([], own)), Join(Some(Tapes([], l)), Some(Tapes([], r))))
  {
    var bits: seq<bool> := [];
    assert own + (l + r) == own + l + r && bits + bits == bits;
  }

  lemma ReadForkParts<R>(mode: Mode, order: seq<bool> -> seq<nat>, t: Tapes, s: ForkSplit, recs: seq<R>, l: seq<R>,
                         r: seq<R>, m: nat, k: nat, leftN: nat)
    requires Compactor(order) && 0 < m <= |recs| && IsFork(mode, |recs|, m, k)
             && Size(t) == CountFork(mode, |recs|, m, k)
    requires ForkTapes(mode, t, |recs|, m, k) == s && m <= |l| && m <= |r|
    requires leftN == m * (k / 2) && l + r == ReplayTape(mode, s.own, recs, leftN) && |l| == leftN
    requires Size(s.left) == CountTree(mode, |l|, m, k / 2) && Size(s.right) == CountTree(mode, |r|, m, k - k / 2)
    ensures Size(t) == CountTree(mode, |recs|, m, k)
    ensures ReadTree(mode, order, t, recs, m, k) == ReadTree(mode, order, s.left, l, m, k / 2)
            + ReadTree(mode, order, s.right, r, m, k - k / 2)
  {
    hide TapeLength, ReplayTape, CountFork, CountEdge, ForkTapes, ReadEdge;
    assert CountTree(mode, |recs|, m, k) == CountFork(mode, |recs|, m, k);
    assert ReadTree(mode, order, t, recs, m, k) == ReadFork(mode, order, t, recs, m, k);
    assert (l + r)[..|l|] == l && (l + r)[|l|..] == r;
  }

  /** The plan nodes of a fork's two children follow its own, and their controls follow its own. */
  lemma PlanParts(plan: seq<PlanNode>, index: nat, mode: Mode, n: nat, m: nat, k: nat, offset: nat)
    requires 0 < m <= n && IsFork(mode, n, m, k)
    requires PlanAt(plan, index, PlanTree(mode, n, m, k, offset))
    ensures m <= m * (k / 2) <= n - m && n - m * (k / 2) == m * (k - k / 2)
    ensures var leftN := m * (k / 2);
            var next := offset + TapeLength(n, leftN);
            var left := PlanTree(mode, leftN, m, k / 2, next);
            var after := next + CountTree(mode, leftN, m, k / 2).ofr;
            var right := PlanTree(mode, n - leftN, m, k - k / 2, after);
            && index < |plan| && plan[index] == ForkNode(mode, n, leftN, offset)
            && PlanAt(plan, index + 1, left) && PlanAt(plan, index + 1 + |left|, right)
            && |PlanTree(mode, n, m, k, offset)| == 1 + |left| + |right|
            && CountTree(mode, n, m, k).ofr
               == TapeLength(n, leftN) + CountTree(mode, leftN, m, k / 2).ofr
                 + CountTree(mode, n - leftN, m, k - k / 2).ofr
  {
    hide TapeLength, ForkNode, CountFork, PlanFork, CountEdge, PlanEdge;
    ForkFits(n, m, k);
    ForkParts(mode, n, m, k, offset);
    assert PlanTree(mode, n, m, k, offset) == PlanFork(mode, n, m, k, offset);
    assert CountTree(mode, n, m, k) == CountFork(mode, n, m, k);
    var leftN := m * (k / 2);
    var next := offset + TapeLength(n, leftN);
    var left := PlanTree(mode, leftN, m, k / 2, next);
    var right := PlanTree(mode, n - leftN, m, k - k / 2, next + CountTree(mode, leftN, m, k / 2).ofr);
    PlanSplit(plan, index, ForkNode(mode, n, leftN, offset), left, right);
  }

  /** The plan holds these nodes from index on. */
  ghost predicate PlanAt(plan: seq<PlanNode>, index: nat, nodes: seq<PlanNode>) {
    index + |nodes| <= |plan| && plan[index..index + |nodes|] == nodes
  }

  lemma PlanSplit(plan: seq<PlanNode>, index: nat, node: PlanNode, left: seq<PlanNode>, right: seq<PlanNode>)
    requires PlanAt(plan, index, [node] + (left + right))
    ensures index < |plan| && plan[index] == node
    ensures PlanAt(plan, index + 1, left) && PlanAt(plan, index + 1 + |left|, right)
  {
    var nodes := [node] + (left + right);
    assert plan[index] == nodes[0];
    forall i | 0 <= i < |left| ensures plan[index + 1 + i] == left[i] {
      assert nodes[1 + i] == plan[index..index + |nodes|][1 + i];
    }
    forall i | 0 <= i < |right| ensures plan[index + 1 + |left| + i] == right[i] {
      assert nodes[1 + |left| + i] == plan[index..index + |nodes|][1 + |left| + i];
    }
  }

  // ----- reading with the checks -----

  /** What a successful read of a subtree leaves: its slices, and the next gate and plan node. */
  datatype ForkRead<R> = ForkRead(out: seq<R>, next: nat, index: nat)

  /** The read of a prepared fork subtree, each node in the layout its own plan node names; None where a check fails. */
  function TryFork<R>(cs: seq<Control>, plan: seq<PlanNode>, recs: seq<R>, m: nat, k: nat, position: nat,
                      index: nat): (r: Option<ForkRead<R>>)
    requires 0 < m && 0 < k && m * k == |recs|
    ensures r.Some? ==> |r.value.out| == |recs|
    decreases k, 1
  {
    hide RoutedBy, RouteAllowed, TapeLength, PostOrdered;
    if k == 1 then Some(ForkRead(recs, position, index))
    else
      ForkFits(|recs|, m, k);
      var leftN := m * (k / 2);
      if index >= |plan| || !RouteAllowed(plan[index], |recs|, leftN, position, |cs|) then None
      else
        var node := plan[index];
        AllowedNode(node, |recs|, leftN, position, |cs|);
        var routed := RoutedBy(node.postordered, cs[node.offset..node.offset + node.count], recs, leftN);
        TrySides(cs, plan, routed, leftN, m, k / 2, k - k / 2, position + node.count, index + 1)
  }

  /** The two children in turn, each on its own side. */
  function TrySides<R>(cs: seq<Control>, plan: seq<PlanNode>, routed: seq<R>, leftN: nat, m: nat, left: nat, right: nat,
                       position: nat, index: nat)
    : (r: Option<ForkRead<R>>)
    requires 0 < m && 0 < left && 0 < right && m * left == leftN <= |routed| && m * right == |routed| - leftN
    ensures r.Some? ==> |r.value.out| == |routed|
    decreases left + right, 0
  {
    var top, bottom := routed[..leftN], routed[leftN..];
    match TryFork(cs, plan, top, m, left, position, index)
    case None => None
    case Some(l) =>
      match TryFork(cs, plan, bottom, m, right, l.next, l.index)
      case None => None
      case Some(r) => Some(ForkRead(l.out + r.out, r.next, r.index))
  }

  lemma TryForkUnfold<R>(cs: seq<Control>, plan: seq<PlanNode>, recs: seq<R>, leftN: nat, m: nat, k: nat, position: nat,
                         index: nat)
    requires 0 < m && 1 < k && m * k == |recs| && m * (k / 2) == leftN <= |recs| && m * (k - k / 2) == |recs| - leftN
    ensures index >= |plan| || !RouteAllowed(plan[index], |recs|, leftN, position, |cs|) ==>
              TryFork(cs, plan, recs, m, k, position, index).None?
    ensures index < |plan| && RouteAllowed(plan[index], |recs|, leftN, position, |cs|) ==>
              var node := plan[index];
              var routed := RoutedBy(node.postordered, cs[node.offset..node.offset + node.count], recs, leftN);
              TryFork(cs, plan, recs, m, k, position, index)
              == TrySides(cs, plan, routed, leftN, m, k / 2, k - k / 2, position + node.count, index + 1)
  {
    hide RouteAllowed, RoutedBy, TapeLength, TrySides;
  }

  /** A plan that matches the expected nodes of a subtree matches its root and the nodes of its two children. */
  lemma MatchParts(plan: seq<PlanNode>, index: nat, mode: Mode, n: nat, m: nat, k: nat, offset: nat)
    requires 0 < m <= n && IsFork(mode, n, m, k) && PlanMatches(plan, index, PlanTree(mode, n, m, k, offset))
    ensures m <= m * (k / 2) <= n - m && n - m * (k / 2) == m * (k - k / 2)
    ensures var leftN := m * (k / 2);
            var next := offset + TapeLength(n, leftN);
            var left := PlanTree(mode, leftN, m, k / 2, next);
            var after := next + CountTree(mode, leftN, m, k / 2).ofr;
            var right := PlanTree(mode, n - leftN, m, k - k / 2, after);
            && index < |plan| && NodeMatches(plan[index], ForkNode(mode, n, leftN, offset))
            && PlanMatches(plan, index + 1, left) && PlanMatches(plan, index + 1 + |left|, right)
            && |PlanTree(mode, n, m, k, offset)| == 1 + |left| + |right|
            && CountTree(mode, n, m, k).ofr
               == TapeLength(n, leftN) + CountTree(mode, leftN, m, k / 2).ofr
                 + CountTree(mode, n - leftN, m, k - k / 2).ofr
  {
    hide TapeLength, ForkNode, CountFork, PlanFork, CountEdge, PlanEdge, PlanMatches, NodeMatches;
    ForkFits(n, m, k);
    ForkParts(mode, n, m, k, offset);
    assert PlanTree(mode, n, m, k, offset) == PlanFork(mode, n, m, k, offset);
    assert CountTree(mode, n, m, k) == CountFork(mode, n, m, k);
    var leftN := m * (k / 2);
    var next := offset + TapeLength(n, leftN);
    var root := [ForkNode(mode, n, leftN, offset)];
    var left := PlanTree(mode, leftN, m, k / 2, next);
    var right := PlanTree(mode, n - leftN, m, k - k / 2, next + CountTree(mode, leftN, m, k / 2).ofr);
    PlanMatchesJoin(plan, index, root, left + right);
    PlanMatchesJoin(plan, index + 1, left, right);
    FirstMatches(plan, index, root);
  }

  lemma FirstMatches(plan: seq<PlanNode>, index: nat, nodes: seq<PlanNode>)
    requires nodes != [] && PlanMatches(plan, index, nodes)
    ensures index < |plan| && NodeMatches(plan[index], nodes[0])
  {
    assert MatchesAt(plan, index + 0, nodes[0]);
  }

  /**
   * A plan that matches, in whatever layout each node is recorded, is read without a failing check, and the read ends
   * where the count and the plan say.
   */
  lemma {:induction false} MatchedForkReads<R>(cs: seq<Control>, plan: seq<PlanNode>, recs: seq<R>, mode: Mode, m: nat,
                                               k: nat, position: nat, index: nat)
    requires mode.forks && 0 < m <= |recs| && 0 < k && m * k == |recs|
    requires PlanMatches(plan, index, PlanTree(mode, |recs|, m, k, position))
    requires position + CountTree(mode, |recs|, m, k).ofr <= |cs|
    ensures var r := TryFork(cs, plan, recs, m, k, position, index);
            && r.Some? && r.value.next == position + CountTree(mode, |recs|, m, k).ofr
            && r.value.index == index + |PlanTree(mode, |recs|, m, k, position)|
    decreases k
  {
    hide TapeLength, CountFork, PlanFork, CountEdge, PlanEdge, PlanMatches, PlanTree, CountTree, RoutedBy, TryFork;
    if k == 1 {
      OneForkRead(cs, plan, recs, mode, m, position, index);
    } else {
      var n, leftN := |recs|, m * (k / 2);
      MatchParts(plan, index, mode, n, m, k, position);
      TryForkUnfold(cs, plan, recs, leftN, m, k, position, index);
      MatchedRoute(plan[index], mode, n, leftN, position, |cs|);
      var node := plan[index];
      var routed := RoutedBy(node.postordered, cs[node.offset..node.offset + node.count], recs, leftN);
      MatchedForkReads(cs, plan, routed[..leftN], mode, m, k / 2, position + node.count, index + 1);
      var l := TryFork(cs, plan, routed[..leftN], m, k / 2, position + node.count, index + 1).value;
      MatchedForkReads(cs, plan, routed[leftN..], mode, m, k - k / 2, l.next, l.index);
    }
  }

  lemma OneForkRead<R>(cs: seq<Control>, plan: seq<PlanNode>, recs: seq<R>, mode: Mode, m: nat, position: nat,
                       index: nat)
    requires mode.forks && 0 < m == |recs|
    ensures TryFork(cs, plan, recs, m, 1, position, index) == Some(ForkRead(recs, position, index))
    ensures CountTree(mode, m, m, 1).ofr == 0 && PlanTree(mode, m, m, 1, position) == []
  {
  }

  /** A node the preflight accepts passes the read's own checks. */
  lemma MatchedRoute(node: PlanNode, mode: Mode, n: nat, leftN: nat, position: nat, size: nat)
    requires leftN <= n && NodeMatches(node, ForkNode(mode, n, leftN, position))
             && position + TapeLength(n, leftN) <= size
    ensures RouteAllowed(node, n, leftN, position, size) && node.count == TapeLength(n, leftN)
  {
    hide TapeLength;
  }

  /** The writer's own plan is read in the writer's layout. */
  lemma {:induction false} WrittenForkReads<R>(cs: seq<Control>, plan: seq<PlanNode>, recs: seq<R>, mode: Mode,
                                               order: seq<bool> -> seq<nat>, m: nat, k: nat, position: nat, index: nat)
    requires Compactor(order) && mode.forks && 0 < m <= |recs| && 0 < k && m * k == |recs|
    requires PlanAt(plan, index, PlanTree(mode, |recs|, m, k, position))
    requires position + CountTree(mode, |recs|, m, k).ofr <= |cs|
    ensures var r, next := TryFork(cs, plan, recs, m, k, position, index), position + CountTree(mode, |recs|, m, k).ofr;
            && r.Some? && r.value.next == next && r.value.index == index + |PlanTree(mode, |recs|, m, k, position)|
            && r.value.out == ForkOutput(mode, order, cs[position..next], recs, m, k)
    decreases k
  {
    hide TapeLength, CountFork, PlanFork, CountEdge, PlanEdge, PlanAt, ForkNode, PlanTree, CountTree, RoutedBy, TryFork,
         ForkOutput, ReplayTape;
    if k == 1 {
      OneForkRead(cs, plan, recs, mode, m, position, index);
      OneSlice(mode, order, recs, m);
      assert cs[position..position] == [];
    } else {
      var n, leftN := |recs|, m * (k / 2);
      PlanParts(plan, index, mode, n, m, k, position);
      TryForkUnfold(cs, plan, recs, leftN, m, k, position, index);
      var node := plan[index];
      WrittenRoute(node, mode, n, leftN, position, |cs|);
      var own := cs[position..position + node.count];
      RoutedByMode(mode, own, recs, leftN);
      var routed := ReplayTape(mode, own, recs, leftN);
      WrittenForkReads(cs, plan, routed[..leftN], mode, order, m, k / 2, position + node.count, index + 1);
      var l := TryFork(cs, plan, routed[..leftN], m, k / 2, position + node.count, index + 1).value;
      WrittenForkReads(cs, plan, routed[leftN..], mode, order, m, k - k / 2, l.next, l.index);
      var next := position + CountTree(mode, n, m, k).ofr;
      JoinSlices(cs, position, position + node.count, l.next, next);
      ForkOutputParts(mode, order, own, cs[position + node.count..l.next], cs[l.next..next], recs, m, k, leftN);
    }
  }

  lemma WrittenRoute(node: PlanNode, mode: Mode, n: nat, leftN: nat, position: nat, size: nat)
    requires leftN <= n && node == ForkNode(mode, n, leftN, position) && position + TapeLength(n, leftN) <= size
    ensures RouteAllowed(node, n, leftN, position, size) && node.count == TapeLength(n, leftN)
            && node.offset == position
    ensures node.postordered == PostOrdered(mode, n, leftN)
  {
    hide TapeLength;
  }

  /**
   * The in-place read of a prepared fork subtree: each node checks its plan node, routes its slice of the output once,
   * and its children work on disjoint slices of it. It succeeds exactly when the checked read does, with the same
   * slices and the same ends, and never touches anything outside its slice.
   */
  method ReadPreparedForkTreeInPlace<R>(data: array<R>, lo: nat, controls: PackedControls, plan: seq<PlanNode>, n: nat,
                                        m: nat, k: nat, position: nat, index: nat)
    returns (ok: bool, written: nat, next: nat, nextIndex: nat)
    requires 0 < m && 0 < k && m * k == n && lo + n <= data.Length && controls.Valid()
    modifies data
    ensures var r := TryFork(controls.Controls(), plan, old(data[lo..lo + n]), m, k, position, index);
            && ok == r.Some?
            && (ok ==> written == n && next == r.value.next && nextIndex == r.value.index
                       && data[..] == Within(old(data[..]), lo, r.value.out))
    ensures KeptAround(data[..], old(data[..]), lo, n)
    decreases k
  {
    hide TapeLength, Within, TryFork, RoutedBy, PackedControls.Controls, RouteAllowed, KeptAround;
    ghost var s0, cs := data[..], controls.Controls();
    ghost var recs := s0[lo..lo + n];
    assert data[lo..lo + n] == recs;
    KeptSelf(s0, lo, n);
    ok, written, next, nextIndex := false, 0, position, index;
    if k == 1 {
      SingleRead(cs, plan, recs, m, position, index);
      WithinSelf(s0, lo, n);
      return true, m, position, index;
    }
    ForkFits(n, m, k);
    var leftK := k / 2;
    var leftN := m * leftK;
    TryForkUnfold(cs, plan, recs, leftN, m, k, position, index);
    if index >= |plan| || !RouteAllowed(plan[index], n, leftN, position, controls.count) {
      return;
    }
    var node := plan[index];
    AllowedNode(node, n, leftN, position, controls.count);
    RouteNode(data, lo, controls, node, n, leftN);
    ghost var routed := RoutedBy(node.postordered, cs[node.offset..node.offset + node.count], recs, leftN);
    ghost var s1 := data[..];
    KeptWithin(s0, lo, routed);
    WithinSlices(s0, lo, routed, leftN);
    ok, written, next, nextIndex := ReadPreparedForkTreeInPlace(data, lo, controls, plan, leftN, m, leftK, position
                                                                + node.count, index + 1);
    ghost var s2 := data[..];
    KeptWider(s2, s1, lo, 0, leftN, n);
    KeptChain(s2, s1, s0, lo, n);
    if !ok {
      return;
    }
    ghost var a := TryFork(cs, plan, routed[..leftN], m, leftK, position + node.count, index + 1).value.out;
    WithinAfter(s1, lo, a, n - leftN);
    var rightWritten;
    ok, rightWritten, next, nextIndex :=
      ReadPreparedForkTreeInPlace(data, lo + leftN, controls, plan, n - leftN, m, k - leftK, next, nextIndex);
    written := written + rightWritten;
    KeptWider(data[..], s2, lo, leftN, n - leftN, n);
    KeptChain(data[..], s2, s0, lo, n);
    if ok {
      ghost var b := TryFork(cs, plan, recs, m, k, position, index).value.out[leftN..];
      assert TryFork(cs, plan, recs, m, k, position, index).value.out == a + b;
      WithinTwice(s1, lo, a, b);
      WithinAgain(s0, lo, routed, a + b);
    }
  }

  /** Nothing outside a slice differs. */
  ghost predicate KeptAround<R>(s: seq<R>, s0: seq<R>, lo: nat, n: nat) {
    |s| == |s0| && forall p :: 0 <= p < |s| && !(lo <= p < lo + n) ==> s[p] == s0[p]
  }

  lemma KeptSelf<R>(s: seq<R>, lo: nat, n: nat)
    ensures KeptAround(s, s, lo, n)
  {
  }

  lemma KeptWithin<R>(s: seq<R>, lo: nat, block: seq<R>)
    requires lo + |block| <= |s|
    ensures KeptAround(Within(s, lo, block), s, lo, |block|)
  {
  }

  lemma KeptWider<R>(s: seq<R>, s0: seq<R>, lo: nat, from: nat, n: nat, whole: nat)
    requires KeptAround(s, s0, lo + from, n) && from + n <= whole
    ensures KeptAround(s, s0, lo, whole)
  {
  }

  lemma KeptChain<R>(s: seq<R>, s1: seq<R>, s0: seq<R>, lo: nat, n: nat)
    requires KeptAround(s, s1, lo, n) && KeptAround(s1, s0, lo, n)
    ensures KeptAround(s, s0, lo, n)
  {
  }

  lemma SingleRead<R>(cs: seq<Control>, plan: seq<PlanNode>, recs: seq<R>, m: nat, position: nat, index: nat)
    requires 0 < m == |recs|
    ensures TryFork(cs, plan, recs, m, 1, position, index) == Some(ForkRead(recs, position, index))
  {
  }

  lemma AllowedNode(node: PlanNode, n: nat, leftN: nat, position: nat, size: nat)
    requires leftN <= n && RouteAllowed(node, n, leftN, position, size)
    ensures RouteAllowed(node, n, leftN, node.offset, size) && node.offset == position
    ensures node.count == TapeLength(n, leftN) && position + node.count <= size
    ensures node.postordered ==> PostOrdered(Mode(true, true), n, leftN)
  {
  }

  lemma WithinSelf<T>(s: seq<T>, lo: nat, n: nat)
    requires lo + n <= |s|
    ensures Within(s, lo, s[lo..lo + n]) == s
  {
  }

  lemma WithinSlices<T>(s: seq<T>, lo: nat, block: seq<T>, cut: nat)
    requires lo + |block| <= |s| && cut <= |block|
    ensures Within(s, lo, block)[lo..lo + cut] == block[..cut]
    ensures Within(s, lo, block)[lo + cut..lo + |block|] == block[cut..]
  {
  }

  lemma WithinAgain<T>(s: seq<T>, lo: nat, a: seq<T>, b: seq<T>)
    requires lo + |a| <= |s| && |a| == |b|
    ensures Within(Within(s, lo, a), lo, b) == Within(s, lo, b)
  {
  }
}
