/** The public read plan of a prepared sampler, its preflight, and the in-place read of a fork subtree. */
module ReadPlan {
  import opened Routing
  import opened Samplers

  datatype Shape = Shape(n: nat, nLeft: nat, nRight: nat)

  /** What the writer records of a fork: where its controls start, how many, their shape and their layout. */
  datatype PlanNode = PlanNode(offset: nat, count: nat, shape: Shape, postordered: bool)

  /** The fork nodes of a tree in the order the writer meets them. */
  function PlanTree(mode: Mode, n: nat, m: nat, k: nat, offset: nat): seq<PlanNode>
    requires 0 < m <= n && 0 < k
    decreases k, 1
  {
    if k == 1 then []
    else if IsFork(mode, n, m, k) then PlanFork(mode, n, m, k, offset)
    else
      PlanEdge(mode, n, m, k / 2, offset)
      + PlanEdge(mode, n, m, k - k / 2, offset + CountEdge(mode, n, m, k / 2).ofr)
  }

  function PlanFork(mode: Mode, n: nat, m: nat, k: nat, offset: nat): (plan: seq<PlanNode>)
    requires 0 < m <= n && IsFork(mode, n, m, k)
    ensures plan != []
    decreases k, 0
  {
    ForkFits(n, m, k);
    var leftN := m * (k / 2);
    var next := offset + TapeLength(n, leftN);
    [ForkNode(mode, n, leftN, offset)]
    + PlanTree(mode, leftN, m, k / 2, next)
    + PlanTree(mode, n - leftN, m, k - k / 2, next + CountTree(mode, leftN, m, k / 2).ofr)
  }

  function ForkNode(mode: Mode, n: nat, leftN: nat, offset: nat): PlanNode
    requires leftN <= n
  {
    PlanNode(offset, TapeLength(n, leftN), Shape(n, leftN, n - leftN), PostOrdered(mode, n, leftN))
  }

  function PlanEdge(mode: Mode, n: nat, m: nat, count: nat, offset: nat): seq<PlanNode>
    requires 0 < m <= n && 0 < count
    decreases count, 2
  {
    CapacityFits(n, m, count);
    if count > 1 then PlanTree(mode, NodeCapacity(n, m, count), m, count, offset) else []
  }

  // ----- preflight -----

  /**
   * What a reader holds: the bytes of the selection bits, the number of fork controls and the plan, empty for raw
   * controls.
   */
  datatype Controls = Controls(swoBytes: nat, ofr: nat, plan: seq<PlanNode>)

  /** How far a reader is: its position on both tapes and the next plan node. */
  datatype Progress = Progress(at: Counts, index: nat)

  /** The byte test of a span that ends at bit end. */
  predicate SpanFits(end: nat, bytes: nat) {
    end / 8 + (if end % 8 != 0 then 1 else 0) <= bytes
  }

  /**
   * A recorded node the preflight accepts: everything but the layout is forced, and postorder needs a balanced node.
   */
  predicate NodeMatches(node: PlanNode, expected: PlanNode) {
    && node.offset == expected.offset && node.count == expected.count && node.shape == expected.shape
    && (node.postordered ==> PostOrdered(Mode(true, true), node.shape.n, node.shape.nLeft))
  }

  /** A recorded fork is stored tape by tape, or in postorder where an equal split of a power of two allows it. */
  lemma MatchingNodes(node: PlanNode, mode: Mode, n: nat, leftN: nat, offset: nat)
    requires leftN <= n
    ensures var plain := PlanNode(offset, TapeLength(n, leftN), Shape(n, leftN, n - leftN), false);
            NodeMatches(node, ForkNode(mode, n, leftN, offset)) <==>
              node == plain || (node == plain.(postordered := true) && HalvesPower(n, leftN))
  {
    hide PostOrdered, TapeLength;
    PostOrderedShape(Mode(true, true), n, leftN);
  }

  /** A span fits its bytes exactly when they have a bit for each of its bits. */
  lemma SpanHasBits(end: nat, bytes: nat)
    ensures SpanFits(end, bytes) <==> end <= 8 * bytes
  {
    assert end == 8 * (end / 8) + end % 8;
  }

  function ValidateTree(c: Controls, forks: bool, n: nat, m: nat, k: nat, p: Progress): Option<Progress>
    requires 0 < m <= n && 0 < k
    decreases k, 1
  {
    if k == 1 then
      if n == m then Some(p) else ValidateBits(c, n, p)
    else if IsFork(Mode(forks, false), n, m, k) then ValidateFork(c, forks, n, m, k, p)
    else
      match ValidateEdge(c, forks, n, m, k / 2, p)
      case Some(q) => ValidateEdge(c, forks, n, m, k - k / 2, q)
      case None => None
  }

  function ValidateBits(c: Controls, n: nat, p: Progress): Option<Progress> {
    if SpanFits(p.at.swo + n, c.swoBytes) then Some(p.(at := Add(p.at, Counts(n, 0)))) else None
  }

  function ValidateFork(c: Controls, forks: bool, n: nat, m: nat, k: nat, p: Progress): Option<Progress>
    requires 0 < m <= n && IsFork(Mode(forks, false), n, m, k)
    decreases k, 0
  {
    ForkFits(n, m, k);
    var leftN := m * (k / 2);
    if !NodeAccepted(c, n, leftN, p) then None
    else
      var q := Progress(Add(p.at, Counts(0, TapeLength(n, leftN))), if c.plan == [] then p.index else p.index + 1);
      match ValidateTree(c, forks, leftN, m, k / 2, q)
      case Some(r) => ValidateTree(c, forks, n - leftN, m, k - k / 2, r)
      case None => None
  }

  /** The checks of one fork node. */
  predicate NodeAccepted(c: Controls, n: nat, leftN: nat, p: Progress)
    requires leftN <= n
  {
    && p.at.ofr + TapeLength(n, leftN) <= c.ofr
    && (c.plan == []
        || (p.index < |c.plan| && NodeMatches(c.plan[p.index], ForkNode(Mode(true, false), n, leftN, p.at.ofr))))
  }

  function ValidateEdge(c: Controls, forks: bool, n: nat, m: nat, count: nat, p: Progress): Option<Progress>
    requires 0 < m <= n && 0 < count
    decreases count, 2
  {
    CapacityFits(n, m, count);
    var cap := NodeCapacity(n, m, count);
    match if cap < n then ValidateBits(c, n, p) else Some(p)
    case Some(q) => if count > 1 then ValidateTree(c, forks, cap, m, count, q) else Some(q)
    case None => None
  }

  // ----- what the preflight accepts -----

  ghost predicate MatchesAt(plan: seq<PlanNode>, index: nat, expected: PlanNode) {
    index < |plan| && NodeMatches(plan[index], expected)
  }

  /** The recorded nodes from index on are the expected ones. */
  ghost predicate PlanMatches(plan: seq<PlanNode>, index: nat, expected: seq<PlanNode>) {
    forall i :: 0 <= i < |expected| ==> MatchesAt(plan, index + i, expected[i])
  }

  /** The tapes and the plan have room for what is counted, and the plan records the expected nodes. */
  ghost predicate Accepts(c: Controls, p: Progress, need: Counts, expected: seq<PlanNode>) {
    && (0 < need.swo ==> SpanFits(p.at.swo + need.swo, c.swoBytes))
    && (0 < need.ofr ==> p.at.ofr + need.ofr <= c.ofr)
    && (c.plan != [] ==> PlanMatches(c.plan, p.index, expected))
  }

  function Advance(c: Controls, p: Progress, need: Counts, expected: seq<PlanNode>): Progress {
    Progress(Add(p.at, need), if c.plan == [] then p.index else p.index + |expected|)
  }

  /** The outcome of a validation that accepts exactly what is counted and expected. */
  ghost predicate Outcome(r: Option<Progress>, c: Controls, p: Progress, need: Counts, expected: seq<PlanNode>) {
    r == if Accepts(c, p, need, expected) then Some(Advance(c, p, need, expected)) else None
  }

  lemma PlanMatchesJoin(plan: seq<PlanNode>, index: nat, a: seq<PlanNode>, b: seq<PlanNode>)
    ensures PlanMatches(plan, index, a + b) <==> PlanMatches(plan, index, a) && PlanMatches(plan, index + |a|, b)
  {
    if PlanMatches(plan, index, a + b) {
      forall i | 0 <= i < |a| ensures MatchesAt(plan, index + i, a[i]) {
        assert (a + b)[i] == a[i];
      }
      forall i | 0 <= i < |b| ensures MatchesAt(plan, index + |a| + i, b[i]) {
        var i' := |a| + i;
        assert (a + b)[i'] == b[i] && MatchesAt(plan, index + i', (a + b)[i']);
      }
    }
    if PlanMatches(plan, index, a) && PlanMatches(plan, index + |a|, b) {
      forall i | 0 <= i < |a + b| ensures MatchesAt(plan, index + i, (a + b)[i]) {
        if i >= |a| {
          var i' := i - |a|;
          assert MatchesAt(plan, index + |a| + i', b[i']);
        }
      }
    }
  }

  /** Validating two parts in turn accepts exactly what the whole needs. */
  lemma AcceptsJoin(c: Controls, p: Progress, x: Counts, y: Counts, a: seq<PlanNode>, b: seq<PlanNode>)
    ensures Accepts(c, p, Add(x, y), a + b) <==> Accepts(c, p, x, a) && Accepts(c, Advance(c, p, x, a), y, b)
    ensures Advance(c, p, Add(x, y), a + b) == Advance(c, Advance(c, p, x, a), y, b)
  {
    PlanMatchesJoin(c.plan, p.index, a, b);
  }

  /** Two outcomes in turn are the outcome of both parts. */
  lemma OutcomeJoin(first: Option<Progress>, second: Option<Progress>, c: Controls, p: Progress, x: Counts, y: Counts,
                    a: seq<PlanNode>, b: seq<PlanNode>)
    requires Outcome(first, c, p, x, a) && Outcome(second, c, Advance(c, p, x, a), y, b)
    ensures Outcome(if first.Some? then second else None, c, p, Add(x, y), a + b)
  {
    hide Accepts;
    AcceptsJoin(c, p, x, y, a, b);
  }

  lemma {:induction false} ValidateTreeExact(c: Controls, mode: Mode, n: nat, m: nat, k: nat, p: Progress)
    requires 0 < m <= n && 0 < k
    ensures Outcome(ValidateTree(c, mode.forks, n, m, k, p), c, p, CountTree(mode, n, m, k),
                    PlanTree(mode, n, m, k, p.at.ofr))
    decreases k, 1
  {
    hide ValidateEdge, ValidateFork, CountEdge, CountFork, PlanEdge, PlanFork, Accepts, NodeCapacity;
    if k == 1 {
      BitsExact(c, n, p);
    } else if IsFork(mode, n, m, k) {
      ValidateForkExact(c, mode, n, m, k, p);
    } else {
      var x, a := CountEdge(mode, n, m, k / 2), PlanEdge(mode, n, m, k / 2, p.at.ofr);
      var q := Advance(c, p, x, a);
      ValidateEdgeExact(c, mode, n, m, k / 2, p);
      ValidateEdgeExact(c, mode, n, m, k - k / 2, q);
      AcceptsJoin(c, p, x, CountEdge(mode, n, m, k - k / 2), a, PlanEdge(mode, n, m, k - k / 2, q.at.ofr));
    }
  }

  lemma BitsExact(c: Controls, n: nat, p: Progress)
    requires 0 < n
    ensures Outcome(Some(p), c, p, Counts(0, 0), [])
    ensures Outcome(ValidateBits(c, n, p), c, p, Counts(n, 0), [])
  {
  }

  lemma {:induction false} ValidateEdgeExact(c: Controls, mode: Mode, n: nat, m: nat, count: nat, p: Progress)
    requires 0 < m <= n && 0 < count
    ensures Outcome(ValidateEdge(c, mode.forks, n, m, count, p), c, p, CountEdge(mode, n, m, count),
                    PlanEdge(mode, n, m, count, p.at.ofr))
    decreases count, 2
  {
    hide ValidateTree, CountTree, PlanTree, Accepts, NodeCapacity;
    CapacityFits(n, m, count);
    var cap, own := NodeCapacity(n, m, count), Counts(EdgeBits(n, m, count), 0);
    BitsExact(c, n, p);
    if count > 1 {
      var q := Advance(c, p, own, []);
      ValidateTreeExact(c, mode, cap, m, count, q);
      AcceptsJoin(c, p, own, CountTree(mode, cap, m, count), [], PlanTree(mode, cap, m, count, p.at.ofr));
      assert [] + PlanTree(mode, cap, m, count, p.at.ofr) == PlanTree(mode, cap, m, count, p.at.ofr);
    }
  }

  lemma {:induction false} ValidateForkExact(c: Controls, mode: Mode, n: nat, m: nat, k: nat, p: Progress)
    requires 0 < m <= n && IsFork(mode, n, m, k)
    ensures Outcome(ValidateFork(c, mode.forks, n, m, k, p), c, p, CountFork(mode, n, m, k),
                    PlanFork(mode, n, m, k, p.at.ofr))
    decreases k, 0
  {
    hide ValidateTree, CountTree, PlanTree, Accepts, NodeAccepted, ForkNode, TapeLength, CountFork, PlanFork;
    ForkFits(n, m, k);
    var leftN := m * (k / 2);
    var own, node := Counts(0, TapeLength(n, leftN)), ForkNode(mode, n, leftN, p.at.ofr);
    var q := Advance(c, p, own, [node]);
    var x, a := CountTree(mode, leftN, m, k / 2), PlanTree(mode, leftN, m, k / 2, q.at.ofr);
    var r := Advance(c, q, x, a);
    var y, b := CountTree(mode, n - leftN, m, k - k / 2), PlanTree(mode, n - leftN, m, k - k / 2, r.at.ofr);
    ValidateTreeExact(c, mode, leftN, m, k / 2, q);
    ValidateTreeExact(c, mode, n - leftN, m, k - k / 2, r);
    ForkParts(mode, n, m, k, p.at.ofr);
    var first, second := ValidateTree(c, mode.forks, leftN, m, k / 2, q),
      ValidateTree(c, mode.forks, n - leftN, m, k - k / 2, r);
    OutcomeJoin(first, second, c, q, x, y, a, b);
    NodeOutcome(c, mode, n, leftN, p);
    OutcomeJoin(if NodeAccepted(c, n, leftN, p) then Some(q) else None, if first.Some? then second else None,
                c, p, own, Add(x, y), [node], a + b);
  }

  lemma ForkParts(mode: Mode, n: nat, m: nat, k: nat, offset: nat)
    requires 0 < m <= n && IsFork(mode, n, m, k)
    ensures m <= m * (k / 2) <= n - m
    ensures var leftN := m * (k / 2);
            var next := offset + TapeLength(n, leftN);
            && CountFork(mode, n, m, k)
               == Add(Counts(0, TapeLength(n, leftN)), Add(CountTree(mode, leftN, m, k / 2),
                                                           CountTree(mode, n - leftN, m, k - k / 2)))
            && PlanFork(mode, n, m, k, offset)
               == [ForkNode(mode, n, leftN, offset)]
                  + (PlanTree(mode, leftN, m, k / 2, next)
                     + PlanTree(mode, n - leftN, m, k - k / 2, next + CountTree(mode, leftN, m, k / 2).ofr))
  {
    hide CountTree, PlanTree, TapeLength, ForkNode;
    ForkFits(n, m, k);
  }

  lemma NodeOutcome(c: Controls, mode: Mode, n: nat, leftN: nat, p: Progress)
    requires 0 < leftN < n
    ensures var own, nodes := Counts(0, TapeLength(n, leftN)), [ForkNode(mode, n, leftN, p.at.ofr)];
            Outcome(if NodeAccepted(c, n, leftN, p) then Some(Advance(c, p, own, nodes)) else None, c, p, own, nodes)
  {
    var expected := [ForkNode(mode, n, leftN, p.at.ofr)];
    TapeLengthUnfold(n, leftN);
    if PlanMatches(c.plan, p.index, expected) {
      assert MatchesAt(c.plan, p.index + 0, expected[0]);
    }
  }

  // ----- the whole preflight -----

  function PlanNodes(mode: Mode, nodes: seq<FrontierNode>, n: nat, m: nat, offset: nat): seq<PlanNode>
    requires 0 < m <= n && forall i :: 0 <= i < |nodes| ==> 0 < nodes[i].count
  {
    if nodes == [] then []
    else
      PlanEdge(mode, n, m, nodes[0].count, offset)
      + PlanNodes(mode, nodes[1..], n, m, offset + CountEdge(mode, n, m, nodes[0].count).ofr)
  }

  /** The plan the writer records. */
  function PlanOf(mode: Mode, frontier: seq<FrontierNode>, n: nat, m: nat, k: nat, offset: nat): seq<PlanNode>
    requires 0 < m <= n && 0 < k && CheckFrontier(frontier, n, m, k)
  {
    if SingleTree(mode, frontier, n, m, k) then PlanTree(mode, n, m, k, offset)
    else CoversBound(frontier, 0, k); PlanNodes(mode, frontier, n, m, offset)
  }

  function ValidateNodes(c: Controls, forks: bool, nodes: seq<FrontierNode>, n: nat, m: nat,
                         p: Progress): Option<Progress>
    requires 0 < m <= n && forall i :: 0 <= i < |nodes| ==> 0 < nodes[i].count
  {
    if nodes == [] then Some(p)
    else
      match ValidateEdge(c, forks, n, m, nodes[0].count, p)
      case Some(q) => ValidateNodes(c, forks, nodes[1..], n, m, q)
      case None => None
  }

  function ValidateReadPlanNode(c: Controls, forks: bool, frontier: seq<FrontierNode>, n: nat, m: nat, k: nat,
                                p: Progress): Option<Progress>
    requires 0 < m <= n && 0 < k && CheckFrontier(frontier, n, m, k)
  {
    if SingleTree(Mode(forks, false), frontier, n, m, k) then ValidateTree(c, forks, n, m, k, p)
    else CoversBound(frontier, 0, k); ValidateNodes(c, forks, frontier, n, m, p)
  }

  lemma {:induction false} ValidateNodesExact(c: Controls, mode: Mode, nodes: seq<FrontierNode>, n: nat, m: nat,
                                              p: Progress)
    requires 0 < m <= n && forall i :: 0 <= i < |nodes| ==> 0 < nodes[i].count
    ensures Outcome(ValidateNodes(c, mode.forks, nodes, n, m, p), c, p, CountNodes(mode, nodes, n, m),
                    PlanNodes(mode, nodes, n, m, p.at.ofr))
    decreases |nodes|
  {
    hide ValidateEdge, CountEdge, PlanEdge, Accepts;
    if nodes == [] {
      BitsExact(c, n, p);
    } else {
      var x, a := CountEdge(mode, n, m, nodes[0].count), PlanEdge(mode, n, m, nodes[0].count, p.at.ofr);
      var q := Advance(c, p, x, a);
      ValidateEdgeExact(c, mode, n, m, nodes[0].count, p);
      ValidateNodesExact(c, mode, nodes[1..], n, m, q);
      AcceptsJoin(c, p, x, CountNodes(mode, nodes[1..], n, m), a, PlanNodes(mode, nodes[1..], n, m, q.at.ofr));
    }
  }

  /**
   * The preflight is exact, from any start position: it succeeds if and only if both tapes have room for what is
   * counted and the plan, where there is one, records the nodes the writer records; it then advances by exactly the
   * counts.
   */
  lemma PreflightExact(c: Controls, mode: Mode, frontier: seq<FrontierNode>, n: nat, m: nat, k: nat, p: Progress)
    requires 0 < m <= n && 0 < k && CheckFrontier(frontier, n, m, k)
    ensures var need, expected := CountNode(mode, frontier, n, m, k), PlanOf(mode, frontier, n, m, k, p.at.ofr);
            ValidateReadPlanNode(c, mode.forks, frontier, n, m, k, p)
            == if Accepts(c, p, need, expected) then Some(Advance(c, p, need, expected)) else None
  {
    hide Accepts, ValidateTree, ValidateNodes, CountTree, CountNodes, PlanTree, PlanNodes;
    CoversBoundOf(frontier, n, m, k);
    if SingleTree(mode, frontier, n, m, k) {
      ValidateTreeExact(c, mode, n, m, k, p);
    } else {
      ValidateNodesExact(c, mode, frontier, n, m, p);
    }
  }

  lemma CoversBoundOf(frontier: seq<FrontierNode>, n: nat, m: nat, k: nat)
    requires CheckFrontier(frontier, n, m, k)
    ensures forall i :: 0 <= i < |frontier| ==> 0 < frontier[i].count
  {
    if frontier != [] {
      CoversBound(frontier, 0, k);
    }
  }

  // ----- the writer's own plan passes -----

  ghost predicate Sound(plan: seq<PlanNode>) {
    forall i :: 0 <= i < |plan| ==> NodeMatches(plan[i], plan[i])
  }

  lemma {:induction false} TreePlanSound(mode: Mode, n: nat, m: nat, k: nat, offset: nat)
    requires 0 < m <= n && 0 < k
    ensures Sound(PlanTree(mode, n, m, k, offset))
    decreases k, 1
  {
    hide PlanEdge, PlanFork, CountEdge, NodeMatches, PostOrdered;
    if 1 < k && IsFork(mode, n, m, k) {
      ForkPlanSound(mode, n, m, k, offset);
    } else if 1 < k {
      EdgePlanSound(mode, n, m, k / 2, offset);
      EdgePlanSound(mode, n, m, k - k / 2, offset + CountEdge(mode, n, m, k / 2).ofr);
    }
  }

  lemma {:induction false} ForkPlanSound(mode: Mode, n: nat, m: nat, k: nat, offset: nat)
    requires 0 < m <= n && IsFork(mode, n, m, k)
    ensures Sound(PlanFork(mode, n, m, k, offset))
    decreases k, 0
  {
    hide PlanTree, CountTree, TapeLength, NodeMatches, PostOrdered;
    ForkFits(n, m, k);
    var leftN := m * (k / 2);
    var next := offset + TapeLength(n, leftN);
    TreePlanSound(mode, leftN, m, k / 2, next);
    TreePlanSound(mode, n - leftN, m, k - k / 2, next + CountTree(mode, leftN, m, k / 2).ofr);
    OwnNode(mode, n, leftN, offset);
  }

  lemma OwnNode(mode: Mode, n: nat, leftN: nat, offset: nat)
    requires leftN <= n
    ensures NodeMatches(ForkNode(mode, n, leftN, offset), ForkNode(mode, n, leftN, offset))
  {
  }

  lemma {:induction false} EdgePlanSound(mode: Mode, n: nat, m: nat, count: nat, offset: nat)
    requires 0 < m <= n && 0 < count
    ensures Sound(PlanEdge(mode, n, m, count, offset))
    decreases count, 2
  {
    hide PlanTree, NodeMatches;
    CapacityFits(n, m, count);
    if count > 1 {
      TreePlanSound(mode, NodeCapacity(n, m, count), m, count, offset);
    }
  }

  lemma {:induction false} NodesPlanSound(mode: Mode, nodes: seq<FrontierNode>, n: nat, m: nat, offset: nat)
    requires 0 < m <= n && forall i :: 0 <= i < |nodes| ==> 0 < nodes[i].count
    ensures Sound(PlanNodes(mode, nodes, n, m, offset))
  {
    hide PlanEdge, CountEdge, NodeMatches;
    if nodes != [] {
      EdgePlanSound(mode, n, m, nodes[0].count, offset);
      NodesPlanSound(mode, nodes[1..], n, m, offset + CountEdge(mode, n, m, nodes[0].count).ofr);
    }
  }

  /** Controls sized by the counts and planned by the writer pass the preflight and are consumed to the end. */
  lemma WrittenPlanAccepted(mode: Mode, frontier: seq<FrontierNode>, n: nat, m: nat, k: nat)
    requires 0 < m <= n && 0 < k && CheckFrontier(frontier, n, m, k)
    ensures var need, plan := CountNode(mode, frontier, n, m, k), PlanOf(mode, frontier, n, m, k, 0);
            var bytes := need.swo / 8 + (if need.swo % 8 != 0 then 1 else 0);
            ValidateReadPlanNode(Controls(bytes, need.ofr, plan), mode.forks, frontier, n, m, k,
                                 Progress(Counts(0, 0), 0))
            == Some(Progress(need, |plan|))
  {
    hide CountNode, PlanTree, PlanNodes, NodeMatches, ValidateReadPlanNode;
    var need, plan := CountNode(mode, frontier, n, m, k), PlanOf(mode, frontier, n, m, k, 0);
    var c := Controls(need.swo / 8 + (if need.swo % 8 != 0 then 1 else 0), need.ofr, plan);
    PreflightExact(c, mode, frontier, n, m, k, Progress(Counts(0, 0), 0));
    CoversBoundOf(frontier, n, m, k);
    if SingleTree(mode, frontier, n, m, k) {
      TreePlanSound(mode, n, m, k, 0);
    } else {
      NodesPlanSound(mode, frontier, n, m, 0);
    }
    assert PlanMatches(plan, 0, plan);
  }
}
