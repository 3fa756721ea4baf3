/** The flat plan of the in-place sampler FFOS_C_Opt: how it is built and what its validation accepts. */
module OptPlan {
  import opened Samplers

  const FILTERS := Mode(false, false)

  /** A child group of an input of inputBlocks rows: its samples, its bits on the tape and its own two groups. */
  datatype Node = Node(inputBlocks: nat, start: nat, count: nat, offset: nat, left: Option<nat>, right: Option<nat>)

  /** Bits a node and everything below it use. */
  function NodeBits(n: nat, m: nat, count: nat): nat
    requires 0 < m <= n && 0 < count
  {
    CountEdge(FILTERS, n, m, count).swo
  }

  lemma GroupFits(m: nat, count: nat)
    requires 0 < m && 0 < count
    ensures m <= m * count && (count > 1 ==> m * (count / 2) < m * count && m * (count - count / 2) < m * count)
    ensures m * (count / 2) + m * (count - count / 2) == m * count
  {
    assert m * count == m + m * (count - 1);
    assert m * count == m * (count / 2) + m * (count - count / 2);
  }

  /** The nodes of a group, in preorder, when its root has this index and its bits start at offset. */
  function Plan(n: nat, m: nat, start: nat, count: nat, offset: nat, index: nat): (plan: seq<Node>)
    requires 0 < m && 0 < count && m * count <= n
    ensures |plan| == 2 * count - 1
    decreases count
  {
    GroupFits(m, count);
    if count == 1 then [Node(n, start, count, offset, None, None)]
    else
      var left, out := count / 2, m * count;
      var next := offset + EdgeBits(n, m, count);
      [Node(n, start, count, offset, Some(index + 1), Some(index + 2 * left))]
      + Plan(out, m, 0, left, next, index + 1)
      + Plan(out, m, left, count - left, next + NodeBits(out, m, left), index + 2 * left)
  }

  /** Bits of a node: its own, then those of its two groups. */
  lemma NodeBitsSplit(n: nat, m: nat, count: nat)
    requires 0 < m && 0 < count && m * count <= n
    ensures m <= m * count
    ensures count == 1 ==> NodeBits(n, m, count) == EdgeBits(n, m, count)
    ensures count > 1 ==>
              NodeBits(n, m, count)
              == EdgeBits(n, m, count) + NodeBits(m * count, m, count / 2) + NodeBits(m * count, m, count - count / 2)
  {
    GroupFits(m, count);
    CapacityFits(n, m, count);
    assert NodeCapacity(n, m, count) == m * count;
    if count > 1 {
      TreeBits(m * count, m, count);
    }
  }

  lemma TreeBits(n: nat, m: nat, k: nat)
    requires 0 < m <= n && 1 < k
    ensures CountTree(FILTERS, n, m, k).swo == NodeBits(n, m, k / 2) + NodeBits(n, m, k - k / 2)
  {
    hide CountEdge;
  }

  /** The plan under construction. */
  class OptControls {
    const m: nat
    var nodes: seq<Node>

    constructor (m: nat)
      ensures this.m == m && nodes == []
    {
      this.m := m;
      nodes := [];
    }

    /** Appends a group and everything below it; children are linked after they are appended. */
    method AddNode(n: nat, start: nat, count: nat, position: nat) returns (index: nat, next: nat)
      requires 0 < m && 0 < count && m * count <= n
      modifies this`nodes
      ensures m <= n && index == |old(nodes)| && next == position + NodeBits(n, m, count)
      ensures nodes == old(nodes) + Plan(n, m, start, count, position, index)
      decreases count
    {
      hide NodeBits, Plan, EdgeBits;
      GroupFits(m, count);
      NodeBitsSplit(n, m, count);
      PlanUnfold(n, m, start, count, position, |nodes|);
      ghost var before := nodes;
      index := |nodes|;
      nodes := nodes + [Node(n, start, count, position, None, None)];
      var childN := m * count;
      next := position;
      if childN < n {
        next := next + n;
      }
      EdgeBitsOf(n, m, count);
      if count > 1 {
        var leftK := count / 2;
        var left, right;
        left, next := AddNode(childN, 0, leftK, next);
        right, next := AddNode(childN, leftK, count - leftK, next);
        nodes := nodes[index := nodes[index].(left := Some(left))];
        nodes := nodes[index := nodes[index].(right := Some(right))];
      }
    }
  }

  lemma EdgeBitsOf(n: nat, m: nat, count: nat)
    requires m * count <= n
    ensures EdgeBits(n, m, count) == if m * count < n then n else 0
  {
  }

  lemma PlanUnfold(n: nat, m: nat, start: nat, count: nat, offset: nat, index: nat)
    requires 0 < m && 0 < count && m * count <= n
    ensures m <= m * count && (count > 1 ==> m * (count / 2) < m * count && m * (count - count / 2) < m * count)
    ensures count == 1 ==> Plan(n, m, start, count, offset, index) == [Node(n, start, count, offset, None, None)]
    ensures var left, out := count / 2, m * count;
            var next := offset + EdgeBits(n, m, count);
            count > 1 ==>
              Plan(n, m, start, count, offset, index)
              == [Node(n, start, count, offset, Some(index + 1), Some(index + 2 * left))]
                 + Plan(out, m, 0, left, next, index + 1)
                 + Plan(out, m, left, count - left, next + NodeBits(out, m, left), index + 2 * left)
  {
    hide NodeBits, EdgeBits;
    GroupFits(m, count);
  }

  // ----- validation -----

  /** The canonical walk over a recorded plan: the next node and the bit position after it, or a rejection. */
  function ValidateNode(nodes: seq<Node>, m: nat, id: Option<nat>, n: nat, start: nat, count: nat, next: nat,
                        position: nat): Option<(nat, nat)>
    requires 0 < m && 0 < count
    decreases count
  {
    if id != Some(next) || |nodes| <= next then None
    else
      var node := nodes[next];
      if node.inputBlocks != n || node.start != start || node.count != count || node.offset != position then None
      else if n < m * count then None
      else
        var position' := position + if m * count < n then n else 0;
        if count == 1 then
          if node.left != None || node.right != None then None else Some((next + 1, position'))
        else
          match ValidateNode(nodes, m, node.left, m * count, 0, count / 2, next + 1, position')
          case None => None
          case Some(p) => ValidateNode(nodes, m, node.right, m * count, count / 2, count - count / 2, p.0, p.1)
  }

  /** The plan records these nodes from index on. */
  ghost predicate Records(nodes: seq<Node>, index: nat, plan: seq<Node>) {
    index + |plan| <= |nodes| && nodes[index..index + |plan|] == plan
  }

  lemma RecordsJoin(nodes: seq<Node>, index: nat, a: seq<Node>, b: seq<Node>)
    ensures Records(nodes, index, a + b) <==> Records(nodes, index, a) && Records(nodes, index + |a|, b)
  {
    if index + |a + b| <= |nodes| {
      var whole := nodes[index..index + |a + b|];
      assert whole[..|a|] == nodes[index..index + |a|] && whole[|a|..] == nodes[index + |a|..index + |a| + |b|];
      assert whole == whole[..|a|] + whole[|a|..] && (a + b)[..|a|] == a && (a + b)[|a|..] == b;
    }
  }

  lemma RecordsOne(nodes: seq<Node>, index: nat, node: Node)
    ensures Records(nodes, index, [node]) <==> index < |nodes| && nodes[index] == node
  {
    if index < |nodes| {
      assert nodes[index..index + 1] == [nodes[index]];
    }
  }

  /** Validation accepts a group if and only if it is recorded exactly as it would be built at this place. */
  lemma {:induction false} ValidateNodeExact(nodes: seq<Node>, m: nat, n: nat, start: nat, count: nat, next: nat,
                                             position: nat)
    requires 0 < m && 0 < count && m * count <= n
    ensures m <= n
    ensures ValidateNode(nodes, m, Some(next), n, start, count, next, position)
         == if Records(nodes, next, Plan(n, m, start, count, position, next))
            then Some((next + (2 * count - 1), position + NodeBits(n, m, count))) else None
    decreases count
  {
    hide NodeBits, Plan, EdgeBits, Records;
    GroupFits(m, count);
    NodeBitsSplit(n, m, count);
    PlanUnfold(n, m, start, count, position, next);
    EdgeBitsOf(n, m, count);
    if count == 1 {
      RecordsOne(nodes, next, Node(n, start, count, position, None, None));
    } else {
      var leftK, out := count / 2, m * count;
      var p := position + EdgeBits(n, m, count);
      var root := Node(n, start, count, position, Some(next + 1), Some(next + 2 * leftK));
      var left := Plan(out, m, 0, leftK, p, next + 1);
      var p' := p + NodeBits(out, m, leftK);
      var right := Plan(out, m, leftK, count - leftK, p', next + 2 * leftK);
      ValidateNodeExact(nodes, m, out, 0, leftK, next + 1, p);
      ValidateNodeExact(nodes, m, out, leftK, count - leftK, next + 2 * leftK, p');
      RecordsOne(nodes, next, root);
      RecordsJoin(nodes, next, [root], left);
      RecordsJoin(nodes, next, [root] + left, right);
    }
  }

  // ----- whole plans -----

  datatype Walk = Walk(next: nat, position: nat, samples: nat)

  /** The checks of the root loop: every root is the next node, and the roots cover the samples. */
  function ValidateRoots(nodes: seq<Node>, roots: seq<nat>, n: nat, m: nat, k: nat, w: Walk): Option<Walk>
    requires 0 < m && w.samples <= k
  {
    if roots == [] then Some(w)
    else if |nodes| <= roots[0] then None
    else
      var count := nodes[roots[0]].count;
      if count == 0 || k - w.samples < count then None
      else
        match ValidateNode(nodes, m, Some(roots[0]), n, w.samples, count, w.next, w.position)
        case None => None
        case Some(p) => ValidateRoots(nodes, roots[1..], n, m, k, Walk(p.0, p.1, w.samples + count))
  }

  /** A plan and its tape of bitCount bits in bytes bytes are accepted for n, m and k. */
  predicate Validate(nodes: seq<Node>, roots: seq<nat>, bitCount: nat, bytes: nat, n: nat, m: nat, k: nat) {
    && 0 < m <= n && 0 < k && roots != []
    && var r := ValidateRoots(nodes, roots, n, m, k, Walk(0, 0, 0));
       && r == Some(Walk(|nodes|, bitCount, k))
       && bytes == bitCount / 8 + (if bitCount % 8 != 0 then 1 else 0)
  }

  /** The groups the roots serve. */
  function FrontierOf(nodes: seq<Node>, roots: seq<nat>, start: nat): (frontier: seq<FrontierNode>)
    ensures |frontier| == |roots|
  {
    if roots == [] then []
    else
      var count := if roots[0] < |nodes| then nodes[roots[0]].count else 0;
      [FrontierNode(start, count)] + FrontierOf(nodes, roots[1..], start + count)
  }

  function FrontierBits(frontier: seq<FrontierNode>, n: nat, m: nat): nat
    requires 0 < m <= n && forall i :: 0 <= i < |frontier| ==> 0 < frontier[i].count
  {
    if frontier == [] then 0 else NodeBits(n, m, frontier[0].count) + FrontierBits(frontier[1..], n, m)
  }

  /** Every root is recorded as the canonical plan of its group, their bits one after the other. */
  ghost predicate RootsRecorded(nodes: seq<Node>, roots: seq<nat>, frontier: seq<FrontierNode>, n: nat, m: nat,
                                offset: nat)
    requires 0 < m <= n && |roots| == |frontier|
  {
    roots == []
    || (var g := frontier[0];
        && 0 < g.count && m * g.count <= n
        && Records(nodes, roots[0], Plan(n, m, g.start, g.count, offset, roots[0]))
        && RootsRecorded(nodes, roots[1..], frontier[1..], n, m, offset + NodeBits(n, m, g.count)))
  }

  lemma RejectLarge(nodes: seq<Node>, m: nat, id: Option<nat>, n: nat, start: nat, count: nat, next: nat, position: nat)
    requires 0 < m && 0 < count && n < m * count
    ensures ValidateNode(nodes, m, id, n, start, count, next, position) == None
  {
  }

  /** Nodes in the plan of a group of count samples. */
  function GroupNodes(count: nat): nat {
    if count == 0 then 0 else 2 * count - 1
  }

  function PlanSize(frontier: seq<FrontierNode>): nat {
    if frontier == [] then 0 else GroupNodes(frontier[0].count) + PlanSize(frontier[1..])
  }

  /** The roots follow each other without gaps. */
  predicate Consecutive(roots: seq<nat>, frontier: seq<FrontierNode>, next: nat)
    requires |roots| == |frontier|
  {
    roots == [] || (roots[0] == next && Consecutive(roots[1..], frontier[1..], next + GroupNodes(frontier[0].count)))
  }

  /** An accepted plan records the canonical nodes of a cover of the samples, and its bits are all used. */
  lemma {:induction false} AcceptedRoots(nodes: seq<Node>, roots: seq<nat>, n: nat, m: nat, k: nat, w: Walk)
    requires 0 < m <= n && w.samples <= k
    requires ValidateRoots(nodes, roots, n, m, k, w).Some? && ValidateRoots(nodes, roots, n, m, k, w).value.samples == k
    ensures var frontier := FrontierOf(nodes, roots, w.samples);
            && Covers(frontier, w.samples, k) && RootsRecorded(nodes, roots, frontier, n, m, w.position)
            && (forall i :: 0 <= i < |frontier| ==> 0 < frontier[i].count && m * frontier[i].count <= n)
            && Consecutive(roots, frontier, w.next)
            && ValidateRoots(nodes, roots, n, m, k, w).value
               == Walk(w.next + PlanSize(frontier), w.position + FrontierBits(frontier, n, m), k)
            && (roots != [] ==> roots[0] < |nodes|)
    decreases |roots|
  {
    hide ValidateNode, Plan, Records, NodeBits;
    if roots != [] {
      var count := nodes[roots[0]].count;
      if n < m * count {
        RejectLarge(nodes, m, Some(roots[0]), n, w.samples, count, w.next, w.position);
      }
      IdIsNext(nodes, m, roots[0], n, w.samples, count, w.next, w.position);
      ValidateNodeExact(nodes, m, n, w.samples, count, w.next, w.position);
      var p := ValidateNode(nodes, m, Some(roots[0]), n, w.samples, count, w.next, w.position).value;
      AcceptedRoots(nodes, roots[1..], n, m, k, Walk(p.0, p.1, w.samples + count));
      var frontier := FrontierOf(nodes, roots, w.samples);
      assert frontier[1..] == FrontierOf(nodes, roots[1..], w.samples + count);
    }
  }

  lemma IdIsNext(nodes: seq<Node>, m: nat, id: nat, n: nat, start: nat, count: nat, next: nat, position: nat)
    requires 0 < m && 0 < count && ValidateNode(nodes, m, Some(id), n, start, count, next, position).Some?
    ensures id == next
  {
  }

  /** The canonical plan of a cover is accepted. */
  lemma {:induction false} CanonicalRoots(nodes: seq<Node>, roots: seq<nat>, frontier: seq<FrontierNode>, n: nat,
                                          m: nat, k: nat, w: Walk)
    requires 0 < m <= n && w.samples <= k && |roots| == |frontier| && Covers(frontier, w.samples, k)
    requires RootsRecorded(nodes, roots, frontier, n, m, w.position) && Consecutive(roots, frontier, w.next)
    ensures forall i :: 0 <= i < |frontier| ==> 0 < frontier[i].count
    ensures FrontierOf(nodes, roots, w.samples) == frontier
    ensures ValidateRoots(nodes, roots, n, m, k, w)
         == Some(Walk(w.next + PlanSize(frontier), w.position + FrontierBits(frontier, n, m), k))
    decreases |roots|
  {
    hide ValidateNode, Plan, NodeBits;
    CoversBound(frontier, w.samples, k);
    if roots != [] {
      var g := frontier[0];
      PlanRoot(n, m, g.start, g.count, w.position, roots[0]);
      assert nodes[roots[0]] == nodes[roots[0]..roots[0] + (2 * g.count - 1)][0];
      ValidateNodeExact(nodes, m, n, g.start, g.count, w.next, w.position);
      CanonicalRoots(nodes, roots[1..], frontier[1..], n, m, k,
                     Walk(w.next + GroupNodes(g.count), w.position + NodeBits(n, m, g.count), w.samples + g.count));
    }
  }

  /**
   * Controls are accepted exactly when their roots cover the samples one after the other, each with its canonical plan,
   * no node is left over, and the bits of the plan fill the tape up to its last byte.
   */
  lemma ValidateExact(nodes: seq<Node>, roots: seq<nat>, bitCount: nat, bytes: nat, n: nat, m: nat, k: nat)
    ensures Validate(nodes, roots, bitCount, bytes, n, m, k) <==>
              && 0 < m <= n && 0 < k && roots != []
              && var frontier := FrontierOf(nodes, roots, 0);
                 && Covers(frontier, 0, k) && Consecutive(roots, frontier, 0) && |nodes| == PlanSize(frontier)
                 && RootsRecorded(nodes, roots, frontier, n, m, 0)
                 && (forall i :: 0 <= i < |frontier| ==> 0 < frontier[i].count)
                 && bitCount == FrontierBits(frontier, n, m) && bitCount <= 8 * bytes < bitCount + 8
  {
    hide ValidateRoots, FrontierOf, Covers, Consecutive, PlanSize, RootsRecorded, FrontierBits;
    WholeBytes(bitCount, bytes);
    if 0 < m <= n && 0 < k && roots != [] {
      var frontier := FrontierOf(nodes, roots, 0);
      if ValidateRoots(nodes, roots, n, m, k, Walk(0, 0, 0)) == Some(Walk(|nodes|, bitCount, k)) {
        AcceptedRoots(nodes, roots, n, m, k, Walk(0, 0, 0));
      }
      if Covers(frontier, 0, k) && Consecutive(roots, frontier, 0) && RootsRecorded(nodes, roots, frontier, n, m, 0) {
        CanonicalRoots(nodes, roots, frontier, n, m, k, Walk(0, 0, 0));
      }
    }
  }

  lemma WholeBytes(bits: nat, bytes: nat)
    ensures bytes == bits / 8 + (if bits % 8 != 0 then 1 else 0) <==> bits <= 8 * bytes < bits + 8
  {
    assert bits == 8 * (bits / 8) + bits % 8;
  }

  /** Recorded nodes stay recorded when more are appended. */
  lemma {:induction false} RecordedStay(nodes: seq<Node>, more: seq<Node>, roots: seq<nat>, frontier: seq<FrontierNode>,
                                        n: nat, m: nat, offset: nat)
    requires 0 < m <= n && |roots| == |frontier| && RootsRecorded(nodes, roots, frontier, n, m, offset)
    ensures RootsRecorded(nodes + more, roots, frontier, n, m, offset)
    decreases |roots|
  {
    hide Plan, NodeBits;
    if roots != [] {
      var g := frontier[0];
      var plan := Plan(n, m, g.start, g.count, offset, roots[0]);
      assert (nodes + more)[roots[0]..roots[0] + |plan|] == nodes[roots[0]..roots[0] + |plan|];
      RecordedStay(nodes, more, roots[1..], frontier[1..], n, m, offset + NodeBits(n, m, g.count));
    }
  }

  /** One more root. */
  lemma {:induction false} RecordedSnoc(nodes: seq<Node>, roots: seq<nat>, frontier: seq<FrontierNode>, root: nat,
                                        g: FrontierNode, n: nat, m: nat, offset: nat, next: nat)
    requires 0 < m <= n && |roots| == |frontier| && RootsRecorded(nodes, roots, frontier, n, m, offset)
    requires Consecutive(roots, frontier, next) && root == next + PlanSize(frontier)
    requires 0 < g.count && m * g.count <= n && (forall i :: 0 <= i < |frontier| ==> 0 < frontier[i].count)
    requires Records(nodes, root, Plan(n, m, g.start, g.count, offset + FrontierBits(frontier, n, m), root))
    ensures RootsRecorded(nodes, roots + [root], frontier + [g], n, m, offset)
    ensures Consecutive(roots + [root], frontier + [g], next)
    ensures PlanSize(frontier + [g]) == PlanSize(frontier) + GroupNodes(g.count)
    ensures FrontierBits(frontier + [g], n, m) == FrontierBits(frontier, n, m) + NodeBits(n, m, g.count)
    decreases |roots|
  {
    hide Plan, NodeBits, Records;
    var roots', frontier' := roots + [root], frontier + [g];
    if roots == [] {
      assert roots'[1..] == [] && frontier'[1..] == [];
    } else {
      var f := frontier[0];
      RecordedSnoc(nodes, roots[1..], frontier[1..], root, g, n, m, offset + NodeBits(n, m, f.count), next
                   + GroupNodes(f.count));
      assert roots'[1..] == roots[1..] + [root] && frontier'[1..] == frontier[1..] + [g];
    }
  }

  lemma NoneRecorded(nodes: seq<Node>, n: nat, m: nat)
    requires 0 < m <= n
    ensures RootsRecorded(nodes, [], [], n, m, 0) && Consecutive([], [], 0)
    ensures PlanSize([]) == 0 && FrontierBits([], n, m) == 0
  {
  }

  /** Builds the plan of a cover, root after root: the plan is the one validation accepts, and its size is public. */
  method BuildPlan(controls: OptControls, frontier: seq<FrontierNode>, n: nat, k: nat)
      returns (roots: seq<nat>, position: nat)
    requires controls.nodes == [] && 0 < controls.m <= n && 0 < k && frontier != [] && Covers(frontier, 0, k)
    requires forall i :: 0 <= i < |frontier| ==> controls.m * frontier[i].count <= n
    modifies controls`nodes
    ensures var bytes := position / 8 + (if position % 8 != 0 then 1 else 0);
            Validate(controls.nodes, roots, position, bytes, n, controls.m, k)
    ensures FrontierOf(controls.nodes, roots, 0) == frontier
    ensures |controls.nodes| + |roots| == 2 * k
    ensures (forall i :: 0 <= i < |frontier| ==> 0 < frontier[i].count)
            && position == CountNodes(FILTERS, frontier, n, controls.m).swo
  {
    hide Plan, NodeBits, RootsRecorded, Consecutive, FrontierBits, PlanSize, FrontierOf, Covers, CountNodes,
         ValidateRoots;
    CoversBound(frontier, 0, k);
    roots, position := [], 0;
    NoneRecorded(controls.nodes, n, controls.m);
    for i := 0 to |frontier|
      invariant |roots| == i && RootsRecorded(controls.nodes, roots, frontier[..i], n, controls.m, 0)
      invariant Consecutive(roots, frontier[..i], 0) && |controls.nodes| == PlanSize(frontier[..i])
      invariant position == FrontierBits(frontier[..i], n, controls.m)
    {
      var g := frontier[i];
      ghost var before := controls.nodes;
      var root;
      root, position := controls.AddNode(n, g.start, g.count, position);
      ghost var plan := Plan(n, controls.m, g.start, g.count, FrontierBits(frontier[..i], n, controls.m), root);
      assert controls.nodes[root..root + |plan|] == plan;
      RecordedStay(before, plan, roots, frontier[..i], n, controls.m, 0);
      RecordedSnoc(controls.nodes, roots, frontier[..i], root, g, n, controls.m, 0, 0);
      roots := roots + [root];
      assert frontier[..i + 1] == frontier[..i] + [g];
    }
    assert frontier[..|frontier|] == frontier;
    CanonicalRoots(controls.nodes, roots, frontier, n, controls.m, k, Walk(0, 0, 0));
    SizeOfCover(frontier, 0, k);
    FrontierBitsAreCounted(frontier, n, controls.m);
  }

  /** A cover of k samples by g groups has 2k - g nodes. */
  lemma {:induction false} SizeOfCover(frontier: seq<FrontierNode>, start: nat, k: nat)
    requires start <= k && Covers(frontier, start, k)
    ensures PlanSize(frontier) + |frontier| == 2 * (k - start)
  {
    if frontier != [] {
      CoversBound(frontier[1..], start + frontier[0].count, k);
      SizeOfCover(frontier[1..], start + frontier[0].count, k);
    }
  }

  lemma PlanRoot(n: nat, m: nat, start: nat, count: nat, offset: nat, index: nat)
    requires 0 < m && 0 < count && m * count <= n
    ensures Plan(n, m, start, count, offset, index)[0].count == count
  {
  }

  /** The bits a plan assigns are the bits FFOS_C counts. */
  lemma {:induction false} FrontierBitsAreCounted(frontier: seq<FrontierNode>, n: nat, m: nat)
    requires 0 < m <= n && forall i :: 0 <= i < |frontier| ==> 0 < frontier[i].count
    ensures FrontierBits(frontier, n, m) == CountNodes(FILTERS, frontier, n, m).swo
  {
    hide CountEdge;
    if frontier != [] {
      FrontierBitsAreCounted(frontier[1..], n, m);
    }
  }
}
