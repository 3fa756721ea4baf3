/** The same network seen stride by stride: at stride 2^d every residue is an independent view. */
module ResidueViews {
  import opened Lanes
  import opened Tags
  import opened Powers
  import opened LayerQuotas
  import opened Routing
  import opened Schedules
  import opened CarryStarts

  /** Tags and controls of a balanced node's own layer; two lanes are a node without children. */
  function LayerTags(ts: seq<Tag>): (r: seq<Tag>)
    ensures |r| == |ts|
  {
    if |ts| == 2 then [LEFT, RIGHT] else NodeTags(ts, |ts| / 2)
  }

  function LayerControls(ts: seq<Tag>): (r: seq<Control>)
    ensures |r| == |ts| / 2
  {
    if |ts| == 2 then [PairControl(ts[0])] else NodeControls(ts, |ts| / 2)
  }

  /** Lanes with their tags and their records. */
  datatype NodeLanes<R> = NodeLanes(ts: seq<Tag>, rs: seq<R>)

  type Node<R> = n: NodeLanes<R> | |n.ts| == |n.rs| witness NodeLanes([], [])

  /** One layer over a node. */
  function Step<R>(n: Node<R>): Node<R> {
    NodeLanes(LayerTags(n.ts), Layer(LayerControls(n.ts), n.rs))
  }

  /** The even or the odd lanes of a node. */
  function Pick<R>(n: Node<R>, odd: bool): Node<R> {
    if odd then NodeLanes(Odds(n.ts), Odds(n.rs)) else NodeLanes(Evens(n.ts), Evens(n.rs))
  }

  /** The node of residue r at stride 2^d, once every wider layer has run. */
  function NodeAt<R>(d: nat, r: nat, n: Node<R>): Node<R> {
    if d == 0 then n
    else
      var half := Pow2(d - 1);
      if r < half then Pick(Step(NodeAt(d - 1, r, n)), false) else Pick(Step(NodeAt(d - 1, r - half, n)), true)
  }

  /** It is also, one depth less, a node of the root's child on the residue's parity. */
  lemma {:induction false} NodeOfChild<R>(d: nat, r: nat, n: Node<R>)
    requires 0 < d && r < Pow2(d)
    ensures r / 2 < Pow2(d - 1)
    ensures NodeAt(d, r, n) == NodeAt(d - 1, r / 2, Pick(Step(n), r % 2 == 1))
  {
    hide Step, Pick;
    if d == 1 {
      assert r < Pow2(0) <==> r == 0;
      assert NodeAt(0, r, n) == n && NodeAt(0, r - r % 2, n) == n;
    } else {
      var half, quarter := Pow2(d - 1), Pow2(d - 2);
      var r' := if r < half then r else r - half;
      NodeOfChild(d - 1, r', n);
      ResidueHalves(r, r', quarter);
    }
  }

  lemma ResidueHalves(r: nat, r': nat, quarter: nat)
    requires r < 4 * quarter && r' == if r < 2 * quarter then r else r - 2 * quarter
    ensures r' % 2 == r % 2 && r' / 2 == (if r < 2 * quarter then r / 2 else r / 2 - quarter)
    ensures r < 2 * quarter <==> r / 2 < quarter
  {
  }

  lemma {:induction false} NodeSize<R>(h: nat, d: nat, r: nat, n: Node<R>)
    requires d <= h && |n.ts| == Pow2(h) && r < Pow2(d)
    ensures |NodeAt(d, r, n).ts| == Pow2(h - d)
  {
    hide Step, NodeAt, Pick, Pow2;
    if d == 0 {
      RootNode(r, n);
    } else {
      Pow2Unfold(d);
      Pow2Unfold(h - (d - 1));
      var r' := if r < Pow2(d - 1) then r else r - Pow2(d - 1);
      NodeSize(h, d - 1, r', n);
      NodeBelow(d, r, r', n, Pow2(h - d));
    }
  }

  lemma RootNode<R>(r: nat, n: Node<R>)
    ensures NodeAt(0, r, n) == n
  {
  }

  lemma NodeBelow<R>(d: nat, r: nat, r': nat, n: Node<R>, size: nat)
    requires 0 < d && r' == (if r < Pow2(d - 1) then r else r - Pow2(d - 1)) && |NodeAt(d - 1, r', n).ts| == 2 * size
    ensures |NodeAt(d, r, n).ts| == size
  {
    hide Step, NodeAt, Pick, Pow2;
    StepSize(NodeAt(d - 1, r', n), r >= Pow2(d - 1));
    NodeAtUnfold(d, r, r', n);
  }

  lemma NodeAtUnfold<R>(d: nat, r: nat, r': nat, n: Node<R>)
    requires 0 < d && r' == if r < Pow2(d - 1) then r else r - Pow2(d - 1)
    ensures NodeAt(d, r, n) == Pick(Step(NodeAt(d - 1, r', n)), r >= Pow2(d - 1))
  {
    hide Pick, Step;
  }

  lemma StepSize<R>(n: Node<R>, odd: bool)
    ensures |n.ts| % 2 == 0 ==> |Pick(Step(n), odd).ts| == |n.ts| / 2
  {
  }

  /** A balanced exact node. */
  ghost predicate BalancedNode(h: nat, ts: seq<Tag>) {
    |ts| == Pow2(h) && (0 < h ==> Exact(ts, Pow2(h) / 2, Pow2(h) / 2))
  }

  /** Both children of a balanced exact node are balanced and exact. */
  lemma BalancedChildren(h: nat, ts: seq<Tag>)
    requires 1 < h && BalancedNode(h, ts)
    ensures BalancedNode(h - 1, Evens(LayerTags(ts))) && BalancedNode(h - 1, Odds(LayerTags(ts)))
  {
    hide Exact, NodeTags, Evens, Odds, Pow2;
    var half := Pow2(h - 1);
    Pow2Unfold(h);
    Pow2Unfold(h - 1);
    NodeSplitsExactly(ts, half);
    NodeLayer(ts, half);
    assert TopLeft(half) == BottomLeft(half) == Pow2(h - 2);
  }

  lemma NodeLayer(ts: seq<Tag>, half: nat)
    requires |ts| == 2 * half && 1 < half
    ensures LayerTags(ts) == NodeTags(ts, half) && |Evens(LayerTags(ts))| == |Odds(LayerTags(ts))| == half
  {
    hide NodeTags;
  }

  /** The tape of one child of a balanced node. */
  function ChildTape(h: nat, ts: seq<Tag>, odd: bool): seq<Control>
    requires 0 < h && |ts| == Pow2(h)
  {
    if odd then Tape(Odds(LayerTags(ts)), Pow2(h - 1) / 2) else Tape(Evens(LayerTags(ts)), Pow2(h - 1) / 2)
  }

  /** The depth-first tape of a balanced node and the replay of it, one layer at a time. */
  lemma BalancedTape(h: nat, ts: seq<Tag>)
    requires 0 < h && |ts| == Pow2(h)
    ensures |Tape(ts, Pow2(h) / 2)| == Gates(h) == TapeLength(Pow2(h), Pow2(h) / 2)
    ensures h == 1 ==> Tape(ts, Pow2(h) / 2) == LayerControls(ts)
    ensures h > 1 ==> Tape(ts, Pow2(h) / 2) == LayerControls(ts) + ChildTape(h, ts, false) + ChildTape(h, ts, true)
  {
    hide NodeTags, NodeControls;
    GatesAreTapeLength(h);
    TapeFits(ts, Pow2(h) / 2);
    if h > 1 {
      assert Pow2(h - 1) == 2 * Pow2(h - 2);
      assert TopLeft(Pow2(h - 1)) == BottomLeft(Pow2(h - 1)) == Pow2(h - 1) / 2;
    }
  }

  /** The tape of a node keeps this control for gate k of residue r at stage d. */
  ghost predicate StageHolds(h: nat, d: nat, k: nat, r: nat, ts: seq<Tag>, c: Control)
    requires |ts| == Pow2(h) && d < h
  {
    var tape := Tape(ts, Pow2(h) / 2);
    |tape| == Gates(h) && GateHolds(h, tape, d, GateIndex(d, k, r), c)
  }

  /** The controls stage d of the network holds for residue r are those of the view's own layer. */
  lemma {:induction false} StageControls<R>(h: nat, d: nat, k: nat, r: nat, n: Node<R>)
    requires d < h && |n.ts| == Pow2(h) && r < Pow2(d) && k < Pow2(h - 1 - d)
    ensures |NodeAt(d, r, n).ts| == 2 * Pow2(h - 1 - d)
    ensures StageHolds(h, d, k, r, n.ts, LayerControls(NodeAt(d, r, n).ts)[k])
    decreases h
  {
    hide NodeAt, LayerControls, LayerTags, StageHolds, Pow2, Pick, Step;
    NodeSize(h, d, r, n);
    Pow2Unfold(h - d);
    if d == 0 {
      RootStage(h, k, r, n);
    } else {
      var child := Pick(Step(n), r % 2 == 1);
      ChildSize(h, n, r % 2 == 1);
      NodeOfChild(d, r, n);
      StageControls(h - 1, d - 1, k, r / 2, child);
      StageOfChild(h, d, k, r, n, LayerControls(NodeAt(d, r, n).ts)[k]);
    }
  }

  lemma ChildSize<R>(h: nat, n: Node<R>, odd: bool)
    requires 0 < h && |n.ts| == Pow2(h)
    ensures |Pick(Step(n), odd).ts| == Pow2(h - 1)
  {
    hide LayerTags, Layer;
  }

  /** The child's stage d - 1 is this node's stage d on the child's lanes. */
  lemma StageOfChild<R>(h: nat, d: nat, k: nat, r: nat, n: Node<R>, c: Control)
    requires 0 < d < h && |n.ts| == Pow2(h) && r < Pow2(d) && k < Pow2(h - 1 - d)
    requires var child := Pick(Step(n), r % 2 == 1);
             |child.ts| == Pow2(h - 1) && StageHolds(h - 1, d - 1, k, r / 2, child.ts, c)
    ensures StageHolds(h, d, k, r, n.ts, c)
  {
    hide Tape, GateHolds, LayerControls, LayerTags, GateIndex, Subtape;
    BalancedTape(h, n.ts);
    ChildTapeSize(h, n.ts);
    SubtapeOfParts(h, LayerControls(n.ts), ChildTape(h, n.ts, false), ChildTape(h, n.ts, true), r % 2 == 1);
    InnerLevel(h, Tape(n.ts, Pow2(h) / 2), d, GateIndex(d - 1, k, r / 2), r % 2 == 1, c);
    HalfIndex(d, k, r);
  }

  lemma RootStage<R>(h: nat, k: nat, r: nat, n: Node<R>)
    requires 0 < h && |n.ts| == Pow2(h) && k < Pow2(h - 1) && r < Pow2(0)
    ensures StageHolds(h, 0, k, r, n.ts, LayerControls(NodeAt(0, r, n).ts)[k])
  {
    hide Tape, LayerTags, LayerControls, ChildTape, Levels, GateIndex, Pow2, Gates;
    RootNode(r, n);
    BalancedTape(h, n.ts);
    Pow2Unfold(h);
    var tape, layer := Tape(n.ts, Pow2(h) / 2), LayerControls(n.ts);
    FirstLevel(h, tape);
    RootIndex(k);
    if h > 1 {
      PrefixOfParts(layer, ChildTape(h, n.ts, false), ChildTape(h, n.ts, true));
    } else {
      assert tape[..Pow2(h - 1)] == tape;
    }
  }

  lemma PrefixOfParts<T>(a: seq<T>, b: seq<T>, c: seq<T>)
    ensures (a + b + c)[..|a|] == a
  {
  }

  lemma ChildTapeSize(h: nat, ts: seq<Tag>)
    requires 1 < h && |ts| == Pow2(h)
    ensures |ChildTape(h, ts, false)| == |ChildTape(h, ts, true)| == Gates(h - 1)
  {
    hide LayerTags;
    BalancedTape(h - 1, Evens(LayerTags(ts)));
    BalancedTape(h - 1, Odds(LayerTags(ts)));
  }

  /** Replaying the node's tape leaves lane r the record of its last view. */
  lemma {:induction false} ReplayIsLastView<R>(h: nat, r: nat, n: Node<R>)
    requires |n.ts| == Pow2(h) && r < Pow2(h)
    ensures |Tape(n.ts, Pow2(h) / 2)| == TapeLength(Pow2(h), Pow2(h) / 2) && |NodeAt(h, r, n).rs| == 1
    ensures Apply(Tape(n.ts, Pow2(h) / 2), n.rs, Pow2(h) / 2)[r] == NodeAt(h, r, n).rs[0]
    decreases h
  {
    hide Tape, TapeLength, Apply, NodeAt, LayerControls, LayerTags, Layer;
    NodeSize(h, h, r, n);
    TapeFits(n.ts, Pow2(h) / 2);
    if h <= 1 {
      SmallReplay(h, r, n);
    } else {
      var child := Pick(Step(n), r % 2 == 1);
      NodeOfChild(h, r, n);
      ReplayIsLastView(h - 1, r / 2, child);
      ReplayOfChild(h, r, n);
    }
  }

  lemma SmallReplay<R>(h: nat, r: nat, n: Node<R>)
    requires h <= 1 && |n.ts| == Pow2(h) && r < Pow2(h) && |NodeAt(h, r, n).rs| == 1
    requires |Tape(n.ts, Pow2(h) / 2)| == TapeLength(Pow2(h), Pow2(h) / 2)
    ensures Apply(Tape(n.ts, Pow2(h) / 2), n.rs, Pow2(h) / 2)[r] == NodeAt(h, r, n).rs[0]
  {
    if h == 1 {
      assert NodeAt(0, 0, n) == n;
      BalancedTape(1, n.ts);
    }
  }

  lemma ReplayOfChild<R>(h: nat, r: nat, n: Node<R>)
    requires 1 < h && |n.ts| == Pow2(h) && r < Pow2(h)
    requires |Tape(n.ts, Pow2(h) / 2)| == TapeLength(Pow2(h), Pow2(h) / 2)
    ensures var child := Pick(Step(n), r % 2 == 1);
            && |child.rs| == Pow2(h - 1)
            && |Tape(child.ts, Pow2(h - 1) / 2)| == TapeLength(Pow2(h - 1), Pow2(h - 1) / 2)
            && Apply(Tape(n.ts, Pow2(h) / 2), n.rs, Pow2(h) / 2)[r]
               == Apply(Tape(child.ts, Pow2(h - 1) / 2), child.rs, Pow2(h - 1) / 2)[r / 2]
  {
    hide Tape, TapeLength, Apply, LayerControls, LayerTags, Layer;
    BalancedTape(h, n.ts);
    ChildTapeSize(h, n.ts);
    GatesAreTapeLength(h - 1);
    DepthFirstNode(h, LayerControls(n.ts), ChildTape(h, n.ts, false), ChildTape(h, n.ts, true), n.rs);
  }

  /** Every view of a balanced exact node is balanced and exact. */
  lemma {:induction false} ViewsExact<R>(h: nat, d: nat, r: nat, n: Node<R>)
    requires d < h && r < Pow2(d) && BalancedNode(h, n.ts)
    ensures BalancedNode(h - d, NodeAt(d, r, n).ts)
  {
    hide Step, Pick, NodeAt, BalancedNode, Pow2;
    if d == 0 {
      RootView(n);
    } else {
      Pow2Unfold(d);
      var half := Pow2(d - 1);
      var r' := if r < half then r else r - half;
      ViewsExact(h, d - 1, r', n);
      ChildExact(h - d + 1, NodeAt(d - 1, r', n), r >= half);
      NodeAtUnfold(d, r, r', n);
    }
  }

  lemma RootView<R>(n: Node<R>)
    ensures NodeAt(0, 0, n) == n && Pow2(0) == 1
  {
  }

  lemma ChildExact<R>(h: nat, n: Node<R>, odd: bool)
    requires 1 < h && BalancedNode(h, n.ts)
    ensures BalancedNode(h - 1, Pick(Step(n), odd).ts)
  {
    hide LayerTags, BalancedNode;
    BalancedChildren(h, n.ts);
  }

  /** A node whose layer has run g of its gates. */
  function Partial<R>(n: Node<R>, g: nat): Node<R>
    requires 2 * g <= |n.ts|
  {
    hide Step;
    StepLengths(n);
    NodeLanes(Step(n).ts[..2 * g] + n.ts[2 * g..], Step(n).rs[..2 * g] + n.rs[2 * g..])
  }

  lemma PartialEnds<R>(n: Node<R>)
    requires |n.ts| % 2 == 0
    ensures Partial(n, 0) == n && Partial(n, |n.ts| / 2) == Step(n)
  {
    hide Step;
    StepLengths(n);
  }

  lemma StepLengths<R>(n: Node<R>)
    ensures |Step(n).ts| == |Step(n).rs| == |n.ts|
  {
  }

  lemma PartialStep<R>(n: Node<R>, g: nat)
    requires 2 * g + 1 < |n.ts|
    ensures |Step(n).ts| == |Step(n).rs| == |n.ts|
    ensures Partial(n, g + 1).ts == Partial(n, g).ts[2 * g := Step(n).ts[2 * g]][2 * g + 1 := Step(n).ts[2 * g + 1]]
    ensures Partial(n, g + 1).rs == Partial(n, g).rs[2 * g := Step(n).rs[2 * g]][2 * g + 1 := Step(n).rs[2 * g + 1]]
  {
    hide Step;
    StepLengths(n);
  }
}
