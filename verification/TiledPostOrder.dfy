/** The direct postorder generator: tiles of residues, one stride at a time, with rows routed alongside. */
module TiledPostOrder {
  import opened Products
  import opened Lanes
  import opened Powers
  import opened Tags
  import opened TagBits
  import opened LayerQuotas
  import opened Routing
  import opened PackedTape
  import opened Strided
  import opened Network
  import opened Schedules
  import opened PostOrder
  import opened CarryStarts
  import opened ResidueViews
  import opened LaneCounters
  import opened ResidueGates
  import opened QuadPostOrder

  /** The residues of one tile, all untouched by the current stride. */
  ghost predicate FreshTile<R>(tags: seq<bv8>, rows: seq<R>, h: nat, d: nat, residue: nat, nds: seq<Node<R>>) {
    && Owned(tags)
    && forall r :: 0 <= r < |nds| ==> ResidueAt(tags, rows, h, d, residue + r, nds[r], 0) && |nds[r].ts| == Pow2(h - d)
  }

  ghost predicate CountedTile<R>(states: seq<ResidueBalanceState>, nds: seq<Node<R>>, from: nat, to: nat, g: nat) {
    to <= |states| && to <= |nds| && forall r :: from <= r < to ==> CountedTo(states[r], nds[r].ts, g)
  }

  lemma GateLanes(stride: nat, residue: nat, gate: nat, r: nat)
    ensures 2 * gate * stride + residue + r == Lane(residue + r, stride, 2 * gate)
    ensures 2 * gate * stride + residue + stride + r == Lane(residue + r, stride, 2 * gate + 1)
  {
  }

  /** One gate of the counting scan, across the tile. */
  method CountRow<R>(tags: array<bv8>, ghost rows: seq<R>, states: array<ResidueBalanceState>,
                     ghost h: nat, ghost d: nat, stride: nat, residue: nat, gate: nat, ghost nds: seq<Node<R>>,
                     tile: nat, c: Counter)
    requires d < h && stride == Pow2(d) && 2 * gate + 1 < Pow2(h - d) && tile == |nds| <= states.Length
    requires c.CanCount(Pow2(h - d))
    requires FreshTile(tags[..], rows, h, d, residue, nds)
    requires CountedTile(states[..], nds, 0, tile, gate)
    requires states as object != tags as object
    modifies states
    ensures CountedTile(states[..], nds, 0, tile, gate + 1)
  {
    hide ResidueAt, CountedTo, ClassifyPairBits, Lane;
    var first := 2 * gate * stride + residue;
    for r := 0 to tile
      invariant CountedTile(states[..], nds, 0, r, gate + 1) && CountedTile(states[..], nds, r, tile, gate)
    {
      GateLanes(stride, residue, gate, r);
      ResiduePair(tags[..], rows, h, d, residue + r, nds[r], 0, gate);
      var st := CountPair(c, tags[first + r], tags[first + stride + r], states[r], nds[r].ts, gate);
      states[r] := st;
    }
  }

  /** The counting scan and the quotas of a tile. */
  method CountTile<R>(tags: array<bv8>, ghost rows: seq<R>, states: array<ResidueBalanceState>,
                      ghost h: nat, ghost d: nat, stride: nat, length: nat, residue: nat, ghost nds: seq<Node<R>>,
                      tile: nat, c: Counter)
    requires d < h && stride == Pow2(d) && length == Pow2(h - d) && length % 4 == 0 && tile == |nds| <= states.Length
    requires FreshTile(tags[..], rows, h, d, residue, nds)
    requires forall r :: 0 <= r < tile ==> Exact(nds[r].ts, length / 2, length / 2)
    requires states as object != tags as object && c.CanCount(length)
    modifies states
    ensures forall r :: 0 <= r < tile ==> RankedTo(states[r], nds[r].ts, 0)
  {
    hide ResidueAt, CountedTo, RankedTo, Exact, Pow2, CountedTile, FreshTile;
    ClearTile(states, nds, tile);
    for gate := 0 to length / 2
      invariant CountedTile(states[..], nds, 0, tile, gate)
    {
      CountRow(tags, rows, states, h, d, stride, residue, gate, nds, tile, c);
    }
    FreshSizes(tags[..], rows, h, d, residue, nds);
    SetQuotas(states, nds, tile, length, c);
  }

  lemma FreshSizes<R>(tags: seq<bv8>, rows: seq<R>, h: nat, d: nat, residue: nat, nds: seq<Node<R>>)
    requires FreshTile(tags, rows, h, d, residue, nds)
    ensures forall r :: 0 <= r < |nds| ==> |nds[r].ts| == Pow2(h - d)
  {
  }

  method ClearTile<R>(states: array<ResidueBalanceState>, ghost nds: seq<Node<R>>, tile: nat)
    requires tile == |nds| <= states.Length
    modifies states
    ensures CountedTile(states[..], nds, 0, tile, 0)
  {
    hide CountedTo;
    var zero := ResidueBalanceState(0, 0, 0, 0, 0, 0, 0, 0, 0);
    for r := 0 to tile
      invariant forall j :: 0 <= j < r ==> states[j] == zero
    {
      states[r] := zero;
    }
    forall j | 0 <= j < tile ensures CountedTo(states[..][j], nds[j].ts, 0) {
      CountedStart(nds[j].ts);
    }
  }

  /** The quotas of every residue of the tile, in the naturals. */
  method SetQuotas<R>(states: array<ResidueBalanceState>, ghost nds: seq<Node<R>>, tile: nat, length: nat, c: Counter)
    requires c.CanCount(length) && tile == |nds| <= states.Length && 0 < length && length % 4 == 0
    requires forall r :: 0 <= r < tile ==> |nds[r].ts| == length && Exact(nds[r].ts, length / 2, length / 2)
    requires CountedTile(states[..], nds, 0, tile, length / 2)
    modifies states
    ensures forall r :: 0 <= r < tile ==> RankedTo(states[r], nds[r].ts, 0)
  {
    hide CountedTo, RankedTo, Exact;
    for r := 0 to tile
      invariant forall j :: 0 <= j < r ==> RankedTo(states[j], nds[j].ts, 0)
      invariant forall j :: r <= j < tile ==> CountedTo(states[j], nds[j].ts, length / 2)
    {
      var st := WithQuotas(c, length, states[r], nds[r].ts);
      states[r] := st;
    }
  }

  ghost predicate RankedTile<R>(states: seq<ResidueBalanceState>, d: nat, residue: nat, n0: Node<R>, from: nat, to: nat,
                                g: nat) {
    to <= |states| && forall r :: from <= r < to ==> RankedTo(states[r], NodeAt(d, residue + r, n0).ts, g)
  }

  /** One gate of the generation, across the tile. */
  method RankRow<R>(tags: array<bv8>, rows: array<R>, controls: PackedControls, states: array<ResidueBalanceState>,
                    ghost h: nat, ghost d: nat, stride: nat, length: nat, residue: nat, tile: nat, gate: nat,
                    ghost gates: nat, layerStart: nat, c: Counter, ghost n0: Node<R>)
    requires tags as object != rows as object && states as object != tags as object
             && states as object != rows as object
    requires controls.Valid() && tile <= states.Length
    requires d < h && stride == Pow2(d) && residue + tile <= stride && gate < gates == Pow2(h - 1 - d)
    requires Reached(tags[..], rows[..], controls.Controls(), h, d, Progress(stride, residue, tile, 0, gate, gates), n0)
    requires layerStart == LayerStart(d, gate) && length == Pow2(h - d) && c.CanCount(length)
    requires length != 2 ==> RankedTile(states[..], d, residue, n0, 0, tile, gate)
    modifies tags, rows, controls`bytes, states
    ensures controls.Valid()
    ensures Reached(tags[..], rows[..], controls.Controls(), h, d, Progress(stride, residue, tile, 0, gate + 1, gates),
                    n0)
    ensures length != 2 ==> RankedTile(states[..], d, residue, n0, 0, tile, gate + 1)
  {
    hide Reached, RankedTo, NodeAt, Progress, LayerStart, Pow2, Lane;
    var first := 2 * gate * stride + residue;
    for r := 0 to tile
      invariant controls.Valid()
      invariant Reached(tags[..], rows[..], controls.Controls(), h, d, Progress(stride, residue, tile, r, gate, gates),
                        n0)
      invariant length != 2 ==> RankedTile(states[..], d, residue, n0, 0, r, gate + 1)
      invariant length != 2 ==> RankedTile(states[..], d, residue, n0, r, tile, gate)
    {
      ProgressSteps(stride, residue, tile, r, gate, gates);
      GateLanes(stride, residue, gate, r);
      var st := RankGateOf(tags, rows, controls, h, d, stride, length, residue + r, first + r, gate, layerStart, c,
                           states[r], Progress(stride, residue, tile, r, gate, gates), n0);
      states[r] := st;
    }
    ProgressSteps(stride, residue, tile, tile, gate, gates);
  }

  /** The generation of a tile: the start of each gate row follows from the carry bits of its index. */
  method RankTile<R>(tags: array<bv8>, rows: array<R>, controls: PackedControls, states: array<ResidueBalanceState>,
                     ghost h: nat, d: nat, stride: nat, length: nat, residue: nat, tile: nat, c: Counter,
                     ghost n0: Node<R>)
    requires tags as object != rows as object && states as object != tags as object
             && states as object != rows as object
    requires controls.Valid() && tile <= states.Length
    requires d < h && stride == Pow2(d) && length == Pow2(h - d) && residue + tile <= stride && c.CanCount(length)
    requires Reached(tags[..], rows[..], controls.Controls(), h, d, Progress(stride, residue, 0, 0, 0, length / 2), n0)
    requires length != 2 ==> RankedTile(states[..], d, residue, n0, 0, tile, 0)
    modifies tags, rows, controls`bytes, states
    ensures controls.Valid()
    ensures Reached(tags[..], rows[..], controls.Controls(), h, d, Progress(stride, residue
            + tile, 0, 0, 0, length / 2), n0)
  {
    hide Reached, RankedTile, Progress, LayerStart, Ctz;
    var gateCount := length / 2;
    ProgressEnds(stride, residue, tile, gateCount);
    var layerStart := stride * d;
    FirstStart(d);
    for gate := 0 to gateCount
      invariant controls.Valid()
      invariant gate < gateCount ==> layerStart == LayerStart(d, gate)
      invariant Reached(tags[..], rows[..], controls.Controls(), h, d,
                        Progress(stride, residue, tile, 0, gate, gateCount), n0)
      invariant length != 2 ==> RankedTile(states[..], d, residue, n0, 0, tile, gate)
    {
      RankRow(tags, rows, controls, states, h, d, stride, length, residue, tile, gate, gateCount, layerStart, c, n0);
      if gate + 1 < gateCount {
        var carry := Ctz(gate + 1);
        NextStart(d, gate);
        layerStart := layerStart + stride * (d + 1 + 2 * Pow2(carry) - 2);
      }
    }
  }

  /** One stride: every tile of residues in turn. */
  method GenerateStride<R>(tags: array<bv8>, rows: array<R>, controls: PackedControls,
                           states: array<ResidueBalanceState>, ghost h: nat, d: nat, stride: nat, length: nat,
                           tile: nat, ghost tiles: nat, c: Counter, ghost n0: Node<R>)
    requires tags as object != rows as object && states as object != tags as object
             && states as object != rows as object
    requires controls.Valid() && 0 < tile <= states.Length && stride == tiles * tile
    requires d < h && stride == Pow2(d) && length == Pow2(h - d) && c.CanCount(length) && BalancedNode(h, n0.ts)
    requires Reached(tags[..], rows[..], controls.Controls(), h, d, Progress(stride, 0, 0, 0, 0, length / 2), n0)
    modifies tags, rows, controls`bytes, states
    ensures controls.Valid()
    ensures Reached(tags[..], rows[..], controls.Controls(), h, d, Progress(stride, stride, 0, 0, 0, length / 2), n0)
  {
    hide Reached, RankedTo, Progress, BalancedNode, NodeAt, Exact, FreshTile;
    var residue := 0;
    ghost var left := tiles;
    while residue < stride
      invariant 0 <= residue <= stride && stride - residue == left * tile
      invariant controls.Valid()
      invariant Reached(tags[..], rows[..], controls.Controls(), h, d, Progress(stride, residue, 0, 0, 0, length / 2),
                        n0)
    {
      NextTile(left, tile);
      if length > 2 {
        ghost var nds := TileNodes(d, residue, tile, n0);
        TileIsFresh(tags[..], rows[..], controls.Controls(), h, d, stride, length, residue, nds, n0);
        CountTile(tags, rows[..], states, h, d, stride, length, residue, nds, tile, c);
      }
      RankTile(tags, rows, controls, states, h, d, stride, length, residue, tile, c, n0);
      residue := residue + tile;
      left := left - 1;
    }
  }

  lemma NextTile(left: nat, tile: nat)
    requires 0 < left * tile
    ensures 0 < left && left * tile == (left - 1) * tile + tile
  {
  }

  lemma TileNodes<R>(d: nat, residue: nat, tile: nat, n0: Node<R>) returns (nds: seq<Node<R>>)
    ensures |nds| == tile && forall r :: 0 <= r < tile ==> nds[r] == NodeAt(d, residue + r, n0)
  {
    hide NodeAt;
    nds := [];
    for r := 0 to tile
      invariant |nds| == r && forall j :: 0 <= j < r ==> nds[j] == NodeAt(d, residue + j, n0)
    {
      nds := nds + [NodeAt(d, residue + r, n0)];
    }
  }

  /** The next tile is untouched, and its views are balanced and exact. */
  lemma TileIsFresh<R>(tags: seq<bv8>, rows: seq<R>, cs: seq<Control>, h: nat, d: nat, stride: nat, length: nat,
                       residue: nat,
                       nds: seq<Node<R>>, n0: Node<R>)
    requires d < h && stride == Pow2(d) && length == Pow2(h - d) && 2 < length && BalancedNode(h, n0.ts)
    requires Reached(tags, rows, cs, h, d, Progress(stride, residue, 0, 0, 0, length / 2), n0)
    requires residue + |nds| <= stride && forall r :: 0 <= r < |nds| ==> nds[r] == NodeAt(d, residue + r, n0)
    ensures length % 4 == 0 && FreshTile(tags, rows, h, d, residue, nds)
    ensures forall r :: 0 <= r < |nds| ==> Exact(nds[r].ts, length / 2, length / 2)
  {
    hide Reached, NodeAt, Exact, ResidueAt;
    assert length == 2 * Pow2(h - d - 1) && Pow2(h - d - 1) == 2 * Pow2(h - d - 2);
    var progress := Progress(stride, residue, 0, 0, 0, length / 2);
    OwnedTags(tags, rows, cs, h, d, progress, n0);
    forall r | 0 <= r < |nds|
      ensures ResidueAt(tags, rows, h, d, residue + r, nds[r], 0) && |nds[r].ts| == Pow2(h - d)
      ensures Exact(nds[r].ts, length / 2, length / 2)
    {
      ReachedResidue(tags, rows, cs, h, d, progress, n0, residue + r);
      ViewsExact(h, d, residue + r, n0);
    }
  }

  /** All strides below 2^d are done: every residue shows its node, and the tape holds their gates. */
  ghost predicate StridesDone<R>(tags: seq<bv8>, rows: seq<R>, cs: seq<Control>, h: nat, d: nat, n0: Node<R>) {
    && d <= h && |n0.ts| == |tags| == |rows| == Pow2(h) && |cs| == Gates(h) && Owned(tags)
    && (forall q :: 0 <= q < Pow2(d) ==> StartsStride(tags, rows, h, d, q, n0))
    && (forall d': nat, k: nat, r: nat :: IsGate(h, d', k, r) && d' < d ==> TapeHolds(cs, d', k, r, n0))
  }

  ghost predicate StartsStride<R>(tags: seq<bv8>, rows: seq<R>, h: nat, d: nat, q: nat, n0: Node<R>) {
    ResidueAt(tags, rows, h, d, q, NodeAt(d, q, n0), 0)
  }

  lemma BeginStride<R>(tags: seq<bv8>, rows: seq<R>, cs: seq<Control>, h: nat, d: nat, n0: Node<R>)
    requires StridesDone(tags, rows, cs, h, d, n0) && d < h
    ensures Reached(tags, rows, cs, h, d, Progress(Pow2(d), 0, 0, 0, 0, Pow2(h - d) / 2), n0)
  {
    hide ResidueAt, NodeAt, TapeHolds;
    forall q | 0 <= q < Pow2(d) ensures ResidueAt(tags, rows, h, d, q, NodeAt(d, q, n0), 0) {
      assert StartsStride(tags, rows, h, d, q, n0);
    }
  }

  /** A finished stride is the boundary of the next: each node's layer splits into its two children. */
  lemma EndStride<R>(tags: seq<bv8>, rows: seq<R>, cs: seq<Control>, h: nat, d: nat, n0: Node<R>)
    requires d < h && Reached(tags, rows, cs, h, d, Progress(Pow2(d), Pow2(d), 0, 0, 0, Pow2(h - d) / 2), n0)
    ensures StridesDone(tags, rows, cs, h, d + 1, n0)
  {
    hide ResidueAt, NodeAt, TapeHolds, Step;
    assert Pow2(h - d) == 2 * Pow2(h - 1 - d);
    var progress := Progress(Pow2(d), Pow2(d), 0, 0, 0, Pow2(h - d) / 2);
    var next := d + 1;
    forall q | 0 <= q < Pow2(next)
      ensures StartsStride(tags, rows, h, next, q, n0)
    {
      var q' := if q < Pow2(d) then q else q - Pow2(d);
      ReachedResidue(tags, rows, cs, h, d, progress, n0, q');
      SplitResidue(tags, rows, h, d, q', NodeAt(d, q', n0), q >= Pow2(d));
      NodeAtUnfold(d + 1, q, q', n0);
    }
    forall d': nat, k: nat, r: nat | IsGate(h, d', k, r) && d' < d + 1
      ensures TapeHolds(cs, d', k, r, n0)
    {
      if d' == d {
        assert progress[r] == Pow2(h - 1 - d);
      }
    }
  }

  lemma SplitResidue<R>(tags: seq<bv8>, rows: seq<R>, h: nat, d: nat, q: nat, nd: Node<R>, odd: bool)
    requires d < h && |nd.ts| == Pow2(h - d) && ResidueAt(tags, rows, h, d, q, nd, |nd.ts| / 2)
    ensures ResidueAt(tags, rows, h, d + 1, if odd then q + Pow2(d) else q, Pick(Step(nd), odd), 0)
  {
    hide Step, Partial, TagView, View, Evens, Odds;
    var n := Pow2(h - d);
    assert n == 2 * Pow2(h - d - 1);
    PartialEnds(nd);
    PickPartial(Step(nd), odd);
    SplitTagView(tags, q, Pow2(d), n);
    SplitView(rows, q, Pow2(d), n);
  }

  lemma PickPartial<R>(n: Node<R>, odd: bool)
    ensures Partial(Pick(n, odd), 0) == Pick(n, odd)
  {
    hide Step;
    StepLengths(Pick(n, odd));
    var m := Pick(n, odd);
    assert Step(m).ts[..2 * 0] + m.ts[2 * 0..] == m.ts && Step(m).rs[..2 * 0] + m.rs[2 * 0..] == m.rs;
  }

  /** The labels end up sorted. */
  lemma {:induction false} LastTag<R>(h: nat, r: nat, n: Node<R>)
    requires 0 < h && BalancedNode(h, n.ts) && r < Pow2(h)
    ensures NodeAt(h, r, n).ts == [Sorted(Pow2(h), Pow2(h) / 2)[r]]
  {
    hide NodeAt, LayerTags, BalancedNode, Layer, LayerControls, Sorted, Pow2, Step, Pick;
    if h == 1 {
      Pow2Unfold(1);
      PairTag(r, n);
    } else {
      ChildBalanced(h, n, r % 2 == 1);
      NodeOfChild(h, r, n);
      LastTag(h - 1, r / 2, Pick(Step(n), r % 2 == 1));
      SortedChild(h, r);
    }
  }

  lemma ChildBalanced<R>(h: nat, n: Node<R>, odd: bool)
    requires 1 < h && BalancedNode(h, n.ts)
    ensures BalancedNode(h - 1, Pick(Step(n), odd).ts)
  {
    hide BalancedNode, Layer, LayerControls, LayerTags;
    BalancedChildren(h, n.ts);
  }

  /** The sorted labels of a node are those of its children, interleaved. */
  lemma SortedChild(h: nat, r: nat)
    requires 1 < h && r < Pow2(h)
    ensures r / 2 < Pow2(h - 1) && Sorted(Pow2(h), Pow2(h) / 2)[r] == Sorted(Pow2(h - 1), Pow2(h - 1) / 2)[r / 2]
  {
    hide Pow2;
    Pow2Unfold(h);
    Pow2Unfold(h - 1);
  }

  lemma PairTag<R>(r: nat, n: Node<R>)
    requires |n.ts| == 2 || BalancedNode(1, n.ts)
    requires r < 2
    ensures NodeAt(1, r, n).ts == [Sorted(2, 1)[r]]
  {
    assert NodeAt(0, 0, n) == n;
  }

  /** The largest power of two of residues whose working set fits the budget. */
  method ResidueTileSize(wordsPerRow: nat, counterBytes: nat) returns (tile: nat, ghost e: nat)
    requires 0 < counterBytes
    ensures tile == Pow2(e) && tile <= 256
  {
    var budget := 24 * 1024;
    tile, e := 1, 0;
    if wordsPerRow > budget / (2 * 8) {
      return;
    }
    var bytes := 9 * counterBytes + 2 + 2 * wordsPerRow * 8;
    var limit := if budget / bytes < 256 then budget / bytes else 256;
    while tile <= limit / 2
      invariant tile == Pow2(e) && tile <= 256
      decreases 256 - tile
    {
      tile := tile * 2;
      e := e + 1;
    }
  }

  /** The widest tile whose counters fill the lanes of a vector, or else a tile of words. */
  method MaxTile(wordsPerRow: nat, length: nat, n: nat) returns (tile: nat, ghost e: nat)
    ensures tile == Pow2(e) && tile <= 256
  {
    var laneWidth := if length <= 256 then 16 else if length <= 65536 then 8 else if n <= INT32_MAX then 4 else 1;
    var counterBytes := if laneWidth == 16 then 1 else if laneWidth == 8 then 2 else if laneWidth == 4 then 4 else 8;
    tile, e := ResidueTileSize(wordsPerRow, counterBytes);
    if tile < laneWidth {
      tile, e := ResidueTileSize(wordsPerRow, 8);
    }
  }

  /** The counters of a tile: bytes, 16-bit or 32-bit lanes when the tile fills them, words otherwise. */
  function CounterOf(length: nat, n: nat, tile: nat): (c: Counter)
    ensures 0 < length <= n ==> c.CanCount(length)
  {
    if length <= 256 && tile >= 16 then Narrow(256)
    else if length <= 65536 && tile >= 8 then Narrow(65536)
    else if n <= INT32_MAX && tile >= 4 then Narrow(0x1_0000_0000)
    else Wide
  }

  lemma LengthBelow(h: nat, d: nat)
    requires d <= h
    ensures 0 < Pow2(h - d) <= Pow2(h)
  {
    if d > 0 {
      Pow2Order(h - d, h);
    }
  }

  /** A view of at least eight lanes is a whole number of quads of gates. */
  lemma LengthOfEights(h: nat, d: nat)
    requires d <= h
    ensures Pow2(h - d) <= Pow2(h) && (Pow2(h - d) >= 8 ==> Pow2(h - d) % 8 == 0)
  {
    hide Pow2;
    LengthBelow(h, d);
    var e := h - d;
    Pow2Unfold(e);
    if e >= 1 {
      Pow2Unfold(e - 1);
    }
    if e >= 2 {
      Pow2Unfold(e - 2);
    }
  }

  /**
   * The direct generator, in all its branches: whatever tile the working-set budget yields, whichever counters count it
   * and whether short strides rank gate by gate or four gates at a time, it writes exactly the postorder conversion of
   * the depth-first tape, routes the rows as replaying that tape would, and leaves the labels sorted.
   */
  method OFRControlPostOrderTiledImpl<R>(tags: array<bv8>, rows: array<R>, controls: PackedControls, wordsPerRow: nat,
                                         n: nat, ghost h: nat)
    requires 0 < h && n == Pow2(h) == tags.Length == rows.Length
    requires tags as object != rows as object
    requires controls.Valid() && controls.count == Gates(h)
    requires Owned(tags[..]) && Exact(TagsOf(tags[..]), n / 2, n / 2)
    modifies tags, rows, controls`bytes
    ensures controls.Valid()
    ensures |Tape(TagsOf(old(tags[..])), n / 2)| == Gates(h) == TapeLength(n, n / 2)
    ensures controls.Controls() == PostOrderControls(h, Tape(TagsOf(old(tags[..])), n / 2))
    ensures rows[..] == Apply(Tape(TagsOf(old(tags[..])), n / 2), old(rows[..]), n / 2)
    ensures TagsOf(tags[..]) == Sorted(n, n / 2)
  {
    hide NodeAt, Exact, Reached, StridesDone, Progress, Tape, Apply, TapeLength, PostOrderControls, Owned, Sorted,
         Gates;
    ghost var n0: Node<R> := NodeLanes(TagsOf(tags[..]), rows[..]);
    var states := new ResidueBalanceState[256](_ => ResidueBalanceState(0, 0, 0, 0, 0, 0, 0, 0, 0));
    StartBoundary(tags[..], rows[..], controls.Controls(), h, n0);
    var depth: nat, stride := 0, 1;
    while stride < n
      invariant depth <= h && stride == Pow2(depth)
      invariant controls.Valid() && controls.count == Gates(h)
      invariant StridesDone(tags[..], rows[..], controls.Controls(), h, depth, n0)
      decreases h - depth
    {
      PowerBelow(depth, h);
      var length := n / stride;
      StrideLength(h, depth);
      BeginStride(tags[..], rows[..], controls.Controls(), h, depth, n0);
      if stride <= 4 && length >= 8 && n <= INT32_MAX {
        LengthOfEights(h, depth);
        GenerateQuads(tags, rows, controls, h, depth, stride, length, n0);
      } else {
        var maxTile, e := MaxTile(wordsPerRow, length, n);
        var tile := if stride < maxTile then stride else maxTile;
        ghost var tiles := TileCount(depth, e);
        LengthBelow(h, depth);
        GenerateStride(tags, rows, controls, states, h, depth, stride, length, tile, tiles,
                       CounterOf(length, n, tile), n0);
      }
      EndStride(tags[..], rows[..], controls.Controls(), h, depth, n0);
      stride := stride * 2;
      depth := depth + 1;
    }
    PowerBelow(depth, h);
    BalancedTape(h, n0.ts);
    FinalTape(tags[..], rows[..], controls.Controls(), h, n0);
    FinalLanes(tags[..], rows[..], controls.Controls(), h, n0);
  }

  lemma StartBoundary<R>(tags: seq<bv8>, rows: seq<R>, cs: seq<Control>, h: nat, n0: Node<R>)
    requires 0 < h && |tags| == |rows| == Pow2(h) && |cs| == Gates(h) && Owned(tags)
    requires n0 == NodeLanes(TagsOf(tags), rows)
    ensures StridesDone(tags, rows, cs, h, 0, n0)
  {
    hide Step, Partial, NodeAt, View, InRange, StartsStride, TapeHolds, Gates;
    NothingRun(n0);
    WholeView(tags);
    WholeView(rows);
    RootResidue(tags, rows, h, n0);
    forall q | 0 <= q < Pow2(0) ensures StartsStride(tags, rows, h, 0, q, n0) {
      assert q == 0;
    }
  }

  lemma RootResidue<R>(tags: seq<bv8>, rows: seq<R>, h: nat, n0: Node<R>)
    requires |tags| == |rows| == Pow2(h) && n0 == NodeLanes(TagsOf(tags), rows)
    requires NodeAt(0, 0, n0) == n0 && Partial(n0, 0) == n0
    requires InRange(|tags|, 0, 1, |tags|) && View(tags, 0, 1, |tags|) == tags && View(rows, 0, 1, |rows|) == rows
    ensures StartsStride(tags, rows, h, 0, 0, n0)
  {
    hide Step, Partial, NodeAt, View, InRange;
    assert Pow2(0) == 1 && h - 0 == h;
  }

  lemma NothingRun<R>(n: Node<R>)
    ensures Partial(n, 0) == n && NodeAt(0, 0, n) == n
  {
    hide Step;
    assert Step(n).ts[..2 * 0] + n.ts[2 * 0..] == n.ts && Step(n).rs[..2 * 0] + n.rs[2 * 0..] == n.rs;
  }

  lemma PowerBelow(d: nat, h: nat)
    ensures d <= h ==> (Pow2(d) < Pow2(h) <==> d < h)
  {
    if d < h {
      Pow2Order(d, h);
    }
  }

  lemma StrideLength(h: nat, d: nat)
    requires d <= h
    ensures Pow2(h) / Pow2(d) == Pow2(h - d)
  {
    Pow2Sum(h - d, d);
    Quotient(Pow2(h - d), 0, Pow2(d));
  }

  /** A stride is a whole number of tiles. */
  lemma TileCount(d: nat, e: nat) returns (tiles: nat)
    ensures Pow2(d) == tiles * (if Pow2(d) < Pow2(e) then Pow2(d) else Pow2(e))
  {
    if d <= e {
      PowerBelow(d, e);
      tiles := 1;
    } else {
      Pow2Sum(d - e, e);
      Pow2Order(e, d);
      tiles := Pow2(d - e);
    }
  }

  lemma FinalTape<R>(tags: seq<bv8>, rows: seq<R>, cs: seq<Control>, h: nat, n0: Node<R>)
    requires 0 < h && StridesDone(tags, rows, cs, h, h, n0)
    requires |Tape(n0.ts, Pow2(h) / 2)| == Gates(h)
    ensures cs == PostOrderControls(h, Tape(n0.ts, Pow2(h) / 2))
  {
    hide Tape, NodeAt, LayerControls, Levels, PostTape, Position, GateIndex, StartsStride;
    var ls := Levels(h, Tape(n0.ts, Pow2(h) / 2));
    forall d: nat, k: nat, r: nat | IsGate(h, d, k, r) ensures Holds(h, ls, cs, d, k, r) {
      assert TapeHolds(cs, d, k, r, n0);
      StageControls(h, d, k, r, n0);
    }
    FilledTape(h, ls, cs);
  }

  lemma FinalLanes<R>(tags: seq<bv8>, rows: seq<R>, cs: seq<Control>, h: nat, n0: Node<R>)
    requires 0 < h && StridesDone(tags, rows, cs, h, h, n0) && BalancedNode(h, n0.ts)
    requires |Tape(n0.ts, Pow2(h) / 2)| == TapeLength(Pow2(h), Pow2(h) / 2)
    ensures rows == Apply(Tape(n0.ts, Pow2(h) / 2), n0.rs, Pow2(h) / 2)
    ensures TagsOf(tags) == Sorted(Pow2(h), Pow2(h) / 2)
  {
    hide Tape, TapeLength, Apply, NodeAt, Step, TapeHolds, BalancedNode;
    var out := Apply(Tape(n0.ts, Pow2(h) / 2), n0.rs, Pow2(h) / 2);
    forall r | 0 <= r < Pow2(h)
      ensures rows[r] == out[r] && TagOf(tags[r]) == Sorted(Pow2(h), Pow2(h) / 2)[r]
    {
      var nd := NodeAt(h, r, n0);
      ReplayIsLastView(h, r, n0);
      LastTag(h, r, n0);
      assert StartsStride(tags, rows, h, h, r, n0);
      SingleLane(tags, rows, h, r, nd);
    }
  }

  lemma SingleLane<R>(tags: seq<bv8>, rows: seq<R>, h: nat, r: nat, nd: Node<R>)
    requires ResidueAt(tags, rows, h, h, r, nd, 0) && |nd.ts| == 1 && r < |tags|
    ensures rows[r] == nd.rs[0] && TagOf(tags[r]) == nd.ts[0]
  {
    hide Step;
    StepLengths(nd);
    assert Lane(r, Pow2(h), 0) == r;
    assert TagView(tags, r, Pow2(h), 1)[0] == TagOf(tags[r]) && View(rows, r, Pow2(h), 1)[0] == rows[r];
  }
}
