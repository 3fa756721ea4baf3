/** The gates of a stride: the buffers, the tape and the counters of every residue, one gate at a time. */
module ResidueGates {
  import opened Lanes
  import opened Powers
  import opened Tags
  import opened TagBits
  import opened LayerQuotas
  import opened Routing
  import opened PackedTape
  import opened Strided
  import opened Network
  import opened Replay
  import opened Schedules
  import opened CarryStarts
  import opened ResidueViews
  import opened LaneCounters

  /** Which third of the tape a gate's position is in. */
  lemma PositionPart(h: nat, d: nat, k: nat, r: nat)
    requires IsGate(h, d, k, r)
    ensures Position(d, k, r) < Gates(h)
    ensures d == h - 1 <==> 2 * Gates(h - 1) <= Position(d, k, r)
    ensures d < h - 1 ==> (k < Pow2(h - 2 - d) <==> Position(d, k, r) < Gates(h - 1))
    ensures d < h - 1 && k >= Pow2(h - 2 - d) ==>
              IsGate(h - 1, d, k - Pow2(h - 2 - d), r) && Position(d, k, r) == Gates(h - 1)
                + Position(d, k - Pow2(h - 2 - d), r)
    ensures d == h - 1 ==> Position(d, k, r) == 2 * Gates(h - 1) + r
  {
    PositionInRange(h, d, k, r);
    if d == h - 1 {
      TwiceGates(d);
    } else if k < Pow2(h - 2 - d) {
      PositionInRange(h - 1, d, k, r);
    } else {
      PositionInRange(h - 1, d, k - Pow2(h - 2 - d), r);
      ShiftStart(d, h - 2 - d, k - Pow2(h - 2 - d));
    }
  }

  lemma PositionInRange(h: nat, d: nat, k: nat, r: nat)
    requires IsGate(h, d, k, r)
    ensures Position(d, k, r) < Gates(h)
  {
    var ls := seq(h, _ => Repeat(Control(false, false), Pow2(h - 1)));
    PostTapeAt(h, ls, d, k, r);
  }

  /** No two gates share a position of the tape. */
  lemma {:induction false} PositionsDiffer(h: nat, d: nat, k: nat, r: nat, d': nat, k': nat, r': nat)
    requires IsGate(h, d, k, r) && IsGate(h, d', k', r') && Position(d, k, r) == Position(d', k', r')
    ensures d == d' && k == k' && r == r'
    decreases h
  {
    PositionPart(h, d, k, r);
    PositionPart(h, d', k', r');
    if d < h - 1 {
      if k < Pow2(h - 2 - d) {
        PositionsDiffer(h - 1, d, k, r, d', k', r');
      } else {
        PositionsDiffer(h - 1, d, k - Pow2(h - 2 - d), r, d', k' - Pow2(h - 2 - d'), r');
      }
    }
  }

  /** Residue q of the buffers shows node nd with g of its gates run. */
  ghost predicate At<R>(tags: seq<bv8>, rows: seq<R>, h: nat, d: nat, q: nat, nd: Node<R>, g: nat)
    requires d <= h && InRange(|tags|, q, Pow2(d), Pow2(h - d)) && |rows| == |tags|
  {
    && 2 * g <= |nd.ts|
    && TagView(tags, q, Pow2(d), Pow2(h - d)) == Partial(nd, g).ts
    && View(rows, q, Pow2(d), Pow2(h - d)) == Partial(nd, g).rs
  }

  /** Lanes of different residues never coincide. */
  lemma ResiduesDisjoint(d: nat, q: nat, i: nat, q': nat, j: nat)
    requires q < Pow2(d) && q' < Pow2(d) && q != q'
    ensures Lane(q, Pow2(d), i) != Lane(q', Pow2(d), j)
  {
    var s := Pow2(d);
    if i < j { LaneOrder(0, s, i, j); MulOrder(s, j - i); assert j * s == i * s + (j - i) * s; }
    if j < i { MulOrder(s, i - j); assert i * s == j * s + (i - j) * s; }
  }

  /**
   * The buffers while depth d is being processed: progress[q] gates of residue q have run, all of the wider strides.
   */
  ghost predicate Reached<R>(tags: seq<bv8>, rows: seq<R>, cs: seq<Control>, h: nat, d: nat, progress: seq<nat>,
                             n0: Node<R>) {
    && d < h && |n0.ts| == |tags| == |rows| == Pow2(h) && |cs| == Gates(h) && |progress| == Pow2(d) && Owned(tags)
    && (forall q :: 0 <= q < Pow2(d) ==> ResidueAt(tags, rows, h, d, q, NodeAt(d, q, n0), progress[q]))
    && TapeReached(cs, h, d, progress, n0)
  }

  ghost predicate ResidueAt<R>(tags: seq<bv8>, rows: seq<R>, h: nat, d: nat, q: nat, nd: Node<R>, g: nat) {
    && d <= h && |rows| == |tags| && InRange(|tags|, q, Pow2(d), Pow2(h - d)) && At(tags, rows, h, d, q, nd, g)
  }

  /** The tape already holds the control of every gate that has run. */
  ghost predicate TapeReached<R>(cs: seq<Control>, h: nat, d: nat, progress: seq<nat>, n0: Node<R>)
    requires d < h && |progress| == Pow2(d)
  {
    forall d': nat, k: nat, r: nat :: IsGate(h, d', k, r) && (d' < d || (d' == d && k < progress[r])) ==>
      TapeHolds(cs, d', k, r, n0)
  }

  ghost predicate TapeHolds<R>(cs: seq<Control>, d: nat, k: nat, r: nat, n0: Node<R>) {
    && Position(d, k, r) < |cs| && k < |LayerControls(NodeAt(d, r, n0).ts)|
    && cs[Position(d, k, r)] == LayerControls(NodeAt(d, r, n0).ts)[k]
  }

  /** Two lanes of one residue rewritten: that residue is one gate further, the others are untouched. */
  lemma ResidueStep<R>(tags: seq<bv8>, rows: seq<R>, h: nat, d: nat, q: nat, nd: Node<R>, g: nat, top: bv8, bottom: bv8,
                       a: R, b: R)
    requires ResidueAt(tags, rows, h, d, q, nd, g) && Owned(tags) && top < 4 && bottom < 4
    requires 2 * g + 1 < |nd.ts| && |nd.ts| == Pow2(h - d)
    requires |Step(nd).ts| == |Step(nd).rs| == |nd.ts|
    requires TagOf(top) == Step(nd).ts[2 * g] && TagOf(bottom) == Step(nd).ts[2 * g + 1]
    requires a == Step(nd).rs[2 * g] && b == Step(nd).rs[2 * g + 1]
    ensures var f, s := Lane(q, Pow2(d), 2 * g), Lane(q, Pow2(d), 2 * g + 1);
            && f < s < |tags|
            && Owned(tags[f := top][s := bottom])
            && ResidueAt(tags[f := top][s := bottom], rows[f := a][s := b], h, d, q, nd, g + 1)
  {
    hide Step;
    var stride, n := Pow2(d), Pow2(h - d);
    LaneOrder(q, stride, 2 * g, 2 * g + 1);
    LaneInRange(|tags|, q, stride, n, 2 * g + 1);
    WritePair(tags, q, stride, n, g, top, bottom);
    WriteLane(rows, q, stride, n, 2 * g, a);
    WriteLane(rows[Lane(q, stride, 2 * g) := a], q, stride, n, 2 * g + 1, b);
    PartialStep(nd, g);
  }

  /** A residue whose lanes are the same in other buffers. */
  lemma SameResidue<R>(tags: seq<bv8>, rows: seq<R>, tags': seq<bv8>, rows': seq<R>, h: nat, d: nat, q: nat,
                       nd: Node<R>, g: nat)
    requires ResidueAt(tags, rows, h, d, q, nd, g) && |tags'| == |tags| && |rows'| == |rows|
    requires View(tags', q, Pow2(d), Pow2(h - d)) == View(tags, q, Pow2(d), Pow2(h - d))
    requires View(rows', q, Pow2(d), Pow2(h - d)) == View(rows, q, Pow2(d), Pow2(h - d))
    ensures ResidueAt(tags', rows', h, d, q, nd, g)
  {
    hide Pow2, Lane, View, Partial, TagsOf, Step;
  }

  lemma InResidue<R>(tags: seq<bv8>, rows: seq<R>, h: nat, d: nat, q: nat, nd: Node<R>, g: nat)
    requires ResidueAt(tags, rows, h, d, q, nd, g)
    ensures d <= h && |rows| == |tags| && InRange(|tags|, q, Pow2(d), Pow2(h - d))
  {
    hide Pow2, Lane, View, Partial, TagsOf, Step;
  }

  /** Writing two lanes of one residue leaves the view of another. */
  lemma OtherView<T>(s: seq<T>, d: nat, n: nat, q: nat, i: nat, j: nat, q': nat, x: T, y: T)
    requires q != q' && q < Pow2(d) && q' < Pow2(d) && InRange(|s|, q', Pow2(d), n)
    requires Lane(q, Pow2(d), i) < |s| && Lane(q, Pow2(d), j) < |s|
    ensures View(s[Lane(q, Pow2(d), i) := x][Lane(q, Pow2(d), j) := y], q', Pow2(d), n) == View(s, q', Pow2(d), n)
  {
    hide Pow2, Lane;
    var s' := s[Lane(q, Pow2(d), i) := x][Lane(q, Pow2(d), j) := y];
    forall l | 0 <= l < n ensures View(s', q', Pow2(d), n)[l] == View(s, q', Pow2(d), n)[l] {
      ResiduesDisjoint(d, q, i, q', l);
      ResiduesDisjoint(d, q, j, q', l);
    }
  }

  /** Writing one gate's control keeps every control already written. */
  lemma TapeStep<R>(cs: seq<Control>, h: nat, d: nat, progress: seq<nat>, n0: Node<R>, q: nat, control: Control)
    requires d < h && |progress| == Pow2(d) && |cs| == Gates(h) && q < Pow2(d) && IsGate(h, d, progress[q], q)
    requires TapeReached(cs, h, d, progress, n0)
    requires var layer := LayerControls(NodeAt(d, q, n0).ts); progress[q] < |layer| && control == layer[progress[q]]
    ensures Position(d, progress[q], q) < |cs|
    ensures TapeReached(cs[Position(d, progress[q], q) := control], h, d, progress[q := progress[q] + 1], n0)
  {
    hide Position, LayerControls, NodeAt;
    var p := Position(d, progress[q], q);
    PositionInRange(h, d, progress[q], q);
    var cs', progress' := cs[p := control], progress[q := progress[q] + 1];
    forall d': nat, k: nat, r: nat | IsGate(h, d', k, r) && (d' < d || (d' == d && k < progress'[r]))
      ensures TapeHolds(cs', d', k, r, n0)
    {
      if d' == d && k == progress[q] && r == q {
      } else {
        assert TapeHolds(cs, d', k, r, n0);
        if Position(d', k, r) == p {
          PositionsDiffer(h, d', k, r, d, progress[q], q);
        }
      }
    }
  }

  /** The tags, records and control are what gate g of the node's layer leaves. */
  ghost predicate GateDone<R>(nd: Node<R>, g: nat, top: bv8, bottom: bv8, a: R, b: R, control: Control) {
    && 2 * g + 1 < |nd.ts| == |Step(nd).ts| == |Step(nd).rs| && g < |LayerControls(nd.ts)| && top < 4 && bottom < 4
    && TagOf(top) == Step(nd).ts[2 * g] && TagOf(bottom) == Step(nd).ts[2 * g + 1]
    && a == Step(nd).rs[2 * g] && b == Step(nd).rs[2 * g + 1] && control == LayerControls(nd.ts)[g]
  }

  /** One gate of one residue: the whole state advances. */
  lemma ReachedStep<R>(tags: seq<bv8>, rows: seq<R>, cs: seq<Control>, h: nat, d: nat, progress: seq<nat>, n0: Node<R>,
                       q: nat, g: nat, f: nat, s: nat, p: nat, top: bv8, bottom: bv8, a: R, b: R, control: Control)
    requires Reached(tags, rows, cs, h, d, progress, n0) && q < Pow2(d) && progress[q] == g < Pow2(h - 1 - d)
    requires f == Lane(q, Pow2(d), 2 * g) && s == Lane(q, Pow2(d), 2 * g + 1) && p == Position(d, g, q)
    requires Pow2(h - d) == 2 * Pow2(h - 1 - d) && |NodeAt(d, q, n0).ts| == Pow2(h - d)
    requires GateDone(NodeAt(d, q, n0), g, top, bottom, a, b, control)
    ensures f < s < |tags| && p < |cs|
    ensures Reached(tags[f := top][s := bottom], rows[f := a][s := b], cs[p := control], h, d, progress[q := g + 1], n0)
  {
    hide NodeAt, Step, LayerControls, ResidueAt, TapeReached, Position, Lane, TagOf;
    ResidueStep(tags, rows, h, d, q, NodeAt(d, q, n0), g, top, bottom, a, b);
    TapeStep(cs, h, d, progress, n0, q, control);
    forall q' | 0 <= q' < Pow2(d)
      ensures ResidueAt(tags[f := top][s := bottom], rows[f := a][s := b], h, d, q', NodeAt(d, q', n0),
                        progress[q := g + 1][q'])
    {
      if q' != q {
        InResidue(tags, rows, h, d, q', NodeAt(d, q', n0), progress[q']);
        OtherView(tags, d, Pow2(h - d), q, 2 * g, 2 * g + 1, q', top, bottom);
        OtherView(rows, d, Pow2(h - d), q, 2 * g, 2 * g + 1, q', a, b);
        SameResidue(tags, rows, tags[f := top][s := bottom], rows[f := a][s := b], h, d, q', NodeAt(d, q', n0),
                    progress[q']);
      }
    }
  }

  /** The counters one residue keeps while its layer is generated. */
  datatype ResidueBalanceState = ResidueBalanceState(
    diagonal: nat, fixedLeft: nat, fixedRight: nat,
    quotaDiagonal: nat, quotaLeft: nat, quotaRight: nat,
    rankDiagonal: nat, rankLeft: nat, rankRight: nat)

  ghost predicate CountedTo(st: ResidueBalanceState, ts: seq<Tag>, g: nat) {
    && 2 * g <= |ts|
    && st.diagonal == Pairs(Diagonal, ts[..2 * g])
    && st.fixedLeft == Pairs(FixedLeft, ts[..2 * g])
    && st.fixedRight == Pairs(FixedRight, ts[..2 * g])
    && st.rankDiagonal == st.rankLeft == st.rankRight == 0
  }

  ghost predicate RankedTo(st: ResidueBalanceState, ts: seq<Tag>, g: nat) {
    && 2 * g <= |ts|
    && Quotas(st.quotaDiagonal, st.quotaLeft, st.quotaRight) == NodeQuotas(ts, |ts| / 2)
    && st.rankDiagonal == Pairs(Diagonal, ts[..2 * g])
    && st.rankLeft == Pairs(VariableLeft, ts[..2 * g])
    && st.rankRight == Pairs(VariableRight, ts[..2 * g])
    && 4 * st.quotaDiagonal <= |ts| && 4 * st.quotaLeft <= |ts| && 4 * st.quotaRight <= |ts|
  }

  /** No counter of the counting scan exceeds the gates it has seen. */
  lemma CountedBounds(st: ResidueBalanceState, ts: seq<Tag>, g: nat)
    requires CountedTo(st, ts, g)
    ensures st.diagonal <= g && st.fixedLeft <= g && st.fixedRight <= g
  {
    hide Pairs;
    PairsBound(Diagonal, ts[..2 * g]);
    PairsBound(FixedLeft, ts[..2 * g]);
    PairsBound(FixedRight, ts[..2 * g]);
  }

  lemma RankBounds(st: ResidueBalanceState, ts: seq<Tag>, g: nat)
    requires RankedTo(st, ts, g)
    ensures st.rankDiagonal <= g && st.rankLeft <= g && st.rankRight <= g
    ensures 4 * st.quotaDiagonal <= |ts| && 4 * st.quotaLeft <= |ts| && 4 * st.quotaRight <= |ts|
  {
    hide Pairs, NodeQuotas;
    PairsBound(Diagonal, ts[..2 * g]);
    PairsBound(VariableLeft, ts[..2 * g]);
    PairsBound(VariableRight, ts[..2 * g]);
  }

  lemma CountedStep(st: ResidueBalanceState, ts: seq<Tag>, g: nat, x: bv8, y: bv8)
    requires CountedTo(st, ts, g) && 2 * g + 1 < |ts| && x < 4 && y < 4 && TagOf(x) == ts[2 * g]
             && TagOf(y) == ts[2 * g + 1]
    ensures var pair := ClassifyPairBits(x, y);
            CountedTo(st.(diagonal := st.diagonal + Flag((pair >> 4) & 1),
                        fixedLeft := st.fixedLeft + Flag((pair >> 1) & 1),
                        fixedRight := st.fixedRight + Flag(pair & 1)), ts, g + 1)
  {
    hide ClassifyPairBits, Pairs;
    ClassifiedKinds(ts, g, x, y);
  }

  /** The full census of an exact balanced view gives natural quotas: those of its layer. */
  lemma QuotasFromCounts(st: ResidueBalanceState, ts: seq<Tag>)
    requires |ts| % 4 == 0 && 0 < |ts| && Exact(ts, |ts| / 2, |ts| / 2) && CountedTo(st, ts, |ts| / 2)
    ensures var d := st.diagonal / 2;
            && 0 <= |ts| / 4 - st.fixedLeft - d && 0 <= |ts| / 4 - st.fixedRight - (st.diagonal - d)
            && RankedTo(st.(quotaDiagonal := d, quotaLeft := |ts| / 4 - st.fixedLeft - d,
                            quotaRight := |ts| / 4 - st.fixedRight - (st.diagonal - d)), ts, 0)
  {
    hide Pairs;
    var n := |ts|;
    assert ts[..2 * (n / 2)] == ts;
    NoPairs(ts);
    ExactIsConsistent(ts, n / 2, n / 2);
    QuotasFeasible(n, n / 2, n / 2, CensusOf(ts), Pairs(VariableLeft, ts), Pairs(VariableRight, ts));
    PairsBound(Diagonal, ts);
  }

  lemma RankedToStep(st: ResidueBalanceState, ts: seq<Tag>, g: nat, x: bv8, y: bv8)
    requires RankedTo(st, ts, g) && 2 * g + 1 < |ts| && x < 4 && y < 4 && TagOf(x) == ts[2 * g]
             && TagOf(y) == ts[2 * g + 1]
    ensures var pair := ClassifyPairBits(x, y);
            RankedTo(st.(rankDiagonal := st.rankDiagonal + Flag((pair >> 4) & 1),
                         rankLeft := st.rankLeft + Flag((pair >> 3) & 1),
                         rankRight := st.rankRight + Flag((pair >> 2) & 1)), ts, g + 1)
  {
    hide ClassifyPairBits, Pairs, NodeQuotas;
    ClassifiedKinds(ts, g, x, y);
  }

  lemma LastLabels()
    ensures TagOf(TAG_LEFT) == LEFT && TagOf(TAG_RIGHT) == RIGHT
  {
  }

  /** The lanes of a gate that has not run still hold the node's own tags and records. */
  lemma ResiduePair<R>(tags: seq<bv8>, rows: seq<R>, h: nat, d: nat, q: nat, nd: Node<R>, g: nat, p: nat)
    requires ResidueAt(tags, rows, h, d, q, nd, g) && Owned(tags) && |nd.ts| == Pow2(h - d)
    requires g <= p && 2 * p + 1 < |nd.ts|
    ensures var f, s := Lane(q, Pow2(d), 2 * p), Lane(q, Pow2(d), 2 * p + 1);
            && f < s < |tags| && tags[f] < 4 && tags[s] < 4
            && TagOf(tags[f]) == nd.ts[2 * p] && TagOf(tags[s]) == nd.ts[2 * p + 1]
            && rows[f] == nd.rs[2 * p] && rows[s] == nd.rs[2 * p + 1]
  {
    hide Step;
    StepLengths(nd);
    var n := Pow2(h - d);
    LaneOrder(q, Pow2(d), 2 * p, 2 * p + 1);
    LaneInRange(|tags|, q, Pow2(d), n, 2 * p + 1);
    var v, w := TagView(tags, q, Pow2(d), n), View(rows, q, Pow2(d), n);
    assert v[2 * p] == Partial(nd, g).ts[2 * p] && v[2 * p + 1] == Partial(nd, g).ts[2 * p + 1];
    assert w[2 * p] == Partial(nd, g).rs[2 * p] && w[2 * p + 1] == Partial(nd, g).rs[2 * p + 1];
  }

  /** What gate g of a node's layer does, in the terms the generator computes it in. */
  lemma StepGate<R>(nd: Node<R>, g: nat, st: ResidueBalanceState)
    requires |nd.ts| % 2 == 0 && 2 * g + 1 < |nd.ts|
    requires |nd.ts| != 2 ==> RankedTo(st, nd.ts, g)
    ensures |Step(nd).ts| == |nd.ts| && g < |LayerControls(nd.ts)|
    ensures var x, y := nd.ts[2 * g], nd.ts[2 * g + 1];
            var top := if |nd.ts| == 2 then LEFT else TopTag(x, y, Unspent(st));
            && LayerControls(nd.ts)[g] == (if |nd.ts| == 2 then PairControl(x) else GateControl(x, y, top))
            && Step(nd).ts[2 * g] == top
            && Step(nd).ts[2 * g + 1] == (if |nd.ts| == 2 then RIGHT else BottomTag(x, y, top))
  {
    hide TopTag, BottomTag, GateControl, BalanceTags, BalanceControls, NodeQuotas, Layer;
    if |nd.ts| != 2 {
      BalanceGate(nd.ts, NodeQuotas(nd.ts, |nd.ts| / 2), g);
    }
  }

  /** What it does to its two rows. */
  lemma StepRows<R>(nd: Node<R>, g: nat)
    requires 2 * g + 1 < |nd.ts|
    ensures |Step(nd).rs| == |nd.ts| && g < |LayerControls(nd.ts)|
    ensures var control := LayerControls(nd.ts)[g];
            && Step(nd).rs[2 * g] == ForkTop(control, nd.rs[2 * g], nd.rs[2 * g + 1])
            && Step(nd).rs[2 * g + 1] == ForkBottom(control, nd.rs[2 * g], nd.rs[2 * g + 1])
  {
    hide TopTag, BottomTag, GateControl, BalanceTags, BalanceControls, NodeQuotas, Layer;
    LayerGate(LayerControls(nd.ts), nd.rs, g);
  }

  /** What is left of the quotas. */
  function Unspent(st: ResidueBalanceState): Quotas {
    Quotas(st.quotaDiagonal - st.rankDiagonal, st.quotaLeft - st.rankLeft, st.quotaRight - st.rankRight)
  }

  // ----- one gate -----

  /** Ranks and quotas that every counter of the view's length compares rightly. */
  predicate Comparable(st: ResidueBalanceState, length: nat) {
    && 2 * st.rankDiagonal < length && 2 * st.rankLeft < length && 2 * st.rankRight < length
    && 4 * st.quotaDiagonal <= length && 4 * st.quotaLeft <= length && 4 * st.quotaRight <= length
  }

  /** The bytes of one gate, from its two tags and its residue's counters. */
  method GateOf(x: bv8, y: bv8, lastStage: bool, c: Counter, length: nat, st: ResidueBalanceState)
    returns (top: bv8, bottom: bv8, control: bv8)
    requires x < 4 && y < 4 && (!lastStage ==> c.CanCount(length) && Comparable(st, length))
    ensures top < 4 && bottom < 4 && control < 4
    ensures TagOf(top) == if lastStage then LEFT else TopTag(TagOf(x), TagOf(y), Unspent(st))
    ensures TagOf(bottom) == if lastStage then RIGHT else BottomTag(TagOf(x), TagOf(y), TagOf(top))
    ensures ControlOf(control)
            == if lastStage then PairControl(TagOf(x)) else GateControl(TagOf(x), TagOf(y), TagOf(top))
  {
    hide ClassifyPairBits, TopByte, TagOf, ControlOf, GateControlForBalancedPair, GateControl, TopTag, BottomTag,
         LaneControl;
    if lastStage {
      PairControlBits(x);
      LastLabels();
      return TAG_LEFT, TAG_RIGHT, TAG_BOTH ^ x;
    }
    var pair := ClassifyPairBits(x, y);
    LessFits(c, st.rankDiagonal, st.quotaDiagonal, length);
    LessFits(c, st.rankLeft, st.quotaLeft, length);
    LessFits(c, st.rankRight, st.quotaRight, length);
    GateBytes(x, y, Unspent(st));
    top := TopByte(pair, c.Less(st.rankDiagonal, st.quotaDiagonal), c.Less(st.rankLeft, st.quotaLeft),
                   c.Less(st.rankRight, st.quotaRight));
    SameTest(st);
    LaneControlIs(x, y, top);
    bottom := x ^ y ^ top;
    control := if c.Wide? then GateControlForBalancedPair(x, y, top) else LaneControl(x, y, top);
  }

  lemma SameTest(st: ResidueBalanceState)
    ensures var q := Unspent(st);
            && LessSize(st.rankDiagonal, st.quotaDiagonal) == LessSize(0, q.diagonal)
            && LessSize(st.rankLeft, st.quotaLeft) == LessSize(0, q.left)
            && LessSize(st.rankRight, st.quotaRight) == LessSize(0, q.right)
  {
  }

  /** The bytes are those of gate g of the node's layer. */
  ghost predicate GateIs<R>(nd: Node<R>, g: nat, top: bv8, bottom: bv8, control: bv8) {
    && 2 * g + 1 < |nd.ts| && |Step(nd).ts| == |nd.ts| && g < |LayerControls(nd.ts)|
    && top < 4 && bottom < 4 && control < 4
    && TagOf(top) == Step(nd).ts[2 * g] && TagOf(bottom) == Step(nd).ts[2 * g + 1]
    && ControlOf(control) == LayerControls(nd.ts)[g]
  }

  /** The control stored, and what its fork makes of the node's two records. */
  lemma GateStored<R>(nd: Node<R>, g: nat, top: bv8, bottom: bv8, control: bv8, x: R, y: R) returns (c: Control)
    requires GateIs(nd, g, top, bottom, control) && 2 * g + 1 < |nd.ts| && x == nd.rs[2 * g] && y == nd.rs[2 * g + 1]
    ensures c == ControlOf(control) && control < 4 && top < 4 && bottom < 4
    ensures GateDone(nd, g, top, bottom, ForkTop(c, x, y), ForkBottom(c, x, y), c)
  {
    hide Step, LayerControls, TagOf, ControlOf, ForkTop, ForkBottom;
    StepRows(nd, g);
    c := ControlOf(control);
  }

  /** The stores of one gate. */
  method StoreBytes<R>(tags: array<bv8>, rows: array<R>, controls: PackedControls, first: nat, second: nat, slot: nat,
                       top: bv8, bottom: bv8, control: bv8)
    requires tags as object != rows as object && controls.Valid() && slot < controls.count && control < 4
    requires first < second < tags.Length && second < rows.Length
    modifies tags, rows, controls`bytes
    ensures controls.Valid() && controls.Controls() == old(controls.Controls())[slot := ControlOf(control)]
    ensures tags[..] == old(tags[..])[first := top][second := bottom]
    ensures var c, x, y := ControlOf(control), old(rows[first]), old(rows[second]);
            rows[..] == old(rows[..])[first := ForkTop(c, x, y)][second := ForkBottom(c, x, y)]
  {
    hide ControlOf, ForkTop, ForkBottom, PackedControls.Controls;
    var written := controls.Set(slot, control);
    ApplyOFork(rows, first, second, control);
    tags[first] := top;
    tags[second] := bottom;
  }

  /** Stores one gate of one residue: its control, its two rows, its two tags. The whole state advances by it. */
  method StoreGate<R>(tags: array<bv8>, rows: array<R>, controls: PackedControls, ghost h: nat, ghost d: nat,
                      stride: nat, q: nat, first: nat, gate: nat, layerStart: nat, top: bv8, bottom: bv8, control: bv8,
                      ghost progress: seq<nat>, ghost n0: Node<R>)
    requires tags as object != rows as object && controls.Valid()
    requires Reached(tags[..], rows[..], controls.Controls(), h, d, progress, n0)
    requires stride == Pow2(d) && q < stride && progress[q] == gate < Pow2(h - 1 - d)
    requires first == Lane(q, stride, 2 * gate) && layerStart == LayerStart(d, gate)
    requires GateIs(NodeAt(d, q, n0), gate, top, bottom, control)
    modifies tags, rows, controls`bytes
    ensures controls.Valid()
    ensures Reached(tags[..], rows[..], controls.Controls(), h, d, progress[q := gate + 1], n0)
  {
    hide NodeAt, Step, LayerControls, ResidueAt, TapeReached, Reached, TagOf, ControlOf, LayerStart, Pow2, Lane,
         ForkTop, ForkBottom, GateIs, GateDone, PackedControls.Controls;
    ghost var nd := NodeAt(d, q, n0);
    ghost var tags0, rows0, cs0 := tags[..], rows[..], controls.Controls();
    ReachedResidue(tags0, rows0, cs0, h, d, progress, n0, q);
    ResiduePair(tags0, rows0, h, d, q, nd, gate, gate);
    NextLane(q, stride, gate);
    PositionInRange(h, d, gate, q);
    var second := first + stride;
    ghost var x, y := rows0[first], rows0[second];
    ghost var done := GateStored(nd, gate, top, bottom, control, x, y);
    StoreBytes(tags, rows, controls, first, second, layerStart + q, top, bottom, control);
    ReachedStep(tags0, rows0, cs0, h, d, progress, n0, q, gate, first, second, layerStart + q, top, bottom,
                ForkTop(done, x, y), ForkBottom(done, x, y), done);
  }

  /** One gate of one residue, ranked by the residue's counters. */
  method RankGateOf<R>(tags: array<bv8>, rows: array<R>, controls: PackedControls, ghost h: nat, ghost d: nat,
                       stride: nat, length: nat, q: nat, first: nat, gate: nat, layerStart: nat, c: Counter,
                       st: ResidueBalanceState, ghost progress: seq<nat>, ghost n0: Node<R>)
    returns (st': ResidueBalanceState)
    requires tags as object != rows as object && controls.Valid()
    requires Reached(tags[..], rows[..], controls.Controls(), h, d, progress, n0)
    requires stride == Pow2(d) && q < stride && progress[q] == gate < Pow2(h - 1 - d)
    requires first == Lane(q, stride, 2 * gate) && layerStart == LayerStart(d, gate)
    requires length == Pow2(h - d) && c.CanCount(length)
    requires length != 2 ==> RankedTo(st, NodeAt(d, q, n0).ts, gate)
    modifies tags, rows, controls`bytes
    ensures controls.Valid()
    ensures Reached(tags[..], rows[..], controls.Controls(), h, d, progress[q := gate + 1], n0)
    ensures length != 2 ==> RankedTo(st', NodeAt(d, q, n0).ts, gate + 1)
  {
    hide NodeAt, Step, LayerControls, ResidueAt, TapeReached, Reached, RankedTo, TagOf, ControlOf, TopTag, BottomTag,
         GateControl, ClassifyPairBits, LayerStart, Pow2;
    ghost var nd := NodeAt(d, q, n0);
    ReachedResidue(tags[..], rows[..], controls.Controls(), h, d, progress, n0, q);
    ResiduePair(tags[..], rows[..], h, d, q, nd, gate, gate);
    NextLane(q, stride, gate);
    StepGate(nd, gate, st);
    var x, y := tags[first], tags[first + stride];
    st' := st;
    if length != 2 {
      RankBounds(st, nd.ts, gate);
      st' := NextRanks(c, length, x, y, st, nd.ts, gate);
    }
    var top, bottom, control := GateOf(x, y, length == 2, c, length, st);
    StoreGate(tags, rows, controls, h, d, stride, q, first, gate, layerStart, top, bottom, control, progress, n0);
  }

  /** The counts after one pair more. */
  method CountPair(c: Counter, x: bv8, y: bv8, st: ResidueBalanceState, ghost ts: seq<Tag>, ghost gate: nat)
    returns (st': ResidueBalanceState)
    requires c.CanCount(|ts|) && CountedTo(st, ts, gate) && 2 * gate + 1 < |ts|
    requires x < 4 && y < 4 && TagOf(x) == ts[2 * gate] && TagOf(y) == ts[2 * gate + 1]
    ensures CountedTo(st', ts, gate + 1)
  {
    hide CountedTo, TagOf, ClassifyPairBits;
    var pair := ClassifyPairBits(x, y);
    CountedStep(st, ts, gate, x, y);
    var d, l, r := Flag((pair >> 4) & 1), Flag((pair >> 1) & 1), Flag(pair & 1);
    CountedBounds(st.(diagonal := st.diagonal + d, fixedLeft := st.fixedLeft + l, fixedRight := st.fixedRight + r), ts,
                  gate + 1);
    FullPairs(ts, gate);
    UpFits(c, st.diagonal, d, |ts|);
    UpFits(c, st.fixedLeft, l, |ts|);
    UpFits(c, st.fixedRight, r, |ts|);
    st' := st.(diagonal := c.Up(st.diagonal, d), fixedLeft := c.Up(st.fixedLeft, l),
               fixedRight := c.Up(st.fixedRight, r));
  }

  /** The quotas of a counted view. */
  method WithQuotas(c: Counter, length: nat, st: ResidueBalanceState, ghost ts: seq<Tag>)
    returns (st': ResidueBalanceState)
    requires c.CanCount(length) && |ts| == length && length % 4 == 0 && Exact(ts, length / 2, length / 2)
    requires CountedTo(st, ts, length / 2)
    ensures RankedTo(st', ts, 0)
  {
    hide CountedTo, RankedTo, Exact;
    QuotasFromCounts(st, ts);
    var d := st.diagonal / 2;
    var left, right := length / 4 - st.fixedLeft - d, length / 4 - st.fixedRight - (st.diagonal - d);
    ReduceFits(c, left, length);
    ReduceFits(c, right, length);
    st' := st.(quotaDiagonal := d, quotaLeft := c.Reduce(left), quotaRight := c.Reduce(right));
  }

  /** The ranks after one gate more. */
  method NextRanks(c: Counter, length: nat, x: bv8, y: bv8, st: ResidueBalanceState, ghost ts: seq<Tag>,
                   ghost gate: nat) returns (st': ResidueBalanceState)
    requires |ts| == length && c.CanCount(length) && RankedTo(st, ts, gate) && 2 * gate + 1 < length
    requires x < 4 && y < 4 && TagOf(x) == ts[2 * gate] && TagOf(y) == ts[2 * gate + 1]
    ensures RankedTo(st', ts, gate + 1)
  {
    hide RankedTo, TagOf, ClassifyPairBits;
    var pair := ClassifyPairBits(x, y);
    RankedToStep(st, ts, gate, x, y);
    var d, l, r := Flag((pair >> 4) & 1), Flag((pair >> 3) & 1), Flag((pair >> 2) & 1);
    RankBounds(st.(rankDiagonal := st.rankDiagonal + d, rankLeft := st.rankLeft + l, rankRight := st.rankRight + r),
               ts, gate + 1);
    FullPairs(ts, gate);
    UpFits(c, st.rankDiagonal, d, length);
    UpFits(c, st.rankLeft, l, length);
    UpFits(c, st.rankRight, r, length);
    st' := st.(rankDiagonal := c.Up(st.rankDiagonal, d), rankLeft := c.Up(st.rankLeft, l),
               rankRight := c.Up(st.rankRight, r));
  }

  lemma FullPairs(ts: seq<Tag>, gate: nat)
    requires 2 * gate + 1 < |ts|
    ensures 2 * (gate + 1) <= |ts|
  {
  }

  /** Gates done per residue when the first done residues are complete and the next few are part way. */
  function Progress(stride: nat, residue: nat, tile: nat, r: nat, gate: nat, gates: nat): (p: seq<nat>)
    ensures |p| == stride
  {
    seq(stride, q requires 0 <= q < stride =>
      if q < residue then gates else if q < residue + r then gate + 1 else if q < residue + tile then gate else 0)
  }

  lemma ProgressSteps(stride: nat, residue: nat, tile: nat, r: nat, gate: nat, gates: nat)
    requires residue + tile <= stride && gate < gates
    ensures r < tile ==> Progress(stride, residue, tile, r, gate, gates)[residue + r] == gate
    ensures r < tile ==>
              Progress(stride, residue, tile, r, gate, gates)[residue + r := gate + 1]
                == Progress(stride, residue, tile, r + 1, gate, gates)
    ensures Progress(stride, residue, tile, tile, gate, gates) == Progress(stride, residue, tile, 0, gate + 1, gates)
  {
  }

  lemma ProgressEnds(stride: nat, residue: nat, tile: nat, gates: nat)
    requires residue + tile <= stride
    ensures Progress(stride, residue, tile, 0, 0, gates) == Progress(stride, residue, 0, 0, 0, gates)
    ensures Progress(stride, residue, tile, 0, gates, gates) == Progress(stride, residue + tile, 0, 0, 0, gates)
  {
  }

  /** What the reached state says of one residue. */
  lemma ReachedResidue<R>(tags: seq<bv8>, rows: seq<R>, cs: seq<Control>, h: nat, d: nat, progress: seq<nat>,
                          n0: Node<R>, q: nat)
    requires Reached(tags, rows, cs, h, d, progress, n0) && q < Pow2(d)
    ensures d < h && Owned(tags) && |rows| == |tags| && |cs| == Gates(h)
    ensures ResidueAt(tags, rows, h, d, q, NodeAt(d, q, n0), progress[q])
    ensures |NodeAt(d, q, n0).ts| == Pow2(h - d) == 2 * Pow2(h - 1 - d)
    ensures |LayerControls(NodeAt(d, q, n0).ts)| == Pow2(h - 1 - d)
  {
    hide NodeAt, ResidueAt, TapeReached;
    NodeSize(h, d, q, n0);
  }

  lemma NextLane(q: nat, stride: nat, gate: nat)
    ensures Lane(q, stride, 2 * gate) + stride == Lane(q, stride, 2 * gate + 1)
  {
  }

  lemma CountedStart(ts: seq<Tag>)
    ensures CountedTo(ResidueBalanceState(0, 0, 0, 0, 0, 0, 0, 0, 0), ts, 0)
  {
  }

  lemma OwnedTags<R>(tags: seq<bv8>, rows: seq<R>, cs: seq<Control>, h: nat, d: nat, progress: seq<nat>, n0: Node<R>)
    requires Reached(tags, rows, cs, h, d, progress, n0)
    ensures Owned(tags)
  {
  }

  lemma NextStart(d: nat, k: nat)
    ensures LayerStart(d, k + 1) == LayerStart(d, k) + Pow2(d) * (d + 1 + 2 * Pow2(Ctz(k + 1)) - 2)
  {
  }
}
