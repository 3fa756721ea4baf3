/** The short strides of the direct generator: residue after residue, four gates at a time. */
module QuadPostOrder {
  import opened Lanes
  import opened Powers
  import opened Tags
  import opened TagBits
  import opened LayerQuotas
  import opened PackedTape
  import opened Strided
  import opened Network
  import opened CarryStarts
  import opened ResidueViews
  import opened LaneCounters
  import opened ResidueGates

  const INT32_MAX := 0x7fff_ffff

  // ----- four pairs -----

  /** The four pairs from a gate on hold the node's own tags. */
  ghost predicate QuadOf(ts: seq<Tag>, gate: nat, xs: seq<bv8>, ys: seq<bv8>) {
    && |xs| == |ys| == 4 && 2 * gate + 8 <= |ts|
    && forall i :: 0 <= i < 4 ==> PairIs(ts, gate + i, xs[i], ys[i])
  }

  ghost predicate PairIs(ts: seq<Tag>, gate: nat, x: bv8, y: bv8) {
    2 * gate + 1 < |ts| && x < 4 && y < 4 && TagOf(x) == ts[2 * gate] && TagOf(y) == ts[2 * gate + 1]
  }

  /** Loads the pairs of four gates of a residue that have not run. */
  method LoadGatePairQuad<R>(tags: array<bv8>, ghost rows: seq<R>, ghost h: nat, ghost d: nat, stride: nat, q: nat,
                             first: nat, gate: nat, ghost nd: Node<R>, ghost done: nat)
    returns (xs: seq<bv8>, ys: seq<bv8>)
    requires d <= h && stride == Pow2(d) && q < stride && first == Lane(q, stride, 2 * gate)
    requires ResidueAt(tags[..], rows, h, d, q, nd, done) && Owned(tags[..]) && |nd.ts| == Pow2(h - d)
    requires done <= gate && 2 * gate + 8 <= |nd.ts|
    ensures QuadOf(nd.ts, gate, xs, ys)
  {
    hide ResidueAt, TagOf, Pow2;
    xs, ys := [], [];
    for lane := 0 to 4
      invariant |xs| == |ys| == lane && forall i :: 0 <= i < lane ==> PairIs(nd.ts, gate + i, xs[i], ys[i])
    {
      ResiduePair(tags[..], rows, h, d, q, nd, done, gate + lane);
      QuadLane(q, stride, gate, lane);
      var a := first + 2 * lane * stride;
      xs, ys := xs + [tags[a]], ys + [tags[a + stride]];
    }
  }

  lemma QuadLane(q: nat, stride: nat, gate: nat, lane: nat)
    ensures Lane(q, stride, 2 * gate) + 2 * lane * stride == Lane(q, stride, 2 * (gate + lane))
    ensures Lane(q, stride, 2 * (gate + lane)) + stride == Lane(q, stride, 2 * (gate + lane) + 1)
  {
  }

  // ----- counting a residue -----

  /** The counters before the scan. */
  method ClearCounters(ghost ts: seq<Tag>) returns (st: ResidueBalanceState)
    ensures CountedTo(st, ts, 0)
  {
    hide CountedTo;
    st := ResidueBalanceState(0, 0, 0, 0, 0, 0, 0, 0, 0);
    CountedStart(ts);
  }

  /** The counts after four pairs more. */
  method CountQuad(xs: seq<bv8>, ys: seq<bv8>, st: ResidueBalanceState, ghost ts: seq<Tag>, ghost gate: nat)
    returns (st': ResidueBalanceState)
    requires QuadOf(ts, gate, xs, ys) && CountedTo(st, ts, gate)
    ensures CountedTo(st', ts, gate + 4)
  {
    hide CountedTo, TagOf;
    st' := st;
    for lane := 0 to 4
      invariant CountedTo(st', ts, gate + lane)
    {
      assert PairIs(ts, gate + lane, xs[lane], ys[lane]);
      st' := CountPair(Wide, xs[lane], ys[lane], st', ts, gate + lane);
    }
  }

  method CountQuadAt<R>(tags: array<bv8>, ghost rows: seq<R>, ghost h: nat, ghost d: nat, stride: nat, q: nat,
                        ghost nd: Node<R>, gate: nat, st: ResidueBalanceState) returns (st': ResidueBalanceState)
    requires d <= h && stride == Pow2(d) && q < stride && |nd.ts| == Pow2(h - d) && 2 * gate + 8 <= |nd.ts|
    requires ResidueAt(tags[..], rows, h, d, q, nd, 0) && Owned(tags[..]) && CountedTo(st, nd.ts, gate)
    ensures CountedTo(st', nd.ts, gate + 4)
  {
    hide ResidueAt, TagOf, Pow2, CountedTo, Lane, QuadOf;
    var first := 2 * gate * stride + q;
    FirstLane(q, stride, gate);
    var xs, ys := LoadGatePairQuad(tags, rows, h, d, stride, q, first, gate, nd, 0);
    st' := CountQuad(xs, ys, st, nd.ts, gate);
  }

  /** The counts of a whole view, quad after quad. */
  method CountResidue<R>(tags: array<bv8>, ghost rows: seq<R>, ghost h: nat, ghost d: nat, stride: nat, length: nat,
                         q: nat, ghost nd: Node<R>) returns (st: ResidueBalanceState)
    requires d <= h && stride == Pow2(d) && q < stride && length == |nd.ts| == Pow2(h - d) && length % 8 == 0
    requires ResidueAt(tags[..], rows, h, d, q, nd, 0) && Owned(tags[..])
    ensures CountedTo(st, nd.ts, length / 2)
  {
    hide ResidueAt, Pow2, CountedTo;
    st := ClearCounters(nd.ts);
    var gate := 0;
    while gate < length / 2
      invariant gate % 4 == 0 && gate <= length / 2 && CountedTo(st, nd.ts, gate)
    {
      QuadInside(gate, length);
      st := CountQuadAt(tags, rows, h, d, stride, q, nd, gate, st);
      gate := gate + 4;
    }
  }

  /** A view of a whole number of quads holds each quad whole. */
  lemma QuadInside(gate: nat, length: nat)
    requires gate % 4 == 0 && length % 8 == 0 && gate < length / 2
    ensures 2 * gate + 8 <= length && gate + 4 <= length / 2 && (gate + 4) % 4 == 0 && 0 < length
  {
  }

  lemma FirstLane(q: nat, stride: nat, gate: nat)
    ensures 2 * gate * stride + q == Lane(q, stride, 2 * gate)
  {
  }

  // ----- ranking four gates -----

  /** Whether each of the four pairs is of a kind. */
  function Kinds(k: Kind, xs: seq<bv8>, ys: seq<bv8>): (types: seq<bool>)
    requires |xs| == |ys| == 4
    ensures |types| == 4
  {
    [PairBit(ClassifyPairBits(xs[0], ys[0]), k) == 1, PairBit(ClassifyPairBits(xs[1], ys[1]), k) == 1,
     PairBit(ClassifyPairBits(xs[2], ys[2]), k) == 1, PairBit(ClassifyPairBits(xs[3], ys[3]), k) == 1]
  }

  /** The node's pairs of a kind before gate i of the quad are those before the quad and the flags before gate i. */
  lemma {:induction false} QuadRanks(ts: seq<Tag>, gate: nat, xs: seq<bv8>, ys: seq<bv8>, k: Kind, i: nat)
    requires QuadOf(ts, gate, xs, ys) && i <= 4 && (k.Diagonal? || k.VariableLeft? || k.VariableRight?)
    ensures Pairs(k, ts[..2 * (gate + i)]) == Pairs(k, ts[..2 * gate]) + Count(Kinds(k, xs, ys)[..i])
  {
    hide ClassifyPairBits, TagOf, Pairs, Kinds, Count, PairBit;
    var types := Kinds(k, xs, ys);
    if i == 0 {
      NoTypes(types);
    } else {
      QuadRanks(ts, gate, xs, ys, k, i - 1);
      KindsAt(xs, ys, k, i - 1);
      assert PairIs(ts, gate + (i - 1), xs[i - 1], ys[i - 1]);
      KindCounted(ts, gate + (i - 1), xs[i - 1], ys[i - 1], k);
      assert 2 * (gate + (i - 1)) + 2 == 2 * (gate + i);
      assert types[..i] == types[..i - 1] + [types[i - 1]];
      CountAppend(types[..i - 1], [types[i - 1]]);
      CountOne(types[i - 1]);
    }
  }

  lemma NoTypes(types: seq<bool>)
    ensures Count(types[..0]) == 0
  {
  }

  lemma KindCounted(ts: seq<Tag>, gate: nat, x: bv8, y: bv8, k: Kind)
    requires PairIs(ts, gate, x, y) && (k.Diagonal? || k.VariableLeft? || k.VariableRight?)
    ensures Pairs(k, ts[..2 * gate + 2])
            == Pairs(k, ts[..2 * gate]) + Bit(PairBit(ClassifyPairBits(x, y), k) == 1)
  {
    hide ClassifyPairBits, TagOf, Pairs;
    ClassifiedKinds(ts, gate, x, y);
  }

  /** A choice already cut to its kind chooses as the test does. */
  lemma MaskedChoice(x: bv8, y: bv8, kd: bool, kl: bool, kr: bool, d: bool, l: bool, r: bool)
    requires x < 4 && y < 4
    requires kd == (PairBit(ClassifyPairBits(x, y), Diagonal) == 1)
    requires kl == (PairBit(ClassifyPairBits(x, y), VariableLeft) == 1)
    requires kr == (PairBit(ClassifyPairBits(x, y), VariableRight) == 1)
    ensures TopByte(ClassifyPairBits(x, y), BitByte(kd && d), BitByte(kl && l), BitByte(kr && r))
            == TopByte(ClassifyPairBits(x, y), BitByte(d), BitByte(l), BitByte(r))
  {
    FeatureBits(x, y, Diagonal);
    FeatureBits(x, y, VariableLeft);
    FeatureBits(x, y, VariableRight);
  }

  function BitByte(b: bool): bv8 {
    if b then 1 else 0
  }

  /** The bytes of gate i of a quad, from the choices made for the four gates together. */
  method QuadGate(x: bv8, y: bv8, ghost kd: bool, ghost kl: bool, ghost kr: bool, cd: bool, cl: bool, cr: bool,
                  ghost q: Quotas) returns (top: bv8, bottom: bv8, control: bv8)
    requires x < 4 && y < 4
    requires kd == (PairBit(ClassifyPairBits(x, y), Diagonal) == 1) && cd == (kd && 0 < q.diagonal)
    requires kl == (PairBit(ClassifyPairBits(x, y), VariableLeft) == 1) && cl == (kl && 0 < q.left)
    requires kr == (PairBit(ClassifyPairBits(x, y), VariableRight) == 1) && cr == (kr && 0 < q.right)
    ensures top < 4 && bottom < 4 && control < 4
    ensures TagOf(top) == TopTag(TagOf(x), TagOf(y), q) && TagOf(bottom) == BottomTag(TagOf(x), TagOf(y), TagOf(top))
    ensures ControlOf(control) == GateControl(TagOf(x), TagOf(y), TagOf(top))
  {
    hide ClassifyPairBits, TopByte, TagOf, ControlOf, GateControlForBalancedPair, GateControl, TopTag, BottomTag,
         LaneControl, PairBit;
    MaskedChoice(x, y, kd, kl, kr, 0 < q.diagonal, 0 < q.left, 0 < q.right);
    GateBytes(x, y, q);
    top := TopByte(ClassifyPairBits(x, y), BitByte(cd), BitByte(cl), BitByte(cr));
    LaneControlIs(x, y, top);
    bottom := x ^ y ^ top;
    control := LaneControl(x, y, top);
  }

  /** What remains of the quotas before a gate. */
  ghost predicate Spending(st: ResidueBalanceState, ts: seq<Tag>, gate: nat, d: int, l: int, r: int) {
    && 2 * gate <= |ts|
    && d == st.quotaDiagonal - Pairs(Diagonal, ts[..2 * gate])
    && l == st.quotaLeft - Pairs(VariableLeft, ts[..2 * gate])
    && r == st.quotaRight - Pairs(VariableRight, ts[..2 * gate])
  }

  /** The counters a residue ranked gate by gate would have before a gate. */
  ghost function RanksAt(st: ResidueBalanceState, ts: seq<Tag>, gate: nat): ResidueBalanceState
    requires 2 * gate <= |ts|
  {
    st.(rankDiagonal := Pairs(Diagonal, ts[..2 * gate]), rankLeft := Pairs(VariableLeft, ts[..2 * gate]),
        rankRight := Pairs(VariableRight, ts[..2 * gate]))
  }

  lemma RanksAtRanked(st: ResidueBalanceState, ts: seq<Tag>, gate: nat)
    requires RankedTo(st, ts, 0) && 2 * gate <= |ts|
    ensures RankedTo(RanksAt(st, ts, gate), ts, gate)
  {
  }

  /** What a choice of the quad tests is what remains of the quota before its gate. */
  lemma QuadTests(st: ResidueBalanceState, ts: seq<Tag>, gate: nat, xs: seq<bv8>, ys: seq<bv8>, i: nat, d: int, l: int,
                  r: int)
    requires QuadOf(ts, gate, xs, ys) && i < 4 && Spending(st, ts, gate, d, l, r)
    ensures var q := Unspent(RanksAt(st, ts, gate + i));
            && q.diagonal == d - Count(Kinds(Diagonal, xs, ys)[..i])
            && q.left == l - Count(Kinds(VariableLeft, xs, ys)[..i])
            && q.right == r - Count(Kinds(VariableRight, xs, ys)[..i])
  {
    hide Pairs, Kinds, QuadOf, Count;
    QuadRanks(ts, gate, xs, ys, Diagonal, i);
    QuadRanks(ts, gate, xs, ys, VariableLeft, i);
    QuadRanks(ts, gate, xs, ys, VariableRight, i);
  }

  lemma QuadSpends(st: ResidueBalanceState, ts: seq<Tag>, gate: nat, xs: seq<bv8>, ys: seq<bv8>, d: int, l: int, r: int)
    requires QuadOf(ts, gate, xs, ys) && Spending(st, ts, gate, d, l, r)
    ensures Spending(st, ts, gate + 4, d - Count(Kinds(Diagonal, xs, ys)), l - Count(Kinds(VariableLeft, xs, ys)),
                     r - Count(Kinds(VariableRight, xs, ys)))
  {
    hide Pairs, Kinds, Count;
    QuadRanks(ts, gate, xs, ys, Diagonal, 4);
    QuadRanks(ts, gate, xs, ys, VariableLeft, 4);
    QuadRanks(ts, gate, xs, ys, VariableRight, 4);
    assert Kinds(Diagonal, xs, ys)[..4] == Kinds(Diagonal, xs, ys);
    assert Kinds(VariableLeft, xs, ys)[..4] == Kinds(VariableLeft, xs, ys);
    assert Kinds(VariableRight, xs, ys)[..4] == Kinds(VariableRight, xs, ys);
  }

  /** The pair and its kinds. */
  lemma KindsAt(xs: seq<bv8>, ys: seq<bv8>, k: Kind, i: nat)
    requires |xs| == |ys| == 4 && i < 4
    ensures Kinds(k, xs, ys)[i] == (PairBit(ClassifyPairBits(xs[i], ys[i]), k) == 1)
  {
    hide PairBit, ClassifyPairBits;
  }

  /** One gate of a quad. */
  method StoreQuadGate<R>(tags: array<bv8>, rows: array<R>, controls: PackedControls, ghost h: nat, ghost d: nat,
                          stride: nat, q: nat, first: nat, gate: nat, ghost start: nat, ghost gates: nat,
                          layerStart: nat, lane: nat, xs: seq<bv8>, ys: seq<bv8>, cd: seq<bool>, cl: seq<bool>,
                          cr: seq<bool>, ghost rd: int, ghost rl: int, ghost rr: int, ghost st: ResidueBalanceState,
                          ghost n0: Node<R>)
    requires tags as object != rows as object && controls.Valid() && lane < 4 && gate == start + lane
    requires d < h && stride == Pow2(d) && q < stride && gate < gates == Pow2(h - 1 - d) && Pow2(h - d) > 2
    requires Reached(tags[..], rows[..], controls.Controls(), h, d, Progress(stride, q, 1, 0, gate, gates), n0)
    requires first == Lane(q, stride, 2 * gate) && layerStart == LayerStart(d, gate)
    requires QuadOf(NodeAt(d, q, n0).ts, start, xs, ys) && RankedTo(st, NodeAt(d, q, n0).ts, 0)
    requires Spending(st, NodeAt(d, q, n0).ts, start, rd, rl, rr) && |cd| == |cl| == |cr| == 4
    requires cd[lane] == (Kinds(Diagonal, xs, ys)[lane] && Count(Kinds(Diagonal, xs, ys)[..lane]) < rd)
    requires cl[lane] == (Kinds(VariableLeft, xs, ys)[lane] && Count(Kinds(VariableLeft, xs, ys)[..lane]) < rl)
    requires cr[lane] == (Kinds(VariableRight, xs, ys)[lane] && Count(Kinds(VariableRight, xs, ys)[..lane]) < rr)
    modifies tags, rows, controls`bytes
    ensures controls.Valid()
    ensures Reached(tags[..], rows[..], controls.Controls(), h, d, Progress(stride, q, 1, 0, gate + 1, gates), n0)
  {
    hide NodeAt, Step, LayerControls, ResidueAt, TapeReached, Reached, RankedTo, TagOf, ControlOf, TopTag, BottomTag,
         GateControl, ClassifyPairBits, LayerStart, Pow2, Lane, Spending, Kinds, Count, PairBit, RanksAt, Progress;
    ghost var nd := NodeAt(d, q, n0);
    ghost var ranked := RanksAt(st, nd.ts, gate);
    ghost var progress := Progress(stride, q, 1, 0, gate, gates);
    ProgressSteps(stride, q, 1, 0, gate, gates);
    ReachedResidue(tags[..], rows[..], controls.Controls(), h, d, progress, n0, q);
    QuadTests(st, nd.ts, start, xs, ys, lane, rd, rl, rr);
    RanksAtRanked(st, nd.ts, gate);
    StepGate(nd, gate, ranked);
    assert PairIs(nd.ts, start + lane, xs[lane], ys[lane]);
    KindsAt(xs, ys, Diagonal, lane);
    KindsAt(xs, ys, VariableLeft, lane);
    KindsAt(xs, ys, VariableRight, lane);
    var top, bottom, control := QuadGate(xs[lane], ys[lane], Kinds(Diagonal, xs, ys)[lane],
                                         Kinds(VariableLeft, xs, ys)[lane], Kinds(VariableRight, xs, ys)[lane],
                                         cd[lane], cl[lane], cr[lane], Unspent(ranked));
    StoreGate(tags, rows, controls, h, d, stride, q, first, gate, layerStart, top, bottom, control, progress, n0);
    OneResidueOn(stride, q, gate, gates);
  }

  lemma OneResidueOn(stride: nat, q: nat, gate: nat, gates: nat)
    requires q < stride && gate < gates
    ensures Progress(stride, q, 1, 0, gate, gates)[q := gate + 1] == Progress(stride, q, 1, 0, gate + 1, gates)
  {
  }

  /** Four gates of a residue: chosen together, then stored one after the other. */
  method RankQuad<R>(tags: array<bv8>, rows: array<R>, controls: PackedControls, ghost h: nat, d: nat, stride: nat,
                     q: nat, gate: nat, gateCount: nat, start: nat, rd: int, rl: int, rr: int,
                     ghost st: ResidueBalanceState, ghost n0: Node<R>)
    returns (layerStart: nat, rd': int, rl': int, rr': int)
    requires tags as object != rows as object && controls.Valid()
    requires d < h && stride == Pow2(d) && q < stride && gate + 4 <= gateCount == Pow2(h - 1 - d) && Pow2(h - d) > 2
    requires Reached(tags[..], rows[..], controls.Controls(), h, d, Progress(stride, q, 1, 0, gate, gateCount), n0)
    requires start == LayerStart(d, gate)
    requires RankedTo(st, NodeAt(d, q, n0).ts, 0) && Spending(st, NodeAt(d, q, n0).ts, gate, rd, rl, rr)
    modifies tags, rows, controls`bytes
    ensures controls.Valid()
    ensures Reached(tags[..], rows[..], controls.Controls(), h, d, Progress(stride, q, 1, 0, gate + 4, gateCount), n0)
    ensures gate + 4 < gateCount ==> layerStart == LayerStart(d, gate + 4)
    ensures Spending(st, NodeAt(d, q, n0).ts, gate + 4, rd', rl', rr')
  {
    hide NodeAt, ResidueAt, Reached, RankedTo, LayerStart, Pow2, Lane, Spending, Kinds, Count, Progress, QuadOf,
         PackedControls.Controls;
    ghost var nd := NodeAt(d, q, n0);
    var first := 2 * gate * stride + q;
    FirstLane(q, stride, gate);
    ProgressSteps(stride, q, 1, 0, gate, gateCount);
    ReachedResidue(tags[..], rows[..], controls.Controls(), h, d, Progress(stride, q, 1, 0, gate, gateCount), n0, q);
    var xs, ys := LoadGatePairQuad(tags, rows[..], h, d, stride, q, first, gate, nd, gate);
    QuadSizes(nd.ts, gate, xs, ys);
    QuadSpends(st, nd.ts, gate, xs, ys, rd, rl, rr);
    var cd, cl, cr;
    cd, rd' := PrefixChoice4(Kinds(Diagonal, xs, ys), rd);
    cl, rl' := PrefixChoice4(Kinds(VariableLeft, xs, ys), rl);
    cr, rr' := PrefixChoice4(Kinds(VariableRight, xs, ys), rr);
    layerStart := start;
    for lane := 0 to 4
      invariant controls.Valid()
      invariant Reached(tags[..], rows[..], controls.Controls(), h, d,
                        Progress(stride, q, 1, 0, gate + lane, gateCount), n0)
      invariant gate + lane < gateCount ==> layerStart == LayerStart(d, gate + lane)
    {
      QuadLane(q, stride, gate, lane);
      var pair := first + 2 * lane * stride;
      StoreQuadGate(tags, rows, controls, h, d, stride, q, pair, gate + lane, gate, gateCount, layerStart, lane, xs, ys,
                    cd, cl, cr, rd, rl, rr, st, n0);
      layerStart := StartAfter(layerStart, d, stride, gate + lane, gateCount);
    }
  }

  /** The start of the next gate's row follows from the carry bits of its index. */
  method StartAfter(layerStart: nat, d: nat, stride: nat, gate: nat, gateCount: nat) returns (next: nat)
    requires stride == Pow2(d) && layerStart == LayerStart(d, gate)
    ensures gate + 1 < gateCount ==> next == LayerStart(d, gate + 1)
  {
    next := layerStart;
    if gate + 1 < gateCount {
      var carry := Ctz(gate + 1);
      NextStart(d, gate);
      next := layerStart + stride * (d + 1 + 2 * Pow2(carry) - 2);
    }
  }

  lemma QuadSizes(ts: seq<Tag>, gate: nat, xs: seq<bv8>, ys: seq<bv8>)
    requires QuadOf(ts, gate, xs, ys)
    ensures |xs| == |ys| == 4
  {
  }

  /** A word read as a signed 32-bit number. */
  function Int32(v: nat): int {
    var r := v % 0x1_0000_0000;
    if r <= INT32_MAX then r else r - 0x1_0000_0000
  }

  /** Up to 2^31 - 1 lanes, quotas and what remains of them are 32-bit numbers. */
  lemma RemainingFits(st: ResidueBalanceState, ts: seq<Tag>, gate: nat, d: int, l: int, r: int)
    requires RankedTo(st, ts, 0) && |ts| <= INT32_MAX && Spending(st, ts, gate, d, l, r)
    ensures Int32(st.quotaDiagonal) == st.quotaDiagonal && Int32(st.quotaLeft) == st.quotaLeft
            && Int32(st.quotaRight) == st.quotaRight
    ensures -INT32_MAX <= d <= INT32_MAX && -INT32_MAX <= l <= INT32_MAX && -INT32_MAX <= r <= INT32_MAX
  {
    hide Pairs, NodeQuotas;
    RankBounds(st, ts, 0);
    PairsBound(Diagonal, ts[..2 * gate]);
    PairsBound(VariableLeft, ts[..2 * gate]);
    PairsBound(VariableRight, ts[..2 * gate]);
  }

  lemma NothingSpent(st: ResidueBalanceState, ts: seq<Tag>)
    ensures Spending(st, ts, 0, st.quotaDiagonal, st.quotaLeft, st.quotaRight)
  {
    NoPairs(ts);
  }

  /** One residue: the quotas remain in signed 32-bit numbers. */
  method RankResidue<R>(tags: array<bv8>, rows: array<R>, controls: PackedControls, ghost h: nat, d: nat, stride: nat,
                        length: nat, q: nat, st: ResidueBalanceState, ghost n0: Node<R>)
    requires tags as object != rows as object && controls.Valid()
    requires d < h && stride == Pow2(d) && q < stride && length == Pow2(h - d) && length % 8 == 0
    requires length <= INT32_MAX && RankedTo(st, NodeAt(d, q, n0).ts, 0)
    requires Reached(tags[..], rows[..], controls.Controls(), h, d, Progress(stride, q, 0, 0, 0, length / 2), n0)
    modifies tags, rows, controls`bytes
    ensures controls.Valid()
    ensures Reached(tags[..], rows[..], controls.Controls(), h, d, Progress(stride, q + 1, 0, 0, 0, length / 2), n0)
  {
    hide NodeAt, ResidueAt, Reached, RankedTo, LayerStart, Pow2, Spending, Progress, Int32;
    ghost var ts := NodeAt(d, q, n0).ts;
    var gateCount := length / 2;
    ReachedResidue(tags[..], rows[..], controls.Controls(), h, d, Progress(stride, q, 0, 0, 0, gateCount), n0, q);
    ProgressEnds(stride, q, 1, gateCount);
    NothingSpent(st, ts);
    RemainingFits(st, ts, 0, st.quotaDiagonal, st.quotaLeft, st.quotaRight);
    var rd, rl, rr := Int32(st.quotaDiagonal), Int32(st.quotaLeft), Int32(st.quotaRight);
    var layerStart := stride * d;
    FirstStart(d);
    var gate := 0;
    while gate < gateCount
      invariant gate % 4 == 0 && gate <= gateCount && controls.Valid()
      invariant Reached(tags[..], rows[..], controls.Controls(), h, d, Progress(stride, q, 1, 0, gate, gateCount), n0)
      invariant gate < gateCount ==> layerStart == LayerStart(d, gate)
      invariant Spending(st, ts, gate, rd, rl, rr)
      invariant -INT32_MAX <= rd <= INT32_MAX && -INT32_MAX <= rl <= INT32_MAX && -INT32_MAX <= rr <= INT32_MAX
    {
      QuadInside(gate, length);
      layerStart, rd, rl, rr := RankQuad(tags, rows, controls, h, d, stride, q, gate, gateCount, layerStart, rd, rl, rr,
                                         st, n0);
      gate := gate + 4;
      RemainingFits(st, ts, gate, rd, rl, rr);
    }
  }

  /** A short stride: residue after residue. */
  method GenerateQuads<R>(tags: array<bv8>, rows: array<R>, controls: PackedControls, ghost h: nat, d: nat, stride: nat,
                          length: nat, ghost n0: Node<R>)
    requires tags as object != rows as object && controls.Valid()
    requires d < h && stride == Pow2(d) && length == Pow2(h - d) && length % 8 == 0 && length <= INT32_MAX
    requires BalancedNode(h, n0.ts)
    requires Reached(tags[..], rows[..], controls.Controls(), h, d, Progress(stride, 0, 0, 0, 0, length / 2), n0)
    modifies tags, rows, controls`bytes
    ensures controls.Valid()
    ensures Reached(tags[..], rows[..], controls.Controls(), h, d, Progress(stride, stride, 0, 0, 0, length / 2), n0)
  {
    hide Reached, Pow2, Progress, BalancedNode;
    for q := 0 to stride
      invariant controls.Valid()
      invariant Reached(tags[..], rows[..], controls.Controls(), h, d, Progress(stride, q, 0, 0, 0, length / 2), n0)
    {
      GenerateResidue(tags, rows, controls, h, d, stride, length, q, n0);
    }
  }

  /** One residue of a short stride: its counts, its quotas, its gates. */
  method GenerateResidue<R>(tags: array<bv8>, rows: array<R>, controls: PackedControls, ghost h: nat, d: nat,
                            stride: nat, length: nat, q: nat, ghost n0: Node<R>)
    requires tags as object != rows as object && controls.Valid()
    requires d < h && stride == Pow2(d) && q < stride && length == Pow2(h - d) && length % 8 == 0
    requires length <= INT32_MAX && BalancedNode(h, n0.ts)
    requires Reached(tags[..], rows[..], controls.Controls(), h, d, Progress(stride, q, 0, 0, 0, length / 2), n0)
    modifies tags, rows, controls`bytes
    ensures controls.Valid()
    ensures Reached(tags[..], rows[..], controls.Controls(), h, d, Progress(stride, q + 1, 0, 0, 0, length / 2), n0)
  {
    hide NodeAt, ResidueAt, Reached, RankedTo, CountedTo, Pow2, Progress, Exact, BalancedNode;
    ghost var nd := NodeAt(d, q, n0);
    ghost var progress := Progress(stride, q, 0, 0, 0, length / 2);
    Untouched(stride, q, length / 2);
    ReachedResidue(tags[..], rows[..], controls.Controls(), h, d, progress, n0, q);
    ViewsExact(h, d, q, n0);
    ExactView(h - d, nd.ts);
    EightsAreFours(length);
    var st := CountResidue(tags, rows[..], h, d, stride, length, q, nd);
    st := WithQuotas(Wide, length, st, nd.ts);
    RankResidue(tags, rows, controls, h, d, stride, length, q, st, n0);
  }

  lemma EightsAreFours(length: nat)
    requires length % 8 == 0
    ensures length % 4 == 0
  {
  }

  lemma Untouched(stride: nat, q: nat, gates: nat)
    requires q < stride
    ensures Progress(stride, q, 0, 0, 0, gates)[q] == 0
  {
  }

  lemma ExactView(h: nat, ts: seq<Tag>)
    requires 0 < h && BalancedNode(h, ts)
    ensures |ts| == Pow2(h) && Exact(ts, Pow2(h) / 2, Pow2(h) / 2)
  {
  }
}
