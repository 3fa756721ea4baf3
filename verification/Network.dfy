/** The in-place network on tag bytes, packed controls and records, proved against the routing functions. */
module Network {
  import opened Lanes
  import opened Tags
  import opened TagBits
  import opened LayerQuotas
  import opened Routing
  import opened Normalization
  import opened PackedTape
  import opened Strided

  ghost function TagsOf(bytes: seq<bv8>): (ts: seq<Tag>)
    ensures |ts| == |bytes| && forall i :: 0 <= i < |bytes| ==> ts[i] == TagOf(bytes[i])
  {
    seq(|bytes|, i requires 0 <= i < |bytes| => TagOf(bytes[i]))
  }

  /** Every byte is a label in 0..3. */
  ghost predicate Owned(bytes: seq<bv8>) {
    forall i :: 0 <= i < |bytes| ==> bytes[i] < 4
  }

  lemma {:induction false} PairsAppend(k: Kind, ts: seq<Tag>, g: nat)
    requires 2 * g + 1 < |ts|
    ensures Pairs(k, ts[..2 * g + 2]) == Pairs(k, ts[..2 * g]) + Bit(Is(k, ts[2 * g], ts[2 * g + 1]))
  {
    if g == 0 {
      assert ts[..2][2..] == [] && Pairs(k, ts[..0]) == 0;
    } else {
      PairsAppend(k, ts[2..], g - 1);
      assert ts[..2 * g + 2][2..] == ts[2..][..2 * (g - 1) + 2];
      assert ts[..2 * g][2..] == ts[2..][..2 * (g - 1)];
    }
  }

  lemma {:induction false} PairsIgnoreLast(k: Kind, ts: seq<Tag>)
    ensures Pairs(k, ts[..|ts| / 2 * 2]) == Pairs(k, ts)
  {
    if |ts| >= 2 {
      PairsIgnoreLast(k, ts[2..]);
      assert ts[..|ts| / 2 * 2][2..] == ts[2..][..|ts[2..]| / 2 * 2];
    }
  }

  /** The quotas left when the layer reaches gate g: each less its rank, the pairs of its kind met so far. */
  function Remaining(ts: seq<Tag>, q: Quotas, g: nat): Quotas
    requires 2 * g <= |ts|
  {
    Quotas(q.diagonal - Pairs(Diagonal, ts[..2 * g]),
           q.left - Pairs(VariableLeft, ts[..2 * g]),
           q.right - Pairs(VariableRight, ts[..2 * g]))
  }

  /** Gate g of a layer: its two tags and its control, from the quotas remaining there. */
  lemma {:induction false} BalanceGate(ts: seq<Tag>, q: Quotas, g: nat)
    requires 2 * g + 1 < |ts|
    ensures var x, y := ts[2 * g], ts[2 * g + 1];
            var top := TopTag(x, y, Remaining(ts, q, g));
            && BalanceTags(ts, q)[2 * g] == top
            && BalanceTags(ts, q)[2 * g + 1] == BottomTag(x, y, top)
            && BalanceControls(ts, q)[g] == GateControl(x, y, top)
  {
    if g > 0 {
      BalanceGate(ts[2..], Spend(ts[0], ts[1], q), g - 1);
      assert ts[..2 * g][2..] == ts[2..][..2 * (g - 1)];
      assert Remaining(ts, q, g) == Remaining(ts[2..], Spend(ts[0], ts[1], q), g - 1);
    }
  }

  /**
   * Which pairs of a layer give a responsibility to the top output: a shared one always goes to both, one that neither
   * has to none; of the pairs that must choose, the first ones as many as the quota give the left, or the right,
   * responsibility to the top.
   */
  lemma LayerChoice(ts: seq<Tag>, q: Quotas, g: nat)
    requires 2 * g + 1 < |ts|
    ensures var x, y, top, before := ts[2 * g], ts[2 * g + 1], BalanceTags(ts, q)[2 * g], ts[..2 * g];
            && (x.left == y.left ==> top.left == x.left) && (x.right == y.right ==> top.right == x.right)
            && (IsDiagonal(x, y) ==> top.left == (Pairs(Diagonal, before) < q.diagonal) && top.right == !top.left)
            && (x.left != y.left && !IsDiagonal(x, y) ==> top.left == (Pairs(VariableLeft, before) < q.left))
            && (x.right != y.right && !IsDiagonal(x, y) ==> top.right == (Pairs(VariableRight, before) < q.right))
  {
    hide Pairs, BalanceTags;
    BalanceGate(ts, q, g);
  }

  lemma {:induction false} BalanceLast(ts: seq<Tag>, q: Quotas)
    requires |ts| % 2 == 1
    ensures BalanceTags(ts, q)[|ts| - 1] == ts[|ts| - 1]
  {
    if |ts| >= 2 {
      BalanceLast(ts[2..], Spend(ts[0], ts[1], q));
    }
  }

  method OFRNormalizeOwnedInPlace(tags: array<bv8>, n: nat, nLeft: nat, nRight: nat, leftWeight: nat, rightWeight: nat)
    returns (ok: bool)
    requires Owned(tags[..])
    modifies tags
    ensures ok == (0 < n && n == nLeft + nRight && tags.Length == n && leftWeight <= nLeft && rightWeight <= nRight)
    ensures !ok ==> tags[..] == old(tags[..])
    ensures Owned(tags[..])
    ensures ok ==> TagsOf(tags[..]) == Normalize(TagsOf(old(tags[..])), nLeft - leftWeight, nRight - rightWeight, 0)
  {
    ok := 0 < n && n == nLeft + nRight && tags.Length == n && leftWeight <= nLeft && rightWeight <= nRight;
    if !ok {
      return;
    }
    hide Normalize, Zeros, FilledTag, TagOf, IsZeroBit, LessSize;
    var assignLeft, assignRight := nLeft - leftWeight, nRight - rightWeight;
    ghost var ts := TagsOf(old(tags[..]));
    ghost var full := Normalize(ts, assignLeft, assignRight, 0);
    var zeroRank: nat := 0;
    for i := 0 to n
      invariant Owned(tags[..])
      invariant forall j :: i <= j < n ==> tags[j] == old(tags[j])
      invariant zeroRank == Zeros(ts[..i])
      invariant forall j :: 0 <= j < i ==> TagOf(tags[j]) == full[j]
    {
      var isZero := IsZeroBit(tags[i]);
      ZeroTest(tags[i]);
      var beforeLeft := LessSize(zeroRank, assignLeft);
      var useLeft := isZero & beforeLeft;
      var afterLeft := beforeLeft ^ 1;
      var beforeEnd := LessSize(zeroRank, assignLeft + assignRight);
      var useRight := isZero & afterLeft & beforeEnd;
      FillByte(tags[i], zeroRank, assignLeft, assignRight);
      NormalizeAt(ts, assignLeft, assignRight, 0, i);
      tags[i] := tags[i] | (useLeft << 1) | useRight;
      zeroRank := zeroRank + Flag(isZero);
    }
  }

  /** Lane i of the fill, from the number of zero tags before it. */
  lemma {:induction false} NormalizeAt(ts: seq<Tag>, a: nat, b: nat, rank: nat, i: nat)
    requires i < |ts|
    ensures Normalize(ts, a, b, rank)[i] == FilledTag(ts[i], rank + Zeros(ts[..i]), a, b)
    ensures Zeros(ts[..i + 1]) == Zeros(ts[..i]) + Bit(ts[i] == ZERO)
  {
    if i > 0 {
      NormalizeAt(ts[1..], a, b, rank + Bit(ts[0] == ZERO), i - 1);
      assert ts[..i][1..] == ts[1..][..i - 1] && ts[..i + 1][1..] == ts[1..][..i];
    } else {
      assert ts[..1][1..] == [];
    }
  }

  /** One byte of the fill: disjoint additions of at most one responsibility to a zero label. */
  lemma FillByte(t: bv8, rank: nat, a: nat, b: nat)
    requires t < 4
    ensures var useLeft := IsZeroBit(t) & LessSize(rank, a);
            var useRight := IsZeroBit(t) & (LessSize(rank, a) ^ 1) & LessSize(rank, a + b);
            var t' := t | (useLeft << 1) | useRight;
            && t' < 4
            && TagOf(t') == FilledTag(TagOf(t), rank, a, b)
  {
  }

  /** The tags a strided view of the label buffer stands for. */
  ghost function TagView(bytes: seq<bv8>, base: nat, stride: nat, n: nat): (ts: seq<Tag>)
    requires InRange(|bytes|, base, stride, n)
    ensures |ts| == n
  {
    TagsOf(View(bytes, base, stride, n))
  }

  /** The tape with a run of controls written over it. */
  function Splice<T>(tape: seq<T>, position: nat, run: seq<T>): (r: seq<T>)
    requires position + |run| <= |tape|
    ensures |r| == |tape|
  {
    tape[..position] + run + tape[position + |run|..]
  }

  /** The feature buffer holds the class of every pair. */
  ghost predicate Classified(features: seq<bv8>, bytes: seq<bv8>) {
    |bytes| / 2 <= |features| && forall g :: 0 <= g < |bytes| / 2 ==>
      features[g] == ClassifyPairBits(bytes[2 * g], bytes[2 * g + 1])
  }

  lemma ClassifiedPair(features: seq<bv8>, bytes: seq<bv8>, g: nat)
    requires Classified(features, bytes) && 2 * g + 1 < |bytes|
    ensures g < |features| && features[g] == ClassifyPairBits(bytes[2 * g], bytes[2 * g + 1])
  {
  }

  /** First scan: classify every pair into the feature buffer and take the census. */
  method ClassifyLayer(tags: array<bv8>, features: array<bv8>, base: nat, stride: nat, n: nat) returns (census: Census)
    requires InRange(tags.Length, base, stride, n) && Owned(tags[..])
    requires tags != features && n / 2 <= features.Length
    modifies features
    ensures census == CensusOf(TagView(tags[..], base, stride, n))
    ensures Classified(features[..], View(tags[..], base, stride, n))
  {
    hide ClassifyPairBits, PairBit, Is, TagOf;
    ghost var bytes := View(tags[..], base, stride, n);
    ghost var ts := TagsOf(bytes);
    var diagonal, fixedLeft, fixedRight := 0, 0, 0;
    LanesInRange(tags.Length, base, stride, n);
    for gate := 0 to n / 2
      invariant diagonal == Pairs(Diagonal, ts[..2 * gate])
      invariant fixedLeft == Pairs(FixedLeft, ts[..2 * gate])
      invariant fixedRight == Pairs(FixedRight, ts[..2 * gate])
      invariant forall g :: 0 <= g < gate ==> features[g] == ClassifyPairBits(bytes[2 * g], bytes[2 * g + 1])
    {
      var first := base + (2 * gate) * stride;
      assert first == Lane(base, stride, 2 * gate) && first + stride == Lane(base, stride, 2 * gate + 1);
      var pair := ClassifyPairBits(tags[first], tags[first + stride]);
      ClassifiedKinds(ts, gate, tags[first], tags[first + stride]);
      diagonal := diagonal + Flag((pair >> 4) & 1);
      fixedLeft := fixedLeft + Flag((pair >> 1) & 1);
      fixedRight := fixedRight + Flag(pair & 1);
      features[gate] := pair;
    }
    assert ts[..2 * (n / 2)] == ts[..|ts| / 2 * 2];
    PairsIgnoreLast(Diagonal, ts);
    PairsIgnoreLast(FixedLeft, ts);
    PairsIgnoreLast(FixedRight, ts);
    var lastLeft, lastRight := 0, 0;
    if n % 2 == 1 {
      var last := base + (n - 1) * stride;
      assert last == Lane(base, stride, n - 1);
      lastLeft, lastRight := Flag(LeftBit(tags[last])), Flag(RightBit(tags[last]));
      LastFlags(tags[last]);
      assert TagOf(tags[last]) == ts[n - 1];
    }
    census := Census(diagonal, fixedLeft, fixedRight, lastLeft, lastRight);
  }

  lemma LastFlags(t: bv8)
    ensures Flag(LeftBit(t)) == Bit(TagOf(t).left) && Flag(RightBit(t)) == Bit(TagOf(t).right)
  {
  }

  /** What the first scan adds for one pair. */
  lemma ClassifiedKinds(ts: seq<Tag>, gate: nat, x: bv8, y: bv8)
    requires 2 * gate + 1 < |ts| && x < 4 && y < 4 && ts[2 * gate] == TagOf(x) && ts[2 * gate + 1] == TagOf(y)
    ensures var pair := ClassifyPairBits(x, y);
            && Pairs(Diagonal, ts[..2 * gate + 2]) == Pairs(Diagonal, ts[..2 * gate]) + Flag((pair >> 4) & 1)
            && Pairs(FixedLeft, ts[..2 * gate + 2]) == Pairs(FixedLeft, ts[..2 * gate]) + Flag((pair >> 1) & 1)
            && Pairs(FixedRight, ts[..2 * gate + 2]) == Pairs(FixedRight, ts[..2 * gate]) + Flag(pair & 1)
            && Pairs(VariableLeft, ts[..2 * gate + 2]) == Pairs(VariableLeft, ts[..2 * gate]) + Flag((pair >> 3) & 1)
            && Pairs(VariableRight, ts[..2 * gate + 2]) == Pairs(VariableRight, ts[..2 * gate]) + Flag((pair >> 2) & 1)
  {
    FeatureBits(x, y, Diagonal);
    FeatureBits(x, y, FixedLeft);
    FeatureBits(x, y, FixedRight);
    FeatureBits(x, y, VariableLeft);
    FeatureBits(x, y, VariableRight);
    PairsAppend(Diagonal, ts, gate);
    PairsAppend(FixedLeft, ts, gate);
    PairsAppend(FixedRight, ts, gate);
    PairsAppend(VariableLeft, ts, gate);
    PairsAppend(VariableRight, ts, gate);
  }

  /** A layer half done: the first g gates have run, the other lanes still carry their own tags. */
  ghost function HalfLayer(ts: seq<Tag>, q: Quotas, g: nat): (r: seq<Tag>)
    requires 2 * g <= |ts|
    ensures |r| == |ts|
  {
    BalanceTags(ts, q)[..2 * g] + ts[2 * g..]
  }

  lemma HalfLayerStep(ts: seq<Tag>, q: Quotas, g: nat)
    requires 2 * g + 1 < |ts|
    ensures HalfLayer(ts, q, g + 1)
         == HalfLayer(ts, q, g)[2 * g := BalanceTags(ts, q)[2 * g]][2 * g + 1 := BalanceTags(ts, q)[2 * g + 1]]
  {
  }

  lemma HalfLayerEnds(ts: seq<Tag>, q: Quotas)
    ensures HalfLayer(ts, q, 0) == ts && HalfLayer(ts, q, |ts| / 2) == BalanceTags(ts, q)
  {
    hide BalanceTags;
    if |ts| % 2 == 1 {
      BalanceLast(ts, q);
      assert 2 * (|ts| / 2) == |ts| - 1;
    }
  }

  /** Two neighbouring lanes rewritten. */
  lemma WritePair(s: seq<bv8>, base: nat, stride: nat, n: nat, g: nat, top: bv8, bottom: bv8)
    requires InRange(|s|, base, stride, n) && 2 * g + 1 < n && Owned(s) && top < 4 && bottom < 4
    ensures Lane(base, stride, 2 * g) < |s| && Lane(base, stride, 2 * g + 1) < |s|
    ensures var s' := s[Lane(base, stride, 2 * g) := top][Lane(base, stride, 2 * g + 1) := bottom];
            && Owned(s') && SameOutside(s', s, base, stride, n)
            && View(s', base, stride, n) == View(s, base, stride, n)[2 * g := top][2 * g + 1 := bottom]
            && TagView(s', base, stride, n) == TagView(s, base, stride, n)[2 * g := TagOf(top)][2 * g + 1 :=
              TagOf(bottom)]
  {
    WriteLane(s, base, stride, n, 2 * g, top);
    WriteLane(s[Lane(base, stride, 2 * g) := top], base, stride, n, 2 * g + 1, bottom);
  }

  lemma SpliceNothing<T>(tape: seq<T>, position: nat, run: seq<T>)
    requires run == [] && position <= |tape|
    ensures Splice(tape, position, run) == tape
  {
  }

  lemma SpliceStep<T>(tape: seq<T>, position: nat, run: seq<T>, g: nat)
    requires g < |run| && position + |run| <= |tape|
    ensures Splice(tape, position, run[..g + 1]) == Splice(tape, position, run[..g])[position + g := run[g]]
  {
  }

  /** One gate of the second scan: the two tags and the control of a pair, from the quotas left for it. */
  method RankGate(tags: array<bv8>, controls: PackedControls, first: nat, second: nat, pair: bv8, rankDiagonal: nat,
                  rankLeft: nat, rankRight: nat, q: Quotas, slot: nat)
    requires first < second < tags.Length && tags[first] < 4 && tags[second] < 4
    requires pair == ClassifyPairBits(tags[first], tags[second])
    requires controls.Valid() && slot < controls.count
    modifies tags, controls`bytes
    ensures tags[first] < 4 && tags[second] < 4
    ensures tags[..] == old(tags[..])[first := tags[first]][second := tags[second]]
    ensures controls.Valid()
    ensures var x, y := TagOf(old(tags[first])), TagOf(old(tags[second]));
            var top := TopTag(x, y, Quotas(q.diagonal - rankDiagonal, q.left - rankLeft, q.right - rankRight));
            && TagOf(tags[first]) == top && TagOf(tags[second]) == BottomTag(x, y, top)
            && controls.Controls() == old(controls.Controls())[slot := GateControl(x, y, top)]
  {
    hide ClassifyPairBits, PairBit, Is, TagOf, ControlOf, TopByte, GateControlForBalancedPair, GateControl, TopTag,
         BottomTag;
    var x, y := tags[first], tags[second];
    var topTag := TopByte(pair, LessSize(rankDiagonal, q.diagonal), LessSize(rankLeft, q.left),
                          LessSize(rankRight, q.right));
    var bottomTag := x ^ y ^ topTag;
    GateBytes(x, y, Quotas(q.diagonal - rankDiagonal, q.left - rankLeft, q.right - rankRight));
    var control := GateControlForBalancedPair(x, y, topTag);
    var written := controls.Set(slot, control);
    tags[first] := topTag;
    tags[second] := bottomTag;
  }

  /** The label buffer s after g gates of a layer that started from s0. */
  ghost predicate Ranked(s: seq<bv8>, s0: seq<bv8>, base: nat, stride: nat, n: nat, q: Quotas, g: nat)
    requires |s| == |s0| && InRange(|s0|, base, stride, n) && 2 * g <= n
  {
    && Owned(s) && SameOutside(s, s0, base, stride, n)
    && (forall j :: 2 * g <= j < n ==> View(s, base, stride, n)[j] == View(s0, base, stride, n)[j])
    && TagView(s, base, stride, n) == HalfLayer(TagView(s0, base, stride, n), q, g)
  }

  lemma RankedStep(s: seq<bv8>, s0: seq<bv8>, base: nat, stride: nat, n: nat, q: Quotas, g: nat, top: bv8, bottom: bv8)
    requires |s| == |s0| && InRange(|s0|, base, stride, n) && 2 * g + 1 < n && Ranked(s, s0, base, stride, n, q, g)
    requires var ts' := BalanceTags(TagView(s0, base, stride, n), q);
             top < 4 && bottom < 4 && TagOf(top) == ts'[2 * g] && TagOf(bottom) == ts'[2 * g + 1]
    ensures Lane(base, stride, 2 * g) < |s| && Lane(base, stride, 2 * g + 1) < |s|
    ensures Ranked(s[Lane(base, stride, 2 * g) := top][Lane(base, stride, 2 * g + 1) := bottom],
                   s0, base, stride, n, q, g + 1)
  {
    hide Owned, SameOutside, View, TagView, HalfLayer, BalanceTags, TagOf;
    WritePair(s, base, stride, n, g, top, bottom);
    HalfLayerStep(TagView(s0, base, stride, n), q, g);
    SameOutsideChain(s[Lane(base, stride, 2 * g) := top][Lane(base, stride, 2 * g + 1) := bottom], s, s0, base, stride,
                     n);
  }

  /** Before gate g runs, its two lanes still hold their original labels. */
  lemma RankedPair(s: seq<bv8>, s0: seq<bv8>, base: nat, stride: nat, n: nat, q: Quotas, g: nat)
    requires |s| == |s0| && InRange(|s0|, base, stride, n) && 2 * g + 1 < n && Ranked(s, s0, base, stride, n, q, g)
    ensures Lane(base, stride, 2 * g) < Lane(base, stride, 2 * g + 1) < |s|
    ensures s[Lane(base, stride, 2 * g)] == View(s0, base, stride, n)[2 * g] < 4
    ensures s[Lane(base, stride, 2 * g + 1)] == View(s0, base, stride, n)[2 * g + 1] < 4
  {
    LaneInRange(|s|, base, stride, n, 2 * g + 1);
    LaneOrder(base, stride, 2 * g, 2 * g + 1);
    assert View(s, base, stride, n)[2 * g] == View(s0, base, stride, n)[2 * g];
    assert View(s, base, stride, n)[2 * g + 1] == View(s0, base, stride, n)[2 * g + 1];
  }

  lemma RankedEnds(s: seq<bv8>, s0: seq<bv8>, base: nat, stride: nat, n: nat, q: Quotas)
    requires |s| == |s0| && InRange(|s0|, base, stride, n)
    ensures s == s0 && Owned(s) ==> Ranked(s, s0, base, stride, n, q, 0)
    ensures Ranked(s, s0, base, stride, n, q, n / 2) ==>
              TagView(s, base, stride, n) == BalanceTags(TagView(s0, base, stride, n), q)
  {
    HalfLayerEnds(TagView(s0, base, stride, n), q);
  }

  /** Second scan: rank every pair against the quotas, rewrite its tags and write its control. */
  method RankLayer(tags: array<bv8>, controls: PackedControls, features: array<bv8>, base: nat, stride: nat, n: nat,
                   q: Quotas, position: nat)
    requires InRange(tags.Length, base, stride, n) && Owned(tags[..])
    requires tags != features
    requires controls.Valid() && position + n / 2 <= controls.count
    requires Classified(features[..], View(tags[..], base, stride, n))
    modifies tags, controls`bytes
    ensures Owned(tags[..]) && SameOutside(tags[..], old(tags[..]), base, stride, n)
    ensures TagView(tags[..], base, stride, n) == BalanceTags(old(TagView(tags[..], base, stride, n)), q)
    ensures controls.Valid()
    ensures controls.Controls()
         == Splice(old(controls.Controls()), position, BalanceControls(old(TagView(tags[..], base, stride, n)), q))
  {
    hide Splice, ClassifyPairBits, Is, TagOf, GateControl, TopTag, BottomTag, BalanceTags, BalanceControls, Pairs,
         Ranked, Classified;
    ghost var s0 := tags[..];
    ghost var bytes := View(s0, base, stride, n);
    ghost var ts := TagsOf(bytes);
    ghost var cs := BalanceControls(ts, q);
    var rankDiagonal, rankLeft, rankRight: nat := 0, 0, 0;
    RankedEnds(s0, s0, base, stride, n, q);
    NoPairs(ts);
    SpliceNothing(old(controls.Controls()), position, cs[..0]);
    for gate := 0 to n / 2
      invariant Ranked(tags[..], s0, base, stride, n, q, gate)
      invariant rankDiagonal == Pairs(Diagonal, ts[..2 * gate])
      invariant rankLeft == Pairs(VariableLeft, ts[..2 * gate])
      invariant rankRight == Pairs(VariableRight, ts[..2 * gate])
      invariant controls.Valid() && controls.count == old(controls.count)
      invariant controls.Controls() == Splice(old(controls.Controls()), position, cs[..gate])
    {
      var first := base + (2 * gate) * stride;
      assert first == Lane(base, stride, 2 * gate) && first + stride == Lane(base, stride, 2 * gate + 1);
      ghost var before := tags[..];
      RankedPair(before, s0, base, stride, n, q, gate);
      ClassifiedPair(old(features[..]), bytes, gate);
      var pair := features[gate];
      BalanceGate(ts, q, gate);
      ClassifiedKinds(ts, gate, tags[first], tags[first + stride]);
      SpliceStep(old(controls.Controls()), position, cs, gate);
      RankGate(tags, controls, first, first + stride, pair, rankDiagonal, rankLeft, rankRight, q, position + gate);
      RankedStep(before, s0, base, stride, n, q, gate, tags[first], tags[first + stride]);
      rankDiagonal := rankDiagonal + Flag((pair >> 4) & 1);
      rankLeft := rankLeft + Flag((pair >> 3) & 1);
      rankRight := rankRight + Flag((pair >> 2) & 1);
    }
    RankedEnds(tags[..], s0, base, stride, n, q);
    assert cs[..n / 2] == cs;
    FinalRanked(tags[..], s0, base, stride, n, q);
  }

  lemma FinalRanked(s: seq<bv8>, s0: seq<bv8>, base: nat, stride: nat, n: nat, q: Quotas)
    requires |s| == |s0| && InRange(|s0|, base, stride, n) && Ranked(s, s0, base, stride, n, q, n / 2)
    ensures Owned(s) && SameOutside(s, s0, base, stride, n)
  {
  }

  lemma NoPairs(ts: seq<Tag>)
    ensures Pairs(Diagonal, ts[..0]) == Pairs(VariableLeft, ts[..0]) == Pairs(VariableRight, ts[..0]) == 0
  {
  }

  /** One balance layer over a strided view: the quotas are feasible, so every rank test is a test of naturals. */
  method OFRBalanceLayer(tags: array<bv8>, controls: PackedControls, scratch: array<bv8>, base: nat, stride: nat,
                         n: nat, nLeft: nat, nRight: nat, position: nat)
    returns (next: nat)
    requires InRange(tags.Length, base, stride, n) && Owned(tags[..])
    requires n == nLeft + nRight && Exact(TagView(tags[..], base, stride, n), nLeft, nRight)
    requires tags != scratch && n / 2 <= scratch.Length
    requires controls.Valid() && position + n / 2 <= controls.count
    modifies tags, scratch, controls`bytes
    ensures next == position + n / 2
    ensures Owned(tags[..]) && SameOutside(tags[..], old(tags[..]), base, stride, n)
    ensures TagView(tags[..], base, stride, n) == NodeTags(old(TagView(tags[..], base, stride, n)), nLeft)
    ensures controls.Valid()
    ensures controls.Controls()
         == Splice(old(controls.Controls()), position, NodeControls(old(TagView(tags[..], base, stride, n)), nLeft))
  {
    hide ChooseQuotas, Pairs, CensusOf, BalanceTags, BalanceControls, Splice, Weight, View, Classified, SameOutside;
    ghost var ts := TagView(tags[..], base, stride, n);
    var census := ClassifyLayer(tags, scratch, base, stride, n);
    var quotas := ChooseQuotas(n, nLeft, nRight, census);
    assert 0 <= quotas.diagonal && 0 <= quotas.left && 0 <= quotas.right by {
      ExactIsConsistent(ts, nLeft, nRight);
      QuotasFeasible(n, nLeft, nRight, census, Pairs(VariableLeft, ts), Pairs(VariableRight, ts));
    }
    assert quotas == NodeQuotas(ts, nLeft);
    RankLayer(tags, controls, scratch, base, stride, n, quotas, position);
    next := position + n / 2;
  }

  lemma SpliceTwice<T>(tape: seq<T>, position: nat, a: seq<T>, b: seq<T>)
    requires position + |a| + |b| <= |tape|
    ensures Splice(Splice(tape, position, a), position + |a|, b) == Splice(tape, position, a + b)
  {
  }

  /** Tags with both sides as in a sorted node are the sorted tags. */
  lemma SidesAreTags(a: seq<Tag>, b: seq<Tag>)
    requires Side(a, true) == Side(b, true) && Side(a, false) == Side(b, false)
    ensures a == b
  {
    assert |a| == |Side(a, true)| && |b| == |Side(b, true)|;
    forall i | 0 <= i < |a| ensures a[i] == b[i] {
      assert Side(a, true)[i] == Side(b, true)[i] && Side(a, false)[i] == Side(b, false)[i];
    }
  }

  /** Control generation: the tape of the node is spliced in at position and its labels end up sorted. */
  method OFRControlWriteImpl(tags: array<bv8>, controls: PackedControls, scratch: array<bv8>, base: nat, stride: nat,
                             n: nat, nLeft: nat, nRight: nat, position: nat)
    returns (next: nat)
    requires InRange(tags.Length, base, stride, n) && Owned(tags[..])
    requires n == nLeft + nRight && Exact(TagView(tags[..], base, stride, n), nLeft, nRight)
    requires tags != scratch && n / 2 <= scratch.Length
    requires controls.Valid() && position + TapeLength(n, nLeft) <= controls.count
    modifies tags, scratch, controls`bytes
    ensures next == position + TapeLength(n, nLeft)
    ensures Owned(tags[..]) && SameOutside(tags[..], old(tags[..]), base, stride, n)
    ensures TagView(tags[..], base, stride, n) == Sorted(n, nLeft)
    ensures controls.Valid()
    ensures |Tape(old(TagView(tags[..], base, stride, n)), nLeft)| == TapeLength(n, nLeft)
    ensures controls.Controls()
         == Splice(old(controls.Controls()), position, Tape(old(TagView(tags[..], base, stride, n)), nLeft))
    decreases n, 1
  {
    hide Tape, TapeLength, Sorted, NodeTags, NodeControls, Weight, Splice, View, TagView, Owned, SameOutside, Exact;
    ghost var ts := TagView(tags[..], base, stride, n);
    ghost var cs := controls.Controls();
    TapeFits(ts, nLeft);
    if nLeft == 0 || nRight == 0 {
      TrivialNode(ts, nLeft, cs, position);
      SameOutsideSelf(tags[..], base, stride, n);
      return position;
    }
    if n == 2 {
      PairNode(ts, nLeft);
      next := WriteLastPair(tags, controls, base, stride, position);
      return;
    }
    InnerNode(ts, nLeft);
    NodeSplitsExactly(ts, nLeft);
    ghost var ts' := NodeTags(ts, nLeft);
    next := OFRBalanceLayer(tags, controls, scratch, base, stride, n, nLeft, nRight, position);
    ghost var s1 := tags[..];
    next := WriteChildren(tags, controls, scratch, base, stride, n, nLeft, nRight, next);
    SpliceTwice(cs, position, NodeControls(ts, nLeft), Children(ts', nLeft));
    SameOutsideChain(tags[..], s1, old(tags[..]), base, stride, n);
  }

  /** The tapes of the two children, the even lanes' first. */
  ghost function Children(ts: seq<Tag>, nLeft: nat): seq<Control>
    requires nLeft <= |ts|
  {
    Tape(Evens(ts), (nLeft + 1) / 2) + Tape(Odds(ts), nLeft / 2)
  }

  /** The two recursive calls of control generation, on the even and on the odd lanes. */
  method WriteChildren(tags: array<bv8>, controls: PackedControls, scratch: array<bv8>, base: nat, stride: nat, n: nat,
                       nLeft: nat, nRight: nat, position: nat)
    returns (next: nat)
    requires InRange(tags.Length, base, stride, n) && Owned(tags[..])
    requires n == nLeft + nRight && 2 < n && (nLeft + 1) / 2 <= (n + 1) / 2 && nLeft / 2 <= n / 2
    requires var ts := TagView(tags[..], base, stride, n);
             && Exact(Evens(ts), (nLeft + 1) / 2, (n + 1) / 2 - (nLeft + 1) / 2)
             && Exact(Odds(ts), nLeft / 2, n / 2 - nLeft / 2)
    requires tags != scratch && n / 2 <= scratch.Length
    requires controls.Valid()
    requires position + TapeLength((n + 1) / 2, (nLeft + 1) / 2) + TapeLength(n / 2, nLeft / 2) <= controls.count
    modifies tags, scratch, controls`bytes
    ensures next == position + TapeLength((n + 1) / 2, (nLeft + 1) / 2) + TapeLength(n / 2, nLeft / 2)
    ensures Owned(tags[..]) && SameOutside(tags[..], old(tags[..]), base, stride, n)
    ensures TagView(tags[..], base, stride, n) == Sorted(n, nLeft)
    ensures controls.Valid()
    ensures |Children(old(TagView(tags[..], base, stride, n)), nLeft)| == next - position
    ensures controls.Controls()
         == Splice(old(controls.Controls()), position, Children(old(TagView(tags[..], base, stride, n)), nLeft))
    decreases n, 0
  {
    hide Tape, TapeLength, Sorted, NodeTags, NodeControls, Weight, Splice, View, TagView, Owned, SameOutside, Exact,
         Evens, Odds;
    ghost var s1, cs := tags[..], controls.Controls();
    ghost var ts := TagView(s1, base, stride, n);
    var topLeft := nLeft / 2 + nLeft % 2;
    var topRight := n / 2 + n % 2 - topLeft;
    SplitTagView(s1, base, stride, n);
    next := OFRControlWriteImpl(tags, controls, scratch, base, 2 * stride, n / 2 + n % 2, topLeft, topRight, position);

    ghost var s2 := tags[..];
    OddsUntouched(s2, s1, base, stride, n);
    SplitTagView(s2, base, stride, n);
    OddTags(s2, s1, base, stride, n);
    next := OFRControlWriteImpl(tags, controls, scratch, base + stride, 2 * stride, n / 2,
                                nLeft - topLeft, nRight - topRight, next);
    SpliceTwice(cs, position, Tape(Evens(ts), (nLeft + 1) / 2), Tape(Odds(ts), nLeft / 2));
    JoinSorted(s1, s2, tags[..], base, stride, n, nLeft);
  }

  lemma TrivialNode(ts: seq<Tag>, nLeft: nat, cs: seq<Control>, position: nat)
    requires nLeft <= |ts| && Exact(ts, nLeft, |ts| - nLeft) && Trivial(|ts|, nLeft) && position <= |cs|
    ensures ts == Sorted(|ts|, nLeft) && TapeLength(|ts|, nLeft) == 0 && Tape(ts, nLeft) == []
    ensures Splice(cs, position, Tape(ts, nLeft)) == cs
  {
    TrivialTags(ts, nLeft, true);
    TrivialTags(ts, nLeft, false);
    SidesAreTags(ts, Sorted(|ts|, nLeft));
    SpliceNothing(cs, position, Tape(ts, nLeft));
  }

  lemma PairNode(ts: seq<Tag>, nLeft: nat)
    requires |ts| == 2 && nLeft == 1
    ensures TapeLength(2, nLeft) == 1 && Tape(ts, nLeft) == [PairControl(ts[0])]
  {
  }

  lemma InnerNode(ts: seq<Tag>, nLeft: nat)
    requires nLeft <= |ts| && !Trivial(|ts|, nLeft) && |ts| != 2
    ensures |ts| > 2
    ensures var ts' := NodeTags(ts, nLeft);
            Tape(ts, nLeft) == NodeControls(ts, nLeft) + Children(ts', nLeft)
    ensures TapeLength(|ts|, nLeft)
         == |ts| / 2 + TapeLength((|ts| + 1) / 2, (nLeft + 1) / 2) + TapeLength(|ts| / 2, nLeft / 2)
  {
    hide NodeTags, NodeControls;
    var ts' := NodeTags(ts, nLeft);
    SeqAssoc(NodeControls(ts, nLeft), Tape(Evens(ts'), (nLeft + 1) / 2), Tape(Odds(ts'), nLeft / 2));
  }

  lemma SeqAssoc<T>(a: seq<T>, b: seq<T>, c: seq<T>)
    ensures a + b + c == a + (b + c)
  {
  }

  lemma OddTags(s2: seq<bv8>, s1: seq<bv8>, base: nat, stride: nat, n: nat)
    requires |s1| == |s2| && InRange(|s1|, base, stride, n)
    requires Odds(View(s2, base, stride, n)) == Odds(View(s1, base, stride, n))
    ensures Odds(TagView(s2, base, stride, n)) == Odds(TagView(s1, base, stride, n))
  {
    var a, b := View(s1, base, stride, n), View(s2, base, stride, n);
    forall i | 0 <= i < n / 2 ensures a[2 * i + 1] == b[2 * i + 1] {
      assert Odds(a)[i] == Odds(b)[i];
    }
  }

  /** The even lanes sorted first, then the odd lanes: the whole view is sorted. */
  lemma JoinSorted(s1: seq<bv8>, s2: seq<bv8>, s3: seq<bv8>, base: nat, stride: nat, n: nat, nLeft: nat)
    requires nLeft <= n && |s1| == |s2| == |s3| && InRange(|s1|, base, stride, n) && (nLeft + 1) / 2 <= (n + 1) / 2
    requires SameOutside(s2, s1, base, 2 * stride, (n + 1) / 2) && SameOutside(s3, s2, base + stride, 2 * stride, n / 2)
    requires InRange(|s1|, base, 2 * stride, (n + 1) / 2) && InRange(|s1|, base + stride, 2 * stride, n / 2)
    requires TagView(s2, base, 2 * stride, (n + 1) / 2) == Sorted((n + 1) / 2, (nLeft + 1) / 2)
    requires TagView(s3, base + stride, 2 * stride, n / 2) == Sorted(n / 2, nLeft / 2)
    ensures TagView(s3, base, stride, n) == Sorted(n, nLeft)
    ensures SameOutside(s3, s1, base, stride, n)
  {
    hide Sorted, Outside, SameOutside, TagView, View, InRange, Lane, Evens, Odds, Interleave;
    OddsUntouched(s2, s1, base, stride, n);
    EvensUntouched(s3, s2, base, stride, n);
    SameOutsideChain(s3, s2, s1, base, stride, n);
    SplitTagView(s2, base, stride, n);
    SplitTagView(s3, base, stride, n);
    EvenTags(s3, s2, base, stride, n);
    InterleaveSplit(TagView(s3, base, stride, n));
    InterleaveSorted(n, nLeft);
  }

  lemma EvenTags(s2: seq<bv8>, s1: seq<bv8>, base: nat, stride: nat, n: nat)
    requires |s1| == |s2| && InRange(|s1|, base, stride, n)
    requires Evens(View(s2, base, stride, n)) == Evens(View(s1, base, stride, n))
    ensures Evens(TagView(s2, base, stride, n)) == Evens(TagView(s1, base, stride, n))
  {
    var a, b := View(s1, base, stride, n), View(s2, base, stride, n);
    forall i | 0 <= i < (n + 1) / 2 ensures a[2 * i] == b[2 * i] {
      assert Evens(a)[i] == Evens(b)[i];
    }
  }

  /** The two-lane node. */
  method WriteLastPair(tags: array<bv8>, controls: PackedControls, base: nat, stride: nat, position: nat)
    returns (next: nat)
    requires InRange(tags.Length, base, stride, 2) && Owned(tags[..])
    requires controls.Valid() && position < controls.count
    modifies tags, controls`bytes
    ensures next == position + 1
    ensures Owned(tags[..]) && SameOutside(tags[..], old(tags[..]), base, stride, 2)
    ensures TagView(tags[..], base, stride, 2) == Sorted(2, 1)
    ensures controls.Valid()
    ensures controls.Controls()
         == Splice(old(controls.Controls()), position, [PairControl(old(TagView(tags[..], base, stride, 2))[0])])
  {
    hide ControlOf, TagOf, Splice, Sorted;
    LaneInRange(tags.Length, base, stride, 2, 0);
    LaneInRange(tags.Length, base, stride, 2, 1);
    WritePair(tags[..], base, stride, 2, 0, TAG_LEFT, TAG_RIGHT);
    assert Lane(base, stride, 0) == base && Lane(base, stride, 1) == base + stride;
    var x := tags[base];
    PairControlBits(x);
    var written := controls.Set(position, TAG_BOTH ^ x);
    tags[base] := TAG_LEFT;
    tags[base + stride] := TAG_RIGHT;
    next := position + 1;
    SpliceOne(old(controls.Controls()), position, PairControl(TagOf(x)));
    SortedPair(TagView(tags[..], base, stride, 2));
  }

  lemma SortedPair(ts: seq<Tag>)
    requires |ts| == 2 && ts[0] == TagOf(TAG_LEFT) && ts[1] == TagOf(TAG_RIGHT)
    ensures ts == Sorted(2, 1)
  {
  }

  lemma SpliceOne<T>(tape: seq<T>, position: nat, x: T)
    requires position < |tape|
    ensures Splice(tape, position, [x]) == tape[position := x]
  {
  }

  lemma SplitTagView(s: seq<bv8>, base: nat, stride: nat, n: nat)
    requires InRange(|s|, base, stride, n)
    ensures InRange(|s|, base, 2 * stride, (n + 1) / 2) && InRange(|s|, base + stride, 2 * stride, n / 2)
    ensures TagView(s, base, 2 * stride, (n + 1) / 2) == Evens(TagView(s, base, stride, n))
    ensures TagView(s, base + stride, 2 * stride, n / 2) == Odds(TagView(s, base, stride, n))
  {
    SplitView(s, base, stride, n);
  }
}
