/** Capacity splitting and the three quotas of a balance layer. */
module LayerQuotas {
  import opened Lanes
  import opened Tags

  datatype CapacitySplit = CapacitySplit(
    nTop: int, nBottom: int, topLeft: int, topRight: int, bottomLeft: int, bottomRight: int)

  function SplitCapacities(n: nat, nLeft: nat, nRight: nat): CapacitySplit {
    var nTop := n / 2 + n % 2;
    var topLeft := nLeft / 2 + nLeft % 2;
    var topRight := nTop - topLeft;
    CapacitySplit(nTop, n / 2, topLeft, topRight, nLeft - topLeft, nRight - topRight)
  }

  function Min(a: int, b: int): int { if b < a then b else a }

  function Max(a: int, b: int): int { if a < b then b else a }

  /** What the first scan of a layer learns about its tags. */
  datatype Census = Census(diagonal: int, fixedLeft: int, fixedRight: int, lastLeft: int, lastRight: int)

  function CensusOf(ts: seq<Tag>): Census {
    Census(Pairs(Diagonal, ts), Pairs(FixedLeft, ts), Pairs(FixedRight, ts), Last(ts, true), Last(ts, false))
  }

  /** The shortcut taken when n is a multiple of four and both capacities are n/2. */
  function BalancedQuotas(n: nat, c: Census): Quotas {
    var d := c.diagonal / 2;
    Quotas(d, n / 4 - c.fixedLeft - d, n / 4 - c.fixedRight - c.diagonal + d)
  }

  /** The two ends of the interval the diagonal quota is clipped to. */
  function DiagonalMin(n: nat, nLeft: nat, nRight: nat, c: Census): int {
    var split := SplitCapacities(n, nLeft, nRight);
    var targetLeft, targetRight := split.topLeft - c.lastLeft, split.topRight - c.lastRight;
    var variableLeft := nLeft - c.lastLeft - 2 * c.fixedLeft - c.diagonal;
    Max(Max(0, targetLeft - c.fixedLeft - variableLeft), c.fixedRight + c.diagonal - targetRight)
  }

  function DiagonalMax(n: nat, nLeft: nat, nRight: nat, c: Census): int {
    var split := SplitCapacities(n, nLeft, nRight);
    var targetLeft, targetRight := split.topLeft - c.lastLeft, split.topRight - c.lastRight;
    var variableRight := nRight - c.lastRight - 2 * c.fixedRight - c.diagonal;
    Min(Min(c.diagonal, targetLeft - c.fixedLeft), c.fixedRight + c.diagonal + variableRight - targetRight)
  }

  function GeneralQuotas(n: nat, nLeft: nat, nRight: nat, c: Census): Quotas {
    var split := SplitCapacities(n, nLeft, nRight);
    var targetLeft, targetRight := split.topLeft - c.lastLeft, split.topRight - c.lastRight;
    var d := Min(DiagonalMax(n, nLeft, nRight, c), Max(DiagonalMin(n, nLeft, nRight, c), c.diagonal / 2));
    Quotas(d, targetLeft - c.fixedLeft - d, targetRight - c.fixedRight - c.diagonal + d)
  }

  predicate Balanced(n: nat, nLeft: nat, nRight: nat) {
    n % 4 == 0 && nLeft == n / 2 && nRight == n / 2
  }

  function ChooseQuotas(n: nat, nLeft: nat, nRight: nat, c: Census): Quotas {
    if Balanced(n, nLeft, nRight) then BalancedQuotas(n, c) else GeneralQuotas(n, nLeft, nRight, c)
  }

  /** The tags weigh exactly the two capacities, and the capacities fill the lanes. */
  predicate Exact(ts: seq<Tag>, nLeft: nat, nRight: nat) {
    |ts| == nLeft + nRight && Weight(ts, true) == nLeft && Weight(ts, false) == nRight
  }

  /** A census the layer can meet: exact capacities leave vl and vr variable pairs on the two sides. */
  predicate Consistent(n: nat, nLeft: nat, nRight: nat, c: Census, vl: nat, vr: nat) {
    && n == nLeft + nRight
    && 0 <= c.diagonal && 0 <= c.fixedLeft && 0 <= c.fixedRight
    && 0 <= c.lastLeft <= n % 2 && 0 <= c.lastRight <= n % 2
    && nLeft == 2 * c.fixedLeft + c.diagonal + vl + c.lastLeft
    && nRight == 2 * c.fixedRight + c.diagonal + vr + c.lastRight
  }

  /** The clipping interval is never empty: for every length, parity, capacity and last tag. */
  lemma QuotaIntervalNonempty(n: nat, nLeft: nat, nRight: nat, c: Census, vl: nat, vr: nat)
    requires Consistent(n, nLeft, nRight, c, vl, vr)
    ensures 0 <= DiagonalMin(n, nLeft, nRight, c) <= DiagonalMax(n, nLeft, nRight, c) <= c.diagonal
  {
  }

  /** The shortcut computes the clipped quotas. */
  lemma BalancedIsGeneral(n: nat, nLeft: nat, nRight: nat, c: Census, vl: nat, vr: nat)
    requires Consistent(n, nLeft, nRight, c, vl, vr) && Balanced(n, nLeft, nRight)
    ensures BalancedQuotas(n, c) == GeneralQuotas(n, nLeft, nRight, c)
  {
  }

  /** Every quota lies between zero and the number of pairs it is spent on. */
  lemma QuotasFeasible(n: nat, nLeft: nat, nRight: nat, c: Census, vl: nat, vr: nat)
    requires Consistent(n, nLeft, nRight, c, vl, vr)
    ensures var q := ChooseQuotas(n, nLeft, nRight, c);
            0 <= q.diagonal <= c.diagonal && 0 <= q.left <= vl && 0 <= q.right <= vr
  {
    QuotaIntervalNonempty(n, nLeft, nRight, c, vl, vr);
    if Balanced(n, nLeft, nRight) {
      BalancedIsGeneral(n, nLeft, nRight, c, vl, vr);
    }
    var d := GeneralQuotas(n, nLeft, nRight, c).diagonal;
    assert DiagonalMin(n, nLeft, nRight, c) <= d <= DiagonalMax(n, nLeft, nRight, c);
  }

  /**
   * Spending d diagonal pairs on the left leaves quotas the layer can meet: the even lanes take the larger half of each
   * capacity, and every quota is at least zero and at most the pairs it is spent on.
   */
  predicate Feasible(n: nat, nLeft: nat, c: Census, vl: nat, vr: nat, d: int) {
    var topLeft := (nLeft + 1) / 2;
    var left := topLeft - c.lastLeft - c.fixedLeft - d;
    var right := (n + 1) / 2 - topLeft - c.lastRight - c.fixedRight - (c.diagonal - d);
    0 <= d <= c.diagonal && 0 <= left <= vl && 0 <= right <= vr
  }

  /** How far from an even split of the diagonal pairs a quota is. */
  function Skew(c: Census, d: int): int {
    var gap := 2 * d - c.diagonal;
    if gap < 0 then -gap else gap
  }

  /**
   * Which quotas are chosen: the diagonal quota splits the diagonal pairs as evenly as any feasible quota does, the
   * smaller one on a tie, and it fixes the other two.
   */
  lemma QuotasAreEvenest(n: nat, nLeft: nat, nRight: nat, c: Census, vl: nat, vr: nat)
    requires Consistent(n, nLeft, nRight, c, vl, vr)
    ensures var q, topLeft := ChooseQuotas(n, nLeft, nRight, c), (nLeft + 1) / 2;
            && Feasible(n, nLeft, c, vl, vr, q.diagonal)
            && q.left == topLeft - c.lastLeft - c.fixedLeft - q.diagonal
            && q.right == (n + 1) / 2 - topLeft - c.lastRight - c.fixedRight - (c.diagonal - q.diagonal)
            && forall d {:trigger Feasible(n, nLeft, c, vl, vr, d)} :: Feasible(n, nLeft, c, vl, vr, d) ==>
                 Skew(c, q.diagonal) < Skew(c, d) || (Skew(c, q.diagonal) == Skew(c, d) && q.diagonal <= d)
  {
    hide Feasible, Skew, ChooseQuotas, DiagonalMin, DiagonalMax;
    ChosenQuotas(n, nLeft, nRight, c, vl, vr);
    forall d {:trigger Feasible(n, nLeft, c, vl, vr, d)} | Feasible(n, nLeft, c, vl, vr, d)
      ensures var q := ChooseQuotas(n, nLeft, nRight, c);
              Skew(c, q.diagonal) < Skew(c, d) || (Skew(c, q.diagonal) == Skew(c, d) && q.diagonal <= d)
    {
      FeasibleInside(n, nLeft, nRight, c, vl, vr, d);
      Clipped(c, DiagonalMin(n, nLeft, nRight, c), DiagonalMax(n, nLeft, nRight, c), d);
    }
  }

  lemma ChosenQuotas(n: nat, nLeft: nat, nRight: nat, c: Census, vl: nat, vr: nat)
    requires Consistent(n, nLeft, nRight, c, vl, vr)
    ensures var q, topLeft := ChooseQuotas(n, nLeft, nRight, c), (nLeft + 1) / 2;
            && Feasible(n, nLeft, c, vl, vr, q.diagonal)
            && q.left == topLeft - c.lastLeft - c.fixedLeft - q.diagonal
            && q.right == (n + 1) / 2 - topLeft - c.lastRight - c.fixedRight - (c.diagonal - q.diagonal)
            && q.diagonal
               == Min(DiagonalMax(n, nLeft, nRight, c), Max(DiagonalMin(n, nLeft, nRight, c), c.diagonal / 2))
  {
    QuotasFeasible(n, nLeft, nRight, c, vl, vr);
    if Balanced(n, nLeft, nRight) {
      BalancedIsGeneral(n, nLeft, nRight, c, vl, vr);
    }
  }

  /** Clipping the floor of the half to an interval gives its point nearest to the half. */
  lemma Clipped(c: Census, lo: int, hi: int, d: int)
    requires lo <= d <= hi
    ensures var e := Min(hi, Max(lo, c.diagonal / 2));
            Skew(c, e) < Skew(c, d) || (Skew(c, e) == Skew(c, d) && e <= d)
  {
  }

  lemma FeasibleInside(n: nat, nLeft: nat, nRight: nat, c: Census, vl: nat, vr: nat, d: int)
    requires Consistent(n, nLeft, nRight, c, vl, vr) && Feasible(n, nLeft, c, vl, vr, d)
    ensures DiagonalMin(n, nLeft, nRight, c) <= d <= DiagonalMax(n, nLeft, nRight, c)
  {
  }

  /** Exact tags always have a consistent census. */
  lemma ExactIsConsistent(ts: seq<Tag>, nLeft: nat, nRight: nat)
    requires Exact(ts, nLeft, nRight)
    ensures Consistent(|ts|, nLeft, nRight, CensusOf(ts), Pairs(VariableLeft, ts), Pairs(VariableRight, ts))
  {
    PairWeights(ts, true);
    PairWeights(ts, false);
  }

  /** One layer as the network runs it: tags and quotas of a node with the given left capacity. */
  function NodeQuotas(ts: seq<Tag>, nLeft: nat): Quotas
    requires nLeft <= |ts|
  {
    ChooseQuotas(|ts|, nLeft, |ts| - nLeft, CensusOf(ts))
  }

  /** Both formulas aim at the top capacities. */
  lemma QuotasMeetTargets(n: nat, nLeft: nat, nRight: nat, c: Census)
    requires n == nLeft + nRight && (n % 2 == 0 ==> c.lastLeft == 0 && c.lastRight == 0)
    ensures var q := ChooseQuotas(n, nLeft, nRight, c);
            var split := SplitCapacities(n, nLeft, nRight);
            && c.lastLeft + c.fixedLeft + q.diagonal + q.left == split.topLeft
            && c.lastRight + c.fixedRight + c.diagonal - q.diagonal + q.right == split.topRight
  {
  }

  /** A feasible layer gives the even lanes exactly the top capacity of either side. */
  lemma EvenShareIsTarget(ts: seq<Tag>, nLeft: nat, nRight: nat, left: bool)
    requires Exact(ts, nLeft, nRight)
    ensures var split := SplitCapacities(|ts|, nLeft, nRight);
            EvenShare(ts, NodeQuotas(ts, nLeft), left) == if left then split.topLeft else split.topRight
  {
    hide GeneralQuotas, BalancedQuotas, ChooseQuotas, SplitCapacities, Pairs, Last, EvenShare;
    var n, c := |ts|, CensusOf(ts);
    ExactIsConsistent(ts, nLeft, nRight);
    QuotasFeasible(n, nLeft, nRight, c, Pairs(VariableLeft, ts), Pairs(VariableRight, ts));
    QuotasMeetTargets(n, nLeft, nRight, c);
    var q := NodeQuotas(ts, nLeft);
    assert q == ChooseQuotas(n, nLeft, nRight, c);
    FeasibleShare(ts, q, left);
  }

  /** Feasible quotas are spent in full. */
  lemma FeasibleShare(ts: seq<Tag>, q: Quotas, left: bool)
    requires 0 <= q.diagonal <= Pairs(Diagonal, ts)
    requires 0 <= q.left <= Pairs(VariableLeft, ts) && 0 <= q.right <= Pairs(VariableRight, ts)
    ensures EvenShare(ts, q, left)
         == if left then Last(ts, true) + Pairs(FixedLeft, ts) + q.diagonal + q.left
            else Last(ts, false) + Pairs(FixedRight, ts) + Pairs(Diagonal, ts) - q.diagonal + q.right
  {
  }

  /** A layer conserves the weight of each side: conservation of a bag of units. */
  lemma LayerWeight(ts: seq<Tag>, q: Quotas, left: bool)
    ensures Weight(BalanceTags(ts, q), left) == Weight(ts, left)
  {
    var units := Repeat((), |ts|);
    LayerConserves(ts, q, units, left);
    BagSize(Side(ts, left), units);
    BagSize(Side(BalanceTags(ts, q), left), Layer(BalanceControls(ts, q), units));
  }

  lemma LaneWeights(ts: seq<Tag>, q: Quotas, left: bool)
    ensures var ts' := BalanceTags(ts, q);
            && Weight(Evens(ts'), left) == EvenShare(ts, q, left)
            && Weight(Evens(ts'), left) + Weight(Odds(ts'), left) == Weight(ts, left)
  {
    var ts' := BalanceTags(ts, q);
    EvenWeights(ts, q, left);
    LayerWeight(ts, q, left);
    CountLanes(Side(ts', left));
    assert Evens(Side(ts', left)) == Side(Evens(ts'), left);
    assert Odds(Side(ts', left)) == Side(Odds(ts'), left);
  }

  /** After a layer the even lanes weigh exactly the top capacities and the odd lanes the bottom ones. */
  lemma LayerSplitsExactly(ts: seq<Tag>, nLeft: nat, nRight: nat)
    requires Exact(ts, nLeft, nRight)
    ensures var split := SplitCapacities(|ts|, nLeft, nRight);
            var ts' := BalanceTags(ts, NodeQuotas(ts, nLeft));
            && 0 <= split.topLeft && 0 <= split.topRight && 0 <= split.bottomLeft && 0 <= split.bottomRight
            && Exact(Evens(ts'), split.topLeft, split.topRight)
            && Exact(Odds(ts'), split.bottomLeft, split.bottomRight)
  {
    hide NodeQuotas, BalanceTags, EvenShare, Weight, SplitCapacities;
    var q := NodeQuotas(ts, nLeft);
    var ts' := BalanceTags(ts, q);
    EvenShareIsTarget(ts, nLeft, nRight, true);
    EvenShareIsTarget(ts, nLeft, nRight, false);
    LaneWeights(ts, q, true);
    LaneWeights(ts, q, false);
    SplitSums(|ts|, nLeft, nRight);
    LaneSizes(ts');
  }

  lemma SplitSums(n: nat, nLeft: nat, nRight: nat)
    requires n == nLeft + nRight
    ensures var split := SplitCapacities(n, nLeft, nRight);
            && 0 <= split.topLeft && 0 <= split.topRight && 0 <= split.bottomLeft && 0 <= split.bottomRight
            && split.topLeft + split.topRight == (n + 1) / 2 && split.bottomLeft + split.bottomRight == n / 2
            && split.topLeft + split.bottomLeft == nLeft && split.topRight + split.bottomRight == nRight
  {
  }

  lemma LaneSizes<T>(s: seq<T>)
    ensures |Evens(s)| == (|s| + 1) / 2 && |Odds(s)| == |s| / 2
  {
  }
}
