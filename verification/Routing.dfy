/** The fork-routing network: its control tape, its replay on records, and why the replay routes. */
module Routing {
  import opened Lanes
  import opened Tags
  import opened LayerQuotas

  /** Left capacities of the children on the even and on the odd lanes. */
  function TopLeft(nLeft: nat): nat { (nLeft + 1) / 2 }

  function BottomLeft(nLeft: nat): nat { nLeft / 2 }

  /** A node with nothing to place on one side has no gates. */
  predicate Trivial(n: nat, nLeft: nat)
    requires nLeft <= n
  {
    nLeft == 0 || nLeft == n
  }

  /** Gates of a node and everything below it. */
  function TapeLength(n: nat, nLeft: nat): nat
    requires nLeft <= n
    decreases n
  {
    if Trivial(n, nLeft) then 0
    else if n == 2 then 1
    else n / 2 + TapeLength((n + 1) / 2, TopLeft(nLeft)) + TapeLength(n / 2, BottomLeft(nLeft))
  }

  /** The tags a node's own layer leaves, and the controls it writes. */
  function NodeTags(ts: seq<Tag>, nLeft: nat): (r: seq<Tag>)
    requires nLeft <= |ts|
    ensures |r| == |ts|
  {
    BalanceTags(ts, NodeQuotas(ts, nLeft))
  }

  function NodeControls(ts: seq<Tag>, nLeft: nat): (r: seq<Control>)
    requires nLeft <= |ts|
    ensures |r| == |ts| / 2
  {
    BalanceControls(ts, NodeQuotas(ts, nLeft))
  }

  /** The control tape: a node's own layer, then the even lanes' subtree, then the odd lanes'. */
  function Tape(ts: seq<Tag>, nLeft: nat): seq<Control>
    requires nLeft <= |ts|
    decreases |ts|
  {
    if Trivial(|ts|, nLeft) then []
    else if |ts| == 2 then [PairControl(ts[0])]
    else
      var ts' := NodeTags(ts, nLeft);
      NodeControls(ts, nLeft) + Tape(Evens(ts'), TopLeft(nLeft)) + Tape(Odds(ts'), BottomLeft(nLeft))
  }

  /** The tape fills exactly the gates counted for its shape. */
  lemma {:induction false} TapeFits(ts: seq<Tag>, nLeft: nat)
    requires nLeft <= |ts|
    ensures |Tape(ts, nLeft)| == TapeLength(|ts|, nLeft)
    decreases |ts|
  {
    if !Trivial(|ts|, nLeft) && |ts| != 2 {
      var ts' := NodeTags(ts, nLeft);
      var a, b := Evens(ts'), Odds(ts');
      TapeFits(a, TopLeft(nLeft));
      TapeFits(b, BottomLeft(nLeft));
      assert |Tape(ts, nLeft)| == |ts| / 2 + |Tape(a, TopLeft(nLeft))| + |Tape(b, BottomLeft(nLeft))|;
    }
  }

  /** Two lanes, one responsibility a side: the control is the complement of the first tag. */
  function PairControl(x: Tag): Control {
    Control(!x.left, !x.right)
  }

  /** Replay of a tape, in the depth-first order it was written in. */
  function Apply<R>(tape: seq<Control>, rs: seq<R>, nLeft: nat): (out: seq<R>)
    requires nLeft <= |rs| && |tape| == TapeLength(|rs|, nLeft)
    ensures |out| == |rs|
    decreases |rs|
  {
    hide TapeLength, Layer, Interleave, Evens, Odds, Trivial, TopLeft, BottomLeft;
    TapeHalves(|rs|, nLeft);
    var n := |rs|;
    if Trivial(n, nLeft) then rs
    else if n == 2 then Layer(tape, rs)
    else
      var mid := Layer(tape[..n / 2], rs);
      var split := n / 2 + TapeLength((n + 1) / 2, TopLeft(nLeft));
      Interleave(Apply(tape[n / 2..split], Evens(mid), TopLeft(nLeft)),
                 Apply(tape[split..], Odds(mid), BottomLeft(nLeft)))
  }

  /** A node with gates below its own layer has two smaller children, whose gates follow its own. */
  lemma TapeHalves(n: nat, nLeft: nat)
    requires nLeft <= n
    ensures !Trivial(n, nLeft) && n == 2 ==> TapeLength(n, nLeft) == 1
    ensures !Trivial(n, nLeft) && n != 2 ==>
              && TopLeft(nLeft) <= (n + 1) / 2 < n && BottomLeft(nLeft) <= n / 2 < n
              && TapeLength(n, nLeft)
                 == n / 2 + TapeLength((n + 1) / 2, TopLeft(nLeft)) + TapeLength(n / 2, BottomLeft(nLeft))
  {
  }

  lemma TapeLengthUnfold(n: nat, nLeft: nat)
    requires nLeft <= n
    ensures Trivial(n, nLeft) ==> TapeLength(n, nLeft) == 0
    ensures !Trivial(n, nLeft) && n == 2 ==> TapeLength(n, nLeft) == 1
    ensures !Trivial(n, nLeft) && n != 2 ==>
              && 2 < n
              && TapeLength(n, nLeft) == n / 2 + TapeLength((n + 1) / 2, (nLeft + 1) / 2) + TapeLength(n / 2, nLeft / 2)
  {
  }

  lemma ApplyTrivial<R>(tape: seq<Control>, rs: seq<R>, nLeft: nat)
    requires nLeft <= |rs| && Trivial(|rs|, nLeft) && tape == []
    ensures TapeLength(|rs|, nLeft) == 0 && Apply(tape, rs, nLeft) == rs
  {
  }

  lemma ApplyPair<R>(tape: seq<Control>, rs: seq<R>)
    requires |rs| == 2 && |tape| == 1
    ensures TapeLength(2, 1) == 1 && Apply(tape, rs, 1) == Layer(tape, rs)
  {
  }

  /** The tags once every layer has run: the left lanes, then the right lanes. */
  function Sorted(n: nat, nLeft: nat): (r: seq<Tag>)
    requires nLeft <= n
    ensures |r| == n
  {
    Repeat(LEFT, nLeft) + Repeat(RIGHT, n - nLeft)
  }

  /** Interleaving two sorted children is sorted again: the left lanes stay a contiguous prefix. */
  lemma InterleaveSorted(n: nat, nLeft: nat)
    requires nLeft <= n && TopLeft(nLeft) <= (n + 1) / 2
    ensures Interleave(Sorted((n + 1) / 2, TopLeft(nLeft)), Sorted(n / 2, BottomLeft(nLeft))) == Sorted(n, nLeft)
  {
  }

  /** Exact weights with an empty side leave only one possible tag for every lane. */
  lemma TrivialTags(ts: seq<Tag>, nLeft: nat, left: bool)
    requires nLeft <= |ts| && Exact(ts, nLeft, |ts| - nLeft) && Trivial(|ts|, nLeft)
    ensures Side(ts, left) == Side(Sorted(|ts|, nLeft), left)
  {
    CountBounds(Side(ts, true));
    CountBounds(Side(ts, false));
    assert forall i :: 0 <= i < |ts| ==> ts[i].left == Side(ts, true)[i] && ts[i].right == Side(ts, false)[i];
  }

  /** Two exact tags are complements; the gate writes the left record first. */
  lemma PairRoutes<R>(ts: seq<Tag>, rs: seq<R>, left: bool)
    requires |ts| == |rs| == 2 && Exact(ts, 1, 1)
    ensures Bag(Side(Sorted(2, 1), left), Layer([PairControl(ts[0])], rs)) == Bag(Side(ts, left), rs)
  {
    WeightCons(ts, true);
    WeightCons(ts, false);
    WeightCons(ts[1..], true);
    WeightCons(ts[1..], false);
    BagPair(Side(ts, left), rs);
    BagPair(Side(Sorted(2, 1), left), Layer([PairControl(ts[0])], rs));
  }

  lemma BagPair<R>(sel: seq<bool>, rs: seq<R>)
    requires |sel| == |rs| == 2
    ensures Bag(sel, rs) == (if sel[0] then multiset{rs[0]} else multiset{})
            + (if sel[1] then multiset{rs[1]} else multiset{})
  {
    assert sel[1..][1..] == [] && rs[1..][1..] == [];
    assert Bag(sel[1..], rs[1..]) == if sel[1] then multiset{rs[1]} else multiset{};
  }

  /** Replay of a node whose tape is given in its three parts. */
  lemma ApplyNode<R>(layer: seq<Control>, top: seq<Control>, bottom: seq<Control>, rs: seq<R>, nLeft: nat)
    requires nLeft <= |rs| && !Trivial(|rs|, nLeft) && |rs| != 2 && |layer| == |rs| / 2
    requires |top| == TapeLength((|rs| + 1) / 2, TopLeft(nLeft)) && |bottom| == TapeLength(|rs| / 2, BottomLeft(nLeft))
    ensures |layer + top + bottom| == TapeLength(|rs|, nLeft)
    ensures Apply(layer + top + bottom, rs, nLeft)
         == Interleave(Apply(top, Evens(Layer(layer, rs)), TopLeft(nLeft)),
                       Apply(bottom, Odds(Layer(layer, rs)), BottomLeft(nLeft)))
  {
    var tape := layer + top + bottom;
    assert |tape| == TapeLength(|rs|, nLeft);
    TapeParts(layer, top, bottom);
  }

  /** Replaying the tape conserves both bags and ends with sorted tags. */
  lemma {:induction false} ReplayConserves<R>(ts: seq<Tag>, rs: seq<R>, nLeft: nat, left: bool)
    requires |ts| == |rs| && nLeft <= |ts| && Exact(ts, nLeft, |ts| - nLeft)
    ensures |Tape(ts, nLeft)| == TapeLength(|ts|, nLeft)
    ensures Bag(Side(Sorted(|ts|, nLeft), left), Apply(Tape(ts, nLeft), rs, nLeft)) == Bag(Side(ts, left), rs)
    decreases |ts|
  {
    TapeFits(ts, nLeft);
    var n := |ts|;
    if Trivial(n, nLeft) {
      TrivialTags(ts, nLeft, left);
    } else if n == 2 {
      PairRoutes(ts, rs, left);
    } else {
      var ts', layer := NodeTags(ts, nLeft), NodeControls(ts, nLeft);
      var mid := Layer(layer, rs);
      NodeSplitsExactly(ts, nLeft);
      TapeFits(Evens(ts'), TopLeft(nLeft));
      TapeFits(Odds(ts'), BottomLeft(nLeft));
      var top, bottom := Tape(Evens(ts'), TopLeft(nLeft)), Tape(Odds(ts'), BottomLeft(nLeft));
      ReplayConserves(Evens(ts'), Evens(mid), TopLeft(nLeft), left);
      ReplayConserves(Odds(ts'), Odds(mid), BottomLeft(nLeft), left);
      ApplyNode(layer, top, bottom, rs, nLeft);
      NodeConserves(ts, rs, nLeft, left);
      JoinConserves(ts', mid, Apply(top, Evens(mid), TopLeft(nLeft)), Apply(bottom, Odds(mid), BottomLeft(nLeft)),
                    nLeft, left);
    }
  }

  lemma NodeConserves<R>(ts: seq<Tag>, rs: seq<R>, nLeft: nat, left: bool)
    requires |ts| == |rs| && nLeft <= |ts|
    ensures Bag(Side(NodeTags(ts, nLeft), left), Layer(NodeControls(ts, nLeft), rs)) == Bag(Side(ts, left), rs)
  {
    LayerConserves(ts, NodeQuotas(ts, nLeft), rs, left);
  }

  lemma NodeSplitsExactly(ts: seq<Tag>, nLeft: nat)
    requires nLeft <= |ts| && Exact(ts, nLeft, |ts| - nLeft)
    ensures var a, b := Evens(NodeTags(ts, nLeft)), Odds(NodeTags(ts, nLeft));
            && TopLeft(nLeft) <= |a| && Exact(a, TopLeft(nLeft), |a| - TopLeft(nLeft))
            && BottomLeft(nLeft) <= |b| && Exact(b, BottomLeft(nLeft), |b| - BottomLeft(nLeft))
  {
    hide Exact, BalanceTags, NodeQuotas, SplitCapacities, TopLeft, BottomLeft, Evens, Odds;
    LayerSplitsExactly(ts, nLeft, |ts| - nLeft);
    SplitSums(|ts|, nLeft, |ts| - nLeft);
    LaneSizes(NodeTags(ts, nLeft));
    SplitOf(|ts|, nLeft);
  }

  lemma SplitOf(n: nat, nLeft: nat)
    requires nLeft <= n
    ensures var split := SplitCapacities(n, nLeft, n - nLeft);
            split.topLeft == TopLeft(nLeft) && split.bottomLeft == BottomLeft(nLeft)
  {
  }

  /** Two sorted children, interleaved, hold the bag of the lanes they came from. */
  lemma JoinConserves<R>(ts: seq<Tag>, mid: seq<R>, a: seq<R>, b: seq<R>, nLeft: nat, left: bool)
    requires |ts| == |mid| && nLeft <= |ts| && |a| == |Evens(ts)| && |b| == |Odds(ts)|
    requires TopLeft(nLeft) <= |a| && BottomLeft(nLeft) <= |b|
    requires Bag(Side(Sorted(|a|, TopLeft(nLeft)), left), a) == Bag(Side(Evens(ts), left), Evens(mid))
    requires Bag(Side(Sorted(|b|, BottomLeft(nLeft)), left), b) == Bag(Side(Odds(ts), left), Odds(mid))
    ensures Bag(Side(Sorted(|ts|, nLeft), left), Interleave(a, b)) == Bag(Side(ts, left), mid)
  {
    hide Bag, Side, Sorted, Interleave, Evens, Odds, BottomLeft;
    assert |a| == (|ts| + 1) / 2 && |b| == |ts| / 2 && |a| + |b| == |ts|;
    var sa, sb, s := Sorted(|a|, TopLeft(nLeft)), Sorted(|b|, BottomLeft(nLeft)), Sorted(|ts|, nLeft);
    InterleaveSorted(|ts|, nLeft);
    assert Interleave(sa, sb) == s;
    SplitInterleave(sa, sb);
    JoinBags(ts, mid, a, b, s, sa, sb, left);
  }

  lemma JoinBags<R>(ts: seq<Tag>, mid: seq<R>, a: seq<R>, b: seq<R>, s: seq<Tag>, sa: seq<Tag>, sb: seq<Tag>,
                    left: bool)
    requires |ts| == |mid| == |s| == |a| + |b| && |b| <= |a| <= |b| + 1
    requires Evens(s) == sa && Odds(s) == sb && |sa| == |a| && |sb| == |b|
    requires Bag(Side(sa, left), a) == Bag(Side(Evens(ts), left), Evens(mid))
    requires Bag(Side(sb, left), b) == Bag(Side(Odds(ts), left), Odds(mid))
    ensures Bag(Side(s, left), Interleave(a, b)) == Bag(Side(ts, left), mid)
  {
    hide Bag, Side, Interleave, Evens, Odds;
    BagOfLanes(mid, ts, left);
    SplitInterleave(a, b);
    BagOfLanes(Interleave(a, b), s, left);
  }

  lemma TapeParts(layer: seq<Control>, top: seq<Control>, bottom: seq<Control>)
    ensures var tape := layer + top + bottom;
            && tape[..|layer|] == layer
            && tape[|layer|..|layer| + |top|] == top
            && tape[|layer| + |top|..] == bottom
  {
  }

  lemma BagOfLanes<R>(rs: seq<R>, ts: seq<Tag>, left: bool)
    requires |ts| == |rs|
    ensures Bag(Side(ts, left), rs) == Bag(Side(Evens(ts), left), Evens(rs)) + Bag(Side(Odds(ts), left), Odds(rs))
  {
    BagLanes(Side(ts, left), rs);
    SideLanes(ts, left);
  }

  lemma SideLanes(ts: seq<Tag>, left: bool)
    ensures Evens(Side(ts, left)) == Side(Evens(ts), left)
    ensures Odds(Side(ts, left)) == Side(Odds(ts), left)
  {
  }

  /** Sorted tags select the prefix and the suffix. */
  lemma SortedBags<R>(rs: seq<R>, nLeft: nat)
    requires nLeft <= |rs|
    ensures Bag(Side(Sorted(|rs|, nLeft), true), rs) == multiset(rs[..nLeft])
    ensures Bag(Side(Sorted(|rs|, nLeft), false), rs) == multiset(rs[nLeft..])
  {
    hide Side, Sorted, Bag, Repeat;
    var n := |rs|;
    assert rs[..nLeft] + rs[nLeft..] == rs;
    SortedSide(n, nLeft, true);
    SortedSide(n, nLeft, false);
    BagAppend(Repeat(true, nLeft), Repeat(false, n - nLeft), rs[..nLeft], rs[nLeft..]);
    BagAppend(Repeat(false, nLeft), Repeat(true, n - nLeft), rs[..nLeft], rs[nLeft..]);
    BagConstant(Repeat(true, nLeft), rs[..nLeft], true);
    BagConstant(Repeat(false, nLeft), rs[..nLeft], false);
    BagConstant(Repeat(true, n - nLeft), rs[nLeft..], true);
    BagConstant(Repeat(false, n - nLeft), rs[nLeft..], false);
  }

  lemma SortedSide(n: nat, nLeft: nat, left: bool)
    requires nLeft <= n
    ensures Side(Sorted(n, nLeft), left) == Repeat(left, nLeft) + Repeat(!left, n - nLeft)
  {
  }

  /**
   * Routing theorem. For every length, every pair of capacities that fills it and every exact tagging, the replay puts
   * the left bag on the first nLeft lanes and the right bag on the others.
   */
  lemma NetworkRoutes<R>(ts: seq<Tag>, rs: seq<R>, nLeft: nat)
    requires |ts| == |rs| && nLeft <= |ts| && Exact(ts, nLeft, |ts| - nLeft)
    ensures |Tape(ts, nLeft)| == TapeLength(|ts|, nLeft)
    ensures var out := Apply(Tape(ts, nLeft), rs, nLeft);
            && multiset(out[..nLeft]) == Bag(Side(ts, true), rs)
            && multiset(out[nLeft..]) == Bag(Side(ts, false), rs)
  {
    ReplayConserves(ts, rs, nLeft, true);
    ReplayConserves(ts, rs, nLeft, false);
    var out := Apply(Tape(ts, nLeft), rs, nLeft);
    SortedBags(out, nLeft);
  }
}
