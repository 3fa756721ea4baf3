/** Routing tags, fork gates and the classification of a gate's two tags. */
module Tags {
  import opened Lanes

  /** A lane's responsibilities: must its record appear in the left output, in the right output? */
  datatype Tag = Tag(left: bool, right: bool) {
    function Side(left_side: bool): bool {
      if left_side then left else right
    }
  }

  const LEFT := Tag(true, false)
  const RIGHT := Tag(false, true)

  /** A gate control: which of the two outputs copy the second (bottom) input. */
  datatype Control = Control(topFromY: bool, bottomFromY: bool)

  function ForkTop<R>(c: Control, x: R, y: R): R {
    if c.topFromY then y else x
  }

  function ForkBottom<R>(c: Control, x: R, y: R): R {
    if c.bottomFromY then y else x
  }

  /** Kinds a pair of tags is counted under. One pair may be of several kinds. */
  datatype Kind = Diagonal | FixedLeft | FixedRight | VariableLeft | VariableRight

  /** The two tags are the two singletons, in either order. */
  predicate IsDiagonal(x: Tag, y: Tag) {
    x.left != y.left && x.right != y.right && x.left != x.right
  }

  predicate Is(k: Kind, x: Tag, y: Tag) {
    match k
    case Diagonal => IsDiagonal(x, y)
    case FixedLeft => x.left && y.left
    case FixedRight => x.right && y.right
    case VariableLeft => x.left != y.left && !IsDiagonal(x, y)
    case VariableRight => x.right != y.right && !IsDiagonal(x, y)
  }

  /** What is left of a layer's three quotas. */
  datatype Quotas = Quotas(diagonal: int, left: int, right: int)

  /** The tag handed to the top output of a pair. */
  function TopTag(x: Tag, y: Tag, q: Quotas): Tag {
    var useDiagonal := Is(Diagonal, x, y) && 0 < q.diagonal;
    Tag(Is(FixedLeft, x, y) || useDiagonal || (Is(VariableLeft, x, y) && 0 < q.left),
        Is(FixedRight, x, y) || (Is(Diagonal, x, y) && !useDiagonal) || (Is(VariableRight, x, y) && 0 < q.right))
  }

  /** The bottom output takes the responsibilities the top output did not: the exclusive or of all three. */
  function BottomTag(x: Tag, y: Tag, top: Tag): Tag {
    Tag((x.left != y.left) != top.left, (x.right != y.right) != top.right)
  }

  function Spend(x: Tag, y: Tag, q: Quotas): Quotas {
    Quotas(q.diagonal - Bit(Is(Diagonal, x, y)),
           q.left - Bit(Is(VariableLeft, x, y)),
           q.right - Bit(Is(VariableRight, x, y)))
  }

  /** The control of a pair whose top output must carry top. */
  function GateControl(x: Tag, y: Tag, top: Tag): Control {
    var straight := top == x;
    var cross := top == y && !straight;
    var forkY := y.left && !straight && !cross;
    Control(cross || forkY, straight || forkY)
  }

  /** The four-argument control, which tests the bottom tag as well as the top one. */
  function ForkControl(x: Tag, y: Tag, top: Tag, bottom: Tag): Control {
    var straight := top == x && bottom == y;
    var cross := top == y && bottom == x;
    var copyX := x == Tag(true, true) && y == Tag(false, false);
    var copyY := x == Tag(false, false) && y == Tag(true, true);
    var fork := (copyX || copyY) && ((top == LEFT && bottom == RIGHT) || (top == RIGHT && bottom == LEFT));
    if fork && !straight && !cross then Control(copyY, copyY)
    else if cross && !straight then Control(true, false)
    else Control(false, true)
  }

  /** Testing the top tag alone loses nothing: both controls agree on every split the balance layer makes. */
  lemma GateControlIsForkControl(x: Tag, y: Tag, q: Quotas)
    ensures var top := TopTag(x, y, q);
            GateControl(x, y, top) == ForkControl(x, y, top, BottomTag(x, y, top))
  {
  }

  /**
   * Which of its two records a gate hands out, for every tag its top output can be given: both stay when the top output
   * keeps its own tag, they change places when it takes the other one's, and otherwise one record has both
   * responsibilities, the other none, and both outputs get a copy of the first.
   */
  lemma ControlMeans<R>(x: Tag, y: Tag, q: Quotas, a: R, b: R)
    ensures var top := TopTag(x, y, q);
            var c := GateControl(x, y, top);
            var out := (ForkTop(c, a, b), ForkBottom(c, a, b));
            && (top == x ==> out == (a, b))
            && (top == y && top != x ==> out == (b, a))
            && (top != x && top != y ==>
                  && (x == Tag(true, true) && y == Tag(false, false) ==> out == (a, a))
                  && (x == Tag(false, false) && y == Tag(true, true) ==> out == (b, b))
                  && (x == Tag(true, true) || y == Tag(true, true))
                  && (x == Tag(false, false) || y == Tag(false, false)))
  {
  }

  /** The records a pair hands out, on one side: the copies its set tags ask for. */
  ghost function PairBag<R>(x: Tag, y: Tag, a: R, b: R, left: bool): multiset<R> {
    (if x.Side(left) then multiset{a} else multiset{}) + (if y.Side(left) then multiset{b} else multiset{})
  }

  /** Whatever the quotas, a gate conserves the left bag and the right bag of its two records. */
  lemma GateConserves<R>(x: Tag, y: Tag, q: Quotas, a: R, b: R, left: bool)
    ensures var top := TopTag(x, y, q);
            var c := GateControl(x, y, top);
            PairBag(top, BottomTag(x, y, top), ForkTop(c, a, b), ForkBottom(c, a, b), left)
            == PairBag(x, y, a, b, left)
  {
  }

  function Side(ts: seq<Tag>, left: bool): (r: seq<bool>)
    ensures |r| == |ts| && forall i :: 0 <= i < |ts| ==> r[i] == ts[i].Side(left)
  {
    seq(|ts|, i requires 0 <= i < |ts| => ts[i].Side(left))
  }

  function Weight(ts: seq<Tag>, left: bool): nat {
    Count(Side(ts, left))
  }

  /** How many of a layer's pairs are of kind k. An odd last tag belongs to no pair. */
  function Pairs(k: Kind, ts: seq<Tag>): nat {
    if |ts| < 2 then 0 else Bit(Is(k, ts[0], ts[1])) + Pairs(k, ts[2..])
  }

  /** The tags after one balance layer. */
  function BalanceTags(ts: seq<Tag>, q: Quotas): (r: seq<Tag>)
    ensures |r| == |ts|
  {
    if |ts| < 2 then ts
    else
      var top := TopTag(ts[0], ts[1], q);
      [top, BottomTag(ts[0], ts[1], top)] + BalanceTags(ts[2..], Spend(ts[0], ts[1], q))
  }

  /** The controls of one balance layer. */
  function BalanceControls(ts: seq<Tag>, q: Quotas): (r: seq<Control>)
    ensures |r| == |ts| / 2
  {
    if |ts| < 2 then []
    else [GateControl(ts[0], ts[1], TopTag(ts[0], ts[1], q))] + BalanceControls(ts[2..], Spend(ts[0], ts[1], q))
  }

  /** One layer of gates over adjacent lanes. */
  function Layer<R>(cs: seq<Control>, rs: seq<R>): (r: seq<R>)
    requires |cs| == |rs| / 2
    ensures |r| == |rs|
  {
    if |rs| < 2 then rs
    else [ForkTop(cs[0], rs[0], rs[1]), ForkBottom(cs[0], rs[0], rs[1])] + Layer(cs[1..], rs[2..])
  }

  lemma SidePair(ts: seq<Tag>, left: bool)
    requires 2 <= |ts|
    ensures Side(ts, left)[0] == ts[0].Side(left) && Side(ts, left)[1] == ts[1].Side(left)
    ensures Side(ts, left)[1..][1..] == Side(ts[2..], left)
  {
  }

  /** A layer conserves both bags of the records it moves, whatever its quotas. */
  lemma {:induction false} LayerConserves<R>(ts: seq<Tag>, q: Quotas, rs: seq<R>, left: bool)
    requires |ts| == |rs|
    ensures Bag(Side(BalanceTags(ts, q), left), Layer(BalanceControls(ts, q), rs)) == Bag(Side(ts, left), rs)
  {
    if |ts| >= 2 {
      var ts', rs' := BalanceTags(ts, q), Layer(BalanceControls(ts, q), rs);
      var q' := Spend(ts[0], ts[1], q);
      GateConserves(ts[0], ts[1], q, rs[0], rs[1], left);
      LayerConserves(ts[2..], q', rs[2..], left);
      SidePair(ts, left);
      SidePair(ts', left);
      assert ts'[2..] == BalanceTags(ts[2..], q');
      assert rs'[1..][1..] == Layer(BalanceControls(ts[2..], q'), rs[2..]);
      assert rs[1..][1..] == rs[2..];
    }
  }

  /** The responsibilities of the unpaired last tag of an odd layer. */
  function Last(ts: seq<Tag>, left: bool): nat {
    if |ts| % 2 == 1 then Bit(ts[|ts| - 1].Side(left)) else 0
  }

  lemma WeightCons(ts: seq<Tag>, left: bool)
    ensures ts != [] ==> Weight(ts, left) == Bit(ts[0].Side(left)) + Weight(ts[1..], left)
    ensures ts == [] ==> Weight(ts, left) == 0
  {
    if ts != [] {
      assert Side(ts, left)[1..] == Side(ts[1..], left);
    }
  }

  /** Fixed pairs weigh two on their side; diagonal and variable pairs weigh one. */
  lemma {:induction false} PairWeights(ts: seq<Tag>, left: bool)
    ensures Weight(ts, left) == 2 * Pairs(if left then FixedLeft else FixedRight, ts) + Pairs(Diagonal, ts)
                                + Pairs(if left then VariableLeft else VariableRight, ts) + Last(ts, left)
  {
    WeightCons(ts, left);
    if |ts| >= 2 {
      WeightCons(ts[1..], left);
      assert ts[1..][1..] == ts[2..];
      PairWeights(ts[2..], left);
    } else if |ts| == 1 {
      WeightCons(ts[1..], left);
    }
  }

  /** What a quota of value q spends on n candidates. */
  function Spent(q: int, n: nat): nat {
    if q < 0 then 0 else if q < n then q else n
  }

  lemma SpentStep(q: int, n: nat, b: bool)
    ensures Spent(q, Bit(b) + n) == Bit(b && 0 < q) + Spent(q - Bit(b), n)
  {
  }

  /** What the top output of the first pair weighs, counted by kind. */
  lemma TopWeight(x: Tag, y: Tag, q: Quotas)
    ensures Bit(TopTag(x, y, q).left) == Bit(Is(FixedLeft, x, y)) + Bit(Is(Diagonal, x, y) && 0 < q.diagonal)
                                         + Bit(Is(VariableLeft, x, y) && 0 < q.left)
    ensures Bit(TopTag(x, y, q).right) == Bit(Is(FixedRight, x, y)) + Bit(Is(Diagonal, x, y))
                                          - Bit(Is(Diagonal, x, y) && 0 < q.diagonal)
                                          + Bit(Is(VariableRight, x, y) && 0 < q.right)
  {
  }

  /** What the even lanes receive: the fixed bits, the spent quotas, the diagonals the quota did not claim. */
  function EvenShare(ts: seq<Tag>, q: Quotas, left: bool): int {
    var d := Spent(q.diagonal, Pairs(Diagonal, ts));
    if left then Last(ts, true) + Pairs(FixedLeft, ts) + d + Spent(q.left, Pairs(VariableLeft, ts))
    else Last(ts, false) + Pairs(FixedRight, ts) + Pairs(Diagonal, ts) - d + Spent(q.right, Pairs(VariableRight, ts))
  }

  lemma EvenShareStep(ts: seq<Tag>, q: Quotas, left: bool)
    requires 2 <= |ts|
    ensures EvenShare(ts, q, left)
         == Bit(TopTag(ts[0], ts[1], q).Side(left)) + EvenShare(ts[2..], Spend(ts[0], ts[1], q), left)
  {
    var x, y, rest, top := ts[0], ts[1], ts[2..], TopTag(ts[0], ts[1], q);
    assert Last(ts, left) == Last(rest, left);
    TopWeight(x, y, q);
    var d := Pairs(Diagonal, rest);
    assert Spent(q.diagonal, Pairs(Diagonal, ts))
        == Bit(Is(Diagonal, x, y) && 0 < q.diagonal) + Spent(q.diagonal - Bit(Is(Diagonal, x, y)), d) by {
      SpentStep(q.diagonal, d, Is(Diagonal, x, y));
    }
    if left {
      SpentStep(q.left, Pairs(VariableLeft, rest), Is(VariableLeft, x, y));
    } else {
      SpentStep(q.right, Pairs(VariableRight, rest), Is(VariableRight, x, y));
    }
  }

  lemma {:induction false} EvenWeights(ts: seq<Tag>, q: Quotas, left: bool)
    ensures Weight(Evens(BalanceTags(ts, q)), left) == EvenShare(ts, q, left)
  {
    var ts' := BalanceTags(ts, q);
    WeightCons(Evens(ts'), left);
    if |ts| >= 2 {
      var q' := Spend(ts[0], ts[1], q);
      EvenWeights(ts[2..], q', left);
      assert Evens(ts')[1..] == Evens(BalanceTags(ts[2..], q'));
      EvenShareStep(ts, q, left);
    } else if |ts| == 1 {
      WeightCons(Evens(ts')[1..], left);
    }
  }
}
