/**
 * The narrow lanes of the direct generator: wrapping counters and signed comparisons choose as the unbounded ranks do.
 */
module LaneCounters {
  import opened Lanes
  import opened Tags
  import opened TagBits

  // ----- one lane of a tile -----

  /** A lane of w values read as a signed number. */
  function Signed(v: nat, w: nat): int
    requires v < w
  {
    if 2 * v < w then v else v - w
  }

  /** The signed comparison of a lane, as the bit its mask leaves. */
  function Below(rank: nat, quota: nat, w: nat): bv8
    requires rank < w && quota < w
  {
    if Signed(quota, w) > Signed(rank, w) then 1 else 0
  }

  function WrapAt(x: int, w: nat): nat
    requires 0 < w
  {
    x % w
  }

  /** The control of a lane, from the masks of two equality tests. */
  function LaneControl(x: bv8, y: bv8, top: bv8): bv8 {
    var straight: bv8 := if top == x then 0xff else 0;
    var cross: bv8 := (if top == y then 0xff else 0) & !straight;
    var forkY := (y >> 1) & 1 & !(straight | cross);
    (((cross & 1) | forkY) << 1) | (straight & 1) | forkY
  }

  lemma LaneControlIs(x: bv8, y: bv8, top: bv8)
    requires x < 4 && y < 4 && top < 4
    ensures LaneControl(x, y, top) == GateControlForBalancedPair(x, y, top)
  {
  }

  lemma SmallWrap(x: int, w: nat)
    requires 0 <= x < w
    ensures WrapAt(x, w) == x
  {
  }

  /** At most one pair a gate. */
  lemma {:induction false} PairsBound(k: Kind, ts: seq<Tag>)
    ensures Pairs(k, ts) <= |ts| / 2
    decreases |ts|
  {
    if |ts| >= 2 {
      PairsBound(k, ts[2..]);
    }
  }

  /**
   * In a view no longer than a lane has values, every rank and quota is below half of them, so the signed test is the
   * test.
   */
  lemma NarrowTest(rank: nat, quota: nat, length: nat, w: nat)
    requires length <= w && 2 * rank < length && 4 * quota <= length && 0 < length
    ensures WrapAt(rank, w) == rank && WrapAt(quota, w) == quota
    ensures Below(rank, quota, w) == LessSize(rank, quota)
  {
    SmallWrap(rank, w);
    SmallWrap(quota, w);
  }

  // ----- the counters of a branch -----

  /** A branch counts in whole words, or in lanes that hold a number of values and wrap. */
  datatype Counter = Wide | Narrow(values: nat) {
    /** A view of this length can be counted. */
    predicate CanCount(length: nat) {
      0 < length && (Narrow? ==> length <= values)
    }

    function Up(v: nat, flag: nat): nat
      requires Narrow? ==> 0 < values
    {
      if Wide? then v + flag else WrapAt(v + flag, values)
    }

    function Reduce(v: int): int
      requires Narrow? ==> 0 < values
    {
      if Wide? then v else WrapAt(v, values)
    }

    /** The test rank below quota: of words, or of lanes read as signed numbers. */
    function Less(rank: nat, quota: nat): bv8
      requires Narrow? ==> rank < values && quota < values
    {
      if Wide? then LessSize(rank, quota) else Below(rank, quota, values)
    }
  }

  /** Counting pairs never wraps. */
  lemma UpFits(c: Counter, v: nat, flag: nat, length: nat)
    requires c.CanCount(length) && 2 * (v + flag) <= length
    ensures c.Up(v, flag) == v + flag
  {
    if c.Narrow? {
      SmallWrap(v + flag, c.values);
    }
  }

  lemma ReduceFits(c: Counter, v: nat, length: nat)
    requires c.CanCount(length) && 4 * v <= length
    ensures c.Reduce(v) == v
  {
    if c.Narrow? {
      SmallWrap(v, c.values);
    }
  }

  lemma LessFits(c: Counter, rank: nat, quota: nat, length: nat)
    requires c.CanCount(length) && 2 * rank < length && 4 * quota <= length
    ensures c.Narrow? ==> rank < c.values && quota < c.values
    ensures c.Less(rank, quota) == LessSize(rank, quota)
  {
    if c.Narrow? {
      NarrowTest(rank, quota, length, c.values);
    }
  }

  // ----- four gates at a time -----

  /** The lanes moved up by some places, zeros moved in. */
  function ShiftLanes(v: seq<int>, places: nat): (r: seq<int>)
    requires |v| == 4 && places < 4
    ensures |r| == 4
  {
    seq(places, _ => 0) + v[..4 - places]
  }

  function AddLanes(a: seq<int>, b: seq<int>): (r: seq<int>)
    requires |a| == |b| == 4
    ensures |r| == 4
  {
    [a[0] + b[0], a[1] + b[1], a[2] + b[2], a[3] + b[3]]
  }

  function TypeLanes(types: seq<bool>): (r: seq<int>)
    requires |types| == 4
    ensures |r| == 4
  {
    [Bit(types[0]), Bit(types[1]), Bit(types[2]), Bit(types[3])]
  }

  /** Ranks four gates by two shifted additions and spends the quota on them. */
  method PrefixChoice4(types: seq<bool>, remaining: int) returns (choice: seq<bool>, left: int)
    requires |types| == 4
    ensures |choice| == 4 && forall i :: 0 <= i < 4 ==> choice[i] == (types[i] && Count(types[..i]) < remaining)
    ensures left == remaining - Count(types)
  {
    var lanes := TypeLanes(types);
    var pairs := AddLanes(lanes, ShiftLanes(lanes, 1));
    var prefix := AddLanes(pairs, ShiftLanes(pairs, 2));
    var before := ShiftLanes(prefix, 1);
    FourCounts(types);
    assert before == [0, lanes[0], lanes[0] + lanes[1], lanes[0] + lanes[1] + lanes[2]];
    choice := [types[0] && remaining > before[0], types[1] && remaining > before[1], types[2] && remaining > before[2],
               types[3] && remaining > before[3]];
    left := remaining - prefix[3];
  }

  lemma FourCounts(types: seq<bool>)
    requires |types| == 4
    ensures Count(types[..0]) == 0 && Count(types[..1]) == Bit(types[0])
            && Count(types[..2]) == Bit(types[0]) + Bit(types[1])
    ensures Count(types[..3]) == Bit(types[0]) + Bit(types[1]) + Bit(types[2])
    ensures Count(types) == Bit(types[0]) + Bit(types[1]) + Bit(types[2]) + Bit(types[3])
  {
    assert types[..1] == [types[0]] && types[..2] == [types[0], types[1]]
      && types[..3] == [types[0], types[1], types[2]];
    assert types == [types[0], types[1], types[2], types[3]];
    CountFour(types[0], types[1], types[2], types[3]);
  }

  lemma CountFour(a: bool, b: bool, c: bool, d: bool)
    ensures Count([a]) == Bit(a) && Count([a, b]) == Bit(a) + Bit(b) && Count([a, b, c]) == Bit(a) + Bit(b) + Bit(c)
    ensures Count([a, b, c, d]) == Bit(a) + Bit(b) + Bit(c) + Bit(d)
  {
    hide Count;
    assert [a] + [b] == [a, b] && [a] + [b, c] == [a, b, c] && [a] + [b, c, d] == [a, b, c, d];
    assert [b] + [c] == [b, c] && [b] + [c, d] == [b, c, d] && [c] + [d] == [c, d];
    CountCons(a, []);
    CountCons(a, [b]);
    CountCons(b, []);
    CountCons(a, [b, c]);
    CountCons(b, [c]);
    CountCons(c, []);
    CountCons(a, [b, c, d]);
    CountCons(b, [c, d]);
    CountCons(c, [d]);
    CountCons(d, []);
  }

  lemma CountCons(a: bool, rest: seq<bool>)
    ensures Count([a] + rest) == Bit(a) + Count(rest) && Count([]) == 0
    ensures [a] + [] == [a]
  {
    assert ([a] + rest)[1..] == rest;
  }
}
