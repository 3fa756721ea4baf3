/** Where a postorder tape keeps each block's gates: the carry recurrence of the direct generator. */
module CarryStarts {
  import opened Products
  import opened Tags
  import opened Powers
  import opened Schedules
  import opened PostOrder

  /** Trailing zero bits. */
  function Ctz(m: nat): nat
    requires 0 < m
  {
    if m % 2 == 1 then 0 else 1 + Ctz(m / 2)
  }

  /** The start of block k's gates at depth d, as the generator steps from block to block. */
  function LayerStart(d: nat, k: nat): nat {
    if k == 0 then Pow2(d) * d
    else LayerStart(d, k - 1) + Pow2(d) * (d + 1 + Pow2(Ctz(k) + 1) - 2)
  }

  lemma {:induction false} CtzOfPower(j: nat)
    ensures Ctz(Pow2(j)) == j
  {
    if j > 0 {
      CtzOfPower(j - 1);
    }
  }

  /** A higher bit does not change the carry. */
  lemma {:induction false} CtzShift(m: nat, j: nat)
    requires 0 < m < Pow2(j)
    ensures Ctz(m + Pow2(j)) == Ctz(m)
  {
    if m % 2 == 0 {
      CtzShift(m / 2, j - 1);
      assert (m + Pow2(j)) / 2 == m / 2 + Pow2(j - 1);
    }
  }

  /** Gates in closed form: h layers of half as many gates as lanes. */
  lemma {:induction false} TwiceGates(h: nat)
    ensures 2 * Gates(h) == Pow2(h) * h
  {
    if h > 0 {
      TwiceGates(h - 1);
      assert Pow2(h) * h == 2 * (Pow2(h - 1) * (h - 1)) + 2 * Pow2(h - 1);
    }
  }

  /** After the last block of a subtree come its own gates and one join per level above. */
  lemma {:induction false} LastStart(d: nat, j: nat)
    ensures LayerStart(d, Pow2(j) - 1) + Pow2(d) * (2 * Pow2(j) - 1) == Gates(d + 1 + j)
    decreases j, 0
  {
    hide Pow2, LayerStart, Gates;
    var s := Pow2(d);
    Pow2Unfold(j);
    if j == 0 {
      SingleStart(d);
    } else {
      var half := Pow2(j - 1);
      ShiftStart(d, j - 1, half - 1);
      LastStart(d, j - 1);
      Pow2Sum(d, j);
      GatesUnfold(d + 1 + j);
      assert d + 1 + (j - 1) == d + j;
      LastSum(s, half, Gates(d + j), LayerStart(d, half - 1));
    }
  }

  lemma SingleStart(d: nat)
    ensures LayerStart(d, 0) + Pow2(d) == Gates(d + 1)
  {
    TwiceGates(d);
    assert LayerStart(d, 0) == Pow2(d) * d;
  }

  lemma LastSum(s: nat, half: nat, g: nat, start: nat)
    requires start + s * (2 * half - 1) == g
    ensures g + start + s * (2 * (2 * half) - 1) == s * (2 * half) + 2 * g
  {
  }

  /** The next subtree of the same height repeats the pattern, its own size further on. */
  lemma {:induction false} ShiftStart(d: nat, j: nat, k: nat)
    requires k < Pow2(j)
    ensures LayerStart(d, k + Pow2(j)) == Gates(d + 1 + j) + LayerStart(d, k)
    decreases j, 1, k
  {
    var s := Pow2(d);
    if k == 0 {
      LastStart(d, j);
      CtzOfPower(j);
      FirstSum(s, d, Pow2(j));
    } else {
      ShiftStart(d, j, k - 1);
      CtzShift(k, j);
    }
  }

  lemma FirstSum(s: nat, d: nat, p: nat)
    requires 0 < p
    ensures s * (d + 1 + 2 * p - 2) == s * (2 * p - 1) + s * d
  {
  }

  /** Lane index of a gate in its stage. */
  function GateIndex(d: nat, k: nat, r: nat): nat {
    k * Pow2(d) + r
  }

  /** Gate r of block k exists at depth d. */
  predicate IsGate(h: nat, d: nat, k: nat, r: nat) {
    d < h && k < Pow2(h - 1 - d) && r < Pow2(d)
  }

  /** Where that gate is on the postorder tape. */
  function Position(d: nat, k: nat, r: nat): nat {
    LayerStart(d, k) + r
  }

  lemma GateIndexBound(d: nat, e: nat, k: nat, r: nat)
    requires k < Pow2(e) && r < Pow2(d)
    ensures GateIndex(d, k, r) < Pow2(e + d)
  {
    Pow2Sum(e, d);
    assert (k + 1) * Pow2(d) <= Pow2(e) * Pow2(d) by {
      Monotone(k + 1, Pow2(e), Pow2(d));
    }
  }

  /** The tape holds the stage's control for a gate at the gate's position. */
  ghost predicate Holds(h: nat, ls: seq<seq<Control>>, tape: seq<Control>, d: nat, k: nat, r: nat)
    requires IsLevels(h, ls) && d < h
  {
    && GateIndex(d, k, r) < Pow2(h - 1) && Position(d, k, r) < |tape|
    && tape[Position(d, k, r)] == ls[d][GateIndex(d, k, r)]
  }

  /** The postorder tape holds gate r of block k at depth d at the carry recurrence's start plus r. */
  lemma {:induction false} PostTapeAt(h: nat, ls: seq<seq<Control>>, d: nat, k: nat, r: nat)
    requires IsLevels(h, ls) && IsGate(h, d, k, r)
    ensures Holds(h, ls, PostTape(h, ls), d, k, r)
    decreases h
  {
    hide LayerStart, PostTape, GateIndex, HalfLevels, Pow2, Holds;
    if d == h - 1 {
      LastStageAt(h, ls, d, k, r);
    } else {
      HalfSizes(h, d);
      if k < Pow2(h - 2 - d) {
        PostTapeAt(h - 1, HalfLevels(h, ls, false), d, k, r);
        FirstHalfAt(h, ls, d, k, r);
      } else {
        PostTapeAt(h - 1, HalfLevels(h, ls, true), d, k - Pow2(h - 2 - d), r);
        SecondHalfAt(h, ls, d, k - Pow2(h - 2 - d), r);
      }
    }
  }

  lemma LastStageAt(h: nat, ls: seq<seq<Control>>, d: nat, k: nat, r: nat)
    requires IsLevels(h, ls) && IsGate(h, d, k, r) && d == h - 1
    ensures Holds(h, ls, PostTape(h, ls), d, k, r)
  {
    hide LayerStart, PostTape, GateIndex, HalfLevels, Pow2;
    FirstGates(d, r);
    assert k == 0;
    FirstStart(d);
    TwiceGates(d);
    PostTapePart(h, ls, Position(d, 0, r));
  }

  lemma FirstHalfAt(h: nat, ls: seq<seq<Control>>, d: nat, k: nat, r: nat)
    requires IsLevels(h, ls) && d < h - 1 && IsGate(h - 1, d, k, r)
    requires var a := HalfLevels(h, ls, false); Holds(h - 1, a, PostTape(h - 1, a), d, k, r)
    ensures Holds(h, ls, PostTape(h, ls), d, k, r)
  {
    hide LayerStart, PostTape, GateIndex, HalfLevels, Pow2, Position;
    HalfLevelsAt(h, ls, false, d, GateIndex(d, k, r));
    PostTapePart(h, ls, Position(d, k, r));
  }

  lemma SecondHalfAt(h: nat, ls: seq<seq<Control>>, d: nat, k: nat, r: nat)
    requires IsLevels(h, ls) && d < h - 1 && IsGate(h - 1, d, k, r)
    requires var b := HalfLevels(h, ls, true); Holds(h - 1, b, PostTape(h - 1, b), d, k, r)
    ensures Holds(h, ls, PostTape(h, ls), d, k + Pow2(h - 2 - d), r)
  {
    hide LayerStart, PostTape, GateIndex, HalfLevels, Pow2;
    ShiftStart(d, h - 2 - d, k);
    assert Position(d, k + Pow2(h - 2 - d), r) == Gates(h - 1) + Position(d, k, r);
    PostTapePart(h, ls, Position(d, k + Pow2(h - 2 - d), r));
    HalfSizes(h, d);
    GateIndexShift(d, k, Pow2(h - 2 - d), r);
    HalfLevelsAt(h, ls, true, d, GateIndex(d, k, r));
  }

  lemma RootIndex(k: nat)
    ensures GateIndex(0, k, 0) == k
  {
  }

  lemma HalfIndex(d: nat, k: nat, r: nat)
    requires 0 < d
    ensures GateIndex(d, k, r) % 2 == r % 2 && GateIndex(d, k, r) / 2 == GateIndex(d - 1, k, r / 2)
  {
    assert k * Pow2(d) == 2 * (k * Pow2(d - 1));
  }

  lemma FirstStart(d: nat)
    ensures LayerStart(d, 0) == Pow2(d) * d
  {
  }

  lemma FirstGates(d: nat, r: nat)
    ensures GateIndex(d, 0, r) == r && Pow2(0) == 1
  {
  }

  lemma HalfSizes(h: nat, d: nat)
    requires d + 1 < h
    ensures Pow2(h - 1 - d) == 2 * Pow2(h - 2 - d) && Pow2(h - 1) == 2 * Pow2(h - 2)
    ensures Pow2(h - 2 - d) * Pow2(d) == Pow2(h - 2)
  {
    Pow2Sum(h - 2 - d, d);
  }

  lemma HalfLevelsAt(h: nat, ls: seq<seq<Control>>, second: bool, t: nat, i: nat)
    requires 1 < h && IsLevels(h, ls) && t < h - 1 && i < Pow2(h - 2)
    ensures |HalfLevels(h, ls, second)[t]| == Pow2(h - 2) && Pow2(h - 1) == 2 * Pow2(h - 2)
    ensures HalfLevels(h, ls, second)[t][i] == if second then ls[t][Pow2(h - 2) + i] else ls[t][i]
  {
  }

  lemma GateIndexShift(d: nat, k: nat, blocks: nat, r: nat)
    ensures GateIndex(d, k + blocks, r) == blocks * Pow2(d) + GateIndex(d, k, r)
  {
  }

  /** Which of its three parts a position of the tape falls in. */
  lemma PostTapePart(h: nat, ls: seq<seq<Control>>, p: nat)
    requires 0 < h && IsLevels(h, ls) && p < Gates(h)
    ensures var g := Gates(h - 1);
            PostTape(h, ls)[p] ==
            if p < g then PostTape(h - 1, HalfLevels(h, ls, false))[p]
            else if p < 2 * g then PostTape(h - 1, HalfLevels(h, ls, true))[p - g]
            else ls[h - 1][p - 2 * g]
  {
  }

  /** Every position of the tape is one of these. */
  lemma {:induction false} EveryPosition(h: nat, p: nat) returns (d: nat, k: nat, r: nat)
    requires p < Gates(h)
    ensures IsGate(h, d, k, r) && p == Position(d, k, r)
    decreases h
  {
    hide LayerStart, Pow2;
    var g := Gates(h - 1);
    Pow2Unfold(h);
    if p >= 2 * g {
      d, k, r := h - 1, 0, p - 2 * g;
      FirstStart(d);
      TwiceGates(d);
    } else if p < g {
      d, k, r := EveryPosition(h - 1, p);
      Pow2Unfold(h - 1 - d);
    } else {
      var k';
      d, k', r := EveryPosition(h - 1, p - g);
      ShiftStart(d, h - 2 - d, k');
      Pow2Unfold(h - 1 - d);
      k := k' + Pow2(h - 2 - d);
    }
  }

  /** A tape filled at all those positions is the postorder tape. */
  lemma FilledTape(h: nat, ls: seq<seq<Control>>, tape: seq<Control>)
    requires IsLevels(h, ls) && |tape| == Gates(h)
    requires forall d: nat, k: nat, r: nat :: IsGate(h, d, k, r) ==> Holds(h, ls, tape, d, k, r)
    ensures tape == PostTape(h, ls)
  {
    hide PostTape, IsGate, Position;
    forall p | 0 <= p < |tape| ensures tape[p] == PostTape(h, ls)[p] {
      var d, k, r := EveryPosition(h, p);
      PostTapeAt(h, ls, d, k, r);
      GateDepth(h, d, k, r);
      assert Holds(h, ls, tape, d, k, r);
    }
  }

  lemma GateDepth(h: nat, d: nat, k: nat, r: nat)
    requires IsGate(h, d, k, r)
    ensures d < h
  {
  }
}
