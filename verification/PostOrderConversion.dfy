/** Rewriting a depth-first tape into postorder: the recorded start of every node, then one gather per block. */
module PostOrderConversion {
  import opened Products
  import opened Powers
  import opened Tags
  import opened TagBits
  import opened PackedTape
  import opened Network
  import opened Schedules
  import opened PostOrder
  import opened CarryStarts

  // ----- where a depth-first tape keeps each node -----

  /**
   * The first gate of the node of residue r at depth d: its ancestors' layers and, on odd residues, their even subtrees
   * lie before it.
   */
  function DfsStart(h: nat, d: nat, r: nat): nat {
    if h == 0 || d == 0 then 0
    else Pow2(h - 1) + (if r % 2 == 1 then Gates(h - 1) else 0) + DfsStart(h - 1, d - 1, r / 2)
  }

  /** Gate k of a node is k places after the node's start. */
  lemma {:induction false} StartHolds(h: nat, tape: seq<Control>, d: nat, k: nat, r: nat)
    requires |tape| == Gates(h) && IsGate(h, d, k, r)
    ensures DfsStart(h, d, r) + k < |tape|
    ensures GateHolds(h, tape, d, GateIndex(d, k, r), tape[DfsStart(h, d, r) + k])
    decreases h
  {
    hide Levels, GateIndex, Pow2, Subtape, GateHolds, DfsStart;
    Pow2Unfold(d);
    GateIndexBound(d, h - 1 - d, k, r);
    if d == 0 {
      RootGate(h, tape, k);
    } else {
      var child := Subtape(h, tape, r % 2 == 1);
      StartHolds(h - 1, child, d - 1, k, r / 2);
      ChildStart(h, tape, d, k, r);
      InnerLevel(h, tape, d, GateIndex(d - 1, k, r / 2), r % 2 == 1, child[DfsStart(h - 1, d - 1, r / 2) + k]);
      HalfIndex(d, k, r);
    }
  }

  lemma RootGate(h: nat, tape: seq<Control>, k: nat)
    requires 0 < h && |tape| == Gates(h) && k < Pow2(h - 1)
    ensures GateIndex(0, k, 0) == k < |tape| && GateHolds(h, tape, 0, k, tape[k]) && DfsStart(h, 0, 0) == 0
  {
    FirstLevel(h, tape);
    RootIndex(k);
  }

  /** A child's gates keep their places in the child's part of the tape. */
  lemma ChildStart(h: nat, tape: seq<Control>, d: nat, k: nat, r: nat)
    requires 0 < h && 0 < d && |tape| == Gates(h) && DfsStart(h - 1, d - 1, r / 2) + k < Gates(h - 1)
    ensures DfsStart(h, d, r) + k < |tape|
    ensures tape[DfsStart(h, d, r) + k] == Subtape(h, tape, r % 2 == 1)[DfsStart(h - 1, d - 1, r / 2) + k]
  {
    hide Pow2;
  }

  // ----- recording the starts -----

  /** A slot names depth e and residue x; a node at depth d records those of its own subtree and leaves the others. */
  ghost predicate SlotHolds(s: seq<nat>, s0: seq<nat>, t: nat, d: nat, residue: nat, position: nat, e: nat, x: nat)
    requires |s| == |s0|
  {
    && Pow2(e) + x < |s|
    && s[Pow2(e) + x]
       == if d <= e && x % Pow2(d) == residue then position + DfsStart(t, e - d, x / Pow2(d)) else s0[Pow2(e) + x]
  }

  ghost predicate StartsHold(s: seq<nat>, s0: seq<nat>, t: nat, d: nat, residue: nat, position: nat) {
    |s| == |s0| && forall e: nat, x: nat :: e < d + t && x < Pow2(e) ==> SlotHolds(s, s0, t, d, residue, position, e, x)
  }

  /** Slots of different nodes are different. */
  lemma SlotsApart(e: nat, x: nat, d: nat, r: nat)
    requires x < Pow2(e) && r < Pow2(d) && Pow2(e) + x == Pow2(d) + r
    ensures e == d && x == r
  {
    if e < d {
      Pow2Order(e, d);
    } else if d < e {
      Pow2Order(d, e);
    }
  }

  lemma SlotInRange(e: nat, x: nat, h: nat)
    requires e < h && x < Pow2(e)
    ensures Pow2(e) + x < Pow2(h)
  {
    Pow2Order(e, h);
  }

  /** A residue modulo twice the stride, from the residue modulo the stride and the parity of the quotient. */
  lemma ResidueSplit(x: nat, s: nat)
    requires 0 < s
    ensures x % (2 * s) == x % s + (if (x / s) % 2 == 1 then s else 0) && x / (2 * s) == (x / s) / 2
  {
    var u, v := x / s, x % s;
    var q, p := u / 2, u % 2;
    assert x == u * s + v;
    assert u * s == q * (2 * s) + p * s by {
      assert u == 2 * q + p;
    }
    var low := v + if p == 1 then s else 0;
    assert x == q * (2 * s) + low;
    Quotient(q, low, 2 * s);
  }

  /** A node records its own start and then its two subtrees'. */
  lemma StartsJoin(s0: seq<nat>, s1: seq<nat>, s2: seq<nat>, s3: seq<nat>, t: nat, d: nat, residue: nat, position: nat)
    requires 1 < t && residue < Pow2(d) && Pow2(d) + residue < |s0| && s1 == s0[Pow2(d) + residue := position]
    requires StartsHold(s2, s1, t - 1, d + 1, residue, position + Pow2(t - 1))
    requires StartsHold(s3, s2, t - 1, d + 1, residue + Pow2(d), position + Pow2(t - 1) + Gates(t - 1))
    ensures StartsHold(s3, s0, t, d, residue, position)
  {
    forall e: nat, x: nat | e < d + t && x < Pow2(e) ensures SlotHolds(s3, s0, t, d, residue, position, e, x) {
      SlotJoin(s0, s1, s2, s3, t, d, residue, position, e, x);
    }
  }

  lemma SlotJoin(s0: seq<nat>, s1: seq<nat>, s2: seq<nat>, s3: seq<nat>, t: nat, d: nat, residue: nat, position: nat,
                 e: nat, x: nat)
    requires 1 < t && residue < Pow2(d) && Pow2(d) + residue < |s0| && s1 == s0[Pow2(d) + residue := position]
    requires StartsHold(s2, s1, t - 1, d + 1, residue, position + Pow2(t - 1))
    requires StartsHold(s3, s2, t - 1, d + 1, residue + Pow2(d), position + Pow2(t - 1) + Gates(t - 1))
    requires e < d + t && x < Pow2(e)
    ensures |s3| == |s0| && SlotHolds(s3, s0, t, d, residue, position, e, x)
  {
    hide Pow2;
    assert SlotHolds(s2, s1, t - 1, d + 1, residue, position + Pow2(t - 1), e, x);
    assert SlotHolds(s3, s2, t - 1, d + 1, residue + Pow2(d), position + Pow2(t - 1) + Gates(t - 1), e, x);
    Pow2Unfold(d + 1);
    if Pow2(e) + x == Pow2(d) + residue {
      SlotsApart(e, x, d, residue);
    }
    if d < e {
      ResidueSplit(x, Pow2(d));
      assert x % Pow2(d) < Pow2(d);
    } else if e == d {
      SmallResidue(x, Pow2(d));
    }
  }

  lemma SmallResidue(x: nat, s: nat)
    requires x < s
    ensures x % s == x && x / s == 0
  {
  }

  /** Records the first gate of every node of a subtree. */
  method BuildDfsControlStarts(length: nat, stride: nat, residue: nat, position: nat, starts: array<nat>, ghost t: nat,
                               ghost d: nat)
    returns (next: nat)
    requires 0 < t && length == Pow2(t) && stride == Pow2(d) && residue < stride && starts.Length == Pow2(d + t)
    modifies starts
    ensures next == position + Gates(t)
    ensures StartsHold(starts[..], old(starts[..]), t, d, residue, position)
    decreases t
  {
    hide StartsHold, Pow2;
    ghost var s0 := starts[..];
    SlotInRange(d, residue, d + t);
    Pow2Unfold(t);
    Pow2Unfold(t - 1);
    Pow2Unfold(d + 1);
    starts[stride + residue] := position;
    ghost var s1 := starts[..];
    next := position + length / 2;
    if length > 2 {
      assert t > 1;
      next := BuildDfsControlStarts(length / 2, stride * 2, residue, next, starts, t - 1, d + 1);
      ghost var s2 := starts[..];
      next := BuildDfsControlStarts(length / 2, stride * 2, residue + stride, next, starts, t - 1, d + 1);
      StartsJoin(s0, s1, s2, starts[..], t, d, residue, position);
    } else {
      LastHeight(t);
      LeafStarts(s0, s1, d, residue, position);
    }
  }

  lemma LastHeight(t: nat)
    requires 0 < t && Pow2(t) <= 2
    ensures t == 1 && Gates(1) == 1 && Pow2(0) == 1
  {
    if t > 1 {
      Pow2Order(1, t);
    }
  }

  lemma LeafStarts(s0: seq<nat>, s1: seq<nat>, d: nat, residue: nat, position: nat)
    requires residue < Pow2(d) && |s0| == Pow2(d + 1) && Pow2(d) + residue < |s0|
             && s1 == s0[Pow2(d) + residue := position]
    ensures StartsHold(s1, s0, 1, d, residue, position)
  {
    forall e: nat, x: nat | e < d + 1 && x < Pow2(e) ensures SlotHolds(s1, s0, 1, d, residue, position, e, x) {
      SlotInRange(e, x, d + 1);
      if Pow2(e) + x == Pow2(d) + residue {
        SlotsApart(e, x, d, residue);
      }
      if e == d {
        SmallResidue(x, Pow2(d));
      }
    }
  }

  /** Every node's start is in its slot. */
  ghost predicate RootStarts(s: seq<nat>, h: nat) {
    forall e: nat, x: nat :: e < h && x < Pow2(e) ==> StartInSlot(s, h, e, x)
  }

  ghost predicate StartInSlot(s: seq<nat>, h: nat, e: nat, x: nat) {
    Pow2(e) + x < |s| && s[Pow2(e) + x] == DfsStart(h, e, x)
  }

  lemma RootHolds(s: seq<nat>, s0: seq<nat>, h: nat)
    requires StartsHold(s, s0, h, 0, 0, 0)
    ensures RootStarts(s, h)
  {
    forall e: nat, x: nat | e < h && x < Pow2(e) ensures StartInSlot(s, h, e, x) {
      assert SlotHolds(s, s0, h, 0, 0, 0, e, x);
      assert Pow2(0) == 1 && x % 1 == 0 && x / 1 == x;
    }
  }

  // ----- gathering the postorder tape -----

  /** The stages of a network over 2^h lanes restricted to block b of 2^t lanes. */
  ghost function Block(h: nat, ls: seq<seq<Control>>, t: nat, b: nat): (r: seq<seq<Control>>)
    requires IsLevels(h, ls) && t <= h && (t > 0 ==> b * Pow2(t - 1) + Pow2(t - 1) <= Pow2(h - 1))
    ensures IsLevels(t, r)
  {
    seq(t, j requires 0 <= j < t => ls[j][b * Pow2(t - 1)..b * Pow2(t - 1) + Pow2(t - 1)])
  }

  lemma HalfBlock(h: nat, ls: seq<seq<Control>>, t: nat, b: nat, second: bool)
    requires IsLevels(h, ls) && 1 < t <= h && b * Pow2(t - 1) + Pow2(t - 1) <= Pow2(h - 1)
    ensures var c := if second then 2 * b + 1 else 2 * b;
            c * Pow2(t - 2) + Pow2(t - 2) <= Pow2(h - 1)
            && HalfLevels(t, Block(h, ls, t, b), second) == Block(h, ls, t - 1, c)
  {
    hide Pow2;
    Pow2Unfold(t - 1);
    var p, c := Pow2(t - 2), if second then 2 * b + 1 else 2 * b;
    ChildOffset(b, p, second);
    var x, y := HalfLevels(t, Block(h, ls, t, b), second), Block(h, ls, t - 1, c);
    forall j | 0 <= j < t - 1 ensures x[j] == y[j] {
      SliceOfSlice(ls[j], b * Pow2(t - 1), p, second);
    }
  }

  lemma ChildOffset(b: nat, p: nat, second: bool)
    ensures var c := if second then 2 * b + 1 else 2 * b;
            c * p == b * (2 * p) + if second then p else 0
  {
    if second {
      assert (2 * b + 1) * p == 2 * b * p + p;
    }
  }

  lemma SliceOfSlice<T>(s: seq<T>, from: nat, p: nat, second: bool)
    requires from + 2 * p <= |s|
    ensures var part := s[from..from + 2 * p];
            (if second then part[p..] else part[..p]) == if second then s[from + p..from + 2 * p] else s[from..from + p]
  {
  }

  /** A gate of a block's last stage, found through its node's start. */
  lemma GatherAt(source: seq<Control>, starts: seq<nat>, h: nat, t: nat, b: nat, offset: nat)
    requires 0 < t <= h && |source| == Gates(h) && RootStarts(starts, h) && offset < Pow2(t - 1) && b < Pow2(h - t)
    requires b * Pow2(t - 1) + Pow2(t - 1) <= Pow2(h - 1)
    ensures Pow2(t - 1) + offset < |starts| && starts[Pow2(t - 1) + offset] + b < |source|
    ensures source[starts[Pow2(t - 1) + offset] + b] == Block(h, Levels(h, source), t, b)[t - 1][offset]
  {
    hide Levels, Pow2, DfsStart;
    assert StartInSlot(starts, h, t - 1, offset);
    StartHolds(h, source, t - 1, b, offset);
  }

  lemma BlocksFit(h: nat, t: nat, b: nat)
    requires 0 < t <= h && b < Pow2(h - t)
    ensures b * Pow2(t - 1) + Pow2(t - 1) <= Pow2(h - 1)
    ensures t > 1 ==> 2 * b + 1 < Pow2(h - t + 1)
  {
    Pow2Sum(h - t, t - 1);
    Monotone(b + 1, Pow2(h - t), Pow2(t - 1));
    assert (b + 1) * Pow2(t - 1) == b * Pow2(t - 1) + Pow2(t - 1);
  }

  /** Gathers the gates that join a block's halves. */
  method GatherRun(source: PackedControls, starts: array<nat>, destination: PackedControls, base: nat, length: nat,
                   position: nat, ghost h: nat, ghost t: nat, ghost b: nat)
    requires source != destination && source.Valid() && destination.Valid()
    requires 0 < t <= h && length == Pow2(t) && b < Pow2(h - t) && base == b * length
    requires source.count == Gates(h) && RootStarts(starts[..], h) && position + Pow2(t - 1) <= destination.count
    modifies destination`bytes
    ensures destination.Valid() && b * Pow2(t - 1) + Pow2(t - 1) <= Pow2(h - 1)
    ensures destination.Controls()
            == Splice(old(destination.Controls()), position, Block(h, Levels(h, source.Controls()), t, b)[t - 1])
  {
    hide Block, RootStarts, Splice, Pow2, Levels, Gates, GatesOf, ControlsOf, ControlOf, GateAt, PackedControls.Valid,
         PackedControls.Gates;
    BlocksFit(h, t, b);
    Pow2Unfold(t);
    BlockOf(b, length);
    var half, block := length / 2, base / length;
    ghost var d1, run := destination.Controls(), Block(h, Levels(h, source.Controls()), t, b)[t - 1];
    SpliceNothing(d1, position, run[..0]);
    for offset := 0 to half
      invariant destination.Valid() && destination.count == |d1|
      invariant destination.Controls() == Splice(d1, position, run[..offset])
    {
      GatherAt(source.Controls(), starts[..], h, t, b, offset);
      var got, value := source.Get(starts[half + offset] + block);
      var put := destination.Set(position + offset, value);
      SpliceStep(d1, position, run, offset);
    }
    assert run[..half] == run;
  }

  /**
   * Writes the postorder tape of one block: its halves, then the gates that join them, gathered from the depth-first
   * tape.
   */
  method WritePostOrderFromDfs(source: PackedControls, starts: array<nat>, destination: PackedControls, base: nat,
                               length: nat, position: nat, ghost h: nat, ghost t: nat, ghost b: nat)
    returns (next: nat)
    requires source != destination && source.Valid() && destination.Valid()
    requires 0 < t <= h && length == Pow2(t) && b < Pow2(h - t) && base == b * length
    requires source.count == Gates(h) && RootStarts(starts[..], h) && position + Gates(t) <= destination.count
    modifies destination`bytes
    ensures destination.Valid() && next == position + Gates(t)
    ensures b * Pow2(t - 1) + Pow2(t - 1) <= Pow2(h - 1)
    ensures destination.Controls() == Splice(old(destination.Controls()), position,
                                             PostTape(t, Block(h, Levels(h, source.Controls()), t, b)))
    decreases t
  {
    hide Block, PostTape, RootStarts, Splice, Pow2, Levels, PackedControls.Controls, Gates;
    BlocksFit(h, t, b);
    Pow2Unfold(t);
    Pow2Unfold(t - 1);
    GatesUnfold(t);
    ghost var ls, d0 := Levels(h, source.Controls()), destination.Controls();
    var half := length / 2;
    next := position;
    ghost var first: seq<Control>, second: seq<Control> := [], [];
    if length > 2 {
      ghost var c, c' := 2 * b, 2 * b + 1;
      HalfBlock(h, ls, t, b, false);
      HalfBlock(h, ls, t, b, true);
      ChildOffset(b, half, false);
      ChildOffset(b, half, true);
      next := WritePostOrderFromDfs(source, starts, destination, base, half, next, h, t - 1, c);
      next := WritePostOrderFromDfs(source, starts, destination, base + half, half, next, h, t - 1, c');
      first, second := PostTape(t - 1, Block(h, ls, t - 1, c)), PostTape(t - 1, Block(h, ls, t - 1, c'));
      SpliceChain(d0, position, first, second);
    } else {
      LastHeight(t);
      SpliceNothing(d0, position, first + second);
    }
    PostTapeOfBlock(h, ls, t, b);
    ghost var d1, run := destination.Controls(), Block(h, ls, t, b)[t - 1];
    GatherRun(source, starts, destination, base, length, next, h, t, b);
    SpliceChain(d0, position, first + second, run);
    next := next + half;
  }

  lemma SpliceChain<T>(tape: seq<T>, position: nat, a: seq<T>, b: seq<T>)
    requires position + |a| + |b| <= |tape|
    ensures Splice(Splice(tape, position, a), position + |a|, b) == Splice(tape, position, a + b)
  {
  }

  /** A block's tape is its halves' tapes and its last stage. */
  lemma PostTapeOfBlock(h: nat, ls: seq<seq<Control>>, t: nat, b: nat)
    requires IsLevels(h, ls) && 0 < t <= h && b * Pow2(t - 1) + Pow2(t - 1) <= Pow2(h - 1)
    ensures t == 1 ==> PostTape(t, Block(h, ls, t, b)) == [] + [] + Block(h, ls, t, b)[t - 1]
    ensures t > 1 ==>
              2 * b * Pow2(t - 2) + Pow2(t - 2) <= Pow2(h - 1) && (2 * b + 1) * Pow2(t - 2) + Pow2(t - 2) <= Pow2(h - 1)
              && PostTape(t, Block(h, ls, t, b))
                 == PostTape(t - 1, Block(h, ls, t - 1, 2 * b)) + PostTape(t - 1, Block(h, ls, t - 1, 2 * b + 1))
                    + Block(h, ls, t, b)[t - 1]
  {
    hide Pow2, Block, HalfLevels;
    if t > 1 {
      HalfBlock(h, ls, t, b, false);
      HalfBlock(h, ls, t, b, true);
    }
  }

  lemma BlockOf(b: nat, length: nat)
    requires 0 < length
    ensures (b * length) / length == b
  {
    Quotient(b, 0, length);
  }

  lemma WholeBlock(h: nat, ls: seq<seq<Control>>)
    requires 0 < h && IsLevels(h, ls)
    ensures Block(h, ls, h, 0) == ls
  {
    forall j | 0 <= j < h ensures Block(h, ls, h, 0)[j] == ls[j] {
    }
  }

  /** The public conversion: the postorder tape of the depth-first tape's stages. */
  method OFRPostOrderControls(controls: PackedControls, n: nat, ghost h: nat) returns (postorder: PackedControls)
    requires controls.Valid() && 0 < h && n == Pow2(h) && controls.count == Gates(h)
    ensures fresh(postorder) && postorder.Valid()
    ensures postorder.Controls() == PostOrderControls(h, controls.Controls())
  {
    hide PostTape, Levels, Gates, Splice;
    var starts := new nat[n];
    ghost var s0 := starts[..];
    var required := BuildDfsControlStarts(n, 1, 0, 0, starts, h, 0);
    RootHolds(starts[..], s0, h);
    postorder := new PackedControls(required);
    ghost var zeros := postorder.Controls();
    var next := WritePostOrderFromDfs(controls, starts, postorder, 0, n, 0, h, h, 0);
    WholeBlock(h, Levels(h, controls.Controls()));
    SpliceWhole(zeros, PostTape(h, Levels(h, controls.Controls())));
  }

  lemma SpliceWhole<T>(tape: seq<T>, run: seq<T>)
    requires |run| == |tape|
    ensures Splice(tape, 0, run) == run
  {
  }
}
