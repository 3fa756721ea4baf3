/** Rewriting a depth-first tape into level order. */
module Conversion {
  import opened Flattening
  import opened Products
  import opened Lanes
  import opened Powers
  import opened Tags
  import opened TagBits
  import opened PackedTape
  import opened Strided
  import opened Schedules
  import opened CarryStarts

  /** Stage t of a level-order tape over 2^h lanes. */
  ghost function Row(cs: seq<Control>, h: nat, t: nat): (row: seq<Control>)
    requires 0 < h && t < h && |cs| == h * Pow2(h - 1)
    ensures |row| == Pow2(h - 1)
  {
    RowInRange(h, t);
    cs[t * Pow2(h - 1)..t * Pow2(h - 1) + Pow2(h - 1)]
  }

  lemma RowInRange(h: nat, t: nat)
    requires 0 < h && t < h
    ensures t * Pow2(h - 1) + Pow2(h - 1) <= h * Pow2(h - 1)
  {
    Monotone(t + 1, h, Pow2(h - 1));
    assert (t + 1) * Pow2(h - 1) == t * Pow2(h - 1) + Pow2(h - 1);
  }

  /** Writing into row t leaves the other rows alone. */
  lemma WriteRow(cs: seq<Control>, h: nat, t: nat, i: nat, c: Control, t': nat)
    requires 0 < h && t < h && t' < h && |cs| == h * Pow2(h - 1) && i < Pow2(h - 1)
    ensures t * Pow2(h - 1) + i < |cs|
    ensures Row(cs[t * Pow2(h - 1) + i := c], h, t') == if t == t' then Row(cs, h, t)[i := c] else Row(cs, h, t')
  {
    var w := Pow2(h - 1);
    RowInRange(h, t);
    RowInRange(h, t');
    if t < t' {
      Monotone(t + 1, t', w);
      assert (t + 1) * w == t * w + w;
    } else if t' < t {
      Monotone(t' + 1, t, w);
      assert (t' + 1) * w == t' * w + w;
    }
  }

  /** The lanes of a node's view in every row of the level-order tape below its depth. */
  ghost predicate RowsHold(cs: seq<Control>, h: nat, depth: nat, residue: nat, height: nat, ls: seq<seq<Control>>)
    requires 0 < h && 0 < height && depth + height == h && |cs| == h * Pow2(h - 1) && residue < Pow2(depth)
    requires IsLevels(height, ls)
  {
    ViewInRow(h, depth, residue, height);
    forall t :: 0 <= t < height ==> View(Row(cs, h, depth + t), residue, Pow2(depth), Pow2(height - 1)) == ls[t]
  }

  lemma ViewInRow(h: nat, depth: nat, residue: nat, height: nat)
    requires 0 < h && 0 < height && depth + height == h && residue < Pow2(depth)
    ensures InRange(Pow2(h - 1), residue, Pow2(depth), Pow2(height - 1))
  {
    Pow2Sum(height - 1, depth);
    assert (Pow2(height - 1) - 1) * Pow2(depth) == Pow2(h - 1) - Pow2(depth);
  }

  /** Only the view's lanes, and only from its depth on, may differ. */
  ghost predicate RowsKept(cs: seq<Control>, cs0: seq<Control>, h: nat, depth: nat, residue: nat, height: nat)
    requires 0 < h && 0 < height && depth + height == h && |cs| == |cs0| == h * Pow2(h - 1)
  {
    && (forall t :: 0 <= t < depth ==> Row(cs, h, t) == Row(cs0, h, t))
    && (forall t :: depth <= t < h ==>
        SameOutside(Row(cs, h, t), Row(cs0, h, t), residue, Pow2(depth), Pow2(height - 1)))
  }

  /** The first g gates of a node's layer have been scattered over its view of its stage. */
  ghost predicate StageWritten(cs: seq<Control>, cs0: seq<Control>, h: nat, depth: nat, residue: nat, height: nat,
                               run: seq<Control>, g: nat)
    requires 0 < h && 0 < height && depth + height == h && |cs| == |cs0| == h * Pow2(h - 1) && residue < Pow2(depth)
    requires g <= |run| == Pow2(height - 1)
  {
    ViewInRow(h, depth, residue, height);
    && SameOutside(Row(cs, h, depth), Row(cs0, h, depth), residue, Pow2(depth), Pow2(height - 1))
    && View(Row(cs, h, depth), residue, Pow2(depth), Pow2(height - 1))[..g] == run[..g]
    && forall t :: 0 <= t < h && t != depth ==> Row(cs, h, t) == Row(cs0, h, t)
  }

  lemma StageWrittenStart(cs: seq<Control>, h: nat, depth: nat, residue: nat, height: nat, run: seq<Control>)
    requires 0 < h && 0 < height && depth + height == h && |cs| == h * Pow2(h - 1) && residue < Pow2(depth)
    requires |run| == Pow2(height - 1)
    ensures StageWritten(cs, cs, h, depth, residue, height, run, 0)
  {
  }

  lemma StageWrittenStep(cs: seq<Control>, cs0: seq<Control>, h: nat, depth: nat, residue: nat, height: nat,
                         run: seq<Control>, g: nat, p: nat)
    requires 0 < h && 0 < height && depth + height == h && |cs| == |cs0| == h * Pow2(h - 1) && residue < Pow2(depth)
    requires g < |run| == Pow2(height - 1) && p == depth * Pow2(h - 1) + Lane(residue, Pow2(depth), g)
    requires StageWritten(cs, cs0, h, depth, residue, height, run, g)
    ensures p < |cs| && StageWritten(cs[p := run[g]], cs0, h, depth, residue, height, run, g + 1)
  {
    hide Row, View, Pow2, Lane;
    ViewInRow(h, depth, residue, height);
    var stride, n, lane := Pow2(depth), Pow2(height - 1), Lane(residue, Pow2(depth), g);
    LaneInRange(Pow2(h - 1), residue, stride, n, g);
    var row := Row(cs, h, depth);
    WriteLane(row, residue, stride, n, g, run[g]);
    WriteRow(cs, h, depth, lane, run[g], depth);
    var cs' := cs[p := run[g]];
    forall t | 0 <= t < h && t != depth ensures Row(cs', h, t) == Row(cs0, h, t) {
      WriteRow(cs, h, depth, lane, run[g], t);
    }
    SameOutsideChain(Row(cs', h, depth), row, Row(cs0, h, depth), residue, stride, n);
    PrefixStep(View(row, residue, stride, n), run, g);
  }

  lemma PrefixStep<T>(v: seq<T>, run: seq<T>, g: nat)
    requires g < |v| == |run| && v[..g] == run[..g]
    ensures v[g := run[g]][..g + 1] == run[..g + 1]
  {
    assert forall i :: 0 <= i < g ==> v[i] == v[..g][i] && run[i] == run[..g][i];
  }

  /** The gates of one node, scattered over its view of the stage. */
  method WriteStage(source: PackedControls, destination: PackedControls, n: nat, rootHalf: nat, depth: nat, stride: nat,
                    residue: nat, position: nat, ghost h: nat, ghost height: nat)
    requires source != destination && source.Valid() && destination.Valid()
    requires 0 < height && depth + height == h && n == Pow2(height) && rootHalf == Pow2(h - 1)
    requires stride == Pow2(depth) && residue < stride
    requires destination.count == h * rootHalf && position + n / 2 <= source.count
    modifies destination`bytes
    ensures destination.Valid()
    ensures n / 2 == Pow2(height - 1)
    ensures StageWritten(destination.Controls(), old(destination.Controls()), h, depth, residue, height,
                         source.Controls()[position..position + n / 2], n / 2)
  {
    hide StageWritten, Pow2, ControlOf, GateAt;
    HeightHalf(height);
    ghost var cs0, run := destination.Controls(), source.Controls()[position..position + n / 2];
    StageWrittenStart(cs0, h, depth, residue, height, run);
    for gate := 0 to n / 2
      invariant destination.Valid() && destination.count == h * rootHalf
      invariant StageWritten(destination.Controls(), cs0, h, depth, residue, height, run, gate)
    {
      var ok, control := source.Get(position + gate);
      var index := depth * rootHalf + gate * stride + residue;
      StageWrittenStep(destination.Controls(), cs0, h, depth, residue, height, run, gate, index);
      var written := destination.Set(index, control);
    }
  }

  lemma HeightHalf(height: nat)
    requires 0 < height
    ensures Pow2(height) / 2 == Pow2(height - 1) && Pow2(height) == 2 * Pow2(height - 1)
  {
  }

  /** A node written whole: its rows hold its stages and nothing outside its view has changed. */
  ghost predicate NodeWritten(cs: seq<Control>, cs0: seq<Control>, h: nat, depth: nat, residue: nat, height: nat,
                              ls: seq<seq<Control>>) {
    && 0 < h && 0 < height && depth + height == h && |cs| == |cs0| == h * Pow2(h - 1) && residue < Pow2(depth)
    && IsLevels(height, ls)
    && RowsHold(cs, h, depth, residue, height, ls) && RowsKept(cs, cs0, h, depth, residue, height)
  }

  lemma LeafWritten(cs: seq<Control>, cs0: seq<Control>, h: nat, depth: nat, residue: nat, run: seq<Control>)
    requires depth + 1 == h && |cs| == |cs0| == h * Pow2(h - 1) && residue < Pow2(depth) && |run| == 1
    requires Pow2(0) == 1 && StageWritten(cs, cs0, h, depth, residue, 1, run, 1)
    ensures NodeWritten(cs, cs0, h, depth, residue, 1, [run])
  {
    hide Row, View;
    ViewInRow(h, depth, residue, 1);
    var v := View(Row(cs, h, depth), residue, Pow2(depth), Pow2(0));
    assert v == v[..1] && run == run[..1];
  }

  /** A node's own stage, then its two children: together the node. */
  lemma InnerWritten(cs: seq<Control>, cs2: seq<Control>, cs1: seq<Control>, cs0: seq<Control>,
                     h: nat, depth: nat, residue: nat, height: nat, run: seq<Control>,
                     a: seq<seq<Control>>, b: seq<seq<Control>>)
    requires 1 < height && depth + height == h && |cs1| == |cs0| == h * Pow2(h - 1) && residue < Pow2(depth)
    requires |run| == Pow2(height - 1)
    requires StageWritten(cs1, cs0, h, depth, residue, height, run, |run|)
    requires NodeWritten(cs2, cs1, h, depth + 1, residue, height - 1, a)
    requires NodeWritten(cs, cs2, h, depth + 1, residue + Pow2(depth), height - 1, b)
    ensures NodeWritten(cs, cs0, h, depth, residue, height, [run] + Zip(a, b))
  {
    hide Row, View, Pow2, SameOutside;
    var ls := [run] + Zip(a, b);
    PowersDown(h, depth, height);
    ViewInRow(h, depth, residue, height);
    forall t | 0 <= t < height
      ensures |ls[t]| == Pow2(height - 1)
      ensures View(Row(cs, h, depth + t), residue, Pow2(depth), Pow2(height - 1)) == ls[t]
    {
      if t == 0 {
        FullPrefix(View(Row(cs1, h, depth), residue, Pow2(depth), Pow2(height - 1)), run);
      } else {
        ChildRow(Row(cs, h, depth + t), Row(cs2, h, depth + t), residue, Pow2(depth), Pow2(height - 2), a[t - 1],
                 b[t - 1]);
      }
    }
    forall t | depth <= t < h
      ensures SameOutside(Row(cs, h, t), Row(cs0, h, t), residue, Pow2(depth), Pow2(height - 1))
    {
      if t > depth {
        OutsideChildren(Row(cs, h, t), Row(cs2, h, t), Row(cs1, h, t), residue, Pow2(depth), Pow2(height - 2));
      }
    }
  }

  lemma PowersDown(h: nat, depth: nat, height: nat)
    requires 1 < height && depth + height == h
    ensures Pow2(depth + 1) == 2 * Pow2(depth) && Pow2(height - 1) == 2 * Pow2(height - 2)
  {
  }

  lemma FullPrefix<T>(v: seq<T>, run: seq<T>)
    requires |v| == |run| && v[..|run|] == run[..|run|]
    ensures v == run
  {
    assert v == v[..|run|] && run == run[..|run|];
  }

  /** A row after both children: even lanes from the first child, odd lanes from the second. */
  lemma ChildRow(row: seq<Control>, row2: seq<Control>, residue: nat, stride: nat, half: nat, a: seq<Control>,
                 b: seq<Control>)
    requires |row| == |row2| && InRange(|row|, residue, stride, 2 * half) && |a| == |b| == half
    requires InRange(|row|, residue, 2 * stride, half) && InRange(|row|, residue + stride, 2 * stride, half)
    requires View(row2, residue, 2 * stride, half) == a
    requires SameOutside(row, row2, residue + stride, 2 * stride, half)
             && View(row, residue + stride, 2 * stride, half) == b
    ensures View(row, residue, stride, 2 * half) == Interleave(a, b)
  {
    hide View, SameOutside, Interleave;
    EvensUntouched(row, row2, residue, stride, 2 * half);
    SplitView(row, residue, stride, 2 * half);
    SplitView(row2, residue, stride, 2 * half);
    InterleaveSplit(View(row, residue, stride, 2 * half));
  }

  lemma OutsideChildren(row: seq<Control>, row2: seq<Control>, row1: seq<Control>, residue: nat, stride: nat, half: nat)
    requires |row| == |row2| == |row1| && InRange(|row|, residue, stride, 2 * half)
    requires SameOutside(row2, row1, residue, 2 * stride, half)
             && SameOutside(row, row2, residue + stride, 2 * stride, half)
    ensures SameOutside(row, row1, residue, stride, 2 * half)
  {
    hide View, SameOutside;
    OddsUntouched(row2, row1, residue, stride, 2 * half);
    EvensUntouched(row, row2, residue, stride, 2 * half);
    SameOutsideChain(row, row2, row1, residue, stride, 2 * half);
  }

  /** The recursive conversion to level order. */
  method WriteLevelOrderControls(source: PackedControls, destination: PackedControls, n: nat, rootHalf: nat, depth: nat,
                                 stride: nat, residue: nat, position: nat, ghost h: nat, ghost height: nat)
    returns (next: nat)
    requires source != destination && source.Valid() && destination.Valid()
    requires 0 < height && depth + height == h && n == Pow2(height) && rootHalf == Pow2(h - 1)
    requires stride == Pow2(depth) && residue < stride
    requires destination.count == h * rootHalf && position + Gates(height) <= source.count
    modifies destination`bytes
    ensures destination.Valid() && next == position + Gates(height)
    ensures NodeWritten(destination.Controls(), old(destination.Controls()), h, depth, residue, height,
                        Levels(height, source.Controls()[position..next]))
    decreases height
  {
    hide StageWritten, NodeWritten, Pow2, ControlOf, GateAt, Levels, Gates, IsLevels;
    ghost var cs0, tape := destination.Controls(), source.Controls();
    HeightHalf(height);
    GatesDown(height);
    var gateCount := n / 2;
    WriteStage(source, destination, n, rootHalf, depth, stride, residue, position, h, height);
    ghost var cs1, run := destination.Controls(), tape[position..position + gateCount];
    next := position + gateCount;
    if n == 2 {
      LastLevel(height, run);
      LeafWritten(cs1, cs0, h, depth, residue, run);
      return;
    }
    PowersDown(h, depth, height);
    ghost var middle, end := next + Gates(height - 1), next + 2 * Gates(height - 1);
    LevelsSplit(height, tape, position, next, middle, end);
    next := WriteLevelOrderControls(source, destination, n / 2, rootHalf, depth
                                    + 1, stride * 2, residue, next, h, height - 1);
    ghost var cs2 := destination.Controls();
    next := WriteLevelOrderControls(source, destination, n / 2, rootHalf, depth + 1, stride * 2, residue + stride, next,
                                    h, height - 1);
    InnerWritten(destination.Controls(), cs2, cs1, cs0, h, depth, residue, height, run,
                 Levels(height - 1, tape[position + gateCount..middle]), Levels(height - 1, tape[middle..end]));
  }

  lemma GatesDown(height: nat)
    requires 0 < height
    ensures Gates(height) == Pow2(height - 1) + 2 * Gates(height - 1)
    ensures Pow2(height) == 2 ==> height == 1 && Gates(0) == 0 && Pow2(0) == 1
    ensures Pow2(height) != 2 ==> 1 < height
  {
    if height > 1 {
      Pow2Order(1, height);
    }
  }

  lemma LastLevel(height: nat, run: seq<Control>)
    requires height == 1 && |run| == 1
    ensures Gates(1) == 1 && Levels(1, run) == [run]
  {
    assert run[..1] == run;
  }

  lemma SubSlice<T>(s: seq<T>, a: nat, b: nat, c: nat, d: nat)
    requires a <= b <= |s| && c <= d <= b - a
    ensures s[a..b][c..d] == s[a + c..a + d]
  {
    var t, u := s[a..b][c..d], s[a + c..a + d];
    assert |t| == |u| && forall i :: 0 <= i < |t| ==> t[i] == s[a..b][c + i] == s[a + c + i] == u[i];
  }

  lemma LevelsSplit(height: nat, tape: seq<Control>, position: nat, next: nat, middle: nat, end: nat)
    requires 0 < height && next == position + Pow2(height - 1) && middle == next + Gates(height - 1)
    requires end == middle + Gates(height - 1) <= |tape|
    ensures Levels(height, tape[position..end])
         == [tape[position..next]] + Zip(Levels(height - 1, tape[next..middle]), Levels(height - 1, tape[middle..end]))
  {
    var t := tape[position..end];
    var half, top := Pow2(height - 1), Pow2(height - 1) + Gates(height - 1);
    SubSlice(tape, position, end, 0, half);
    SubSlice(tape, position, end, half, top);
    SubSlice(tape, position, end, top, |t|);
    assert t[..half] == t[0..half] && t[top..] == t[top..|t|];
  }

  /** The root's rows are the level-order tape. */
  lemma RootWritten(cs: seq<Control>, cs0: seq<Control>, h: nat, ls: seq<seq<Control>>)
    requires NodeWritten(cs, cs0, h, 0, 0, h, ls)
    ensures cs == Flatten(ls)
  {
    hide Row, View;
    forall t | 0 <= t < h ensures Row(cs, h, t) == ls[t] {
      ViewInRow(h, 0, 0, h);
      WholeView(Row(cs, h, t));
      assert View(Row(cs, h, 0 + t), 0, Pow2(0), Pow2(h - 1)) == ls[t];
    }
    RowsAreFlat(cs, h, ls, h);
    assert cs[..h * Pow2(h - 1)] == cs && ls[..h] == ls;
  }

  lemma {:induction false} RowsAreFlat(cs: seq<Control>, h: nat, ls: seq<seq<Control>>, t: nat)
    requires 0 < h && t <= h && |cs| == h * Pow2(h - 1) && IsLevels(h, ls)
    requires forall i :: 0 <= i < h ==> Row(cs, h, i) == ls[i]
    ensures t * Pow2(h - 1) <= |cs| && cs[..t * Pow2(h - 1)] == Flatten(ls[..t])
  {
    Monotone(t, h, Pow2(h - 1));
    if t > 0 {
      RowsAreFlat(cs, h, ls, t - 1);
      RowInRange(h, t - 1);
      FlattenSnoc(ls[..t - 1], ls[t - 1]);
      assert ls[..t] == ls[..t - 1] + [ls[t - 1]];
      assert t * Pow2(h - 1) == (t - 1) * Pow2(h - 1) + Pow2(h - 1);
      assert cs[..t * Pow2(h - 1)] == cs[..(t - 1) * Pow2(h - 1)] + Row(cs, h, t - 1);
    }
  }

  /** The public conversion: the level-order tape is the stages of the depth-first tape, one after the other. */
  method OFRLevelOrderControls(controls: PackedControls, n: nat, ghost h: nat) returns (level: PackedControls)
    requires controls.Valid() && 0 < h && n == Pow2(h) && controls.count == Gates(h)
    ensures fresh(level) && level.Valid()
    ensures level.Controls() == Flatten(Levels(h, controls.Controls()))
  {
    hide NodeWritten, Levels;
    TwiceGates(h);
    HeightHalf(h);
    assert Gates(h) == h * Pow2(h - 1);
    level := new PackedControls(controls.count);
    ghost var zeros := level.Controls();
    var next := WriteLevelOrderControls(controls, level, n, n / 2, 0, 1, 0, 0, h, h);
    assert controls.Controls()[0..next] == controls.Controls();
    RootWritten(level.Controls(), zeros, h, Levels(h, controls.Controls()));
  }
}
