/** Replaying a packed tape on records in place, and the end-to-end compaction built from it. */
module Replay {
  import opened Lanes
  import opened Tags
  import opened TagBits
  import opened Routing
  import opened PackedTape
  import opened Strided

  /** Two lanes of a fork layer. */
  lemma {:induction false} LayerGate<R>(cs: seq<Control>, rs: seq<R>, g: nat)
    requires |cs| == |rs| / 2 && 2 * g + 1 < |rs|
    ensures Layer(cs, rs)[2 * g] == ForkTop(cs[g], rs[2 * g], rs[2 * g + 1])
    ensures Layer(cs, rs)[2 * g + 1] == ForkBottom(cs[g], rs[2 * g], rs[2 * g + 1])
  {
    if g > 0 {
      LayerGate(cs[1..], rs[2..], g - 1);
    }
  }

  lemma {:induction false} LayerLast<R>(cs: seq<Control>, rs: seq<R>)
    requires |cs| == |rs| / 2 && |rs| % 2 == 1
    ensures Layer(cs, rs)[|rs| - 1] == rs[|rs| - 1]
  {
    if |rs| >= 2 {
      LayerLast(cs[1..], rs[2..]);
    }
  }

  /** A layer half applied to a view. */
  ghost predicate Forked<R>(s: seq<R>, s0: seq<R>, base: nat, stride: nat, n: nat, cs: seq<Control>, g: nat)
    requires |s| == |s0| && InRange(|s0|, base, stride, n) && 2 * g <= n && |cs| == n / 2
  {
    && SameOutside(s, s0, base, stride, n)
    && View(s, base, stride, n) == Layer(cs, View(s0, base, stride, n))[..2 * g] + View(s0, base, stride, n)[2 * g..]
  }

  lemma ForkedStep<R>(s: seq<R>, s0: seq<R>, base: nat, stride: nat, n: nat, cs: seq<Control>, g: nat)
    requires |s| == |s0| && InRange(|s0|, base, stride, n) && 2 * g + 1 < n && |cs| == n / 2
    requires Forked(s, s0, base, stride, n, cs, g)
    ensures Lane(base, stride, 2 * g) < Lane(base, stride, 2 * g + 1) < |s|
    ensures var a, b := Lane(base, stride, 2 * g), Lane(base, stride, 2 * g + 1);
            Forked(s[a := ForkTop(cs[g], s[a], s[b])][b := ForkBottom(cs[g], s[a], s[b])], s0, base, stride, n, cs, g
                   + 1)
  {
    LaneInRange(|s|, base, stride, n, 2 * g + 1);
    LaneOrder(base, stride, 2 * g, 2 * g + 1);
    var a, b := Lane(base, stride, 2 * g), Lane(base, stride, 2 * g + 1);
    var v0 := View(s0, base, stride, n);
    assert s[a] == View(s, base, stride, n)[2 * g] == v0[2 * g];
    assert s[b] == View(s, base, stride, n)[2 * g + 1] == v0[2 * g + 1];
    LayerGate(cs, v0, g);
    var top, bottom := ForkTop(cs[g], s[a], s[b]), ForkBottom(cs[g], s[a], s[b]);
    WriteLane(s, base, stride, n, 2 * g, top);
    WriteLane(s[a := top], base, stride, n, 2 * g + 1, bottom);
    SameOutsideChain(s[a := top][b := bottom], s[a := top], s, base, stride, n);
    SameOutsideChain(s[a := top][b := bottom], s, s0, base, stride, n);
  }

  lemma ForkedStart<R>(s0: seq<R>, base: nat, stride: nat, n: nat, cs: seq<Control>)
    requires InRange(|s0|, base, stride, n) && |cs| == n / 2
    ensures Forked(s0, s0, base, stride, n, cs, 0)
  {
    hide Layer, View;
    var v0 := View(s0, base, stride, n);
    NoneDone(Layer(cs, v0), v0);
  }

  lemma NoneDone<R>(out: seq<R>, rs: seq<R>)
    ensures |out| == |rs| ==> out[..2 * 0] + rs[2 * 0..] == rs
  {
  }

  lemma ForkedEnd<R>(s: seq<R>, s0: seq<R>, base: nat, stride: nat, n: nat, cs: seq<Control>)
    requires |s| == |s0| && InRange(|s0|, base, stride, n) && |cs| == n / 2
    requires Forked(s, s0, base, stride, n, cs, n / 2)
    ensures View(s, base, stride, n) == Layer(cs, View(s0, base, stride, n)) && SameOutside(s, s0, base, stride, n)
  {
    hide Layer, View, SameOutside;
    var v0 := View(s0, base, stride, n);
    if n % 2 == 1 {
      LayerLast(cs, v0);
    }
    AllDone(Layer(cs, v0), v0);
  }

  lemma AllDone<R>(out: seq<R>, rs: seq<R>)
    requires |out| == |rs| && (|rs| % 2 == 1 ==> out[|rs| - 1] == rs[|rs| - 1])
    ensures out[..2 * (|rs| / 2)] + rs[2 * (|rs| / 2)..] == out
  {
    var h := 2 * (|rs| / 2);
    assert h == |rs| || h == |rs| - 1;
  }

  /** A layer of gates over a strided view, read through a forward cursor. */
  method ApplyLayer<R>(data: array<R>, controls: PackedControls, base: nat, stride: nat, n: nat, position: nat)
    requires InRange(data.Length, base, stride, n)
    requires controls.Valid() && position + n / 2 <= controls.count
    modifies data
    ensures SameOutside(data[..], old(data[..]), base, stride, n)
    ensures View(data[..], base, stride, n)
         == Layer(controls.Controls()[position..position + n / 2], old(View(data[..], base, stride, n)))
  {
    hide Forked, GateAt, ControlOf;
    ghost var s0 := data[..];
    ghost var cs := controls.Controls()[position..position + n / 2];
    var cursor := new PackedControlCursor(controls.bytes, 0, controls.count, position);
    ForkedStart(s0, base, stride, n, cs);
    for gate := 0 to n / 2
      invariant cursor.Valid() && cursor.position == position + gate
      invariant cursor.bytes == controls.bytes && cursor.offset == 0 && cursor.count == controls.count
      invariant Forked(data[..], s0, base, stride, n, cs, gate)
    {
      var first := base + (2 * gate) * stride;
      assert first == Lane(base, stride, 2 * gate) && first + stride == Lane(base, stride, 2 * gate + 1);
      var control := cursor.NextUnchecked();
      assert ControlOf(control) == cs[gate];
      ForkedStep(data[..], s0, base, stride, n, cs, gate);
      ApplyOFork(data, first, first + stride, control);
    }
    ForkedEnd(data[..], s0, base, stride, n, cs);
  }

  /** One fork gate on two records: each output copies one of the two inputs. */
  method ApplyOFork<R>(data: array<R>, first: nat, second: nat, control: bv8)
    requires first < second < data.Length
    modifies data
    ensures var c, x, y := ControlOf(control), old(data[first]), old(data[second]);
            data[..] == old(data[..])[first := ForkTop(c, x, y)][second := ForkBottom(c, x, y)]
  {
    var x, y := data[first], data[second];
    if LeftBit(control) == 1 {
      data[first] := y;
    }
    if RightBit(control) != 1 {
      data[second] := x;
    }
  }

  /** The depth-first replay in place, doubling the stride instead of copying a child out. */
  method OFRApplyStrided<R>(data: array<R>, controls: PackedControls, base: nat, stride: nat, n: nat, nLeft: nat,
                            nRight: nat, position: nat)
    returns (next: nat)
    requires InRange(data.Length, base, stride, n) && n == nLeft + nRight
    requires controls.Valid() && position + TapeLength(n, nLeft) <= controls.count
    modifies data
    ensures next == position + TapeLength(n, nLeft)
    ensures SameOutside(data[..], old(data[..]), base, stride, n)
    ensures View(data[..], base, stride, n)
         == Apply(controls.Controls()[position..next], old(View(data[..], base, stride, n)), nLeft)
    decreases n, 1
  {
    hide TapeLength, Apply, View, SameOutside, Layer, Evens, Odds, Interleave, InRange, Lane;
    ghost var s0, tape := data[..], controls.Controls();
    ghost var v0 := View(s0, base, stride, n);
    TapeLengthUnfold(n, nLeft);
    if nLeft == 0 || nRight == 0 {
      SameOutsideSelf(s0, base, stride, n);
      ApplyTrivial(tape[position..position], v0, nLeft);
      return position;
    }
    if n == 2 {
      ApplyLayer(data, controls, base, stride, 2, position);
      ApplyPair(tape[position..position + 1], v0);
      return position + 1;
    }
    ApplyLayer(data, controls, base, stride, n, position);
    ghost var s1 := data[..];
    ghost var middle := position + n / 2 + TapeLength((n + 1) / 2, (nLeft + 1) / 2);
    next := ApplyChildren(data, controls, base, stride, n, nLeft, nRight, position + n / 2);
    SameOutsideChain(data[..], s1, s0, base, stride, n);
    ApplyNode(tape[position..position + n / 2], tape[position + n / 2..middle], tape[middle..next], v0, nLeft);
    JoinSlices(tape, position, position + n / 2, middle, next);
  }

  /** A tape for the even lanes followed by one for the odd lanes, replayed on a view. */
  ghost function ApplyHalves<R>(top: seq<Control>, bottom: seq<Control>, v: seq<R>, nLeft: nat): (out: seq<R>)
    requires nLeft <= |v| && |top| == TapeLength((|v| + 1) / 2, (nLeft + 1) / 2)
             && |bottom| == TapeLength(|v| / 2, nLeft / 2)
  {
    Interleave(Apply(top, Evens(v), (nLeft + 1) / 2), Apply(bottom, Odds(v), nLeft / 2))
  }

  /** The two recursive calls of the replay, on the even and on the odd lanes. */
  method ApplyChildren<R>(data: array<R>, controls: PackedControls, base: nat, stride: nat, n: nat, nLeft: nat,
                          nRight: nat, position: nat)
    returns (next: nat)
    requires InRange(data.Length, base, stride, n)
    requires n == nLeft + nRight && 2 < n
    requires controls.Valid()
    requires position + TapeLength((n + 1) / 2, (nLeft + 1) / 2) + TapeLength(n / 2, nLeft / 2) <= controls.count
    modifies data
    ensures next == position + TapeLength((n + 1) / 2, (nLeft + 1) / 2) + TapeLength(n / 2, nLeft / 2)
    ensures SameOutside(data[..], old(data[..]), base, stride, n)
    ensures var middle := position + TapeLength((n + 1) / 2, (nLeft + 1) / 2);
            View(data[..], base, stride, n)
            == ApplyHalves(controls.Controls()[position..middle], controls.Controls()[middle..next],
                           old(View(data[..], base, stride, n)), nLeft)
    decreases n, 0
  {
    hide TapeLength, Apply, View, SameOutside, Interleave;
    ghost var s1 := data[..];
    SplitView(s1, base, stride, n);
    var topLeft := nLeft / 2 + nLeft % 2;
    var topRight := n / 2 + n % 2 - topLeft;
    assert n / 2 + n % 2 == (n + 1) / 2 && topLeft == (nLeft + 1) / 2 && nLeft - topLeft == nLeft / 2
      && topRight <= nRight;
    next := OFRApplyStrided(data, controls, base, 2 * stride, n / 2 + n % 2, topLeft, topRight, position);
    ghost var s2 := data[..];
    OddsUntouched(s2, s1, base, stride, n);
    SplitView(s2, base, stride, n);
    next := OFRApplyStrided(data, controls, base + stride, 2 * stride, n / 2, nLeft - topLeft, nRight - topRight, next);
    JoinReplayed(s1, s2, data[..], base, stride, n);
  }

  /** The even lanes rewritten first, then the odd lanes: the view is their interleaving. */
  lemma JoinReplayed<R>(s1: seq<R>, s2: seq<R>, s3: seq<R>, base: nat, stride: nat, n: nat)
    requires |s1| == |s2| == |s3| && InRange(|s1|, base, stride, n)
    requires InRange(|s1|, base, 2 * stride, (n + 1) / 2) && InRange(|s1|, base + stride, 2 * stride, n / 2)
    requires SameOutside(s2, s1, base, 2 * stride, (n + 1) / 2) && SameOutside(s3, s2, base + stride, 2 * stride, n / 2)
    ensures View(s3, base, stride, n)
         == Interleave(View(s2, base, 2 * stride, (n + 1) / 2), View(s3, base + stride, 2 * stride, n / 2))
    ensures SameOutside(s3, s1, base, stride, n)
  {
    hide View, SameOutside, Interleave;
    OddsUntouched(s2, s1, base, stride, n);
    EvensUntouched(s3, s2, base, stride, n);
    SplitView(s2, base, stride, n);
    SplitView(s3, base, stride, n);
    InterleaveSplit(View(s3, base, stride, n));
    SameOutsideChain(s3, s2, s1, base, stride, n);
  }

  lemma JoinSlices<T>(s: seq<T>, a: nat, b: nat, c: nat, d: nat)
    requires a <= b <= c <= d <= |s|
    ensures s[a..b] + s[b..c] + s[c..d] == s[a..d]
  {
  }
}
