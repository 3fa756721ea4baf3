/** The three orders a balanced network over 2^h lanes is replayed in, and why they compute the same records. */
module Schedules {
  import opened Lanes
  import opened Tags
  import opened Powers
  import opened Routing

  /** Half a block's gates: lane i with lane i + s, for one block of 2s lanes. */
  function Merge<R>(cs: seq<Control>, rs: seq<R>): (out: seq<R>)
    requires |rs| == 2 * |cs|
    ensures |out| == |rs|
  {
    seq(|cs|, i requires 0 <= i < |cs| => ForkTop(cs[i], rs[i], rs[|cs| + i]))
    + seq(|cs|, i requires 0 <= i < |cs| => ForkBottom(cs[i], rs[i], rs[|cs| + i]))
  }

  /** Stage t of a network over 2^h lanes: blocks of 2^(t+1) lanes, gates 2^t apart. */
  function Stage<R>(h: nat, t: nat, cs: seq<Control>, rs: seq<R>): (out: seq<R>)
    requires t < h && |rs| == Pow2(h) && |cs| == Pow2(h - 1)
    ensures |out| == |rs|
    decreases h
  {
    if h == t + 1 then Merge(cs, rs)
    else Stage(h - 1, t, cs[..|cs| / 2], rs[..|rs| / 2]) + Stage(h - 1, t, cs[|cs| / 2..], rs[|rs| / 2..])
  }

  /** The controls of a network, stage by stage. */
  ghost predicate IsLevels(h: nat, ls: seq<seq<Control>>) {
    |ls| == h && forall t :: 0 <= t < h ==> |ls[t]| == Pow2(h - 1)
  }

  /** Stages t to e - 1, in order: the level-order replay. */
  function RunStages<R>(h: nat, t: nat, e: nat, ls: seq<seq<Control>>, rs: seq<R>): (out: seq<R>)
    requires t <= e <= |ls| && e <= h && |rs| == Pow2(h)
    requires forall i :: 0 <= i < e ==> |ls[i]| == Pow2(h - 1)
    ensures |out| == |rs|
    decreases e - t
  {
    if t == e then rs else RunStages(h, t + 1, e, ls, Stage(h, t, ls[t], rs))
  }

  /** Gates of a balanced network over 2^h lanes. */
  function Gates(h: nat): nat {
    if h == 0 then 0 else Pow2(h - 1) + 2 * Gates(h - 1)
  }

  function Zip(a: seq<seq<Control>>, b: seq<seq<Control>>): (r: seq<seq<Control>>)
    requires |a| == |b| && forall t :: 0 <= t < |a| ==> |a[t]| == |b[t]|
    ensures |r| == |a| && forall t :: 0 <= t < |a| ==> r[t] == Interleave(a[t], b[t])
  {
    seq(|a|, t requires 0 <= t < |a| => Interleave(a[t], b[t]))
  }

  lemma GatesUnfold(t: nat)
    requires 0 < t
    ensures Gates(t) == Pow2(t - 1) + 2 * Gates(t - 1) && (t == 1 ==> Gates(t) == 1)
  {
  }

  /** The stages of a depth-first tape: its first layer, then the children's stages interleaved lane by lane. */
  function Levels(h: nat, tape: seq<Control>): (ls: seq<seq<Control>>)
    requires |tape| == Gates(h)
    ensures IsLevels(h, ls)
  {
    if h == 0 then []
    else
      var half, top := Pow2(h - 1), Pow2(h - 1) + Gates(h - 1);
      [tape[..half]] + Zip(Levels(h - 1, tape[half..top]), Levels(h - 1, tape[top..]))
  }

  /** The gates of the even or the odd subtree: after the layer, one after the other. */
  function Subtape(h: nat, tape: seq<Control>, odd: bool): (r: seq<Control>)
    requires 0 < h && |tape| == Gates(h)
    ensures |r| == Gates(h - 1)
  {
    var half, top := Pow2(h - 1), Pow2(h - 1) + Gates(h - 1);
    if odd then tape[top..] else tape[half..top]
  }

  lemma SubtapeOfParts(h: nat, layer: seq<Control>, a: seq<Control>, b: seq<Control>, odd: bool)
    requires 0 < h && |layer| == Pow2(h - 1) && |a| == |b| == Gates(h - 1)
    ensures |layer + a + b| == Gates(h) && Subtape(h, layer + a + b, odd) == if odd then b else a
  {
  }

  /** Gate i of stage d is the control c. */
  ghost predicate GateHolds(h: nat, tape: seq<Control>, d: nat, i: nat, c: Control) {
    d < h && |tape| == Gates(h) && i < Pow2(h - 1) && Levels(h, tape)[d][i] == c
  }

  lemma FirstLevel(h: nat, tape: seq<Control>)
    requires 0 < h && |tape| == Gates(h)
    ensures Levels(h, tape)[0] == tape[..Pow2(h - 1)]
  {
  }

  /** A deeper stage takes its even gates from the even subtree's stage and its odd gates from the odd one's. */
  lemma InnerLevel(h: nat, tape: seq<Control>, d: nat, i: nat, odd: bool, c: Control)
    requires 0 < d && 0 < h && |tape| == Gates(h) && GateHolds(h - 1, Subtape(h, tape, odd), d - 1, i, c)
    ensures GateHolds(h, tape, d, if odd then 2 * i + 1 else 2 * i, c)
  {
    hide Interleave, Pow2, Gates, Levels, Subtape;
    Pow2Unfold(h - 1);
    LevelOfParts(h, tape, d);
    InterleaveAt(Levels(h - 1, Subtape(h, tape, false))[d - 1], Levels(h - 1, Subtape(h, tape, true))[d - 1], i);
  }

  lemma LevelOfParts(h: nat, tape: seq<Control>, d: nat)
    requires 0 < d < h && |tape| == Gates(h)
    ensures Levels(h, tape)[d] == Interleave(Levels(h - 1, Subtape(h, tape, false))[d - 1],
                                             Levels(h - 1, Subtape(h, tape, true))[d - 1])
  {
    hide Interleave;
  }

  /** Below the last stage, the two halves of the lanes do not meet. */
  lemma StageConcat<R>(h: nat, t: nat, c1: seq<Control>, c2: seq<Control>, r1: seq<R>, r2: seq<R>)
    requires t + 1 < h && |r1| == |r2| == Pow2(h - 1) && |c1| == |c2| == Pow2(h - 2)
    ensures Stage(h, t, c1 + c2, r1 + r2) == Stage(h - 1, t, c1, r1) + Stage(h - 1, t, c2, r2)
  {
    var cs, rs := c1 + c2, r1 + r2;
    assert cs[..|cs| / 2] == c1 && cs[|cs| / 2..] == c2 && rs[..|rs| / 2] == r1 && rs[|rs| / 2..] == r2;
  }

  lemma Halves<T>(s: seq<T>, p: nat)
    requires p <= |s|
    ensures s[..p] + s[p..] == s
  {
  }

  /** Interleaving commutes with a stage: the next stage of the two lanes together. */
  lemma {:induction false} StageInterleave<R>(h: nat, t: nat, a: seq<Control>, b: seq<Control>, x: seq<R>, y: seq<R>)
    requires t < h && |x| == |y| == Pow2(h) && |a| == |b| == Pow2(h - 1)
    ensures Stage(h + 1, t + 1, Interleave(a, b), Interleave(x, y)) == Interleave(Stage(h, t, a, x), Stage(h, t, b, y))
    decreases h
  {
    if h == t + 1 {
      MergeInterleave(a, b, x, y);
    } else {
      hide Stage, Interleave;
      var p, q := Pow2(h - 2), Pow2(h - 1);
      StageInterleave(h - 1, t, a[..p], b[..p], x[..q], y[..q]);
      StageInterleave(h - 1, t, a[p..], b[p..], x[q..], y[q..]);
      StageInterleaveStep(h, t, a[..p], a[p..], b[..p], b[p..], x[..q], x[q..], y[..q], y[q..]);
      Halves(a, p);
      Halves(b, p);
      Halves(x, q);
      Halves(y, q);
    }
  }

  lemma StageInterleaveStep<R>(h: nat, t: nat, a1: seq<Control>, a2: seq<Control>, b1: seq<Control>, b2: seq<Control>,
                               x1: seq<R>, x2: seq<R>, y1: seq<R>, y2: seq<R>)
    requires t + 1 < h && |x1| == |x2| == |y1| == |y2| == Pow2(h - 1) && |a1| == |a2| == |b1| == |b2| == Pow2(h - 2)
    requires Stage(h, t + 1, Interleave(a1, b1), Interleave(x1, y1))
             == Interleave(Stage(h - 1, t, a1, x1), Stage(h - 1, t, b1, y1))
    requires Stage(h, t + 1, Interleave(a2, b2), Interleave(x2, y2))
             == Interleave(Stage(h - 1, t, a2, x2), Stage(h - 1, t, b2, y2))
    ensures Stage(h + 1, t + 1, Interleave(a1 + a2, b1 + b2), Interleave(x1 + x2, y1 + y2))
         == Interleave(Stage(h, t, a1 + a2, x1 + x2), Stage(h, t, b1 + b2, y1 + y2))
  {
    hide Stage;
    InterleaveConcat(a1, a2, b1, b2);
    InterleaveConcat(x1, x2, y1, y2);
    StageConcat(h + 1, t + 1, Interleave(a1, b1), Interleave(a2, b2), Interleave(x1, y1), Interleave(x2, y2));
    StageConcat(h, t, a1, a2, x1, x2);
    StageConcat(h, t, b1, b2, y1, y2);
    InterleaveConcat(Stage(h - 1, t, a1, x1), Stage(h - 1, t, a2, x2), Stage(h - 1, t, b1, y1),
                     Stage(h - 1, t, b2, y2));
  }

  lemma MergeInterleave<R>(a: seq<Control>, b: seq<Control>, x: seq<R>, y: seq<R>)
    requires |a| == |b| && |x| == |y| == 2 * |a|
    ensures Merge(Interleave(a, b), Interleave(x, y)) == Interleave(Merge(a, x), Merge(b, y))
  {
    hide Merge, Interleave;
    var n, left, right := |a|, Merge(Interleave(a, b), Interleave(x, y)), Interleave(Merge(a, x), Merge(b, y));
    forall j | 0 <= j < 2 * n ensures SamePair(left, right, j) {
      if j < n {
        MergeTops(a, b, x, y, j);
      } else {
        MergeBottoms(a, b, x, y, j - n);
      }
    }
    PairsDecide(left, right);
  }

  lemma MergeTops<R>(a: seq<Control>, b: seq<Control>, x: seq<R>, y: seq<R>, i: nat)
    requires |a| == |b| && |x| == |y| == 2 * |a| && i < |a|
    ensures SamePair(Merge(Interleave(a, b), Interleave(x, y)), Interleave(Merge(a, x), Merge(b, y)), i)
  {
    hide Merge, Interleave, ForkTop, ForkBottom;
    LanesAt(a, b, x, y, i);
    InterleaveAt(Merge(a, x), Merge(b, y), i);
  }

  lemma MergeBottoms<R>(a: seq<Control>, b: seq<Control>, x: seq<R>, y: seq<R>, i: nat)
    requires |a| == |b| && |x| == |y| == 2 * |a| && i < |a|
    ensures SamePair(Merge(Interleave(a, b), Interleave(x, y)), Interleave(Merge(a, x), Merge(b, y)), |a| + i)
  {
    hide Merge, Interleave, ForkTop, ForkBottom;
    LanesAt(a, b, x, y, i);
    InterleaveAt(Merge(a, x), Merge(b, y), |a| + i);
  }

  /** The four lanes that gate i of either side and its interleaved gates move. */
  lemma LanesAt<R>(a: seq<Control>, b: seq<Control>, x: seq<R>, y: seq<R>, i: nat)
    requires |a| == |b| && |x| == |y| == 2 * |a| && i < |a|
    ensures var n, left := |a|, Merge(Interleave(a, b), Interleave(x, y));
            && left[2 * i] == ForkTop(a[i], x[i], x[n + i]) == Merge(a, x)[i]
            && left[2 * i + 1] == ForkTop(b[i], y[i], y[n + i]) == Merge(b, y)[i]
            && left[2 * (n + i)] == ForkBottom(a[i], x[i], x[n + i]) == Merge(a, x)[n + i]
            && left[2 * (n + i) + 1] == ForkBottom(b[i], y[i], y[n + i]) == Merge(b, y)[n + i]
  {
    hide Merge, Interleave, ForkTop, ForkBottom;
    InterleaveAt(a, b, i);
    InterleaveAt(x, y, i);
    InterleaveAt(x, y, |a| + i);
    MergeAt(a, x, i);
    MergeAt(b, y, i);
    MergeAt(Interleave(a, b), Interleave(x, y), 2 * i);
    MergeAt(Interleave(a, b), Interleave(x, y), 2 * i + 1);
  }

  /** Two sequences agree on the lanes of pair i. */
  ghost predicate SamePair<T>(s: seq<T>, t: seq<T>, i: nat) {
    2 * i + 1 < |s| == |t| && s[2 * i] == t[2 * i] && s[2 * i + 1] == t[2 * i + 1]
  }

  lemma MergeAt<R>(cs: seq<Control>, rs: seq<R>, i: nat)
    requires |rs| == 2 * |cs| && i < |cs|
    ensures Merge(cs, rs)[i] == ForkTop(cs[i], rs[i], rs[|cs| + i])
    ensures Merge(cs, rs)[|cs| + i] == ForkBottom(cs[i], rs[i], rs[|cs| + i])
  {
  }

  lemma PairsDecide<T>(s: seq<T>, t: seq<T>)
    requires |s| == |t| && |s| % 2 == 0 && forall i :: 0 <= i < |s| / 2 ==> SamePair(s, t, i)
    ensures s == t
  {
    forall j | 0 <= j < |s| ensures s[j] == t[j] {
      assert SamePair(s, t, j / 2);
    }
  }

  lemma InterleaveConcat<T>(a: seq<T>, a': seq<T>, b: seq<T>, b': seq<T>)
    requires |a| == |b| && |a'| == |b'|
    ensures Interleave(a + a', b + b') == Interleave(a, b) + Interleave(a', b')
  {
  }

  lemma {:induction false} RunInterleave<R>(h: nat, t: nat, first: seq<Control>, a: seq<seq<Control>>,
                                            b: seq<seq<Control>>,
                                            x: seq<R>, y: seq<R>)
    requires t <= h && IsLevels(h, a) && IsLevels(h, b) && |x| == |y| == Pow2(h) && |first| == Pow2(h)
    ensures var ls := [first] + Zip(a, b);
            && IsLevels(h + 1, ls)
            && RunStages(h + 1, t + 1, h + 1, ls, Interleave(x, y))
                == Interleave(RunStages(h, t, h, a, x), RunStages(h, t, h, b, y))
    decreases h - t
  {
    var ls := [first] + Zip(a, b);
    assert IsLevels(h + 1, ls) by {
      forall i | 0 <= i < h + 1 ensures |ls[i]| == Pow2(h) {}
    }
    if t < h {
      StageInterleave(h, t, a[t], b[t], x, y);
      RunInterleave(h, t + 1, first, a, b, Stage(h, t, a[t], x), Stage(h, t, b[t], y));
    }
  }

  /** The first layer of the network is its stage zero. */
  lemma {:induction false} LayerIsStage<R>(h: nat, cs: seq<Control>, rs: seq<R>)
    requires 0 < h && |rs| == Pow2(h) && |cs| == Pow2(h - 1)
    ensures Layer(cs, rs) == Stage(h, 0, cs, rs)
    decreases h
  {
    if h == 1 {
      assert Layer(cs[1..], rs[2..]) == [];
    } else {
      var p, q := Pow2(h - 2), Pow2(h - 1);
      hide Stage, Layer;
      LayerIsStage(h - 1, cs[..p], rs[..q]);
      LayerIsStage(h - 1, cs[p..], rs[q..]);
      LayerConcat(cs[..p], cs[p..], rs[..q], rs[q..]);
      StageConcat(h, 0, cs[..p], cs[p..], rs[..q], rs[q..]);
      Halves(cs, p);
      Halves(rs, q);
    }
  }

  lemma {:induction false} LayerConcat<R>(c1: seq<Control>, c2: seq<Control>, r1: seq<R>, r2: seq<R>)
    requires |r1| == 2 * |c1| && |c2| == |r2| / 2
    ensures Layer(c1 + c2, r1 + r2) == Layer(c1, r1) + Layer(c2, r2)
  {
    hide Layer, ForkTop, ForkBottom;
    if c1 == [] {
      NoLayer(c1, r1);
      assert c1 + c2 == c2 && r1 + r2 == r2;
    } else {
      LayerConcat(c1[1..], c2, r1[2..], r2);
      assert (c1 + c2)[1..] == c1[1..] + c2 && (r1 + r2)[2..] == r1[2..] + r2;
      FirstGate(c1, r1);
      FirstGate(c1 + c2, r1 + r2);
      var gate := [ForkTop(c1[0], r1[0], r1[1]), ForkBottom(c1[0], r1[0], r1[1])];
      assert gate + (Layer(c1[1..], r1[2..]) + Layer(c2, r2)) == (gate + Layer(c1[1..], r1[2..])) + Layer(c2, r2);
    }
  }

  lemma NoLayer<R>(cs: seq<Control>, rs: seq<R>)
    requires rs == [] && cs == []
    ensures Layer(cs, rs) == []
  {
  }

  lemma FirstGate<R>(cs: seq<Control>, rs: seq<R>)
    requires |cs| == |rs| / 2 && 2 <= |rs|
    ensures Layer(cs, rs)
            == [ForkTop(cs[0], rs[0], rs[1]), ForkBottom(cs[0], rs[0], rs[1])] + Layer(cs[1..], rs[2..])
  {
  }

  lemma TapeOfHalves(h: nat, half: nat)
    requires 1 < h && half == Pow2(h - 1) && Pow2(h) == 2 * half && half % 2 == 0 && 0 < half
    ensures TapeLength(Pow2(h), half) == half + 2 * TapeLength(half, half / 2)
  {
    hide Pow2;
    assert (half + 1) / 2 == half / 2;
  }

  lemma {:induction false} GatesAreTapeLength(h: nat)
    ensures TapeLength(Pow2(h), Pow2(h) / 2) == Gates(h)
  {
    if h == 1 {
      assert Gates(0) == 0;
    } else if h > 1 {
      GatesAreTapeLength(h - 1);
      Pow2Unfold(h);
      Pow2Unfold(h - 1);
      TapeOfHalves(h, Pow2(h - 1));
    }
  }

  lemma DepthFirstNode<R>(h: nat, layer: seq<Control>, a: seq<Control>, b: seq<Control>, rs: seq<R>)
    requires 1 < h && |rs| == Pow2(h) && |layer| == Pow2(h - 1) && |a| == |b| == Gates(h - 1)
    ensures |Evens(Layer(layer, rs))| == |Odds(Layer(layer, rs))| == Pow2(h - 1)
    ensures TapeLength(Pow2(h - 1), Pow2(h - 1) / 2) == Gates(h - 1) && TapeLength(Pow2(h), Pow2(h) / 2) == Gates(h)
    ensures Apply(layer + a + b, rs, Pow2(h) / 2)
         == Interleave(Apply(a, Evens(Layer(layer, rs)), Pow2(h - 1) / 2),
                       Apply(b, Odds(Layer(layer, rs)), Pow2(h - 1) / 2))
  {
    hide Apply, TapeLength, Interleave;
    GatesAreTapeLength(h);
    GatesAreTapeLength(h - 1);
    assert Pow2(h - 1) == 2 * Pow2(h - 2);
    ApplyNode(layer, a, b, rs, Pow2(h - 1));
  }

  /** Depth-first replay is level-order replay of the tape's stages, for every control tape. */
  lemma {:induction false} DepthFirstIsLevelOrder<R>(h: nat, tape: seq<Control>, rs: seq<R>)
    requires |rs| == Pow2(h) && |tape| == Gates(h)
    ensures TapeLength(|rs|, |rs| / 2) == Gates(h)
    ensures Apply(tape, rs, |rs| / 2) == RunStages(h, 0, h, Levels(h, tape), rs)
  {
    hide Apply, RunStages, Levels, Layer, TapeLength, Interleave, Evens, Odds;
    GatesAreTapeLength(h);
    if h <= 1 {
      SmallNetwork(h, tape, rs);
    } else {
      var half, top := Pow2(h - 1), Pow2(h - 1) + Gates(h - 1);
      var layer, a, b := tape[..half], tape[half..top], tape[top..];
      DepthFirstNode(h, layer, a, b, rs);
      var mid := Layer(layer, rs);
      DepthFirstIsLevelOrder(h - 1, a, Evens(mid));
      DepthFirstIsLevelOrder(h - 1, b, Odds(mid));
      LevelOrderNode(h, layer, a, b, rs);
      assert layer + a + b == tape;
    }
  }

  lemma SmallNetwork<R>(h: nat, tape: seq<Control>, rs: seq<R>)
    requires h <= 1 && |rs| == Pow2(h) && |tape| == Gates(h)
    ensures TapeLength(|rs|, |rs| / 2) == Gates(h)
    ensures Apply(tape, rs, |rs| / 2) == RunStages(h, 0, h, Levels(h, tape), rs)
  {
    if h == 1 {
      LayerIsStage(1, tape, rs);
      assert tape[..1] == tape;
    }
  }

  /** Running a node's stages is running the children's stages on the lanes its first layer leaves. */
  lemma RunUnfold<R>(h: nat, t: nat, ls: seq<seq<Control>>, rs: seq<R>)
    requires t < h && IsLevels(h, ls) && |rs| == Pow2(h)
    ensures RunStages(h, t, h, ls, rs) == RunStages(h, t + 1, h, ls, Stage(h, t, ls[t], rs))
  {
  }

  lemma LevelsOfParts(h: nat, layer: seq<Control>, a: seq<Control>, b: seq<Control>)
    requires 0 < h && |layer| == Pow2(h - 1) && |a| == |b| == Gates(h - 1)
    ensures |layer + a + b| == Gates(h)
    ensures Levels(h, layer + a + b) == [layer] + Zip(Levels(h - 1, a), Levels(h - 1, b))
  {
    var tape, half, top := layer + a + b, Pow2(h - 1), Pow2(h - 1) + Gates(h - 1);
    assert tape[..half] == layer && tape[half..top] == a && tape[top..] == b;
  }

  lemma LevelOrderNode<R>(h: nat, layer: seq<Control>, a: seq<Control>, b: seq<Control>, rs: seq<R>)
    requires 1 < h && |rs| == Pow2(h) && |layer| == Pow2(h - 1) && |a| == |b| == Gates(h - 1)
    ensures |Evens(Layer(layer, rs))| == |Odds(Layer(layer, rs))| == Pow2(h - 1)
    ensures RunStages(h, 0, h, Levels(h, layer + a + b), rs)
         == Interleave(RunStages(h - 1, 0, h - 1, Levels(h - 1, a), Evens(Layer(layer, rs))),
                       RunStages(h - 1, 0, h - 1, Levels(h - 1, b), Odds(Layer(layer, rs))))
  {
    hide Layer, Levels, RunStages, Interleave, Evens, Odds, Gates, Pow2;
    Pow2Unfold(h);
    var mid := Layer(layer, rs);
    LevelsOfParts(h, layer, a, b);
    LayerIsStage(h, layer, rs);
    RunUnfold(h, 0, Levels(h, layer + a + b), rs);
    InterleaveSplit(mid);
    RunInterleave(h - 1, 0, layer, Levels(h - 1, a), Levels(h - 1, b), Evens(mid), Odds(mid));
  }
}
