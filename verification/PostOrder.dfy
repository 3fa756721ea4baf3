/** The contiguous postorder: route the two halves of the lanes first, then the gates that join them. */
module PostOrder {
  import opened Tags
  import opened Powers
  import opened Routing
  import opened Schedules

  /** The stages below the last one, restricted to the first or to the second half of the lanes. */
  function HalfLevels(h: nat, ls: seq<seq<Control>>, second: bool): (r: seq<seq<Control>>)
    requires 0 < h && IsLevels(h, ls)
    ensures IsLevels(h - 1, r)
  {
    seq(h - 1, t requires 0 <= t < h - 1 =>
      if second then ls[t][Pow2(h - 1) / 2..] else ls[t][..Pow2(h - 1) / 2])
  }

  /** The postorder tape of a network given by its stages. */
  function PostTape(h: nat, ls: seq<seq<Control>>): (tape: seq<Control>)
    requires IsLevels(h, ls)
    ensures |tape| == Gates(h)
    decreases h
  {
    if h == 0 then []
    else PostTape(h - 1, HalfLevels(h, ls, false)) + PostTape(h - 1, HalfLevels(h, ls, true)) + ls[h - 1]
  }

  /** Replay of a postorder tape. */
  function PostApply<R>(h: nat, tape: seq<Control>, rs: seq<R>): (out: seq<R>)
    requires |rs| == Pow2(h) && |tape| == Gates(h)
    ensures |out| == |rs|
    decreases h
  {
    if h == 0 then rs
    else
      var g, half := Gates(h - 1), Pow2(h - 1);
      Merge(tape[2 * g..], PostApply(h - 1, tape[..g], rs[..half]) + PostApply(h - 1, tape[g..2 * g], rs[half..]))
  }

  lemma HalfLevelsParts(h: nat, ls: seq<seq<Control>>, t: nat)
    requires t < h - 1 && IsLevels(h, ls)
    ensures HalfLevels(h, ls, false)[t] == ls[t][..Pow2(h - 1) / 2]
            && HalfLevels(h, ls, true)[t] == ls[t][Pow2(h - 1) / 2..]
  {
  }

  /** Up to the last stage, a level-order run works on the two halves separately. */
  lemma {:induction false} RunConcat<R>(h: nat, t: nat, ls: seq<seq<Control>>, x: seq<R>, y: seq<R>)
    requires 0 < h && t <= h - 1 && IsLevels(h, ls) && |x| == |y| == Pow2(h - 1)
    ensures RunStages(h, t, h - 1, ls, x + y)
         == RunStages(h - 1, t, h - 1, HalfLevels(h, ls, false), x)
            + RunStages(h - 1, t, h - 1, HalfLevels(h, ls, true), y)
    decreases h - t
  {
    hide Stage, HalfLevels;
    if t < h - 1 {
      var p := Pow2(h - 1) / 2;
      var c1, c2 := ls[t][..p], ls[t][p..];
      HalfLevelsParts(h, ls, t);
      Halves(ls[t], p);
      StageConcat(h, t, c1, c2, x, y);
      RunConcat(h, t + 1, ls, Stage(h - 1, t, c1, x), Stage(h - 1, t, c2, y));
    }
  }

  lemma {:induction false} RunLast<R>(h: nat, t: nat, ls: seq<seq<Control>>, rs: seq<R>)
    requires t < h && IsLevels(h, ls) && |rs| == Pow2(h)
    ensures RunStages(h, t, h, ls, rs) == Merge(ls[h - 1], RunStages(h, t, h - 1, ls, rs))
    decreases h - t
  {
    if t < h - 1 {
      RunLast(h, t + 1, ls, Stage(h, t, ls[t], rs));
    } else {
      assert RunStages(h, h, h, ls, Stage(h, t, ls[t], rs)) == Stage(h, t, ls[t], rs);
    }
  }

  /** Postorder replay of a network's postorder tape is its level-order replay. */
  lemma {:induction false} PostOrderIsLevelOrder<R>(h: nat, ls: seq<seq<Control>>, rs: seq<R>)
    requires IsLevels(h, ls) && |rs| == Pow2(h)
    ensures PostApply(h, PostTape(h, ls), rs) == RunStages(h, 0, h, ls, rs)
    decreases h
  {
    if h > 0 {
      hide RunStages, HalfLevels;
      var a, b := HalfLevels(h, ls, false), HalfLevels(h, ls, true);
      var x, y := rs[..Pow2(h - 1)], rs[Pow2(h - 1)..];
      PostNode(h, PostTape(h - 1, a), PostTape(h - 1, b), ls[h - 1], rs);
      PostOrderIsLevelOrder(h - 1, a, x);
      PostOrderIsLevelOrder(h - 1, b, y);
      Halves(rs, Pow2(h - 1));
      RunConcat(h, 0, ls, x, y);
      RunLast(h, 0, ls, rs);
    } else {
      assert rs == RunStages(0, 0, 0, ls, rs);
    }
  }

  lemma PostNode<R>(h: nat, a: seq<Control>, b: seq<Control>, last: seq<Control>, rs: seq<R>)
    requires 0 < h && |a| == |b| == Gates(h - 1) && |last| == Pow2(h - 1) && |rs| == Pow2(h)
    ensures PostApply(h, a + b + last, rs)
         == Merge(last, PostApply(h - 1, a, rs[..Pow2(h - 1)]) + PostApply(h - 1, b, rs[Pow2(h - 1)..]))
  {
    var tape, g := a + b + last, Gates(h - 1);
    assert tape[..g] == a && tape[g..2 * g] == b && tape[2 * g..] == last;
  }

  /** The conversion from a depth-first tape to a postorder tape. */
  function PostOrderControls(h: nat, tape: seq<Control>): (r: seq<Control>)
    requires |tape| == Gates(h)
    ensures |r| == Gates(h)
  {
    PostTape(h, Levels(h, tape))
  }

  /**
   * Schedules agree: for every network of two to the h lanes and every control tape, replaying it depth first,
   * replaying its stages level by level and replaying its postorder tape give the same records.
   */
  lemma SchedulesAgree<R>(h: nat, tape: seq<Control>, rs: seq<R>)
    requires |rs| == Pow2(h) && |tape| == Gates(h)
    ensures TapeLength(|rs|, |rs| / 2) == Gates(h)
    ensures Apply(tape, rs, |rs| / 2) == RunStages(h, 0, h, Levels(h, tape), rs)
            == PostApply(h, PostOrderControls(h, tape), rs)
  {
    DepthFirstIsLevelOrder(h, tape, rs);
    PostOrderIsLevelOrder(h, Levels(h, tape), rs);
  }
}
