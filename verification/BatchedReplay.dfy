/** Level-order and postorder replay in place, four gates at a time. */
module BatchedReplay {
  import opened Flattening
  import opened Products
  import opened Powers
  import opened Tags
  import opened TagBits
  import opened PackedTape
  import opened Replay
  import opened Schedules
  import opened PostOrder
  import opened CarryStarts

  /** count controls of the packed stream from gate g on. */
  ghost function Upcoming(bytes: seq<bv8>, g: nat, count: nat): (cs: seq<Control>)
    requires g + count <= 4 * |bytes|
    ensures |cs| == count && forall i :: 0 <= i < count ==> cs[i] == ControlOf(GateAt(bytes, g + i))
  {
    seq(count, i requires 0 <= i < count => ControlOf(GateAt(bytes, g + i)))
  }

  /** g gates of a merge of the count lanes from first on with the count lanes after them have run. */
  ghost predicate Merged<R>(s: seq<R>, s0: seq<R>, first: nat, cs: seq<Control>, g: nat) {
    && |s| == |s0| && first + 2 * |cs| <= |s0| && g <= |cs|
    && forall p :: 0 <= p < |s| ==> s[p] == MergedLane(s0, first, cs, g, p)
  }

  ghost function MergedLane<R>(s0: seq<R>, first: nat, cs: seq<Control>, g: nat, p: nat): R
    requires first + 2 * |cs| <= |s0| && g <= |cs| && p < |s0|
  {
    var second := first + |cs|;
    if first <= p < first + g then ForkTop(cs[p - first], s0[p], s0[p + |cs|])
    else if second <= p < second + g then ForkBottom(cs[p - second], s0[p - |cs|], s0[p])
    else s0[p]
  }

  lemma MergedStep<R>(s: seq<R>, s0: seq<R>, first: nat, cs: seq<Control>, g: nat)
    requires Merged(s, s0, first, cs, g) && g < |cs|
    ensures var a, b := first + g, first + |cs| + g;
            Merged(s[a := ForkTop(cs[g], s[a], s[b])][b := ForkBottom(cs[g], s[a], s[b])], s0, first, cs, g + 1)
  {
  }

  /** A whole buffer with one block of lanes merged. */
  ghost function MergeBlock<R>(s: seq<R>, first: nat, cs: seq<Control>): (r: seq<R>)
    requires first + 2 * |cs| <= |s|
    ensures |r| == |s|
  {
    s[..first] + Merge(cs, s[first..first + 2 * |cs|]) + s[first + 2 * |cs|..]
  }

  lemma MergedEnds<R>(s: seq<R>, s0: seq<R>, first: nat, cs: seq<Control>)
    requires first + 2 * |cs| <= |s0|
    ensures Merged(s0, s0, first, cs, 0)
    ensures Merged(s, s0, first, cs, |cs|) ==> s == MergeBlock(s0, first, cs)
  {
  }

  /** Four independent gates from one packed byte, lane j with lane j + distance. */
  method ApplyFourIndependent<R>(data: array<R>, first: nat, second: nat, packed: bv8)
    requires first + 4 <= second && second + 4 <= data.Length
    modifies data
    ensures data[..] == FourForks(old(data[..]), first, second, packed)
  {
    ApplyOFork(data, first, second, packed & 3);
    ApplyOFork(data, first + 1, second + 1, (packed >> 2) & 3);
    ApplyOFork(data, first + 2, second + 2, (packed >> 4) & 3);
    ApplyOFork(data, first + 3, second + 3, packed >> 6);
    LastSlot(packed);
  }

  lemma LastSlot(packed: bv8)
    ensures packed >> 6 == GetSlot(packed, 3) && (packed >> 4) & 3 == GetSlot(packed, 2)
    ensures (packed >> 2) & 3 == GetSlot(packed, 1) && packed & 3 == GetSlot(packed, 0)
  {
  }

  /** One gate between two lanes. */
  ghost function ForkLanes<R>(s: seq<R>, a: nat, b: nat, c: Control): (r: seq<R>)
    requires a < b < |s|
    ensures |r| == |s|
  {
    s[a := ForkTop(c, s[a], s[b])][b := ForkBottom(c, s[a], s[b])]
  }

  ghost function FourForks<R>(s: seq<R>, first: nat, second: nat, packed: bv8): (r: seq<R>)
    requires first + 4 <= second && second + 4 <= |s|
    ensures |r| == |s|
  {
    var s1 := ForkLanes(s, first, second, ControlOf(GetSlot(packed, 0)));
    var s2 := ForkLanes(s1, first + 1, second + 1, ControlOf(GetSlot(packed, 1)));
    var s3 := ForkLanes(s2, first + 2, second + 2, ControlOf(GetSlot(packed, 2)));
    ForkLanes(s3, first + 3, second + 3, ControlOf(GetSlot(packed, 3)))
  }

  lemma FourSteps<R>(s: seq<R>, s0: seq<R>, first: nat, cs: seq<Control>, g: nat, packed: bv8)
    requires Merged(s, s0, first, cs, g) && g + 4 <= |cs|
    requires forall i :: 0 <= i < 4 ==> ControlOf(GetSlot(packed, i)) == cs[g + i]
    ensures Merged(FourForks(s, first + g, first + |cs| + g, packed), s0, first, cs, g + 4)
  {
    hide Merged, GetSlot, ControlOf;
    SizeOfMerged(s, s0, first, cs, g);
    var a, b := first + g, first + |cs| + g;
    MergedStep(s, s0, first, cs, g);
    var s1 := ForkLanes(s, a, b, ControlOf(GetSlot(packed, 0)));
    MergedStep(s1, s0, first, cs, g + 1);
    var s2 := ForkLanes(s1, a + 1, b + 1, ControlOf(GetSlot(packed, 1)));
    MergedStep(s2, s0, first, cs, g + 2);
    var s3 := ForkLanes(s2, a + 2, b + 2, ControlOf(GetSlot(packed, 2)));
    MergedStep(s3, s0, first, cs, g + 3);
  }

  lemma SizeOfMerged<R>(s: seq<R>, s0: seq<R>, first: nat, cs: seq<Control>, g: nat)
    requires Merged(s, s0, first, cs, g)
    ensures |s| == |s0| && first + 2 * |cs| <= |s|
  {
  }

  /** A contiguous run of count gates, lane j with lane j + count: four at a time, then one at a time. */
  method ApplyContiguousGateRun<R>(data: array<R>, first: nat, count: nat, cursor: PackedControlCursor)
    requires first + 2 * count <= data.Length
    requires cursor.Valid() && cursor.position + count <= cursor.count
    modifies data, cursor
    ensures cursor.Valid() && cursor.position == old(cursor.position) + count
    ensures data[..] == MergeBlock(old(data[..]), first, Upcoming(cursor.bytes, cursor.offset
                                                                  + old(cursor.position), count))
  {
    hide Merged, MergeBlock, GateAt, GetSlot, ControlOf, FourForks, ForkLanes;
    ghost var s0, start := data[..], cursor.offset + cursor.position;
    ghost var cs := Upcoming(cursor.bytes, start, count);
    MergedEnds(s0, s0, first, cs);
    var gate := 0;
    while count - gate >= 4
      invariant 0 <= gate <= count
      invariant cursor.Valid() && cursor.position == old(cursor.position) + gate
      invariant Merged(data[..], s0, first, cs, gate)
    {
      var packed := cursor.NextFourUnchecked();
      PackedControlsOf(packed, cursor.bytes, start, gate, cs);
      FourSteps(data[..], s0, first, cs, gate, packed);
      ApplyFourIndependent(data, first + gate, first + count + gate, packed);
      gate := gate + 4;
    }
    while gate < count
      invariant 0 <= gate <= count
      invariant cursor.Valid() && cursor.position == old(cursor.position) + gate
      invariant Merged(data[..], s0, first, cs, gate)
    {
      var control := cursor.NextUnchecked();
      MergedStep(data[..], s0, first, cs, gate);
      ApplyOFork(data, first + gate, first + count + gate, control);
      gate := gate + 1;
    }
    MergedEnds(data[..], s0, first, cs);
  }

  lemma PackedControlsOf(packed: bv8, bytes: seq<bv8>, start: nat, gate: nat, cs: seq<Control>)
    requires start + |cs| <= 4 * |bytes| && cs == Upcoming(bytes, start, |cs|) && gate + 4 <= |cs|
    requires FourGates(packed, bytes, start + gate)
    ensures forall i :: 0 <= i < 4 ==> ControlOf(GetSlot(packed, i)) == cs[gate + i]
  {
    hide GetSlot, GateAt, ControlOf;
    forall i | 0 <= i < 4 ensures ControlOf(GetSlot(packed, i)) == cs[gate + i] {
      assert GetSlot(packed, i) == GateAt(bytes, start + gate + i);
    }
  }

  lemma MergePair<R>(c: Control, a: R, b: R)
    ensures Merge([c], [a, b]) == [ForkTop(c, a, b), ForkBottom(c, a, b)]
  {
  }

  lemma PostTwo<R>(cs: seq<Control>, rs: seq<R>)
    requires |cs| == 1 && |rs| == 2
    ensures Gates(1) == 1 && Pow2(1) == 2
    ensures PostApply(1, cs, rs) == [ForkTop(cs[0], rs[0], rs[1]), ForkBottom(cs[0], rs[0], rs[1])]
  {
    assert Gates(0) == 0 && Pow2(0) == 1;
    assert PostApply(0, cs[..0], rs[..1]) == rs[..1] && PostApply(0, cs[0..0], rs[1..]) == rs[1..];
    assert rs[..1] + rs[1..] == [rs[0], rs[1]] && cs[2 * 0..] == [cs[0]];
    MergePair(cs[0], rs[0], rs[1]);
  }

  /** The four-lane network: two pairs, then two crossing gates. */
  ghost function FourLanes<R>(s: seq<R>, lo: nat, packed: bv8): (r: seq<R>)
    requires lo + 4 <= |s|
    ensures |r| == |s|
  {
    var s1 := ForkLanes(s, lo, lo + 1, ControlOf(GetSlot(packed, 0)));
    var s2 := ForkLanes(s1, lo + 2, lo + 3, ControlOf(GetSlot(packed, 1)));
    var s3 := ForkLanes(s2, lo, lo + 2, ControlOf(GetSlot(packed, 2)));
    ForkLanes(s3, lo + 1, lo + 3, ControlOf(GetSlot(packed, 3)))
  }

  /** The buffer with one block of lanes replaced. */
  ghost function Within<R>(s: seq<R>, lo: nat, block: seq<R>): (r: seq<R>)
    requires lo + |block| <= |s|
    ensures |r| == |s|
  {
    s[..lo] + block + s[lo + |block|..]
  }

  lemma PostFour<R>(cs: seq<Control>, rs: seq<R>)
    requires |cs| == 4 && |rs| == 4
    ensures Gates(2) == 4 && Pow2(2) == 4
    ensures var a, b := ForkTop(cs[0], rs[0], rs[1]), ForkBottom(cs[0], rs[0], rs[1]);
            var c, d := ForkTop(cs[1], rs[2], rs[3]), ForkBottom(cs[1], rs[2], rs[3]);
            PostApply(2, cs, rs) ==
            [ForkTop(cs[2], a, c), ForkTop(cs[3], b, d), ForkBottom(cs[2], a, c), ForkBottom(cs[3], b, d)]
  {
    assert Gates(1) == 1 && Pow2(1) == 2 by { PostTwo(cs[..1], rs[..2]); }
    PostTwo(cs[..1], rs[..2]);
    PostTwo(cs[1..2], rs[2..]);
    var a, b := ForkTop(cs[0], rs[0], rs[1]), ForkBottom(cs[0], rs[0], rs[1]);
    var c, d := ForkTop(cs[1], rs[2], rs[3]), ForkBottom(cs[1], rs[2], rs[3]);
    assert PostApply(1, cs[..1], rs[..2]) + PostApply(1, cs[1..2], rs[2..]) == [a, b, c, d];
    assert PostApply(2, cs, rs) == Merge(cs[2..], [a, b, c, d]);
  }

  lemma FourLanesIsPost<R>(s: seq<R>, lo: nat, packed: bv8, cs: seq<Control>)
    requires lo + 4 <= |s| && |cs| == 4 && Gates(2) == 4 && Pow2(2) == 4
    requires forall i :: 0 <= i < 4 ==> ControlOf(GetSlot(packed, i)) == cs[i]
    ensures FourLanes(s, lo, packed) == Within(s, lo, PostApply(2, cs, s[lo..lo + 4]))
  {
    hide GetSlot, ControlOf, PostApply, Pow2, Gates;
    PostFour(cs, s[lo..lo + 4]);
  }

  /** The unrolled four-lane case. */
  method ApplyPostOrderFourFixed<R>(data: array<R>, lo: nat, cursor: PackedControlCursor)
    requires lo + 4 <= data.Length && cursor.Valid() && cursor.position + 4 <= cursor.count
    modifies data, cursor
    ensures cursor.Valid() && cursor.position == old(cursor.position) + 4
    ensures Gates(2) == 4 && Pow2(2) == 4
    ensures data[..] == Within(old(data[..]), lo,
                               PostApply(2, Upcoming(cursor.bytes, cursor.offset + old(cursor.position), 4),
                                         old(data[..])[lo..lo + 4]))
  {
    hide GetSlot, ControlOf, PostApply, GateAt, Within;
    ghost var s0, start := data[..], cursor.offset + cursor.position;
    ghost var cs := Upcoming(cursor.bytes, start, 4);
    var packed := cursor.NextFourUnchecked();
    PackedControlsOf(packed, cursor.bytes, start, 0, cs);
    LastSlot(packed);
    PostFour(cs, s0[lo..lo + 4]);
    FourLanesIsPost(s0, lo, packed, cs);
    ApplyOFork(data, lo, lo + 1, packed & 3);
    ApplyOFork(data, lo + 2, lo + 3, (packed >> 2) & 3);
    ApplyOFork(data, lo, lo + 2, (packed >> 4) & 3);
    ApplyOFork(data, lo + 1, lo + 3, packed >> 6);
  }

  /** Two blocks routed in turn, then merged: the postorder step of the whole. */
  lemma PostJoin<R>(h: nat, s: seq<R>, lo: nat, tape: seq<Control>)
    requires 0 < h && lo + Pow2(h) <= |s| && |tape| == Gates(h)
    ensures var g, half := Gates(h - 1), Pow2(h - 1);
            var s1 := Within(s, lo, PostApply(h - 1, tape[..g], s[lo..lo + half]));
            var s2 := Within(s1, lo + half, PostApply(h - 1, tape[g..2 * g], s1[lo + half..lo + 2 * half]));
            MergeBlock(s2, lo, tape[2 * g..]) == Within(s, lo, PostApply(h, tape, s[lo..lo + Pow2(h)]))
  {
    hide PostApply, Merge, MergeBlock, Within;
    var g, half := Gates(h - 1), Pow2(h - 1);
    var rs := s[lo..lo + Pow2(h)];
    assert rs[..half] == s[lo..lo + half] && rs[half..] == s[lo + half..lo + 2 * half];
    var a, b := PostApply(h - 1, tape[..g], rs[..half]), PostApply(h - 1, tape[g..2 * g], rs[half..]);
    PostApplyUnfold(h, tape, rs);
    WithinTwice(s, lo, a, b);
    WithinAfter(s, lo, a, half);
    WithinMerge(s, lo, a + b, tape[2 * g..]);
  }

  lemma WithinAfter<R>(s: seq<R>, lo: nat, a: seq<R>, n: nat)
    requires lo + |a| + n <= |s|
    ensures Within(s, lo, a)[lo + |a|..lo + |a| + n] == s[lo + |a|..lo + |a| + n]
  {
  }

  lemma PostApplyUnfold<R>(h: nat, tape: seq<Control>, rs: seq<R>)
    requires 0 < h && |rs| == Pow2(h) && |tape| == Gates(h)
    ensures var g, half := Gates(h - 1), Pow2(h - 1);
            PostApply(h, tape, rs) ==
            Merge(tape[2 * g..], PostApply(h - 1, tape[..g], rs[..half]) + PostApply(h - 1, tape[g..2 * g], rs[half..]))
  {
  }

  lemma WithinTwice<R>(s: seq<R>, lo: nat, a: seq<R>, b: seq<R>)
    requires lo + |a| + |b| <= |s|
    ensures Within(Within(s, lo, a), lo + |a|, b) == Within(s, lo, a + b)
  {
  }

  lemma WithinMerge<R>(s: seq<R>, lo: nat, block: seq<R>, cs: seq<Control>)
    requires lo + |block| <= |s| && |block| == 2 * |cs|
    ensures MergeBlock(Within(s, lo, block), lo, cs) == Within(s, lo, Merge(cs, block))
  {
    hide Merge;
    assert Within(s, lo, block)[lo..lo + 2 * |cs|] == block;
  }

  lemma UpcomingParts(bytes: seq<bv8>, start: nat, g: nat, count: nat)
    requires start + count <= 4 * |bytes| && 2 * g <= count
    ensures var tape := Upcoming(bytes, start, count);
            && tape[..g] == Upcoming(bytes, start, g)
            && tape[g..2 * g] == Upcoming(bytes, start + g, g)
            && tape[2 * g..] == Upcoming(bytes, start + 2 * g, count - 2 * g)
  {
  }

  /** The two halves and the gates that join them, replayed one after the other from the packed stream. */
  lemma PostJoinUpcoming<R>(h: nat, s0: seq<R>, s1: seq<R>, s2: seq<R>, lo: nat, bytes: seq<bv8>, start: nat)
    requires 0 < h && lo + Pow2(h) <= |s0| && start + Gates(h) <= 4 * |bytes|
    requires Pow2(h) == 2 * Pow2(h - 1) && Gates(h) == Pow2(h - 1) + 2 * Gates(h - 1)
    requires s1 == Within(s0, lo, PostApply(h - 1, Upcoming(bytes, start, Gates(h - 1)), s0[lo..lo + Pow2(h - 1)]))
    requires s2 == Within(s1, lo + Pow2(h - 1), PostApply(h - 1, Upcoming(bytes, start + Gates(h - 1), Gates(h - 1)),
                                                          s1[lo + Pow2(h - 1)..lo + Pow2(h - 1) + Pow2(h - 1)]))
    ensures MergeBlock(s2, lo, Upcoming(bytes, start + 2 * Gates(h - 1), Pow2(h - 1)))
            == Within(s0, lo, PostApply(h, Upcoming(bytes, start, Gates(h)), s0[lo..lo + Pow2(h)]))
  {
    hide PostApply, Upcoming, Within, MergeBlock, Gates, Pow2;
    UpcomingParts(bytes, start, Gates(h - 1), Gates(h));
    PostJoin(h, s0, lo, Upcoming(bytes, start, Gates(h)));
  }

  /** The unrolled eight-lane case. */
  method ApplyPostOrderEightFixed<R>(data: array<R>, lo: nat, cursor: PackedControlCursor)
    requires lo + 8 <= data.Length && cursor.Valid() && cursor.position + 12 <= cursor.count
    modifies data, cursor
    ensures cursor.Valid() && cursor.position == old(cursor.position) + 12
    ensures Gates(3) == 12 && Pow2(3) == 8
    ensures data[..] == Within(old(data[..]), lo,
                               PostApply(3, Upcoming(cursor.bytes, cursor.offset + old(cursor.position), 12),
                                         old(data[..])[lo..lo + 8]))
  {
    hide PostApply, Upcoming, Within, MergeBlock, Merge, GateAt;
    ghost var start := cursor.offset + cursor.position;
    SmallSizes(3);
    PostJoin(3, data[..], lo, Upcoming(cursor.bytes, start, 12));
    UpcomingParts(cursor.bytes, start, 4, 12);
    ApplyPostOrderFourFixed(data, lo, cursor);
    ApplyPostOrderFourFixed(data, lo + 4, cursor);
    MergeFour(data, lo, cursor);
  }

  /** Postorder replay in place: two halves, then the joining gates; four and eight lanes are unrolled. */
  method ApplyPostOrderGates<R>(data: array<R>, lo: nat, cursor: PackedControlCursor, n: nat, ghost h: nat)
    requires 0 < h && n == Pow2(h) && lo + n <= data.Length
    requires cursor.Valid() && cursor.position + Gates(h) <= cursor.count
    modifies data, cursor
    ensures cursor.Valid() && cursor.position == old(cursor.position) + Gates(h)
    ensures data[..] == Within(old(data[..]), lo,
              PostApply(h, Upcoming(cursor.bytes, cursor.offset + old(cursor.position), Gates(h)), old(data[..])[lo..lo
                + n]))
    decreases h
  {
    hide PostApply, Upcoming, Within, MergeBlock, Merge, GateAt, Gates, Pow2;
    ghost var s0, start := data[..], cursor.offset + cursor.position;
    SmallSizes(h);
    if n == 8 {
      ApplyPostOrderEightFixed(data, lo, cursor);
      return;
    }
    if n == 4 {
      ApplyPostOrderFourFixed(data, lo, cursor);
      return;
    }
    if n == 2 {
      var control := cursor.NextUnchecked();
      LastPair(s0, lo, cursor.bytes, start, control);
      ApplyOFork(data, lo, lo + 1, control);
      return;
    }
    var half := n / 2;
    ApplyPostOrderGates(data, lo, cursor, half, h - 1);
    ghost var s1 := data[..];
    ApplyPostOrderGates(data, lo + half, cursor, half, h - 1);
    ghost var s2 := data[..];
    ApplyContiguousGateRun(data, lo, half, cursor);
    assert data[..] == MergeBlock(s2, lo, Upcoming(cursor.bytes, start + 2 * Gates(h - 1), half));
    PostJoinUpcoming(h, s0, s1, s2, lo, cursor.bytes, start);
  }

  lemma SmallSizes(h: nat)
    requires 0 < h
    ensures Pow2(h) == 2 * Pow2(h - 1) && Gates(h) == Pow2(h - 1) + 2 * Gates(h - 1)
    ensures Pow2(h) == 8 ==> h == 3 && Gates(2) == 4 && Pow2(2) == 4
    ensures Pow2(h) == 4 ==> h == 2 && Gates(2) == 4
    ensures Pow2(h) == 2 ==> h == 1 && Gates(1) == 1
    ensures Pow2(h) > 2 ==> 1 < h
  {
    assert Gates(0) == 0 && Gates(1) == 1 && Gates(2) == 4 && Pow2(1) == 2 && Pow2(2) == 4 && Pow2(3) == 8;
    if h > 3 { Pow2Order(3, h); }
  }

  /** The joining gates of eight lanes, from a single packed byte. */
  method MergeFour<R>(data: array<R>, lo: nat, cursor: PackedControlCursor)
    requires lo + 8 <= data.Length && cursor.Valid() && cursor.position + 4 <= cursor.count
    modifies data, cursor
    ensures cursor.Valid() && cursor.position == old(cursor.position) + 4
    ensures data[..] == MergeBlock(old(data[..]), lo, Upcoming(cursor.bytes, cursor.offset + old(cursor.position), 4))
  {
    hide Merged, GateAt, GetSlot, ControlOf, FourForks, MergeBlock;
    ghost var s0, start := data[..], cursor.offset + cursor.position;
    ghost var cs := Upcoming(cursor.bytes, start, 4);
    var packed := cursor.NextFourUnchecked();
    PackedControlsOf(packed, cursor.bytes, start, 0, cs);
    MergedEnds(s0, s0, lo, cs);
    FourSteps(s0, s0, lo, cs, 0, packed);
    ApplyFourIndependent(data, lo, lo + 4, packed);
    MergedEnds(data[..], s0, lo, cs);
  }

  lemma LastPair<R>(s: seq<R>, lo: nat, bytes: seq<bv8>, start: nat, control: bv8)
    requires lo + 2 <= |s| && start + 1 <= 4 * |bytes| && control == GateAt(bytes, start)
    ensures Gates(1) == 1 && Pow2(1) == 2
    ensures ForkLanes(s, lo, lo + 1, ControlOf(control))
            == Within(s, lo, PostApply(1, Upcoming(bytes, start, 1), s[lo..lo + 2]))
  {
    PostTwo(Upcoming(bytes, start, 1), s[lo..lo + 2]);
  }

  /** Stage t runs gate g of its controls between lanes a and a + 2^t. */
  ghost predicate RunsGate<R>(h: nat, t: nat, cs: seq<Control>, rs: seq<R>, a: nat, g: nat)
    requires t < h && |rs| == Pow2(h) && |cs| == Pow2(h - 1)
  {
    && a + Pow2(t) < |rs| && g < |cs|
    && Stage(h, t, cs, rs)[a] == ForkTop(cs[g], rs[a], rs[a + Pow2(t)])
    && Stage(h, t, cs, rs)[a + Pow2(t)] == ForkBottom(cs[g], rs[a], rs[a + Pow2(t)])
  }

  lemma RunsGateInHalf<R>(h: nat, t: nat, cs: seq<Control>, rs: seq<R>, a: nat, g: nat, second: bool)
    requires t + 1 < h && |rs| == Pow2(h) && |cs| == Pow2(h - 1)
    requires var p, q := Pow2(h - 2), Pow2(h - 1);
             if second then RunsGate(h - 1, t, cs[p..], rs[q..], a, g) else RunsGate(h - 1, t, cs[..p], rs[..q], a, g)
    ensures RunsGate(h, t, cs, rs, if second then a + Pow2(h - 1) else a, if second then g + Pow2(h - 2) else g)
  {
    hide Stage, ForkTop, ForkBottom, Pow2;
    var p, q := Pow2(h - 2), Pow2(h - 1);
    Pow2Unfold(h);
    Pow2Unfold(h - 1);
    Halves(cs, p);
    Halves(rs, q);
    StageConcat(h, t, cs[..p], cs[p..], rs[..q], rs[q..]);
  }

  /** First lane of offset j of block k, for blocks of two strides. */
  function BlockLane(t: nat, k: nat, j: nat): nat {
    2 * (k * Pow2(t)) + j
  }

  /** The gates of a stage: offset j of block k, and its partner a stride further. */
  lemma {:induction false} StageAt<R>(h: nat, t: nat, cs: seq<Control>, rs: seq<R>, k: nat, j: nat)
    requires t < h && |rs| == Pow2(h) && |cs| == Pow2(h - 1) && k < Pow2(h - 1 - t) && j < Pow2(t)
    ensures RunsGate(h, t, cs, rs, BlockLane(t, k, j), GateIndex(t, k, j))
    decreases h, 1
  {
    if h == t + 1 {
      OnlyBlock(h, t, cs, rs, j);
      assert k == 0;
    } else {
      HalfSizes(h, t);
      StageAtStep(h, t, cs, rs, k, j);
    }
  }

  lemma {:induction false} StageAtStep<R>(h: nat, t: nat, cs: seq<Control>, rs: seq<R>, k: nat, j: nat)
    requires t + 1 < h && |rs| == Pow2(h) && |cs| == Pow2(h - 1) && k < Pow2(h - 1 - t) && j < Pow2(t)
    requires Pow2(h - 1 - t) == 2 * Pow2(h - 2 - t) && Pow2(h - 1) == 2 * Pow2(h - 2)
    requires Pow2(h - 2 - t) * Pow2(t) == Pow2(h - 2)
    ensures RunsGate(h, t, cs, rs, BlockLane(t, k, j), GateIndex(t, k, j))
    decreases h, 0
  {
    hide RunsGate, Stage, Pow2, BlockLane, GateIndex;
    var p, q, blocks := Pow2(h - 2), Pow2(h - 1), Pow2(h - 2 - t);
    PowUp(h - 1);
    if k < blocks {
      StageAt(h - 1, t, cs[..p], rs[..q], k, j);
      RunsGateInHalf(h, t, cs, rs, BlockLane(t, k, j), GateIndex(t, k, j), false);
    } else {
      StageAt(h - 1, t, cs[p..], rs[q..], k - blocks, j);
      RunsGateInHalf(h, t, cs, rs, BlockLane(t, k - blocks, j), GateIndex(t, k - blocks, j), true);
      SecondHalf(k - blocks, blocks, t, j);
    }
  }

  lemma SecondHalf(k: nat, blocks: nat, t: nat, j: nat)
    ensures GateIndex(t, k + blocks, j) == GateIndex(t, k, j) + blocks * Pow2(t)
    ensures BlockLane(t, k + blocks, j) == BlockLane(t, k, j) + 2 * (blocks * Pow2(t))
  {
    Distribute(k, blocks, Pow2(t));
  }

  lemma PowUp(h: nat)
    ensures Pow2(h + 1) == 2 * Pow2(h)
  {
  }

  lemma OnlyBlock<R>(h: nat, t: nat, cs: seq<Control>, rs: seq<R>, j: nat)
    requires h == t + 1 && |rs| == Pow2(h) && |cs| == Pow2(h - 1) && j < Pow2(t)
    ensures Pow2(h - 1 - t) == 1 && RunsGate(h, t, cs, rs, BlockLane(t, 0, j), GateIndex(t, 0, j))
  {
  }

  /** Lanes below bound have run their stage, the others have not. */
  ghost predicate StageReached<R>(s: seq<R>, s0: seq<R>, h: nat, t: nat, cs: seq<Control>, bound: nat)
    requires t < h && |s0| == Pow2(h) && |cs| == Pow2(h - 1)
  {
    && |s| == |s0| && bound <= |s|
    && s == Stage(h, t, cs, s0)[..bound] + s0[bound..]
  }

  lemma StageStarts<R>(s0: seq<R>, h: nat, t: nat, cs: seq<Control>)
    requires t < h && |s0| == Pow2(h) && |cs| == Pow2(h - 1)
    ensures StageReached(s0, s0, h, t, cs, 0)
  {
    hide Stage;
  }

  lemma StageEnds<R>(s: seq<R>, s0: seq<R>, h: nat, t: nat, cs: seq<Control>)
    requires t < h && |s0| == Pow2(h) && |cs| == Pow2(h - 1) && StageReached(s, s0, h, t, cs, |s0|)
    ensures s == Stage(h, t, cs, s0)
  {
    hide Stage;
    var out := Stage(h, t, cs, s0);
    assert out[..|s0|] == out && s0[|s0|..] == [];
  }

  lemma BlockInRange(h: nat, t: nat, b: nat)
    requires t < h && b < Pow2(h - 1 - t)
    ensures b * Pow2(t) + Pow2(t) <= Pow2(h - 1) && 2 * (b * Pow2(t)) + 2 * Pow2(t) <= Pow2(h)
  {
    Pow2Sum(h - 1 - t, t);
    Monotone(b + 1, Pow2(h - 1 - t), Pow2(t));
    Distribute(b, 1, Pow2(t));
  }

  lemma StageBlock<R>(s: seq<R>, s0: seq<R>, h: nat, t: nat, cs: seq<Control>, b: nat)
    requires t < h && |s0| == Pow2(h) && |cs| == Pow2(h - 1) && b < Pow2(h - 1 - t)
    requires StageReached(s, s0, h, t, cs, 2 * (b * Pow2(t)))
    ensures b * Pow2(t) + Pow2(t) <= |cs| && 2 * (b * Pow2(t)) + 2 * Pow2(t) <= |s|
    ensures StageReached(MergeBlock(s, 2 * (b * Pow2(t)), cs[b * Pow2(t)..b * Pow2(t) + Pow2(t)]), s0, h, t, cs,
                         2 * (b * Pow2(t)) + 2 * Pow2(t))
  {
    hide Stage, Merge, MergeBlock, Pow2;
    BlockInRange(h, t, b);
    var w := Pow2(t);
    var base, run := 2 * (b * w), cs[b * w..b * w + w];
    MergedBlock(h, t, cs, s0, b);
    ReachFurther(s, s0, Stage(h, t, cs, s0), base, run);
  }

  /** The merge of one block of lanes is that block of the stage. */
  lemma MergedBlock<R>(h: nat, t: nat, cs: seq<Control>, s0: seq<R>, b: nat)
    requires t < h && |s0| == Pow2(h) && |cs| == Pow2(h - 1) && b < Pow2(h - 1 - t)
    ensures b * Pow2(t) + Pow2(t) <= |cs| && 2 * (b * Pow2(t)) + 2 * Pow2(t) <= |s0|
    ensures var base, w := 2 * (b * Pow2(t)), Pow2(t);
            Merge(cs[b * w..b * w + w], s0[base..base + 2 * w]) == Stage(h, t, cs, s0)[base..base + 2 * w]
  {
    hide Stage, Pow2, Merge;
    BlockInRange(h, t, b);
    var w := Pow2(t);
    var base, run, out := 2 * (b * w), cs[b * w..b * w + w], Stage(h, t, cs, s0);
    var merged, block := Merge(run, s0[base..base + 2 * w]), out[base..base + 2 * w];
    forall j | 0 <= j < 2 * w
      ensures merged[j] == block[j]
    {
      var i := if j < w then j else j - w;
      StageAt(h, t, cs, s0, b, i);
      MergeAt(run, s0[base..base + 2 * w], i);
    }
  }

  lemma ReachFurther<R>(s: seq<R>, s0: seq<R>, out: seq<R>, base: nat, run: seq<Control>)
    requires |s| == |s0| == |out| && base + 2 * |run| <= |s|
    requires s == out[..base] + s0[base..]
    requires Merge(run, s0[base..base + 2 * |run|]) == out[base..base + 2 * |run|]
    ensures MergeBlock(s, base, run) == out[..base + 2 * |run|] + s0[base + 2 * |run|..]
  {
    hide Merge;
    assert s[base..base + 2 * |run|] == s0[base..base + 2 * |run|];
  }

  /** One stage in place: blocks from left to right, read on from the cursor. */
  method ApplyStage<R>(data: array<R>, cursor: PackedControlCursor, n: nat, stride: nat, ghost h: nat, ghost t: nat)
    requires t < h && n == Pow2(h) == data.Length && stride == Pow2(t)
    requires cursor.Valid() && cursor.position + Pow2(h - 1) <= cursor.count
    modifies data, cursor
    ensures cursor.Valid() && cursor.position == old(cursor.position) + Pow2(h - 1)
    ensures data[..] == Stage(h, t, Upcoming(cursor.bytes, cursor.offset + old(cursor.position), Pow2(h - 1)),
                              old(data[..]))
  {
    hide Stage, Upcoming, MergeBlock, Pow2, StageReached;
    ghost var s0, start := data[..], cursor.offset + cursor.position;
    ghost var cs := Upcoming(cursor.bytes, start, Pow2(h - 1));
    BlockCount(h, t);
    StageStarts(s0, h, t, cs);
    var base := 0;
    ghost var b := 0;
    while base < n
      invariant 0 <= b <= Pow2(h - 1 - t) && base == 2 * (b * stride)
      invariant cursor.Valid() && cursor.position == old(cursor.position) + b * stride
      invariant StageReached(data[..], s0, h, t, cs, base)
      decreases Pow2(h - 1 - t) - b
    {
      BlockLeft(h, t, b);
      StageBlock(data[..], s0, h, t, cs, b);
      UpcomingSlice(cursor.bytes, start, b * stride, stride, Pow2(h - 1));
      ApplyContiguousGateRun(data, base, stride, cursor);
      base := base + stride * 2;
      b := b + 1;
      Distribute(b - 1, 1, stride);
    }
    LastBlock(h, t, b);
    StageEnds(data[..], s0, h, t, cs);
  }

  lemma UpcomingSlice(bytes: seq<bv8>, start: nat, from: nat, len: nat, count: nat)
    requires start + count <= 4 * |bytes| && from + len <= count
    ensures Upcoming(bytes, start, count)[from..from + len] == Upcoming(bytes, start + from, len)
  {
  }

  lemma BlockCount(h: nat, t: nat)
    requires t < h
    ensures Pow2(h) == 2 * (Pow2(h - 1 - t) * Pow2(t)) && Pow2(h - 1) == Pow2(h - 1 - t) * Pow2(t)
            && 0 < Pow2(h - 1 - t)
  {
    Pow2Sum(h - 1 - t, t);
  }

  lemma BlockLeft(h: nat, t: nat, b: nat)
    requires t < h && 2 * (b * Pow2(t)) < Pow2(h)
    ensures b < Pow2(h - 1 - t)
  {
    BlockCount(h, t);
    if b >= Pow2(h - 1 - t) {
      Monotone(Pow2(h - 1 - t), b, Pow2(t));
    }
  }

  lemma LastBlock(h: nat, t: nat, b: nat)
    requires t < h && b <= Pow2(h - 1 - t) && 2 * (b * Pow2(t)) >= Pow2(h)
    ensures 2 * (b * Pow2(t)) == Pow2(h) && b * Pow2(t) == Pow2(h - 1)
  {
    BlockCount(h, t);
    Monotone(b, Pow2(h - 1 - t), Pow2(t));
  }

  /** Level-order replay in place, stages by doubling stride. */
  method ApplyLevelOrderedGates<R>(data: array<R>, tape: PackedControls, n: nat, ghost h: nat,
                                   ghost ls: seq<seq<Control>>)
    requires 0 < h && n == Pow2(h) == data.Length && IsLevels(h, ls)
    requires tape.Valid() && tape.Controls() == Flatten(ls)
    modifies data
    ensures data[..] == RunStages(h, 0, h, ls, old(data[..]))
  {
    hide Stage, Upcoming, RunStages, Pow2, Flatten;
    ghost var s0 := data[..];
    var cursor := new PackedControlCursor(tape.bytes, 0, tape.count, 0);
    var stride := 1;
    ghost var t := 0;
    FirstPower();
    while stride < n
      invariant 0 <= t <= h && stride == Pow2(t)
      invariant cursor.Valid() && cursor.bytes == tape.bytes && cursor.offset == 0 && cursor.count == tape.count
      invariant cursor.position == t * Pow2(h - 1)
      invariant RunStages(h, t, h, ls, data[..]) == RunStages(h, 0, h, ls, s0)
      decreases h - t
    {
      StrideBelow(t, h);
      FlattenSlice(ls, Pow2(h - 1), t);
      StageTape(tape.bytes, tape.count, ls, t * Pow2(h - 1), Pow2(h - 1), t);
      RunUnfold(h, t, ls, data[..]);
      ApplyStage(data, cursor, n, stride, h, t);
      stride := stride * 2;
      t := t + 1;
      PowUp(t - 1);
      Distribute(t - 1, 1, Pow2(h - 1));
    }
    StrideBelow(t, h);
    RunEnd(h, ls, data[..]);
  }

  lemma FirstPower()
    ensures Pow2(0) == 1
  {
  }

  lemma StrideBelow(t: nat, h: nat)
    requires t <= h
    ensures Pow2(t) < Pow2(h) <==> t < h
  {
    if t < h {
      Pow2Order(t, h);
    }
  }

  lemma RunEnd<R>(h: nat, ls: seq<seq<Control>>, rs: seq<R>)
    requires IsLevels(h, ls) && |rs| == Pow2(h)
    ensures RunStages(h, h, h, ls, rs) == rs
  {
  }

  lemma StageTape(bytes: seq<bv8>, count: nat, ls: seq<seq<Control>>, from: nat, len: nat, t: nat)
    requires count <= 4 * |bytes| && t < |ls| && from + len <= |Flatten(ls)|
    requires ControlsOf(GatesOf(bytes, count)) == Flatten(ls) && Flatten(ls)[from..from + len] == ls[t]
    ensures from + len <= count && Upcoming(bytes, from, len) == ls[t]
  {
    hide Flatten, GateAt, ControlOf;
    var gates := ControlsOf(GatesOf(bytes, count));
    assert gates[from..from + len] == Upcoming(bytes, from, len);
  }
}
