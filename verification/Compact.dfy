/** Counting, building and applying a whole network: the public entry points. */
module Compaction {
  import opened Lanes
  import opened Powers
  import opened Tags
  import opened TagBits
  import opened LayerQuotas
  import opened Routing
  import opened Normalization
  import opened PackedTape
  import opened Strided
  import opened Network
  import opened Replay

  /** Closed form: a balanced network over 2^h lanes has h layers of half as many gates as lanes. */
  lemma {:induction false} BalancedTapeLength(h: nat)
    requires 0 < h
    ensures TapeLength(Pow2(h), Pow2(h) / 2) == Pow2(h) / 2 * h
  {
    hide TapeLength;
    var half := Pow2(h - 1);
    TapeLengthUnfold(Pow2(h), half);
    if h > 1 {
      BalancedTapeLength(h - 1);
      assert half == 2 * Pow2(h - 2);
      LayerSum(Pow2(h - 2), h);
    }
  }

  lemma LayerSum(q: nat, h: nat)
    requires 0 < h
    ensures 2 * q + q * (h - 1) + q * (h - 1) == 2 * q * h
  {
  }

  /** The closed form of the count, with its depth loop. */
  method CountBalanced(n: nat) returns (count: nat)
    requires 2 <= n && IsPowerOfTwo(n)
    ensures count == TapeLength(n, n / 2)
  {
    var depth := 0;
    var length := n;
    while length > 1
      invariant IsPowerOfTwo(length) && depth + Log2(length) == Log2(n)
    {
      depth := depth + 1;
      length := length / 2;
    }
    BalancedTapeLength(depth);
    count := n / 2 * depth;
  }

  method OFRControlCountImpl(n: nat, nLeft: nat, nRight: nat) returns (count: nat)
    requires n == nLeft + nRight
    ensures count == TapeLength(n, nLeft)
    decreases n
  {
    hide TapeLength, IsPowerOfTwo;
    TapeLengthUnfold(n, nLeft);
    if nLeft == 0 || nRight == 0 {
      return 0;
    }
    if 2 <= n && IsPowerOfTwo(n) && nLeft == n / 2 && nRight == n / 2 {
      count := CountBalanced(n);
      return;
    }
    if n == 2 {
      return 1;
    }
    var split := SplitCapacities(n, nLeft, nRight);
    assert split.nTop == (n + 1) / 2 && split.topLeft == (nLeft + 1) / 2 && split.bottomLeft == nLeft / 2;
    var topCount := OFRControlCountImpl(split.nTop, split.topLeft, split.topRight);
    var bottomCount := OFRControlCountImpl(split.nBottom, split.bottomLeft, split.bottomRight);
    count := n / 2 + topCount + bottomCount;
  }

  /** The validating scan: labels in range and weights within the capacities, or exactly equal to them. */
  method ValidateTags(tags: array<bv8>, n: nat, nLeft: nat, nRight: nat, requireExact: bool)
    returns (ok: bool, leftWeight: nat, rightWeight: nat)
    ensures ok == (&& 0 < n && n == nLeft + nRight && tags.Length == n && Owned(tags[..])
                   && (if requireExact then Exact(TagsOf(tags[..]), nLeft, nRight)
                       else Fits(TagsOf(tags[..]), nLeft, nRight)))
    ensures ok ==> leftWeight == Weight(TagsOf(tags[..]), true) && rightWeight == Weight(TagsOf(tags[..]), false)
  {
    leftWeight, rightWeight := 0, 0;
    if n == 0 || n != nLeft + nRight || tags.Length != n {
      return false, 0, 0;
    }
    var invalid: bv8 := 0;
    ghost var ts := TagsOf(tags[..]);
    for i := 0 to n
      invariant leftWeight + Weight(ts[i..], true) == Weight(ts, true)
      invariant rightWeight + Weight(ts[i..], false) == Weight(ts, false)
      invariant invalid == 0 <==> forall j :: 0 <= j < i ==> tags[j] < 4
    {
      WeightCons(ts[i..], true);
      WeightCons(ts[i..], false);
      LastFlags(tags[i]);
      InvalidBit(invalid, tags[i]);
      assert ts[i..][1..] == ts[i + 1..];
      invalid := invalid | (tags[i] >> 2);
      leftWeight := leftWeight + Flag(LeftBit(tags[i]));
      rightWeight := rightWeight + Flag(RightBit(tags[i]));
    }
    WeightCons(ts[n..], true);
    WeightCons(ts[n..], false);
    var weightsInvalid := if requireExact then leftWeight != nLeft || rightWeight != nRight
                          else leftWeight > nLeft || rightWeight > nRight;
    ok := invalid == 0 && !weightsInvalid;
  }

  lemma InvalidBit(invalid: bv8, t: bv8)
    ensures invalid | (t >> 2) == 0 <==> invalid == 0 && t < 4
  {
  }

  /** Builds the controls of a tagging whose weights fit; a tagging that does not fit is refused. */
  method OFRControl(tags: array<bv8>, n: nat, nLeft: nat, nRight: nat) returns (ok: bool, controls: PackedControls)
    ensures ok == (0 < n && tags.Length == n && Owned(tags[..]) && Fits(TagsOf(tags[..]), nLeft, nRight))
    ensures fresh(controls) && controls.Valid()
    ensures ok ==> |Tape(Filled(TagsOf(tags[..]), nLeft, nRight), nLeft)| == TapeLength(n, nLeft) == controls.count
    ensures ok ==> controls.Controls() == Tape(Filled(TagsOf(tags[..]), nLeft, nRight), nLeft)
  {
    hide Tape, TapeLength, Weight, Normalize, TagView, Splice, Exact, SameOutside, InRange, Sorted;
    var leftWeight, rightWeight;
    ok, leftWeight, rightWeight := ValidateTags(tags, n, nLeft, nRight, false);
    if !ok {
      controls := new PackedControls(0);
      return;
    }
    ghost var ts := TagsOf(tags[..]);
    var normalized := new bv8[n](i requires 0 <= i < tags.Length reads tags => tags[i]);
    assert normalized[..] == tags[..];
    ok := OFRNormalizeOwnedInPlace(normalized, n, nLeft, nRight, leftWeight, rightWeight);
    FilledIsExact(ts, nLeft, nRight);
    var count := OFRControlCountImpl(n, nLeft, nRight);
    controls := new PackedControls(count);
    var scratch := new bv8[n / 2];
    WholeTagView(normalized[..]);
    ghost var zeros := controls.Controls();
    var next := OFRControlWriteImpl(normalized, controls, scratch, 0, 1, n, nLeft, nRight, 0);
    SpliceAll(zeros, Tape(Filled(ts, nLeft, nRight), nLeft));
  }

  lemma SpliceAll<T>(tape: seq<T>, run: seq<T>)
    requires |tape| == |run|
    ensures Splice(tape, 0, run) == run
  {
  }

  lemma WholeTagView(s: seq<bv8>)
    ensures InRange(|s|, 0, 1, |s|) && TagView(s, 0, 1, |s|) == TagsOf(s)
  {
    WholeView(s);
  }

  /** Two outputs: the left and the right bag, each completed by the zero-tagged records normalisation assigns to it. */
  ghost predicate TwoBags<R>(ts: seq<Tag>, rs: seq<R>, left: seq<R>, right: seq<R>, nLeft: nat, nRight: nat)
    requires |ts| == |rs| && Fits(ts, nLeft, nRight)
  {
    var a, b := nLeft - Weight(ts, true), nRight - Weight(ts, false);
    && |left| == nLeft && |right| == nRight
    && multiset(left) == Bag(Side(ts, true), rs) + Bag(Fillers(ts, 0, a, 0), rs)
    && multiset(right) == Bag(Side(ts, false), rs) + Bag(Fillers(ts, a, a + b, 0), rs)
  }

  lemma RoutedBags<R>(ts: seq<Tag>, rs: seq<R>, out: seq<R>, tape: seq<Control>, nLeft: nat, nRight: nat)
    requires |ts| == |rs| && Fits(ts, nLeft, nRight) && tape == Tape(Filled(ts, nLeft, nRight), nLeft)
    requires |tape| == TapeLength(|rs|, nLeft) && out == Apply(tape, rs, nLeft)
    ensures TwoBags(ts, rs, out[..nLeft], out[nLeft..], nLeft, nRight)
  {
    hide Bag, Side, Fillers, Weight, Tape, TapeLength, Apply, Filled;
    CompactRoutes(ts, rs, nLeft, nRight);
  }

  /** OFRCompact on arrays: the input records are kept, and the two outputs are the left and the right bag. */
  method OFRCompact<R(0)>(data: array<R>, tags: array<bv8>, n: nat, nLeft: nat, nRight: nat)
    returns (ok: bool, left: seq<R>, right: seq<R>)
    requires data.Length == n
    ensures ok == (0 < n && tags.Length == n && Owned(tags[..]) && Fits(TagsOf(tags[..]), nLeft, nRight))
    ensures ok ==> TwoBags(TagsOf(tags[..]), data[..], left, right, nLeft, nRight)
  {
    hide Tape, TapeLength, Apply, Filled, Owned, TwoBags, Weight, View, SameOutside, TagsOf, PackedControls.Controls;
    left, right := [], [];
    var controls;
    ok, controls := OFRControl(tags, n, nLeft, nRight);
    if !ok {
      return;
    }
    ghost var ts := TagsOf(tags[..]);
    var work := new R[n](i requires 0 <= i < data.Length reads data => data[i]);
    assert work[..] == data[..];
    WholeView(work[..]);
    var next := OFRApplyStrided(work, controls, 0, 1, n, nLeft, nRight, 0);
    WholeView(work[..]);
    assert controls.Controls()[0..next] == controls.Controls();
    RoutedBags(ts, data[..], work[..], controls.Controls(), nLeft, nRight);
    left, right := work[..nLeft], work[nLeft..];
    assert work[..][..nLeft] == left && work[..][nLeft..] == right;
  }
}
