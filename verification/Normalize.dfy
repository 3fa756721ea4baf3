/** Filling unused lanes: tags whose weights only fit the capacities are completed to exact ones. */
module Normalization {
  import opened Lanes
  import opened Tags
  import opened LayerQuotas
  import opened Routing

  const ZERO := Tag(false, false)

  /** A zero tag takes the left side while its rank is below assignLeft, then the right side. */
  function FilledTag(t: Tag, rank: nat, assignLeft: nat, assignRight: nat): Tag {
    Tag(t.left || (t == ZERO && rank < assignLeft),
        t.right || (t == ZERO && assignLeft <= rank < assignLeft + assignRight))
  }

  /** The tags after filling; rank counts the zero tags met so far. */
  function Normalize(ts: seq<Tag>, assignLeft: nat, assignRight: nat, rank: nat): (r: seq<Tag>)
    ensures |r| == |ts|
  {
    if ts == [] then []
    else
      [FilledTag(ts[0], rank, assignLeft, assignRight)]
      + Normalize(ts[1..], assignLeft, assignRight, rank + Bit(ts[0] == ZERO))
  }

  function Zeros(ts: seq<Tag>): nat {
    if ts == [] then 0 else Bit(ts[0] == ZERO) + Zeros(ts[1..])
  }

  /** Which lanes carry a zero tag whose rank is in [lo, hi). */
  function Fillers(ts: seq<Tag>, lo: nat, hi: nat, rank: nat): (r: seq<bool>)
    ensures |r| == |ts|
  {
    if ts == [] then []
    else [ts[0] == ZERO && lo <= rank < hi] + Fillers(ts[1..], lo, hi, rank + Bit(ts[0] == ZERO))
  }

  /** The lanes one side gains. */
  function Gained(ts: seq<Tag>, a: nat, b: nat, rank: nat, left: bool): (r: seq<bool>)
    ensures |r| == |ts|
  {
    if left then Fillers(ts, 0, a, rank) else Fillers(ts, a, a + b, rank)
  }

  /** Weights that fit leave enough zero tags to fill both sides. */
  lemma {:induction false} EnoughZeros(ts: seq<Tag>)
    ensures |ts| <= Weight(ts, true) + Weight(ts, false) + Zeros(ts)
  {
    WeightCons(ts, true);
    WeightCons(ts, false);
    if ts != [] {
      EnoughZeros(ts[1..]);
    }
  }

  /** Lane by lane: a side's bits are the old ones and the gained ones, never both. */
  lemma {:induction false} NormalizeFlags(ts: seq<Tag>, a: nat, b: nat, rank: nat, left: bool, i: nat)
    requires i < |ts|
    ensures Normalize(ts, a, b, rank)[i].Side(left) == (ts[i].Side(left) || Gained(ts, a, b, rank, left)[i])
    ensures !(ts[i].Side(left) && Gained(ts, a, b, rank, left)[i])
  {
    if i > 0 {
      NormalizeFlags(ts[1..], a, b, rank + Bit(ts[0] == ZERO), left, i - 1);
    }
  }

  /** The bag of a disjoint union of flags is the sum of the bags. */
  lemma {:induction false} BagUnion<R>(union: seq<bool>, p: seq<bool>, q: seq<bool>, rs: seq<R>)
    requires |union| == |p| == |q| == |rs|
    requires forall i :: 0 <= i < |rs| ==> union[i] == (p[i] || q[i]) && !(p[i] && q[i])
    ensures Bag(union, rs) == Bag(p, rs) + Bag(q, rs)
  {
    if rs != [] {
      BagUnion(union[1..], p[1..], q[1..], rs[1..]);
    }
  }

  /**
   * Lane by lane: a zero tag with fewer than a zero tags before it gains the left side, the next b the right side, and
   * no other tag changes.
   */
  lemma {:induction false} FilledLane(ts: seq<Tag>, a: nat, b: nat, i: nat)
    requires i < |ts|
    ensures var zeros, t := Zeros(ts[..i]), Normalize(ts, a, b, 0)[i];
            if ts[i].left || ts[i].right || a + b <= zeros then t == ts[i] else t == if zeros < a then LEFT else RIGHT
  {
    RankedLane(ts, a, b, 0, i);
  }

  lemma {:induction false} RankedLane(ts: seq<Tag>, a: nat, b: nat, rank: nat, i: nat)
    requires i < |ts|
    ensures Normalize(ts, a, b, rank)[i] == FilledTag(ts[i], rank + Zeros(ts[..i]), a, b)
  {
    hide FilledTag;
    if i > 0 {
      RankedLane(ts[1..], a, b, rank + Bit(ts[0] == ZERO), i - 1);
      assert ts[..i][1..] == ts[1..][..i - 1];
    }
  }

  /** Each side gains the records of the zero tags ranked in its own interval, and nothing else. */
  lemma NormalizeBag<R>(ts: seq<Tag>, a: nat, b: nat, rs: seq<R>, left: bool)
    requires |ts| == |rs|
    ensures Bag(Side(Normalize(ts, a, b, 0), left), rs) == Bag(Side(ts, left), rs) + Bag(Gained(ts, a, b, 0, left), rs)
  {
    forall i | 0 <= i < |ts|
      ensures Side(Normalize(ts, a, b, 0), left)[i] == (Side(ts, left)[i] || Gained(ts, a, b, 0, left)[i])
      ensures !(Side(ts, left)[i] && Gained(ts, a, b, 0, left)[i])
    {
      NormalizeFlags(ts, a, b, 0, left, i);
    }
    BagUnion(Side(Normalize(ts, a, b, 0), left), Side(ts, left), Gained(ts, a, b, 0, left), rs);
  }

  function Clip(x: int, n: nat): nat {
    if x < 0 then 0 else if x < n then x else n
  }

  lemma {:induction false} FillersCount(ts: seq<Tag>, lo: nat, hi: nat, rank: nat)
    requires lo <= hi
    ensures Count(Fillers(ts, lo, hi, rank)) == Clip(hi - rank, Zeros(ts)) - Clip(lo - rank, Zeros(ts))
  {
    if ts != [] {
      var rank' := rank + Bit(ts[0] == ZERO);
      FillersCount(ts[1..], lo, hi, rank');
      assert Fillers(ts, lo, hi, rank)[1..] == Fillers(ts[1..], lo, hi, rank');
    }
  }

  /** Tags whose weights fit the two capacities. */
  predicate Fits(ts: seq<Tag>, nLeft: nat, nRight: nat) {
    |ts| == nLeft + nRight && Weight(ts, true) <= nLeft && Weight(ts, false) <= nRight
  }

  function Filled(ts: seq<Tag>, nLeft: nat, nRight: nat): (r: seq<Tag>)
    requires Fits(ts, nLeft, nRight)
    ensures |r| == |ts|
  {
    Normalize(ts, nLeft - Weight(ts, true), nRight - Weight(ts, false), 0)
  }

  /** Filling adds the gained lanes to the weight of a side. */
  lemma NormalizeWeight(ts: seq<Tag>, a: nat, b: nat, left: bool)
    ensures Weight(Normalize(ts, a, b, 0), left) == Weight(ts, left) + Count(Gained(ts, a, b, 0, left))
  {
    var units := Repeat((), |ts|);
    NormalizeBag(ts, a, b, units, left);
    BagSize(Side(Normalize(ts, a, b, 0), left), units);
    BagSize(Side(ts, left), units);
    BagSize(Gained(ts, a, b, 0, left), units);
  }

  /** Normalisation makes every fitting tagging exact. */
  lemma FilledIsExact(ts: seq<Tag>, nLeft: nat, nRight: nat)
    requires Fits(ts, nLeft, nRight)
    ensures Exact(Filled(ts, nLeft, nRight), nLeft, nRight)
  {
    var a, b := nLeft - Weight(ts, true), nRight - Weight(ts, false);
    EnoughZeros(ts);
    FillersCount(ts, 0, a, 0);
    FillersCount(ts, a, a + b, 0);
    NormalizeWeight(ts, a, b, true);
    NormalizeWeight(ts, a, b, false);
  }

  /**
   * OFRCompact: for every fitting tagging the left output is the left bag completed by the first zero-tagged records,
   * and the right output is the right bag completed by the zero-tagged records that follow.
   */
  lemma CompactRoutes<R>(ts: seq<Tag>, rs: seq<R>, nLeft: nat, nRight: nat)
    requires |ts| == |rs| && Fits(ts, nLeft, nRight)
    ensures var full := Filled(ts, nLeft, nRight);
            var a, b := nLeft - Weight(ts, true), nRight - Weight(ts, false);
            && |Tape(full, nLeft)| == TapeLength(|ts|, nLeft)
            && var out := Apply(Tape(full, nLeft), rs, nLeft);
               && multiset(out[..nLeft]) == Bag(Side(ts, true), rs) + Bag(Fillers(ts, 0, a, 0), rs)
               && multiset(out[nLeft..]) == Bag(Side(ts, false), rs) + Bag(Fillers(ts, a, a + b, 0), rs)
  {
    hide Normalize, Fillers, Tape, TapeLength, Apply, Bag;
    var a, b := nLeft - Weight(ts, true), nRight - Weight(ts, false);
    FilledIsExact(ts, nLeft, nRight);
    NetworkRoutes(Filled(ts, nLeft, nRight), rs, nLeft);
    NormalizeBag(ts, a, b, rs, true);
    NormalizeBag(ts, a, b, rs, false);
  }
}
