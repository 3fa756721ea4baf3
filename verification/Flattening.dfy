/** Sequences of slices laid out one after the other. */
module Flattening {
  import opened Products

  /** The slices, one after the other. */
  function Flatten<T>(ls: seq<seq<T>>): seq<T> {
    if ls == [] then [] else ls[0] + Flatten(ls[1..])
  }

  lemma {:induction false} FlattenJoin<T>(a: seq<seq<T>>, b: seq<seq<T>>)
    ensures Flatten(a + b) == Flatten(a) + Flatten(b)
  {
    if a == [] {
      assert a + b == b;
    } else {
      assert (a + b)[1..] == a[1..] + b;
      FlattenJoin(a[1..], b);
    }
  }

  lemma FlattenSnoc<T>(ls: seq<seq<T>>, last: seq<T>)
    ensures Flatten(ls + [last]) == Flatten(ls) + last
  {
    FlattenJoin(ls, [last]);
    assert Flatten([last]) == last + Flatten([last][1..]);
  }

  /** Slices of one length. */
  ghost predicate Uniform<T>(ls: seq<seq<T>>, w: nat) {
    forall j :: 0 <= j < |ls| ==> |ls[j]| == w
  }

  lemma {:induction false} FlattenSize<T>(ls: seq<seq<T>>, w: nat)
    requires Uniform(ls, w)
    ensures |Flatten(ls)| == w * |ls|
  {
    if ls != [] {
      FlattenSize(ls[1..], w);
      Distribute(1, |ls| - 1, w);
    }
  }

  /** Cutting after i slices. */
  lemma FlattenCut<T>(ls: seq<seq<T>>, w: nat, i: nat)
    requires Uniform(ls, w) && i <= |ls|
    ensures |Flatten(ls[..i])| == w * i && |Flatten(ls)| == w * |ls| && w * i <= w * |ls|
    ensures Flatten(ls)[..w * i] == Flatten(ls[..i]) && Flatten(ls)[w * i..] == Flatten(ls[i..])
  {
    hide Flatten;
    assert ls[..i] + ls[i..] == ls;
    FlattenJoin(ls[..i], ls[i..]);
    FlattenSize(ls, w);
    FlattenSize(ls[..i], w);
    FlattenSize(ls[i..], w);
  }

  /** Slice t of the layout. */
  lemma FlattenSlice<T>(ls: seq<seq<T>>, w: nat, t: nat)
    requires Uniform(ls, w) && t < |ls|
    ensures |Flatten(ls)| == w * |ls| && w * t + w <= |Flatten(ls)|
    ensures Flatten(ls)[w * t..w * t + w] == ls[t]
  {
    FlattenCut(ls, w, t);
    assert Flatten(ls[t..])[..w] == ls[t];
    FlattenSize(ls[t + 1..], w);
    assert ls[t..][1..] == ls[t + 1..];
  }
}
