/** Views of every stride-th lane of a buffer, as the in-place network addresses them. */
module Strided {
  import opened Lanes

  function Lane(base: nat, stride: nat, i: nat): nat {
    base + i * stride
  }

  /** n lanes of length-long storage starting at base, stride apart. */
  predicate InRange(length: nat, base: nat, stride: nat, n: nat) {
    0 < stride && (n == 0 || Lane(base, stride, n - 1) < length)
  }

  lemma MulOrder(stride: nat, d: nat)
    requires 0 < stride && 0 < d
    ensures d * stride >= stride
  {
  }

  lemma LaneOrder(base: nat, stride: nat, i: nat, j: nat)
    requires 0 < stride && i < j
    ensures Lane(base, stride, i) < Lane(base, stride, j)
  {
    MulOrder(stride, j - i);
    assert j * stride == i * stride + (j - i) * stride;
  }

  lemma LaneInRange(length: nat, base: nat, stride: nat, n: nat, i: nat)
    requires InRange(length, base, stride, n) && i < n
    ensures Lane(base, stride, i) < length
  {
    if i < n - 1 {
      LaneOrder(base, stride, i, n - 1);
    }
  }

  lemma LanesInRange(length: nat, base: nat, stride: nat, n: nat)
    requires InRange(length, base, stride, n)
    ensures forall i :: 0 <= i < n ==> Lane(base, stride, i) < length
  {
    forall i | 0 <= i < n ensures Lane(base, stride, i) < length {
      LaneInRange(length, base, stride, n, i);
    }
  }

  ghost function View<T>(s: seq<T>, base: nat, stride: nat, n: nat): (v: seq<T>)
    requires InRange(|s|, base, stride, n)
    ensures |v| == n && forall i :: 0 <= i < n ==> Lane(base, stride, i) < |s| && v[i] == s[Lane(base, stride, i)]
  {
    LanesInRange(|s|, base, stride, n);
    seq(n, i requires 0 <= i < n => s[Lane(base, stride, i)])
  }

  /** The index is none of the view's lanes. */
  ghost predicate Outside(p: int, base: nat, stride: nat, n: nat) {
    forall i :: 0 <= i < n ==> p != Lane(base, stride, i)
  }

  /** Two buffers agree outside a view. */
  ghost predicate SameOutside<T>(a: seq<T>, b: seq<T>, base: nat, stride: nat, n: nat) {
    |a| == |b| && forall p :: 0 <= p < |a| && Outside(p, base, stride, n) ==> a[p] == b[p]
  }

  lemma SameOutsideSelf<T>(a: seq<T>, base: nat, stride: nat, n: nat)
    ensures SameOutside(a, a, base, stride, n)
  {
  }

  lemma SameOutsideChain<T>(a: seq<T>, b: seq<T>, c: seq<T>, base: nat, stride: nat, n: nat)
    requires SameOutside(a, b, base, stride, n) && SameOutside(b, c, base, stride, n)
    ensures SameOutside(a, c, base, stride, n)
  {
  }

  /** Writing one lane updates one element of the view and nothing outside it. */
  lemma WriteLane<T>(s: seq<T>, base: nat, stride: nat, n: nat, i: nat, x: T)
    requires InRange(|s|, base, stride, n) && i < n
    ensures Lane(base, stride, i) < |s|
    ensures var s' := s[Lane(base, stride, i) := x];
            View(s', base, stride, n) == View(s, base, stride, n)[i := x] && SameOutside(s', s, base, stride, n)
  {
    LaneInRange(|s|, base, stride, n, i);
    var s' := s[Lane(base, stride, i) := x];
    forall j | 0 <= j < n
      ensures View(s', base, stride, n)[j] == View(s, base, stride, n)[i := x][j]
    {
      if j < i { LaneOrder(base, stride, j, i); } else if i < j { LaneOrder(base, stride, i, j); }
    }
  }

  lemma NestedLanes(base: nat, stride: nat, i: nat)
    ensures Lane(base, 2 * stride, i) == Lane(base, stride, 2 * i)
    ensures Lane(base + stride, 2 * stride, i) == Lane(base, stride, 2 * i + 1)
  {
    assert i * (2 * stride) == (2 * i) * stride;
  }

  lemma AllNestedLanes(base: nat, stride: nat)
    ensures forall i: nat {:trigger Lane(base, 2 * stride, i)} {:trigger Lane(base + stride, 2 * stride, i)} ::
              && Lane(base, 2 * stride, i) == Lane(base, stride, 2 * i)
              && Lane(base + stride, 2 * stride, i) == Lane(base, stride, 2 * i + 1)
  {
    forall i: nat
      ensures Lane(base, 2 * stride, i) == Lane(base, stride, 2 * i)
      ensures Lane(base + stride, 2 * stride, i) == Lane(base, stride, 2 * i + 1)
    {
      NestedLanes(base, stride, i);
    }
  }

  lemma LanesDiffer(base: nat, stride: nat)
    requires 0 < stride
    ensures forall i: nat, j: nat :: i != j ==> Lane(base, stride, i) != Lane(base, stride, j)
  {
    forall i: nat, j: nat | i != j
      ensures Lane(base, stride, i) != Lane(base, stride, j)
    {
      if i < j { LaneOrder(base, stride, i, j); } else { LaneOrder(base, stride, j, i); }
    }
  }

  /** Doubling the stride splits a view into its even and its odd lanes. */
  lemma SplitView<T>(s: seq<T>, base: nat, stride: nat, n: nat)
    requires InRange(|s|, base, stride, n)
    ensures InRange(|s|, base, 2 * stride, (n + 1) / 2)
    ensures InRange(|s|, base + stride, 2 * stride, n / 2)
    ensures View(s, base, 2 * stride, (n + 1) / 2) == Evens(View(s, base, stride, n))
    ensures View(s, base + stride, 2 * stride, n / 2) == Odds(View(s, base, stride, n))
  {
    LanesInRange(|s|, base, stride, n);
    AllNestedLanes(base, stride);
  }

  /** A change confined to the even lanes leaves the odd view alone. */
  lemma OddsUntouched<T>(a: seq<T>, b: seq<T>, base: nat, stride: nat, n: nat)
    requires InRange(|a|, base, stride, n) && |a| == |b|
    requires SameOutside(a, b, base, 2 * stride, (n + 1) / 2)
    ensures Odds(View(a, base, stride, n)) == Odds(View(b, base, stride, n)) && SameOutside(a, b, base, stride, n)
  {
    AllNestedLanes(base, stride);
    LanesDiffer(base, stride);
    forall j | 0 <= j < n / 2 ensures Outside(Lane(base, stride, 2 * j + 1), base, 2 * stride, (n + 1) / 2) {}
    forall p | 0 <= p < |a| && Outside(p, base, stride, n) ensures Outside(p, base, 2 * stride, (n + 1) / 2) {}
  }

  /** A change confined to the odd lanes leaves the even view alone. */
  lemma EvensUntouched<T>(a: seq<T>, b: seq<T>, base: nat, stride: nat, n: nat)
    requires InRange(|a|, base, stride, n) && |a| == |b|
    requires SameOutside(a, b, base + stride, 2 * stride, n / 2)
    ensures Evens(View(a, base, stride, n)) == Evens(View(b, base, stride, n)) && SameOutside(a, b, base, stride, n)
  {
    AllNestedLanes(base, stride);
    LanesDiffer(base, stride);
    forall j | 0 <= j < (n + 1) / 2 ensures Outside(Lane(base, stride, 2 * j), base + stride, 2 * stride, n / 2) {}
    forall p | 0 <= p < |a| && Outside(p, base, stride, n) ensures Outside(p, base + stride, 2 * stride, n / 2) {}
  }

  /** Stride one from lane zero views the whole buffer. */
  lemma WholeView<T>(s: seq<T>)
    ensures InRange(|s|, 0, 1, |s|) && View(s, 0, 1, |s|) == s
  {
    assert forall i: nat :: Lane(0, 1, i) == i;
  }
}
