/** Sequences seen as interleaved even and odd lanes, and the bag of the records a flag selects. */
module Lanes {

  function Evens<T>(s: seq<T>): (r: seq<T>)
    ensures |r| == (|s| + 1) / 2
  {
    seq((|s| + 1) / 2, i requires 0 <= i < (|s| + 1) / 2 => s[2 * i])
  }

  function Odds<T>(s: seq<T>): (r: seq<T>)
    ensures |r| == |s| / 2
  {
    seq(|s| / 2, i requires 0 <= i < |s| / 2 => s[2 * i + 1])
  }

  function Interleave<T>(a: seq<T>, b: seq<T>): (r: seq<T>)
    requires |b| <= |a| <= |b| + 1
    ensures |r| == |a| + |b|
  {
    seq(|a| + |b|, i requires 0 <= i < |a| + |b| => if i % 2 == 0 then a[i / 2] else b[i / 2])
  }

  function Bit(b: bool): nat {
    if b then 1 else 0
  }

  /** How many flags are set. */
  function Count(sel: seq<bool>): nat {
    if sel == [] then 0 else Bit(sel[0]) + Count(sel[1..])
  }

  lemma CountOne(flag: bool)
    ensures Count([flag]) == Bit(flag)
  {
    assert [flag][1..] == [];
  }

  /** The records whose flag is set, with multiplicity. */
  ghost function Bag<R>(sel: seq<bool>, rs: seq<R>): multiset<R>
    requires |sel| == |rs|
  {
    if sel == [] then multiset{}
    else (if sel[0] then multiset{rs[0]} else multiset{}) + Bag(sel[1..], rs[1..])
  }

  function Repeat<T>(x: T, n: nat): (r: seq<T>)
    ensures |r| == n && forall i :: 0 <= i < n ==> r[i] == x
  {
    seq(n, _ => x)
  }

  lemma EvensOddsCons<T>(s: seq<T>)
    requires s != []
    ensures Evens(s) == [s[0]] + Odds(s[1..])
    ensures Odds(s) == Evens(s[1..])
  {
  }

  lemma InterleaveSplit<T>(s: seq<T>)
    ensures Interleave(Evens(s), Odds(s)) == s
  {
  }

  lemma InterleaveAt<T>(a: seq<T>, b: seq<T>, i: nat)
    requires |b| <= |a| <= |b| + 1
    ensures i < |a| ==> Interleave(a, b)[2 * i] == a[i]
    ensures i < |b| ==> Interleave(a, b)[2 * i + 1] == b[i]
  {
  }

  lemma SplitInterleave<T>(a: seq<T>, b: seq<T>)
    requires |b| <= |a| <= |b| + 1
    ensures Evens(Interleave(a, b)) == a
    ensures Odds(Interleave(a, b)) == b
  {
    hide Interleave;
    forall i | 0 <= i < |a| ensures Evens(Interleave(a, b))[i] == a[i] {
      InterleaveAt(a, b, i);
    }
    forall i | 0 <= i < |b| ensures Odds(Interleave(a, b))[i] == b[i] {
      InterleaveAt(a, b, i);
    }
  }

  lemma {:induction false} CountLanes(sel: seq<bool>)
    ensures Count(sel) == Count(Evens(sel)) + Count(Odds(sel))
  {
    if sel != [] {
      EvensOddsCons(sel);
      CountLanes(sel[1..]);
      assert Evens(sel)[1..] == Odds(sel[1..]);
    }
  }

  /** Splitting into lanes loses and invents no selected record. */
  lemma {:induction false} BagLanes<R>(sel: seq<bool>, rs: seq<R>)
    requires |sel| == |rs|
    ensures Bag(sel, rs) == Bag(Evens(sel), Evens(rs)) + Bag(Odds(sel), Odds(rs))
  {
    if sel != [] {
      EvensOddsCons(sel);
      EvensOddsCons(rs);
      BagLanes(sel[1..], rs[1..]);
      assert Evens(sel)[1..] == Odds(sel[1..]) && Evens(rs)[1..] == Odds(rs[1..]);
    }
  }

  lemma {:induction false} CountAppend(a: seq<bool>, b: seq<bool>)
    ensures Count(a + b) == Count(a) + Count(b)
  {
    if a == [] {
      assert a + b == b;
    } else {
      assert (a + b)[1..] == a[1..] + b;
      CountAppend(a[1..], b);
    }
  }

  lemma {:induction false} BagAppend<R>(a: seq<bool>, b: seq<bool>, x: seq<R>, y: seq<R>)
    requires |a| == |x| && |b| == |y|
    ensures Bag(a + b, x + y) == Bag(a, x) + Bag(b, y)
  {
    if a == [] {
      assert a + b == b && x + y == y;
    } else {
      assert (a + b)[1..] == a[1..] + b && (x + y)[1..] == x[1..] + y;
      BagAppend(a[1..], b, x[1..], y);
    }
  }

  /** Constant flags select everything or nothing. */
  lemma {:induction false} BagConstant<R>(sel: seq<bool>, rs: seq<R>, b: bool)
    requires |sel| == |rs| && forall i :: 0 <= i < |sel| ==> sel[i] == b
    ensures Bag(sel, rs) == if b then multiset(rs) else multiset{}
    ensures Count(sel) == if b then |sel| else 0
  {
    if sel == [] {
      assert rs == [];
    } else {
      BagConstant(sel[1..], rs[1..], b);
      assert rs == [rs[0]] + rs[1..];
    }
  }

  lemma {:induction false} CountBounds(sel: seq<bool>)
    ensures Count(sel) <= |sel|
    ensures Count(sel) == 0 <==> forall i :: 0 <= i < |sel| ==> !sel[i]
    ensures Count(sel) == |sel| <==> forall i :: 0 <= i < |sel| ==> sel[i]
  {
    if sel != [] {
      CountBounds(sel[1..]);
      assert sel == [sel[0]] + sel[1..];
    }
  }

  lemma {:induction false} BagSize<R>(sel: seq<bool>, rs: seq<R>)
    requires |sel| == |rs|
    ensures |Bag(sel, rs)| == Count(sel)
  {
    if sel != [] {
      BagSize(sel[1..], rs[1..]);
    }
  }
}
