/** Records with membership rows, the sample each column stands for, and the compaction the samplers call. */
module Sampling {
  import opened Lanes

  /** A record together with its membership bits, one a sample. */
  datatype Item<R> = Item(row: seq<bool>, rec: R)

  predicate Has(row: seq<bool>, j: nat) {
    j < |row| && row[j]
  }

  function Rows<R>(items: seq<Item<R>>): (rows: seq<seq<bool>>)
    ensures |rows| == |items|
  {
    seq(|items|, i requires 0 <= i < |items| => items[i].row)
  }

  function Recs<R>(items: seq<Item<R>>): (recs: seq<R>)
    ensures |recs| == |items|
  {
    seq(|items|, i requires 0 <= i < |items| => items[i].rec)
  }

  /** The records of sample j among the items. */
  ghost function Sample<R>(items: seq<Item<R>>, j: nat): multiset<R> {
    if items == [] then multiset{}
    else (if Has(items[0].row, j) then multiset{items[0].rec} else multiset{}) + Sample(items[1..], j)
  }

  lemma {:induction false} SampleAppend<R>(a: seq<Item<R>>, b: seq<Item<R>>, j: nat)
    ensures Sample(a + b, j) == Sample(a, j) + Sample(b, j)
  {
    if a == [] {
      assert a + b == b;
    } else {
      assert (a + b)[1..] == a[1..] + b;
      SampleAppend(a[1..], b, j);
    }
  }

  /** Taking one item out of the middle takes it out of its sample. */
  lemma SampleInsert<R>(a: seq<Item<R>>, x: Item<R>, b: seq<Item<R>>, j: nat)
    ensures Sample(a + [x] + b, j) == Sample([x], j) + Sample(a + b, j)
  {
    SampleAppend(a + [x], b, j);
    SampleAppend(a, [x], j);
    SampleAppend(a, b, j);
  }

  lemma SplitAt<T>(s: seq<T>, t: seq<T>) returns (i: nat)
    requires s != [] && multiset(s) == multiset(t)
    ensures i < |t| && t == t[..i] + [s[0]] + t[i + 1..] && multiset(s[1..]) == multiset(t[..i] + t[i + 1..])
  {
    assert s[0] in multiset(t);
    i :| 0 <= i < |t| && t[i] == s[0];
    assert t == t[..i] + [s[0]] + t[i + 1..];
    BagInsert(t[..i], s[0], t[i + 1..]);
    BagHead(s);
    Cancel(s[0], multiset(s[1..]), multiset(t[..i] + t[i + 1..]));
  }

  lemma BagHead<T>(s: seq<T>)
    requires s != []
    ensures multiset(s) == multiset{s[0]} + multiset(s[1..])
  {
    assert s == [s[0]] + s[1..];
  }

  lemma Cancel<T>(x: T, a: multiset<T>, b: multiset<T>)
    requires multiset{x} + a == multiset{x} + b
    ensures a == b
  {
    assert multiset{x} + a - multiset{x} == a;
    assert multiset{x} + b - multiset{x} == b;
  }

  lemma BagInsert<T>(a: seq<T>, x: T, b: seq<T>)
    ensures multiset(a + [x] + b) == multiset{x} + multiset(a + b)
  {
  }

  /** Rearranging the items keeps every sample. */
  lemma {:induction false} SamplePermutation<R>(s: seq<Item<R>>, t: seq<Item<R>>, j: nat)
    requires multiset(s) == multiset(t)
    ensures Sample(s, j) == Sample(t, j)
    decreases |s|
  {
    hide Sample;
    if s == [] {
      assert |t| == |multiset(t)| == 0;
    } else {
      var i := SplitAt(s, t);
      SamplePermutation(s[1..], t[..i] + t[i + 1..], j);
      SampleInsert([], s[0], s[1..], j);
      SampleInsert(t[..i], s[0], t[i + 1..], j);
      assert [] + [s[0]] + s[1..] == s && [] + s[1..] == s[1..];
    }
  }

  /** Items no one marks belong to no sample. */
  lemma {:induction false} Unmarked<R>(items: seq<Item<R>>, j: nat)
    requires forall i :: 0 <= i < |items| ==> !Has(items[i].row, j)
    ensures Sample(items, j) == multiset{}
  {
    if items != [] {
      Unmarked(items[1..], j);
    }
  }

  // ----- selecting items -----

  function Filter<T>(sel: seq<bool>, xs: seq<T>): seq<T>
    requires |sel| == |xs|
  {
    if sel == [] then [] else (if sel[0] then [xs[0]] else []) + Filter(sel[1..], xs[1..])
  }

  lemma {:induction false} FilterIsBag<T>(sel: seq<bool>, xs: seq<T>)
    requires |sel| == |xs|
    ensures multiset(Filter(sel, xs)) == Bag(sel, xs)
  {
    if sel != [] {
      FilterIsBag(sel[1..], xs[1..]);
    }
  }

  lemma {:induction false} FilterKeepsSample<R>(sel: seq<bool>, items: seq<Item<R>>, j: nat)
    requires |sel| == |items|
    requires forall i :: 0 <= i < |items| && Has(items[i].row, j) ==> sel[i]
    ensures Sample(Filter(sel, items), j) == Sample(items, j)
  {
    if sel != [] {
      FilterKeepsSample(sel[1..], items[1..], j);
      SampleAppend(if sel[0] then [items[0]] else [], Filter(sel[1..], items[1..]), j);
    }
  }

  /** A rearrangement of a selection that misses no item of sample j has the same sample j. */
  lemma BagKeepsSample<R>(sel: seq<bool>, items: seq<Item<R>>, part: seq<Item<R>>, j: nat)
    requires |sel| == |items| && multiset(part) == Bag(sel, items)
    requires forall i :: 0 <= i < |items| && Has(items[i].row, j) ==> sel[i]
    ensures Sample(part, j) == Sample(items, j)
  {
    hide Sample, Bag, Filter;
    FilterIsBag(sel, items);
    FilterKeepsSample(sel, items, j);
    SamplePermutation(part, Filter(sel, items), j);
  }

  // ----- counting a column -----

  /** Which items sample j marks. */
  function Column(rows: seq<seq<bool>>, j: nat): (r: seq<bool>)
    ensures |r| == |rows| && forall i :: 0 <= i < |rows| ==> r[i] == Has(rows[i], j)
  {
    seq(|rows|, i requires 0 <= i < |rows| => Has(rows[i], j))
  }

  /** How many rows sample j marks. */
  function Marked(rows: seq<seq<bool>>, j: nat): nat {
    Count(Column(rows, j))
  }

  lemma {:induction false} SampleSize<R>(items: seq<Item<R>>, j: nat)
    ensures |Sample(items, j)| == Marked(Rows(items), j)
  {
    if items != [] {
      SampleSize(items[1..], j);
      assert Column(Rows(items), j)[1..] == Column(Rows(items[1..]), j);
    }
  }

  /** When every row is marked, the sample is all the records. */
  lemma {:induction false} SampleOfAll<R>(items: seq<Item<R>>, j: nat)
    requires Marked(Rows(items), j) == |items|
    ensures Sample(items, j) == multiset(Recs(items))
  {
    CountBounds(Column(Rows(items), j));
    if items != [] {
      assert Column(Rows(items), j)[1..] == Column(Rows(items[1..]), j);
      CountBounds(Column(Rows(items[1..]), j));
      SampleOfAll(items[1..], j);
      assert Has(items[0].row, j);
      assert Recs(items) == [items[0].rec] + Recs(items[1..]);
    } else {
      assert Recs(items) == [];
    }
  }

  // ----- compaction -----

  function Range(n: nat): (r: seq<nat>)
    ensures |r| == n && forall i :: 0 <= i < n ==> r[i] == i
  {
    seq(n, i requires 0 <= i < n => i)
  }

  /** p is a permutation that moves the flagged positions to the front. */
  ghost predicate Compacts(flags: seq<bool>, p: seq<nat>) {
    && multiset(p) == multiset(Range(|flags|))
    && forall i :: 0 <= i < |p| && p[i] < |flags| ==> flags[p[i]] == (i < Count(flags))
  }

  /** The contract of the compaction network: a permutation that is a function of the flags alone, selected first. */
  ghost predicate Compactor(order: seq<bool> -> seq<nat>) {
    forall flags: seq<bool> :: Compacts(flags, order(flags))
  }

  predicate Distinct<T(==)>(xs: seq<T>) {
    forall t, u :: 0 <= t < u < |xs| ==> xs[t] != xs[u]
  }

  lemma {:induction false} Once<T>(xs: seq<T>, x: T)
    requires Distinct(xs)
    ensures multiset(xs)[x] <= 1
    decreases |xs|
  {
    if xs != [] {
      var rest := xs[1..];
      assert xs == [xs[0]] + rest;
      forall t, u | 0 <= t < u < |rest| ensures rest[t] != rest[u] {
        assert xs[t + 1] != xs[u + 1];
      }
      Once(rest, x);
      forall t | 0 <= t < |rest| ensures rest[t] != xs[0] {
        assert xs[0] != xs[t + 1];
      }
    }
  }

  lemma Twice<T>(xs: seq<T>, t: nat, u: nat)
    requires t < u < |xs| && xs[t] == xs[u]
    ensures multiset(xs)[xs[t]] >= 2
  {
    var x := xs[t];
    assert xs == xs[..u] + xs[u..] && x == xs[..u][t] && x == xs[u..][0];
    assert x in multiset(xs[..u]) && x in multiset(xs[u..]);
  }

  lemma DistinctPermutation<T>(xs: seq<T>, ys: seq<T>)
    requires Distinct(xs) && multiset(xs) == multiset(ys)
    ensures Distinct(ys)
  {
    forall t, u | 0 <= t < u < |ys| ensures ys[t] != ys[u] {
      if ys[t] == ys[u] {
        Twice(ys, t, u);
        Once(xs, ys[t]);
      }
    }
  }

  lemma PermutationShape(p: seq<nat>, n: nat)
    requires multiset(p) == multiset(Range(n))
    ensures |p| == n && forall i :: 0 <= i < n ==> p[i] < n
  {
    assert |p| == |multiset(p)| == |multiset(Range(n))| == n;
    forall i | 0 <= i < n ensures p[i] < n {
      assert p[i] in multiset(Range(n));
    }
  }

  function Gather<T>(p: seq<nat>, xs: seq<T>): (r: seq<T>)
    requires forall i :: 0 <= i < |p| ==> p[i] < |xs|
    ensures |r| == |p|
  {
    seq(|p|, i requires 0 <= i < |p| => xs[p[i]])
  }

  /** Rearranging the positions rearranges what they gather. */
  lemma {:induction false} GatherPermutation<T>(p: seq<nat>, q: seq<nat>, xs: seq<T>)
    requires multiset(p) == multiset(q)
    requires forall i :: 0 <= i < |p| ==> p[i] < |xs|
    ensures forall i :: 0 <= i < |q| ==> q[i] < |xs|
    ensures multiset(Gather(p, xs)) == multiset(Gather(q, xs))
    decreases |p|
  {
    if p == [] {
      assert |q| == |multiset(q)| == 0;
    } else {
      var i := SplitAt(p, q);
      GatherPermutation(p[1..], q[..i] + q[i + 1..], xs);
      GatherInsert(q[..i], p[0], q[i + 1..], xs);
      GatherInsert([], p[0], p[1..], xs);
      assert [] + [p[0]] + p[1..] == p && [] + p[1..] == p[1..];
    }
  }

  lemma GatherInsert<T>(a: seq<nat>, x: nat, b: seq<nat>, xs: seq<T>)
    requires x < |xs| && forall i :: 0 <= i < |a + b| ==> (a + b)[i] < |xs|
    ensures forall i :: 0 <= i < |a + [x] + b| ==> (a + [x] + b)[i] < |xs|
    ensures multiset(Gather(a + [x] + b, xs)) == multiset{xs[x]} + multiset(Gather(a + b, xs))
  {
    assert forall i :: 0 <= i < |a| ==> a[i] == (a + b)[i];
    assert forall i :: 0 <= i < |b| ==> b[i] == (a + b)[|a| + i];
    assert Gather(a + [x] + b, xs) == Gather(a, xs) + [xs[x]] + Gather(b, xs);
    assert Gather(a + b, xs) == Gather(a, xs) + Gather(b, xs);
  }

  /** A compacting permutation gathers the same bag. */
  lemma GatherBag<T>(p: seq<nat>, xs: seq<T>)
    requires multiset(p) == multiset(Range(|xs|))
    ensures |p| == |xs| && forall i :: 0 <= i < |p| ==> p[i] < |xs|
    ensures multiset(Gather(p, xs)) == multiset(xs)
  {
    PermutationShape(p, |xs|);
    GatherPermutation(p, Range(|xs|), xs);
    assert Gather(Range(|xs|), xs) == xs;
  }

  lemma TailUnflagged(flags: seq<bool>, p: seq<nat>, cut: nat)
    requires Compacts(flags, p) && Count(flags) <= cut
    ensures |p| == |flags| && forall i :: cut <= i < |p| ==> p[i] < |flags| && !flags[p[i]]
  {
    PermutationShape(p, |flags|);
  }

  /** A sample survives compaction and a cut that keeps every flagged item. */
  lemma CutKeepsSample<R>(items: seq<Item<R>>, flags: seq<bool>, p: seq<nat>, cut: nat, j: nat)
    requires |flags| == |items| && Compacts(flags, p)
    requires Count(flags) <= cut <= |items|
    requires forall i :: 0 <= i < |items| && Has(items[i].row, j) ==> flags[i]
    ensures |p| == |items| && forall i :: 0 <= i < |p| ==> p[i] < |items|
    ensures Sample(Gather(p, items)[..cut], j) == Sample(items, j)
  {
    hide Sample, Count, Range;
    GatherBag(p, items);
    var g := Gather(p, items);
    SamplePermutation(g, items, j);
    SampleAppend(g[..cut], g[cut..], j);
    assert g == g[..cut] + g[cut..];
    TailUnflagged(flags, p, cut);
    forall i | 0 <= i < |g[cut..]| ensures !Has(g[cut..][i].row, j) {
      var k := cut + i;
      assert g[cut..][i] == items[p[k]] && !flags[p[k]];
    }
    Unmarked(g[cut..], j);
  }
}
