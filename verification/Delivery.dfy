/** Why the samplers deliver: every output slice is exactly the sample its column marks. */
module Delivery {
  import opened Lanes
  import opened Tags
  import opened Routing
  import opened Normalization
  import opened Powers
  import opened Schedules
  import opened PostOrder
  import opened Sampling
  import opened Samplers
  import opened Products

  // ----- routing looks at controls only, so it commutes with any change of the records -----

  function Map<A, B>(f: A -> B, s: seq<A>): (r: seq<B>)
    ensures |r| == |s| && forall i :: 0 <= i < |s| ==> r[i] == f(s[i])
  {
    seq(|s|, i requires 0 <= i < |s| => f(s[i]))
  }

  lemma {:induction false} LayerMap<A, B>(f: A -> B, cs: seq<Control>, s: seq<A>)
    requires |cs| == |s| / 2
    ensures Layer(cs, Map(f, s)) == Map(f, Layer(cs, s))
  {
    if |s| >= 2 {
      LayerMap(f, cs[1..], s[2..]);
      assert Map(f, s)[2..] == Map(f, s[2..]);
    }
  }

  lemma LanesMap<A, B>(f: A -> B, s: seq<A>)
    ensures Evens(Map(f, s)) == Map(f, Evens(s)) && Odds(Map(f, s)) == Map(f, Odds(s))
  {
  }

  lemma InterleaveMap<A, B>(f: A -> B, a: seq<A>, b: seq<A>)
    requires |b| <= |a| <= |b| + 1
    ensures Interleave(Map(f, a), Map(f, b)) == Map(f, Interleave(a, b))
  {
  }

  lemma {:induction false} ApplyMap<A, B>(f: A -> B, tape: seq<Control>, s: seq<A>, nLeft: nat)
    requires nLeft <= |s| && |tape| == TapeLength(|s|, nLeft)
    ensures Apply(tape, Map(f, s), nLeft) == Map(f, Apply(tape, s, nLeft))
    decreases |s|
  {
    hide Map, Layer, Evens, Odds, Interleave, Apply, TapeLength;
    var n := |s|;
    TapeLengthUnfold(n, nLeft);
    if Trivial(n, nLeft) {
      ApplyTrivial(tape, s, nLeft);
      ApplyTrivial(tape, Map(f, s), nLeft);
    } else if n == 2 {
      ApplyPair(tape, s);
      ApplyPair(tape, Map(f, s));
      LayerMap(f, tape, s);
    } else {
      var split := n / 2 + TapeLength((n + 1) / 2, TopLeft(nLeft));
      var layer, top, bottom := tape[..n / 2], tape[n / 2..split], tape[split..];
      assert tape == layer + top + bottom;
      var mid := Layer(layer, s);
      LayerMap(f, layer, s);
      LanesMap(f, mid);
      ChildSizes(mid);
      ApplyNode(layer, top, bottom, s, nLeft);
      ApplyNode(layer, top, bottom, Map(f, s), nLeft);
      ApplyMap(f, top, Evens(mid), TopLeft(nLeft));
      ApplyMap(f, bottom, Odds(mid), BottomLeft(nLeft));
      InterleaveMap(f, Apply(top, Evens(mid), TopLeft(nLeft)), Apply(bottom, Odds(mid), BottomLeft(nLeft)));
    }
  }

  lemma ChildSizes<T>(s: seq<T>)
    ensures |Evens(s)| == (|s| + 1) / 2 && |Odds(s)| == |s| / 2
  {
  }

  lemma ApplyItems<R>(tape: seq<Control>, items: seq<Item<R>>, nLeft: nat)
    requires nLeft <= |items| && |tape| == TapeLength(|items|, nLeft)
    ensures Rows(Apply(tape, items, nLeft)) == Apply(tape, Rows(items), nLeft)
    ensures Recs(Apply(tape, items, nLeft)) == Apply(tape, Recs(items), nLeft)
  {
    hide Apply, TapeLength;
    ApplyMap((it: Item<R>) => it.row, tape, items, nLeft);
    ApplyMap((it: Item<R>) => it.rec, tape, items, nLeft);
    assert Rows(items) == Map((it: Item<R>) => it.row, items);
    assert Recs(items) == Map((it: Item<R>) => it.rec, items);
    var out := Apply(tape, items, nLeft);
    assert Rows(out) == Map((it: Item<R>) => it.row, out);
    assert Recs(out) == Map((it: Item<R>) => it.rec, out);
  }

  lemma CompactedItems<R>(order: seq<bool> -> seq<nat>, flags: seq<bool>, items: seq<Item<R>>, cut: nat)
    requires Compactor(order) && |flags| == |items| && cut <= |items|
    ensures Rows(Compacted(order, flags, items, cut)) == Compacted(order, flags, Rows(items), cut)
    ensures Recs(Compacted(order, flags, items, cut)) == Compacted(order, flags, Recs(items), cut)
  {
    PermutationShape(order(flags), |items|);
  }

  // ----- projection -----

  function ProjectItems<R>(items: seq<Item<R>>, start: nat, count: nat): (r: seq<Item<R>>)
    ensures |r| == |items|
  {
    seq(|items|, i requires 0 <= i < |items| => Item(Project(items[i].row, start, count), items[i].rec))
  }

  lemma ProjectItemsParts<R>(items: seq<Item<R>>, start: nat, count: nat)
    ensures Rows(ProjectItems(items, start, count)) == ProjectRows(Rows(items), start, count)
    ensures Recs(ProjectItems(items, start, count)) == Recs(items)
  {
  }

  /** Projection renumbers samples and changes none. */
  lemma {:induction false} ProjectKeepsSample<R>(items: seq<Item<R>>, start: nat, count: nat, j: nat)
    requires j < count
    ensures Sample(ProjectItems(items, start, count), j) == Sample(items, start + j)
  {
    if items != [] {
      ProjectKeepsSample(items[1..], start, count, j);
      assert ProjectItems(items, start, count)[1..] == ProjectItems(items[1..], start, count);
    }
  }

  // ----- how many rows a group of samples marks -----

  lemma {:induction false} CountUnion(u: seq<bool>, p: seq<bool>, q: seq<bool>)
    requires |u| == |p| == |q| && forall i :: 0 <= i < |u| && u[i] ==> p[i] || q[i]
    ensures Count(u) <= Count(p) + Count(q)
  {
    if u != [] {
      CountUnion(u[1..], p[1..], q[1..]);
    }
  }

  /** A group of samples marks at most m rows a sample. */
  lemma {:induction false} GroupBound(rows: seq<seq<bool>>, start: nat, count: nat, m: nat)
    requires forall j :: start <= j < start + count ==> Marked(rows, j) == m
    ensures Count(Flags(ProjectRows(rows, start, count))) <= m * count
  {
    var flags := Flags(ProjectRows(rows, start, count));
    if count == 0 {
      CountBounds(flags);
    } else {
      GroupBound(rows, start, count - 1, m);
      var fewer, last := Flags(ProjectRows(rows, start, count - 1)), start + (count - 1);
      forall i | 0 <= i < |rows| && flags[i] ensures fewer[i] || Column(rows, last)[i] {
        var row, row' := Project(rows[i], start, count), Project(rows[i], start, count - 1);
        var b :| 0 <= b < count && row[b];
        assert b < count - 1 ==> row'[b];
      }
      CountUnion(flags, fewer, Column(rows, last));
      assert Marked(rows, last) == m;
      assert m * count == m * (count - 1) + m;
    }
  }

  /** Sample j marks the m rows from its multiple of m on, or the last m rows. */
  function FirstMark(n: nat, m: nat, j: nat): nat
    requires m <= n
  {
    if j * m <= n - m then j * m else n - m
  }

  /** Samples that overlap as little as they can. */
  function SpreadRows(n: nat, m: nat, count: nat): (rows: seq<seq<bool>>)
    requires m <= n
    ensures |rows| == n && forall i :: 0 <= i < n ==> |rows[i]| == count
  {
    seq(n, i => seq(count, j requires 0 <= j => FirstMark(n, m, j) <= i < FirstMark(n, m, j) + m))
  }

  lemma {:induction false} CountStretch(flags: seq<bool>, lo: nat, hi: nat)
    requires lo <= hi <= |flags| && forall i :: 0 <= i < |flags| ==> (flags[i] <==> lo <= i < hi)
    ensures Count(flags) == hi - lo
    decreases |flags|
  {
    if flags != [] {
      CountStretch(flags[1..], if lo == 0 then 0 else lo - 1, if hi == 0 then 0 else hi - 1);
    }
  }

  /** A row below the capacity is marked by the sample whose multiple of m it follows. */
  lemma SpreadMarked(n: nat, m: nat, count: nat, i: nat)
    requires 0 < m <= n && i < n
    ensures (exists j :: 0 <= j < count && FirstMark(n, m, j) <= i < FirstMark(n, m, j) + m) <==> i < m * count
  {
    if i < m * count {
      var j := i / m;
      assert i == j * m + i % m;
      if count <= j {
        Monotone(count, j, m);
      }
      assert FirstMark(n, m, j) <= i < FirstMark(n, m, j) + m;
    }
    if j :| 0 <= j < count && FirstMark(n, m, j) <= i < FirstMark(n, m, j) + m {
      Monotone(j + 1, count, m);
    }
  }

  /** A group's capacity is the most rows its samples can mark together. */
  lemma CapacityReached(n: nat, m: nat, count: nat)
    requires 0 < m <= n
    ensures forall j :: 0 <= j < count ==> Marked(SpreadRows(n, m, count), j) == m
    ensures Count(Flags(SpreadRows(n, m, count))) == NodeCapacity(n, m, count)
  {
    hide FirstMark, Count;
    var rows := SpreadRows(n, m, count);
    forall j | 0 <= j < count ensures Marked(rows, j) == m {
      FirstMarkFits(n, m, j);
      CountStretch(Column(rows, j), FirstMark(n, m, j), FirstMark(n, m, j) + m);
    }
    forall i | 0 <= i < n ensures Flags(rows)[i] <==> i < m * count {
      SpreadMarked(n, m, count, i);
      if true in rows[i] {
        var j :| 0 <= j < count && rows[i][j];
      }
      if j :| 0 <= j < count && FirstMark(n, m, j) <= i < FirstMark(n, m, j) + m {
        assert rows[i][j];
      }
    }
    CountStretch(Flags(rows), 0, NodeCapacity(n, m, count));
  }

  lemma FirstMarkFits(n: nat, m: nat, j: nat)
    requires m <= n
    ensures FirstMark(n, m, j) + m <= n
  {
  }

  // ----- delivery -----

  /** Every one of the k samples marks exactly m of the items. */
  ghost predicate Ready<R>(items: seq<Item<R>>, m: nat, k: nat) {
    0 < m <= |items| && 0 < k && forall j :: 0 <= j < k ==> Marked(Rows(items), j) == m
  }

  /** The slices hold the samples from start on, record for record. */
  ghost predicate Delivers<R>(out: seq<seq<R>>, items: seq<Item<R>>, start: nat, count: nat) {
    |out| == count && forall j :: 0 <= j < count ==> multiset(out[j]) == Sample(items, start + j)
  }

  ghost predicate SameSamples<R>(child: seq<Item<R>>, items: seq<Item<R>>, start: nat, count: nat) {
    forall j :: 0 <= j < count ==> Sample(child, j) == Sample(items, start + j)
  }

  lemma ReadyChild<R>(child: seq<Item<R>>, items: seq<Item<R>>, start: nat, count: nat, m: nat, k: nat)
    requires Ready(items, m, k) && start + count <= k && 0 < count && m <= |child|
    requires SameSamples(child, items, start, count)
    ensures Ready(child, m, count)
  {
    forall j | 0 <= j < count ensures Marked(Rows(child), j) == m {
      SampleSize(child, j);
      SampleSize(items, start + j);
    }
  }

  lemma DeliversChild<R>(out: seq<seq<R>>, child: seq<Item<R>>, items: seq<Item<R>>, start: nat, count: nat)
    requires SameSamples(child, items, start, count) && Delivers(out, child, 0, count)
    ensures Delivers(out, items, start, count)
  {
    forall j | 0 <= j < count ensures multiset(out[j]) == Sample(items, start + j) {
      assert multiset(out[j]) == Sample(child, 0 + j);
    }
  }

  lemma DeliversJoin<R>(a: seq<seq<R>>, b: seq<seq<R>>, items: seq<Item<R>>, start: nat, p: nat, q: nat)
    requires Delivers(a, items, start, p) && Delivers(b, items, start + p, q)
    ensures Delivers(a + b, items, start, p + q)
  {
    var out := a + b;
    forall j | 0 <= j < p + q ensures multiset(out[j]) == Sample(items, start + j) {
      if j >= p {
        var j' := j - p;
        assert out[j] == b[j'] && multiset(b[j']) == Sample(items, start + p + j');
      }
    }
  }

  /** What the selected-first compaction of a group of samples leaves. */
  ghost function Child<R>(order: seq<bool> -> seq<nat>, items: seq<Item<R>>, m: nat, start: nat,
                          count: nat): (r: seq<Item<R>>)
    requires Compactor(order)
    ensures |r| == NodeCapacity(|items|, m, count)
  {
    var p, cap := ProjectItems(items, start, count), NodeCapacity(|items|, m, count);
    if cap < |items| then Compacted(order, Flags(Rows(p)), p, cap) else p
  }

  /** Filtering keeps the samples of the group: at most m * count rows are marked, and they move to the front. */
  lemma ChildKeepsSamples<R>(order: seq<bool> -> seq<nat>, items: seq<Item<R>>, m: nat, k: nat, start: nat, count: nat)
    requires Compactor(order) && Ready(items, m, k) && start + count <= k && 0 < count
    ensures SameSamples(Child(order, items, m, start, count), items, start, count)
    ensures Ready(Child(order, items, m, start, count), m, count)
  {
    var p, cap := ProjectItems(items, start, count), NodeCapacity(|items|, m, count);
    var child, flags := Child(order, items, m, start, count), Flags(Rows(p));
    ProjectItemsParts(items, start, count);
    GroupBound(Rows(items), start, count, m);
    forall j | 0 <= j < count ensures Sample(child, j) == Sample(items, start + j) {
      ProjectKeepsSample(items, start, count, j);
      if cap < |items| {
        CutOfChild(order, p, cap, j);
      }
    }
    CapacityFits(|items|, m, count);
    ReadyChild(child, items, start, count, m, k);
  }

  lemma CutOfChild<R>(order: seq<bool> -> seq<nat>, p: seq<Item<R>>, cap: nat, j: nat)
    requires Compactor(order) && cap <= |p| && Count(Flags(Rows(p))) <= cap
    ensures Sample(Compacted(order, Flags(Rows(p)), p, cap), j) == Sample(p, j)
  {
    hide Sample, Count;
    var flags := Flags(Rows(p));
    assert Compacts(flags, order(flags));
    CutKeepsSample(p, flags, order(flags), cap, j);
  }

  /** The written and read child of an edge are the two halves of the same items. */
  lemma ChildParts<R>(order: seq<bool> -> seq<nat>, items: seq<Item<R>>, m: nat, start: nat, count: nat)
    requires Compactor(order)
    ensures var projected, cap := ProjectRows(Rows(items), start, count), NodeCapacity(|items|, m, count);
            && Rows(Child(order, items, m, start, count))
               == (if cap < |items| then Compacted(order, Flags(projected), projected, cap) else projected)
            && Recs(Child(order, items, m, start, count))
               == (if cap < |items| then Compacted(order, Flags(projected), Recs(items), cap) else Recs(items))
  {
    var p, cap := ProjectItems(items, start, count), NodeCapacity(|items|, m, count);
    ProjectItemsParts(items, start, count);
    if cap < |items| {
      CompactedItems(order, Flags(Rows(p)), p, cap);
    }
  }

  // ----- forks -----

  /** Every row a fork's side serves carries that side's tag. */
  lemma TagsOfMembers<R>(items: seq<Item<R>>, k: nat, i: nat, j: nat)
    requires i < |items| && Has(items[i].row, j) && j < k && 1 < k
    ensures ForkTags(Rows(items), k)[i].Side(j < k / 2)
  {
    var row := items[i].row;
    if j < k / 2 {
      assert Project(row, 0, k / 2)[j];
    } else {
      assert Project(row, k / 2, k - k / 2)[j - k / 2];
    }
  }

  /** The weights of a fork fit its capacities: normalisation never fails. */
  lemma ForkFitsWeights<R>(items: seq<Item<R>>, m: nat, k: nat)
    requires Ready(items, m, k) && 1 < k && m * k == |items|
    ensures Fits(ForkTags(Rows(items), k), m * (k / 2), |items| - m * (k / 2))
  {
    var rows := Rows(items);
    ForkFits(|items|, m, k);
    GroupBound(rows, 0, k / 2, m);
    GroupBound(rows, k / 2, k - k / 2, m);
    assert Side(ForkTags(rows, k), true) == Flags(ProjectRows(rows, 0, k / 2));
    assert Side(ForkTags(rows, k), false) == Flags(ProjectRows(rows, k / 2, k - k / 2));
  }

  /** Normalisation adds responsibilities and removes none. */
  lemma FilledKeeps(ts: seq<Tag>, nLeft: nat, nRight: nat, left: bool, i: nat)
    requires Fits(ts, nLeft, nRight) && i < |ts| && ts[i].Side(left)
    ensures Filled(ts, nLeft, nRight)[i].Side(left)
  {
    NormalizeFlags(ts, nLeft - Weight(ts, true), nRight - Weight(ts, false), 0, left, i);
  }

  /** The two sides of the routed items. */
  ghost function Routed<R>(items: seq<Item<R>>, m: nat, k: nat): (r: seq<Item<R>>)
    requires Ready(items, m, k) && 1 < k && m * k == |items|
    ensures |r| == |items|
  {
    ForkFits(|items|, m, k);
    ForkFitsWeights(items, m, k);
    var full := Filled(ForkTags(Rows(items), k), m * (k / 2), |items| - m * (k / 2));
    TapeFits(full, m * (k / 2));
    Apply(Tape(full, m * (k / 2)), items, m * (k / 2))
  }

  /** A routed side has the samples of its group. */
  lemma RoutedKeepsSample<R>(items: seq<Item<R>>, m: nat, k: nat, j: nat)
    requires Ready(items, m, k) && 1 < k && m * k == |items| && j < k
    ensures m * (k / 2) <= |items|
    ensures var out, leftN := Routed(items, m, k), m * (k / 2);
            Sample(if j < k / 2 then out[..leftN] else out[leftN..], j) == Sample(items, j)
  {
    hide Sample, Apply, Tape, TapeLength, Bag, Normalize, Weight;
    var out, leftN, tags := Routed(items, m, k), m * (k / 2), ForkTags(Rows(items), k);
    ForkFits(|items|, m, k);
    ForkFitsWeights(items, m, k);
    FilledIsExact(tags, leftN, |items| - leftN);
    var full := Filled(tags, leftN, |items| - leftN);
    NetworkRoutes(full, items, leftN);
    var sel := Side(full, j < k / 2);
    forall i | 0 <= i < |items| && Has(items[i].row, j) ensures sel[i] {
      TagsOfMembers(items, k, i, j);
      FilledKeeps(tags, leftN, |items| - leftN, j < k / 2, i);
    }
    BagKeepsSample(sel, items, if j < k / 2 then out[..leftN] else out[leftN..], j);
  }

  ghost function LeftItems<R>(items: seq<Item<R>>, m: nat, k: nat): seq<Item<R>>
    requires Ready(items, m, k) && 1 < k && m * k == |items|
  {
    ForkFits(|items|, m, k);
    ProjectItems(Routed(items, m, k)[..m * (k / 2)], 0, k / 2)
  }

  ghost function RightItems<R>(items: seq<Item<R>>, m: nat, k: nat): seq<Item<R>>
    requires Ready(items, m, k) && 1 < k && m * k == |items|
  {
    ForkFits(|items|, m, k);
    ProjectItems(Routed(items, m, k)[m * (k / 2)..], k / 2, k - k / 2)
  }

  lemma SidesKeepSamples<R>(items: seq<Item<R>>, m: nat, k: nat)
    requires Ready(items, m, k) && 1 < k && m * k == |items|
    ensures m * (k / 2) <= |items|
    ensures SameSamples(LeftItems(items, m, k), items, 0, k / 2) && Ready(LeftItems(items, m, k), m, k / 2)
    ensures SameSamples(RightItems(items, m, k), items, k / 2, k - k / 2)
            && Ready(RightItems(items, m, k), m, k - k / 2)
  {
    hide Sample, Routed;
    ForkFits(|items|, m, k);
    var out, leftN := Routed(items, m, k), m * (k / 2);
    forall j | 0 <= j < k / 2 ensures Sample(LeftItems(items, m, k), j) == Sample(items, 0 + j) {
      RoutedKeepsSample(items, m, k, j);
      ProjectKeepsSample(out[..leftN], 0, k / 2, j);
    }
    forall j | 0 <= j < k - k / 2 ensures Sample(RightItems(items, m, k), j) == Sample(items, k / 2 + j) {
      RoutedKeepsSample(items, m, k, k / 2 + j);
      ProjectKeepsSample(out[leftN..], k / 2, k - k / 2, j);
    }
    ReadyChild(LeftItems(items, m, k), items, 0, k / 2, m, k);
    ReadyChild(RightItems(items, m, k), items, k / 2, k - k / 2, m, k);
  }

  /** Both layouts of a fork's controls replay to the same records. */
  lemma ReplayOfLayout<R>(mode: Mode, tape: seq<Control>, recs: seq<R>, leftN: nat)
    requires leftN <= |recs| && |tape| == TapeLength(|recs|, leftN)
    ensures ReplayTape(mode, Layout(mode, |recs|, leftN, tape), recs, leftN) == Apply(tape, recs, leftN)
  {
    hide PostApply, Apply, PostTape, Levels, RunStages, TapeLength, Gates, IsPowerOfTwo;
    if PostOrdered(mode, |recs|, leftN) {
      PostOrderedGates(mode, |recs|, leftN);
      SchedulesAgree(Log2(|recs|), tape, recs);
    }
  }

  // ----- the theorem, by induction on the number of samples -----

  /** Writing succeeds, fills exactly the counted tapes, and reading them delivers. */
  ghost predicate TreeWorks<R>(mode: Mode, order: seq<bool> -> seq<nat>, items: seq<Item<R>>, m: nat, k: nat)
    requires Compactor(order) && Ready(items, m, k)
  {
    var w := WriteTree(mode, order, Rows(items), m, k);
    && w.Some? && Size(w.value) == CountTree(mode, |items|, m, k)
    && Delivers(ReadTree(mode, order, w.value, Recs(items), m, k), items, 0, k)
  }

  ghost predicate EdgeWorks<R>(mode: Mode, order: seq<bool> -> seq<nat>, items: seq<Item<R>>, m: nat, start: nat,
                               count: nat) {
    && Compactor(order) && 0 < m <= |items| && 0 < count
    && var w := WriteEdge(mode, order, Rows(items), m, start, count);
    && w.Some? && Size(w.value) == CountEdge(mode, |items|, m, count)
    && Delivers(ReadEdge(mode, order, w.value, Recs(items), m, count), items, start, count)
  }

  lemma {:induction false} TreeDelivers<R>(mode: Mode, order: seq<bool> -> seq<nat>, items: seq<Item<R>>, m: nat,
                                           k: nat)
    requires Compactor(order) && Ready(items, m, k)
    ensures TreeWorks(mode, order, items, m, k)
    decreases k, 1
  {
    hide Sample, Marked, WriteEdge, ReadEdge, WriteFork, ReadFork, CountEdge, CountFork;
    if k == 1 {
      LeafDelivers(mode, order, items, m);
    } else if IsFork(mode, |items|, m, k) {
      ForkDelivers(mode, order, items, m, k);
    } else {
      EdgeDelivers(mode, order, items, m, k, 0, k / 2);
      EdgeDelivers(mode, order, items, m, k, k / 2, k - k / 2);
      PairDelivers(mode, order, items, m, k);
    }
  }

  lemma LeafDelivers<R>(mode: Mode, order: seq<bool> -> seq<nat>, items: seq<Item<R>>, m: nat)
    requires Compactor(order) && Ready(items, m, 1)
    ensures TreeWorks(mode, order, items, m, 1)
  {
    hide Sample, Marked;
    assert Marked(Rows(items), 0) == m;
    if |items| == m {
      SampleOfAll(items, 0);
    } else {
      ChildKeepsSamples(order, items, m, 1, 0, 1);
      ChildParts(order, items, m, 0, 1);
      var child := Child(order, items, m, 0, 1);
      CapacityFits(|items|, m, 1);
      assert Marked(Rows(child), 0) == m && Sample(child, 0) == Sample(items, 0 + 0);
      SampleOfAll(child, 0);
    }
  }

  lemma PairDelivers<R>(mode: Mode, order: seq<bool> -> seq<nat>, items: seq<Item<R>>, m: nat, k: nat)
    requires Compactor(order) && Ready(items, m, k) && 1 < k && !IsFork(mode, |items|, m, k)
    requires EdgeWorks(mode, order, items, m, 0, k / 2) && EdgeWorks(mode, order, items, m, k / 2, k - k / 2)
    ensures TreeWorks(mode, order, items, m, k)
  {
    hide Sample, Marked, WriteEdge, ReadEdge, CountEdge, Delivers;
    var a, b := WriteEdge(mode, order, Rows(items), m, 0, k / 2).value,
      WriteEdge(mode, order, Rows(items), m, k / 2, k - k / 2).value;
    TakeDropJoin(a, b);
    DeliversJoin(ReadEdge(mode, order, a, Recs(items), m, k / 2), ReadEdge(mode, order, b, Recs(items), m, k - k / 2),
                 items, 0, k / 2, k - k / 2);
  }

  lemma {:induction false} EdgeDelivers<R>(mode: Mode, order: seq<bool> -> seq<nat>, items: seq<Item<R>>, m: nat,
                                           k: nat,
                                           start: nat, count: nat)
    requires Compactor(order) && Ready(items, m, k) && start + count <= k && 0 < count
    ensures EdgeWorks(mode, order, items, m, start, count)
    decreases count, 2
  {
    hide Sample, Marked, WriteTree, ReadTree, CountTree, Child, Delivers;
    ChildKeepsSamples(order, items, m, k, start, count);
    ChildParts(order, items, m, start, count);
    CapacityFits(|items|, m, count);
    var child := Child(order, items, m, start, count);
    if count > 1 {
      TreeDelivers(mode, order, child, m, count);
      EdgeOfTree(mode, order, items, m, start, count);
    } else {
      EdgeLeaf(mode, order, items, m, start, count);
    }
  }

  lemma EdgeLeaf<R>(mode: Mode, order: seq<bool> -> seq<nat>, items: seq<Item<R>>, m: nat, start: nat, count: nat)
    requires Compactor(order) && 0 < m <= |items| && count == 1
    requires Ready(Child(order, items, m, start, count), m, count)
    requires SameSamples(Child(order, items, m, start, count), items, start, count)
    ensures EdgeWorks(mode, order, items, m, start, count)
  {
    hide Sample, Child, WriteEdge, ReadEdge, Delivers, SameSamples, Ready, Compacted, Compactor;
    var child := Child(order, items, m, start, count);
    ChildParts(order, items, m, start, count);
    CapacityFits(|items|, m, count);
    LeafSample(child, items, m, start);
    LeafWrites(mode, order, Rows(items), m, start, count);
    LeafReads(mode, order, WriteEdge(mode, order, Rows(items), m, start, count).value, Recs(items), m, count);
  }

  lemma LeafWrites(mode: Mode, order: seq<bool> -> seq<nat>, rows: seq<seq<bool>>, m: nat, start: nat, count: nat)
    requires Compactor(order) && 0 < m <= |rows| && count == 1
    ensures WriteEdge(mode, order, rows, m, start, count)
         == Some(Tapes(if NodeCapacity(|rows|, m, count) < |rows| then Flags(ProjectRows(rows, start, count))
                       else [], []))
  {
    hide WriteTree;
    JoinNothing(Tapes(if NodeCapacity(|rows|, m, count) < |rows| then Flags(ProjectRows(rows, start, count))
                      else [], []));
  }

  lemma LeafReads<R>(mode: Mode, order: seq<bool> -> seq<nat>, t: Tapes, recs: seq<R>, m: nat, count: nat)
    requires Compactor(order) && 0 < m <= |recs| && count == 1
    requires |t.swo| == EdgeBits(|recs|, m, count) && t.ofr == []
    ensures Size(t) == CountEdge(mode, |recs|, m, count)
    ensures var cap := NodeCapacity(|recs|, m, count);
            ReadEdge(mode, order, t, recs, m, count) ==
              [if cap < |recs| then Compacted(order, t.swo, recs, cap) else recs]
  {
    hide ReadTree, CountTree;
    assert Take(t, Counts(EdgeBits(|recs|, m, count), 0)) == t;
  }

  lemma JoinNothing(own: Tapes)
    ensures Join(Some(own), Some(Tapes([], []))) == Some(own)
  {
    var bits: seq<bool>, controls: seq<Control> := [], [];
    assert own.swo + bits == own.swo && own.ofr + controls == own.ofr;
  }

  lemma LeafSample<R>(child: seq<Item<R>>, items: seq<Item<R>>, m: nat, start: nat)
    requires Ready(child, m, 1) && |child| == m && SameSamples(child, items, start, 1)
    ensures Delivers([Recs(child)], items, start, 1)
  {
    hide Sample, Marked;
    assert Marked(Rows(child), 0) == m && Sample(child, 0) == Sample(items, start + 0);
    SampleOfAll(child, 0);
  }

  lemma EdgeOfTree<R>(mode: Mode, order: seq<bool> -> seq<nat>, items: seq<Item<R>>, m: nat, start: nat, count: nat)
    requires Compactor(order) && 0 < m <= |items| && 1 < count
    requires Ready(Child(order, items, m, start, count), m, count)
    requires SameSamples(Child(order, items, m, start, count), items, start, count)
    requires TreeWorks(mode, order, Child(order, items, m, start, count), m, count)
    ensures EdgeWorks(mode, order, items, m, start, count)
  {
    hide Sample, Marked, WriteTree, ReadTree, CountTree, Child, Delivers, SameSamples;
    var child := Child(order, items, m, start, count);
    ChildParts(order, items, m, start, count);
    CapacityFits(|items|, m, count);
    var projected, cap := ProjectRows(Rows(items), start, count), NodeCapacity(|items|, m, count);
    var own := Tapes(if cap < |items| then Flags(projected) else [], []);
    var below := WriteTree(mode, order, Rows(child), m, count).value;
    TakeDropJoin(own, below);
    var out := ReadTree(mode, order, below, Recs(child), m, count);
    DeliversChild(out, child, items, start, count);
  }

  lemma {:induction false} ForkDelivers<R>(mode: Mode, order: seq<bool> -> seq<nat>, items: seq<Item<R>>, m: nat,
                                           k: nat)
    requires Compactor(order) && Ready(items, m, k) && IsFork(mode, |items|, m, k)
    ensures TreeWorks(mode, order, items, m, k)
    decreases k, 0
  {
    hide Sample, Marked, WriteTree, ReadTree, CountTree, LeftItems, RightItems, Delivers;
    SidesKeepSamples(items, m, k);
    TreeDelivers(mode, order, LeftItems(items, m, k), m, k / 2);
    TreeDelivers(mode, order, RightItems(items, m, k), m, k - k / 2);
    ForkOfSides(mode, order, items, m, k);
  }

  /** What a fork writes: its own controls, then its two sides. */
  lemma ForkWrites<R>(mode: Mode, order: seq<bool> -> seq<nat>, items: seq<Item<R>>, m: nat, k: nat)
      returns (tape: seq<Control>)
    requires Compactor(order) && Ready(items, m, k) && IsFork(mode, |items|, m, k)
    ensures m * (k / 2) <= |items| && |tape| == TapeLength(|items|, m * (k / 2))
    ensures m <= |LeftItems(items, m, k)| && m <= |RightItems(items, m, k)|
    ensures WriteFork(mode, order, Rows(items), m, k)
         == Join(Some(Tapes([], Layout(mode, |items|, m * (k / 2), tape))),
                 Join(WriteTree(mode, order, Rows(LeftItems(items, m, k)), m, k / 2),
                      WriteTree(mode, order, Rows(RightItems(items, m, k)), m, k - k / 2)))
    ensures Recs(LeftItems(items, m, k)) == Apply(tape, Recs(items), m * (k / 2))[..m * (k / 2)]
    ensures Recs(RightItems(items, m, k)) == Apply(tape, Recs(items), m * (k / 2))[m * (k / 2)..]
  {
    hide Apply, Tape, TapeLength, Filled, Fits, Layout, WriteTree, Marked;
    var n, leftN, tags := |items|, m * (k / 2), ForkTags(Rows(items), k);
    ForkFits(n, m, k);
    ForkFitsWeights(items, m, k);
    var full := Filled(tags, leftN, n - leftN);
    TapeFits(full, leftN);
    tape := Tape(full, leftN);
    ApplyItems(tape, items, leftN);
    var out := Routed(items, m, k);
    ProjectItemsParts(out[..leftN], 0, k / 2);
    ProjectItemsParts(out[leftN..], k / 2, k - k / 2);
    assert Rows(out[..leftN]) == Rows(out)[..leftN] && Rows(out[leftN..]) == Rows(out)[leftN..];
    assert Recs(out[..leftN]) == Recs(out)[..leftN] && Recs(out[leftN..]) == Recs(out)[leftN..];
  }

  /** What a fork reads from a tape in three parts. */
  lemma ForkReads(mode: Mode, own: seq<Control>, a: Tapes, b: Tapes, t: Tapes, n: nat, m: nat, k: nat, leftN: nat)
    requires 0 < m <= n && IsFork(mode, n, m, k) && leftN == m * (k / 2)
    requires m <= leftN <= n && m <= n - leftN && |own| == TapeLength(n, leftN)
    requires Size(a) == CountTree(mode, leftN, m, k / 2) && Size(b) == CountTree(mode, n - leftN, m, k - k / 2)
    requires Some(t) == Join(Some(Tapes([], own)), Join(Some(a), Some(b)))
    ensures Size(t) == CountFork(mode, n, m, k)
    ensures ForkTapes(mode, t, n, m, k) == ForkSplit(own, a, b)
  {
    hide TapeLength, CountTree;
    TakeDropJoin(a, b);
    TakeDropJoin(Tapes([], own), Join(Some(a), Some(b)).value);
  }

  lemma ForkOfSides<R>(mode: Mode, order: seq<bool> -> seq<nat>, items: seq<Item<R>>, m: nat, k: nat)
    requires Compactor(order) && Ready(items, m, k) && IsFork(mode, |items|, m, k)
    requires Ready(LeftItems(items, m, k), m, k / 2) && TreeWorks(mode, order, LeftItems(items, m, k), m, k / 2)
    requires Ready(RightItems(items, m, k), m, k - k / 2)
             && TreeWorks(mode, order, RightItems(items, m, k), m, k - k / 2)
    requires SameSamples(LeftItems(items, m, k), items, 0, k / 2)
    requires SameSamples(RightItems(items, m, k), items, k / 2, k - k / 2)
    ensures TreeWorks(mode, order, items, m, k)
  {
    hide Sample, Marked, Delivers, SameSamples, Apply, TapeLength, Layout, ReplayTape, CountFork, WriteFork, ForkTapes,
         LeftItems, RightItems, CountEdge, ReadEdge, WriteEdge;
    var n, leftN := |items|, m * (k / 2);
    ForkFits(n, m, k);
    var tape := ForkWrites(mode, order, items, m, k);
    var l, r := LeftItems(items, m, k), RightItems(items, m, k);
    var a, b := WriteTree(mode, order, Rows(l), m, k / 2).value, WriteTree(mode, order, Rows(r), m, k - k / 2).value;
    var t := WriteFork(mode, order, Rows(items), m, k).value;
    assert CountTree(mode, n, m, k) == CountFork(mode, n, m, k);
    assert WriteTree(mode, order, Rows(items), m, k) == Some(t);
    ForkReads(mode, Layout(mode, n, leftN, tape), a, b, t, n, m, k, leftN);
    ReplayOfLayout(mode, tape, Recs(items), leftN);
    var x, y := ReadTree(mode, order, a, Recs(l), m, k / 2), ReadTree(mode, order, b, Recs(r), m, k - k / 2);
    DeliversChild(x, l, items, 0, k / 2);
    DeliversChild(y, r, items, k / 2, k - k / 2);
    DeliversJoin(x, y, items, 0, k / 2, k - k / 2);
    assert ReadFork(mode, order, t, Recs(items), m, k) == x + y;
    assert ReadTree(mode, order, t, Recs(items), m, k) == x + y;
  }

  // ----- whole samplers -----

  /** Writing the nodes succeeds and fills the counted tapes, and reading them back serves the samples from start on. */
  ghost predicate NodesWork<R>(mode: Mode, order: seq<bool> -> seq<nat>, nodes: seq<FrontierNode>, items: seq<Item<R>>,
                               m: nat, start: nat, count: nat)
  {
    && Compactor(order) && 0 < m <= |items| && (forall i :: 0 <= i < |nodes| ==> 0 < nodes[i].count)
    && var w := WriteNodes(mode, order, nodes, Rows(items), m);
    && w.Some? && Size(w.value) == CountNodes(mode, nodes, |items|, m)
    && Delivers(ReadNodes(mode, order, nodes, w.value, Recs(items), m), items, start, count)
  }

  lemma {:induction false} NodesDeliver<R>(mode: Mode, order: seq<bool> -> seq<nat>, nodes: seq<FrontierNode>,
                                           items: seq<Item<R>>,
                                           m: nat, start: nat, k: nat)
    requires Compactor(order) && Ready(items, m, k) && Covers(nodes, start, k)
    ensures start <= k && forall i :: 0 <= i < |nodes| ==> 0 < nodes[i].count
    ensures NodesWork(mode, order, nodes, items, m, start, k - start)
    decreases |nodes|
  {
    hide NodesWork, EdgeWorks, Compactor;
    CoversBound(nodes, start, k);
    if nodes == [] {
      NothingDelivered(mode, order, items, m, start);
    } else {
      var count := nodes[0].count;
      CoversBound(nodes[1..], start + count, k);
      EdgeDelivers(mode, order, items, m, k, start, count);
      NodesDeliver(mode, order, nodes[1..], items, m, start + count, k);
      NodesJoin(mode, order, nodes, items, m, start, k - (start + count));
    }
  }

  lemma NothingDelivered<R>(mode: Mode, order: seq<bool> -> seq<nat>, items: seq<Item<R>>, m: nat, start: nat)
    requires Compactor(order) && 0 < m <= |items|
    ensures NodesWork(mode, order, [], items, m, start, 0)
  {
  }

  /** The first node's tapes and slices, then those of the others. */
  lemma NodesJoin<R>(mode: Mode, order: seq<bool> -> seq<nat>, nodes: seq<FrontierNode>, items: seq<Item<R>>, m: nat,
                     start: nat, rest: nat)
    requires nodes != [] && nodes[0].start == start
    requires EdgeWorks(mode, order, items, m, start, nodes[0].count)
    requires NodesWork(mode, order, nodes[1..], items, m, start + nodes[0].count, rest)
    ensures NodesWork(mode, order, nodes, items, m, start, nodes[0].count + rest)
  {
    hide WriteEdge, ReadEdge, CountEdge, Compactor, Delivers;
    var a := WriteEdge(mode, order, Rows(items), m, start, nodes[0].count).value;
    var b := WriteNodes(mode, order, nodes[1..], Rows(items), m).value;
    TakeDropJoin(a, b);
    DeliversJoin(ReadEdge(mode, order, a, Recs(items), m, nodes[0].count),
                 ReadNodes(mode, order, nodes[1..], b, Recs(items), m), items, start, nodes[0].count, rest);
  }

  /**
   * FFOS_FR delivers samples. For every accepted frontier, every selected-first compaction and both layouts of the fork
   * controls: if each of the k samples marks exactly m rows, writing the controls succeeds, fills exactly the counted
   * tapes, and reading them puts in output slice j the m records of sample j.
   */
  lemma FFOS_FRDelivers<R>(prepared: bool, order: seq<bool> -> seq<nat>, frontier: seq<FrontierNode>,
                           items: seq<Item<R>>, m: nat, k: nat)
    requires Compactor(order) && Ready(items, m, k) && CheckFrontier(frontier, |items|, m, k)
    ensures var mode := Mode(true, prepared);
            var w := WriteNode(mode, order, frontier, Rows(items), m, k);
            && w.Some? && Size(w.value) == CountNode(mode, frontier, |items|, m, k)
            && var out := ReadNode(mode, order, frontier, w.value, Recs(items), m, k);
               |out| == k && forall j :: 0 <= j < k ==> |out[j]| == m && multiset(out[j]) == Sample(items, j)
  {
    hide Sample, Marked, WriteTree, ReadTree, CountTree, WriteNodes, ReadNodes, CountNodes;
    var mode := Mode(true, prepared);
    if SingleTree(mode, frontier, |items|, m, k) {
      TreeDelivers(mode, order, items, m, k);
    } else {
      NodesDeliver(mode, order, frontier, items, m, 0, k);
    }
    SlicesAreSamples(ReadNode(mode, order, frontier, WriteNode(mode, order, frontier, Rows(items), m, k).value,
                              Recs(items), m, k),
                     items, m, k);
  }

  lemma SlicesAreSamples<R>(out: seq<seq<R>>, items: seq<Item<R>>, m: nat, k: nat)
    requires Ready(items, m, k) && Delivers(out, items, 0, k)
    ensures |out| == k && forall j :: 0 <= j < k ==> |out[j]| == m && multiset(out[j]) == Sample(items, j)
  {
    hide Sample, Marked;
    forall j | 0 <= j < k ensures |out[j]| == m && multiset(out[j]) == Sample(items, j) {
      assert multiset(out[j]) == Sample(items, 0 + j) && Marked(Rows(items), j) == m;
      SampleSize(items, j);
      assert |out[j]| == |multiset(out[j])|;
    }
  }

  /** FFOS_C delivers samples: no fork, and any cover of the samples by consecutive groups will do. */
  lemma FFOS_CDelivers<R>(order: seq<bool> -> seq<nat>, frontier: seq<FrontierNode>, items: seq<Item<R>>, m: nat,
                          k: nat)
    requires Compactor(order) && Ready(items, m, k) && (frontier == [] || Covers(frontier, 0, k))
    ensures forall i :: 0 <= i < |RootNodes(frontier, k)| ==> 0 < RootNodes(frontier, k)[i].count
    ensures var mode, nodes := Mode(false, false), RootNodes(frontier, k);
            var w := WriteNodes(mode, order, nodes, Rows(items), m);
            && w.Some? && w.value.ofr == [] && |w.value.swo| == CountNodes(mode, nodes, |items|, m).swo
            && Size(w.value) == CountNodes(mode, nodes, |items|, m)
            && var out := ReadNodes(mode, order, nodes, w.value, Recs(items), m);
               |out| == k && forall j :: 0 <= j < k ==> |out[j]| == m && multiset(out[j]) == Sample(items, j)
  {
    hide Sample, Marked, WriteNodes, ReadNodes, CountNodes;
    var mode, nodes := Mode(false, false), RootNodes(frontier, k);
    RootsCover(frontier, k);
    NodesDeliver(mode, order, nodes, items, m, 0, k);
    var w := WriteNodes(mode, order, nodes, Rows(items), m);
    NoForkControls(nodes, |items|, m);
    SlicesAreSamples(ReadNodes(mode, order, nodes, w.value, Recs(items), m), items, m, k);
  }

  /** Without forks a sampler writes no fork controls. */
  lemma {:induction false} NoForkControls(nodes: seq<FrontierNode>, n: nat, m: nat)
    requires 0 < m <= n && forall i :: 0 <= i < |nodes| ==> 0 < nodes[i].count
    ensures CountNodes(Mode(false, false), nodes, n, m).ofr == 0
  {
    if nodes != [] {
      NoForkControlsEdge(n, m, nodes[0].count);
      NoForkControls(nodes[1..], n, m);
    }
  }

  lemma {:induction false} NoForkControlsEdge(n: nat, m: nat, count: nat)
    requires 0 < m <= n && 0 < count
    ensures CountEdge(Mode(false, false), n, m, count).ofr == 0
    decreases count, 2
  {
    hide CountTree;
    CapacityFits(n, m, count);
    if count > 1 {
      NoForkControlsTree(NodeCapacity(n, m, count), m, count);
    }
  }

  lemma {:induction false} NoForkControlsTree(n: nat, m: nat, k: nat)
    requires 0 < m <= n && 0 < k
    ensures CountTree(Mode(false, false), n, m, k).ofr == 0
    decreases k, 1
  {
    hide CountEdge, CountFork;
    if k > 1 {
      NoForkControlsEdge(n, m, k / 2);
      NoForkControlsEdge(n, m, k - k / 2);
    }
  }

  lemma RootsCover(frontier: seq<FrontierNode>, k: nat)
    requires 0 < k && (frontier == [] || Covers(frontier, 0, k))
    ensures Covers(RootNodes(frontier, k), 0, k)
  {
    var nodes := RootNodes(frontier, k);
    if frontier == [] {
      if k == 1 {
        assert nodes[1..] == [];
      } else {
        assert nodes[1..] == [FrontierNode(k / 2, k - k / 2)] && nodes[1..][1..] == [];
      }
    }
  }
}
