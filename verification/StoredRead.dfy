/**
 * The public read of stored controls: exactly when it succeeds, and what it puts out when the controls are the
 * writer's.
 */
module StoredRead {
  import opened Flattening
  import opened Tags
  import opened Routing
  import opened Sampling
  import opened Samplers
  import opened ReadPlan
  import opened PreparedRead
  import opened CheckedRead
  import opened Products
  import Delivery

  // ----- a stretch of the stored tapes -----

  /** The plan holds the expected nodes when the controls are prepared; raw controls have none. */
  ghost predicate Stored(s: Store, mode: Mode, p: Progress, need: Counts, nodes: seq<PlanNode>) {
    && |s.swo| % 8 == 0 && p.at.swo + need.swo <= |s.swo| && p.at.ofr + need.ofr <= |s.ofr|
    && if mode.prepared then PlanAt(s.plan, p.index, nodes) else s.plan == []
  }

  function End(mode: Mode, p: Progress, need: Counts, nodes: seq<PlanNode>): Progress {
    Progress(Add(p.at, need), if mode.prepared then p.index + |nodes| else p.index)
  }

  function Window(s: Store, at: Counts, need: Counts): (t: Tapes)
    requires at.swo + need.swo <= |s.swo| && at.ofr + need.ofr <= |s.ofr|
    ensures Size(t) == need
  {
    Tapes(s.swo[at.swo..at.swo + need.swo], s.ofr[at.ofr..at.ofr + need.ofr])
  }

  lemma WindowParts(s: Store, at: Counts, x: Counts, y: Counts)
    requires at.swo + x.swo + y.swo <= |s.swo| && at.ofr + x.ofr + y.ofr <= |s.ofr|
    ensures Take(Window(s, at, Add(x, y)), x) == Window(s, at, x)
            && Drop(Window(s, at, Add(x, y)), x) == Window(s, Add(at, x), y)
  {
    SliceParts(s.swo, at.swo, x.swo, y.swo);
    SliceParts(s.ofr, at.ofr, x.ofr, y.ofr);
  }

  lemma SliceParts<T>(s: seq<T>, at: nat, x: nat, y: nat)
    requires at + x + y <= |s|
    ensures s[at..at + (x + y)][..x] == s[at..at + x] && s[at..at + (x + y)][x..] == s[at + x..at + x + y]
  {
  }

  lemma PlanAtJoin(plan: seq<PlanNode>, index: nat, a: seq<PlanNode>, b: seq<PlanNode>)
    requires PlanAt(plan, index, a + b)
    ensures PlanAt(plan, index, a) && PlanAt(plan, index + |a|, b)
  {
    var part := plan[index..index + |a + b|];
    assert part[..|a|] == a && part[|a|..] == b;
  }

  lemma StoredParts(s: Store, mode: Mode, p: Progress, x: Counts, y: Counts, a: seq<PlanNode>, b: seq<PlanNode>)
    requires Stored(s, mode, p, Add(x, y), a + b)
    ensures Stored(s, mode, p, x, a) && Stored(s, mode, End(mode, p, x, a), y, b)
    ensures End(mode, End(mode, p, x, a), y, b) == End(mode, p, Add(x, y), a + b)
    ensures Take(Window(s, p.at, Add(x, y)), x) == Window(s, p.at, x)
    ensures Drop(Window(s, p.at, Add(x, y)), x) == Window(s, Add(p.at, x), y)
  {
    hide Window;
    WindowParts(s, p.at, x, y);
    if mode.prepared {
      PlanAtJoin(s.plan, p.index, a, b);
    }
  }

  lemma BitsFit(s: Store, at: nat, n: nat)
    requires |s.swo| % 8 == 0 && at + n <= |s.swo|
    ensures SpanFits(at + n, |s.swo| / 8)
  {
  }

  // ----- the writer's controls are read as the functional read reads them -----

  ghost predicate Reads<R>(r: Option<Read<R>>, slices: seq<seq<R>>, end: Progress) {
    r == Some(Read(Flatten(slices), end))
  }

  lemma Slices<R>(x: seq<R>)
    ensures Flatten([x]) == x
  {
    assert Flatten([x]) == x + Flatten([]);
  }

  lemma {:induction false} TreeIsRead<R>(s: Store, mode: Mode, order: seq<bool> -> seq<nat>, recs: seq<R>, m: nat,
                                         k: nat, p: Progress, room: nat)
    requires Compactor(order) && 0 < m <= |recs| && 0 < k && m * k <= room
    requires Stored(s, mode, p, CountTree(mode, |recs|, m, k), PlanTree(mode, |recs|, m, k, p.at.ofr))
    ensures var need, nodes := CountTree(mode, |recs|, m, k), PlanTree(mode, |recs|, m, k, p.at.ofr);
            Reads(TryTree(s, mode.forks, order, recs, m, k, p, room),
                  ReadTree(mode, order, Window(s, p.at, need), recs, m, k), End(mode, p, need, nodes))
    decreases k, 3
  {
    hide CountEdge, CountFork, PlanEdge, PlanFork, TryEdge, TryRaw, TryFork, ReadEdge, ReadFork, Compactor,
         NodeCapacity, Stored, TryLeaf;
    var n := |recs|;
    if k == 1 {
      if n == m {
        Slices(recs);
      } else {
        LeafIsRead(s, mode, order, recs, m, p, room);
      }
    } else if IsFork(mode, n, m, k) {
      ForkIsRead(s, mode, order, recs, m, k, p, room);
    } else {
      PairIsRead(s, mode, order, recs, m, k, p, room);
    }
  }

  lemma LeafIsRead<R>(s: Store, mode: Mode, order: seq<bool> -> seq<nat>, recs: seq<R>, m: nat, p: Progress, room: nat)
    requires Compactor(order) && 0 < m < |recs| && m <= room && Stored(s, mode, p, Counts(|recs|, 0), [])
    ensures Reads(TryLeaf(s, order, recs, m, p, room),
                  [Compacted(order, Window(s, p.at, Counts(|recs|, 0)).swo, recs, m)],
                    End(mode, p, Counts(|recs|, 0), []))
  {
    hide Compacted, Compactor;
    CapacityFits(|recs|, m, 1);
    BitsFit(s, p.at.swo, |recs|);
    Slices(Compacted(order, Window(s, p.at, Counts(|recs|, 0)).swo, recs, m));
  }

  lemma {:induction false} PairIsRead<R>(s: Store, mode: Mode, order: seq<bool> -> seq<nat>, recs: seq<R>, m: nat,
                                         k: nat, p: Progress, room: nat)
    requires Compactor(order) && 0 < m <= |recs| && 1 < k && m * k <= room && !IsFork(mode, |recs|, m, k)
    requires Stored(s, mode, p, CountTree(mode, |recs|, m, k), PlanTree(mode, |recs|, m, k, p.at.ofr))
    ensures var need, nodes := CountTree(mode, |recs|, m, k), PlanTree(mode, |recs|, m, k, p.at.ofr);
            Reads(TryTree(s, mode.forks, order, recs, m, k, p, room),
                  ReadTree(mode, order, Window(s, p.at, need), recs, m, k), End(mode, p, need, nodes))
    decreases k, 2
  {
    hide CountEdge, CountFork, PlanEdge, PlanFork, TryEdge, TryRaw, TryFork, ReadEdge, ReadFork, Compactor,
         NodeCapacity, PlanAt, TryLeaf,
         Window, Flatten;
    var n := |recs|;
    var x, a := CountEdge(mode, n, m, k / 2), PlanEdge(mode, n, m, k / 2, p.at.ofr);
    var y, b := CountEdge(mode, n, m, k - k / 2), PlanEdge(mode, n, m, k - k / 2, p.at.ofr + x.ofr);
    StoredParts(s, mode, p, x, y, a, b);
    SplitProduct(m, k);
    EdgeIsRead(s, mode, order, recs, m, k / 2, p, room);
    var q := End(mode, p, x, a);
    var first := ReadEdge(mode, order, Window(s, p.at, x), recs, m, k / 2);
    FlattenSize(first, m);
    EdgeIsRead(s, mode, order, recs, m, k - k / 2, q, room - m * (k / 2));
    FlattenJoin(first, ReadEdge(mode, order, Window(s, q.at, y), recs, m, k - k / 2));
  }

  lemma {:induction false} EdgeIsRead<R>(s: Store, mode: Mode, order: seq<bool> -> seq<nat>, recs: seq<R>, m: nat,
                                         count: nat, p: Progress, room: nat)
    requires Compactor(order) && 0 < m <= |recs| && 0 < count && m * count <= room
    requires Stored(s, mode, p, CountEdge(mode, |recs|, m, count), PlanEdge(mode, |recs|, m, count, p.at.ofr))
    ensures var need, nodes := CountEdge(mode, |recs|, m, count), PlanEdge(mode, |recs|, m, count, p.at.ofr);
            Reads(TryEdge(s, mode.forks, order, recs, m, count, p, room),
                  ReadEdge(mode, order, Window(s, p.at, need), recs, m, count), End(mode, p, need, nodes))
    decreases count, 4
  {
    hide CountTree, PlanTree, TryTree, ReadTree, Compactor, NodeCapacity, PlanAt, TryLeaf, TryFilter, Window, Flatten,
         Compacted;
    CapacityFits(|recs|, m, count);
    OwnBits(|recs|, m, count);
    if count == 1 {
      LeafEdgeIsRead(s, mode, order, recs, m, p, room);
    } else {
      GroupIsRead(s, mode, order, recs, m, count, p, room);
    }
  }

  lemma LeafEdgeIsRead<R>(s: Store, mode: Mode, order: seq<bool> -> seq<nat>, recs: seq<R>, m: nat, p: Progress,
                          room: nat)
    requires Compactor(order) && 0 < m <= |recs| && m <= room
    requires Stored(s, mode, p, CountEdge(mode, |recs|, m, 1), PlanEdge(mode, |recs|, m, 1, p.at.ofr))
    ensures var need, nodes := CountEdge(mode, |recs|, m, 1), PlanEdge(mode, |recs|, m, 1, p.at.ofr);
            Reads(TryEdge(s, mode.forks, order, recs, m, 1, p, room),
                  ReadEdge(mode, order, Window(s, p.at, need), recs, m, 1), End(mode, p, need, nodes))
  {
    hide Compactor, PlanAt, TryLeaf, Window, Flatten, Compacted, CountEdge, PlanEdge, ReadEdge;
    CountOfOne(mode, |recs|, m, p.at.ofr);
    CapacityFits(|recs|, m, 1);
    var t := Window(s, p.at, CountEdge(mode, |recs|, m, 1));
    if |recs| == m {
      WholeEdge(mode, order, t, recs, m);
      WholeLeafIsRead(s, order, recs, m, p, room);
    } else {
      FilteredEdge(mode, order, t, recs, m);
      LeafIsRead(s, mode, order, recs, m, p, room);
    }
  }

  lemma CountOfOne(mode: Mode, n: nat, m: nat, offset: nat)
    requires 0 < m <= n
    ensures CountEdge(mode, n, m, 1) == Counts(if m < n then n else 0, 0) && PlanEdge(mode, n, m, 1, offset) == []
  {
    CapacityFits(n, m, 1);
  }

  lemma FilteredEdge<R>(mode: Mode, order: seq<bool> -> seq<nat>, t: Tapes, recs: seq<R>, m: nat)
    requires Compactor(order) && 0 < m < |recs| && Size(t) == CountEdge(mode, |recs|, m, 1) && |t.swo| == |recs|
    ensures ReadEdge(mode, order, t, recs, m, 1) == [Compacted(order, t.swo, recs, m)]
  {
    hide Compactor, Compacted, CountEdge, CountTree, ReadTree, NodeCapacity;
    CapacityFits(|recs|, m, 1);
    OwnBits(|recs|, m, 1);
    assert t.swo[..|t.swo|] == t.swo;
  }

  lemma WholeEdge<R>(mode: Mode, order: seq<bool> -> seq<nat>, t: Tapes, recs: seq<R>, m: nat)
    requires Compactor(order) && 0 < m == |recs| && Size(t) == CountEdge(mode, |recs|, m, 1)
    ensures ReadEdge(mode, order, t, recs, m, 1) == [recs]
  {
    hide Compactor, Compacted, CountEdge, CountTree, ReadTree, NodeCapacity;
    CapacityFits(|recs|, m, 1);
  }

  lemma {:induction false} GroupIsRead<R>(s: Store, mode: Mode, order: seq<bool> -> seq<nat>, recs: seq<R>, m: nat,
                                          count: nat, p: Progress, room: nat)
    requires Compactor(order) && 0 < m <= |recs| && 1 < count && m * count <= room
    requires Stored(s, mode, p, CountEdge(mode, |recs|, m, count), PlanEdge(mode, |recs|, m, count, p.at.ofr))
    ensures var need, nodes := CountEdge(mode, |recs|, m, count), PlanEdge(mode, |recs|, m, count, p.at.ofr);
            Reads(TryEdge(s, mode.forks, order, recs, m, count, p, room),
                  ReadEdge(mode, order, Window(s, p.at, need), recs, m, count), End(mode, p, need, nodes))
    decreases count, 4, 0
  {
    hide CountTree, PlanTree, TryTree, ReadTree, Compactor, NodeCapacity, PlanAt, TryLeaf, TryFilter, Window, Flatten,
         Compacted;
    var n, cap := |recs|, NodeCapacity(|recs|, m, count);
    CapacityFits(n, m, count);
    OwnBits(n, m, count);
    var own := Counts(EdgeBits(n, m, count), 0);
    var y, b := CountTree(mode, cap, m, count), PlanTree(mode, cap, m, count, p.at.ofr);
    assert [] + b == b;
    StoredParts(s, mode, p, own, y, [], b);
    FilterIsRead(s, mode, order, recs, cap, p);
    var f := TryFilter(s, order, recs, cap, p).value;
    TreeIsRead(s, mode, order, f.out, m, count, f.at, room);
  }

  lemma OwnBits(n: nat, m: nat, count: nat)
    ensures EdgeBits(n, m, count) == if NodeCapacity(n, m, count) < n then n else 0
  {
  }

  lemma WholeLeafIsRead<R>(s: Store, order: seq<bool> -> seq<nat>, recs: seq<R>, m: nat, p: Progress, room: nat)
    requires Compactor(order) && 0 < m <= |recs| && m <= room && NodeCapacity(|recs|, m, 1) == |recs|
    ensures TryLeaf(s, order, recs, m, p, room) == Some(Read(Flatten([recs]), p))
  {
    CapacityFits(|recs|, m, 1);
    Slices(recs);
  }

  lemma FilterIsRead<R>(s: Store, mode: Mode, order: seq<bool> -> seq<nat>, recs: seq<R>, cap: nat, p: Progress)
    requires Compactor(order) && cap <= |recs| && Stored(s, mode, p, Counts(if cap < |recs| then |recs| else 0, 0), [])
    ensures var own := Counts(if cap < |recs| then |recs| else 0, 0);
            TryFilter(s, order, recs, cap, p)
            == Some(Read(if cap < |recs| then Compacted(order, Window(s, p.at, own).swo, recs, cap)
                         else recs, End(mode, p, own, [])))
  {
    hide Compacted, Compactor;
    if cap < |recs| {
      BitsFit(s, p.at.swo, |recs|);
    }
  }

  lemma {:induction false} ForkIsRead<R>(s: Store, mode: Mode, order: seq<bool> -> seq<nat>, recs: seq<R>, m: nat,
                                         k: nat, p: Progress, room: nat)
    requires Compactor(order) && 0 < m <= |recs| && IsFork(mode, |recs|, m, k) && m * k <= room
    requires Stored(s, mode, p, CountTree(mode, |recs|, m, k), PlanTree(mode, |recs|, m, k, p.at.ofr))
    ensures var need, nodes := CountTree(mode, |recs|, m, k), PlanTree(mode, |recs|, m, k, p.at.ofr);
            Reads(TryTree(s, mode.forks, order, recs, m, k, p, room),
                  ReadTree(mode, order, Window(s, p.at, need), recs, m, k), End(mode, p, need, nodes))
    decreases k, 2
  {
    hide CountTree, PlanTree, TryRaw, TryFork, ReadTree, Compactor, PlanAt, Window, Flatten, TryTree, ReadFork,
         CountFork, PlanFork;
    TreeOfFork(mode, order, Window(s, p.at, CountTree(mode, |recs|, m, k)), recs, m, k, p.at.ofr);
    TryTreeOfFork(s, mode, order, recs, m, k, p, room);
    if mode.prepared {
      PreparedIsRead(s, mode, order, recs, m, k, p);
    } else {
      assert m * k == |recs|;
      RawIsRead(s, mode, order, recs, m, k, p, room);
    }
  }

  lemma TryTreeOfFork<R>(s: Store, mode: Mode, order: seq<bool> -> seq<nat>, recs: seq<R>, m: nat, k: nat, p: Progress,
                         room: nat)
    requires Compactor(order) && 0 < m <= |recs| && IsFork(mode, |recs|, m, k) && m * k <= room
    ensures TryTree(s, mode.forks, order, recs, m, k, p, room)
         == if s.plan == [] then TryRaw(s, mode.forks, order, recs, m, k, p, room)
            else
              match TryFork(s.ofr, s.plan, recs, m, k, p.at.ofr, p.index)
              case None => None
              case Some(f) => Some(Read(f.out, Progress(Counts(p.at.swo, f.next), f.index)))
  {
    hide TryRaw, TryFork, Compactor;
  }

  lemma TreeOfFork<R>(mode: Mode, order: seq<bool> -> seq<nat>, t: Tapes, recs: seq<R>, m: nat, k: nat, offset: nat)
    requires Compactor(order) && 0 < m <= |recs| && IsFork(mode, |recs|, m, k)
             && Size(t) == CountTree(mode, |recs|, m, k)
    ensures CountTree(mode, |recs|, m, k) == CountFork(mode, |recs|, m, k)
    ensures PlanTree(mode, |recs|, m, k, offset) == PlanFork(mode, |recs|, m, k, offset)
    ensures ReadTree(mode, order, t, recs, m, k) == ReadFork(mode, order, t, recs, m, k)
  {
    hide CountFork, PlanFork, ReadFork, Compactor;
  }

  lemma PreparedIsRead<R>(s: Store, mode: Mode, order: seq<bool> -> seq<nat>, recs: seq<R>, m: nat, k: nat, p: Progress)
    requires Compactor(order) && 0 < m <= |recs| && IsFork(mode, |recs|, m, k) && mode.prepared
    requires Stored(s, mode, p, CountTree(mode, |recs|, m, k), PlanTree(mode, |recs|, m, k, p.at.ofr))
    ensures s.plan != []
    ensures var need, nodes := CountTree(mode, |recs|, m, k), PlanTree(mode, |recs|, m, k, p.at.ofr);
            && End(mode, p, need, nodes) == Progress(Counts(p.at.swo, p.at.ofr + need.ofr), p.index + |nodes|)
            && TryFork(s.ofr, s.plan, recs, m, k, p.at.ofr, p.index)
               == Some(ForkRead(Flatten(ReadTree(mode, order, Window(s, p.at, need), recs, m, k)), p.at.ofr
                                + need.ofr, p.index + |nodes|))
  {
    hide CountTree, PlanTree, TryFork, ReadTree, Compactor, PlanAt, Flatten;
    ForkTreeCounts(mode, |recs|, m, k);
    ForkHasNodes(mode, |recs|, m, k, p.at.ofr);
    WrittenForkReads(s.ofr, s.plan, recs, mode, order, m, k, p.at.ofr, p.index);
    NonEmptyPlan(s.plan, p.index, PlanTree(mode, |recs|, m, k, p.at.ofr));
    var need := CountTree(mode, |recs|, m, k);
    assert Window(s, p.at, need) == Tapes([], s.ofr[p.at.ofr..p.at.ofr + need.ofr]);
  }

  lemma NonEmptyPlan(plan: seq<PlanNode>, index: nat, nodes: seq<PlanNode>)
    requires PlanAt(plan, index, nodes) && nodes != []
    ensures plan != []
  {
  }

  lemma ForkHasNodes(mode: Mode, n: nat, m: nat, k: nat, offset: nat)
    requires 0 < m <= n && IsFork(mode, n, m, k)
    ensures PlanTree(mode, n, m, k, offset) != []
  {
    hide PlanFork;
    assert PlanTree(mode, n, m, k, offset) == PlanFork(mode, n, m, k, offset);
  }

  lemma {:induction false} RawIsRead<R>(s: Store, mode: Mode, order: seq<bool> -> seq<nat>, recs: seq<R>, m: nat,
                                        k: nat, p: Progress, room: nat)
    requires Compactor(order) && 0 < m <= |recs| && IsFork(mode, |recs|, m, k) && |recs| <= room && !mode.prepared
    requires CountTree(mode, |recs|, m, k) == CountFork(mode, |recs|, m, k)
    requires PlanTree(mode, |recs|, m, k, p.at.ofr) == PlanFork(mode, |recs|, m, k, p.at.ofr)
    requires Stored(s, mode, p, CountFork(mode, |recs|, m, k), PlanFork(mode, |recs|, m, k, p.at.ofr))
    ensures var need, nodes := CountFork(mode, |recs|, m, k), PlanFork(mode, |recs|, m, k, p.at.ofr);
            Reads(TryRaw(s, mode.forks, order, recs, m, k, p, room),
                  ReadFork(mode, order, Window(s, p.at, need), recs, m, k), End(mode, p, need, nodes))
    decreases k, 1
  {
    hide CountTree, PlanTree, TryRaw, TryRawSides, ReadSides, ReadFork, Compactor, PlanAt, Window, TapeLength, Apply,
         CountFork, PlanFork, Flatten,
         ForkNode, ForkTapes, IsFork, Stored, End;
    var n, leftN := |recs|, m * (k / 2);
    RawStretches(s, mode, n, leftN, m, k, p);
    var own := Counts(0, TapeLength(n, leftN));
    var q := p.(at := Add(p.at, own));
    var x, a := CountTree(mode, leftN, m, k / 2), PlanTree(mode, leftN, m, k / 2, q.at.ofr);
    RawSplit(s, mode, n, leftN, m, k, p.at, own, x, CountTree(mode, n - leftN, m, k - k / 2));
    var t := Window(s, p.at, CountFork(mode, n, m, k));
    var parts := ForkTapes(mode, t, n, m, k);
    var tape := parts.own;
    RawTape(s, p.at, own);
    var routed := Apply(tape, recs, leftN);
    RawUnfold(s, mode, order, t, parts, recs, leftN, m, k, p, room, routed);
    SidesAreRead(s, mode, order, tape, routed, leftN, m, k, q, room);
    EndAt(mode, q, x, a);
  }

  /** Raw controls: where a fork's own controls and its children's are stored. */
  lemma RawStretches(s: Store, mode: Mode, n: nat, leftN: nat, m: nat, k: nat, p: Progress)
    requires 0 < m <= n && IsFork(mode, n, m, k) && !mode.prepared && leftN == m * (k / 2)
    requires Stored(s, mode, p, CountFork(mode, n, m, k), PlanFork(mode, n, m, k, p.at.ofr))
    ensures 1 < k && m <= leftN <= n - m && m * (k - k / 2) == n - leftN
    ensures var q := p.(at := Add(p.at, Counts(0, TapeLength(n, leftN))));
            var x, a := CountTree(mode, leftN, m, k / 2), PlanTree(mode, leftN, m, k / 2, q.at.ofr);
            var q' := End(mode, q, x, a);
            var y, b := CountTree(mode, n - leftN, m, k - k / 2), PlanTree(mode, n - leftN, m, k - k / 2, q'.at.ofr);
            && Stored(s, mode, q, x, a) && Stored(s, mode, q', y, b)
            && End(mode, q', y, b) == End(mode, p, CountFork(mode, n, m, k), PlanFork(mode, n, m, k, p.at.ofr))
            && CountFork(mode, n, m, k) == Add(Counts(0, TapeLength(n, leftN)), Add(x, y))
            && p.at.swo + x.swo + y.swo <= |s.swo| && p.at.ofr + TapeLength(n, leftN) + x.ofr + y.ofr <= |s.ofr|
  {
    hide CountTree, PlanTree, TapeLength, CountFork, PlanFork, ForkNode, IsFork;
    ForkParts(mode, n, m, k, p.at.ofr);
    ForkSides(mode, n, m, k);
  }

  lemma EndAt(mode: Mode, p: Progress, need: Counts, nodes: seq<PlanNode>)
    ensures End(mode, p, need, nodes).at == Add(p.at, need)
  {
  }

  lemma ForkSides(mode: Mode, n: nat, m: nat, k: nat)
    requires 0 < m && IsFork(mode, n, m, k)
    ensures 1 < k && m * (k / 2) <= n && m * (k - k / 2) == n - m * (k / 2)
  {
    ForkFits(n, m, k);
  }

  /** Both readers route with the same controls and go on with the two sides. */
  lemma RawUnfold<R>(s: Store, mode: Mode, order: seq<bool> -> seq<nat>, t: Tapes, parts: ForkSplit, recs: seq<R>,
                     leftN: nat, m: nat, k: nat, p: Progress, room: nat, routed: seq<R>)
    requires Compactor(order) && 0 < m <= |recs| && IsFork(mode, |recs|, m, k) && !mode.prepared
             && Size(t) == CountFork(mode, |recs|, m, k)
    requires leftN == m * (k / 2) && m <= leftN <= |recs| - m && ForkTapes(mode, t, |recs|, m, k) == parts
    requires |parts.own| == TapeLength(|recs|, leftN) && routed == Apply(parts.own, recs, leftN)
    requires p.at.ofr + |parts.own| <= |s.ofr| && s.ofr[p.at.ofr..p.at.ofr + |parts.own|] == parts.own
    requires 1 < k && Size(parts.left) == CountTree(mode, leftN, m, k / 2)
             && Size(parts.right) == CountTree(mode, |routed| - leftN, m, k - k / 2)
    ensures TryRaw(s, mode.forks, order, recs, m, k, p, room)
         == TryRawSides(s, mode.forks, order, routed, leftN, m, k, p.(at := Add(p.at, Counts(0, |parts.own|))), room)
    ensures ReadFork(mode, order, t, recs, m, k) == ReadSides(mode, order, parts, routed, leftN, m, k)
  {
    hide CountTree, CountFork, TryRawSides, ReadSides, Compactor, TapeLength, Apply, ForkTapes;
  }

  lemma {:induction false} SidesAreRead<R>(s: Store, mode: Mode, order: seq<bool> -> seq<nat>, own: seq<Control>,
                                           routed: seq<R>, leftN: nat, m: nat, k: nat, p: Progress, room: nat)
    requires Compactor(order) && 1 < k && 0 < m <= leftN <= |routed| && m <= |routed| - leftN
    requires m * (k / 2) == leftN && m * (k - k / 2) == |routed| - leftN && |routed| <= room
    requires Stored(s, mode, p, CountTree(mode, leftN, m, k / 2), PlanTree(mode, leftN, m, k / 2, p.at.ofr))
    requires var q := End(mode, p, CountTree(mode, leftN, m, k / 2), PlanTree(mode, leftN, m, k / 2, p.at.ofr));
             Stored(s, mode, q, CountTree(mode, |routed| - leftN, m, k - k / 2),
                    PlanTree(mode, |routed| - leftN, m, k - k / 2, q.at.ofr))
    ensures var x, a := CountTree(mode, leftN, m, k / 2), PlanTree(mode, leftN, m, k / 2, p.at.ofr);
            var q := End(mode, p, x, a);
            var y, b := CountTree(mode, |routed| - leftN, m, k - k / 2),
              PlanTree(mode, |routed| - leftN, m, k - k / 2, q.at.ofr);
            Reads(TryRawSides(s, mode.forks, order, routed, leftN, m, k, p, room),
                  ReadSides(mode, order, ForkSplit(own, Window(s, p.at, x), Window(s, q.at, y)), routed, leftN, m, k),
                    End(mode, q, y, b))
    decreases k, 0
  {
    hide CountTree, PlanTree, TryTree, ReadTree, Compactor, PlanAt, Window, Flatten;
    var x, a := CountTree(mode, leftN, m, k / 2), PlanTree(mode, leftN, m, k / 2, p.at.ofr);
    var q := End(mode, p, x, a);
    var y := CountTree(mode, |routed| - leftN, m, k - k / 2);
    TreeIsRead(s, mode, order, routed[..leftN], m, k / 2, p, room);
    var first := ReadTree(mode, order, Window(s, p.at, x), routed[..leftN], m, k / 2);
    FlattenSize(first, m);
    TreeIsRead(s, mode, order, routed[leftN..], m, k - k / 2, q, room - m * (k / 2));
    FlattenJoin(first, ReadTree(mode, order, Window(s, q.at, y), routed[leftN..], m, k - k / 2));
  }

  lemma RawTape(s: Store, at: Counts, own: Counts)
    requires at.swo + own.swo <= |s.swo| && at.ofr + own.ofr <= |s.ofr|
    ensures Window(s, at, own).ofr == s.ofr[at.ofr..at.ofr + own.ofr]
  {
  }

  /** A fork's stretch of the tape is its own controls, then its children's. */
  lemma RawSplit(s: Store, mode: Mode, n: nat, leftN: nat, m: nat, k: nat, at: Counts, own: Counts, x: Counts,
                 y: Counts)
    requires 0 < m <= n && IsFork(mode, n, m, k) && leftN == m * (k / 2) && m <= leftN <= n - m && 1 < k
    requires own == Counts(0, TapeLength(n, leftN)) && x == CountTree(mode, leftN, m, k / 2)
    requires y == CountTree(mode, n - leftN, m, k - k / 2) && CountFork(mode, n, m, k) == Add(own, Add(x, y))
    requires at.swo + x.swo + y.swo <= |s.swo| && at.ofr + own.ofr + x.ofr + y.ofr <= |s.ofr|
    ensures ForkTapes(mode, Window(s, at, CountFork(mode, n, m, k)), n, m, k)
         == ForkSplit(Window(s, at, own).ofr, Window(s, Add(at, own), x), Window(s, Add(Add(at, own), x), y))
  {
    hide CountTree, CountFork, TapeLength, Window;
    WindowParts(s, at, own, Add(x, y));
    WindowParts(s, Add(at, own), x, y);
  }

  lemma {:induction false} NodesAreRead<R>(s: Store, mode: Mode, order: seq<bool> -> seq<nat>, nodes: seq<FrontierNode>,
                                           recs: seq<R>, m: nat, p: Progress, room: nat, start: nat, k: nat)
    requires Compactor(order) && 0 < m <= |recs| && start <= k && Covers(nodes, start, k) && m * (k - start) <= room
    requires forall i :: 0 <= i < |nodes| ==> 0 < nodes[i].count
    requires Stored(s, mode, p, CountNodes(mode, nodes, |recs|, m), PlanNodes(mode, nodes, |recs|, m, p.at.ofr))
    ensures var need, plan := CountNodes(mode, nodes, |recs|, m), PlanNodes(mode, nodes, |recs|, m, p.at.ofr);
            Reads(TryNodes(s, mode.forks, order, nodes, recs, m, p, room),
                  ReadNodes(mode, order, nodes, Window(s, p.at, need), recs, m), End(mode, p, need, plan))
    decreases |nodes|
  {
    hide CountEdge, PlanEdge, TryEdge, ReadEdge, Compactor, PlanAt, Window, TryNodes, ReadNodes, CountNodes, PlanNodes,
         Flatten, Stored, End;
    if nodes == [] {
      NoNodes(mode, |recs|, m, p.at.ofr);
      NoNodesRead(s, mode, order, recs, m, p, room);
    } else {
      var count, rest := nodes[0].count, nodes[1..];
      CoversBound(rest, start + count, k);
      RoomSplit(m, count, k - start, room);
      assert k - start - count == k - (start + count);
      NodesUnfold(mode, order, nodes, recs, m, p.at.ofr);
      var x, a := CountEdge(mode, |recs|, m, count), PlanEdge(mode, |recs|, m, count, p.at.ofr);
      var y := CountNodes(mode, rest, |recs|, m);
      var q := End(mode, p, x, a);
      EndAt(mode, p, x, a);
      StoredFits(s, mode, p, Add(x, y), PlanNodes(mode, nodes, |recs|, m, p.at.ofr));
      StoredParts(s, mode, p, x, y, a, PlanNodes(mode, rest, |recs|, m, q.at.ofr));
      EdgeIsRead(s, mode, order, recs, m, count, p, room);
      var first := ReadEdge(mode, order, Window(s, p.at, x), recs, m, count);
      FlattenSize(first, m);
      NodesAreRead(s, mode, order, rest, recs, m, q, room - m * count, start + count, k);
      FirstNodeRead(s, mode, order, nodes, recs, m, p, room, Window(s, p.at, Add(x, y)));
      FlattenJoin(first, ReadNodes(mode, order, rest, Window(s, q.at, y), recs, m));
    }
  }

  lemma RoomSplit(m: nat, count: nat, c: nat, room: nat)
    requires count <= c && m * c <= room
    ensures m * count <= room && m * (c - count) <= room - m * count
  {
    Distribute(count, c - count, m);
  }

  lemma StoredFits(s: Store, mode: Mode, p: Progress, need: Counts, nodes: seq<PlanNode>)
    requires Stored(s, mode, p, need, nodes)
    ensures p.at.swo + need.swo <= |s.swo| && p.at.ofr + need.ofr <= |s.ofr|
  {
  }

  lemma NoNodes(mode: Mode, n: nat, m: nat, offset: nat)
    requires 0 < m <= n
    ensures CountNodes(mode, [], n, m) == Counts(0, 0) && PlanNodes(mode, [], n, m, offset) == []
  {
  }

  lemma NoNodesRead<R>(s: Store, mode: Mode, order: seq<bool> -> seq<nat>, recs: seq<R>, m: nat, p: Progress, room: nat)
    requires Compactor(order) && 0 < m <= |recs| && Stored(s, mode, p, Counts(0, 0), [])
    ensures CountNodes(mode, [], |recs|, m) == Counts(0, 0)
    ensures Reads(TryNodes(s, mode.forks, order, [], recs, m, p, room),
                  ReadNodes(mode, order, [], Window(s, p.at, Counts(0, 0)), recs, m), End(mode, p, Counts(0, 0), []))
  {
    assert Flatten<R>([]) == [];
  }

  lemma NodesUnfold<R>(mode: Mode, order: seq<bool> -> seq<nat>, nodes: seq<FrontierNode>, recs: seq<R>, m: nat,
                       offset: nat)
    requires 0 < m <= |recs| && nodes != [] && forall i :: 0 <= i < |nodes| ==> 0 < nodes[i].count
    ensures CountNodes(mode, nodes, |recs|, m)
            == Add(CountEdge(mode, |recs|, m, nodes[0].count), CountNodes(mode, nodes[1..], |recs|, m))
    ensures PlanNodes(mode, nodes, |recs|, m, offset)
         == PlanEdge(mode, |recs|, m, nodes[0].count, offset)
            + PlanNodes(mode, nodes[1..], |recs|, m, offset + CountEdge(mode, |recs|, m, nodes[0].count).ofr)
  {
    hide CountEdge, PlanEdge;
  }

  lemma FirstNodeRead<R>(s: Store, mode: Mode, order: seq<bool> -> seq<nat>, nodes: seq<FrontierNode>, recs: seq<R>,
                         m: nat, p: Progress, room: nat, t: Tapes)
    requires Compactor(order) && 0 < m <= |recs| && nodes != [] && forall i :: 0 <= i < |nodes| ==> 0 < nodes[i].count
    requires Size(t) == CountNodes(mode, nodes, |recs|, m)
    requires CountNodes(mode, nodes, |recs|, m)
             == Add(CountEdge(mode, |recs|, m, nodes[0].count), CountNodes(mode, nodes[1..], |recs|, m))
    ensures var first := TryEdge(s, mode.forks, order, recs, m, nodes[0].count, p, room);
            TryNodes(s, mode.forks, order, nodes, recs, m, p, room)
            == if first.None? then None
               else After(first.value, TryNodes(s, mode.forks, order, nodes[1..], recs, m, first.value.at,
                                                room - |first.value.out|))
    ensures ReadNodes(mode, order, nodes, t, recs, m)
         == ReadEdge(mode, order, Take(t, CountEdge(mode, |recs|, m, nodes[0].count)), recs, m, nodes[0].count)
            + ReadNodes(mode, order, nodes[1..], Drop(t, CountEdge(mode, |recs|, m, nodes[0].count)), recs, m)
  {
    hide CountEdge, TryEdge, ReadEdge, Compactor, CountNodes;
  }

  // ----- the public read -----

  /**
   * Every check of the public read: dimensions, capacity, the preflight, the plan's length, the read itself and its
   * ends.
   */
  function FFOS_FRControlRead<R>(s: Store, forks: bool, order: seq<bool> -> seq<nat>, frontier: seq<FrontierNode>,
                                 recs: seq<R>, m: nat, k: nat, at: Counts, room: nat): (r: Option<Read<R>>)
    requires Compactor(order)
  {
    if !Admitted(frontier, |recs|, m, k, room) then None
    else
      match ValidateReadPlanNode(s.Sizes(), forks, frontier, |recs|, m, k, Progress(at, 0))
      case None => None
      case Some(planned) =>
        if s.plan != [] && planned.index != |s.plan| then None
        else
          match TryNode(s, forks, order, frontier, recs, m, k, Progress(at, 0), room)
          case None => None
          case Some(r) =>
            if (s.plan != [] && r.at.index != |s.plan|) || |r.out| != m * k || r.at.at != planned.at then None
              else Some(r)
  }

  predicate Admitted(frontier: seq<FrontierNode>, n: nat, m: nat, k: nat, room: nat) {
    0 < m <= n && 0 < k && CheckFrontier(frontier, n, m, k) && m * k <= room
  }

  /**
   * The public read fails only up front: once the preflight has accepted a plan of the right length, no later check
   * fails.
   */
  lemma ReadDecidedUpFront<R>(s: Store, forks: bool, order: seq<bool> -> seq<nat>, frontier: seq<FrontierNode>,
                              recs: seq<R>, m: nat, k: nat, at: Counts, room: nat)
    requires Compactor(order)
    ensures var r := FFOS_FRControlRead(s, forks, order, frontier, recs, m, k, at, room);
            if !Admitted(frontier, |recs|, m, k, room) then r.None?
            else
              var planned := ValidateReadPlanNode(s.Sizes(), forks, frontier, |recs|, m, k, Progress(at, 0));
              && (r.Some? <==> planned.Some? && (s.plan != [] ==> planned.value.index == |s.plan|))
              && (r.Some? ==> r.value.at == planned.value && |r.value.out| == m * k)
  {
    hide ValidateReadPlanNode, TryNode, Compactor, Admitted;
    if Admitted(frontier, |recs|, m, k, room) {
      AdmittedParts(frontier, |recs|, m, k, room);
      if ValidateReadPlanNode(s.Sizes(), forks, frontier, |recs|, m, k, Progress(at, 0)).Some? {
        AcceptedReadSucceeds(s, forks, order, frontier, recs, m, k, Progress(at, 0), room);
      }
    }
  }

  lemma AdmittedParts(frontier: seq<FrontierNode>, n: nat, m: nat, k: nat, room: nat)
    requires Admitted(frontier, n, m, k, room)
    ensures 0 < m <= n && 0 < k && CheckFrontier(frontier, n, m, k) && m * k <= room
  {
  }

  /** The bits padded with zeros to whole bytes. */
  function Padded(bits: seq<bool>): (r: seq<bool>)
    ensures |r| % 8 == 0 && |bits| <= |r| < |bits| + 8 && r[..|bits|] == bits
  {
    bits + seq((8 - |bits| % 8) % 8, _ => false)
  }

  /** The controls the writer stores, in either layout. */
  function StoreOf(mode: Mode, frontier: seq<FrontierNode>, n: nat, m: nat, k: nat, t: Tapes): Store
    requires 0 < m <= n && 0 < k && CheckFrontier(frontier, n, m, k)
  {
    Store(Padded(t.swo), t.ofr, if mode.prepared then PlanOf(mode, frontier, n, m, k, 0) else [])
  }

  /** Stored controls are read to the end, and put out what the functional read returns. */
  lemma StoredControlsAreRead<R>(mode: Mode, order: seq<bool> -> seq<nat>, frontier: seq<FrontierNode>, recs: seq<R>,
                                 m: nat, k: nat, t: Tapes, room: nat)
    requires Compactor(order) && Admitted(frontier, |recs|, m, k, room)
             && Size(t) == CountNode(mode, frontier, |recs|, m, k)
    ensures var s := StoreOf(mode, frontier, |recs|, m, k, t);
            FFOS_FRControlRead(s, mode.forks, order, frontier, recs, m, k, Counts(0, 0), room)
            == Some(Read(Flatten(ReadNode(mode, order, frontier, t, recs, m, k)), Progress(Size(t), |s.plan|)))
  {
    hide ValidateReadPlanNode, TryNode, Compactor, ReadNode, CountNode, PlanOf, PlanMatches, Flatten, Padded, SpanFits;
    var n, s, p := |recs|, StoreOf(mode, frontier, |recs|, m, k, t), Progress(Counts(0, 0), 0);
    AdmittedParts(frontier, n, m, k, room);
    NodeIsRead(mode, order, frontier, recs, m, k, t, room);
    PreflightExact(s.Sizes(), mode, frontier, n, m, k, p);
    OwnPlanMatches(mode, frontier, n, m, k);
    PaddedFits(t.swo);
    ReadDecidedUpFront(s, mode.forks, order, frontier, recs, m, k, Counts(0, 0), room);
  }

  lemma PaddedFits(bits: seq<bool>)
    ensures SpanFits(|bits|, |Padded(bits)| / 8)
  {
  }

  lemma OwnPlanMatches(mode: Mode, frontier: seq<FrontierNode>, n: nat, m: nat, k: nat)
    requires 0 < m <= n && 0 < k && CheckFrontier(frontier, n, m, k)
    ensures PlanMatches(PlanOf(mode, frontier, n, m, k, 0), 0, PlanOf(mode, frontier, n, m, k, 0))
  {
    hide PlanTree, PlanNodes, NodeMatches;
    CoversBoundOf(frontier, n, m, k);
    if SingleTree(mode, frontier, n, m, k) {
      TreePlanSound(mode, n, m, k, 0);
    } else {
      NodesPlanSound(mode, frontier, n, m, 0);
    }
  }

  /** The checked read of a whole store from its beginning. */
  lemma NodeIsRead<R>(mode: Mode, order: seq<bool> -> seq<nat>, frontier: seq<FrontierNode>, recs: seq<R>, m: nat,
                      k: nat, t: Tapes, room: nat)
    requires Compactor(order) && Admitted(frontier, |recs|, m, k, room)
             && Size(t) == CountNode(mode, frontier, |recs|, m, k)
    ensures var s := StoreOf(mode, frontier, |recs|, m, k, t);
            Reads(TryNode(s, mode.forks, order, frontier, recs, m, k, Progress(Counts(0, 0), 0), room),
                  ReadNode(mode, order, frontier, t, recs, m, k), Progress(Size(t), |s.plan|))
  {
    hide TryTree, TryNodes, ReadTree, ReadNodes, CountTree, CountNodes, PlanTree, PlanNodes, Compactor, Padded, Flatten,
         Window;
    var n, s, p := |recs|, StoreOf(mode, frontier, |recs|, m, k, t), Progress(Counts(0, 0), 0);
    CoversBoundOf(frontier, n, m, k);
    WholeTapes(s, t);
    assert s.plan[0..|s.plan|] == s.plan;
    if SingleTree(mode, frontier, n, m, k) {
      TreeIsRead(s, mode, order, recs, m, k, p, room);
    } else {
      NodesAreRead(s, mode, order, frontier, recs, m, p, room, 0, k);
    }
  }

  lemma WholeTapes(s: Store, t: Tapes)
    requires s.swo == Padded(t.swo) && s.ofr == t.ofr
    ensures |t.swo| <= |s.swo| && Window(s, Counts(0, 0), Size(t)) == t
  {
  }

  // ----- what a caller gets -----

  lemma {:induction false} SliceOfFlat<R>(slices: seq<seq<R>>, m: nat, j: nat)
    requires j < |slices| && forall i :: 0 <= i < |slices| ==> |slices[i]| == m
    ensures |Flatten(slices)| == m * |slices| && m * j + m <= m * |slices|
    ensures Flatten(slices)[m * j..m * j + m] == slices[j]
    decreases |slices|
  {
    var rest := slices[1..];
    FlattenSize(slices, m);
    Distribute(j, 1, m);
    Monotone(j + 1, |slices|, m);
    if j == 0 {
      assert Flatten(slices) == slices[0] + Flatten(rest);
    } else {
      SliceOfFlat(rest, m, j - 1);
      Distribute(j - 1, 1, m);
      assert Flatten(slices) == slices[0] + Flatten(rest);
      SliceBehind(slices[0], Flatten(rest), m, m * (j - 1));
    }
  }

  lemma SliceBehind<R>(a: seq<R>, b: seq<R>, m: nat, from: nat)
    requires |a| == m && from + m <= |b|
    ensures (a + b)[m + from..m + from + m] == b[from..from + m]
  {
  }

  /**
   * End to end: when each of the k samples marks exactly m rows, writing the controls, storing them in either layout
   * and reading them back through every check puts the m records of sample j in output slice j.
   */
  lemma StoredControlsDeliver<R>(prepared: bool, order: seq<bool> -> seq<nat>, frontier: seq<FrontierNode>,
                                 items: seq<Item<R>>,
                                 m: nat, k: nat, room: nat)
    requires Compactor(order) && Delivery.Ready(items, m, k) && CheckFrontier(frontier, |items|, m, k) && m * k <= room
    ensures var mode := Mode(true, prepared);
            var w := WriteNode(mode, order, frontier, Rows(items), m, k);
            w.Some?
            && var r := FFOS_FRControlRead(StoreOf(mode, frontier, |items|, m, k, w.value), true, order, frontier,
                                           Recs(items), m, k,
                                           Counts(0, 0), room);
               && r.Some? && |r.value.out| == m * k
               && forall j :: 0 <= j < k ==>
                    m * j + m <= m * k && multiset(r.value.out[m * j..m * j + m]) == Sample(items, j)
  {
    hide Sample, Marked, WriteNode, ReadNode, CountNode, Compactor, FFOS_FRControlRead, Flatten, Rows, Recs;
    var mode := Mode(true, prepared);
    Delivery.FFOS_FRDelivers(prepared, order, frontier, items, m, k);
    var t := WriteNode(mode, order, frontier, Rows(items), m, k).value;
    StoredControlsAreRead(mode, order, frontier, Recs(items), m, k, t, room);
    var out := ReadNode(mode, order, frontier, t, Recs(items), m, k);
    FlattenSize(out, m);
    forall j | 0 <= j < k ensures m * j + m <= m * k && multiset(Flatten(out)[m * j..m * j + m]) == Sample(items, j) {
      SliceOfFlat(out, m, j);
    }
  }
}
