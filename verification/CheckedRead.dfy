/** The public read with every check it makes: what the preflight accepts is read to the end without a failing check. */
module CheckedRead {
  import opened Tags
  import opened Routing
  import opened Sampling
  import opened Samplers
  import opened ReadPlan
  import opened PreparedRead
  import opened Products

  /** The stored controls: selection bits in whole bytes, fork controls, and the plan, empty for raw controls. */
  datatype Store = Store(swo: seq<bool>, ofr: seq<Control>, plan: seq<PlanNode>) {
    function Sizes(): Controls {
      Controls(|swo| / 8, |ofr|, plan)
    }
  }

  /** What a read has put out, and where it is on the tapes and in the plan. */
  datatype Read<R> = Read(out: seq<R>, at: Progress)

  lemma SpanInside(end: nat, bits: nat)
    requires SpanFits(end, bits / 8)
    ensures end <= bits
  {
  }

  /** Reads a node; None where a length, plan or capacity check fails. */
  function TryTree<R>(s: Store, forks: bool, order: seq<bool> -> seq<nat>, recs: seq<R>, m: nat, k: nat, p: Progress,
                      room: nat)
    : (r: Option<Read<R>>)
    requires Compactor(order) && 0 < m <= |recs| && 0 < k
    ensures r.Some? ==> |r.value.out| <= room
    decreases k, 3
  {
    if k == 1 && |recs| == m then (if room < m then None else Some(Read(recs, p)))
    else if k == 1 then TryLeaf(s, order, recs, m, p, room)
    else if IsFork(Mode(forks, false), |recs|, m, k) then
      if s.plan == [] then TryRaw(s, forks, order, recs, m, k, p, room)
      else if room < |recs| then None
      else
        match TryFork(s.ofr, s.plan, recs, m, k, p.at.ofr, p.index)
        case None => None
        case Some(f) => Some(Read(f.out, Progress(Counts(p.at.swo, f.next), f.index)))
    else
      match TryEdge(s, forks, order, recs, m, k / 2, p, room)
      case None => None
      case Some(a) => After(a, TryEdge(s, forks, order, recs, m, k - k / 2, a.at, room - |a.out|))
  }

  /** Two reads in a row. */
  function After<R>(a: Read<R>, b: Option<Read<R>>): (r: Option<Read<R>>)
    ensures r == if b.Some? then Some(Read(a.out + b.value.out, b.value.at)) else None
  {
    match b
    case None => None
    case Some(v) => Some(Read(a.out + v.out, v.at))
  }

  /** Routes on a copy and reads the two sides. */
  function TryRaw<R>(s: Store, forks: bool, order: seq<bool> -> seq<nat>, recs: seq<R>, m: nat, k: nat, p: Progress,
                     room: nat)
    : (r: Option<Read<R>>)
    requires Compactor(order) && 0 < m <= |recs| && IsFork(Mode(forks, false), |recs|, m, k)
    ensures r.Some? ==> |r.value.out| <= room
    decreases k, 1
  {
    hide TapeLength, Apply;
    ForkFits(|recs|, m, k);
    var leftN := m * (k / 2);
    var count := TapeLength(|recs|, leftN);
    if p.at.ofr + count > |s.ofr| then None
    else
      var routed := Apply(s.ofr[p.at.ofr..p.at.ofr + count], recs, leftN);
      TryRawSides(s, forks, order, routed, leftN, m, k, p.(at := Add(p.at, Counts(0, count))), room)
  }

  function TryRawSides<R>(s: Store, forks: bool, order: seq<bool> -> seq<nat>, routed: seq<R>, leftN: nat, m: nat,
                          k: nat, p: Progress, room: nat): (r: Option<Read<R>>)
    requires Compactor(order) && 1 < k && 0 < m <= leftN <= |routed| && m <= |routed| - leftN
    ensures r.Some? ==> |r.value.out| <= room
    decreases k, 0
  {
    var top, bottom := routed[..leftN], routed[leftN..];
    match TryTree(s, forks, order, top, m, k / 2, p, room)
    case None => None
    case Some(a) => After(a, TryTree(s, forks, order, bottom, m, k - k / 2, a.at, room - |a.out|))
  }

  /** Filters a copy down to a group's capacity by the next bits; the whole input needs none. */
  function TryFilter<R>(s: Store, order: seq<bool> -> seq<nat>, recs: seq<R>, cap: nat,
                        p: Progress): (r: Option<Read<R>>)
    requires Compactor(order) && cap <= |recs|
    ensures r.Some? ==> |r.value.out| == cap
  {
    var n := |recs|;
    if cap == n then Some(Read(recs, p))
    else if !SpanFits(p.at.swo + n, |s.swo| / 8) then None
    else
      SpanInside(p.at.swo + n, |s.swo|);
      Some(Read(Compacted(order, s.swo[p.at.swo..p.at.swo + n], recs, cap), p.(at := Add(p.at, Counts(n, 0)))))
  }

  /** A group of one sample: its filtered input is put out. */
  function TryLeaf<R>(s: Store, order: seq<bool> -> seq<nat>, recs: seq<R>, m: nat, p: Progress,
                      room: nat): (r: Option<Read<R>>)
    requires Compactor(order) && 0 < m <= |recs|
    ensures r.Some? ==> |r.value.out| <= room
  {
    match TryFilter(s, order, recs, NodeCapacity(|recs|, m, 1), p)
    case None => None
    case Some(f) => if |f.out| != m || room < m then None else Some(f)
  }

  /** Filters a group's input and reads on. */
  function TryEdge<R>(s: Store, forks: bool, order: seq<bool> -> seq<nat>, recs: seq<R>, m: nat, count: nat,
                      p: Progress, room: nat)
    : (r: Option<Read<R>>)
    requires Compactor(order) && 0 < m <= |recs| && 0 < count
    ensures r.Some? ==> |r.value.out| <= room
    decreases count, 4
  {
    hide Compacted, NodeCapacity, TryFilter, TryLeaf;
    CapacityFits(|recs|, m, count);
    if count == 1 then TryLeaf(s, order, recs, m, p, room)
    else
      match TryFilter(s, order, recs, NodeCapacity(|recs|, m, count), p)
      case None => None
      case Some(f) => TryTree(s, forks, order, f.out, m, count, f.at, room)
  }

  function TryNodes<R>(s: Store, forks: bool, order: seq<bool> -> seq<nat>, nodes: seq<FrontierNode>, recs: seq<R>,
                       m: nat, p: Progress, room: nat): (r: Option<Read<R>>)
    requires Compactor(order) && 0 < m <= |recs| && forall i :: 0 <= i < |nodes| ==> 0 < nodes[i].count
    ensures r.Some? ==> |r.value.out| <= room
    decreases |nodes|
  {
    if nodes == [] then Some(Read([], p))
    else
      match TryEdge(s, forks, order, recs, m, nodes[0].count, p, room)
      case None => None
      case Some(a) => After(a, TryNodes(s, forks, order, nodes[1..], recs, m, a.at, room - |a.out|))
  }

  function TryNode<R>(s: Store, forks: bool, order: seq<bool> -> seq<nat>, frontier: seq<FrontierNode>, recs: seq<R>,
                      m: nat, k: nat, p: Progress, room: nat): (r: Option<Read<R>>)
    requires Compactor(order) && 0 < m <= |recs| && 0 < k && CheckFrontier(frontier, |recs|, m, k)
  {
    if SingleTree(Mode(forks, false), frontier, |recs|, m, k) then TryTree(s, forks, order, recs, m, k, p, room)
    else
      CoversBound(frontier, 0, k);
      TryNodes(s, forks, order, frontier, recs, m, p, room)
  }

  // ----- an accepted read meets no failing check -----

  /** The read ends where the preflight ended and has put out its whole slices. */
  ghost predicate Succeeds<R>(r: Option<Read<R>>, end: Progress, size: nat) {
    r.Some? && r.value.at == end && |r.value.out| == size
  }

  lemma {:induction false} TreeSucceeds<R>(s: Store, forks: bool, order: seq<bool> -> seq<nat>, recs: seq<R>, m: nat,
                                           k: nat, p: Progress, room: nat)
    requires Compactor(order) && 0 < m <= |recs| && 0 < k && m * k <= room
    requires ValidateTree(s.Sizes(), forks, |recs|, m, k, p).Some?
    ensures Succeeds(TryTree(s, forks, order, recs, m, k, p, room),
                     ValidateTree(s.Sizes(), forks, |recs|, m, k, p).value, m * k)
    decreases k, 3
  {
    hide ValidateEdge, ValidateFork, TryEdge, TryRaw, TryFork, Compactor, NodeCapacity, TryLeaf;
    if k == 1 {
      if |recs| != m {
        LeafSucceeds(s, order, recs, m, p, room);
      }
    } else if IsFork(Mode(forks, false), |recs|, m, k) {
      if s.plan == [] {
        RawSucceeds(s, forks, order, recs, m, k, p, room);
      } else {
        PreparedSucceeds(s, forks, recs, m, k, p);
      }
    } else {
      SplitProduct(m, k);
      EdgeSucceeds(s, forks, order, recs, m, k / 2, p, room);
      var a := TryEdge(s, forks, order, recs, m, k / 2, p, room).value;
      EdgeSucceeds(s, forks, order, recs, m, k - k / 2, a.at, room - |a.out|);
    }
  }

  lemma SplitProduct(m: nat, k: nat)
    requires 0 < m
    ensures 0 <= m * (k / 2) <= m * k && m * (k / 2) + m * (k - k / 2) == m * k
  {
    Distribute(k / 2, k - k / 2, m);
  }

  lemma LeafSucceeds<R>(s: Store, order: seq<bool> -> seq<nat>, recs: seq<R>, m: nat, p: Progress, room: nat)
    requires Compactor(order) && 0 < m < |recs| && m <= room && ValidateBits(s.Sizes(), |recs|, p).Some?
    ensures Succeeds(TryLeaf(s, order, recs, m, p, room), ValidateBits(s.Sizes(), |recs|, p).value, m)
  {
    hide Compacted;
    CapacityFits(|recs|, m, 1);
  }

  lemma WholeLeafSucceeds<R>(s: Store, order: seq<bool> -> seq<nat>, recs: seq<R>, m: nat, p: Progress, room: nat)
    requires Compactor(order) && 0 < m == |recs| && m <= room
    ensures Succeeds(TryLeaf(s, order, recs, m, p, room), p, m)
  {
    CapacityFits(|recs|, m, 1);
  }

  /** A prepared fork subtree: the preflight's acceptance is a matching plan with room on the tape. */
  lemma PreparedSucceeds<R>(s: Store, forks: bool, recs: seq<R>, m: nat, k: nat, p: Progress)
    requires 0 < m <= |recs| && IsFork(Mode(forks, false), |recs|, m, k) && s.plan != []
    requires ValidateTree(s.Sizes(), forks, |recs|, m, k, p).Some?
    ensures var f := TryFork(s.ofr, s.plan, recs, m, k, p.at.ofr, p.index);
            f.Some? && |f.value.out| == m * k
            && ValidateTree(s.Sizes(), forks, |recs|, m, k, p).value
              == Progress(Counts(p.at.swo, f.value.next), f.value.index)
  {
    hide ValidateTree, TryFork, CountTree, PlanTree, PlanMatches;
    var mode := Mode(forks, false);
    ValidateTreeExact(s.Sizes(), mode, |recs|, m, k, p);
    ForkTreeCounts(mode, |recs|, m, k);
    ForkHasGates(mode, |recs|, m, k);
    MatchedForkReads(s.ofr, s.plan, recs, mode, m, k, p.at.ofr, p.index);
  }

  lemma ForkHasGates(mode: Mode, n: nat, m: nat, k: nat)
    requires 0 < m <= n && IsFork(mode, n, m, k)
    ensures 0 < CountTree(mode, n, m, k).ofr
  {
    hide TapeLength, CountFork;
    ForkParts(mode, n, m, k, 0);
    TapeLengthUnfold(n, m * (k / 2));
    assert CountTree(mode, n, m, k) == CountFork(mode, n, m, k);
  }

  lemma {:induction false} RawSucceeds<R>(s: Store, forks: bool, order: seq<bool> -> seq<nat>, recs: seq<R>, m: nat,
                                          k: nat, p: Progress, room: nat)
    requires Compactor(order) && 0 < m <= |recs| && IsFork(Mode(forks, false), |recs|, m, k) && s.plan == []
             && m * k <= room
    requires ValidateFork(s.Sizes(), forks, |recs|, m, k, p).Some?
    ensures Succeeds(TryRaw(s, forks, order, recs, m, k, p, room),
                     ValidateFork(s.Sizes(), forks, |recs|, m, k, p).value, m * k)
    decreases k, 1
  {
    hide ValidateTree, TryTree, TapeLength, Apply, Compactor;
    ForkFits(|recs|, m, k);
    SplitProduct(m, k);
    var leftN := m * (k / 2);
    var count := TapeLength(|recs|, leftN);
    var routed := Apply(s.ofr[p.at.ofr..p.at.ofr + count], recs, leftN);
    var q := p.(at := Add(p.at, Counts(0, count)));
    TreeSucceeds(s, forks, order, routed[..leftN], m, k / 2, q, room);
    var a := TryTree(s, forks, order, routed[..leftN], m, k / 2, q, room).value;
    TreeSucceeds(s, forks, order, routed[leftN..], m, k - k / 2, a.at, room - |a.out|);
  }

  lemma {:induction false} EdgeSucceeds<R>(s: Store, forks: bool, order: seq<bool> -> seq<nat>, recs: seq<R>, m: nat,
                                           count: nat, p: Progress, room: nat)
    requires Compactor(order) && 0 < m <= |recs| && 0 < count && m * count <= room
    requires ValidateEdge(s.Sizes(), forks, |recs|, m, count, p).Some?
    ensures Succeeds(TryEdge(s, forks, order, recs, m, count, p, room),
                     ValidateEdge(s.Sizes(), forks, |recs|, m, count, p).value, m * count)
    decreases count, 4
  {
    hide ValidateTree, TryTree, Compactor, NodeCapacity, TryFilter, TryLeaf;
    var n, cap := |recs|, NodeCapacity(|recs|, m, count);
    CapacityFits(n, m, count);
    if count == 1 {
      if n == m {
        WholeLeafSucceeds(s, order, recs, m, p, room);
      } else {
        LeafSucceeds(s, order, recs, m, p, room);
      }
    } else {
      FilterSucceeds(s, order, recs, cap, p);
      var f := TryFilter(s, order, recs, cap, p).value;
      TreeSucceeds(s, forks, order, f.out, m, count, f.at, room);
    }
  }

  lemma FilterSucceeds<R>(s: Store, order: seq<bool> -> seq<nat>, recs: seq<R>, cap: nat, p: Progress)
    requires Compactor(order) && cap <= |recs| && (cap < |recs| ==> ValidateBits(s.Sizes(), |recs|, p).Some?)
    ensures var r := TryFilter(s, order, recs, cap, p);
            r.Some? && r.value.at == if cap < |recs| then ValidateBits(s.Sizes(), |recs|, p).value else p
  {
    hide Compacted;
  }

  lemma {:induction false} NodesSucceed<R>(s: Store, forks: bool, order: seq<bool> -> seq<nat>,
                                           nodes: seq<FrontierNode>, recs: seq<R>, m: nat, p: Progress, q: Progress,
                                           room: nat, start: nat, k: nat, size: nat)
    requires 0 < m <= |recs| && start <= k && size == m * (k - start) <= room && Covers(nodes, start, k)
    requires (forall i :: 0 <= i < |nodes| ==> 0 < nodes[i].count) && Compactor(order)
    requires ValidateNodes(s.Sizes(), forks, nodes, |recs|, m, p) == Some(q)
    ensures Succeeds(TryNodes(s, forks, order, nodes, recs, m, p, room), q, size)
    decreases |nodes|
  {
    hide ValidateEdge, TryEdge, Compactor;
    if nodes == [] {
      assert k - start == 0;
    } else {
      var count := nodes[0].count;
      CoversBound(nodes[1..], start + count, k);
      RestOfRoom(m, start, count, k);
      EdgeSucceeds(s, forks, order, recs, m, count, p, room);
      var a := TryEdge(s, forks, order, recs, m, count, p, room).value;
      NodesSucceed(s, forks, order, nodes[1..], recs, m, a.at, q, room - |a.out|, start + count, k, size - m * count);
    }
  }

  lemma RestOfRoom(m: nat, start: nat, count: nat, k: nat)
    requires start + count <= k
    ensures m * count <= m * (k - start) && m * (k - start) - m * count == m * (k - (start + count))
  {
    Distribute(count, k - (start + count), m);
    assert count + (k - (start + count)) == k - start;
  }

  /**
   * What the preflight accepts is read without a failing check, whatever layouts its plan mixes, and ends where the
   * preflight did.
   */
  lemma AcceptedReadSucceeds<R>(s: Store, forks: bool, order: seq<bool> -> seq<nat>, frontier: seq<FrontierNode>,
                                recs: seq<R>, m: nat, k: nat, p: Progress, room: nat)
    requires Compactor(order) && 0 < m <= |recs| && 0 < k && CheckFrontier(frontier, |recs|, m, k) && m * k <= room
    requires ValidateReadPlanNode(s.Sizes(), forks, frontier, |recs|, m, k, p).Some?
    ensures Succeeds(TryNode(s, forks, order, frontier, recs, m, k, p, room),
                     ValidateReadPlanNode(s.Sizes(), forks, frontier, |recs|, m, k, p).value, m * k)
  {
    hide ValidateTree, ValidateNodes, TryTree, TryNodes, Compactor;
    if SingleTree(Mode(forks, false), frontier, |recs|, m, k) {
      TreeSucceeds(s, forks, order, recs, m, k, p, room);
    } else {
      CoversBound(frontier, 0, k);
      var q := ValidateNodes(s.Sizes(), forks, frontier, |recs|, m, p).value;
      NodesSucceed(s, forks, order, frontier, recs, m, p, q, room, 0, k, m * k);
    }
  }
}
