/** The serial FFOS_FR writer on its tapes: every node writes its own stretch of the packed tapes, from any start. */
module TapeWriter {
  import opened Tags
  import opened TagBits
  import opened LayerQuotas
  import opened Routing
  import opened Normalization
  import opened Powers
  import opened Schedules
  import opened PostOrder
  import opened PackedTape
  import opened Strided
  import opened Network
  import opened Replay
  import opened Compaction
  import opened TiledPostOrder
  import opened PackedBits
  import opened PackedWords
  import opened Sampling
  import opened Samplers
  import opened ReadPlan
  import opened OptWrite

  // ----- selection bits -----

  /** Writes flags bit by bit, and no other bit. */
  method WriteFlags(swo: array<bv8>, at: nat, flags: seq<bool>)
    requires at + |flags| <= 8 * swo.Length
    modifies swo
    ensures TapeAt(swo[..], at, flags) && OnlyBits(swo[..], old(swo[..]), at, at + |flags|)
  {
    hide BitAt;
    ghost var s0 := swo[..];
    for i := 0 to |flags|
      invariant OnlyBits(swo[..], s0, at, at + i) && TapeAt(swo[..], at, flags[..i])
    {
      ghost var s := swo[..];
      WriteBit(swo, at + i, flags[i]);
      FlagWritten(s, swo[..], s0, at, flags, i);
    }
    assert flags[..|flags|] == flags;
  }

  lemma FlagWritten(s: seq<bv8>, s': seq<bv8>, s0: seq<bv8>, at: nat, flags: seq<bool>, i: nat)
    requires i < |flags| && |s'| == |s| && at + |flags| <= 8 * |s|
    requires OnlyBits(s, s0, at, at + i) && TapeAt(s, at, flags[..i])
    requires forall q :: 0 <= q < 8 * |s| ==> BitAt(s', q) == if q == at + i then flags[i] else BitAt(s, q)
    ensures OnlyBits(s', s0, at, at + i + 1) && TapeAt(s', at, flags[..i + 1])
  {
    hide BitAt;
    var before := BitsOf(s, at, i);
    var after := BitsOf(s', at, i + 1);
    forall j | 0 <= j < i + 1 ensures after[j] == flags[..i + 1][j] {
      if j < i {
        assert before[j] == flags[..i][j];
      }
    }
  }

  // ----- one fork -----

  /**
   * A fork's tags are normalised, its controls are written in the node's layout from its start on, and its rows are
   * routed by them; rows whose weights do not fit, or a tape without room, leave the tape alone.
   */
  method WriteForkNode(rows: seq<seq<bool>>, k: nat, leftN: nat, mode: Mode, ofr: PackedControls, at: nat)
    returns (ok: bool, routed: seq<seq<bool>>, next: nat)
    requires 0 < leftN < |rows| && ofr.Valid() && at <= ofr.count
    modifies ofr`bytes
    ensures ofr.Valid()
    ensures var n, tags := |rows|, ForkTags(rows, k);
            && ok == (Fits(tags, leftN, n - leftN) && at + TapeLength(n, leftN) <= ofr.count)
            && (ok ==>
                  && |Tape(Filled(tags, leftN, n - leftN), leftN)| == TapeLength(n, leftN)
                  && next == at + TapeLength(n, leftN)
                  && ofr.Controls() == Splice(old(ofr.Controls()), at,
                                              Layout(mode, n, leftN, Tape(Filled(tags, leftN, n - leftN), leftN)))
                  && routed == Apply(Tape(Filled(tags, leftN, n - leftN), leftN), rows, leftN))
    ensures !ok ==> ofr.Controls() == old(ofr.Controls())
  {
    hide Tape, TapeLength, Apply, Weight, Normalize, Filled, Fits, Splice, Exact, Layout, Sorted, TagOf,
         PackedControls.Controls;
    var n := |rows|;
    var tags := ForkTags(rows, k);
    var labels := new bv8[n](i requires 0 <= i < n => Byte(tags[i]));
    LabelsOf(labels[..], tags);
    routed, next := rows, at;
    var leftWeight, rightWeight;
    ok, leftWeight, rightWeight := ValidateTags(labels, n, leftN, n - leftN, false);
    var count := OFRControlCountImpl(n, leftN, n - leftN);
    if !ok || at + count > ofr.count {
      return false, rows, at;
    }
    FilledParts(tags, leftN, n - leftN);
    FilledIsExact(tags, leftN, n - leftN);
    ok := OFRNormalizeOwnedInPlace(labels, n, leftN, n - leftN, leftWeight, rightWeight);
    TapeFits(Filled(tags, leftN, n - leftN), leftN);
    ghost var tape := Tape(Filled(tags, leftN, n - leftN), leftN);
    var buffer := new seq<bool>[n](i requires 0 <= i < n => rows[i]);
    assert buffer[..] == rows;
    WriteRouted(labels, buffer, mode, ofr, n, leftN, at, count, tape);
    routed, next := buffer[..], at + count;
  }

  lemma LabelsOf(labels: seq<bv8>, tags: seq<Tag>)
    requires |labels| == |tags| && forall i :: 0 <= i < |tags| ==> labels[i] == Byte(tags[i])
    ensures Owned(labels) && TagsOf(labels) == tags
  {
  }

  lemma FilledParts(tags: seq<Tag>, nLeft: nat, nRight: nat)
    requires Fits(tags, nLeft, nRight)
    ensures Weight(tags, true) <= nLeft && Weight(tags, false) <= nRight
    ensures Filled(tags, nLeft, nRight) == Normalize(tags, nLeft - Weight(tags, true), nRight - Weight(tags, false), 0)
  {
    hide Weight, Normalize;
  }

  /** Writes the controls of exact labels in the node's layout, and routes the rows by them. */
  method WriteRouted(labels: array<bv8>, buffer: array<seq<bool>>, mode: Mode, ofr: PackedControls, n: nat, leftN: nat,
                     at: nat,
                     count: nat, ghost tape: seq<Control>)
    requires 0 < leftN < n == labels.Length == buffer.Length && labels as object != buffer
    requires Owned(labels[..]) && Exact(TagsOf(labels[..]), leftN, n - leftN) && tape == Tape(TagsOf(labels[..]), leftN)
    requires count == TapeLength(n, leftN) == |tape| && ofr.Valid() && at + count <= ofr.count
    modifies labels, buffer, ofr`bytes
    ensures ofr.Valid() && ofr.Controls() == Splice(old(ofr.Controls()), at, Layout(mode, n, leftN, tape))
    ensures buffer[..] == Apply(tape, old(buffer[..]), leftN)
  {
    hide Tape, TapeLength, Apply, Splice, Exact, Layout, Owned, TagOf, PackedControls.Controls, IsPowerOfTwo;
    if PostOrdered(mode, n, leftN) {
      PostOrderedTape(mode, n, leftN, tape);
      WritePostOrdered(labels, buffer, ofr, n, at, count, tape);
    } else {
      WritePlain(labels, buffer, ofr, n, leftN, at, count, tape);
      PlainLayout(mode, n, leftN, tape);
    }
  }

  /** A postordered node: the direct generator, whose tape takes its place on the whole one. */
  method WritePostOrdered(labels: array<bv8>, buffer: array<seq<bool>>, ofr: PackedControls, n: nat, at: nat,
                          count: nat,
                          ghost tape: seq<Control>)
    requires n == labels.Length == buffer.Length && labels as object != buffer
    requires 1 < n && IsPowerOfTwo(n) && Owned(labels[..]) && Exact(TagsOf(labels[..]), n / 2, n / 2)
    requires tape == Tape(TagsOf(labels[..]), n / 2) && count == TapeLength(n, n / 2) == |tape| == Gates(Log2(n))
    requires ofr.Valid() && at + count <= ofr.count
    modifies labels, buffer, ofr`bytes
    ensures ofr.Valid() && ofr.Controls() == Splice(old(ofr.Controls()), at, PostOrderControls(Log2(n), tape))
    ensures buffer[..] == Apply(tape, old(buffer[..]), n / 2)
  {
    hide Tape, TapeLength, Apply, Splice, Exact, Sorted, Owned, TagOf, IsPowerOfTwo, PostTape, Levels, Log2, Gates;
    PositiveLog(n);
    var part := new PackedControls(count);
    OFRControlPostOrderTiledImpl(labels, buffer, part, 1, n, Log2(n));
    ghost var g0 := ofr.Gates();
    var copied := CopyFrom(ofr, at, part, 0, count);
    SplicedGates(g0, ofr.Gates(), at, part.Gates());
  }

  lemma PositiveLog(n: nat)
    requires 1 < n && IsPowerOfTwo(n)
    ensures 0 < Log2(n) && Pow2(Log2(n)) == n
  {
  }

  /** Any other node: the recursive writer, then the replay of what it wrote. */
  method WritePlain(labels: array<bv8>, buffer: array<seq<bool>>, ofr: PackedControls, n: nat, leftN: nat, at: nat,
                    count: nat,
                    ghost tape: seq<Control>)
    requires leftN <= n == labels.Length == buffer.Length && labels as object != buffer
    requires Owned(labels[..]) && Exact(TagsOf(labels[..]), leftN, n - leftN) && tape == Tape(TagsOf(labels[..]), leftN)
    requires count == TapeLength(n, leftN) == |tape| && ofr.Valid() && at + count <= ofr.count
    modifies labels, buffer, ofr`bytes
    ensures ofr.Valid() && ofr.Controls() == Splice(old(ofr.Controls()), at, tape)
    ensures buffer[..] == Apply(tape, old(buffer[..]), leftN)
  {
    hide Tape, TapeLength, Apply, Splice, Exact, Owned, TagOf;
    ghost var cs0 := ofr.Controls();
    WriteControls(labels, ofr, n, leftN, at, tape);
    SpliceSlice(cs0, at, tape);
    RouteRows(buffer, ofr, n, leftN, at, tape);
  }

  method WriteControls(labels: array<bv8>, ofr: PackedControls, n: nat, leftN: nat, at: nat, ghost tape: seq<Control>)
    requires leftN <= n == labels.Length && Owned(labels[..]) && Exact(TagsOf(labels[..]), leftN, n - leftN)
    requires tape == Tape(TagsOf(labels[..]), leftN) && |tape| == TapeLength(n, leftN)
    requires ofr.Valid() && at + |tape| <= ofr.count
    modifies labels, ofr`bytes
    ensures ofr.Valid() && ofr.Controls() == Splice(old(ofr.Controls()), at, tape)
  {
    hide Tape, TapeLength, Splice, Exact, Sorted, Owned, TagOf, SameOutside, View;
    WholeTagView(labels[..]);
    var scratch := new bv8[n / 2];
    var next := OFRControlWriteImpl(labels, ofr, scratch, 0, 1, n, leftN, n - leftN, at);
  }

  method RouteRows<R>(buffer: array<R>, ofr: PackedControls, n: nat, leftN: nat, at: nat, ghost tape: seq<Control>)
    requires leftN <= n == buffer.Length && |tape| == TapeLength(n, leftN) && ofr.Valid() && at + |tape| <= ofr.count
    requires ofr.Controls()[at..at + |tape|] == tape
    modifies buffer
    ensures buffer[..] == Apply(tape, old(buffer[..]), leftN)
  {
    hide TapeLength, Apply, SameOutside, View;
    WholeView(buffer[..]);
    var next := OFRApplyStrided(buffer, ofr, 0, 1, n, leftN, n - leftN, at);
    WholeView(buffer[..]);
  }

  lemma PostOrderedTape(mode: Mode, n: nat, leftN: nat, tape: seq<Control>)
    requires PostOrdered(mode, n, leftN) && |tape| == TapeLength(n, leftN)
    ensures IsPowerOfTwo(n) && leftN == n / 2 && n - leftN == n / 2 && 0 < Log2(n)
            && TapeLength(n, leftN) == Gates(Log2(n))
    ensures Layout(mode, n, leftN, tape) == PostOrderControls(Log2(n), tape)
  {
    hide TapeLength, PostTape;
    PostOrderedGates(mode, n, leftN);
  }

  lemma PlainLayout(mode: Mode, n: nat, leftN: nat, tape: seq<Control>)
    requires !PostOrdered(mode, n, leftN) && leftN <= n && |tape| == TapeLength(n, leftN)
    ensures Layout(mode, n, leftN, tape) == tape
  {
    hide TapeLength;
  }

  lemma SplicedGates(g0: seq<bv8>, g: seq<bv8>, at: nat, part: seq<bv8>)
    requires at + |part| <= |g0| && g == SetAll(g0, at, part[0..|part|])
    ensures ControlsOf(g) == Splice(ControlsOf(g0), at, ControlsOf(part))
  {
    hide ControlOf, SetAll;
    assert part[0..|part|] == part;
    forall i | 0 <= i < |g| ensures ControlsOf(g)[i] == Splice(ControlsOf(g0), at, ControlsOf(part))[i] {
      SetAllAt(g0, at, part, i);
    }
  }

  lemma SpliceSlice<T>(tape: seq<T>, at: nat, run: seq<T>)
    requires at + |run| <= |tape|
    ensures Splice(tape, at, run)[at..at + |run|] == run
  {
  }

  // ----- what a node's write leaves -----

  /** Whether what is counted fits the tapes from a start on. */
  predicate Room(at: Counts, need: Counts, bits: nat, gates: nat) {
    at.swo + need.swo <= bits && at.ofr + need.ofr <= gates
  }

  /**
   * The tapes hold what was written from the start on, the rest of them is as before, and the plan has grown by the
   * nodes.
   */
  ghost predicate Wrote(s: seq<bv8>, s0: seq<bv8>, c: seq<Control>, c0: seq<Control>, p: seq<PlanNode>,
                        p0: seq<PlanNode>, mode: Mode, at: Counts, w: Tapes, nodes: seq<PlanNode>) {
    && Room(at, Size(w), 8 * |s0|, |c0|)
    && TapeAt(s, at.swo, w.swo) && OnlyBits(s, s0, at.swo, at.swo + |w.swo|)
    && c == Splice(c0, at.ofr, w.ofr) && p == p0 + if mode.prepared then nodes else []
  }

  /** Nothing outside the counted stretch differs, whether the write succeeded or not. */
  ghost predicate Confined(s: seq<bv8>, s0: seq<bv8>, c: seq<Control>, c0: seq<Control>, at: Counts, need: Counts) {
    && OnlyBits(s, s0, at.swo, at.swo + need.swo)
    && |c| == |c0| && forall i :: 0 <= i < |c| && !(at.ofr <= i < at.ofr + need.ofr) ==> c[i] == c0[i]
  }

  /**
   * A finished write: it succeeds exactly when the tapes can be written and have room, and ends where the count says.
   */
  ghost predicate Finished(ok: bool, next: Counts, s: seq<bv8>, s0: seq<bv8>, c: seq<Control>, c0: seq<Control>,
                           p: seq<PlanNode>, p0: seq<PlanNode>, mode: Mode, at: Counts, w: Option<Tapes>, need: Counts,
                           nodes: seq<PlanNode>) {
    && ok == (w.Some? && Room(at, need, 8 * |s0|, |c0|))
    && (ok ==> Size(w.value) == need && next == Add(at, need) && Wrote(s, s0, c, c0, p, p0, mode, at, w.value, nodes))
    && Confined(s, s0, c, c0, at, need)
  }

  lemma NothingWritten(s: seq<bv8>, c: seq<Control>, p: seq<PlanNode>, mode: Mode, at: Counts)
    requires at.swo <= 8 * |s| && at.ofr <= |c|
    ensures Finished(true, at, s, s, c, c, p, p, mode, at, Some(Tapes([], [])), Counts(0, 0), [])
  {
    assert p == p + [];
  }

  lemma ConfinedTwice(s: seq<bv8>, s1: seq<bv8>, s0: seq<bv8>, c: seq<Control>, c1: seq<Control>, c0: seq<Control>,
                      at: Counts, x: Counts, y: Counts)
    requires Confined(s1, s0, c1, c0, at, x) && Confined(s, s1, c, c1, Add(at, x), y)
    ensures Confined(s, s0, c, c0, at, Add(x, y))
  {
    hide BitAt;
    OnlyBitsJoin(s, s1, s0, at.swo, at.swo + x.swo, at.swo + x.swo, at.swo + x.swo + y.swo, at.swo, at.swo + x.swo
                 + y.swo);
  }

  lemma ConfinedWider(s: seq<bv8>, s0: seq<bv8>, c: seq<Control>, c0: seq<Control>, at: Counts, x: Counts, y: Counts)
    requires Confined(s, s0, c, c0, at, x)
    ensures Confined(s, s0, c, c0, at, Add(x, y))
  {
    hide BitAt;
  }

  lemma WroteTwice(s: seq<bv8>, s1: seq<bv8>, s0: seq<bv8>, c: seq<Control>, c1: seq<Control>, c0: seq<Control>,
                   p: seq<PlanNode>, p1: seq<PlanNode>, p0: seq<PlanNode>, mode: Mode, at: Counts, v: Tapes, w: Tapes,
                   a: seq<PlanNode>, b: seq<PlanNode>)
    requires Wrote(s1, s0, c1, c0, p1, p0, mode, at, v, a) && Wrote(s, s1, c, c1, p, p1, mode, Add(at, Size(v)), w, b)
    ensures Wrote(s, s0, c, c0, p, p0, mode, at, Tapes(v.swo + w.swo, v.ofr + w.ofr), a + b)
  {
    hide TapeAt, OnlyBits, Splice;
    SplicedSize(c0, at.ofr, v.ofr);
    OnlySizes(s1, s0, at.swo, at.swo + |v.swo|);
    TapeStays(s, s1, at.swo + |v.swo|, at.swo + |v.swo| + |w.swo|, at.swo, v.swo);
    TapeJoins(s, at.swo, v.swo, w.swo);
    OnlyBitsJoin(s, s1, s0, at.swo, at.swo + |v.swo|, at.swo + |v.swo|, at.swo + |v.swo| + |w.swo|, at.swo, at.swo
                 + |v.swo| + |w.swo|);
    SpliceTwoRuns(c0, at.ofr, v.ofr, w.ofr);
    if mode.prepared {
      assert p0 + a + b == p0 + (a + b);
    } else {
      assert p0 + [] == p0;
    }
  }

  lemma SplicedSize<T>(tape: seq<T>, at: nat, run: seq<T>)
    requires at + |run| <= |tape|
    ensures |Splice(tape, at, run)| == |tape|
  {
  }

  lemma OnlySizes(s: seq<bv8>, s0: seq<bv8>, lo: nat, hi: nat)
    requires OnlyBits(s, s0, lo, hi)
    ensures |s| == |s0|
  {
  }

  lemma SpliceTwoRuns<T>(tape: seq<T>, at: nat, a: seq<T>, b: seq<T>)
    requires at + |a| + |b| <= |tape|
    ensures Splice(Splice(tape, at, a), at + |a|, b) == Splice(tape, at, a + b)
  {
  }

  /** Two writes in a row; the second only runs when the first succeeded. */
  lemma FinishedTwice(ok: bool, ok': bool, next: Counts, next': Counts, s: seq<bv8>, s1: seq<bv8>, s0: seq<bv8>,
                      c: seq<Control>, c1: seq<Control>, c0: seq<Control>, p: seq<PlanNode>, p1: seq<PlanNode>,
                      p0: seq<PlanNode>, mode: Mode, at: Counts, v: Option<Tapes>, w: Option<Tapes>, x: Counts,
                      y: Counts, a: seq<PlanNode>, b: seq<PlanNode>)
    requires Finished(ok, next, s1, s0, c1, c0, p1, p0, mode, at, v, x, a)
    requires if ok then Finished(ok', next', s, s1, c, c1, p, p1, mode, next, w, y, b) else !ok' && s == s1 && c == c1
    ensures Finished(ok', next', s, s0, c, c0, p, p0, mode, at, Join(v, w), Add(x, y), a + b)
  {
    hide Wrote, Confined;
    if ok {
      SameSizes(s1, s0, c1, c0, at, x);
      ConfinedTwice(s, s1, s0, c, c1, c0, at, x, y);
      if ok' {
        WroteTwice(s, s1, s0, c, c1, c0, p, p1, p0, mode, at, v.value, w.value, a, b);
      }
    } else {
      ConfinedWider(s, s0, c, c0, at, x, y);
    }
  }

  lemma SameSizes(s: seq<bv8>, s0: seq<bv8>, c: seq<Control>, c0: seq<Control>, at: Counts, need: Counts)
    requires Confined(s, s0, c, c0, at, need)
    ensures |s| == |s0| && |c| == |c0|
  {
  }

  // ----- the recursion -----

  /** Writes flags as one stretch of the selection tape, where they fit. */
  method WriteOwnFlags(swo: array<bv8>, ofr: PackedControls, at: Counts, flags: seq<bool>, mode: Mode,
                       plan: seq<PlanNode>)
    returns (ok: bool, next: Counts)
    requires ofr.Valid() && at.swo <= 8 * swo.Length && at.ofr <= ofr.count
    modifies swo
    ensures Finished(ok, next, swo[..], old(swo[..]), ofr.Controls(), ofr.Controls(), plan, plan, mode, at,
                     Some(Tapes(flags, [])),
                     Counts(|flags|, 0), [])
  {
    hide TapeAt, OnlyBits, PackedControls.Controls;
    ok, next := at.swo + |flags| <= 8 * swo.Length, at;
    ghost var cs := ofr.Controls();
    SpliceNothing(cs, at.ofr, []);
    assert plan + [] == plan;
    if ok {
      WriteFlags(swo, at.swo, flags);
      next := Counts(at.swo + |flags|, at.ofr);
    } else {
      KeptBits(swo[..], at.swo, at.swo + |flags|);
    }
  }

  lemma KeptBits(s: seq<bv8>, lo: nat, hi: nat)
    ensures OnlyBits(s, s, lo, hi)
  {
  }

  /** Writes a node from any start on its tapes. */
  method WriteNodeAt(order: seq<bool> -> seq<nat>, rows: seq<seq<bool>>, m: nat, k: nat, mode: Mode, swo: array<bv8>,
                     ofr: PackedControls,
                     at: Counts, plan: seq<PlanNode>)
    returns (ok: bool, next: Counts, nodes: seq<PlanNode>)
    requires Compactor(order) && 0 < m <= |rows| && 0 < k && ofr.Valid() && at.swo <= 8 * swo.Length
             && at.ofr <= ofr.count
    modifies swo, ofr`bytes
    ensures ofr.Valid()
    ensures Finished(ok, next, swo[..], old(swo[..]), ofr.Controls(), old(ofr.Controls()), nodes, plan, mode, at,
                     WriteTree(mode, order, rows, m, k), CountTree(mode, |rows|, m, k),
                       PlanTree(mode, |rows|, m, k, at.ofr))
    decreases k, 2
  {
    hide Finished, WriteEdge, WriteFork, CountEdge, CountFork, PlanEdge, PlanFork, Compactor, PackedControls.Controls,
         NodeCapacity;
    ghost var s0, c0 := swo[..], ofr.Controls();
    nodes := plan;
    if k == 1 {
      if |rows| == m {
        NothingWritten(s0, c0, plan, mode, at);
        return true, at, plan;
      }
      ok, next := WriteOwnFlags(swo, ofr, at, Flags(ProjectRows(rows, 0, 1)), mode, plan);
    } else if IsFork(mode, |rows|, m, k) {
      ok, next, nodes := WriteForkAt(order, rows, m, k, mode, swo, ofr, at, plan);
    } else {
      var left := k / 2;
      ok, next, nodes := WriteEdgeAt(order, rows, m, 0, left, mode, swo, ofr, at, plan);
      ghost var s1, c1, p1, ok1, next1 := swo[..], ofr.Controls(), nodes, ok, next;
      if ok {
        StartInside(ok, next, s1, s0, c1, c0, nodes, plan, mode, at, WriteEdge(mode, order, rows, m, 0, left),
                    CountEdge(mode, |rows|, m, left), PlanEdge(mode, |rows|, m, left, at.ofr));
        ok, next, nodes := WriteEdgeAt(order, rows, m, left, k - left, mode, swo, ofr, next, nodes);
      }
      FinishedTwice(ok1, ok, next1, next, swo[..], s1, s0, ofr.Controls(), c1, c0, nodes, p1, plan, mode, at,
                    WriteEdge(mode, order, rows, m, 0, left), WriteEdge(mode, order, rows, m, left, k - left),
                    CountEdge(mode, |rows|, m, left), CountEdge(mode, |rows|, m, k - left),
                    PlanEdge(mode, |rows|, m, left, at.ofr),
                    PlanEdge(mode, |rows|, m, k - left, at.ofr + CountEdge(mode, |rows|, m, left).ofr));
    }
  }

  /** After a successful write the next start is inside the tapes. */
  lemma StartInside(ok: bool, next: Counts, s: seq<bv8>, s0: seq<bv8>, c: seq<Control>, c0: seq<Control>,
                    p: seq<PlanNode>, p0: seq<PlanNode>, mode: Mode, at: Counts, w: Option<Tapes>, need: Counts,
                    nodes: seq<PlanNode>)
    requires ok && Finished(ok, next, s, s0, c, c0, p, p0, mode, at, w, need, nodes)
    ensures next == Add(at, need) && next.swo <= 8 * |s| && next.ofr <= |c| && |s| == |s0| && |c| == |c0|
  {
    hide Wrote;
  }

  /** Writes a group: its selection bits, then what is below it. */
  method WriteEdgeAt(order: seq<bool> -> seq<nat>, rows: seq<seq<bool>>, m: nat, start: nat, count: nat, mode: Mode,
                     swo: array<bv8>,
                     ofr: PackedControls, at: Counts, plan: seq<PlanNode>)
    returns (ok: bool, next: Counts, nodes: seq<PlanNode>)
    requires Compactor(order) && 0 < m <= |rows| && 0 < count && ofr.Valid() && at.swo <= 8 * swo.Length
             && at.ofr <= ofr.count
    modifies swo, ofr`bytes
    ensures ofr.Valid()
    ensures Finished(ok, next, swo[..], old(swo[..]), ofr.Controls(), old(ofr.Controls()), nodes, plan, mode, at,
                     WriteEdge(mode, order, rows, m, start, count), CountEdge(mode, |rows|, m, count),
                     PlanEdge(mode, |rows|, m, count, at.ofr))
    decreases count, 3
  {
    hide Finished, WriteTree, CountTree, PlanTree, WriteEdge, CountEdge, PlanEdge, Compactor, Compacted,
         PackedControls.Controls, PackedControls.Valid, NodeCapacity,
         Flags, ProjectRows, Join, Add;
    CapacityFits(|rows|, m, count);
    var projected, cap := ProjectRows(rows, start, count), NodeCapacity(|rows|, m, count);
    var flags := if cap < |rows| then Flags(projected) else [];
    var child := if cap < |rows| then Compacted(order, flags, projected, cap) else projected;
    assert |flags| == if cap < |rows| then |rows| else 0;
    EdgeCounts(mode, |rows|, m, count, at.ofr);
    EdgeTapes(mode, order, rows, m, start, count, flags, child);
    if count > 1 {
      ok, next, nodes := WriteGroupAt(order, flags, child, m, count, mode, swo, ofr, at, plan);
    } else {
      ok, next := WriteOwnFlags(swo, ofr, at, flags, mode, plan);
      nodes := plan;
    }
  }

  /** Writes a group of several samples: its flags, then its child. */
  method WriteGroupAt(order: seq<bool> -> seq<nat>, flags: seq<bool>, child: seq<seq<bool>>, m: nat, count: nat,
                      mode: Mode, swo: array<bv8>,
                      ofr: PackedControls, at: Counts, plan: seq<PlanNode>)
    returns (ok: bool, next: Counts, nodes: seq<PlanNode>)
    requires Compactor(order) && 0 < m <= |child| && 1 < count && ofr.Valid() && at.swo <= 8 * swo.Length
             && at.ofr <= ofr.count
    modifies swo, ofr`bytes
    ensures ofr.Valid()
    ensures Finished(ok, next, swo[..], old(swo[..]), ofr.Controls(), old(ofr.Controls()), nodes, plan, mode, at,
                     Join(Some(Tapes(flags, [])), WriteTree(mode, order, child, m, count)),
                     Add(Counts(|flags|, 0), CountTree(mode, |child|, m, count)),
                       PlanTree(mode, |child|, m, count, at.ofr))
    decreases count, 3, 0
  {
    hide Finished, WriteTree, CountTree, PlanTree, Compactor, PackedControls.Controls, Join;
    ghost var s0, c0, below := swo[..], ofr.Controls(), PlanTree(mode, |child|, m, count, at.ofr);
    nodes := plan;
    ok, next := WriteOwnFlags(swo, ofr, at, flags, mode, plan);
    ghost var s1, ok1, next1 := swo[..], ok, next;
    if ok {
      StartInside(ok, next, s1, s0, c0, c0, plan, plan, mode, at, Some(Tapes(flags, [])), Counts(|flags|, 0), []);
      ok, next, nodes := WriteNodeAt(order, child, m, count, mode, swo, ofr, next, plan);
    }
    FinishedTwice(ok1, ok, next1, next, swo[..], s1, s0, ofr.Controls(), c0, c0, nodes, plan, plan, mode, at,
                  Some(Tapes(flags, [])), WriteTree(mode, order, child, m, count),
                  Counts(|flags|, 0), CountTree(mode, |child|, m, count), [], below);
    assert [] + below == below;
  }

  /** A group's count and plan, from its flags and its child. */
  lemma EdgeCounts(mode: Mode, n: nat, m: nat, count: nat, offset: nat)
    requires 0 < m <= n && 0 < count && m <= NodeCapacity(n, m, count) <= n
    ensures var cap := NodeCapacity(n, m, count);
            var own := Counts(if cap < n then n else 0, 0);
            && CountEdge(mode, n, m, count) == (if count > 1 then Add(own, CountTree(mode, cap, m, count)) else own)
            && PlanEdge(mode, n, m, count, offset) == if count > 1 then PlanTree(mode, cap, m, count, offset) else []
  {
    hide CountTree, PlanTree, NodeCapacity;
  }

  /** A group's tape, from its flags and its child. */
  lemma EdgeTapes(mode: Mode, order: seq<bool> -> seq<nat>, rows: seq<seq<bool>>, m: nat, start: nat, count: nat,
                  flags: seq<bool>,
                  child: seq<seq<bool>>)
    requires Compactor(order) && 0 < m <= |rows| && 0 < count && m <= NodeCapacity(|rows|, m, count)
    requires flags == if NodeCapacity(|rows|, m, count) < |rows| then Flags(ProjectRows(rows, start, count)) else []
    requires child == if NodeCapacity(|rows|, m, count) < |rows|
                      then Compacted(order, flags, ProjectRows(rows, start, count), NodeCapacity(|rows|, m, count))
                      else ProjectRows(rows, start, count)
    requires m <= |child|
    ensures WriteEdge(mode, order, rows, m, start, count)
         == if count > 1 then Join(Some(Tapes(flags, [])), WriteTree(mode, order, child, m, count))
           else Some(Tapes(flags, []))
  {
    hide WriteTree, Compactor, Compacted, NodeCapacity, Flags, ProjectRows;
    JoinNone(flags);
  }

  lemma JoinNone(flags: seq<bool>)
    ensures Join(Some(Tapes(flags, [])), Some(Tapes([], []))) == Some(Tapes(flags, []))
  {
    var none: seq<Control> := [];
    assert flags + [] == flags && none + none == none;
  }

  /** A fork's own controls as tapes; none where its weights do not fit. */
  ghost function OwnTapes(mode: Mode, rows: seq<seq<bool>>, k: nat, leftN: nat): (w: Option<Tapes>)
    requires leftN <= |rows|
    ensures w.Some? ==> Size(w.value) == Counts(0, TapeLength(|rows|, leftN))
  {
    hide TapeLength;
    var n, tags := |rows|, ForkTags(rows, k);
    if !Fits(tags, leftN, n - leftN) then None
    else
      TapeFits(Filled(tags, leftN, n - leftN), leftN);
      Some(Tapes([], Layout(mode, n, leftN, Tape(Filled(tags, leftN, n - leftN), leftN))))
  }

  /** The rows behind a fork; the rows themselves where its weights do not fit. */
  ghost function RoutedRows(rows: seq<seq<bool>>, k: nat, leftN: nat): (routed: seq<seq<bool>>)
    requires leftN <= |rows|
    ensures |routed| == |rows|
  {
    hide TapeLength;
    var n, tags := |rows|, ForkTags(rows, k);
    if !Fits(tags, leftN, n - leftN) then rows
    else
      TapeFits(Filled(tags, leftN, n - leftN), leftN);
      Apply(Tape(Filled(tags, leftN, n - leftN), leftN), rows, leftN)
  }

  lemma WriteForkIs(mode: Mode, order: seq<bool> -> seq<nat>, rows: seq<seq<bool>>, leftN: nat, m: nat, k: nat)
    requires Compactor(order) && 0 < m <= |rows| && IsFork(mode, |rows|, m, k) && leftN == m * (k / 2)
    ensures 1 < k && m <= leftN <= |rows| - m
    ensures WriteFork(mode, order, rows, m, k)
         == Join(OwnTapes(mode, rows, k, leftN),
                 Join(WriteTree(mode, order, ProjectRows(RoutedRows(rows, k, leftN)[..leftN], 0, k / 2), m, k / 2),
                      WriteTree(mode, order, ProjectRows(RoutedRows(rows, k, leftN)[leftN..], k / 2, k - k / 2), m,
                                k - k / 2)))
  {
    hide WriteTree, Tape, TapeLength, Apply, Layout, Filled, Fits, ProjectRows, Compactor;
    ForkFits(|rows|, m, k);
  }

  /** Writes a fork: its own controls, then its two children behind them. */
  method WriteForkAt(order: seq<bool> -> seq<nat>, rows: seq<seq<bool>>, m: nat, k: nat, mode: Mode, swo: array<bv8>,
                     ofr: PackedControls,
                     at: Counts, plan: seq<PlanNode>)
    returns (ok: bool, next: Counts, nodes: seq<PlanNode>)
    requires Compactor(order) && 0 < m <= |rows| && IsFork(mode, |rows|, m, k)
    requires ofr.Valid() && at.swo <= 8 * swo.Length && at.ofr <= ofr.count
    modifies swo, ofr`bytes
    ensures ofr.Valid()
    ensures Finished(ok, next, swo[..], old(swo[..]), ofr.Controls(), old(ofr.Controls()), nodes, plan, mode, at,
                     WriteFork(mode, order, rows, m, k), CountFork(mode, |rows|, m, k),
                       PlanFork(mode, |rows|, m, k, at.ofr))
    decreases k, 1
  {
    hide Finished, WriteTree, CountTree, PlanTree, WriteFork, CountFork, PlanFork, Compactor, PackedControls.Controls,
         ProjectRows, TapeLength,
         OwnTapes, RoutedRows, IsFork, ForkNode;
    var n, leftK, leftN := |rows|, k / 2, m * (k / 2);
    WriteForkIs(mode, order, rows, leftN, m, k);
    ForkParts(mode, n, m, k, at.ofr);
    ghost var s0, c0 := swo[..], ofr.Controls();
    ghost var own, node := Counts(0, TapeLength(n, leftN)), ForkNode(mode, n, leftN, at.ofr);
    ghost var routedRows := RoutedRows(rows, k, leftN);
    var routed;
    ok, routed, next, nodes := WriteOwnControls(rows, k, leftN, mode, swo, ofr, at, plan);
    ghost var c1, p1, ok1, next1 := ofr.Controls(), nodes, ok, next;
    ghost var w1 := OwnTapes(mode, rows, k, leftN);
    ghost var w2, w3 := WriteTree(mode, order, ProjectRows(routedRows[..leftN], 0, leftK), m, leftK),
                        WriteTree(mode, order, ProjectRows(routedRows[leftN..], leftK, k - leftK), m, k - leftK);
    ghost var x, y := CountTree(mode, leftN, m, leftK), CountTree(mode, n - leftN, m, k - leftK);
    ghost var a := PlanTree(mode, leftN, m, leftK, at.ofr + own.ofr);
    ghost var b := PlanTree(mode, n - leftN, m, k - leftK, at.ofr + own.ofr + x.ofr);
    if ok {
      StartInside(ok, next, s0, s0, c1, c0, nodes, plan, mode, at, w1, own, [node]);
      ok, next, nodes := WriteNodeAt(order, ProjectRows(routed[..leftN], 0, leftK), m, leftK, mode, swo, ofr, next,
                                     nodes);
      ghost var s2, c2, p2, ok2, next2 := swo[..], ofr.Controls(), nodes, ok, next;
      if ok {
        StartInside(ok, next, s2, s0, c2, c1, nodes, p1, mode, next1, w2, x, a);
        ok, next, nodes := WriteNodeAt(order, ProjectRows(routed[leftN..], leftK, k - leftK), m, k - leftK, mode, swo,
                                       ofr, next, nodes);
      }
      FinishedTwice(ok2, ok, next2, next, swo[..], s2, s0, ofr.Controls(), c2, c1, nodes, p2, p1, mode, next1, w2, w3,
                    x, y, a, b);
    }
    FinishedTwice(ok1, ok, next1, next, swo[..], s0, s0, ofr.Controls(), c1, c0, nodes, p1, plan, mode, at, w1,
                  Join(w2, w3), own, Add(x, y),
                  [node], a + b);
  }

  /** A fork's own controls and, when they are prepared, its plan node. */
  method WriteOwnControls(rows: seq<seq<bool>>, k: nat, leftN: nat, mode: Mode, ghost swo: array<bv8>,
                          ofr: PackedControls, at: Counts,
                          plan: seq<PlanNode>)
    returns (ok: bool, routed: seq<seq<bool>>, next: Counts, nodes: seq<PlanNode>)
    requires 0 < leftN < |rows| && ofr.Valid() && at.swo <= 8 * swo.Length && at.ofr <= ofr.count
    modifies ofr`bytes
    ensures ofr.Valid() && (ok ==> routed == RoutedRows(rows, k, leftN))
    ensures Finished(ok, next, swo[..], swo[..], ofr.Controls(), old(ofr.Controls()), nodes, plan, mode, at,
                     OwnTapes(mode, rows, k, leftN), Counts(0, TapeLength(|rows|, leftN)),
                       [ForkNode(mode, |rows|, leftN, at.ofr)])
  {
    hide Tape, TapeLength, Apply, Filled, Fits, Layout, TapeAt, OnlyBits, PackedControls.Controls, Splice, ForkNode,
         Exact;
    ghost var c0 := ofr.Controls();
    var start;
    ok, routed, start := WriteForkNode(rows, k, leftN, mode, ofr, at.ofr);
    next := Counts(at.swo, start);
    nodes := if ok && mode.prepared then plan + [ForkNode(mode, |rows|, leftN, at.ofr)] else plan;
    NoFlags(swo[..], at.swo);
    assert plan + [] == plan;
    if ok {
      SpliceKeeps(c0, at.ofr, Layout(mode, |rows|, leftN,
                                     Tape(Filled(ForkTags(rows, k), leftN, |rows| - leftN), leftN)));
    }
  }

  lemma NoFlags(s: seq<bv8>, at: nat)
    requires at <= 8 * |s|
    ensures TapeAt(s, at, []) && OnlyBits(s, s, at, at)
  {
  }

  lemma SpliceKeeps<T>(tape: seq<T>, at: nat, run: seq<T>)
    requires at + |run| <= |tape|
    ensures |Splice(tape, at, run)| == |tape|
    ensures forall i :: 0 <= i < |tape| && !(at <= i < at + |run|) ==> Splice(tape, at, run)[i] == tape[i]
  {
  }

  // ----- the whole write -----

  lemma JoinTwice(u: Option<Tapes>, v: Option<Tapes>, w: Option<Tapes>)
    ensures Join(u, Join(v, w)) == Join(Join(u, v), w)
  {
    if u.Some? && v.Some? && w.Some? {
      assert u.value.swo + (v.value.swo + w.value.swo) == u.value.swo + v.value.swo + w.value.swo;
      assert u.value.ofr + (v.value.ofr + w.value.ofr) == u.value.ofr + v.value.ofr + w.value.ofr;
    }
  }

  lemma JoinEmpty(w: Option<Tapes>)
    ensures Join(Some(Tapes([], [])), w) == w
  {
    if w.Some? {
      assert [] + w.value.swo == w.value.swo && [] + w.value.ofr == w.value.ofr;
    }
  }

  /** The roots split after some of them: what those write, then what the others do. */
  ghost predicate RootsSplit(mode: Mode, order: seq<bool> -> seq<nat>, rows: seq<seq<bool>>, m: nat,
                             roots: seq<FrontierNode>, offset: nat,
                             i: nat, v: Option<Tapes>, x: Counts, a: seq<PlanNode>)
    requires Compactor(order) && 0 < m <= |rows| && i <= |roots| && forall j :: 0 <= j < |roots| ==> 0 < roots[j].count
  {
    && WriteNodes(mode, order, roots, rows, m) == Join(v, WriteNodes(mode, order, roots[i..], rows, m))
    && CountNodes(mode, roots, |rows|, m) == Add(x, CountNodes(mode, roots[i..], |rows|, m))
    && PlanNodes(mode, roots, |rows|, m, offset) == a + PlanNodes(mode, roots[i..], |rows|, m, offset + x.ofr)
  }

  lemma RootsBegin(mode: Mode, order: seq<bool> -> seq<nat>, rows: seq<seq<bool>>, m: nat, roots: seq<FrontierNode>,
                   offset: nat)
    requires Compactor(order) && 0 < m <= |rows| && forall j :: 0 <= j < |roots| ==> 0 < roots[j].count
    ensures RootsSplit(mode, order, rows, m, roots, offset, 0, Some(Tapes([], [])), Counts(0, 0), [])
  {
    hide WriteNodes, CountNodes, PlanNodes, Compactor;
    assert roots[0..] == roots;
    JoinEmpty(WriteNodes(mode, order, roots, rows, m));
    assert [] + PlanNodes(mode, roots, |rows|, m, offset) == PlanNodes(mode, roots, |rows|, m, offset);
  }

  lemma RootsNext(mode: Mode, order: seq<bool> -> seq<nat>, rows: seq<seq<bool>>, m: nat, roots: seq<FrontierNode>,
                  offset: nat,
                  i: nat, v: Option<Tapes>, x: Counts, a: seq<PlanNode>)
    requires Compactor(order) && 0 < m <= |rows| && i < |roots| && forall j :: 0 <= j < |roots| ==> 0 < roots[j].count
    requires RootsSplit(mode, order, rows, m, roots, offset, i, v, x, a)
    ensures RootsSplit(mode, order, rows, m, roots, offset, i + 1,
                       Join(v, WriteEdge(mode, order, rows, m, roots[i].start, roots[i].count)),
                       Add(x, CountEdge(mode, |rows|, m, roots[i].count)),
                       a + PlanEdge(mode, |rows|, m, roots[i].count, offset + x.ofr))
  {
    hide WriteEdge, CountEdge, PlanEdge, Compactor, Join;
    var here, rest := roots[i..], roots[i + 1..];
    assert here[0] == roots[i] && here[1..] == rest;
    assert forall j :: 0 <= j < |here| ==> here[j] == roots[i + j];
    var w, y := WriteEdge(mode, order, rows, m, roots[i].start, roots[i].count),
      CountEdge(mode, |rows|, m, roots[i].count);
    JoinTwice(v, w, WriteNodes(mode, order, rest, rows, m));
    var b, c := PlanEdge(mode, |rows|, m, roots[i].count, offset + x.ofr), PlanNodes(mode, rest, |rows|, m, offset
      + x.ofr + y.ofr);
    assert a + (b + c) == a + b + c;
  }

  /** Writes the roots one after the other until one cannot be written. */
  method WriteRootsAt(order: seq<bool> -> seq<nat>, rows: seq<seq<bool>>, m: nat, roots: seq<FrontierNode>, mode: Mode,
                      swo: array<bv8>,
                      ofr: PackedControls, at: Counts, plan: seq<PlanNode>)
    returns (ok: bool, next: Counts, nodes: seq<PlanNode>)
    requires Compactor(order) && 0 < m <= |rows| && forall j :: 0 <= j < |roots| ==> 0 < roots[j].count
    requires ofr.Valid() && at.swo <= 8 * swo.Length && at.ofr <= ofr.count
    modifies swo, ofr`bytes
    ensures ofr.Valid()
    ensures Finished(ok, next, swo[..], old(swo[..]), ofr.Controls(), old(ofr.Controls()), nodes, plan, mode, at,
                     WriteNodes(mode, order, roots, rows, m), CountNodes(mode, roots, |rows|, m),
                     PlanNodes(mode, roots, |rows|, m, at.ofr))
  {
    hide Finished, RootsSplit, WriteEdge, CountEdge, PlanEdge, WriteNodes, CountNodes, PlanNodes, Compactor,
         PackedControls.Controls,
         PackedControls.Valid, Join;
    ghost var s0, c0 := swo[..], ofr.Controls();
    ghost var v: Option<Tapes>, x, a: seq<PlanNode> := Some(Tapes([], [])), Counts(0, 0), [];
    ok, next, nodes := true, at, plan;
    NothingWritten(s0, c0, plan, mode, at);
    RootsBegin(mode, order, rows, m, roots, at.ofr);
    var i := 0;
    while i < |roots| && ok
      invariant 0 <= i <= |roots| && ofr.Valid() && ofr.count == |c0|
      invariant RootsSplit(mode, order, rows, m, roots, at.ofr, i, v, x, a)
      invariant Finished(ok, next, swo[..], s0, ofr.Controls(), c0, nodes, plan, mode, at, v, x, a)
      decreases |roots| - i
    {
      ghost var s1, c1, p1, next1 := swo[..], ofr.Controls(), nodes, next;
      StartInside(ok, next, s1, s0, c1, c0, nodes, plan, mode, at, v, x, a);
      RootsNext(mode, order, rows, m, roots, at.ofr, i, v, x, a);
      ok, next, nodes := WriteEdgeAt(order, rows, m, roots[i].start, roots[i].count, mode, swo, ofr, next, nodes);
      ghost var w, y := WriteEdge(mode, order, rows, m, roots[i].start, roots[i].count),
        CountEdge(mode, |rows|, m, roots[i].count);
      ghost var b := PlanEdge(mode, |rows|, m, roots[i].count, at.ofr + x.ofr);
      FinishedTwice(true, ok, next1, next, swo[..], s1, s0, ofr.Controls(), c1, c0, nodes, p1, plan, mode, at, v, w, x,
                    y, a, b);
      v, x, a := Join(v, w), Add(x, y), a + b;
      i := i + 1;
    }
    if ok {
      StartInside(ok, next, swo[..], s0, ofr.Controls(), c0, nodes, plan, mode, at, v, x, a);
      NothingWritten(swo[..], ofr.Controls(), nodes, mode, next);
    }
    RootsEnd(mode, order, rows, m, roots, at.ofr, i, v, x, a, ok);
    FinishedTwice(ok, ok, next, next, swo[..], swo[..], s0, ofr.Controls(), ofr.Controls(), c0, nodes, nodes, plan,
                  mode, at,
                  v, WriteNodes(mode, order, roots[i..], rows, m), x, CountNodes(mode, roots[i..], |rows|, m),
                  a, PlanNodes(mode, roots[i..], |rows|, m, at.ofr + x.ofr));
  }

  lemma RootsEnd(mode: Mode, order: seq<bool> -> seq<nat>, rows: seq<seq<bool>>, m: nat, roots: seq<FrontierNode>,
                 offset: nat,
                 i: nat, v: Option<Tapes>, x: Counts, a: seq<PlanNode>, ok: bool)
    requires Compactor(order) && 0 < m <= |rows| && i <= |roots| && forall j :: 0 <= j < |roots| ==> 0 < roots[j].count
    requires RootsSplit(mode, order, rows, m, roots, offset, i, v, x, a) && (ok ==> i == |roots|)
    ensures forall j :: 0 <= j < |roots[i..]| ==> 0 < roots[i..][j].count
    ensures WriteNodes(mode, order, roots, rows, m) == Join(v, WriteNodes(mode, order, roots[i..], rows, m))
    ensures CountNodes(mode, roots, |rows|, m) == Add(x, CountNodes(mode, roots[i..], |rows|, m))
    ensures PlanNodes(mode, roots, |rows|, m, offset) == a + PlanNodes(mode, roots[i..], |rows|, m, offset + x.ofr)
    ensures ok ==> WriteNodes(mode, order, roots[i..], rows, m) == Some(Tapes([], []))
                   && CountNodes(mode, roots[i..], |rows|, m) == Counts(0, 0)
                   && PlanNodes(mode, roots[i..], |rows|, m, offset + x.ofr) == []
  {
    hide Join, Compactor, WriteNodes, CountNodes, PlanNodes;
    assert forall j :: 0 <= j < |roots[i..]| ==> roots[i..][j] == roots[i + j];
    if ok {
      assert roots[i..] == [];
      NoRoots(mode, order, rows, m, offset + x.ofr);
    }
  }

  lemma NoRoots(mode: Mode, order: seq<bool> -> seq<nat>, rows: seq<seq<bool>>, m: nat, offset: nat)
    requires Compactor(order) && 0 < m <= |rows|
    ensures WriteNodes(mode, order, [], rows, m) == Some(Tapes([], []))
            && CountNodes(mode, [], |rows|, m) == Counts(0, 0)
    ensures PlanNodes(mode, [], |rows|, m, offset) == []
  {
  }

  /**
   * The public write, from any start on both tapes: it succeeds exactly when the dimensions are right, every fork's
   * weights fit and the tapes have room; then it has written the functional tapes from its start on, ended where the
   * count says and recorded the plan, and in no case has it touched a bit or gate outside the counted stretch.
   */
  method FFOS_FRControlWrite(order: seq<bool> -> seq<nat>, frontier: seq<FrontierNode>, rows: seq<seq<bool>>, m: nat,
                             k: nat, mode: Mode,
                             swo: array<bv8>, ofr: PackedControls, at: Counts)
    returns (ok: bool, next: Counts, plan: seq<PlanNode>)
    requires Compactor(order) && ofr.Valid() && at.swo <= 8 * swo.Length && at.ofr <= ofr.count
    modifies swo, ofr`bytes
    ensures ofr.Valid()
    ensures 0 < m <= |rows| && 0 < k && CheckFrontier(frontier, |rows|, m, k) ==>
              Finished(ok, next, swo[..], old(swo[..]), ofr.Controls(), old(ofr.Controls()), plan, [], mode, at,
                       WriteNode(mode, order, frontier, rows, m, k), CountNode(mode, frontier, |rows|, m, k),
                       PlanOf(mode, frontier, |rows|, m, k, at.ofr))
    ensures !(0 < m <= |rows| && 0 < k && CheckFrontier(frontier, |rows|, m, k)) ==>
              !ok && swo[..] == old(swo[..]) && ofr.Controls() == old(ofr.Controls())
  {
    hide Finished, WriteTree, CountTree, PlanTree, WriteNodes, CountNodes, PlanNodes, Compactor,
         PackedControls.Controls, PackedControls.Valid;
    ok, next, plan := false, at, [];
    if 0 < m <= |rows| && 0 < k && CheckFrontier(frontier, |rows|, m, k) {
      CoversBoundOf(frontier, |rows|, m, k);
      if SingleTree(mode, frontier, |rows|, m, k) {
        ok, next, plan := WriteNodeAt(order, rows, m, k, mode, swo, ofr, at, []);
      } else {
        ok, next, plan := WriteRootsAt(order, rows, m, frontier, mode, swo, ofr, at, []);
      }
    }
  }
}
