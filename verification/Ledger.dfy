/** What the allocation ledger means: a finite map of live blocks, running totals and phase peaks. */
module Ledger {

  /** A recorded block: its size, and whether the offline phase allocated it. */
  datatype Block = Block(bytes: nat, offline: bool)

  const SIZE_MAX: nat := 0xffff_ffff_ffff_ffff
  const SLOTS: nat := 16384

  function Charged(b: Block, offlineOnly: bool): nat {
    if offlineOnly && !b.offline then 0 else b.bytes
  }

  /** The bytes of all live blocks, or of the offline ones. */
  ghost function Total(live: map<nat, Block>, offlineOnly: bool): nat
    decreases |live|
  {
    if live == map[] then 0
    else
      var p :| p in live;
      Charged(live[p], offlineOnly) + Total(live - {p}, offlineOnly)
  }

  /** A total does not depend on the order of its blocks. */
  lemma {:induction false} TotalWithout(live: map<nat, Block>, p: nat, offlineOnly: bool)
    requires p in live
    ensures Total(live, offlineOnly) == Charged(live[p], offlineOnly) + Total(live - {p}, offlineOnly)
    decreases |live|
  {
    var q :| q in live && Total(live, offlineOnly) == Charged(live[q], offlineOnly) + Total(live - {q}, offlineOnly);
    if q != p {
      TotalWithout(live - {q}, p, offlineOnly);
      TotalWithout(live - {p}, q, offlineOnly);
      assert live - {q} - {p} == live - {p} - {q};
    }
  }

  lemma TotalWith(live: map<nat, Block>, p: nat, b: Block, offlineOnly: bool)
    requires p !in live
    ensures Total(live[p := b], offlineOnly) == Total(live, offlineOnly) + Charged(b, offlineOnly)
  {
    TotalWithout(live[p := b], p, offlineOnly);
    assert live[p := b] - {p} == live;
  }

  lemma {:induction false} OfflineBelowAll(live: map<nat, Block>)
    ensures Total(live, true) <= Total(live, false)
    decreases |live|
  {
    if live != map[] {
      var p :| p in live;
      TotalWithout(live, p, true);
      TotalWithout(live, p, false);
      OfflineBelowAll(live - {p});
    }
  }

  function Max(a: nat, b: nat): nat { if a < b then b else a }

  /** The ledger as a value. */
  datatype State = State(live: map<nat, Block>, peak: nat, offlinePeak: nat, onlinePeak: nat,
                         active: bool, broken: bool, offlineActive: bool, onlineActive: bool) {
    ghost function Current(): nat { Total(live, false) }
    ghost function OfflineCurrent(): nat { Total(live, true) }

    /** Peaks raised to totals that have just been reached. */
    function Raised(total: nat, offlineTotal: nat, offline: bool): State {
      this.(peak := Max(peak, total),
            onlinePeak := if onlineActive then Max(onlinePeak, total) else onlinePeak,
            offlinePeak := if offline && offlineActive then Max(offlinePeak, offlineTotal) else offlinePeak)
    }

    /** A block the ledger can record. */
    ghost predicate Recordable(p: nat, bytes: nat) {
      p != 0 && |live| < SLOTS / 2 && bytes <= SIZE_MAX - Current() && p !in live
    }

    ghost function Add(p: nat, bytes: nat, offline: bool): State
      requires Current() <= SIZE_MAX
    {
      if !Recordable(p, bytes) then this.(broken := true)
      else
        var s := this.(live := live[p := Block(bytes, offline)]);
        s.Raised(s.Current(), s.OfflineCurrent(), offline)
    }

    ghost function Remove(p: nat): State {
      if p == 0 || p !in live then this else this.(live := live - {p})
    }

    /** A temporary overlap of bytes more than what is live. */
    ghost function Observe(bytes: nat, offline: bool): State
      requires Current() <= SIZE_MAX
    {
      if bytes > SIZE_MAX - Current() then this.(broken := true)
      else Raised(Current() + bytes, OfflineCurrent() + bytes, offline)
    }

    ghost function Begin(): State {
      if active then this.(broken := true)
      else this.(peak := Current(), offlinePeak := 0, onlinePeak := 0, active := true)
    }

    ghost function BeginOffline(): State {
      if !active || offlineActive || onlineActive then this.(broken := true)
      else this.(offlinePeak := OfflineCurrent(), offlineActive := true)
    }

    function EndOffline(): State {
      if !active || !offlineActive then this.(broken := true) else this.(offlineActive := false)
    }

    ghost function BeginOnline(): State {
      if !active || offlineActive || onlineActive then this.(broken := true)
      else this.(onlinePeak := Current(), onlineActive := true)
    }

    function EndOnline(): State {
      if !active || !onlineActive then this.(broken := true) else this.(onlineActive := false)
    }

    function Fail(): State {
      if active then this.(broken := true) else this
    }

    function Finish(): State {
      this.(active := false, offlineActive := false, onlineActive := false)
    }

    /** An allocator call that returned p. A zero-sized allocation may return nothing. */
    ghost function Record(p: nat, bytes: nat): State
      requires Current() <= SIZE_MAX
    {
      if (p == 0 && bytes == 0) || !active then this else Add(p, bytes, offlineActive)
    }

    /** A reallocation of p that returned result: the blocks overlap before the old one goes. */
    ghost function Reallocate(p: nat, bytes: nat, result: nat): State
      requires Current() <= SIZE_MAX
    {
      var owned := p != 0 && p in live;
      var offline := offlineActive || (owned && live[p].offline);
      if result == 0 then
        if p != 0 && bytes == 0 then Remove(p) else if active then this.(broken := true) else this
      else
        var s1 := if owned && result != p && active then Observe(bytes, offline) else this;
        var s2 := if owned then s1.Remove(p) else s1;
        RemoveLowers(s1, p);
        if active || owned then s2.Add(result, bytes, offline) else s2
    }

    /** What holds between any two events. */
    ghost predicate Sane() {
      && Current() <= SIZE_MAX && |live| <= SLOTS / 2 && 0 !in live && Current() <= peak
      && (offlineActive ==> active && OfflineCurrent() <= offlinePeak)
      && (onlineActive ==> active && Current() <= onlinePeak)
      && !(offlineActive && onlineActive)
    }
  }

  lemma RemoveLowers(s: State, p: nat)
    ensures s.Remove(p).Current() <= s.Current() && s.Remove(p).OfflineCurrent() <= s.OfflineCurrent()
  {
    if p != 0 && p in s.live {
      TotalWithout(s.live, p, false);
      TotalWithout(s.live, p, true);
    }
  }

  // ----- runs -----

  datatype Event =
    | Allocate(p: nat, bytes: nat) | Free(p: nat) | Realloc(p: nat, bytes: nat, result: nat)
    | Begin | BeginOffline | EndOffline | BeginOnline | EndOnline | Fail | Finish

  ghost function Step(s: State, e: Event): State
    requires s.Sane()
  {
    match e
    case Allocate(p, bytes) => s.Record(p, bytes)
    case Free(p) => s.Remove(p)
    case Realloc(p, bytes, result) => s.Reallocate(p, bytes, result)
    case Begin => s.Begin()
    case BeginOffline => s.BeginOffline()
    case EndOffline => s.EndOffline()
    case BeginOnline => s.BeginOnline()
    case EndOnline => s.EndOnline()
    case Fail => s.Fail()
    case Finish => s.Finish()
  }

  lemma AddSane(s: State, p: nat, bytes: nat, offline: bool)
    requires s.Sane()
    ensures s.Add(p, bytes, offline).Sane()
  {
    if s.Recordable(p, bytes) {
      TotalWith(s.live, p, Block(bytes, offline), false);
      TotalWith(s.live, p, Block(bytes, offline), true);
      assert s.live[p := Block(bytes, offline)].Keys == s.live.Keys + {p};
    }
  }

  lemma RemoveSane(s: State, p: nat)
    requires s.Sane()
    ensures s.Remove(p).Sane()
  {
    RemoveLowers(s, p);
    if p != 0 && p in s.live {
      assert (s.live - {p}).Keys == s.live.Keys - {p};
    }
  }

  lemma ReallocateSane(s: State, p: nat, bytes: nat, result: nat)
    requires s.Sane()
    ensures s.Reallocate(p, bytes, result).Sane()
  {
    var owned := p != 0 && p in s.live;
    var offline := s.offlineActive || (owned && s.live[p].offline);
    if result == 0 {
      RemoveSane(s, p);
    } else {
      var s1 := if owned && result != p && s.active then s.Observe(bytes, offline) else s;
      RemoveSane(s1, p);
      AddSane(if owned then s1.Remove(p) else s1, result, bytes, offline);
    }
  }

  /** Every event keeps the ledger sane: totals fit, and each active peak dominates its running total. */
  lemma StepSane(s: State, e: Event)
    requires s.Sane()
    ensures Step(s, e).Sane()
  {
    OfflineBelowAll(s.live);
    match e
    case Allocate(p, bytes) => AddSane(s, p, bytes, s.offlineActive);
    case Free(p) => RemoveSane(s, p);
    case Realloc(p, bytes, result) => ReallocateSane(s, p, bytes, result);
    case _ =>
  }

  // ----- what a peak is -----

  datatype Scope = Whole | OfflinePhase | OnlinePhase

  function Peak(s: State, w: Scope): nat {
    match w case Whole => s.peak case OfflinePhase => s.offlinePeak case OnlinePhase => s.onlinePeak
  }

  ghost function Running(s: State, w: Scope): nat {
    if w.OfflinePhase? then s.OfflineCurrent() else s.Current()
  }

  /** The scope is being measured. */
  predicate Open(s: State, w: Scope) {
    match w case Whole => true case OfflinePhase => s.offlineActive case OnlinePhase => s.onlineActive
  }

  function MaxOf(a: nat, xs: seq<nat>): nat
    decreases |xs|
  {
    if xs == [] then a else MaxOf(Max(a, xs[0]), xs[1..])
  }

  /** The overlap a reallocation reaches before the old block is released. */
  ghost function Overlap(s: State, e: Event, w: Scope): seq<nat> {
    if e.Realloc? && e.p != 0 && e.p in s.live && e.result != 0 && e.result != e.p && s.active && e.bytes <=
      SIZE_MAX - s.Current()
       && (w.OfflinePhase? ==> s.offlineActive || s.live[e.p].offline)
    then [Running(s, w) + e.bytes] else []
  }

  /** The totals an event reaches, in order. */
  ghost function TotalsOf(s: State, e: Event, w: Scope): seq<nat>
    requires s.Sane()
  {
    Overlap(s, e, w) + [Running(Step(s, e), w)]
  }

  lemma AddPeak(s: State, p: nat, bytes: nat, offline: bool, w: Scope)
    requires s.Sane() && Open(s, w) && (offline || !s.offlineActive)
    ensures Peak(s.Add(p, bytes, offline), w) == Max(Peak(s, w), Running(s.Add(p, bytes, offline), w))
  {
    if s.Recordable(p, bytes) {
      TotalWith(s.live, p, Block(bytes, offline), true);
    }
  }

  lemma RemovePeak(s: State, p: nat, w: Scope)
    requires s.Sane() && Open(s, w)
    ensures Peak(s.Remove(p), w) == Max(Peak(s, w), Running(s.Remove(p), w))
  {
    RemoveLowers(s, p);
  }

  /** The totals of a reallocation: the overlap where there is one, then what is left. */
  ghost function Overlapped(s: State, e: Event): State
    requires s.Sane() && e.Realloc?
  {
    var owned := e.p != 0 && e.p in s.live;
    if owned && e.result != e.p && s.active then s.Observe(e.bytes, s.offlineActive || s.live[e.p].offline) else s
  }

  lemma OverlapPeak(s: State, e: Event, w: Scope)
    requires s.Sane() && Open(s, w) && e.Realloc? && e.result != 0
    ensures Overlapped(s, e).Sane() && Overlapped(s, e).live == s.live && Open(Overlapped(s, e), w)
    ensures Peak(Overlapped(s, e), w) == MaxOf(Peak(s, w), Overlap(s, e, w))
  {
    var x := Overlap(s, e, w);
    assert x != [] ==> x[1..] == [];
  }

  lemma MaxOfSnoc(a: nat, xs: seq<nat>, y: nat)
    ensures MaxOf(a, xs + [y]) == Max(MaxOf(a, xs), y)
  {
    MaxOfJoin(a, xs, [y]);
    assert [y][1..] == [];
  }

  lemma FailedRealloc(s: State, e: Event, w: Scope)
    requires s.Sane() && Open(s, w) && e.Realloc? && e.result == 0
    ensures Overlap(s, e, w) == [] && Peak(Step(s, e), w) == Max(Peak(s, w), Running(Step(s, e), w))
            && MaxOf(Peak(s, w), []) == Peak(s, w)
  {
    RemovePeak(s, e.p, w);
  }

  lemma MovedPeak(s: State, e: Event, w: Scope)
    requires s.Sane() && Open(s, w) && e.Realloc? && e.result != 0
    requires Overlapped(s, e).Sane() && Overlapped(s, e).live == s.live && Open(Overlapped(s, e), w)
    ensures Peak(Step(s, e), w) == Max(Peak(Overlapped(s, e), w), Running(Step(s, e), w))
  {
    var owned := e.p != 0 && e.p in s.live;
    var s1 := Overlapped(s, e);
    var s2 := if owned then s1.Remove(e.p) else s1;
    RemovePeak(s1, e.p, w);
    RemoveSane(s1, e.p);
    if s.active || owned {
      AddPeak(s2, e.result, e.bytes, s.offlineActive || (owned && s.live[e.p].offline), w);
    }
  }

  lemma ReallocatePeak(s: State, e: Event, w: Scope)
    requires s.Sane() && Open(s, w) && e.Realloc?
    ensures Peak(Step(s, e), w) == MaxOf(Peak(s, w), TotalsOf(s, e, w))
  {
    hide Peak, Running, MaxOf, Overlap, Overlapped, State.Reallocate;
    MaxOfSnoc(Peak(s, w), Overlap(s, e, w), Running(Step(s, e), w));
    if e.result == 0 {
      FailedRealloc(s, e, w);
    } else {
      OverlapPeak(s, e, w);
      MovedPeak(s, e, w);
    }
  }

  /** One event raises an open scope's peak to the largest total it reaches, and no further. */
  lemma StepPeak(s: State, e: Event, w: Scope)
    requires s.Sane() && Open(s, w) && Open(Step(s, e), w) && !(w.Whole? && e.Begin? && !s.active)
    ensures Peak(Step(s, e), w) == MaxOf(Peak(s, w), TotalsOf(s, e, w))
  {
    if e.Realloc? {
      ReallocatePeak(s, e, w);
    } else {
      MaxOfSnoc(Peak(s, w), [], Running(Step(s, e), w));
      if e.Allocate? && !(e.p == 0 && e.bytes == 0) && s.active {
        AddPeak(s, e.p, e.bytes, s.offlineActive, w);
      } else if e.Free? {
        RemovePeak(s, e.p, w);
      }
    }
  }

  ghost function RunEvents(s: State, es: seq<Event>): (r: State)
    requires s.Sane()
    ensures r.Sane()
    decreases |es|
  {
    if es == [] then s
    else
      StepSane(s, es[0]);
      RunEvents(Step(s, es[0]), es[1..])
  }

  /** The scope stays open and is not restarted. */
  ghost predicate StaysOpen(s: State, es: seq<Event>, w: Scope)
    requires s.Sane()
    decreases |es|
  {
    && Open(s, w)
    && (es == [] ||
        (StepSane(s, es[0]);
         !(w.Whole? && es[0].Begin? && !s.active) && StaysOpen(Step(s, es[0]), es[1..], w)))
  }

  ghost function AllReached(s: State, es: seq<Event>, w: Scope): seq<nat>
    requires s.Sane()
    decreases |es|
  {
    if es == [] then []
    else
      StepSane(s, es[0]);
      TotalsOf(s, es[0], w) + AllReached(Step(s, es[0]), es[1..], w)
  }

  lemma {:induction false} MaxOfJoin(a: nat, x: seq<nat>, y: seq<nat>)
    ensures MaxOf(a, x + y) == MaxOf(MaxOf(a, x), y)
    decreases |x|
  {
    if x == [] {
      assert x + y == y;
    } else {
      assert (x + y)[1..] == x[1..] + y;
      MaxOfJoin(Max(a, x[0]), x[1..], y);
    }
  }

  /**
   * Peaks are exact: while a scope stays open its peak is the largest total reached, overlaps of reallocations
   * included.
   */
  lemma {:induction false} PeakIsExact(s: State, es: seq<Event>, w: Scope)
    requires s.Sane() && StaysOpen(s, es, w)
    ensures Peak(RunEvents(s, es), w) == MaxOf(Peak(s, w), AllReached(s, es, w))
    decreases |es|
  {
    if es != [] {
      StepSane(s, es[0]);
      var s1 := Step(s, es[0]);
      assert Open(s1, w);
      StepPeak(s, es[0], w);
      PeakIsExact(s1, es[1..], w);
      MaxOfJoin(Peak(s, w), TotalsOf(s, es[0], w), AllReached(s1, es[1..], w));
    }
  }

  /** What an offline phase reports: the largest offline total from its begin to its end. */
  lemma OfflineReport(s: State, es: seq<Event>)
    requires s.Sane() && s.active && !s.offlineActive && !s.onlineActive
    ensures s.BeginOffline().Sane()
    ensures var begun := s.BeginOffline();
            StaysOpen(begun, es, OfflinePhase) ==>
              RunEvents(begun, es).offlinePeak == MaxOf(s.OfflineCurrent(), AllReached(begun, es, OfflinePhase))
  {
    StepSane(s, BeginOffline);
    var begun := s.BeginOffline();
    if StaysOpen(begun, es, OfflinePhase) {
      PeakIsExact(begun, es, OfflinePhase);
    }
  }

  /** What an online phase reports: the largest total from its begin to its end. */
  lemma OnlineReport(s: State, es: seq<Event>)
    requires s.Sane() && s.active && !s.offlineActive && !s.onlineActive
    ensures s.BeginOnline().Sane()
    ensures var begun := s.BeginOnline();
            StaysOpen(begun, es, OnlinePhase) ==>
              RunEvents(begun, es).onlinePeak == MaxOf(s.Current(), AllReached(begun, es, OnlinePhase))
  {
    StepSane(s, BeginOnline);
    var begun := s.BeginOnline();
    if StaysOpen(begun, es, OnlinePhase) {
      PeakIsExact(begun, es, OnlinePhase);
    }
  }

  /** What a round reports: the largest total since its begin, blocks that outlive the last round included. */
  lemma RoundReport(s: State, es: seq<Event>)
    requires s.Sane() && !s.active
    ensures s.Begin().Sane() && s.Begin().active && s.Begin().live == s.live
    ensures StaysOpen(s.Begin(), es, Whole) ==>
              RunEvents(s.Begin(), es).peak == MaxOf(s.Current(), AllReached(s.Begin(), es, Whole))
  {
    StepSane(s, Begin);
    if StaysOpen(s.Begin(), es, Whole) {
      PeakIsExact(s.Begin(), es, Whole);
    }
  }

  // ----- what an event does to the live blocks -----

  datatype Effect = Placed(block: Block) | Gone | Untouched

  /** Bytes at p fit beside the blocks that are live. */
  ghost predicate Fits(live: map<nat, Block>, p: nat, bytes: nat) {
    p != 0 && p !in live && |live| < SLOTS / 2 && Total(live, false) + bytes <= SIZE_MAX
  }

  /** The block a reallocation leaves at its result: it belongs to the offline phase if it did, or if that is open. */
  ghost function Moved(s: State, e: Event): Block
    requires e.Realloc?
  {
    Block(e.bytes, s.offlineActive || (e.p in s.live && s.live[e.p].offline))
  }

  /** A reallocation is recorded in a round or of a recorded block, when the result fits beside the other blocks. */
  ghost predicate Moves(s: State, e: Event)
    requires e.Realloc?
  {
    (s.active || e.p in s.live) && Fits(s.live - {e.p}, e.result, e.bytes)
  }

  /** What one event does to the block at p. */
  ghost function EffectOn(s: State, e: Event, p: nat): Effect {
    if e.Allocate? && e.p == p && s.active && Fits(s.live, p, e.bytes) then Placed(Block(e.bytes, s.offlineActive))
    else if e.Realloc? && e.result == p && Moves(s, e) then Placed(Moved(s, e))
    else if e.Free? && e.p == p then Gone
    else if e.Realloc? && e.p == p && (e.result != 0 || e.bytes == 0) then Gone
    else Untouched
  }

  /** p is live with block b. */
  predicate Holds(s: State, p: nat, b: Block) {
    p in s.live && s.live[p] == b
  }

  /** After an event exactly what it placed, and what it left untouched, is live. */
  lemma StepLive(s: State, e: Event, p: nat, b: Block)
    requires s.Sane()
    ensures Holds(Step(s, e), p, b) <==>
              EffectOn(s, e, p) == Placed(b) || (EffectOn(s, e, p).Untouched? && Holds(s, p, b))
  {
    hide Total;
    if e.Realloc? {
      ReallocLive(s, e, p, b);
    }
  }

  lemma ReallocLive(s: State, e: Event, p: nat, b: Block)
    requires s.Sane() && e.Realloc?
    ensures Holds(Step(s, e), p, b) <==>
              EffectOn(s, e, p) == Placed(b) || (EffectOn(s, e, p).Untouched? && Holds(s, p, b))
  {
    hide Total;
    MovedLive(s, e);
  }

  /** What recording a block changes besides the peaks. */
  lemma AddChanges(s: State, p: nat, bytes: nat, offline: bool)
    requires s.Sane()
    ensures var s', fits := s.Add(p, bytes, offline), Fits(s.live, p, bytes);
            && s'.live == (if fits then s.live[p := Block(bytes, offline)] else s.live)
            && (s'.broken <==> s.broken || !fits) && SameFlags(s, s')
  {
    hide Total, State.Sane;
  }

  predicate SameFlags(s: State, s': State) {
    s'.active == s.active && s'.offlineActive == s.offlineActive && s'.onlineActive == s.onlineActive
  }

  /** The old block of a reallocation that moved, after its overlap has been observed. */
  ghost function TakenAway(s: State, e: Event): State
    requires s.Sane() && e.Realloc?
  {
    if e.p in s.live then Overlapped(s, e).Remove(e.p) else s
  }

  lemma TakenChanges(s: State, e: Event)
    requires s.Sane() && e.Realloc?
    ensures var s' := TakenAway(s, e);
            && s'.Sane() && s'.live == s.live - {e.p} && SameFlags(s, s')
            && (s'.broken <==> s.broken || Overflows(s, e))
  {
    hide Total, State.Observe, State.Sane;
    SaneHasNoNull(s);
    if e.p in s.live {
      ObserveChanges(s, e.bytes, s.offlineActive || s.live[e.p].offline);
      RemoveSane(Overlapped(s, e), e.p);
    } else {
      assert s.live - {e.p} == s.live;
    }
  }

  lemma SaneHasNoNull(s: State)
    requires s.Sane()
    ensures 0 !in s.live && s.Current() <= SIZE_MAX
  {
  }

  lemma ObserveChanges(s: State, bytes: nat, offline: bool)
    requires s.Sane()
    ensures var s' := s.Observe(bytes, offline);
            && s'.Sane() && s'.live == s.live && SameFlags(s, s')
            && (s'.broken <==> s.broken || SIZE_MAX < s.Current() + bytes)
  {
    hide Total;
  }

  /** The old block and the new one do not fit together. */
  ghost predicate Overflows(s: State, e: Event)
    requires e.Realloc?
  {
    s.active && e.p in s.live && e.result != e.p && SIZE_MAX < s.Current() + e.bytes
  }

  lemma ReallocTaken(s: State, e: Event)
    requires s.Sane() && e.Realloc? && e.result != 0 && TakenAway(s, e).Sane()
    ensures Step(s, e) == if s.active || e.p in s.live then TakenAway(s, e).Add(e.result, e.bytes, Moved(s, e).offline)
                          else TakenAway(s, e)
  {
    hide State.Add, State.Remove, State.Observe;
  }

  /** A reallocation takes its block away and, when the result can be recorded, puts the new one in. */
  lemma MovedLive(s: State, e: Event)
    requires s.Sane() && e.Realloc?
    ensures SameFlags(s, Step(s, e)) && (Step(s, e).broken <==> s.broken || Spoils(s, e))
    ensures e.result == 0 ==> Step(s, e).live == if e.bytes == 0 then s.live - {e.p} else s.live
    ensures e.result != 0 ==>
              Step(s, e).live == if Moves(s, e) then (s.live - {e.p})[e.result := Moved(s, e)] else s.live - {e.p}
  {
    if e.result == 0 {
      hide Total;
      if e.p !in s.live {
        assert s.live - {e.p} == s.live;
      }
    } else {
      hide Step, TakenAway, State.Sane, State.Add, Fits;
      TakenChanges(s, e);
      ReallocTaken(s, e);
      AddChanges(TakenAway(s, e), e.result, e.bytes, Moved(s, e).offline);
    }
  }

  /** A free takes exactly its own block away, in a round or out of one. */
  lemma FreeLive(s: State, p: nat)
    requires s.Sane()
    ensures p !in Step(s, Free(p)).live
    ensures forall q :: q != p ==> (q in Step(s, Free(p)).live <==> q in s.live)
    ensures forall q :: q != p && q in s.live ==> Step(s, Free(p)).live[q] == s.live[q]
  {
    hide Total;
  }

  // ----- what a run does to the live blocks -----

  ghost function After(s: State, es: seq<Event>, i: nat): (r: State)
    requires s.Sane() && i <= |es|
    ensures r.Sane()
  {
    RunEvents(s, es[..i])
  }

  /** No event from the given one on has an effect on p. */
  ghost predicate Quiet(s: State, es: seq<Event>, p: nat, from: nat)
    requires s.Sane()
  {
    forall j :: from <= j < |es| ==> EffectOn(After(s, es, j), es[j], p) == Untouched
  }

  /** Event i is the last one with an effect on p, and places b there. */
  ghost predicate LastPlaced(s: State, es: seq<Event>, p: nat, b: Block, i: nat)
    requires s.Sane()
  {
    i < |es| && EffectOn(After(s, es, i), es[i], p) == Placed(b) && Quiet(s, es, p, i + 1)
  }

  lemma {:induction false} RunJoin(s: State, es: seq<Event>, e: Event)
    requires s.Sane()
    ensures RunEvents(s, es + [e]) == Step(RunEvents(s, es), e)
    decreases |es|
  {
    hide Step;
    if es == [] {
      assert (es + [e])[1..] == [];
    } else {
      StepSane(s, es[0]);
      assert (es + [e])[1..] == es[1..] + [e];
      RunJoin(Step(s, es[0]), es[1..], e);
    }
  }

  lemma AfterStep(s: State, es: seq<Event>, e: Event)
    requires s.Sane()
    ensures After(s, es + [e], |es|) == RunEvents(s, es)
    ensures forall j :: 0 <= j < |es| ==> After(s, es + [e], j) == After(s, es, j) && (es + [e])[j] == es[j]
  {
    assert (es + [e])[..|es|] == es;
    forall j | 0 <= j < |es| ensures (es + [e])[..j] == es[..j] {
    }
  }

  /** p is live after a run exactly when the last event with an effect on it placed it, or none had and it was live. */
  lemma {:induction false} RunLive(s: State, es: seq<Event>, p: nat, b: Block)
    requires s.Sane()
    ensures Holds(RunEvents(s, es), p, b) <==>
              (exists i :: LastPlaced(s, es, p, b, i)) || (Quiet(s, es, p, 0) && Holds(s, p, b))
    decreases |es|
  {
    if es != [] {
      var last := |es| - 1;
      var init, e := es[..last], es[last];
      assert es == init + [e];
      RunLive(s, init, p, b);
      RunLiveStep(s, init, e, p, b);
    }
  }

  lemma QuietStep(s: State, init: seq<Event>, e: Event, p: nat, i: nat)
    requires s.Sane() && i <= |init|
    ensures Quiet(s, init + [e], p, i) <==>
              Quiet(s, init, p, i) && EffectOn(RunEvents(s, init), e, p) == Untouched
  {
    hide EffectOn, RunEvents, After;
    AfterStep(s, init, e);
    var es := init + [e];
    assert es[|init|] == e;
    if Quiet(s, es, p, i) {
      assert EffectOn(After(s, es, |init|), es[|init|], p) == Untouched;
      forall j | i <= j < |init| ensures EffectOn(After(s, init, j), init[j], p) == Untouched {
        assert EffectOn(After(s, es, j), es[j], p) == Untouched;
      }
    } else {
      var j :| i <= j < |es| && EffectOn(After(s, es, j), es[j], p) != Untouched;
      assert j < |init| ==> EffectOn(After(s, init, j), init[j], p) != Untouched;
    }
  }

  lemma PlacedStep(s: State, init: seq<Event>, e: Event, p: nat, b: Block, i: nat)
    requires s.Sane()
    ensures var effect := EffectOn(RunEvents(s, init), e, p);
            LastPlaced(s, init + [e], p, b, i) <==>
              if i < |init| then LastPlaced(s, init, p, b, i) && effect == Untouched
              else i == |init| && effect == Placed(b)
  {
    hide EffectOn, RunEvents, After;
    AfterStep(s, init, e);
    if i < |init| {
      hide Quiet;
      QuietStep(s, init, e, p, i + 1);
    }
  }

  lemma RunLiveStep(s: State, init: seq<Event>, e: Event, p: nat, b: Block)
    requires s.Sane()
    requires Holds(RunEvents(s, init), p, b) <==>
               (exists i :: LastPlaced(s, init, p, b, i)) || (Quiet(s, init, p, 0) && Holds(s, p, b))
    ensures Holds(RunEvents(s, init + [e]), p, b) <==>
              (exists i :: LastPlaced(s, init + [e], p, b, i)) || (Quiet(s, init + [e], p, 0) && Holds(s, p, b))
  {
    hide Step, EffectOn, RunEvents, Holds, Quiet, LastPlaced;
    RunJoin(s, init, e);
    StepLive(RunEvents(s, init), e, p, b);
    QuietStep(s, init, e, p, 0);
    var es, effect := init + [e], EffectOn(RunEvents(s, init), e, p);
    PlacedStep(s, init, e, p, b, |init|);
    if i :| LastPlaced(s, es, p, b, i) {
      PlacedStep(s, init, e, p, b, i);
      PlacedBefore(s, init, p, b, i);
    }
    if i :| LastPlaced(s, init, p, b, i) {
      PlacedStep(s, init, e, p, b, i);
      PlacedBefore(s, init, p, b, i);
    }
  }

  lemma PlacedBefore(s: State, es: seq<Event>, p: nat, b: Block, i: nat)
    requires s.Sane()
    ensures LastPlaced(s, es, p, b, i) ==> i < |es|
  {
  }

  // ----- what an event does to the flags -----

  /** The events that make a measurement worthless. */
  ghost predicate Spoils(s: State, e: Event) {
    match e
    case Allocate(p, bytes) => s.active && !(p == 0 && bytes == 0) && !Fits(s.live, p, bytes)
    case Free(_) => false
    case Realloc(p, bytes, result) =>
      if result == 0 then s.active && (p == 0 || bytes != 0)
      else
        || ((s.active || p in s.live) && !Fits(s.live - {p}, result, bytes))
        || Overflows(s, e)
    case Begin => s.active
    case BeginOffline => !s.active || s.offlineActive || s.onlineActive
    case BeginOnline => !s.active || s.offlineActive || s.onlineActive
    case EndOffline => !s.offlineActive
    case EndOnline => !s.onlineActive
    case Fail => s.active
    case Finish => false
  }

  /** A round is open from a begin to the next finish; a phase also ends with its own end, and opens when it may. */
  lemma StepFlags(s: State, e: Event)
    requires s.Sane()
    ensures Step(s, e).broken <==> s.broken || Spoils(s, e)
    ensures Step(s, e).active <==> e.Begin? || (s.active && !e.Finish?)
    ensures Step(s, e).offlineActive <==>
              (s.offlineActive && !e.EndOffline? && !e.Finish?) || (e.BeginOffline? && s.active && !s.onlineActive)
    ensures Step(s, e).onlineActive <==>
              (s.onlineActive && !e.EndOnline? && !e.Finish?) || (e.BeginOnline? && s.active && !s.offlineActive)
  {
    hide Total;
    if e.Realloc? {
      MovedLive(s, e);
    }
  }

  /** A measurement is trusted exactly when no event of the run spoiled it, however long ago. */
  lemma {:induction false} RunBroken(s: State, es: seq<Event>)
    requires s.Sane()
    ensures RunEvents(s, es).broken <==> s.broken || exists i :: 0 <= i < |es| && Spoils(After(s, es, i), es[i])
    decreases |es|
  {
    hide Step, Spoils;
    if es != [] {
      var last := |es| - 1;
      var init, e := es[..last], es[last];
      assert es == init + [e];
      RunBroken(s, init);
      AfterStep(s, init, e);
      RunJoin(s, init, e);
      StepFlags(RunEvents(s, init), e);
    }
  }
}
