/** The open-addressing table behind the allocation ledger, proved to refine the ledger's map for any hash function. */
module LedgerTable {
  import opened Ledger

  datatype Entry = Entry(pointer: nat, bytes: nat, offline: bool)

  const EMPTY := Entry(0, 0, false)

  /** Steps forward from slot a to slot b, around the table. */
  function Dist(a: nat, b: nat): (d: nat)
    requires a < SLOTS && b < SLOTS
    ensures d < SLOTS
  {
    if a <= b then b - a else b + SLOTS - a
  }

  function Next(a: nat): (b: nat)
    requires a < SLOTS
    ensures b < SLOTS
  {
    if a + 1 < SLOTS then a + 1 else 0
  }

  ghost predicate IsHash(hash: nat -> nat) {
    forall p: nat :: hash(p) < SLOTS
  }

  /** Every entry can be reached from its home slot over nonempty slots; gap, where it is a slot, counts as nonempty. */
  ghost predicate Linked(t: seq<Entry>, hash: nat -> nat, gap: int)
    requires |t| == SLOTS && IsHash(hash)
  {
    forall s, q :: 0 <= s < SLOTS && 0 <= q < SLOTS && OnPath(t, hash, s, q) ==> t[q].pointer != 0 || q == gap
  }

  /** Slot q lies on the path from home to the entry at slot s. */
  ghost predicate OnPath(t: seq<Entry>, hash: nat -> nat, s: nat, q: nat)
    requires |t| == SLOTS && IsHash(hash) && s < SLOTS && q < SLOTS
  {
    t[s].pointer != 0 && Dist(hash(t[s].pointer), q) < Dist(hash(t[s].pointer), s)
  }

  ghost predicate Somewhere(t: seq<Entry>, p: nat) {
    exists i :: 0 <= i < |t| && t[i].pointer == p
  }

  /** The nonempty slots are exactly the live blocks, one slot each. */
  ghost predicate Content(t: seq<Entry>, live: map<nat, Block>) {
    && 0 !in live
    && (forall i :: 0 <= i < |t| && t[i].pointer != 0 ==>
          t[i].pointer in live && live[t[i].pointer] == Block(t[i].bytes, t[i].offline))
    && (forall p :: p in live ==> Somewhere(t, p))
    && (forall i, j :: 0 <= i < |t| && 0 <= j < |t| && t[i].pointer != 0 && t[i].pointer == t[j].pointer ==> i == j)
  }

  ghost predicate Table(t: seq<Entry>, live: map<nat, Block>, hash: nat -> nat) {
    |t| == SLOTS && IsHash(hash) && Content(t, live) && Linked(t, hash, -1)
  }

  /** Nonempty slots hold distinct live pointers, so a prefix without empty slots is no longer than the ledger. */
  lemma {:induction false} FullPrefix(t: seq<Entry>, live: map<nat, Block>, n: nat) returns (ps: set<nat>)
    requires Content(t, live) && n <= |t| && forall i :: 0 <= i < n ==> t[i].pointer != 0
    ensures |ps| == n && ps <= live.Keys && forall p :: p in ps <==> exists i :: 0 <= i < n && t[i].pointer == p
  {
    if n == 0 {
      ps := {};
    } else {
      var fewer := FullPrefix(t, live, n - 1);
      assert t[n - 1].pointer !in fewer;
      ps := fewer + {t[n - 1].pointer};
    }
  }

  lemma {:induction false} Smaller(a: set<nat>, b: set<nat>)
    requires a <= b
    ensures |a| <= |b|
  {
    if a != {} {
      var x :| x in a;
      Smaller(a - {x}, b - {x});
    }
  }

  /** Fewer blocks than slots leave an empty slot. */
  lemma EmptySlot(t: seq<Entry>, live: map<nat, Block>) returns (e: nat)
    requires Content(t, live) && |live| < |t|
    ensures e < |t| && t[e].pointer == 0
  {
    if forall i :: 0 <= i < |t| ==> t[i].pointer != 0 {
      var ps := FullPrefix(t, live, |t|);
      Smaller(ps, live.Keys);
      assert false;
    }
    e :| 0 <= e < |t| && t[e].pointer == 0;
  }

  /** A probe that stops at slot: everything before it is another block. */
  ghost predicate Probed(t: seq<Entry>, home: nat, slot: nat, p: nat)
    requires |t| == SLOTS && home < SLOTS && slot < SLOTS
  {
    forall q :: 0 <= q < SLOTS && Dist(home, q) < Dist(home, slot) ==> t[q].pointer != 0 && t[q].pointer != p
  }

  /** Where a probe for p may end: at its block, or at an empty slot when it has none. */
  ghost predicate Found(t: seq<Entry>, live: map<nat, Block>, hash: nat -> nat, p: nat, slot: nat)
    requires |t| == SLOTS && IsHash(hash)
  {
    slot < SLOTS && Probed(t, hash(p), slot, p) && (if p in live then t[slot].pointer == p else t[slot].pointer == 0)
  }

  /** An empty slot is never before an entry on its path. */
  lemma EmptyIsLater(t: seq<Entry>, live: map<nat, Block>, hash: nat -> nat, s: nat, slot: nat)
    requires Table(t, live, hash) && s < SLOTS && slot < SLOTS && t[s].pointer != 0 && t[slot].pointer == 0
    ensures Dist(hash(t[s].pointer), s) < Dist(hash(t[s].pointer), slot)
  {
    assert !OnPath(t, hash, s, slot);
  }

  lemma ProbeEnds(t: seq<Entry>, live: map<nat, Block>, hash: nat -> nat, p: nat, slot: nat)
    requires Table(t, live, hash) && p != 0 && slot < SLOTS && Probed(t, hash(p), slot, p)
    requires t[slot].pointer == 0 || t[slot].pointer == p
    ensures Found(t, live, hash, p, slot)
  {
    if t[slot].pointer == 0 && p in live {
      assert Somewhere(t, p);
      var s :| 0 <= s < SLOTS && t[s].pointer == p;
      EmptyIsLater(t, live, hash, s, slot);
    }
  }

  /** The slot a probe returns holds the block when there is one, and is empty when there is none. */
  lemma FoundMeans(t: seq<Entry>, live: map<nat, Block>, hash: nat -> nat, p: nat, slot: nat)
    requires Table(t, live, hash) && p != 0 && Found(t, live, hash, p, slot)
    ensures slot < |t| && (t[slot].pointer != 0 <==> p in live)
    ensures p in live ==> t[slot] == Entry(p, live[p].bytes, live[p].offline)
  {
  }

  // ----- insertion -----

  lemma Inserted(t: seq<Entry>, live: map<nat, Block>, hash: nat -> nat, p: nat, slot: nat, b: Block)
    requires Table(t, live, hash) && p != 0 && p !in live && Found(t, live, hash, p, slot)
    ensures Table(t[slot := Entry(p, b.bytes, b.offline)], live[p := b], hash)
  {
    var t' := t[slot := Entry(p, b.bytes, b.offline)];
    forall q | q in live[p := b] ensures Somewhere(t', q) {
      if q == p {
        assert t'[slot].pointer == p;
      } else {
        assert Somewhere(t, q);
        var i :| 0 <= i < |t| && t[i].pointer == q;
        assert t'[i].pointer == q;
      }
    }
    forall s, q | 0 <= s < SLOTS && 0 <= q < SLOTS && OnPath(t', hash, s, q) ensures t'[q].pointer != 0 {
      if s != slot {
        assert OnPath(t, hash, s, q);
      }
    }
  }

  // ----- backward-shift deletion -----

  /**
   * The table with an empty slot, the hole, that still counts as nonempty on paths; the slots after it up to next are
   * nonempty and can be reached without crossing it.
   */
  ghost predicate Shifting(t: seq<Entry>, live: map<nat, Block>, hash: nat -> nat, hole: nat, next: nat)
  {
    && |t| == SLOTS && IsHash(hash) && hole < SLOTS && next < SLOTS && hole != next
    && t[hole].pointer == 0 && Content(t, live) && Linked(t, hash, hole)
    && forall s :: 0 <= s < SLOTS && 0 < Dist(hole, s) < Dist(hole, next) ==>
      t[s].pointer != 0 && !OnPath(t, hash, s, hole)
  }

  lemma Removed(t: seq<Entry>, live: map<nat, Block>, hash: nat -> nat, p: nat, hole: nat)
    requires Table(t, live, hash) && p in live && hole < SLOTS && t[hole].pointer == p
    ensures Shifting(t[hole := EMPTY], live - {p}, hash, hole, Next(hole))
  {
    var t' := t[hole := EMPTY];
    forall q | q in live - {p} ensures Somewhere(t', q) {
      assert Somewhere(t, q);
      var i :| 0 <= i < |t| && t[i].pointer == q;
      assert t'[i].pointer == q;
    }
    forall s, q | 0 <= s < SLOTS && 0 <= q < SLOTS && OnPath(t', hash, s, q) ensures t'[q].pointer != 0 || q == hole {
      assert OnPath(t, hash, s, q);
    }
  }

  /** Whether the entry at next may fall back into the hole: its home is not after the hole. */
  predicate FallsBack(hash: nat -> nat, p: nat, hole: nat, next: nat)
    requires hash(p) < SLOTS && hole < SLOTS && next < SLOTS
  {
    Dist(hash(p), next) >= Dist(hole, next)
  }

  lemma ShiftedContent(t: seq<Entry>, live: map<nat, Block>, hole: nat, next: nat)
    requires hole < |t| && next < |t| && hole != next && t[hole].pointer == 0 && Content(t, live)
    ensures Content(t[hole := t[next]][next := EMPTY], live)
  {
    var t' := t[hole := t[next]][next := EMPTY];
    forall q | q in live ensures Somewhere(t', q) {
      assert Somewhere(t, q);
      var i :| 0 <= i < |t| && t[i].pointer == q;
      assert t'[if i == next then hole else i].pointer == q;
    }
  }

  /** Moving an entry back into the hole keeps the ledger and opens a hole where it stood. */
  lemma Shifted(t: seq<Entry>, live: map<nat, Block>, hash: nat -> nat, hole: nat, next: nat)
    requires Shifting(t, live, hash, hole, next) && t[next].pointer != 0 && FallsBack(hash, t[next].pointer, hole, next)
    ensures Shifting(t[hole := t[next]][next := EMPTY], live, hash, next, Next(next))
  {
    hide Content;
    var t' := t[hole := t[next]][next := EMPTY];
    ShiftedContent(t, live, hole, next);
    forall s, q | 0 <= s < SLOTS && 0 <= q < SLOTS && OnPath(t', hash, s, q) ensures t'[q].pointer != 0 || q == next {
      if s == hole {
        assert OnPath(t, hash, next, q);
      } else {
        assert OnPath(t, hash, s, q);
      }
    }
  }

  /** An entry whose home lies after the hole stays, and can be reached without crossing it. */
  lemma Skipped(t: seq<Entry>, live: map<nat, Block>, hash: nat -> nat, hole: nat, next: nat)
    requires Shifting(t, live, hash, hole, next) && t[next].pointer != 0
             && !FallsBack(hash, t[next].pointer, hole, next)
    requires Next(next) != hole
    ensures Shifting(t, live, hash, hole, Next(next))
  {
    assert !OnPath(t, hash, next, hole);
  }

  /** Once next is empty no path crosses the hole. */
  lemma NoCrossing(t: seq<Entry>, live: map<nat, Block>, hash: nat -> nat, hole: nat, next: nat, s: nat)
    requires Shifting(t, live, hash, hole, next) && t[next].pointer == 0 && s < SLOTS
    ensures !OnPath(t, hash, s, hole)
  {
    if t[s].pointer != 0 && Dist(hole, next) < Dist(hole, s) {
      assert !OnPath(t, hash, s, next);
    }
  }

  /** At an empty slot the shifting ends: the hole has become an ordinary empty slot. */
  lemma ShiftEnds(t: seq<Entry>, live: map<nat, Block>, hash: nat -> nat, hole: nat, next: nat)
    requires Shifting(t, live, hash, hole, next) && t[next].pointer == 0
    ensures Table(t, live, hash)
  {
    forall s, q | 0 <= s < SLOTS && 0 <= q < SLOTS && OnPath(t, hash, s, q) ensures t[q].pointer != 0 {
      NoCrossing(t, live, hash, hole, next, s);
    }
  }

  lemma SmallLedger(s: State)
    requires s.Sane()
    ensures |s.live| <= SLOTS / 2
  {
  }

  lemma ReadyToClose(t: seq<Entry>, live: map<nat, Block>, hash: nat -> nat, p: nat, hole: nat) returns (e: nat)
    requires Table(t, live, hash) && |live| < SLOTS && p in live && hole < SLOTS && t[hole].pointer == p
    ensures e < SLOTS && e != hole && t[e].pointer == 0 && IsHash(hash)
    ensures Shifting(t[hole := EMPTY], live - {p}, hash, hole, Next(hole))
  {
    e := EmptySlot(t, live);
    Removed(t, live, hash, p, hole);
  }

  lemma DropTotals(live: map<nat, Block>, p: nat)
    requires p in live
    ensures Total(live - {p}, false) == Total(live, false) - live[p].bytes >= 0
    ensures Total(live - {p}, true) == Total(live, true) - Charged(live[p], true) >= 0
    ensures |live - {p}| == |live| - 1
  {
    TotalWithout(live, p, false);
    TotalWithout(live, p, true);
    assert (live - {p}).Keys == live.Keys - {p};
  }

  // ----- the tracker -----

  class Tracker {
    const hash: nat -> nat
    const entries: array<Entry>
    var current: nat
    var peak: nat
    var count: nat
    var offlineCurrent: nat
    var offlinePeak: nat
    var onlinePeak: nat
    var active: bool
    var broken: bool
    var offlineActive: bool
    var onlineActive: bool
    ghost var live: map<nat, Block>

    /** The ledger this table stands for. */
    ghost function Model(): State
      reads this
    {
      State(live, peak, offlinePeak, onlinePeak, active, broken, offlineActive, onlineActive)
    }

    ghost predicate Valid()
      reads this, entries
    {
      && entries.Length == SLOTS && Table(entries[..], live, hash) && Model().Sane()
      && count == |live| && current == Total(live, false) && offlineCurrent == Total(live, true)
    }

    constructor (hash: nat -> nat)
      requires IsHash(hash)
      ensures Valid() && fresh(entries) && Model() == State(map[], 0, 0, 0, false, false, false, false)
    {
      this.hash := hash;
      entries := new Entry[SLOTS](_ => EMPTY);
      current, peak, count, offlineCurrent, offlinePeak, onlinePeak := 0, 0, 0, 0, 0, 0;
      active, broken, offlineActive, onlineActive := false, false, false, false;
      live := map[];
    }

    /** Linear probing: stops because some slot is empty, and finds the block wherever it is. */
    method Find(pointer: nat) returns (slot: nat)
      requires Valid() && pointer != 0
      ensures slot < SLOTS && Found(entries[..], live, hash, pointer, slot)
    {
      ghost var e := EmptySlot(entries[..], live);
      ghost var home := hash(pointer);
      slot := hash(pointer);
      while entries[slot].pointer != 0 && entries[slot].pointer != pointer
        invariant slot < SLOTS && Dist(home, slot) <= Dist(home, e)
        invariant Probed(entries[..], home, slot, pointer)
        decreases Dist(home, e) - Dist(home, slot)
      {
        slot := Next(slot);
      }
      ProbeEnds(entries[..], live, hash, pointer, slot);
    }

    method Observe(bytes: nat, offline: bool)
      requires Valid()
      modifies this`peak, this`onlinePeak, this`offlinePeak, this`broken
      ensures Valid() && Model() == old(Model()).Observe(bytes, offline)
    {
      hide Table, Total;
      if bytes > SIZE_MAX - current {
        broken := true;
        return;
      }
      var total := current + bytes;
      if total > peak {
        peak := total;
      }
      if onlineActive {
        onlinePeak := Max(onlinePeak, total);
      }
      if offline && offlineActive {
        offlinePeak := Max(offlinePeak, offlineCurrent + bytes);
      }
    }

    method Add(pointer: nat, bytes: nat, offline: bool)
      requires Valid()
      modifies this, entries
      ensures Valid() && Model() == old(Model()).Add(pointer, bytes, offline)
    {
      hide Table, Total, Found, State.Sane;
      AddSane(Model(), pointer, bytes, offline);
      if pointer == 0 || count >= SLOTS / 2 || bytes > SIZE_MAX - current {
        broken := true;
        return;
      }
      var slot := Find(pointer);
      FoundMeans(entries[..], live, hash, pointer, slot);
      if entries[slot].pointer != 0 {
        broken := true;
        return;
      }
      Insert(slot, Entry(pointer, bytes, offline));
      RaisePeaks(offline);
    }

    /** Raises every peak that is being measured to its running total. */
    method RaisePeaks(offline: bool)
      modifies this`peak, this`onlinePeak, this`offlinePeak
      ensures Model() == old(Model()).Raised(current, offlineCurrent, offline)
    {
      if current > peak {
        peak := current;
      }
      if onlineActive {
        onlinePeak := Max(onlinePeak, current);
      }
      if offline && offlineActive {
        offlinePeak := Max(offlinePeak, offlineCurrent);
      }
    }

    /** Writes a new block into its slot and adds it to the running totals. */
    method Insert(slot: nat, entry: Entry)
      requires Table(entries[..], live, hash) && entry.pointer != 0 && entry.pointer !in live
      requires slot < SLOTS == entries.Length && Found(entries[..], live, hash, entry.pointer, slot)
      requires count == |live| && current == Total(live, false) && offlineCurrent == Total(live, true)
      modifies this`live, this`count, this`current, this`offlineCurrent, entries
      ensures Table(entries[..], live, hash) && live == old(live)[entry.pointer := Block(entry.bytes, entry.offline)]
      ensures count == |live| && current == Total(live, false) && offlineCurrent == Total(live, true)
    {
      hide Table, Total, Found;
      ghost var b := Block(entry.bytes, entry.offline);
      Inserted(entries[..], live, hash, entry.pointer, slot, b);
      TotalWith(live, entry.pointer, b, false);
      TotalWith(live, entry.pointer, b, true);
      assert live[entry.pointer := b].Keys == live.Keys + {entry.pointer};
      entries[slot] := entry;
      live := live[entry.pointer := b];
      count := count + 1;
      current := current + entry.bytes;
      if entry.offline {
        offlineCurrent := offlineCurrent + entry.bytes;
      }
    }

    /** Removes a block and shifts the entries after it back, so that no tombstone is left. */
    method Remove(pointer: nat)
      requires Valid()
      modifies this`live, this`current, this`offlineCurrent, this`count, entries
      ensures Valid() && Model() == old(Model()).Remove(pointer)
    {
      if pointer == 0 {
        return;
      }
      hide Table, Total, Found, Shifting, State.Sane;
      var hole := Find(pointer);
      FoundMeans(entries[..], live, hash, pointer, hole);
      if entries[hole].pointer == 0 {
        return;
      }
      RemoveSane(Model(), pointer);
      SmallLedger(Model());
      RemoveAt(hole);
    }

    /** Takes the block at a slot off the running totals and closes the hole it leaves. */
    method RemoveAt(hole: nat)
      requires Table(entries[..], live, hash) && |live| < SLOTS == entries.Length && hole < SLOTS
      requires var p := entries[hole].pointer;
               p in live && entries[hole] == Entry(p, live[p].bytes, live[p].offline)
      requires count == |live| && current == Total(live, false) && offlineCurrent == Total(live, true)
      modifies this`live, this`count, this`current, this`offlineCurrent, entries
      ensures Table(entries[..], live, hash) && live == old(live) - {old(entries[hole].pointer)}
      ensures count == |live| && current == Total(live, false) && offlineCurrent == Total(live, true)
    {
      hide Table, Total, Shifting;
      ghost var pointer := entries[hole].pointer;
      ghost var e := ReadyToClose(entries[..], live, hash, pointer, hole);
      DropTotals(live, pointer);
      current := current - entries[hole].bytes;
      if entries[hole].offline {
        offlineCurrent := offlineCurrent - entries[hole].bytes;
      }
      count := count - 1;
      live := live - {pointer};
      CloseHole(hole, e);
    }

    method CloseHole(start: nat, ghost e: nat)
      requires IsHash(hash) && e < SLOTS && start < SLOTS && e != start && entries.Length == SLOTS
               && entries[e].pointer == 0
      requires Shifting(entries[..][start := EMPTY], live, hash, start, Next(start))
      modifies entries
      ensures Table(entries[..], live, hash)
    {
      hide Shifting, Table;
      var hole: nat, next: nat := start, Next(start);
      while entries[next].pointer != 0
        invariant hole < SLOTS && next < SLOTS && hole != next && e != hole && Dist(hole, next) <= Dist(hole, e)
        invariant entries[e].pointer == 0 && IsHash(hash)
        invariant Shifting(entries[..][hole := EMPTY], live, hash, hole, next)
        decreases Dist(next, e)
      {
        ghost var t := entries[..][hole := EMPTY];
        assert t[next] == entries[next];
        if FallsBack(hash, entries[next].pointer, hole, next) {
          Shifted(t, live, hash, hole, next);
          entries[hole] := entries[next];
          assert entries[..][next := EMPTY] == t[hole := t[next]][next := EMPTY];
          hole := next;
        } else {
          Skipped(t, live, hash, hole, next);
        }
        next := Next(next);
      }
      ShiftEnds(entries[..][hole := EMPTY], live, hash, hole, next);
      entries[hole] := EMPTY;
    }

    // ----- the allocator's calls and the phases -----

    method Record(pointer: nat, bytes: nat)
      requires Valid()
      modifies this, entries
      ensures Valid() && Model() == old(Model()).Record(pointer, bytes)
    {
      hide Table, Total;
      if pointer == 0 && bytes == 0 {
        return;
      }
      if active {
        Add(pointer, bytes, offlineActive);
      }
    }

    /** The bookkeeping of a reallocation whose allocator call returned result. */
    method Realloc(pointer: nat, bytes: nat, result: nat)
      requires Valid()
      modifies this, entries
      ensures Valid() && Model() == old(Model()).Reallocate(pointer, bytes, result)
    {
      hide Table, Total, Found, State.Sane, State.Add, State.Remove, State.Observe;
      ReallocateSane(Model(), pointer, bytes, result);
      RunningFits(Model());
      var owned, wasOffline := false, false;
      if pointer != 0 {
        var slot := Find(pointer);
        FoundMeans(entries[..], live, hash, pointer, slot);
        owned := entries[slot].pointer != 0;
        wasOffline := entries[slot].offline;
      }
      var offline := offlineActive || (owned && wasOffline);
      if result == 0 {
        if pointer != 0 && bytes == 0 {
          Remove(pointer);
        } else if active {
          broken := true;
        }
        return;
      }
      if owned && result != pointer && active {
        Observe(bytes, offline);
      }
      if owned {
        Remove(pointer);
      }
      if active || owned {
        Add(result, bytes, offline);
      }
    }

    method Begin() returns (ok: bool)
      requires Valid()
      modifies this`peak, this`offlinePeak, this`onlinePeak, this`active, this`broken
      ensures Valid() && Model() == old(Model()).Begin() && ok == !old(active)
    {
      hide Table, Total;
      StepSane(Model(), Ledger.Begin);
      if active {
        broken := true;
        return false;
      }
      peak, offlinePeak, onlinePeak, active := current, 0, 0, true;
      return true;
    }

    method BeginOffline()
      requires Valid()
      modifies this`offlinePeak, this`offlineActive, this`broken
      ensures Valid() && Model() == old(Model()).BeginOffline()
    {
      hide Table, Total;
      StepSane(Model(), Ledger.BeginOffline);
      if !active || offlineActive || onlineActive {
        broken := true;
        return;
      }
      offlinePeak, offlineActive := offlineCurrent, true;
    }

    /** Ends the offline phase; reports its peak, and whether the measurement can be trusted. */
    method EndOffline() returns (ended: bool, reported: nat, trusted: bool)
      requires Valid()
      modifies this`offlineActive, this`broken
      ensures Valid() && Model() == old(Model()).EndOffline() && ended == old(active && offlineActive)
      ensures ended ==> reported == old(offlinePeak) && trusted == !old(broken)
    {
      hide Table, Total;
      if !active || !offlineActive {
        broken := true;
        return false, 0, false;
      }
      ended, reported, trusted := true, offlinePeak, !broken;
      offlineActive := false;
    }

    method BeginOnline()
      requires Valid()
      modifies this`onlinePeak, this`onlineActive, this`broken
      ensures Valid() && Model() == old(Model()).BeginOnline()
    {
      hide Table, Total;
      if !active || offlineActive || onlineActive {
        broken := true;
        return;
      }
      onlinePeak, onlineActive := current, true;
    }

    method EndOnline() returns (ended: bool, reported: nat, trusted: bool)
      requires Valid()
      modifies this`onlineActive, this`broken
      ensures Valid() && Model() == old(Model()).EndOnline() && ended == old(active && onlineActive)
      ensures ended ==> reported == old(onlinePeak) && trusted == !old(broken)
    {
      hide Table, Total;
      if !active || !onlineActive {
        broken := true;
        return false, 0, false;
      }
      ended, reported, trusted := true, onlinePeak, !broken;
      onlineActive := false;
    }

    method Fail()
      requires Valid()
      modifies this`broken
      ensures Valid() && Model() == old(Model()).Fail()
    {
      hide Table, Total;
      if active {
        broken := true;
      }
    }

    method Finish(completed: bool) returns (reported: nat, trusted: bool)
      requires Valid()
      modifies this`active, this`offlineActive, this`onlineActive
      ensures Valid() && Model() == old(Model()).Finish() && reported == peak
      ensures trusted == old(completed && !broken && !offlineActive && !onlineActive)
    {
      hide Table, Total;
      reported, trusted := peak, completed && !broken && !offlineActive && !onlineActive;
      active, offlineActive, onlineActive := false, false, false;
    }
  }

  lemma RunningFits(s: State)
    requires s.Sane()
    ensures s.Current() <= SIZE_MAX
  {
  }
}
