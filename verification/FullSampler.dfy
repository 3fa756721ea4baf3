/** FFOS_FR from the random coins to the samples: marking, frontier, controls on packed tapes, and the checked read. */
module FullSampler {
  import opened Lanes
  import opened PackedTape
  import opened PackedBits
  import opened Network
  import opened Sampling
  import opened Samplers
  import opened ReadPlan
  import opened CheckedRead
  import opened StoredRead
  import opened Marking
  import opened Flattening
  import Delivery
  import OptWrite
  import TapeWriter
  import StagedBoundary

  /** The bytes that hold so many selection bits. */
  function SpanBytes(bits: nat): nat {
    bits / 8 + if bits % 8 != 0 then 1 else 0
  }

  // ----- controls on tapes of the counted size -----

  /** A selection tape of the counted size, clear before it is written, holds the bits and zero padding. */
  lemma WholeSelection(s: seq<bv8>, s0: seq<bv8>, bits: seq<bool>)
    requires |s0| == SpanBytes(|bits|) && forall i :: 0 <= i < |s0| ==> s0[i] == 0
    requires OptWrite.TapeAt(s, 0, bits) && OptWrite.OnlyBits(s, s0, 0, |bits|)
    ensures StagedBoundary.Bits(s) == Padded(bits)
  {
    hide BitAt;
    var all := StagedBoundary.Bits(s);
    forall p | 0 <= p < |all| ensures all[p] == Padded(bits)[p] {
      if p < |bits| {
        assert BitsOf(s, 0, |bits|)[p] == BitAt(s, p);
      } else {
        ClearBit(s0, p);
      }
    }
  }

  lemma ClearBit(s: seq<bv8>, p: nat)
    requires p < 8 * |s| && forall i :: 0 <= i < |s| ==> s[i] == 0
    ensures !BitAt(s, p)
  {
  }

  lemma WholeSplice<T>(tape: seq<T>, run: seq<T>)
    requires |tape| == |run|
    ensures Splice(tape, 0, run) == run
  {
  }

  /**
   * Builds the controls on tapes of exactly the counted size: it succeeds exactly when every fork's weights fit, and
   * what the tapes then hold is the store of the functional writer.
   */
  method FFOS_FRControl(order: seq<bool> -> seq<nat>, frontier: seq<FrontierNode>, rows: seq<seq<bool>>, m: nat, k: nat)
    returns (ok: bool, swo: array<bv8>, ofr: PackedControls, plan: seq<PlanNode>)
    requires Compactor(order)
    ensures fresh(swo) && fresh(ofr) && ofr.Valid()
    ensures ok <==> 0 < m <= |rows| && 0 < k && CheckFrontier(frontier, |rows|, m, k)
                    && WriteNode(Mode(true, true), order, frontier, rows, m, k).Some?
    ensures ok ==> Store(StagedBoundary.Bits(swo[..]), ofr.Controls(), plan)
                   == StoreOf(Mode(true, true), frontier, |rows|, m, k,
                              WriteNode(Mode(true, true), order, frontier, rows, m, k).value)
  {
    hide WriteNode, CountNode, PlanOf, Compactor, Padded, StagedBoundary.Bits, PackedControls.Controls;
    var mode := Mode(true, true);
    if !(0 < m <= |rows| && 0 < k && CheckFrontier(frontier, |rows|, m, k)) {
      swo := new bv8[0];
      ofr := new PackedControls(0);
      return false, swo, ofr, [];
    }
    var counts := CountNode(mode, frontier, |rows|, m, k);
    swo := new bv8[SpanBytes(counts.swo)](_ => 0);
    ofr := new PackedControls(counts.ofr);
    ghost var s0, c0 := swo[..], ofr.Controls();
    var next;
    ok, next, plan := TapeWriter.FFOS_FRControlWrite(order, frontier, rows, m, k, mode, swo, ofr, Counts(0, 0));
    RoomForCounted(counts);
    if ok {
      var t := WriteNode(mode, order, frontier, rows, m, k).value;
      WholeSelection(swo[..], s0, t.swo);
      WholeSplice(c0, t.ofr);
      assert [] + PlanOf(mode, frontier, |rows|, m, k, 0) == PlanOf(mode, frontier, |rows|, m, k, 0);
    }
  }

  lemma RoomForCounted(counts: Counts)
    ensures TapeWriter.Room(Counts(0, 0), counts, 8 * SpanBytes(counts.swo), counts.ofr)
  {
  }

  // ----- applying built controls -----

  /** Reads controls whose tapes have exactly the counted size, into an output of m records a sample. */
  function FFOS_FRApply<R>(s: Store, order: seq<bool> -> seq<nat>, frontier: seq<FrontierNode>, recs: seq<R>, m: nat,
                           k: nat): Option<seq<R>>
    requires Compactor(order)
  {
    if !(0 < m <= |recs| && 0 < k && CheckFrontier(frontier, |recs|, m, k)) then None
    else
      var counts := CountNode(Mode(true, true), frontier, |recs|, m, k);
      if |s.swo| != 8 * SpanBytes(counts.swo) || |s.ofr| != counts.ofr then None
      else
        match FFOS_FRControlRead(s, true, order, frontier, recs, m, k, Counts(0, 0), m * k)
        case None => None
        case Some(r) => if |r.out| != m * k || r.at.at != counts then None else Some(r.out)
  }

  /**
   * Controls are applied exactly when the dimensions and the frontier pass, both tapes have exactly the counted size,
   * and the plan, where there is one, records exactly the counted nodes.
   */
  lemma ApplyDecided<R>(s: Store, order: seq<bool> -> seq<nat>, frontier: seq<FrontierNode>, recs: seq<R>, m: nat,
                        k: nat)
    requires Compactor(order)
    ensures FFOS_FRApply(s, order, frontier, recs, m, k).Some? <==>
              && 0 < m <= |recs| && 0 < k && CheckFrontier(frontier, |recs|, m, k)
              && var mode, n := Mode(true, true), |recs|;
                 var counts, expected := CountNode(mode, frontier, n, m, k), PlanOf(mode, frontier, n, m, k, 0);
                 && |s.swo| == 8 * SpanBytes(counts.swo) && |s.ofr| == counts.ofr
                 && (s.plan == [] || (|s.plan| == |expected| && PlanMatches(s.plan, 0, expected)))
  {
    hide CountNode, PlanOf, Compactor, FFOS_FRControlRead, ValidateReadPlanNode, CheckFrontier, PlanMatches;
    if 0 < m <= |recs| && 0 < k && CheckFrontier(frontier, |recs|, m, k) {
      ReadDecidedUpFront(s, true, order, frontier, recs, m, k, Counts(0, 0), m * k);
      PreflightExact(s.Sizes(), Mode(true, true), frontier, |recs|, m, k, Progress(Counts(0, 0), 0));
    }
  }

  /** The output holds each sample's records in the sample's own slice. */
  ghost predicate Serves<R>(out: seq<R>, items: seq<Item<R>>, m: nat, k: nat) {
    |out| == m * k && forall j :: 0 <= j < k ==> SliceServes(out, items, m, j)
  }

  ghost predicate SliceServes<R>(out: seq<R>, items: seq<Item<R>>, m: nat, j: nat) {
    m * j + m <= |out| && multiset(out[m * j..m * j + m]) == Sample(items, j)
  }

  /** Built controls are applied without a failing check and serve every sample. */
  lemma BuiltControlsServe<R>(order: seq<bool> -> seq<nat>, frontier: seq<FrontierNode>, items: seq<Item<R>>, m: nat,
                              k: nat)
    requires Compactor(order) && Delivery.Ready(items, m, k) && CheckFrontier(frontier, |items|, m, k)
    ensures var mode := Mode(true, true);
            var w := WriteNode(mode, order, frontier, Rows(items), m, k);
            && w.Some?
            && var out := FFOS_FRApply(StoreOf(mode, frontier, |items|, m, k, w.value), order, frontier, Recs(items),
                                       m, k);
               out.Some? && Serves(out.value, items, m, k)
  {
    hide Sample, Marked, WriteNode, ReadNode, CountNode, Compactor, FFOS_FRControlRead, Flatten, Rows, Recs, Padded,
         PlanOf;
    var mode := Mode(true, true);
    StoredControlsDeliver(true, order, frontier, items, m, k, m * k);
    Delivery.FFOS_FRDelivers(true, order, frontier, items, m, k);
    var t := WriteNode(mode, order, frontier, Rows(items), m, k).value;
    StoredControlsAreRead(mode, order, frontier, Recs(items), m, k, t, m * k);
    PaddedSize(t.swo);
  }

  lemma PaddedSize(bits: seq<bool>)
    ensures |Padded(bits)| == 8 * SpanBytes(|bits|)
  {
  }

  // ----- from the coins to the samples -----

  function WithRows<R>(rows: seq<seq<bool>>, recs: seq<R>): (items: seq<Item<R>>)
    requires |rows| == |recs|
    ensures Rows(items) == rows && Recs(items) == recs
  {
    seq(|recs|, i requires 0 <= i < |recs| => Item(rows[i], recs[i]))
  }

  lemma {:induction false} SampleIsColumn<R>(items: seq<Item<R>>, j: nat)
    ensures Sample(items, j) == Bag(Column(Rows(items), j), Recs(items))
  {
    if items != [] {
      SampleIsColumn(items[1..], j);
      assert Rows(items)[1..] == Rows(items[1..]) && Recs(items)[1..] == Recs(items[1..]);
      assert Column(Rows(items), j)[1..] == Column(Rows(items[1..]), j);
    }
  }

  /** Sample j of m records: those its own coins mark. */
  ghost predicate Drawn<R>(out: seq<R>, data: seq<R>, m: nat, k: nat, coin: (nat, nat) -> nat) {
    |out| == m * k && forall j :: 0 <= j < k ==> SliceDrawn(out, data, m, j, coin)
  }

  ghost predicate SliceDrawn<R>(out: seq<R>, data: seq<R>, m: nat, j: nat, coin: (nat, nat) -> nat) {
    && m * j + m <= |out|
    && var coins := ColumnCoins(coin, |data|, 0, j);
       var marks := MarkColumn(m, coins);
       CoinsMark(marks, coins, m) && multiset(out[m * j..m * j + m]) == Bag(marks, data)
  }

  /**
   * FFOS_FR: below 2^32 records a sample, every coin sequence and every selected-first compaction give k samples, each
   * of exactly the m records its own coins mark, in a slice of its own; an empty input or request gives none.
   */
  method FFOS_FR<R>(data: seq<R>, request: nat, k: nat, coin: (nat, nat) -> nat, order: seq<bool> -> seq<nat>)
    returns (out: Option<seq<R>>, m: nat)
    requires Compactor(order) && forall i, j :: coin(i, j) < COINS
    ensures m == if request > |data| then |data| else request
    ensures m == 0 || k == 0 ==> out == Some([])
    ensures 0 < m < COINS && 0 < k ==> out.Some? && Drawn(out.value, data, m, k, coin)
  {
    hide Compactor, WriteNode, StagedBoundary.Bits, MarkColumn, FFOS_FRApply, StoreOf, Serves, Drawn, Column,
         PackedControls.Controls, CountNode;
    var n := |data|;
    m := if request > n then n else request;
    if m == 0 || k == 0 {
      return Some([]), m;
    }
    var frontier := [];
    if m * k > n {
      var ok;
      ok, frontier := FFOS_CFrontier(n, m, k);
    }
    var rows, marked := FFOS_CMark(n, m, k, coin);
    ghost var items := WithRows(rows, data);
    var ok, swo, ofr, plan := FFOS_FRControl(order, frontier, rows, m, k);
    if m < COINS {
      BuiltControlsServe(order, frontier, items, m, k);
    }
    if !ok {
      return None, m;
    }
    var store := Store(StagedBoundary.Bits(swo[..]), ControlsOf(GatesOf(ofr.bytes, ofr.count)), plan);
    assert store.ofr == ofr.Controls() by { HoldsControls(ofr); }
    out := FFOS_FRApply(store, order, frontier, data, m, k);
    if m < COINS {
      DrawnFromColumns(out.value, items, m, k, coin);
    }
  }

  lemma HoldsControls(ofr: PackedControls)
    requires ofr.Valid()
    ensures ofr.Controls() == ControlsOf(GatesOf(ofr.bytes, ofr.count))
  {
  }

  lemma DrawnFromColumns<R>(out: seq<R>, items: seq<Item<R>>, m: nat, k: nat, coin: (nat, nat) -> nat)
    requires Serves(out, items, m, k)
    requires forall j :: 0 <= j < k ==>
               Marked(Rows(items), j) == m && Column(Rows(items), j) == MarkColumn(m, ColumnCoins(coin, |items|, 0, j))
    requires 0 < m <= |items| && m < COINS && forall i, j :: coin(i, j) < COINS
    ensures Drawn(out, Recs(items), m, k, coin)
  {
    hide Sample, MarkColumn, Column, CoinsMark;
    forall j | 0 <= j < k ensures SliceDrawn(out, Recs(items), m, j, coin) {
      assert SliceServes(out, items, m, j);
      SampleIsColumn(items, j);
      ColumnOfCoins(m, ColumnCoins(coin, |items|, 0, j));
    }
  }
}
