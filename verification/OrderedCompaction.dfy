/** The order-preserving compaction network: selected records move to the front in their original order. */
module OrderedCompaction {
  import opened Products
  import opened Lanes
  import opened Powers
  import opened Sampling

  /** Selected records before position k: where the record at k must end. */
  function Rank(sel: seq<bool>, k: nat): nat
    requires k <= |sel|
  {
    Count(sel[..k])
  }

  lemma RankStep(sel: seq<bool>, k: nat)
    requires k < |sel|
    ensures Rank(sel, k + 1) == Rank(sel, k) + Bit(sel[k])
  {
    CountAppend(sel[..k], [sel[k]]);
    assert sel[..k + 1] == sel[..k] + [sel[k]];
    assert Count([sel[k]]) == Bit(sel[k]) + Count([sel[k]][1..]);
  }

  lemma {:induction false} RankBound(sel: seq<bool>, k: nat)
    requires k <= |sel|
    ensures Rank(sel, k) <= k
  {
    CountBounds(sel[..k]);
  }

  /** Ranks grow by at least one over a selected record, and by no more than the distance. */
  lemma {:induction false} RankOrder(sel: seq<bool>, k: nat, k': nat)
    requires k <= k' <= |sel|
    ensures Rank(sel, k) <= Rank(sel, k') <= Rank(sel, k) + (k' - k)
    ensures k < k' && sel[k] ==> Rank(sel, k) < Rank(sel, k')
  {
    if k < k' {
      RankOrder(sel, k, k' - 1);
      RankStep(sel, k' - 1);
      if k == k' - 1 {
        RankStep(sel, k);
      }
    }
  }

  /** How far the record at k must shift left. */
  function Shift(sel: seq<bool>, k: nat): nat
    requires k <= |sel|
  {
    RankBound(sel, k);
    k - Rank(sel, k)
  }

  /** d with its remainder by p dropped. */
  function Rounded(d: nat, p: nat): nat
    requires 0 < p
  {
    (d / p) * p
  }

  /** Where the record at k stands when the levels below l have run: its low shift bits are done. */
  function Stand(sel: seq<bool>, k: nat, l: nat): nat
    requires k <= |sel|
  {
    Rank(sel, k) + Rounded(Shift(sel, k), Pow2(l))
  }

  lemma DivOrder(x: nat, y: nat, p: nat)
    requires 0 < p && x <= y
    ensures Rounded(x, p) <= Rounded(y, p) <= y
  {
    assert y == (y / p) * p + y % p;
    assert x == (x / p) * p + x % p;
    if x / p > y / p {
      Monotone(y / p + 1, x / p, p);
    }
    Monotone(x / p, y / p, p);
  }

  /** Two selected records never stand in the same place. */
  lemma StandOrder(sel: seq<bool>, k: nat, k': nat, l: nat)
    requires k < k' < |sel| && sel[k]
    ensures Stand(sel, k, l) < Stand(sel, k', l)
  {
    RankOrder(sel, k, k');
    DivOrder(Shift(sel, k), Shift(sel, k'), Pow2(l));
  }

  lemma StandBound(sel: seq<bool>, k: nat, l: nat)
    requires k <= |sel|
    ensures Rank(sel, k) <= Stand(sel, k, l) <= k
  {
    hide Rounded;
    DivOrder(Shift(sel, k), Shift(sel, k), Pow2(l));
    RankBound(sel, k);
  }

  /** One level: a record whose shift has bit l moves 2^l to the left, the others stay. */
  lemma StandStep(sel: seq<bool>, k: nat, l: nat)
    requires k <= |sel|
    ensures Stand(sel, k, l + 1) == Stand(sel, k, l) - if (Shift(sel, k) / Pow2(l)) % 2 == 1 then Pow2(l) else 0
    ensures ((Stand(sel, k, l) - Rank(sel, k)) / Pow2(l)) % 2 == (Shift(sel, k) / Pow2(l)) % 2
  {
    HalveQuotient(Shift(sel, k), Pow2(l));
    var q, p := Shift(sel, k) / Pow2(l), Pow2(l);
    assert (q * p) / p == q by {
      Exact(q, p);
    }
    TwiceHalf(q, p);
  }

  lemma Exact(q: nat, p: nat)
    requires 0 < p
    ensures (q * p) / p == q
  {
    var x := q * p;
    assert x == (x / p) * p + x % p;
    if x / p < q {
      Monotone(x / p + 1, q, p);
    } else if q < x / p {
      Monotone(q + 1, x / p, p);
    }
  }

  lemma TwiceHalf(q: nat, p: nat)
    ensures (q / 2) * (2 * p) == q * p - if q % 2 == 1 then p else 0
  {
    var h := q / 2;
    assert q == 2 * h + q % 2;
    assert h * (2 * p) == (2 * h) * p;
    assert (2 * h + q % 2) * p == (2 * h) * p + (q % 2) * p;
  }

  lemma HalveQuotient(x: nat, p: nat)
    requires 0 < p
    ensures x / (2 * p) == (x / p) / 2
  {
    var q, r := x / p, x % p;
    assert x == q * p + r;
    TwiceHalf(q, p);
    var h := q / 2;
    var rest := x - h * (2 * p);
    assert 0 <= rest < 2 * p;
    Quotient(h, rest, 2 * p);
  }

  // ----- the state of the network -----

  /** Where the record that started at k is, when level l has processed the stands below done. */
  function PlaceOf(sel: seq<bool>, k: nat, l: nat, done: nat): nat
    requires k <= |sel|
  {
    if Stand(sel, k, l) < done then Stand(sel, k, l + 1) else Stand(sel, k, l)
  }

  ghost predicate Placed<R>(buf: seq<R>, dist: seq<nat>, buf0: seq<R>, sel: seq<bool>, k: nat, l: nat, done: nat)
    requires |buf| == |dist| == |buf0| == |sel| && k < |sel|
  {
    var p := PlaceOf(sel, k, l, done);
    p <= k && buf[p] == buf0[k] && Rank(sel, k) <= p && dist[p] == p - Rank(sel, k)
  }

  ghost predicate Holder(sel: seq<bool>, l: nat, done: nat, p: nat, k: nat) {
    k < |sel| && sel[k] && PlaceOf(sel, k, l, done) == p
  }

  ghost predicate Owed(sel: seq<bool>, l: nat, done: nat, p: nat) {
    exists k :: Holder(sel, l, done, p, k)
  }

  /** Every selected record is where its level says, with the shift it still owes; no other place owes a shift. */
  ghost predicate Network<R>(buf: seq<R>, dist: seq<nat>, buf0: seq<R>, sel: seq<bool>, l: nat, done: nat) {
    && |buf| == |dist| == |buf0| == |sel| && multiset(buf) == multiset(buf0)
    && (forall k :: 0 <= k < |sel| && sel[k] ==> Placed(buf, dist, buf0, sel, k, l, done))
    && forall p :: 0 <= p < |dist| && dist[p] != 0 ==> Owed(sel, l, done, p)
  }

  /** Bitwise and with a power of two. */
  function MaskBit(d: nat, p: nat): nat
    requires 0 < p
  {
    if (d / p) % 2 == 1 then p else 0
  }

  lemma StandMask(sel: seq<bool>, k: nat, l: nat)
    requires k <= |sel|
    ensures Rank(sel, k) <= Stand(sel, k, l) <= k
    ensures Stand(sel, k, l + 1) == Stand(sel, k, l) - MaskBit(Stand(sel, k, l) - Rank(sel, k), Pow2(l))
  {
    hide Rank, Shift;
    StandBound(sel, k, l);
    StandStep(sel, k, l);
  }

  lemma SameStand(sel: seq<bool>, k: nat, k': nat, l: nat)
    requires k < |sel| && k' < |sel| && sel[k] && sel[k'] && Stand(sel, k, l) == Stand(sel, k', l)
    ensures k == k'
  {
    hide Stand;
    if k < k' {
      StandOrder(sel, k, k', l);
    } else if k' < k {
      StandOrder(sel, k', k, l);
    }
  }

  /**
   * A record that is not the one standing at done is untouched by this step, and stands neither there nor at its
   * target.
   */
  lemma Bystander(sel: seq<bool>, k: nat, k': nat, l: nat, done: nat)
    requires k < |sel| && k' < |sel| && sel[k] && sel[k'] && k != k' && Pow2(l) <= done
    requires Stand(sel, k, l) == done
    ensures PlaceOf(sel, k', l, done + 1) == PlaceOf(sel, k', l, done) != done
    ensures Stand(sel, k, l + 1) != done ==> PlaceOf(sel, k', l, done) != Stand(sel, k, l + 1)
  {
    hide Stand;
    StandMask(sel, k', l);
    StandMask(sel, k, l);
    if Stand(sel, k', l) == done {
      SameStand(sel, k, k', l);
    }
    if Stand(sel, k', l + 1) == Stand(sel, k, l + 1) {
      SameStand(sel, k, k', l + 1);
    }
  }

  /** The record at a place that owes its level's bit is the one standing there. */
  lemma HolderStands(sel: seq<bool>, k: nat, l: nat, done: nat)
    requires Holder(sel, l, done, done, k)
    ensures Stand(sel, k, l) == done
  {
    hide Stand;
    StandMask(sel, k, l);
  }

  /**
   * One comparator: either nothing stands at its second place that owes bit l, or that record moves, and no other is
   * hit.
   */
  lemma ComparatorStep<R>(buf: seq<R>, dist: seq<nat>, buf0: seq<R>, sel: seq<bool>, l: nat, done: nat)
    requires Network(buf, dist, buf0, sel, l, done) && Pow2(l) <= done < |sel|
    ensures var fop, move := done - Pow2(l), MaskBit(dist[done], Pow2(l));
            && move <= dist[done]
            && (move == 0 ==> Network(buf, dist, buf0, sel, l, done + 1))
            && (move != 0 ==>
                  Network(buf[fop := buf[done]][done := buf[fop]], dist[fop := dist[done] - move][done := 0], buf0, sel,
                          l, done + 1))
  {
    hide Stand, Rank, Count;
    var p := Pow2(l);
    MaskFits(dist[done], p);
    if MaskBit(dist[done], p) == 0 {
      StayStep(buf, dist, buf0, sel, l, done);
    } else {
      assert Owed(sel, l, done, done);
      var k :| Holder(sel, l, done, done, k);
      HolderStands(sel, k, l, done);
      MoveStep(buf, dist, buf0, sel, l, done, k);
    }
  }

  lemma MaskFits(d: nat, p: nat)
    requires 0 < p
    ensures MaskBit(d, p) <= d && (d == 0 ==> MaskBit(d, p) == 0)
  {
    if d < p {
      Quotient(0, d, p);
    }
  }

  lemma StayStep<R>(buf: seq<R>, dist: seq<nat>, buf0: seq<R>, sel: seq<bool>, l: nat, done: nat)
    requires Network(buf, dist, buf0, sel, l, done) && done < |sel| && MaskBit(dist[done], Pow2(l)) == 0
    ensures Network(buf, dist, buf0, sel, l, done + 1)
  {
    hide Stand, Rank, MaskBit;
    var next := done + 1;
    forall k | 0 <= k < |sel| && sel[k] ensures PlaceOf(sel, k, l, next) == PlaceOf(sel, k, l, done) {
      assert Placed(buf, dist, buf0, sel, k, l, done);
      StandMask(sel, k, l);
    }
    forall p | 0 <= p < |dist| && dist[p] != 0 ensures Owed(sel, l, next, p) {
      assert Owed(sel, l, done, p);
      var k :| Holder(sel, l, done, p, k);
      assert Holder(sel, l, next, p, k);
    }
    forall k | 0 <= k < |sel| && sel[k] ensures Placed(buf, dist, buf0, sel, k, l, next) {
      assert Placed(buf, dist, buf0, sel, k, l, done);
    }
  }

  lemma MoveStep<R>(buf: seq<R>, dist: seq<nat>, buf0: seq<R>, sel: seq<bool>, l: nat, done: nat, k: nat)
    requires Network(buf, dist, buf0, sel, l, done) && Pow2(l) <= done < |sel| && k < |sel| && sel[k]
    requires Stand(sel, k, l) == done && MaskBit(dist[done], Pow2(l)) == Pow2(l) <= dist[done]
    ensures var fop := done - Pow2(l);
            Network(buf[fop := buf[done]][done := buf[fop]], dist[fop := dist[done] - Pow2(l)][done := 0], buf0, sel, l,
                    done + 1)
  {
    hide Stand, Rank, MaskBit, Pow2;
    var fop, next := done - Pow2(l), done + 1;
    var buf', dist' := buf[fop := buf[done]][done := buf[fop]], dist[fop := dist[done] - Pow2(l)][done := 0];
    assert Placed(buf, dist, buf0, sel, k, l, done);
    StandMask(sel, k, l);
    assert PlaceOf(sel, k, l, next) == fop;
    forall k' | 0 <= k' < |sel| && sel[k'] ensures Placed(buf', dist', buf0, sel, k', l, next) {
      assert Placed(buf, dist, buf0, sel, k', l, done);
      if k' != k {
        Bystander(sel, k, k', l, done);
      }
    }
    forall p | 0 <= p < |dist'| && dist'[p] != 0 ensures Owed(sel, l, next, p) {
      if p == fop {
        assert Holder(sel, l, next, p, k);
      } else {
        assert Owed(sel, l, done, p);
        var k' :| Holder(sel, l, done, p, k');
        if k' != k {
          Bystander(sel, k, k', l, done);
        }
        assert Holder(sel, l, next, p, k');
      }
    }
    SwapBag(buf, fop, done);
  }

  lemma SwapBag<R>(buf: seq<R>, i: nat, j: nat)
    requires i < |buf| && j < |buf|
    ensures multiset(buf[i := buf[j]][j := buf[i]]) == multiset(buf)
  {
  }

  /** Below 2^l nothing owes bit l, so a level may start at its first comparator. */
  lemma LevelStarts<R>(buf: seq<R>, dist: seq<nat>, buf0: seq<R>, sel: seq<bool>, l: nat)
    requires Network(buf, dist, buf0, sel, l, 0)
    ensures Network(buf, dist, buf0, sel, l, Pow2(l))
  {
    hide Stand, Rank;
    var p := Pow2(l);
    forall k | 0 <= k < |sel| && sel[k] ensures PlaceOf(sel, k, l, p) == PlaceOf(sel, k, l, 0) {
      StandMask(sel, k, l);
      if Stand(sel, k, l) < p {
        SmallMask(Stand(sel, k, l) - Rank(sel, k), p);
      }
    }
    SameAt(buf, dist, buf0, sel, l, 0, l, p);
  }

  lemma SmallMask(d: nat, p: nat)
    requires d < p
    ensures MaskBit(d, p) == 0
  {
    Quotient(0, d, p);
  }

  /** Equal places, equal state. */
  lemma SameAt<R>(buf: seq<R>, dist: seq<nat>, buf0: seq<R>, sel: seq<bool>, l: nat, done: nat, l': nat, done': nat)
    requires Network(buf, dist, buf0, sel, l, done)
    requires forall k :: 0 <= k < |sel| && sel[k] ==> PlaceOf(sel, k, l', done') == PlaceOf(sel, k, l, done)
    ensures Network(buf, dist, buf0, sel, l', done')
  {
    hide PlaceOf, Rank;
    forall k | 0 <= k < |sel| && sel[k] ensures Placed(buf, dist, buf0, sel, k, l', done') {
      assert Placed(buf, dist, buf0, sel, k, l, done);
    }
    forall p | 0 <= p < |dist| && dist[p] != 0 ensures Owed(sel, l', done', p) {
      assert Owed(sel, l, done, p);
      var k :| Holder(sel, l, done, p, k);
      assert Holder(sel, l', done', p, k);
    }
  }

  /** When a level has processed every stand the next one may start. */
  lemma LevelEnds<R>(buf: seq<R>, dist: seq<nat>, buf0: seq<R>, sel: seq<bool>, l: nat)
    requires Network(buf, dist, buf0, sel, l, |sel|)
    ensures Network(buf, dist, buf0, sel, l + 1, 0)
  {
    hide Stand, Rank;
    forall k | 0 <= k < |sel| && sel[k] ensures PlaceOf(sel, k, l + 1, 0) == PlaceOf(sel, k, l, |sel|) {
      StandMask(sel, k, l);
    }
    SameAt(buf, dist, buf0, sel, l, |sel|, l + 1, 0);
  }

  /** Before the first level every record stands where it was and owes its whole shift. */
  lemma NetworkStarts<R>(buf: seq<R>, dist: seq<nat>, sel: seq<bool>)
    requires |buf| == |dist| == |sel|
    requires forall k :: 0 <= k < |sel| ==> dist[k] == if sel[k] then Shift(sel, k) else 0
    ensures Network(buf, dist, buf, sel, 0, 0)
  {
    forall k | 0 <= k < |sel| ensures PlaceOf(sel, k, 0, 0) == k && Rank(sel, k) <= k {
      RankBound(sel, k);
      assert Shift(sel, k) / 1 == Shift(sel, k);
    }
    forall k | 0 <= k < |sel| && sel[k] ensures Placed(buf, dist, buf, sel, k, 0, 0) {
    }
    forall p | 0 <= p < |dist| && dist[p] != 0 ensures Owed(sel, 0, 0, p) {
      assert Holder(sel, 0, 0, p, p);
    }
  }

  /** The record of every rank. */
  lemma {:induction false} Ranked(sel: seq<bool>, r: nat, n: nat) returns (k: nat)
    requires n <= |sel| && r < Rank(sel, n)
    ensures k < n && sel[k] && Rank(sel, k) == r
  {
    RankBound(sel, n);
    if n == 0 {
      assert false;
    } else {
      RankStep(sel, n - 1);
      if r < Rank(sel, n - 1) {
        k := Ranked(sel, r, n - 1);
      } else {
        k := n - 1;
      }
    }
  }

  lemma {:induction false} FilterAt<T>(sel: seq<bool>, xs: seq<T>, k: nat)
    requires |sel| == |xs| && k < |sel| && sel[k]
    ensures |Filter(sel, xs)| == Count(sel) && Rank(sel, k) < Count(sel) && Filter(sel, xs)[Rank(sel, k)] == xs[k]
    decreases |sel|
  {
    FilterSize(sel, xs);
    if k > 0 {
      FilterAt(sel[1..], xs[1..], k - 1);
      assert sel[..k] == [sel[0]] + sel[1..][..k - 1] && sel[..k][1..] == sel[1..][..k - 1];
    } else {
      assert sel[..0] == [];
    }
  }

  lemma {:induction false} FilterSize<T>(sel: seq<bool>, xs: seq<T>)
    requires |sel| == |xs|
    ensures |Filter(sel, xs)| == Count(sel)
  {
    if sel != [] {
      FilterSize(sel[1..], xs[1..]);
    }
  }

  /** After enough levels every shift is done: the selected records lead, in order, and no place owes a shift. */
  lemma NetworkEnds<R>(buf: seq<R>, dist: seq<nat>, buf0: seq<R>, sel: seq<bool>, l: nat)
    requires Network(buf, dist, buf0, sel, l, 0) && |sel| <= Pow2(l)
    ensures Count(sel) <= |sel| && buf[..Count(sel)] == Filter(sel, buf0)
    ensures forall p :: 0 <= p < |dist| ==> dist[p] == 0
  {
    hide Filter;
    CountBounds(sel);
    FilterSize(sel, buf0);
    assert sel[..|sel|] == sel;
    forall k | 0 <= k < |sel| && sel[k] ensures PlaceOf(sel, k, l, 0) == Rank(sel, k) {
      RankBound(sel, k);
      Quotient(0, Shift(sel, k), Pow2(l));
    }
    forall r | 0 <= r < Count(sel) ensures buf[r] == Filter(sel, buf0)[r] {
      var k := Ranked(sel, r, |sel|);
      assert Placed(buf, dist, buf0, sel, k, l, 0);
      FilterAt(sel, buf0, k);
    }
    forall p | 0 <= p < |dist| && Owed(sel, l, 0, p) ensures dist[p] == 0 {
      var k :| Holder(sel, l, 0, p, k);
      assert Placed(buf, dist, buf0, sel, k, l, 0);
    }
  }

  // ----- the network as a function -----

  /** Records, and the shift each place owes. */
  datatype Lines<R> = Lines(buf: seq<R>, dist: seq<nat>)

  /** A comparator of span p: the record behind moves to the front when the shift it owes has the span's bit. */
  function Compare<R>(s: Lines<R>, sop: nat, p: nat): (r: Lines<R>)
    requires 0 < p <= sop < |s.buf| == |s.dist|
    ensures |r.buf| == |r.dist| == |s.buf|
  {
    var fop, move := sop - p, MaskBit(s.dist[sop], p);
    MaskFits(s.dist[sop], p);
    if move == 0 then s
    else Lines(s.buf[fop := s.buf[sop]][sop := s.buf[fop]], s.dist[fop := s.dist[sop] - move][sop := 0])
  }

  /** The comparators of one level, from the one whose second place is sop on. */
  function LevelFrom<R>(s: Lines<R>, p: nat, sop: nat): (r: Lines<R>)
    requires 0 < p <= sop && |s.buf| == |s.dist|
    ensures |r.buf| == |r.dist| == |s.buf|
    decreases |s.buf| - sop
  {
    if sop >= |s.buf| then s else LevelFrom(Compare(s, sop, p), p, sop + 1)
  }

  function LevelsFrom<R>(s: Lines<R>, l: nat, levels: nat): (r: Lines<R>)
    requires |s.buf| == |s.dist|
    ensures |r.buf| == |r.dist| == |s.buf|
    decreases levels - l
  {
    if l >= levels then s else LevelsFrom(LevelFrom(s, Pow2(l), Pow2(l)), l + 1, levels)
  }

  /** The least exponent from l on whose power of two is not below n. */
  function LevelCount(n: nat, l: nat): (levels: nat)
    requires l > 0 ==> Pow2(l - 1) < n
    ensures n <= Pow2(levels) && (levels > 0 ==> Pow2(levels - 1) < n)
    decreases n - Pow2(l)
  {
    if n <= Pow2(l) then l else LevelCount(n, l + 1)
  }

  function Shifts(sel: seq<bool>): (dist: seq<nat>)
    ensures |dist| == |sel|
  {
    seq(|sel|, k requires 0 <= k < |sel| => if sel[k] then Shift(sel, k) else 0)
  }

  /** The whole network over records. */
  function NetworkOn<R>(sel: seq<bool>, xs: seq<R>): (r: Lines<R>)
    requires |sel| == |xs|
    ensures |r.buf| == |r.dist| == |xs|
  {
    LevelsFrom(Lines(xs, Shifts(sel)), 0, LevelCount(|sel|, 0))
  }

  lemma {:induction false} LevelKeeps<R>(s: Lines<R>, buf0: seq<R>, sel: seq<bool>, l: nat, sop: nat)
    requires Network(s.buf, s.dist, buf0, sel, l, sop) && Pow2(l) <= sop <= |sel|
    ensures |s.buf| == |s.dist|
    ensures var r := LevelFrom(s, Pow2(l), sop); Network(r.buf, r.dist, buf0, sel, l, |sel|)
    decreases |sel| - sop
  {
    hide Network;
    SizesOf(s.buf, s.dist, buf0, sel, l, sop);
    if sop < |sel| {
      ComparatorStep(s.buf, s.dist, buf0, sel, l, sop);
      LevelKeeps(Compare(s, sop, Pow2(l)), buf0, sel, l, sop + 1);
    }
  }

  lemma {:induction false} LevelsKeep<R>(s: Lines<R>, buf0: seq<R>, sel: seq<bool>, l: nat, levels: nat)
    requires Network(s.buf, s.dist, buf0, sel, l, 0) && l <= levels && (levels > 0 ==> Pow2(levels - 1) < |sel|)
    ensures |s.buf| == |s.dist|
    ensures var r := LevelsFrom(s, l, levels); Network(r.buf, r.dist, buf0, sel, levels, 0)
    decreases levels - l
  {
    hide Network;
    SizesOf(s.buf, s.dist, buf0, sel, l, 0);
    if l < levels {
      BelowLast(l, levels, |sel|);
      LevelStarts(s.buf, s.dist, buf0, sel, l);
      LevelKeeps(s, buf0, sel, l, Pow2(l));
      var r := LevelFrom(s, Pow2(l), Pow2(l));
      LevelEnds(r.buf, r.dist, buf0, sel, l);
      LevelsKeep(r, buf0, sel, l + 1, levels);
    }
  }

  /** The network puts the selected records first, in their original order, loses none, and spends every shift. */
  lemma NetworkCompacts<R>(sel: seq<bool>, xs: seq<R>)
    requires |sel| == |xs|
    ensures Count(sel) <= |sel| && NetworkOn(sel, xs).buf[..Count(sel)] == Filter(sel, xs)
    ensures multiset(NetworkOn(sel, xs).buf) == multiset(xs)
    ensures forall p :: 0 <= p < |xs| ==> NetworkOn(sel, xs).dist[p] == 0
  {
    hide Network, LevelsFrom, Filter;
    var s, levels := Lines(xs, Shifts(sel)), LevelCount(|sel|, 0);
    NetworkStarts(s.buf, s.dist, sel);
    LevelsKeep(s, xs, sel, 0, levels);
    var r := NetworkOn(sel, xs);
    NetworkEnds(r.buf, r.dist, xs, sel, levels);
    BagOf(r.buf, r.dist, xs, sel, levels, 0);
  }

  // ----- the network as an order -----

  /** Where the network takes the record of each place from: a function of the flags alone. */
  function NetworkOrder(flags: seq<bool>): seq<nat> {
    NetworkOn(flags, Range(|flags|)).buf
  }

  ghost predicate InBounds(p: seq<nat>, n: nat) {
    forall i :: 0 <= i < |p| ==> p[i] < n
  }

  /** The same lines with the records themselves in place of their positions. */
  function WithRecords<R>(s: Lines<nat>, xs: seq<R>): Lines<R>
    requires InBounds(s.buf, |xs|)
  {
    Lines(Gather(s.buf, xs), s.dist)
  }

  lemma CompareMoves<R>(s: Lines<nat>, xs: seq<R>, sop: nat, p: nat)
    requires InBounds(s.buf, |xs|) && 0 < p <= sop < |s.buf| == |s.dist|
    ensures InBounds(Compare(s, sop, p).buf, |xs|)
    ensures Compare(WithRecords(s, xs), sop, p) == WithRecords(Compare(s, sop, p), xs)
  {
    hide MaskBit;
    var fop := sop - p;
    var moved := s.buf[fop := s.buf[sop]][sop := s.buf[fop]];
    assert Gather(moved, xs) == Gather(s.buf, xs)[fop := xs[s.buf[sop]]][sop := xs[s.buf[fop]]];
  }

  lemma {:induction false} LevelMoves<R>(s: Lines<nat>, xs: seq<R>, p: nat, sop: nat)
    requires InBounds(s.buf, |xs|) && 0 < p <= sop && |s.buf| == |s.dist|
    ensures InBounds(LevelFrom(s, p, sop).buf, |xs|)
    ensures LevelFrom(WithRecords(s, xs), p, sop) == WithRecords(LevelFrom(s, p, sop), xs)
    decreases |s.buf| - sop
  {
    hide Compare;
    if sop < |s.buf| {
      CompareMoves(s, xs, sop, p);
      LevelMoves(Compare(s, sop, p), xs, p, sop + 1);
    }
  }

  lemma {:induction false} LevelsMove<R>(s: Lines<nat>, xs: seq<R>, l: nat, levels: nat)
    requires InBounds(s.buf, |xs|) && |s.buf| == |s.dist|
    ensures InBounds(LevelsFrom(s, l, levels).buf, |xs|)
    ensures LevelsFrom(WithRecords(s, xs), l, levels) == WithRecords(LevelsFrom(s, l, levels), xs)
    decreases levels - l
  {
    hide LevelFrom;
    if l < levels {
      LevelMoves(s, xs, Pow2(l), Pow2(l));
      LevelsMove(LevelFrom(s, Pow2(l), Pow2(l)), xs, l + 1, levels);
    }
  }

  /** The network moves records of any kind by its order. */
  lemma NetworkByOrder<R>(sel: seq<bool>, xs: seq<R>)
    requires |sel| == |xs|
    ensures InBounds(NetworkOrder(sel), |xs|) && NetworkOn(sel, xs).buf == Gather(NetworkOrder(sel), xs)
  {
    hide LevelsFrom;
    var s := Lines(Range(|sel|), Shifts(sel));
    LevelsMove(s, xs, 0, LevelCount(|sel|, 0));
    assert Gather(Range(|xs|), xs) == xs;
  }

  /** The network meets the contract that the samplers ask of a compaction. */
  lemma NetworkOrderCompacts()
    ensures Sampling.Compactor(NetworkOrder)
  {
    forall flags: seq<bool> ensures Compacts(flags, NetworkOrder(flags)) {
      OrderCompacts(flags);
    }
  }

  lemma SamePlace<T>(xs: seq<T>, i: nat, j: nat)
    requires Distinct(xs) && i < |xs| && j < |xs| && xs[i] == xs[j]
    ensures i == j
  {
  }

  lemma OrderCompacts(flags: seq<bool>)
    ensures Compacts(flags, NetworkOrder(flags))
  {
    hide NetworkOn, Filter;
    var n, p, first := |flags|, NetworkOrder(flags), Count(flags);
    NetworkCompacts(flags, Range(n));
    assert Distinct(Range(n));
    DistinctPermutation(Range(n), p);
    assert flags[..n] == flags;
    forall i | 0 <= i < n && p[i] < n ensures flags[p[i]] == (i < first) {
      if i < first {
        var k := Ranked(flags, i, n);
        FilterAt(flags, Range(n), k);
        assert p[i] == p[..first][i] == k;
      }
      if flags[p[i]] {
        FilterAt(flags, Range(n), p[i]);
        var r := Rank(flags, p[i]);
        assert p[r] == p[..first][r] == p[i];
        SamePlace(p, i, r);
      }
    }
  }

  // ----- the compactor -----

  /** The exponent of the least power of two that is not below value. */
  method CalculateLog2(value: nat) returns (log: nat)
    ensures log == LevelCount(value, 0)
  {
    log := 0;
    var temp: nat := 1;
    while temp < value
      invariant temp == Pow2(log) && (log > 0 ==> Pow2(log - 1) < value)
      invariant LevelCount(value, log) == LevelCount(value, 0)
      decreases value - temp
    {
      temp := temp + temp;
      log := log + 1;
    }
  }

  /** The mask of a level is shifted in a 32-bit signed int, which holds it below level 31. */
  predicate MaskFitsInt(level: nat) {
    Pow2(level) < 0x8000_0000
  }

  /** All levels of a network over n records have such a mask exactly when n is at most 2^31. */
  lemma MasksFit(n: nat, levels: nat)
    requires n <= Pow2(levels) && (levels > 0 ==> Pow2(levels - 1) < n)
    ensures (forall l: nat :: l < levels ==> MaskFitsInt(l)) <==> n <= 0x8000_0000
  {
    Pow31();
    if n <= 0x8000_0000 {
      forall l: nat | l < levels ensures MaskFitsInt(l) {
        BelowLast(l, levels, n);
      }
    } else {
      if levels <= 31 {
        if levels < 31 {
          Pow2Order(levels, 31);
        }
        assert false;
      }
      assert !MaskFitsInt(31);
    }
  }

  lemma Pow31()
    ensures Pow2(31) == 0x8000_0000
  {
    assert Pow2(7) == 128;
    assert Pow2(14) == 128 * 128 by { Pow2Sum(7, 7); }
    assert Pow2(28) == 128 * 128 * (128 * 128) by { Pow2Sum(14, 14); }
    assert Pow2(31) == 8 * Pow2(28) by { Pow2Sum(3, 28); }
  }

  class Compactor {
    const n: nat
    const distance: array<nat>

    /** No place owes a shift between two compactions. */
    ghost predicate Valid()
      reads this, distance
    {
      distance.Length == n && forall p :: 0 <= p < n ==> distance[p] == 0
    }

    constructor (n: nat)
      ensures Valid() && fresh(distance) && this.n == n
    {
      this.n := n;
      distance := new nat[n](_ => 0);
    }

    /** Each selected record's shift: how many records before it are not selected. */
    method ComputeDistances(selected: seq<bool>)
      requires Valid() && |selected| == n
      modifies distance
      ensures forall k :: 0 <= k < n ==> distance[k] == if selected[k] then Shift(selected, k) else 0
    {
      hide Count;
      var end: nat := 0;
      RankBound(selected, 0);
      for k := 0 to n
        invariant end == Rank(selected, k) <= k
        invariant forall p :: 0 <= p < k ==> distance[p] == if selected[p] then Shift(selected, p) else 0
        invariant forall p :: k <= p < n ==> distance[p] == 0
      {
        RankStep(selected, k);
        if selected[k] {
          distance[k] := k - end;
          end := end + 1;
        }
      }
    }

    /** One level of comparators, scanned from the left in place. */
    method ProcessLevel<R>(level: nat, buf: array<R>)
      requires buf.Length == distance.Length == n && Pow2(level) < n && MaskFitsInt(level) && buf as object != distance
      modifies buf, distance
      ensures Lines(buf[..], distance[..])
              == LevelFrom(old(Lines(buf[..], distance[..])), Pow2(level), Pow2(level))
    {
      hide LevelFrom, MaskBit;
      var comparator := Pow2(level);
      for i := 0 to n - comparator
        invariant LevelFrom(Lines(buf[..], distance[..]), comparator, comparator + i)
                  == LevelFrom(old(Lines(buf[..], distance[..])), comparator, comparator)
      {
        ghost var s := Lines(buf[..], distance[..]);
        var fop, sop := i, comparator + i;
        LevelUnfold(s, comparator, sop);
        var move := MaskBit(distance[sop], comparator);
        MaskFits(distance[sop], comparator);
        if move != 0 {
          buf[fop], buf[sop] := buf[sop], buf[fop];
          distance[fop] := distance[sop] - move;
          distance[sop] := 0;
        }
        assert Lines(buf[..], distance[..]) == Compare(s, sop, comparator);
      }
      LevelUnfold(Lines(buf[..], distance[..]), comparator, n);
    }

    /**
     * Order-preserving compaction, for every length whose level masks fit an int and every selection: the records are
     * moved by the network's order, so the selected ones lead in their original order and none is lost, and the
     * compactor can be used again.
     */
    method TightCompact<R>(buf: array<R>, selected: seq<bool>)
      requires Valid() && buf.Length == n == |selected| && n <= 0x8000_0000 && buf as object != distance
      modifies buf, distance
      ensures Valid() && Count(selected) <= n && buf[..Count(selected)] == Filter(selected, old(buf[..]))
      ensures multiset(buf[..]) == multiset(old(buf[..]))
      ensures InBounds(NetworkOrder(selected), n) && buf[..] == Gather(NetworkOrder(selected), old(buf[..]))
    {
      hide LevelsFrom, LevelFrom, Filter, Count, NetworkOrder, Gather;
      var levels := CalculateLog2(n);
      ComputeDistances(selected);
      ghost var s := Lines(buf[..], distance[..]);
      assert s.dist == Shifts(selected);
      for l := 0 to levels
        invariant LevelsFrom(Lines(buf[..], distance[..]), l, levels) == LevelsFrom(s, 0, levels)
      {
        LevelsUnfold(Lines(buf[..], distance[..]), l, levels);
        BelowLast(l, levels, n);
        MasksFit(n, levels);
        ProcessLevel(l, buf);
      }
      LevelsUnfold(Lines(buf[..], distance[..]), levels, levels);
      assert Lines(buf[..], distance[..]) == NetworkOn(selected, s.buf);
      NetworkCompacts(selected, s.buf);
      NetworkByOrder(selected, s.buf);
    }
  }

  lemma LevelUnfold<R>(s: Lines<R>, p: nat, sop: nat)
    requires 0 < p <= sop && |s.buf| == |s.dist|
    ensures LevelFrom(s, p, sop) == if sop >= |s.buf| then s else LevelFrom(Compare(s, sop, p), p, sop + 1)
  {
  }

  lemma LevelsUnfold<R>(s: Lines<R>, l: nat, levels: nat)
    requires |s.buf| == |s.dist|
    ensures LevelsFrom(s, l, levels)
            == if l >= levels then s else LevelsFrom(LevelFrom(s, Pow2(l), Pow2(l)), l + 1, levels)
  {
  }

  lemma BelowLast(l: nat, levels: nat, n: nat)
    requires l < levels && Pow2(levels - 1) < n
    ensures Pow2(l) < n
  {
    if l < levels - 1 {
      Pow2Order(l, levels - 1);
    }
  }

  lemma SizesOf<R>(buf: seq<R>, dist: seq<nat>, buf0: seq<R>, sel: seq<bool>, l: nat, done: nat)
    requires Network(buf, dist, buf0, sel, l, done)
    ensures |buf| == |dist| == |buf0| == |sel|
  {
  }

  lemma BagOf<R>(buf: seq<R>, dist: seq<nat>, buf0: seq<R>, sel: seq<bool>, l: nat, done: nat)
    requires Network(buf, dist, buf0, sel, l, done)
    ensures multiset(buf) == multiset(buf0)
  {
  }
}
