/** The replication scan of PSQF and the grouping of its shuffled tuples by sample. */
module ReplicationScan {
  import opened Products
  import opened Lanes
  import opened FeistelPermutation
  import opened SampleMembership
  import opened Sampling

  /** A replicated record: which record of the shuffled data, for which sample. */
  datatype Tuple = Tuple(element: nat, sample: nat)

  /** The membership matrix: one column of keys a sample. */
  ghost predicate Matrix(cols: seq<seq<bool>>, n: nat, m: nat) {
    forall i :: 0 <= i < |cols| ==> |cols[i]| == n && Count(cols[i]) == m
  }

  /** Members of sample s among the keys before j. */
  ghost function Done(cols: seq<seq<bool>>, s: nat, j: nat): nat
    requires s < |cols| && j <= |cols[s]|
  {
    Count(cols[s][..j])
  }

  lemma DoneStep(cols: seq<seq<bool>>, s: nat, j: nat)
    requires s < |cols| && j < |cols[s]|
    ensures Done(cols, s, j + 1) == Done(cols, s, j) + Bit(cols[s][j])
  {
    CountAppend(cols[s][..j], [cols[s][j]]);
    assert cols[s][..j + 1] == cols[s][..j] + [cols[s][j]];
    assert Count([cols[s][j]]) == Bit(cols[s][j]) + Count([cols[s][j]][1..]);
  }

  lemma DoneBound(cols: seq<seq<bool>>, s: nat, j: nat)
    requires s < |cols| && j <= |cols[s]|
    ensures Done(cols, s, j) <= Count(cols[s]) && Done(cols, s, |cols[s]|) == Count(cols[s])
  {
    assert cols[s] == cols[s][..j] + cols[s][j..] && cols[s][..|cols[s]|] == cols[s];
    CountAppend(cols[s][..j], cols[s][j..]);
  }

  /** Keys of sample s that are scanned when the scan stands at key j, sample i. */
  function Reach(j: nat, i: nat, s: nat): nat {
    if s < i then j + 1 else j
  }

  /** Tuples emitted for the first s samples when the scan stands at key j, sample i. */
  ghost function Emitted(cols: seq<seq<bool>>, n: nat, j: nat, i: nat, s: nat): nat
    requires s <= |cols| && (forall c :: 0 <= c < |cols| ==> |cols[c]| == n) && (if i == 0 then j <= n else j < n)
  {
    if s == 0 then 0 else Emitted(cols, n, j, i, s - 1) + Done(cols, s - 1, Reach(j, i, s - 1))
  }

  lemma {:induction false} EmittedStep(cols: seq<seq<bool>>, n: nat, m: nat, j: nat, i: nat, s: nat)
    requires Matrix(cols, n, m) && s <= |cols| && j < n && i < |cols|
    ensures Emitted(cols, n, j, i + 1, s) == Emitted(cols, n, j, i, s) + if i < s then Bit(cols[i][j]) else 0
  {
    hide Done, Count;
    if s > 0 {
      EmittedStep(cols, n, m, j, i, s - 1);
      DoneStep(cols, s - 1, j);
    }
  }

  lemma {:induction false} EmittedWrap(cols: seq<seq<bool>>, n: nat, m: nat, j: nat, s: nat)
    requires Matrix(cols, n, m) && s <= |cols| && j < n
    ensures Emitted(cols, n, j, |cols|, s) == Emitted(cols, n, j + 1, 0, s)
  {
    hide Done, Count;
    if s > 0 {
      EmittedWrap(cols, n, m, j, s - 1);
    }
  }

  /** Never more than m tuples a sample; exactly m a sample once every key is scanned. */
  lemma {:induction false} EmittedBound(cols: seq<seq<bool>>, n: nat, m: nat, j: nat, i: nat, s: nat)
    requires Matrix(cols, n, m) && s <= |cols| && (if i == 0 then j <= n else j < n)
    ensures Emitted(cols, n, j, i, s) <= s * m
    ensures j == n ==> Emitted(cols, n, j, i, s) == s * m
    ensures Emitted(cols, n, j, i, s) == s * m ==> forall c :: 0 <= c < s ==> Done(cols, c, Reach(j, i, c)) == m
  {
    hide Done, Count;
    if s > 0 {
      EmittedBound(cols, n, m, j, i, s - 1);
      DoneBound(cols, s - 1, Reach(j, i, s - 1));
      assert s * m == (s - 1) * m + m;
    }
  }

  lemma {:induction false} EmittedZero(cols: seq<seq<bool>>, n: nat, s: nat)
    requires s <= |cols| && forall c :: 0 <= c < |cols| ==> |cols[c]| == n
    ensures Emitted(cols, n, 0, 0, s) == 0
  {
    if s > 0 {
      EmittedZero(cols, n, s - 1);
      assert cols[s - 1][..0] == [];
    }
  }

  /** Tuples of one sample. */
  function CountSample(out: seq<Tuple>, s: nat): nat {
    if out == [] then 0 else CountSample(out[..|out| - 1], s) + Bit(out[|out| - 1].sample == s)
  }

  lemma CountSampleSnoc(out: seq<Tuple>, t: Tuple, s: nat)
    ensures CountSample(out + [t], s) == CountSample(out, s) + Bit(t.sample == s)
  {
    assert (out + [t])[..|out|] == out;
  }

  // ----- what has been scanned -----

  /** Tuple t comes from a member key, and its record index is at most t. */
  ghost predicate FromMember(out: seq<Tuple>, keys: seq<nat>, cols: seq<seq<bool>>, j: nat, i: nat, first: nat, t: nat)
    requires t < |out| == |keys|
  {
    && out[t].sample < |cols| && keys[t] < |cols[out[t].sample]| && cols[out[t].sample][keys[t]] && out[t].element <= t
    && keys[t] <= j && (if keys[t] == j then out[t].sample < i && out[t].element == first else out[t].element < first)
  }

  /** Tuples are in key order; one key shares one record among different samples, and a later key has a later record. */
  ghost predicate InOrder(out: seq<Tuple>, keys: seq<nat>, t: nat, u: nat)
    requires t < u < |out| == |keys|
  {
    && keys[t] <= keys[u]
    && (if keys[t] == keys[u] then out[t].element == out[u].element && out[t].sample < out[u].sample
        else out[t].element < out[u].element)
  }

  ghost predicate Scanned(out: seq<Tuple>, keys: seq<nat>, cols: seq<seq<bool>>, n: nat, j: nat, i: nat, first: nat) {
    && |out| == |keys| && (forall c :: 0 <= c < |cols| ==> |cols[c]| == n) && (if i == 0 then j <= n else j < n)
      && first <= |out|
    && (forall t :: 0 <= t < |out| ==> FromMember(out, keys, cols, j, i, first, t))
    && (forall t, u :: 0 <= t < u < |out| ==> InOrder(out, keys, t, u))
    && forall s :: 0 <= s < |cols| ==> CountSample(out, s) == Done(cols, s, Reach(j, i, s))
  }

  lemma ScanStep(out: seq<Tuple>, keys: seq<nat>, cols: seq<seq<bool>>, n: nat, m: nat, j: nat, i: nat, first: nat)
    requires Matrix(cols, n, m) && Scanned(out, keys, cols, n, j, i, first) && i < |cols| && j < n
    ensures cols[i][j] ==> Scanned(out + [Tuple(first, i)], keys + [j], cols, n, j, i + 1, first)
    ensures !cols[i][j] ==> Scanned(out, keys, cols, n, j, i + 1, first)
  {
    hide Count, CountSample, Done;
    DoneStep(cols, i, j);
    var next := i + 1;
    if cols[i][j] {
      var out', keys' := out + [Tuple(first, i)], keys + [j];
      forall t | 0 <= t < |out'| ensures FromMember(out', keys', cols, j, next, first, t) {
        assert t < |out| ==> FromMember(out, keys, cols, j, i, first, t);
      }
      forall t, u | 0 <= t < u < |out'| ensures InOrder(out', keys', t, u) {
        if u < |out| {
          assert InOrder(out, keys, t, u);
        } else {
          assert FromMember(out, keys, cols, j, i, first, t);
        }
      }
      forall s | 0 <= s < |cols| ensures CountSample(out', s) == Done(cols, s, Reach(j, i + 1, s)) {
        CountSampleSnoc(out, Tuple(first, i), s);
      }
    } else {
      forall t | 0 <= t < |out| ensures FromMember(out, keys, cols, j, next, first, t) {
        assert FromMember(out, keys, cols, j, i, first, t);
      }
    }
  }

  lemma ScanWrap(out: seq<Tuple>, keys: seq<nat>, cols: seq<seq<bool>>, n: nat, m: nat, j: nat, first: nat)
    requires Matrix(cols, n, m) && Scanned(out, keys, cols, n, j, |cols|, first) && j < n
    ensures Scanned(out, keys, cols, n, j + 1, 0, |out|)
  {
    hide Count, CountSample, Done;
    var next, size := j + 1, |out|;
    forall t | 0 <= t < |out| ensures FromMember(out, keys, cols, next, 0, size, t) {
      assert FromMember(out, keys, cols, j, |cols|, first, t);
    }
  }

  lemma ScanStart(cols: seq<seq<bool>>, n: nat, m: nat)
    requires Matrix(cols, n, m)
    ensures Scanned([], [], cols, n, 0, 0, 0)
  {
    forall s | 0 <= s < |cols| ensures CountSample([], s) == Done(cols, s, Reach(0, 0, s)) {
      assert cols[s][..0] == [];
    }
  }

  // ----- which records -----

  /** The record that key j shares among its samples: as many records lie before it as tuples before its first one. */
  ghost function Record(cols: seq<seq<bool>>, n: nat, j: nat): nat
    requires (forall c :: 0 <= c < |cols| ==> |cols[c]| == n) && j < n
  {
    Emitted(cols, n, j, 0, |cols|)
  }

  /** The records of the member keys of sample s before j, in key order. */
  ghost function KeyRecords(cols: seq<seq<bool>>, n: nat, s: nat, j: nat): seq<nat>
    requires s < |cols| && (forall c :: 0 <= c < |cols| ==> |cols[c]| == n) && j <= n
  {
    if j == 0 then []
    else KeyRecords(cols, n, s, j - 1) + if cols[s][j - 1] then [Record(cols, n, j - 1)] else []
  }

  /** Every tuple holds its own key's record, and every sample the records of exactly its member keys so far. */
  ghost predicate Recorded(out: seq<Tuple>, keys: seq<nat>, cols: seq<seq<bool>>, n: nat, j: nat, i: nat) {
    && |out| == |keys| && (forall c :: 0 <= c < |cols| ==> |cols[c]| == n) && (if i == 0 then j <= n else j < n)
    && (forall t :: 0 <= t < |out| ==> keys[t] < n && out[t].element == Record(cols, n, keys[t]))
    && forall s :: 0 <= s < |cols| ==> Elements(out, s) == KeyRecords(cols, n, s, Reach(j, i, s))
  }

  lemma RecordStep(out: seq<Tuple>, keys: seq<nat>, cols: seq<seq<bool>>, n: nat, j: nat, i: nat, first: nat)
    requires Recorded(out, keys, cols, n, j, i) && i < |cols| && j < n && first == Record(cols, n, j)
    ensures cols[i][j] ==> Recorded(out + [Tuple(first, i)], keys + [j], cols, n, j, i + 1)
    ensures !cols[i][j] ==> Recorded(out, keys, cols, n, j, i + 1)
  {
    hide Elements, Record;
    forall s | 0 <= s < |cols|
      ensures Elements(out + [Tuple(first, i)], s) == Elements(out, s) + if i == s then [first] else []
    {
      ElementsSnoc(out, Tuple(first, i), s);
    }
  }

  lemma RecordWrap(out: seq<Tuple>, keys: seq<nat>, cols: seq<seq<bool>>, n: nat, j: nat)
    requires Recorded(out, keys, cols, n, j, |cols|) && j < n
    ensures Recorded(out, keys, cols, n, j + 1, 0)
  {
    hide Elements, Record, KeyRecords;
  }

  lemma RecordStart(cols: seq<seq<bool>>, n: nat, m: nat)
    requires Matrix(cols, n, m)
    ensures Recorded([], [], cols, n, 0, 0)
  {
  }

  /** The membership matrix of a sampler. */
  ghost function Columns(swo: SWO): (cols: seq<seq<bool>>)
    requires swo.Valid()
    reads swo
    ensures |cols| == swo.k && forall i :: 0 <= i < swo.k ==> cols[i] == swo.Members(i)
  {
    seq(swo.k, i requires 0 <= i < swo.k && swo.Valid() reads swo => swo.Members(i))
  }

  lemma ColumnsAreMatrix(swo: SWO)
    requires swo.Valid()
    ensures Matrix(Columns(swo), swo.n, swo.m)
  {
    forall i | 0 <= i < swo.k ensures Count(Columns(swo)[i]) == swo.m {
      swo.ExactMembers(i);
    }
  }

  /** Tuple t is the copy of its key's record for a sample which that key belongs to. */
  ghost predicate MemberTuple(out: seq<Tuple>, keys: seq<nat>, cols: seq<seq<bool>>, n: nat, t: nat)
    requires (forall c :: 0 <= c < |cols| ==> |cols[c]| == n) && t < |out| == |keys|
  {
    && keys[t] < n && out[t].sample < |cols| && cols[out[t].sample][keys[t]]
    && out[t].element == Record(cols, n, keys[t]) < n
  }

  /**
   * What the scan leaves: n tuples, m a sample, each of a member key of its own sample; records shared by no two keys;
   * and for every sample the records of all its member keys, in key order.
   */
  ghost predicate Replicated(out: seq<Tuple>, keys: seq<nat>, cols: seq<seq<bool>>, n: nat, m: nat) {
    && |out| == |keys| == n && Matrix(cols, n, m)
    && (forall t :: 0 <= t < n ==> MemberTuple(out, keys, cols, n, t))
    && (forall t, u :: 0 <= t < u < n ==> InOrder(out, keys, t, u))
    && forall s :: 0 <= s < |cols| ==> Elements(out, s) == KeyRecords(cols, n, s, n) && CountSample(out, s) == m
  }

  /** Every member pair has its tuple. */
  lemma {:induction false} RecordListed(cols: seq<seq<bool>>, n: nat, s: nat, j: nat, key: nat)
    requires s < |cols| && (forall c :: 0 <= c < |cols| ==> |cols[c]| == n) && key < j <= n && cols[s][key]
    ensures Record(cols, n, key) in KeyRecords(cols, n, s, j)
    decreases j
  {
    hide Record;
    if key < j - 1 {
      RecordListed(cols, n, s, j - 1, key);
    }
  }

  /** Members before j are among those before a later key, and a member key counts from the next key on. */
  lemma DoneGrows(cols: seq<seq<bool>>, s: nat, j: nat, next: nat)
    requires s < |cols| && j < next <= |cols[s]|
    ensures Done(cols, s, j) + Bit(cols[s][j]) <= Done(cols, s, next)
  {
    DoneStep(cols, s, j);
    assert cols[s][..next] == cols[s][..j + 1] + cols[s][j + 1..next];
    CountAppend(cols[s][..j + 1], cols[s][j + 1..next]);
  }

  lemma {:induction false} EmittedGrows(cols: seq<seq<bool>>, n: nat, j: nat, next: nat, c: nat, s: nat)
    requires s <= |cols| && (forall c :: 0 <= c < |cols| ==> |cols[c]| == n) && j < next < n
    requires c < |cols| && cols[c][j]
    ensures Emitted(cols, n, j, 0, s) + (if c < s then 1 else 0) <= Emitted(cols, n, next, 0, s)
  {
    hide Done;
    if s > 0 {
      EmittedGrows(cols, n, j, next, c, s - 1);
      DoneGrows(cols, s - 1, j, next);
    }
  }

  /** Keys of one sample that share a record are one key. */
  lemma OneKey(cols: seq<seq<bool>>, n: nat, s: nat, i: nat, j: nat)
    requires s < |cols| && (forall c :: 0 <= c < |cols| ==> |cols[c]| == n) && i < n && j < n
    requires cols[s][i] && cols[s][j] && Record(cols, n, i) == Record(cols, n, j)
    ensures i == j
  {
    hide Emitted;
    if i < j {
      EmittedGrows(cols, n, i, j, s, |cols|);
    } else if j < i {
      EmittedGrows(cols, n, j, i, s, |cols|);
    }
  }

  /** After the last member key no record follows. */
  lemma {:induction false} RecordsEnd(cols: seq<seq<bool>>, n: nat, s: nat, j: nat, end: nat)
    requires s < |cols| && (forall c :: 0 <= c < |cols| ==> |cols[c]| == n) && j <= end <= n
    requires Done(cols, s, j) == Count(cols[s])
    ensures KeyRecords(cols, n, s, end) == KeyRecords(cols, n, s, j)
    decreases end
  {
    hide Record, Count;
    if j < end {
      RecordsEnd(cols, n, s, j, end - 1);
      if j < end - 1 {
        DoneGrows(cols, s, j, end - 1);
      }
      DoneStep(cols, s, end - 1);
      DoneBound(cols, s, end);
    }
  }

  lemma PairHasTuple(out: seq<Tuple>, keys: seq<nat>, cols: seq<seq<bool>>, n: nat, m: nat, s: nat, j: nat)
      returns (t: nat)
    requires Replicated(out, keys, cols, n, m) && s < |cols| && j < n && cols[s][j]
    ensures t < n && out[t].sample == s && keys[t] == j
  {
    hide Record, Elements, KeyRecords;
    RecordListed(cols, n, s, n, j);
    ElementsFrom(out, s, Record(cols, n, j));
    t :| 0 <= t < n && out[t] == Tuple(Record(cols, n, j), s);
    assert MemberTuple(out, keys, cols, n, t);
    OneKey(cols, n, s, keys[t], j);
  }

  lemma AllScanned(out: seq<Tuple>, keys: seq<nat>, cols: seq<seq<bool>>, n: nat, m: nat, j: nat, first: nat)
    requires Matrix(cols, n, m) && Scanned(out, keys, cols, n, j, 0, first) && |cols| * m == n == |out|
    requires |out| == Emitted(cols, n, j, 0, |cols|)
    requires Recorded(out, keys, cols, n, j, 0)
    ensures Replicated(out, keys, cols, n, m)
  {
    hide Record, Elements, KeyRecords, Done, Count, CountSample;
    EmittedBound(cols, n, m, j, 0, |cols|);
    forall s | 0 <= s < |cols| ensures KeyRecords(cols, n, s, n) == KeyRecords(cols, n, s, j) {
      assert Done(cols, s, Reach(j, 0, s)) == m;
      RecordsEnd(cols, n, s, j, n);
    }
    forall t | 0 <= t < n ensures MemberTuple(out, keys, cols, n, t) {
      assert FromMember(out, keys, cols, j, 0, first, t);
    }
  }

  /** One key of the scan: every sample it belongs to gets a copy of the same record. */
  method ScanKey(swo: SWO, j: nat, tuples: array<Tuple>, l0: nat, e: nat, ghost cols: seq<seq<bool>>,
                 ghost keys0: seq<nat>)
    returns (l: nat, eNext: nat, ghost keys: seq<nat>)
    requires swo.Valid() && cols == Columns(swo) && Matrix(cols, swo.n, swo.m) && j < swo.n
             && swo.k * swo.m == swo.n == tuples.Length
    requires l0 == Emitted(cols, swo.n, j, 0, swo.k) && l0 < swo.n && e == l0
    requires Scanned(tuples[..l0], keys0, cols, swo.n, j, 0, l0) && Recorded(tuples[..l0], keys0, cols, swo.n, j, 0)
    modifies tuples
    ensures l == Emitted(cols, swo.n, j + 1, 0, swo.k) && l <= swo.n && (l < swo.n ==> eNext == l)
    ensures Scanned(tuples[..l], keys, cols, swo.n, j + 1, 0, l) && Recorded(tuples[..l], keys, cols, swo.n, j + 1, 0)
  {
    hide Matrix, Emitted, Scanned, Recorded;
    SharedRecord(cols, swo.n, swo.m, j, l0);
    l, eNext, keys := l0, e, keys0;
    for i := 0 to swo.k
      invariant l == Emitted(cols, swo.n, j, i, swo.k) && l <= swo.n && (l < swo.n ==> eNext == l)
      invariant Scanned(tuples[..l], keys, cols, swo.n, j, i, l0) && Recorded(tuples[..l], keys, cols, swo.n, j, i)
    {
      EmittedStep(cols, swo.n, swo.m, j, i, swo.k);
      EmittedBound(cols, swo.n, swo.m, j, i + 1, swo.k);
      ScanStep(tuples[..l], keys, cols, swo.n, swo.m, j, i, l0);
      RecordStep(tuples[..l], keys, cols, swo.n, j, i, l0);
      var member := swo.SampleMember(i, j);
      assert member == cols[i][j];
      if member {
        tuples[l] := Tuple(e, i);
        assert tuples[..l + 1] == tuples[..l] + [Tuple(l0, i)];
        keys := keys + [j];
        l := l + 1;
        if l < swo.n {
          eNext := l;
        }
      }
    }
    EmittedWrap(cols, swo.n, swo.m, j, swo.k);
    ScanWrap(tuples[..l], keys, cols, swo.n, swo.m, j, l0);
    RecordWrap(tuples[..l], keys, cols, swo.n, j);
    SizeOfScan(tuples[..l], keys, cols, swo.n, j, swo.k, l0);
  }

  lemma SharedRecord(cols: seq<seq<bool>>, n: nat, m: nat, j: nat, first: nat)
    requires Matrix(cols, n, m) && j < n && first == Emitted(cols, n, j, 0, |cols|)
    ensures first == Record(cols, n, j)
  {
    hide Emitted;
  }

  lemma SizeOfScan(out: seq<Tuple>, keys: seq<nat>, cols: seq<seq<bool>>, n: nat, j: nat, i: nat, first: nat)
    requires Scanned(out, keys, cols, n, j, i, first)
    ensures |out| == |keys| && first <= |out|
  {
  }

  /** The replication scan: exactly n tuples, never one past the buffer. */
  method Replicate(swo: SWO) returns (tuples: array<Tuple>, ghost keys: seq<nat>)
    requires swo.Valid() && swo.k > 0 && swo.k * swo.m == swo.n
    ensures fresh(tuples) && Replicated(tuples[..], keys, Columns(swo), swo.n, swo.m)
  {
    hide Matrix, Emitted, Scanned, Recorded, Replicated;
    ghost var cols := Columns(swo);
    ColumnsAreMatrix(swo);
    tuples := new Tuple[swo.n](_ => Tuple(0, 0));
    var l, j, e: nat := 0, 0, 0;
    keys := [];
    ScanStart(cols, swo.n, swo.m);
    RecordStart(cols, swo.n, swo.m);
    StartOfScan(cols, swo.n, swo.m);
    assert tuples[..0] == [];
    while l < swo.n && j < swo.n
      invariant j <= swo.n && l <= swo.n && l == Emitted(cols, swo.n, j, 0, swo.k) && (l < swo.n ==> e == l)
      invariant Scanned(tuples[..l], keys, cols, swo.n, j, 0, l) && Recorded(tuples[..l], keys, cols, swo.n, j, 0)
      decreases swo.n - j
    {
      l, e, keys := ScanKey(swo, j, tuples, l, e, cols, keys);
      j := j + 1;
    }
    ScanComplete(cols, swo.n, swo.m, j);
    assert tuples[..l] == tuples[..];
    AllScanned(tuples[..], keys, cols, swo.n, swo.m, j, l);
  }

  lemma StartOfScan(cols: seq<seq<bool>>, n: nat, m: nat)
    requires Matrix(cols, n, m)
    ensures Emitted(cols, n, 0, 0, |cols|) == 0
  {
    EmittedZero(cols, n, |cols|);
  }

  lemma ScanComplete(cols: seq<seq<bool>>, n: nat, m: nat, j: nat)
    requires Matrix(cols, n, m) && |cols| * m == n && j <= n
    ensures j == n ==> Emitted(cols, n, j, 0, |cols|) == n
  {
    EmittedBound(cols, n, m, j, 0, |cols|);
  }

  // ----- grouping -----

  /** The records of one sample, in tuple order. */
  function Elements(ts: seq<Tuple>, s: nat): (es: seq<nat>)
    ensures |es| == CountSample(ts, s)
  {
    if ts == [] then []
    else
      var last := ts[|ts| - 1];
      Elements(ts[..|ts| - 1], s) + if last.sample == s then [last.element] else []
  }

  lemma {:induction false} ElementsAppend(x: seq<Tuple>, y: seq<Tuple>, s: nat)
    ensures Elements(x + y, s) == Elements(x, s) + Elements(y, s)
    decreases |y|
  {
    if y == [] {
      assert x + y == x;
    } else {
      var last := |y| - 1;
      assert (x + y)[..|x + y| - 1] == x + y[..last];
      ElementsAppend(x, y[..last], s);
    }
  }

  /** Rearranging the tuples rearranges the records of every sample. */
  lemma {:induction false} ElementsPermutation(x: seq<Tuple>, y: seq<Tuple>, s: nat)
    requires multiset(x) == multiset(y)
    ensures multiset(Elements(x, s)) == multiset(Elements(y, s))
    decreases |x|
  {
    hide Elements;
    if x == [] {
      assert |y| == |multiset(y)| == 0;
    } else {
      var i := SplitAt(x, y);
      var a, b := y[..i], y[i + 1..];
      ElementsPermutation(x[1..], a + b, s);
      assert x == [x[0]] + x[1..] && y == a + [x[0]] + b;
      ElementsAppend([x[0]], x[1..], s);
      ElementsAppend(a + [x[0]], b, s);
      ElementsAppend(a, [x[0]], s);
      ElementsAppend(a, b, s);
    }
  }

  lemma {:induction false} ElementsFrom(ts: seq<Tuple>, s: nat, e: nat)
    ensures e in Elements(ts, s) <==> Tuple(e, s) in ts
    decreases |ts|
  {
    if ts != [] {
      var last := |ts| - 1;
      ElementsFrom(ts[..last], s, e);
      assert ts == ts[..last] + [ts[last]];
    }
  }

  /** Distinct tuples give every sample distinct records. */
  lemma {:induction false} ElementsDistinct(ts: seq<Tuple>, s: nat)
    requires Distinct(ts)
    ensures Distinct(Elements(ts, s))
    decreases |ts|
  {
    if ts != [] {
      var last, es := |ts| - 1, Elements(ts[..|ts| - 1], s);
      ElementsDistinct(ts[..last], s);
      if ts[last].sample == s {
        ElementsFrom(ts[..last], s, ts[last].element);
        assert ts[last] == Tuple(ts[last].element, s);
      }
    }
  }

  lemma {:induction false} PrefixCount(ts: seq<Tuple>, t: nat, s: nat)
    requires t <= |ts|
    ensures CountSample(ts[..t], s) <= CountSample(ts, s)
  {
    ElementsAppend(ts[..t], ts[t..], s);
    assert ts == ts[..t] + ts[t..];
  }

  /** Where slot c of sample s is. */
  function SlotOf(s: nat, c: nat, m: nat): nat {
    s * m + c
  }

  /** Slot c of sample s is filled from its records so far. */
  ghost predicate SlotsFilled(result: seq<nat>, ts: seq<Tuple>, m: nat, k: nat) {
    forall s, c :: 0 <= s < k && 0 <= c < |Elements(ts, s)| ==> HasAt(result, SlotOf(s, c, m), Elements(ts, s)[c])
  }

  ghost predicate HasAt(result: seq<nat>, at: int, e: nat) {
    0 <= at < |result| && result[at] == e
  }

  lemma SlotInRange(s: nat, c: nat, m: nat, k: nat)
    requires s < k && c < m
    ensures SlotOf(s, c, m) < k * m
  {
    Monotone(s + 1, k, m);
  }

  lemma SlotsDiffer(s: nat, c: nat, s': nat, c': nat, m: nat)
    requires c < m && c' < m && (s != s' || c != c')
    ensures SlotOf(s, c, m) != SlotOf(s', c', m)
  {
    Quotient(s, c, m);
    Quotient(s', c', m);
  }

  lemma FillStep(result: seq<nat>, ts: seq<Tuple>, tuple: Tuple, m: nat, k: nat)
    requires |result| == k * m && tuple.sample < k && SlotsFilled(result, ts, m, k)
    requires forall s :: 0 <= s < k ==> |Elements(ts, s)| <= m
    requires |Elements(ts, tuple.sample)| < m
    ensures SlotOf(tuple.sample, |Elements(ts, tuple.sample)|, m) < |result|
    ensures SlotsFilled(result[SlotOf(tuple.sample, |Elements(ts, tuple.sample)|, m) := tuple.element], ts
                        + [tuple], m, k)
  {
    hide SlotOf, Elements;
    var sid, at := tuple.sample, |Elements(ts, tuple.sample)|;
    SlotInRange(sid, at, m, k);
    var result' := result[SlotOf(sid, at, m) := tuple.element];
    forall s, c | 0 <= s < k && 0 <= c < |Elements(ts + [tuple], s)|
      ensures HasAt(result', SlotOf(s, c, m), Elements(ts + [tuple], s)[c])
    {
      ElementsSnoc(ts, tuple, s);
      if s != sid || c != at {
        assert HasAt(result, SlotOf(s, c, m), Elements(ts, s)[c]);
        SlotsDiffer(s, c, sid, at, m);
      }
    }
  }

  lemma ElementsSnoc(ts: seq<Tuple>, tuple: Tuple, s: nat)
    ensures Elements(ts + [tuple], s) == Elements(ts, s) + if tuple.sample == s then [tuple.element] else []
  {
    assert (ts + [tuple])[..|ts|] == ts;
  }

  /** How many records every sample has so far. */
  ghost predicate SlotCounts(counts: seq<nat>, ts: seq<Tuple>, k: nat) {
    |counts| == k && forall s :: 0 <= s < k ==> counts[s] == CountSample(ts, s)
  }

  ghost predicate Even(ts: seq<Tuple>, m: nat, k: nat) {
    (forall t :: 0 <= t < |ts| ==> ts[t].sample < k) && forall s :: 0 <= s < k ==> CountSample(ts, s) == m
  }

  /** The next tuple finds a free slot in its own sample. */
  lemma GroupStep(result: seq<nat>, counts: seq<nat>, ts: seq<Tuple>, t: nat, m: nat, k: nat)
    requires |result| == k * m && t < |ts| && Even(ts, m, k) && SlotCounts(counts, ts[..t], k)
             && SlotsFilled(result, ts[..t], m, k)
    ensures ts[t].sample < k && counts[ts[t].sample] < m && SlotOf(ts[t].sample, counts[ts[t].sample], m) < |result|
    ensures var sid := ts[t].sample;
            && SlotsFilled(result[SlotOf(sid, counts[sid], m) := ts[t].element], ts[..t + 1], m, k)
            && SlotCounts(counts[sid := counts[sid] + 1], ts[..t + 1], k)
  {
    hide SlotsFilled, SlotOf, Elements, CountSample;
    var sid := ts[t].sample;
    assert ts[..t + 1] == ts[..t] + [ts[t]];
    forall s | 0 <= s < k
      ensures CountSample(ts[..t + 1], s) == CountSample(ts[..t], s) + Bit(sid == s) <= m
              && CountSample(ts[..t], s) <= m
    {
      CountSampleSnoc(ts[..t], ts[t], s);
      PrefixCount(ts, t + 1, s);
    }
    FillStep(result, ts[..t], ts[t], m, k);
  }

  /** Groups shuffled tuples by sample: no tuple is dropped, and every sample gets all its records in its own slots. */
  method Group(ts: seq<Tuple>, m: nat, k: nat) returns (result: array<nat>)
    requires 0 < m && Even(ts, m, k)
    ensures fresh(result) && result.Length == k * m && SlotsFilled(result[..], ts, m, k)
  {
    hide SlotsFilled, SlotCounts, Even;
    result := new nat[k * m];
    var counts := new nat[k](_ => 0);
    NothingFilled(result[..], m, k);
    NothingCounted(counts[..], k);
    assert ts[..0] == [];
    for t := 0 to |ts|
      invariant result.Length == k * m && SlotsFilled(result[..], ts[..t], m, k)
      invariant counts.Length == k && SlotCounts(counts[..], ts[..t], k)
    {
      var sid := ts[t].sample;
      GroupStep(result[..], counts[..], ts, t, m, k);
      if sid < k && counts[sid] < m {
        result[sid * m + counts[sid]] := ts[t].element;
        counts[sid] := counts[sid] + 1;
      }
    }
    assert ts[..|ts|] == ts;
  }

  lemma NothingCounted(counts: seq<nat>, k: nat)
    requires |counts| == k && forall s :: 0 <= s < k ==> counts[s] == 0
    ensures SlotCounts(counts, [], k)
  {
  }

  lemma NothingFilled(result: seq<nat>, m: nat, k: nat)
    ensures SlotsFilled(result, [], m, k)
  {
  }

  /** The shuffle: any rearrangement of the tuples. */
  ghost predicate IsShuffle(shuffle: seq<Tuple> -> seq<Tuple>) {
    forall ts: seq<Tuple> :: multiset(shuffle(ts)) == multiset(ts)
  }

  lemma TuplesDistinct(out: seq<Tuple>, keys: seq<nat>, cols: seq<seq<bool>>, n: nat, m: nat)
    requires Replicated(out, keys, cols, n, m)
    ensures Distinct(out)
  {
    forall t, u | 0 <= t < u < |out| ensures out[t] != out[u] {
      assert InOrder(out, keys, t, u);
    }
  }

  lemma ShuffledSamples(out: seq<Tuple>, keys: seq<nat>, cols: seq<seq<bool>>, ts: seq<Tuple>, n: nat, m: nat)
    requires Replicated(out, keys, cols, n, m) && multiset(ts) == multiset(out)
    ensures Distinct(ts) && (forall t :: 0 <= t < |ts| ==> ts[t].element < n) && Even(ts, m, |cols|)
    ensures forall s :: 0 <= s < |cols| ==> multiset(Elements(ts, s)) == multiset(KeyRecords(cols, n, s, n))
  {
    hide KeyRecords, Record;
    TuplesDistinct(out, keys, cols, n, m);
    DistinctPermutation(out, ts);
    forall t | 0 <= t < |ts| ensures ts[t].sample < |cols| && ts[t].element < n {
      assert ts[t] in multiset(out);
      var u :| 0 <= u < |out| && out[u] == ts[t];
      assert MemberTuple(out, keys, cols, n, u);
    }
    forall s | 0 <= s < |cols|
      ensures CountSample(ts, s) == m && multiset(Elements(ts, s)) == multiset(KeyRecords(cols, n, s, n))
    {
      ElementsPermutation(ts, out, s);
      assert |multiset(Elements(ts, s))| == |multiset(Elements(out, s))|;
    }
  }

  /** The slice of sample s, m records from its multiple of m on, is es. */
  ghost predicate IsSlice(result: seq<nat>, s: nat, m: nat, es: seq<nat>) {
    s * m + m <= |result| && result[s * m..s * m + m] == es
  }

  /** Every sample's slice holds m distinct records. */
  ghost predicate Samples(result: seq<nat>, n: nat, m: nat, k: nat, slices: seq<seq<nat>>) {
    && |slices| == k
    && forall s :: 0 <= s < k ==>
         IsSlice(result, s, m, slices[s]) && Distinct(slices[s]) && forall c :: 0 <= c < m ==> slices[s][c] < n
  }

  lemma SlotsAreSlice(result: seq<nat>, ts: seq<Tuple>, m: nat, k: nat, s: nat)
    requires SlotsFilled(result, ts, m, k) && |result| == k * m && s < k && |Elements(ts, s)| == m
    ensures IsSlice(result, s, m, Elements(ts, s))
  {
    hide Elements;
    Monotone(s + 1, k, m);
    Distribute(s, 1, m);
    forall c | 0 <= c < m ensures result[s * m + c] == Elements(ts, s)[c] {
      assert HasAt(result, SlotOf(s, c, m), Elements(ts, s)[c]);
    }
    assert result[s * m..s * m + m] == Elements(ts, s);
  }

  /**
   * The membership matrix of the round functions: sample s has the keys whose paths under its own network end below m.
   */
  ghost function MemberColumns(prf: nat -> RoundFunction, a: nat, b: nat, n: nat, m: nat, k: nat)
      : (cols: seq<seq<bool>>)
    requires 0 < a && 0 < b
    ensures |cols| == k && forall s :: 0 <= s < k ==> |cols[s]| == n
    ensures forall s, j :: 0 <= s < k && 0 <= j < n ==> (cols[s][j] <==> LeadsBelow(prf(s), a, b, n, m, j))
  {
    seq(k, s requires 0 <= s => seq(n, j requires 0 <= j => LeadsBelow(prf(s), a, b, n, m, j)))
  }

  lemma ColumnsOfMembers(swo: SWO)
    requires swo.Valid() && 0 < swo.k
    ensures Columns(swo) == MemberColumns(swo.prf, swo.a, swo.b, swo.n, swo.m, swo.k)
  {
    hide LeadsBelow;
    var cols := MemberColumns(swo.prf, swo.a, swo.b, swo.n, swo.m, swo.k);
    forall s, j | 0 <= s < swo.k && 0 <= j < swo.n ensures Columns(swo)[s][j] == cols[s][j] {
      swo.MemberLeads(s, j);
    }
    forall s | 0 <= s < swo.k ensures Columns(swo)[s] == cols[s] {
    }
  }

  /** Every slice is a rearrangement of the records of exactly the member keys of its own sample. */
  ghost predicate OfMembers(slices: seq<seq<nat>>, cols: seq<seq<bool>>, n: nat)
    requires forall c :: 0 <= c < |cols| ==> |cols[c]| == n
  {
    |slices| == |cols| && forall s :: 0 <= s < |cols| ==> multiset(slices[s]) == multiset(KeyRecords(cols, n, s, n))
  }

  /**
   * PSQF's replication: an empty data set or request yields nothing, and when m does not divide n there is one sample
   * of all n records. After any shuffle of the tuples every sample's slice holds exactly m distinct records, those of
   * the keys whose paths under the sample's own inverse network end below m, whatever the round functions.
   */
  method PSQF_SWO(size: nat, request: nat, prf: nat -> RoundFunction, shuffle: seq<Tuple> -> seq<Tuple>)
    returns (result: array<nat>, m: nat, k: nat, ghost a: nat, ghost b: nat, ghost slices: seq<seq<nat>>)
    requires IsShuffle(shuffle)
    ensures size == 0 || request == 0 ==> m == 0 && k == 0 && result.Length == 0
    ensures 0 < size && 0 < request ==> m == (if request <= size && size % request == 0 then request else size)
    ensures 0 < size && 0 < request ==>
              && k * m == size && result.Length == size && Samples(result[..], size, m, k, slices)
              && AreSides(size, a, b) && OfMembers(slices, MemberColumns(prf, a, b, size, m, k), size)
  {
    hide Replicated, SlotsFilled, SWO.Valid, Samples, OfMembers, AreSides;
    m := if request > size then size else request;
    if m == 0 {
      result := new nat[0];
      return result, 0, 0, 0, 0, [];
    }
    if size % m != 0 {
      m := size;
    }
    k := size / m;
    WholeSamples(size, m);
    var swo := new SWO(prf);
    swo.Initialize(size, m);
    a, b := swo.a, swo.b;
    var tuples, keys := Replicate(swo);
    var ts := shuffle(tuples[..]);
    assert multiset(ts) == multiset(tuples[..]);
    ghost var cols := Columns(swo);
    ColumnsOfMembers(swo);
    ShuffledSamples(tuples[..], keys, cols, ts, size, m);
    result := Group(ts, m, k);
    slices := SlicesOf(result[..], ts, cols, size, m);
  }

  lemma WholeSamples(n: nat, m: nat)
    requires 0 < m <= n && n % m == 0
    ensures 0 < n / m && (n / m) * m == n
  {
    assert n == (n / m) * m + n % m;
  }

  lemma SlicesOf(result: seq<nat>, ts: seq<Tuple>, cols: seq<seq<bool>>, n: nat, m: nat) returns (slices: seq<seq<nat>>)
    requires |result| == |cols| * m && SlotsFilled(result, ts, m, |cols|) && Even(ts, m, |cols|)
    requires Distinct(ts) && (forall t :: 0 <= t < |ts| ==> ts[t].element < n)
    requires forall c :: 0 <= c < |cols| ==> |cols[c]| == n
    requires forall s :: 0 <= s < |cols| ==> multiset(Elements(ts, s)) == multiset(KeyRecords(cols, n, s, n))
    ensures Samples(result, n, m, |cols|, slices) && OfMembers(slices, cols, n)
  {
    hide KeyRecords, SlotsFilled;
    slices := seq(|cols|, s requires 0 <= s < |cols| => Elements(ts, s));
    forall s | 0 <= s < |cols|
      ensures IsSlice(result, s, m, slices[s]) && Distinct(slices[s]) && forall c :: 0 <= c < m ==> slices[s][c] < n
    {
      SlotsAreSlice(result, ts, m, |cols|, s);
      ElementsDistinct(ts, s);
      forall c | 0 <= c < m ensures slices[s][c] < n {
        ElementsFrom(ts, s, slices[s][c]);
      }
    }
  }
}
