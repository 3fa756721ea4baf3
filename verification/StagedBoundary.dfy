/** Staged boundary bytes: parallel writers of adjacent bit spans never share a byte until they commit. */
module StagedBoundary {
  import opened PackedBits

  /** The bits [bit, bit + bits) one writer owns. */
  datatype Span = Span(bit: nat, bits: nat) {
    predicate Has(p: nat) { bit <= p < bit + bits }
  }

  /** A writer's partial first and last byte: masks of the bits it owns there, and their staged values. */
  datatype Boundary = Boundary(first: nat, last: nat, firstMask: bv8, lastMask: bv8, firstValue: bv8, lastValue: bv8)

  /** The low bits of a byte. */
  function LowMask(bits: nat): bv8
    requires bits <= 8
  {
    match bits
    case 0 => 0
    case 1 => 1
    case 2 => 3
    case 3 => 7
    case 4 => 15
    case 5 => 31
    case 6 => 63
    case 7 => 127
    case _ => 255
  }

  function ShiftedUp(b: bv8, start: nat): bv8
    requires start < 8
  {
    match start
    case 0 => b
    case 1 => b << 1
    case 2 => b << 2
    case 3 => b << 3
    case 4 => b << 4
    case 5 => b << 5
    case 6 => b << 6
    case _ => b << 7
  }

  predicate BitSet(b: bv8, j: nat)
    requires j < 8
  {
    ShiftedBit(b, j) != 0
  }

  lemma LowMaskBits(bits: nat, j: nat)
    requires bits <= 8 && j < 8
    ensures BitSet(LowMask(bits), j) == (j < bits)
  {
  }

  lemma ShiftedUpBits(b: bv8, start: nat, j: nat)
    requires start < 8 && j < 8
    ensures BitSet(ShiftedUp(b, start), j) == (start <= j && BitSet(b, j - start))
  {
  }

  /** Masked merge, bit by bit. */
  function Merged(b: bv8, value: bv8, mask: bv8): bv8 {
    (b & !mask) | (value & mask)
  }

  lemma MergedBits(b: bv8, value: bv8, mask: bv8, j: nat)
    requires j < 8
    ensures BitSet(Merged(b, value, mask), j) == if BitSet(mask, j) then BitSet(value, j) else BitSet(b, j)
  {
    hide ShiftedBit;
    MasksAreShifts(b, j);
    MasksAreShifts(value, j);
    MasksAreShifts(mask, j);
    MasksAreShifts(Merged(b, value, mask), j);
  }

  lemma {:induction false} ZeroMask(mask: bv8)
    ensures mask == 0 <==> forall j :: 0 <= j < 8 ==> !BitSet(mask, j)
  {
    if forall j :: 0 <= j < 8 ==> !BitSet(mask, j) {
      assert !BitSet(mask, 0) && !BitSet(mask, 1) && !BitSet(mask, 2) && !BitSet(mask, 3);
      assert !BitSet(mask, 4) && !BitSet(mask, 5) && !BitSet(mask, 6) && !BitSet(mask, 7);
    }
  }

  lemma FullMask(mask: bv8)
    ensures mask == 255 <==> forall j :: 0 <= j < 8 ==> BitSet(mask, j)
  {
    if forall j :: 0 <= j < 8 ==> BitSet(mask, j) {
      assert BitSet(mask, 0) && BitSet(mask, 1) && BitSet(mask, 2) && BitSet(mask, 3);
      assert BitSet(mask, 4) && BitSet(mask, 5) && BitSet(mask, 6) && BitSet(mask, 7);
    }
  }

  /** The boundary of a span. */
  function Init(span: Span): Boundary {
    if span.bits == 0 then Boundary(0, 0, 0, 0, 0, 0)
    else
      var first, last := span.bit / 8, (span.bit + span.bits - 1) / 8;
      var start, end := span.bit % 8, (span.bit + span.bits) % 8;
      if first == last then
        var mask := ShiftedUp(LowMask(span.bits), start);
        Boundary(first, last, if mask != 255 then mask else 0, 0, 0, 0)
      else
        Boundary(first, last, if start != 0 then ShiftedUp(255, start) else 0, if end != 0 then LowMask(end)
                 else 0, 0, 0)
  }

  /** The byte is one of the writer's staged ones. */
  predicate Staged(b: Boundary, index: nat) {
    (b.firstMask != 0 && index == b.first) || (b.lastMask != 0 && index == b.last)
  }

  function StagedMask(b: Boundary, index: nat): bv8
    requires Staged(b, index)
  {
    if b.firstMask != 0 && index == b.first then b.firstMask else b.lastMask
  }

  function StagedValue(b: Boundary, index: nat): bv8
    requires Staged(b, index)
  {
    if b.firstMask != 0 && index == b.first then b.firstValue else b.lastValue
  }

  /** The two staged bytes are different bytes. */
  predicate Apart(b: Boundary) {
    b.firstMask != 0 && b.lastMask != 0 ==> b.first != b.last
  }

  function ReadByte(b: Boundary, bytes: seq<bv8>, index: nat): bv8
    requires index < |bytes|
  {
    if Staged(b, index) then StagedValue(b, index) else bytes[index]
  }

  /** What a write to a byte leaves: the boundary and the shared bytes. */
  function WrittenBoundary(b: Boundary, index: nat, value: bv8): Boundary {
    if b.firstMask != 0 && index == b.first then b.(firstValue := value)
    else if b.lastMask != 0 && index == b.last then b.(lastValue := value)
    else b
  }

  function WrittenBytes(b: Boundary, bytes: seq<bv8>, index: nat, value: bv8): seq<bv8>
    requires index < |bytes|
  {
    if Staged(b, index) then bytes else bytes[index := value]
  }

  function Committed(b: Boundary, bytes: seq<bv8>): (r: seq<bv8>)
    requires (b.firstMask != 0 ==> b.first < |bytes|) && (b.lastMask != 0 ==> b.last < |bytes|)
    ensures |r| == |bytes|
  {
    var once := if b.firstMask != 0 then bytes[b.first := Merged(bytes[b.first], b.firstValue, b.firstMask)] else bytes;
    if b.lastMask != 0 then once[b.last := Merged(once[b.last], b.lastValue, b.lastMask)] else once
  }

  /** Masks are those of the span: a staged byte's mask marks exactly the span's bits in it. */
  ghost predicate MasksOf(b: Boundary, span: Span) {
    && Apart(b)
    && (forall p: nat :: span.Has(p) && !Staged(b, p / 8) ==> OwnsByte(span, p / 8))
    && (forall index: nat, j :: 0 <= j < 8 && Staged(b, index) ==>
        BitSet(StagedMask(b, index), j) == span.Has(8 * index + j))
  }

  /** All eight bits of a byte are in the span. */
  predicate OwnsByte(span: Span, index: nat) {
    span.bit <= 8 * index && 8 * index + 8 <= span.bit + span.bits
  }

  lemma OneByte(span: Span)
    requires span.bits > 0 && span.bit / 8 == (span.bit + span.bits - 1) / 8
    ensures MasksOf(Init(span), span)
  {
    hide ShiftedUp, LowMask, BitSet;
    var first, start := span.bit / 8, span.bit % 8;
    var mask := ShiftedUp(LowMask(span.bits), start);
    forall j | 0 <= j < 8 ensures BitSet(mask, j) == span.Has(8 * first + j) {
      ShiftedUpBits(LowMask(span.bits), start, j);
      if start <= j {
        LowMaskBits(span.bits, j - start);
      }
    }
    ZeroMask(mask);
    FullMask(mask);
    assert BitSet(mask, start);
    if mask == 255 {
      assert BitSet(mask, 0) && BitSet(mask, 7);
    }
  }

  lemma TwoBytes(span: Span)
    requires span.bits > 0 && span.bit / 8 < (span.bit + span.bits - 1) / 8
    ensures MasksOf(Init(span), span)
  {
    hide ShiftedUp, LowMask, BitSet;
    var first, last := span.bit / 8, (span.bit + span.bits - 1) / 8;
    var start, end := span.bit % 8, (span.bit + span.bits) % 8;
    forall j | 0 <= j < 8
      ensures BitSet(ShiftedUp(255, start), j) == span.Has(8 * first + j)
      ensures end != 0 ==> BitSet(LowMask(end), j) == span.Has(8 * last + j)
    {
      ShiftedUpBits(255, start, j);
      FullMask(255);
      LowMaskBits(end, j);
    }
    ZeroMask(ShiftedUp(255, start));
    ZeroMask(LowMask(end));
    assert BitSet(ShiftedUp(255, start), 7) && (end != 0 ==> BitSet(LowMask(end), 0));
    forall p: nat | span.Has(p) && !Staged(Init(span), p / 8) ensures OwnsByte(span, p / 8) {
      Inside(span, p, p / 8);
    }
  }

  /** A byte of the span that is neither a partial first one nor a partial last one lies in it whole. */
  lemma Inside(span: Span, p: nat, index: nat)
    requires span.Has(p) && index == p / 8
    requires span.bit % 8 == 0 || index != span.bit / 8
    requires (span.bit + span.bits) % 8 == 0 || index != (span.bit + span.bits - 1) / 8
    ensures OwnsByte(span, index)
  {
  }

  lemma NoBytes(span: Span)
    requires span.bits == 0
    ensures MasksOf(Init(span), span)
  {
  }

  /**
   * A byte written directly belongs to its writer alone; a shared byte is staged with a mask of the writer's own bits.
   */
  lemma InitMasks(span: Span)
    ensures MasksOf(Init(span), span)
  {
    hide MasksOf, Init;
    if span.bits > 0 {
      if span.bit / 8 == (span.bit + span.bits - 1) / 8 {
        OneByte(span);
      } else {
        TwoBytes(span);
      }
    } else {
      NoBytes(span);
    }
  }

  // ----- writers in any interleaving -----

  datatype Op = Put(w: nat, p: nat, v: bool) | Commit(w: nat)

  datatype State = State(bytes: seq<bv8>, boundaries: seq<Boundary>)

  /** A writer's read-modify-write of one bit, and a commit. */
  function Step(s: State, op: Op): State
    requires op.w < |s.boundaries| && (op.Put? ==> op.p < 8 * |s.bytes|)
    requires var b := s.boundaries[op.w]; (b.firstMask != 0 ==> b.first < |s.bytes|) && (b.lastMask != 0 ==>
             b.last < |s.bytes|)
  {
    var b := s.boundaries[op.w];
    match op
    case Put(w, p, v) =>
      var value := Replaced(ReadByte(b, s.bytes, p / 8), p % 8, v);
      State(WrittenBytes(b, s.bytes, p / 8, value), s.boundaries[w := WrittenBoundary(b, p / 8, value)])
    case Commit(w) => State(Committed(b, s.bytes), s.boundaries)
  }

  /** The tape a serial writer would have. */
  function SerialStep(tape: seq<bool>, op: Op): seq<bool>
    requires op.Put? ==> op.p < |tape|
  {
    if op.Put? then tape[op.p := op.v] else tape
  }

  ghost predicate Disjoint(spans: seq<Span>, size: nat) {
    && (forall v, w, p: nat :: 0 <= v < |spans| && 0 <= w < |spans| && spans[v].Has(p) && spans[w].Has(p) ==> v == w)
    && (forall w, p: nat :: 0 <= w < |spans| && spans[w].Has(p) ==> p < size)
  }

  /** Bit p still sits in writer w's boundary. */
  predicate Pending(s: State, spans: seq<Span>, done: seq<bool>, w: nat, p: nat)
    requires w < |s.boundaries| == |spans| == |done|
  {
    spans[w].Has(p) && Staged(s.boundaries[w], p / 8) && !done[w]
  }

  ghost predicate BitKept(s: State, spans: seq<Span>, done: seq<bool>, tape: seq<bool>, p: nat)
    requires |s.boundaries| == |spans| == |done| && p < |tape| == 8 * |s.bytes|
  {
    && (forall w :: 0 <= w < |spans| && Pending(s, spans, done, w, p) ==>
        BitSet(StagedValue(s.boundaries[w], p / 8), p % 8) == tape[p])
    && ((forall w :: 0 <= w < |spans| ==> !Pending(s, spans, done, w, p)) ==> BitAt(s.bytes, p) == tape[p])
  }

  /** Every bit of the serial tape is in its writer's boundary, or already in the shared bytes. */
  ghost predicate Tracks(s: State, spans: seq<Span>, done: seq<bool>, tape: seq<bool>) {
    && |s.boundaries| == |spans| == |done| && |tape| == 8 * |s.bytes| && Disjoint(spans, |tape|)
    && (forall w :: 0 <= w < |spans| ==> MasksOf(s.boundaries[w], spans[w]))
    && forall p :: 0 <= p < |tape| ==> BitKept(s, spans, done, tape, p)
  }

  /** A writer writes only its own bits, and only before it commits. */
  predicate Allowed(op: Op, spans: seq<Span>, done: seq<bool>)
    requires |spans| == |done|
  {
    op.w < |spans| && !done[op.w] && (op.Put? ==> spans[op.w].Has(op.p))
  }

  function DoneAfter(done: seq<bool>, op: Op): seq<bool>
    requires op.w < |done|
  {
    if op.Commit? then done[op.w := true] else done
  }

  lemma StagedInRange(b: Boundary, span: Span, size: nat)
    requires MasksOf(b, span) && forall p: nat :: span.Has(p) ==> p < 8 * size
    ensures (b.firstMask != 0 ==> b.first < size) && (b.lastMask != 0 ==> b.last < size)
  {
    hide BitSet, Apart;
    if b.firstMask != 0 {
      MaskedByte(b, span, b.first, size);
    }
    if b.lastMask != 0 {
      MaskedByte(b, span, b.last, size);
    }
  }

  lemma MaskedByte(b: Boundary, span: Span, index: nat, size: nat)
    requires MasksOf(b, span) && Staged(b, index) && forall p: nat :: span.Has(p) ==> p < 8 * size
    ensures index < size
  {
    hide BitSet;
    ZeroMask(StagedMask(b, index));
    var j :| 0 <= j < 8 && BitSet(StagedMask(b, index), j);
    assert span.Has(8 * index + j);
  }

  lemma ReplacedBit(b: bv8, i: nat, v: bool, j: nat)
    requires i < 8 && j < 8
    ensures BitSet(Replaced(b, i, v), j) == if j == i then v else BitSet(b, j)
  {
    ReplacedBits(b, i, v, j);
  }

  lemma SamePlace(p: nat, q: nat)
    requires p / 8 == q / 8 && p % 8 == q % 8
    ensures p == q
  {
  }

  lemma WrittenKeeps(b: Boundary, span: Span, index: nat, value: bv8)
    requires Staged(b, index) && MasksOf(b, span)
    ensures MasksOf(WrittenBoundary(b, index, value), span)
    ensures forall i: nat :: Staged(WrittenBoundary(b, index, value), i) == Staged(b, i)
    ensures forall i: nat :: Staged(b, i) ==> StagedValue(WrittenBoundary(b, index, value), i) == if i == index
            then value else StagedValue(b, i)
  {
    hide BitSet;
    var b' := WrittenBoundary(b, index, value);
    assert forall i: nat :: Staged(b, i) ==> StagedMask(b', i) == StagedMask(b, i);
  }

  /** A staged write. */
  lemma StagedPut(s: State, spans: seq<Span>, done: seq<bool>, tape: seq<bool>, w: nat, p: nat, v: bool)
    requires Tracks(s, spans, done, tape) && w < |spans| && !done[w] && spans[w].Has(p) && p < |tape|
    requires Staged(s.boundaries[w], p / 8)
    requires var b := s.boundaries[w]; (b.firstMask != 0 ==> b.first < |s.bytes|) && (b.lastMask != 0 ==>
             b.last < |s.bytes|)
    ensures Tracks(Step(s, Put(w, p, v)), spans, done, tape[p := v])
  {
    hide BitSet, Replaced, BitAt, MasksOf, Staged, StagedValue, StagedMask, WrittenBoundary;
    var s', tape' := Step(s, Put(w, p, v)), tape[p := v];
    var value := Replaced(StagedValue(s.boundaries[w], p / 8), p % 8, v);
    WrittenKeeps(s.boundaries[w], spans[w], p / 8, value);
    forall q | 0 <= q < |tape'| ensures BitKept(s', spans, done, tape', q) {
      assert BitKept(s, spans, done, tape, q);
      ReplacedBit(StagedValue(s.boundaries[w], p / 8), p % 8, v, q % 8);
      if q / 8 == p / 8 && q % 8 == p % 8 {
        SamePlace(q, p);
      }
      forall u | 0 <= u < |spans| ensures Pending(s', spans, done, u, q) == Pending(s, spans, done, u, q) {
        assert u != w ==> s'.boundaries[u] == s.boundaries[u];
      }
      forall u | 0 <= u < |spans| && Pending(s', spans, done, u, q)
        ensures BitSet(StagedValue(s'.boundaries[u], q / 8), q % 8) == tape'[q]
      {
        assert Pending(s, spans, done, u, q);
        assert q == p ==> u == w;
      }
      if q == p {
        assert Pending(s', spans, done, w, q);
      }
    }
  }

  /** A direct write: the byte is the writer's own. */
  lemma DirectPut(s: State, spans: seq<Span>, done: seq<bool>, tape: seq<bool>, w: nat, p: nat, v: bool)
    requires Tracks(s, spans, done, tape) && w < |spans| && !done[w] && spans[w].Has(p) && p < |tape|
    requires !Staged(s.boundaries[w], p / 8)
    requires var b := s.boundaries[w]; (b.firstMask != 0 ==> b.first < |s.bytes|) && (b.lastMask != 0 ==>
             b.last < |s.bytes|)
    ensures Tracks(Step(s, Put(w, p, v)), spans, done, tape[p := v])
  {
    hide BitSet, Replaced, MasksOf;
    var s', tape' := Step(s, Put(w, p, v)), tape[p := v];
    OwnByte(s.boundaries[w], spans[w], p);
    assert s'.boundaries == s.boundaries;
    forall q | 0 <= q < |tape'| ensures BitKept(s', spans, done, tape', q) {
      assert BitKept(s, spans, done, tape, q);
      assert forall u :: 0 <= u < |spans| ==> Pending(s', spans, done, u, q) == Pending(s, spans, done, u, q);
      if q / 8 == p / 8 {
        DirectBit(s.bytes, p, q, v);
        assert spans[w].Has(q);
        assert forall u :: 0 <= u < |spans| ==> !Pending(s, spans, done, u, q);
      }
    }
  }

  lemma OwnByte(b: Boundary, span: Span, p: nat)
    requires MasksOf(b, span) && span.Has(p) && !Staged(b, p / 8)
    ensures forall q: nat :: q / 8 == p / 8 ==> span.Has(q)
  {
  }

  lemma DirectBit(bytes: seq<bv8>, p: nat, q: nat, v: bool)
    requires p < 8 * |bytes| && q / 8 == p / 8
    ensures BitAt(bytes[p / 8 := Replaced(bytes[p / 8], p % 8, v)], q) == if q == p then v else BitAt(bytes, q)
  {
    hide ShiftedBit, Replaced;
    ReplacedBits(bytes[p / 8], p % 8, v, q % 8);
    if q % 8 == p % 8 {
      SamePlace(q, p);
    }
  }

  /** A commit moves a writer's bits of its staged bytes into the shared bytes and touches no other bit. */
  lemma CommittedBit(b: Boundary, bytes: seq<bv8>, p: nat)
    requires Apart(b) && p < 8 * |bytes|
    requires (b.firstMask != 0 ==> b.first < |bytes|) && (b.lastMask != 0 ==> b.last < |bytes|)
    ensures BitAt(Committed(b, bytes), p)
         == if Staged(b, p / 8) && BitSet(StagedMask(b, p / 8), p % 8) then BitSet(StagedValue(b, p / 8), p % 8)
           else BitAt(bytes, p)
  {
    hide ShiftedBit, Merged;
    if Staged(b, p / 8) {
      MergedBits(bytes[p / 8], StagedValue(b, p / 8), StagedMask(b, p / 8), p % 8);
    }
  }

  lemma CommitKeeps(s: State, spans: seq<Span>, done: seq<bool>, tape: seq<bool>, w: nat)
    requires Tracks(s, spans, done, tape) && w < |spans| && !done[w]
    requires var b := s.boundaries[w]; (b.firstMask != 0 ==> b.first < |s.bytes|) && (b.lastMask != 0 ==>
             b.last < |s.bytes|)
    ensures Tracks(Step(s, Commit(w)), spans, done[w := true], tape)
  {
    hide BitSet, BitAt, Staged, StagedMask, StagedValue, Committed;
    var s', done', b := Step(s, Commit(w)), done[w := true], s.boundaries[w];
    forall q | 0 <= q < |tape| ensures BitKept(s', spans, done', tape, q) {
      assert BitKept(s, spans, done, tape, q);
      CommittedBit(b, s.bytes, q);
      if Staged(b, q / 8) {
        MaskIsSpan(b, spans[w], q);
      }
      forall u | 0 <= u < |spans| ensures Pending(s', spans, done', u, q) == (u != w && Pending(s, spans, done, u, q)) {
      }
      if Pending(s, spans, done, w, q) {
        assert forall u :: 0 <= u < |spans| && u != w ==> !spans[u].Has(q);
      }
    }
  }

  lemma MaskIsSpan(b: Boundary, span: Span, q: nat)
    requires MasksOf(b, span) && Staged(b, q / 8)
    ensures BitSet(StagedMask(b, q / 8), q % 8) == span.Has(q)
  {
    hide BitSet;
    assert 8 * (q / 8) + q % 8 == q;
  }

  /** One step, by any writer, keeps track of the serial tape. */
  lemma StepTracks(s: State, spans: seq<Span>, done: seq<bool>, tape: seq<bool>, op: Op)
    requires Tracks(s, spans, done, tape) && Allowed(op, spans, done)
    ensures op.Put? ==> op.p < |tape|
    ensures var b := s.boundaries[op.w]; (b.firstMask != 0 ==> b.first < |s.bytes|) && (b.lastMask != 0 ==>
            b.last < |s.bytes|)
    ensures Tracks(Step(s, op), spans, DoneAfter(done, op), SerialStep(tape, op))
  {
    hide BitKept, MasksOf, Staged;
    StagedInRange(s.boundaries[op.w], spans[op.w], |s.bytes|);
    if op.Put? {
      if Staged(s.boundaries[op.w], op.p / 8) {
        StagedPut(s, spans, done, tape, op.w, op.p, op.v);
      } else {
        DirectPut(s, spans, done, tape, op.w, op.p, op.v);
      }
    } else {
      CommitKeeps(s, spans, done, tape, op.w);
    }
  }

  /** An interleaving: every writer writes only its own bits, and commits once, after its last write. */
  ghost predicate Interleaving(ops: seq<Op>, spans: seq<Span>, done: seq<bool>)
    requires |spans| == |done|
  {
    ops == [] || (Allowed(ops[0], spans, done) && Interleaving(ops[1..], spans, DoneAfter(done, ops[0])))
  }

  ghost function RunOps(s: State, spans: seq<Span>, done: seq<bool>, tape: seq<bool>, ops: seq<Op>): State
    requires Tracks(s, spans, done, tape) && Interleaving(ops, spans, done)
    decreases |ops|
  {
    if ops == [] then s
    else
      StepTracks(s, spans, done, tape, ops[0]);
      RunOps(Step(s, ops[0]), spans, DoneAfter(done, ops[0]), SerialStep(tape, ops[0]), ops[1..])
  }

  /** All writes applied one after the other, and which writers have committed by the end. */
  function Serial(tape: seq<bool>, ops: seq<Op>): seq<bool>
    requires forall i :: 0 <= i < |ops| && ops[i].Put? ==> ops[i].p < |tape|
    decreases |ops|
  {
    if ops == [] then tape else Serial(SerialStep(tape, ops[0]), ops[1..])
  }

  function DoneAll(done: seq<bool>, ops: seq<Op>): (r: seq<bool>)
    requires forall i :: 0 <= i < |ops| ==> ops[i].w < |done|
    ensures |r| == |done|
    decreases |ops|
  {
    if ops == [] then done else DoneAll(DoneAfter(done, ops[0]), ops[1..])
  }

  lemma {:induction false} InRange(ops: seq<Op>, spans: seq<Span>, done: seq<bool>, size: nat)
    requires |spans| == |done| && Interleaving(ops, spans, done) && Disjoint(spans, size)
    ensures forall i :: 0 <= i < |ops| ==> ops[i].w < |done| && (ops[i].Put? ==> ops[i].p < size)
    decreases |ops|
  {
    if ops != [] {
      InRange(ops[1..], spans, DoneAfter(done, ops[0]), size);
      assert forall i :: 0 < i < |ops| ==> ops[i] == ops[1..][i - 1];
    }
  }

  lemma {:induction false} RunTracks(s: State, spans: seq<Span>, done: seq<bool>, tape: seq<bool>, ops: seq<Op>)
    requires Tracks(s, spans, done, tape) && Interleaving(ops, spans, done)
    ensures forall i :: 0 <= i < |ops| ==> ops[i].w < |done| && (ops[i].Put? ==> ops[i].p < |tape|)
    ensures Tracks(RunOps(s, spans, done, tape, ops), spans, DoneAll(done, ops), Serial(tape, ops))
    decreases |ops|
  {
    hide BitKept, MasksOf, Step;
    InRange(ops, spans, done, |tape|);
    if ops != [] {
      StepTracks(s, spans, done, tape, ops[0]);
      RunTracks(Step(s, ops[0]), spans, DoneAfter(done, ops[0]), SerialStep(tape, ops[0]), ops[1..]);
    }
  }

  predicate AllDone(done: seq<bool>) {
    forall w :: 0 <= w < |done| ==> done[w]
  }

  /** The tape of bytes, and fresh boundaries for the writers. */
  function Bits(bytes: seq<bv8>): seq<bool> {
    BitsOf(bytes, 0, 8 * |bytes|)
  }

  function Fresh(spans: seq<Span>): (bs: seq<Boundary>)
    ensures |bs| == |spans| && forall w :: 0 <= w < |spans| ==> bs[w] == Init(spans[w])
  {
    seq(|spans|, w requires 0 <= w < |spans| => Init(spans[w]))
  }

  /** The tape is zero on every span. */
  ghost predicate Zeroed(bytes: seq<bv8>, spans: seq<Span>) {
    forall w, p: nat :: 0 <= w < |spans| && spans[w].Has(p) && p < 8 * |bytes| ==> !BitAt(bytes, p)
  }

  lemma FreshTracks(bytes: seq<bv8>, spans: seq<Span>)
    requires Disjoint(spans, 8 * |bytes|) && Zeroed(bytes, spans)
    ensures Tracks(State(bytes, Fresh(spans)), spans, seq(|spans|, _ => false), Bits(bytes))
  {
    hide BitAt, MasksOf;
    var s, done, tape := State(bytes, Fresh(spans)), seq(|spans|, _ => false), Bits(bytes);
    forall w | 0 <= w < |spans| ensures MasksOf(s.boundaries[w], spans[w]) {
      InitMasks(spans[w]);
    }
    forall p | 0 <= p < |tape| ensures BitKept(s, spans, done, tape, p) {
      forall w | 0 <= w < |spans| && Pending(s, spans, done, w, p)
        ensures BitSet(StagedValue(s.boundaries[w], p / 8), p % 8) == tape[p] {
        ZeroMask(0);
      }
    }
  }

  /** What the shared bytes end as when the writers run in the given interleaving. */
  ghost function Parallel(bytes: seq<bv8>, spans: seq<Span>, ops: seq<Op>): seq<bv8>
    requires Disjoint(spans, 8 * |bytes|) && Zeroed(bytes, spans)
    requires Interleaving(ops, spans, seq(|spans|, _ => false))
  {
    FreshTracks(bytes, spans);
    RunOps(State(bytes, Fresh(spans)), spans, seq(|spans|, _ => false), Bits(bytes), ops).bytes
  }

  /**
   * Staged parallel writing equals serial writing. For disjoint spans of a tape that is clear on them, in any
   * interleaving of the writers and of their commits, every bit ends as the serial order of the writes leaves it.
   */
  lemma StagedIsSerial(bytes: seq<bv8>, spans: seq<Span>, ops: seq<Op>)
    requires Disjoint(spans, 8 * |bytes|) && Zeroed(bytes, spans)
    requires Interleaving(ops, spans, seq(|spans|, _ => false))
    ensures forall i :: 0 <= i < |ops| ==> ops[i].w < |spans| && (ops[i].Put? ==> ops[i].p < 8 * |bytes|)
    ensures AllDone(DoneAll(seq(|spans|, _ => false), ops)) ==>
              Bits(Parallel(bytes, spans, ops)) == Serial(Bits(bytes), ops)
  {
    hide BitAt, MasksOf, Init;
    var s, start, tape := State(bytes, Fresh(spans)), seq(|spans|, _ => false), Bits(bytes);
    FreshTracks(bytes, spans);
    RunTracks(s, spans, start, tape, ops);
    var end, done := RunOps(s, spans, start, tape, ops), DoneAll(start, ops);
    if AllDone(done) {
      forall p | 0 <= p < |Serial(tape, ops)| ensures Bits(end.bytes)[p] == Serial(tape, ops)[p] {
        assert BitKept(end, spans, done, Serial(tape, ops), p);
      }
    }
  }

  // ----- the interleaving does not matter -----

  /** The value a bit ends with: the last write to it, or what it held before. */
  function LastWrite(ops: seq<Op>, p: nat, v: bool): bool
    decreases |ops|
  {
    if ops == [] then v else LastWrite(ops[1..], p, if ops[0].Put? && ops[0].p == p then ops[0].v else v)
  }

  /** One writer's operations, in its own order. */
  function OpsOf(ops: seq<Op>, w: nat): seq<Op> {
    if ops == [] then [] else (if ops[0].w == w then [ops[0]] else []) + OpsOf(ops[1..], w)
  }

  lemma {:induction false} SerialBits(tape: seq<bool>, ops: seq<Op>)
    requires forall i :: 0 <= i < |ops| && ops[i].Put? ==> ops[i].p < |tape|
    ensures |Serial(tape, ops)| == |tape|
    ensures forall p :: 0 <= p < |tape| ==> Serial(tape, ops)[p] == LastWrite(ops, p, tape[p])
    decreases |ops|
  {
    if ops != [] {
      SerialBits(SerialStep(tape, ops[0]), ops[1..]);
    }
  }

  /** A bit's value is decided by its owner's own writes; a bit nobody owns keeps its value. */
  lemma {:induction false} OwnersLastWrite(ops: seq<Op>, spans: seq<Span>, done: seq<bool>, size: nat, p: nat, v: bool)
    requires |spans| == |done| && Interleaving(ops, spans, done) && Disjoint(spans, size)
    ensures forall w :: 0 <= w < |spans| && spans[w].Has(p) ==> LastWrite(ops, p, v) == LastWrite(OpsOf(ops, w), p, v)
    ensures (forall w :: 0 <= w < |spans| ==> !spans[w].Has(p)) ==> LastWrite(ops, p, v) == v
    decreases |ops|
  {
    if ops != [] {
      var op := ops[0];
      OwnersLastWrite(ops[1..], spans, DoneAfter(done, op), size, p, if op.Put? && op.p == p then op.v else v);
      forall w | 0 <= w < |spans| && spans[w].Has(p)
        ensures LastWrite(ops, p, v) == LastWrite(OpsOf(ops, w), p, v)
      {
        if op.w == w {
          assert OpsOf(ops, w)[0] == op && OpsOf(ops, w)[1..] == OpsOf(ops[1..], w);
        } else {
          assert op.Put? ==> op.p != p;
          assert OpsOf(ops, w) == OpsOf(ops[1..], w);
        }
      }
    }
  }

  /** Bytes are determined by their bits. */
  lemma SameBytes(a: seq<bv8>, b: seq<bv8>)
    requires |a| == |b| && Bits(a) == Bits(b)
    ensures a == b
  {
    hide ShiftedBit;
    forall i | 0 <= i < |a| ensures a[i] == b[i] {
      forall j | 0 <= j < 8 ensures ShiftedBit(a[i], j) == ShiftedBit(b[i], j) {
        ByteBit(a, i, j);
        ByteBit(b, i, j);
        assert Bits(a)[8 * i + j] == Bits(b)[8 * i + j];
        BitValues(a[i], j);
        BitValues(b[i], j);
      }
      ByteOfBits(a[i], b[i]);
    }
  }

  lemma ByteBit(s: seq<bv8>, i: nat, j: nat)
    requires i < |s| && j < 8
    ensures 8 * i + j < 8 * |s| && Bits(s)[8 * i + j] == (ShiftedBit(s[i], j) != 0)
  {
    hide ShiftedBit;
    assert (8 * i + j) / 8 == i && (8 * i + j) % 8 == j;
  }

  lemma BitValues(b: bv8, j: nat)
    requires j < 8
    ensures ShiftedBit(b, j) == 0 || ShiftedBit(b, j) == 1
  {
  }

  lemma ByteOfBits(a: bv8, b: bv8)
    requires forall j :: 0 <= j < 8 ==> ShiftedBit(a, j) == ShiftedBit(b, j)
    ensures a == b
  {
    assert ShiftedBit(a, 0) == ShiftedBit(b, 0) && ShiftedBit(a, 1) == ShiftedBit(b, 1)
        && ShiftedBit(a, 2) == ShiftedBit(b, 2) && ShiftedBit(a, 3) == ShiftedBit(b, 3)
        && ShiftedBit(a, 4) == ShiftedBit(b, 4) && ShiftedBit(a, 5) == ShiftedBit(b, 5)
        && ShiftedBit(a, 6) == ShiftedBit(b, 6) && ShiftedBit(a, 7) == ShiftedBit(b, 7);
  }

  /** An interleaving in which every writer commits. */
  ghost predicate Schedule(ops: seq<Op>, spans: seq<Span>) {
    && Interleaving(ops, spans, seq(|spans|, _ => false))
    && (forall i :: 0 <= i < |ops| ==> ops[i].w < |spans|)
    && AllDone(DoneAll(seq(|spans|, _ => false), ops))
  }

  /** Bit by bit: a writer's last write to a bit of its own, and what was there everywhere else. */
  ghost predicate ResultBit(after: seq<bv8>, bytes: seq<bv8>, spans: seq<Span>, ops: seq<Op>, p: nat)
    requires |after| == |bytes| && p < 8 * |bytes|
  {
    && (forall w :: 0 <= w < |spans| && spans[w].Has(p) ==> BitAt(after, p) == LastWrite(OpsOf(ops, w), p, false))
    && ((forall w :: 0 <= w < |spans| ==> !spans[w].Has(p)) ==> BitAt(after, p) == BitAt(bytes, p))
  }

  lemma ParallelBits(bytes: seq<bv8>, spans: seq<Span>, ops: seq<Op>)
    requires Disjoint(spans, 8 * |bytes|) && Zeroed(bytes, spans) && Schedule(ops, spans)
    ensures |Parallel(bytes, spans, ops)| == |bytes|
    ensures forall p :: 0 <= p < 8 * |bytes| ==> ResultBit(Parallel(bytes, spans, ops), bytes, spans, ops, p)
  {
    hide BitAt, Parallel, LastWrite, OpsOf, Interleaving;
    StagedIsSerial(bytes, spans, ops);
    var after, tape := Parallel(bytes, spans, ops), Bits(bytes);
    SerialBits(tape, ops);
    forall p | 0 <= p < 8 * |bytes| ensures ResultBit(after, bytes, spans, ops, p) {
      OwnersLastWrite(ops, spans, seq(|spans|, _ => false), 8 * |bytes|, p, tape[p]);
    }
  }

  /**
   * The tape does not depend on the schedule: two interleavings in which every writer does the same operations in the
   * same order leave the same bytes.
   */
  lemma ScheduleIndependent(bytes: seq<bv8>, spans: seq<Span>, ops: seq<Op>, others: seq<Op>)
    requires Disjoint(spans, 8 * |bytes|) && Zeroed(bytes, spans) && Schedule(ops, spans) && Schedule(others, spans)
    requires forall w :: 0 <= w < |spans| ==> OpsOf(ops, w) == OpsOf(others, w)
    ensures Parallel(bytes, spans, ops) == Parallel(bytes, spans, others)
  {
    hide BitAt, Parallel, LastWrite, OpsOf, Interleaving, Disjoint, Zeroed;
    ParallelBits(bytes, spans, ops);
    ParallelBits(bytes, spans, others);
    var a, b := Parallel(bytes, spans, ops), Parallel(bytes, spans, others);
    forall p | 0 <= p < 8 * |bytes| ensures BitAt(a, p) == BitAt(b, p) {
      assert ResultBit(a, bytes, spans, ops, p) && ResultBit(b, bytes, spans, others, p);
    }
    SameBytes(a, b);
  }

  // ----- the boundary object -----

  /** The staged bytes of one writer, updated in place. */
  class PackedBoundary {
    var first: nat
    var last: nat
    var firstMask: bv8
    var lastMask: bv8
    var firstValue: bv8
    var lastValue: bv8

    ghost function Value(): Boundary
      reads this
    {
      Boundary(first, last, firstMask, lastMask, firstValue, lastValue)
    }

    constructor (bit: nat, bits: nat)
      ensures Value() == Init(Span(bit, bits)) && MasksOf(Value(), Span(bit, bits))
    {
      first, last, firstMask, lastMask, firstValue, lastValue := 0, 0, 0, 0, 0, 0;
      new;
      if bits != 0 {
        first, last := bit / 8, (bit + bits - 1) / 8;
        var start, end := bit % 8, (bit + bits) % 8;
        if first == last {
          var mask := ShiftedUp(LowMask(bits), start);
          if mask != 255 {
            firstMask := mask;
          }
        } else {
          if start != 0 {
            firstMask := ShiftedUp(255, start);
          }
          if end != 0 {
            lastMask := LowMask(end);
          }
        }
      }
      InitMasks(Span(bit, bits));
    }

    method Read(bytes: array<bv8>, index: nat) returns (value: bv8)
      requires index < bytes.Length
      ensures value == ReadByte(Value(), bytes[..], index)
    {
      if firstMask != 0 && index == first {
        return firstValue;
      }
      if lastMask != 0 && index == last {
        return lastValue;
      }
      return bytes[index];
    }

    method Write(bytes: array<bv8>, index: nat, value: bv8)
      requires index < bytes.Length && bytes as object != this
      modifies this`firstValue, this`lastValue, bytes
      ensures Value() == WrittenBoundary(old(Value()), index, value)
      ensures bytes[..] == WrittenBytes(old(Value()), old(bytes[..]), index, value)
    {
      if firstMask != 0 && index == first {
        firstValue := value;
      } else if lastMask != 0 && index == last {
        lastValue := value;
      } else {
        bytes[index] := value;
      }
    }

    method Commit(bytes: array<bv8>)
      requires bytes as object != this
      requires (firstMask != 0 ==> first < bytes.Length) && (lastMask != 0 ==> last < bytes.Length)
      modifies bytes
      ensures bytes[..] == Committed(Value(), old(bytes[..]))
    {
      if firstMask != 0 {
        bytes[first] := Merged(bytes[first], firstValue, firstMask);
      }
      if lastMask != 0 {
        bytes[last] := Merged(bytes[last], lastValue, lastMask);
      }
    }
  }
}
