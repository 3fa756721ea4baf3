/** Writing several packed gates at once: wide words shifted over byte boundaries, byte by byte and gate by gate. */
module PackedWords {
  import opened PackedTape

  // ----- what the bytes become -----

  /** The first byte of an unaligned write keeps its gates below slot. */
  function FirstByte(old0: bv8, c: bv8, slot: nat): bv8 {
    if slot == 1 then (old0 & 0x03) | (c << 2)
    else if slot == 2 then (old0 & 0x0f) | (c << 4)
    else (old0 & 0x3f) | (c << 6)
  }

  /** A byte in the middle joins two control bytes. */
  function MiddleByte(low: bv8, high: bv8, slot: nat): bv8 {
    if slot == 1 then (low >> 6) | (high << 2)
    else if slot == 2 then (low >> 4) | (high << 4)
    else (low >> 2) | (high << 6)
  }

  /** The last byte keeps its gates from slot on. */
  function LastByte(old0: bv8, c: bv8, slot: nat): bv8 {
    if slot == 1 then (old0 & 0xfc) | (c >> 6)
    else if slot == 2 then (old0 & 0xf0) | (c >> 4)
    else (old0 & 0xc0) | (c >> 2)
  }

  lemma FirstSlots(old0: bv8, c: bv8, slot: nat, s: nat)
    requires 0 < slot < 4 && s < 4
    ensures GetSlot(FirstByte(old0, c, slot), s) == if s < slot then GetSlot(old0, s) else GetSlot(c, s - slot)
  {
  }

  lemma MiddleSlots(low: bv8, high: bv8, slot: nat, s: nat)
    requires 0 < slot < 4 && s < 4
    ensures GetSlot(MiddleByte(low, high, slot), s) == if s < slot then GetSlot(low, s + 4 - slot)
            else GetSlot(high, s - slot)
  {
    hide GetSlot, MiddleByte;
    if slot == 1 {
      MiddleSlots1(low, high, s);
    } else if slot == 2 {
      MiddleSlots2(low, high, s);
    } else {
      MiddleSlots3(low, high, s);
    }
  }

  lemma MiddleSlots1(low: bv8, high: bv8, s: nat)
    requires s < 4
    ensures GetSlot(MiddleByte(low, high, 1), s) == if s < 1 then GetSlot(low, s + 3) else GetSlot(high, s - 1)
  {
  }

  lemma MiddleSlots2(low: bv8, high: bv8, s: nat)
    requires s < 4
    ensures GetSlot(MiddleByte(low, high, 2), s) == if s < 2 then GetSlot(low, s + 2) else GetSlot(high, s - 2)
  {
  }

  lemma MiddleSlots3(low: bv8, high: bv8, s: nat)
    requires s < 4
    ensures GetSlot(MiddleByte(low, high, 3), s) == if s < 3 then GetSlot(low, s + 1) else GetSlot(high, s - 3)
  {
  }

  lemma LastSlots(old0: bv8, c: bv8, slot: nat, s: nat)
    requires 0 < slot < 4 && s < 4
    ensures GetSlot(LastByte(old0, c, slot), s) == if s < slot then GetSlot(c, s + 4 - slot) else GetSlot(old0, s)
  {
  }

  /** Byte q of the buffer after the control bytes cs are written from this gate on. */
  function WrittenByte(bytes: seq<bv8>, gate: nat, cs: seq<bv8>, q: nat): bv8
    requires q < |bytes| && cs != []
  {
    var first, slot := gate / 4, gate % 4;
    if slot == 0 then (if first <= q < first + |cs| then cs[q - first] else bytes[q])
    else if q == first then FirstByte(bytes[q], cs[0], slot)
    else if first < q < first + |cs| then MiddleByte(cs[q - first - 1], cs[q - first], slot)
    else if q == first + |cs| then LastByte(bytes[q], cs[|cs| - 1], slot)
    else bytes[q]
  }

  /** The buffer after the control bytes are written. */
  ghost predicate Written(after: seq<bv8>, bytes: seq<bv8>, gate: nat, cs: seq<bv8>) {
    |after| == |bytes| && cs != [] && forall q :: 0 <= q < |bytes| ==> after[q] == WrittenByte(bytes, gate, cs, q)
  }

  /** Gate by gate: the four gates of each control byte in turn, and every other gate as before. */
  lemma WrittenGate(after: seq<bv8>, bytes: seq<bv8>, gate: nat, cs: seq<bv8>, g: nat)
    requires Written(after, bytes, gate, cs) && gate + 4 * |cs| <= 4 * |bytes| && g < 4 * |bytes|
    ensures GateAt(after, g) == if gate <= g < gate + 4 * |cs| then GetSlot(cs[(g - gate) / 4], (g - gate) % 4)
            else GateAt(bytes, g)
  {
    hide GetSlot, FirstByte, MiddleByte, LastByte;
    var first, slot, q, s := gate / 4, gate % 4, g / 4, g % 4;
    assert after[q] == WrittenByte(bytes, gate, cs, q);
    if slot != 0 {
      if q == first {
        FirstSlots(bytes[q], cs[0], slot, s);
      } else if first < q < first + |cs| {
        MiddleSlots(cs[q - first - 1], cs[q - first], slot, s);
      } else if q == first + |cs| {
        LastSlots(bytes[q], cs[|cs| - 1], slot, s);
      }
    }
  }

  // ----- the wide words -----

  function Join2(b0: bv8, b1: bv8): bv16 { (b0 as bv16) | ((b1 as bv16) << 8) }

  function Merge16(x: bv16, c: bv16, width: bv16, slot: nat): bv16 {
    if slot == 1 then (x & !(width << 2)) | (c << 2)
    else if slot == 2 then (x & !(width << 4)) | (c << 4)
    else (x & !(width << 6)) | (c << 6)
  }

  function Low16(x: bv16): bv8 { (x & 0xff) as bv8 }

  function High16(x: bv16): bv8 { (x >> 8) as bv8 }

  lemma FourBytesAt1(b0: bv8, b1: bv8, c: bv8)
    ensures Low16(Merge16(Join2(b0, b1), c as bv16, 255, 1)) == FirstByte(b0, c, 1)
    ensures High16(Merge16(Join2(b0, b1), c as bv16, 255, 1)) == LastByte(b1, c, 1)
  {
  }

  lemma FourBytesAt2(b0: bv8, b1: bv8, c: bv8)
    ensures Low16(Merge16(Join2(b0, b1), c as bv16, 255, 2)) == FirstByte(b0, c, 2)
    ensures High16(Merge16(Join2(b0, b1), c as bv16, 255, 2)) == LastByte(b1, c, 2)
  {
  }

  lemma FourBytesAt3(b0: bv8, b1: bv8, c: bv8)
    ensures Low16(Merge16(Join2(b0, b1), c as bv16, 255, 3)) == FirstByte(b0, c, 3)
    ensures High16(Merge16(Join2(b0, b1), c as bv16, 255, 3)) == LastByte(b1, c, 3)
  {
  }

  lemma FourBytes(b0: bv8, b1: bv8, c: bv8, slot: nat)
    requires 0 < slot < 4
    ensures Low16(Merge16(Join2(b0, b1), c as bv16, 255, slot)) == FirstByte(b0, c, slot)
    ensures High16(Merge16(Join2(b0, b1), c as bv16, 255, slot)) == LastByte(b1, c, slot)
  {
    hide Low16, High16, Merge16, Join2, FirstByte, LastByte;
    if slot == 1 {
      FourBytesAt1(b0, b1, c);
    } else if slot == 2 {
      FourBytesAt2(b0, b1, c);
    } else {
      FourBytesAt3(b0, b1, c);
    }
  }

  function Join3(b0: bv8, b1: bv8, b2: bv8): bv32 { (b0 as bv32) | ((b1 as bv32) << 8) | ((b2 as bv32) << 16) }

  function Merge32(x: bv32, c: bv16, slot: nat): bv32 {
    if slot == 1 then (x & !(0xffff << 2)) | ((c as bv32) << 2)
    else if slot == 2 then (x & !(0xffff << 4)) | ((c as bv32) << 4)
    else (x & !(0xffff << 6)) | ((c as bv32) << 6)
  }

  function Byte32(x: bv32, part: nat): bv8 {
    if part == 0 then (x & 0xff) as bv8 else if part == 1 then ((x >> 8) & 0xff) as bv8
    else if part == 2 then ((x >> 16) & 0xff) as bv8 else ((x >> 24) & 0xff) as bv8
  }

  lemma EightBytesAt1(b0: bv8, b1: bv8, b2: bv8, c: bv16)
    ensures var u := Merge32(Join3(b0, b1, b2), c, 1);
            && Byte32(u, 0) == FirstByte(b0, Low16(c), 1)
            && Byte32(u, 1) == MiddleByte(Low16(c), High16(c), 1)
            && Byte32(u, 2) == LastByte(b2, High16(c), 1)
  {
  }

  lemma EightBytesAt2(b0: bv8, b1: bv8, b2: bv8, c: bv16)
    ensures var u := Merge32(Join3(b0, b1, b2), c, 2);
            && Byte32(u, 0) == FirstByte(b0, Low16(c), 2)
            && Byte32(u, 1) == MiddleByte(Low16(c), High16(c), 2)
            && Byte32(u, 2) == LastByte(b2, High16(c), 2)
  {
  }

  lemma EightBytesAt3(b0: bv8, b1: bv8, b2: bv8, c: bv16)
    ensures var u := Merge32(Join3(b0, b1, b2), c, 3);
            && Byte32(u, 0) == FirstByte(b0, Low16(c), 3)
            && Byte32(u, 1) == MiddleByte(Low16(c), High16(c), 3)
            && Byte32(u, 2) == LastByte(b2, High16(c), 3)
  {
  }

  lemma EightBytes(b0: bv8, b1: bv8, b2: bv8, c: bv16, slot: nat)
    requires 0 < slot < 4
    ensures var u := Merge32(Join3(b0, b1, b2), c, slot);
            && Byte32(u, 0) == FirstByte(b0, Low16(c), slot)
            && Byte32(u, 1) == MiddleByte(Low16(c), High16(c), slot)
            && Byte32(u, 2) == LastByte(b2, High16(c), slot)
  {
    hide Low16, High16, Merge32, Join3, Byte32, FirstByte, MiddleByte, LastByte;
    if slot == 1 {
      EightBytesAt1(b0, b1, b2, c);
    } else if slot == 2 {
      EightBytesAt2(b0, b1, b2, c);
    } else {
      EightBytesAt3(b0, b1, b2, c);
    }
  }

  function Join5(b0: bv8, b1: bv8, b2: bv8, b3: bv8, b4: bv8): bv64 {
    (b0 as bv64) | ((b1 as bv64) << 8) | ((b2 as bv64) << 16) | ((b3 as bv64) << 24) | ((b4 as bv64) << 32)
  }

  function Merge64(x: bv64, c: bv32, slot: nat): bv64 {
    if slot == 1 then (x & !(0xffff_ffff << 2)) | ((c as bv64) << 2)
    else if slot == 2 then (x & !(0xffff_ffff << 4)) | ((c as bv64) << 4)
    else (x & !(0xffff_ffff << 6)) | ((c as bv64) << 6)
  }

  function Byte64(x: bv64, part: nat): bv8 {
    if part == 0 then (x & 0xff) as bv8 else if part == 1 then ((x >> 8) & 0xff) as bv8
    else if part == 2 then ((x >> 16) & 0xff) as bv8 else if part == 3 then ((x >> 24) & 0xff) as bv8
    else ((x >> 32) & 0xff) as bv8
  }

  lemma SixteenBytesAt1(b0: bv8, b1: bv8, b2: bv8, b3: bv8, b4: bv8, c: bv32)
    ensures var u := Merge64(Join5(b0, b1, b2, b3, b4), c, 1);
            && Byte64(u, 0) == FirstByte(b0, Byte32(c, 0), 1)
            && Byte64(u, 1) == MiddleByte(Byte32(c, 0), Byte32(c, 1), 1)
            && Byte64(u, 2) == MiddleByte(Byte32(c, 1), Byte32(c, 2), 1)
            && Byte64(u, 3) == MiddleByte(Byte32(c, 2), Byte32(c, 3), 1)
            && Byte64(u, 4) == LastByte(b4, Byte32(c, 3), 1)
  {
  }

  lemma SixteenBytesAt2(b0: bv8, b1: bv8, b2: bv8, b3: bv8, b4: bv8, c: bv32)
    ensures var u := Merge64(Join5(b0, b1, b2, b3, b4), c, 2);
            && Byte64(u, 0) == FirstByte(b0, Byte32(c, 0), 2)
            && Byte64(u, 1) == MiddleByte(Byte32(c, 0), Byte32(c, 1), 2)
            && Byte64(u, 2) == MiddleByte(Byte32(c, 1), Byte32(c, 2), 2)
            && Byte64(u, 3) == MiddleByte(Byte32(c, 2), Byte32(c, 3), 2)
            && Byte64(u, 4) == LastByte(b4, Byte32(c, 3), 2)
  {
  }

  lemma SixteenBytesAt3(b0: bv8, b1: bv8, b2: bv8, b3: bv8, b4: bv8, c: bv32)
    ensures var u := Merge64(Join5(b0, b1, b2, b3, b4), c, 3);
            && Byte64(u, 0) == FirstByte(b0, Byte32(c, 0), 3)
            && Byte64(u, 1) == MiddleByte(Byte32(c, 0), Byte32(c, 1), 3)
            && Byte64(u, 2) == MiddleByte(Byte32(c, 1), Byte32(c, 2), 3)
            && Byte64(u, 3) == MiddleByte(Byte32(c, 2), Byte32(c, 3), 3)
            && Byte64(u, 4) == LastByte(b4, Byte32(c, 3), 3)
  {
  }

  lemma SixteenBytes(b0: bv8, b1: bv8, b2: bv8, b3: bv8, b4: bv8, c: bv32, slot: nat)
    requires 0 < slot < 4
    ensures var u := Merge64(Join5(b0, b1, b2, b3, b4), c, slot);
            && Byte64(u, 0) == FirstByte(b0, Byte32(c, 0), slot)
            && Byte64(u, 1) == MiddleByte(Byte32(c, 0), Byte32(c, 1), slot)
            && Byte64(u, 2) == MiddleByte(Byte32(c, 1), Byte32(c, 2), slot)
            && Byte64(u, 3) == MiddleByte(Byte32(c, 2), Byte32(c, 3), slot)
            && Byte64(u, 4) == LastByte(b4, Byte32(c, 3), slot)
  {
    hide Byte64, Merge64, Join5, Byte32, FirstByte, MiddleByte, LastByte;
    if slot == 1 {
      SixteenBytesAt1(b0, b1, b2, b3, b4, c);
    } else if slot == 2 {
      SixteenBytesAt2(b0, b1, b2, b3, b4, c);
    } else {
      SixteenBytesAt3(b0, b1, b2, b3, b4, c);
    }
  }

  // ----- the writes -----

  /** Gates set one after the other. */
  function SetAll(gates: seq<bv8>, index: nat, values: seq<bv8>): (r: seq<bv8>)
    requires index + |values| <= |gates|
    ensures |r| == |gates|
    decreases |values|
  {
    if values == [] then gates else SetAll(gates[index := values[0]], index + 1, values[1..])
  }

  lemma {:induction false} SetAllAt(gates: seq<bv8>, index: nat, values: seq<bv8>, g: nat)
    requires index + |values| <= |gates| && g < |gates|
    ensures SetAll(gates, index, values)[g] == if index <= g < index + |values| then values[g - index] else gates[g]
    decreases |values|
  {
    if values != [] {
      SetAllAt(gates[index := values[0]], index + 1, values[1..], g);
    }
  }

  /** The four gates of each byte. */
  function GatesIn(cs: seq<bv8>): (gs: seq<bv8>)
    ensures |gs| == 4 * |cs| && forall g :: 0 <= g < 4 * |cs| ==> gs[g] == GetSlot(cs[g / 4], g % 4)
  {
    seq(4 * |cs|, g requires 0 <= g < 4 * |cs| => GetSlot(cs[g / 4], g % 4))
  }

  /** Written bytes are the gates set one after the other, and the padding stays clear. */
  lemma WrittenIsSetAll(after: seq<bv8>, bytes: seq<bv8>, gate: nat, cs: seq<bv8>, count: nat)
    requires Written(after, bytes, gate, cs) && gate + 4 * |cs| <= count <= 4 * |bytes|
    ensures GatesOf(after, count) == SetAll(GatesOf(bytes, count), gate, GatesIn(cs))
    ensures forall g :: count <= g < 4 * |bytes| ==> GateAt(after, g) == GateAt(bytes, g)
  {
    hide Written, GateAt, GetSlot;
    SameLength(after, bytes, gate, cs);
    forall g | 0 <= g < 4 * |bytes|
      ensures g < count ==> GatesOf(after, count)[g] == SetAll(GatesOf(bytes, count), gate, GatesIn(cs))[g]
      ensures count <= g ==> GateAt(after, g) == GateAt(bytes, g)
    {
      WrittenGate(after, bytes, gate, cs, g);
      if g < count {
        SetAllAt(GatesOf(bytes, count), gate, GatesIn(cs), g);
      }
    }
  }

  lemma SameLength(after: seq<bv8>, bytes: seq<bv8>, gate: nat, cs: seq<bv8>)
    requires Written(after, bytes, gate, cs)
    ensures |after| == |bytes|
  {
  }

  /** Four encoded gates: one byte, aligned or not. */
  method SetFourEncoded(controls: PackedControls, index: nat, c: bv8) returns (ok: bool)
    requires controls.Valid()
    modifies controls`bytes
    ensures controls.Valid() && ok == (index + 4 <= controls.count)
    ensures controls.Gates() == if ok then SetAll(old(controls.Gates()), index, GatesIn([c])) else old(controls.Gates())
  {
    hide GetSlot, FirstByte, LastByte, Merge16, Join2, Low16, High16;
    ok := index + 4 <= controls.count;
    if ok {
      var bytes, q, slot := controls.bytes, index / 4, index % 4;
      if slot == 0 {
        controls.bytes := bytes[q := c];
      } else {
        var updated := Merge16(Join2(bytes[q], bytes[q + 1]), c as bv16, 255, slot);
        FourBytes(bytes[q], bytes[q + 1], c, slot);
        controls.bytes := bytes[q := Low16(updated)][q + 1 := High16(updated)];
      }
      assert Written(controls.bytes, bytes, index, [c]);
      WrittenIsSetAll(controls.bytes, bytes, index, [c], controls.count);
    }
  }

  /** Eight encoded gates. */
  method SetEightEncoded(controls: PackedControls, index: nat, c: bv16) returns (ok: bool)
    requires controls.Valid()
    modifies controls`bytes
    ensures controls.Valid() && ok == (index + 8 <= controls.count)
    ensures controls.Gates() == if ok then SetAll(old(controls.Gates()), index, GatesIn([Low16(c), High16(c)]))
            else old(controls.Gates())
  {
    hide GetSlot, FirstByte, MiddleByte, LastByte, Merge32, Join3, Byte32, Low16, High16;
    ok := index + 8 <= controls.count;
    if ok {
      var bytes, q, slot := controls.bytes, index / 4, index % 4;
      if slot == 0 {
        controls.bytes := bytes[q := Low16(c)][q + 1 := High16(c)];
      } else {
        var updated := Merge32(Join3(bytes[q], bytes[q + 1], bytes[q + 2]), c, slot);
        EightBytes(bytes[q], bytes[q + 1], bytes[q + 2], c, slot);
        controls.bytes := bytes[q := Byte32(updated, 0)][q + 1 := Byte32(updated, 1)][q + 2 := Byte32(updated, 2)];
      }
      assert Written(controls.bytes, bytes, index, [Low16(c), High16(c)]);
      WrittenIsSetAll(controls.bytes, bytes, index, [Low16(c), High16(c)], controls.count);
    }
  }

  function BytesIn(c: bv32): seq<bv8> {
    [Byte32(c, 0), Byte32(c, 1), Byte32(c, 2), Byte32(c, 3)]
  }

  function PutFour(bytes: seq<bv8>, q: nat, c: bv32): seq<bv8>
    requires q + 4 <= |bytes|
  {
    bytes[q := Byte32(c, 0)][q + 1 := Byte32(c, 1)][q + 2 := Byte32(c, 2)][q + 3 := Byte32(c, 3)]
  }

  function PutFive(bytes: seq<bv8>, q: nat, u: bv64): seq<bv8>
    requires q + 5 <= |bytes|
  {
    bytes[q := Byte64(u, 0)][q + 1 := Byte64(u, 1)][q + 2 := Byte64(u, 2)][q + 3 := Byte64(u, 3)][q + 4 := Byte64(u, 4)]
  }

  lemma SixteenWritten(after: seq<bv8>, bytes: seq<bv8>, gate: nat, c: bv32)
    requires gate + 16 <= 4 * |bytes|
    requires var q, slot := gate / 4, gate % 4;
             after == if slot == 0 then PutFour(bytes, q, c)
                      else PutFive(bytes, q,
                                   Merge64(Join5(bytes[q], bytes[q + 1], bytes[q + 2], bytes[q + 3], bytes[q + 4]), c,
                                           slot))
    ensures Written(after, bytes, gate, BytesIn(c))
  {
    hide FirstByte, MiddleByte, LastByte, Merge64, Join5, Byte32, Byte64;
    var q, slot, cs := gate / 4, gate % 4, BytesIn(c);
    if slot != 0 {
      SixteenBytes(bytes[q], bytes[q + 1], bytes[q + 2], bytes[q + 3], bytes[q + 4], c, slot);
    }
    forall p | 0 <= p < |bytes| ensures after[p] == WrittenByte(bytes, gate, cs, p) {
      assert p < q || p == q || p == q + 1 || p == q + 2 || p == q + 3 || p == q + 4 || q + 4 < p;
    }
  }

  /** Sixteen encoded gates. */
  method SetSixteenEncoded(controls: PackedControls, index: nat, c: bv32) returns (ok: bool)
    requires controls.Valid()
    modifies controls`bytes
    ensures controls.Valid() && ok == (index + 16 <= controls.count)
    ensures controls.Gates() == if ok then SetAll(old(controls.Gates()), index, GatesIn(BytesIn(c)))
            else old(controls.Gates())
  {
    hide GetSlot, FirstByte, MiddleByte, LastByte, Merge64, Join5, Byte32, Byte64;
    ok := index + 16 <= controls.count;
    if ok {
      var bytes, q, slot := controls.bytes, index / 4, index % 4;
      if slot == 0 {
        controls.bytes := PutFour(bytes, q, c);
      } else {
        var updated := Merge64(Join5(bytes[q], bytes[q + 1], bytes[q + 2], bytes[q + 3], bytes[q + 4]), c, slot);
        controls.bytes := PutFive(bytes, q, updated);
      }
      SixteenWritten(controls.bytes, bytes, index, c);
      WrittenIsSetAll(controls.bytes, bytes, index, BytesIn(c), controls.count);
    }
  }

  /** Bytes are canonical: tapes with the same gates have the same bytes. */
  lemma CanonicalBytes(a: PackedControls, b: PackedControls)
    requires a.Valid() && b.Valid()
    ensures a.bytes == b.bytes && a.count == b.count <==> a.Gates() == b.Gates()
  {
    if a.Gates() == b.Gates() {
      assert a.count == |a.Gates()| == |b.Gates()| == b.count;
      forall q | 0 <= q < |a.bytes| ensures a.bytes[q] == b.bytes[q] {
        forall s | 0 <= s < 4 ensures GetSlot(a.bytes[q], s) == GetSlot(b.bytes[q], s) {
          var g := 4 * q + s;
          assert g < a.count ==> a.Gates()[g] == b.Gates()[g];
          assert GateAt(a.bytes, g) == GateAt(b.bytes, g);
        }
        ByteOfSlots(a.bytes[q], b.bytes[q]);
      }
    }
  }

  // ----- pairs, resizing, copying -----

  /** A pair inside one byte. */
  function PairByte(b: bv8, c: bv8, slot: nat): bv8 {
    if slot == 0 then (b & !15) | c else if slot == 1 then (b & !(15 << 2)) | (c << 2) else (b & !(15 << 4)) | (c << 4)
  }

  lemma PairSlots(b: bv8, c: bv8, slot: nat, s: nat)
    requires slot <= 2 && s < 4 && c <= 15
    ensures GetSlot(PairByte(b, c, slot), s) == if slot <= s <= slot + 1 then GetSlot(c, s - slot) else GetSlot(b, s)
  {
  }

  lemma PairAcross(b0: bv8, b1: bv8, c: bv8, s: nat)
    requires s < 4 && c <= 15
    ensures var u := Merge16(Join2(b0, b1), c as bv16, 15, 3);
            && GetSlot(Low16(u), s) == (if s == 3 then GetSlot(c, 0) else GetSlot(b0, s))
            && GetSlot(High16(u), s) == (if s == 0 then GetSlot(c, 1) else GetSlot(b1, s))
  {
    hide Low16, High16, Merge16, Join2;
    PairBytesAcross(b0, b1, c);
  }

  lemma PairBytesAcross(b0: bv8, b1: bv8, c: bv8)
    requires c <= 15
    ensures Low16(Merge16(Join2(b0, b1), c as bv16, 15, 3)) == (b0 & 0x3f) | (c << 6)
    ensures High16(Merge16(Join2(b0, b1), c as bv16, 15, 3)) == (b1 & 0xfc) | (c >> 2)
  {
  }

  /** The buffer after two gates are written. */
  function PairBytes(bytes: seq<bv8>, gate: nat, c: bv8): (after: seq<bv8>)
    requires gate + 2 <= 4 * |bytes|
    ensures |after| == |bytes|
  {
    if gate % 4 <= 2 then bytes[gate / 4 := PairByte(bytes[gate / 4], c, gate % 4)]
    else
      bytes[gate / 4 := Low16(Merge16(Join2(bytes[gate / 4], bytes[gate / 4 + 1]), c as bv16, 15, 3))]
           [gate / 4 + 1 := High16(Merge16(Join2(bytes[gate / 4], bytes[gate / 4 + 1]), c as bv16, 15, 3))]
  }

  lemma PairGate(bytes: seq<bv8>, gate: nat, c: bv8, g: nat)
    requires gate + 2 <= 4 * |bytes| && g < 4 * |bytes| && c <= 15
    ensures GateAt(PairBytes(bytes, gate, c), g) == if gate <= g <= gate + 1 then GetSlot(c, g - gate)
            else GateAt(bytes, g)
  {
    hide GetSlot, PairByte, Merge16, Join2, Low16, High16;
    if gate % 4 <= 2 {
      PairSlots(bytes[gate / 4], c, gate % 4, g % 4);
    } else {
      PairAcross(bytes[gate / 4], bytes[gate / 4 + 1], c, g % 4);
    }
  }

  /** Two encoded gates; an encoding above fifteen is refused. */
  method SetTwoEncoded(controls: PackedControls, index: nat, c: bv8) returns (ok: bool)
    requires controls.Valid()
    modifies controls`bytes
    ensures controls.Valid() && ok == (index + 2 <= controls.count && c <= 15)
    ensures controls.Gates() == if ok then SetAll(old(controls.Gates()), index, [GetSlot(c, 0), GetSlot(c, 1)])
            else old(controls.Gates())
  {
    hide GetSlot, PairByte, Merge16, Join2, Low16, High16;
    ok := index + 2 <= controls.count && c <= 15;
    if ok {
      ghost var bytes, gates := controls.bytes, controls.Gates();
      var q, slot := index / 4, index % 4;
      if slot <= 2 {
        controls.bytes := controls.bytes[q := PairByte(controls.bytes[q], c, slot)];
      } else {
        var updated := Merge16(Join2(controls.bytes[q], controls.bytes[q + 1]), c as bv16, 15, 3);
        controls.bytes := controls.bytes[q := Low16(updated)][q + 1 := High16(updated)];
      }
      assert controls.bytes == PairBytes(bytes, index, c);
      forall g | 0 <= g < 4 * |bytes|
        ensures GateAt(controls.bytes, g) == if index <= g <= index + 1 then GetSlot(c, g - index) else GateAt(bytes, g)
        ensures g < controls.count ==>
                  SetAll(gates, index, [GetSlot(c, 0), GetSlot(c, 1)])[g] == GateAt(controls.bytes, g)
      {
        PairGate(bytes, index, c, g);
        if g < controls.count {
          SetAllAt(gates, index, [GetSlot(c, 0), GetSlot(c, 1)], g);
        }
      }
      assert controls.Gates() == SetAll(gates, index, [GetSlot(c, 0), GetSlot(c, 1)]);
    }
  }

  /** Gates [lo, hi) of a copy are done. */
  ghost predicate Copied(t: seq<bv8>, t0: seq<bv8>, offset: nat, values: seq<bv8>, lo: nat, hi: nat) {
    && |t| == |t0| && lo <= hi <= |values| && offset + |values| <= |t0|
    && forall g :: 0 <= g < |t0| ==> t[g] == if offset + lo <= g < offset + hi then values[g - offset] else t0[g]
  }

  lemma CopiedStep(t: seq<bv8>, t0: seq<bv8>, offset: nat, values: seq<bv8>, lo: nat, hi: nat, i: nat)
    requires Copied(t, t0, offset, values, lo, hi) && i < |values| && (i == hi || i + 1 == lo)
    ensures offset + i < |t|
    ensures Copied(t[offset + i := values[i]], t0, offset, values, if i == hi then lo else i, if i == hi then i + 1
                   else hi)
  {
  }

  lemma CopyBegins(t0: seq<bv8>, offset: nat, values: seq<bv8>, i: nat)
    requires i <= |values| && offset + |values| <= |t0|
    ensures Copied(t0, t0, offset, values, i, i)
  {
  }

  lemma Uncopied(t: seq<bv8>, t0: seq<bv8>, offset: nat, values: seq<bv8>, lo: nat, hi: nat, g: nat)
    requires Copied(t, t0, offset, values, lo, hi) && g < |t0| && !(offset + lo <= g < offset + hi)
    ensures |t| == |t0| && t[g] == t0[g]
  {
  }

  lemma CopyDone(t: seq<bv8>, t0: seq<bv8>, offset: nat, values: seq<bv8>)
    requires Copied(t, t0, offset, values, 0, |values|)
    ensures t == SetAll(t0, offset, values)
  {
    forall g | 0 <= g < |t0| ensures SetAll(t0, offset, values)[g] == t[g] {
      SetAllAt(t0, offset, values, g);
    }
  }

  /**
   * Copies gates of a tape into a tape, also onto itself: the direction keeps gates from being overwritten before they
   * are read.
   */
  method CopyFrom(target: PackedControls, offset: nat, source: PackedControls, from: nat, len: nat) returns (ok: bool)
    requires target.Valid() && source.Valid() && from + len <= source.count
    modifies target`bytes
    ensures target.Valid() && ok == (offset + len <= target.count)
    ensures target.Gates() == if ok then SetAll(old(target.Gates()), offset, old(source.Gates()[from..from + len]))
            else old(target.Gates())
  {
    hide SetAll;
    ok := offset + len <= target.count;
    if ok {
      ghost var t0, values := target.Gates(), source.Gates()[from..from + len];
      if source == target && offset > from && offset - from < len {
        CopyBackward(target, offset, from, len);
      } else {
        CopyForward(target, offset, source, from, len);
      }
      CopyDone(target.Gates(), t0, offset, values);
    }
  }

  method CopyBackward(target: PackedControls, offset: nat, from: nat, len: nat)
    requires target.Valid() && from < offset && offset + len <= target.count
    modifies target`bytes
    ensures target.Valid()
            && Copied(target.Gates(), old(target.Gates()), offset, old(target.Gates()[from..from + len]), 0, len)
  {
    hide Copied;
    ghost var t0, values := target.Gates(), target.Gates()[from..from + len];
    CopyBegins(t0, offset, values, len);
    for i := len downto 0
      invariant target.Valid() && target.count == |t0| && Copied(target.Gates(), t0, offset, values, i, len)
    {
      Uncopied(target.Gates(), t0, offset, values, i + 1, len, from + i);
      CopiedStep(target.Gates(), t0, offset, values, i + 1, len, i);
      CopyGate(target, offset + i, target, from + i);
    }
  }

  method CopyForward(target: PackedControls, offset: nat, source: PackedControls, from: nat, len: nat)
    requires target.Valid() && source.Valid() && from + len <= source.count && offset + len <= target.count
    requires source == target ==> offset <= from || from + len <= offset
    modifies target`bytes
    ensures target.Valid()
            && Copied(target.Gates(), old(target.Gates()), offset, old(source.Gates()[from..from + len]), 0, len)
  {
    hide Copied;
    ghost var t0, s0, values := target.Gates(), source.Gates(), source.Gates()[from..from + len];
    CopyBegins(t0, offset, values, 0);
    for i := 0 to len
      invariant target.Valid() && source.Valid() && target.count == |t0| && source.count == |s0|
      invariant source != target ==> source.Gates() == s0
      invariant Copied(target.Gates(), t0, offset, values, 0, i)
    {
      if source == target {
        Uncopied(target.Gates(), t0, offset, values, 0, i, from + i);
      }
      assert source.Gates()[from + i] == values[i];
      CopiedStep(target.Gates(), t0, offset, values, 0, i, i);
      CopyGate(target, offset + i, source, from + i);
    }
  }

  method CopyGate(target: PackedControls, at: nat, source: PackedControls, from: nat)
    requires target.Valid() && source.Valid() && at < target.count && from < source.count
    modifies target`bytes
    ensures target.Valid() && target.Gates() == old(target.Gates())[at := old(source.Gates()[from])]
  {
    var found, value := source.Get(from);
    var written := target.Set(at, value);
  }
}
