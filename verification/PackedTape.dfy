/** The packed control tape: four two-bit gates a byte, little end first. */
module PackedTape {
  import opened Tags
  import opened TagBits

  function ShiftRight(b: bv8, slot: nat): bv8 {
    if slot == 0 then b else if slot == 1 then b >> 2 else if slot == 2 then b >> 4 else b >> 6
  }

  function ShiftLeft(b: bv8, slot: nat): bv8 {
    if slot == 0 then b else if slot == 1 then b << 2 else if slot == 2 then b << 4 else b << 6
  }

  function GetSlot(b: bv8, slot: nat): (value: bv8)
    ensures value < 4
  {
    ShiftRight(b, slot) & 3
  }

  function SetSlot(b: bv8, slot: nat, value: bv8): bv8 {
    (b & !ShiftLeft(3, slot)) | ShiftLeft(value, slot)
  }

  lemma SlotUpdate(b: bv8, s: nat, value: bv8, t: nat)
    requires s < 4 && t < 4 && value < 4
    ensures GetSlot(SetSlot(b, s, value), t) == if s == t then value else GetSlot(b, t)
  {
  }

  /** A byte is determined by its four slots. */
  lemma ByteOfSlots(a: bv8, b: bv8)
    requires forall s :: 0 <= s < 4 ==> GetSlot(a, s) == GetSlot(b, s)
    ensures a == b
  {
    assert GetSlot(a, 0) == GetSlot(b, 0) && GetSlot(a, 1) == GetSlot(b, 1)
        && GetSlot(a, 2) == GetSlot(b, 2) && GetSlot(a, 3) == GetSlot(b, 3);
  }

  function GateAt(bytes: seq<bv8>, gate: nat): bv8
    requires gate < 4 * |bytes|
  {
    GetSlot(bytes[gate / 4], gate % 4)
  }

  function GatesOf(bytes: seq<bv8>, count: nat): (gates: seq<bv8>)
    requires count <= 4 * |bytes|
    ensures |gates| == count && forall g :: 0 <= g < count ==> gates[g] == GateAt(bytes, g)
  {
    seq(count, g requires 0 <= g < count => GateAt(bytes, g))
  }

  function ControlsOf(gates: seq<bv8>): (cs: seq<Control>)
    ensures |cs| == |gates| && forall g :: 0 <= g < |gates| ==> cs[g] == ControlOf(gates[g])
  {
    seq(|gates|, g requires 0 <= g < |gates| => ControlOf(gates[g]))
  }

  function ByteCount(count: nat): nat {
    count / 4 + (if count % 4 != 0 then 1 else 0)
  }

  /** Appending zero bytes to a tape with zero padding appends zero gates. */
  lemma GrownBytes(before: seq<bv8>, previous: nat, after: seq<bv8>, count: nat)
    requires |before| == ByteCount(previous) && previous < count
             && after == before + seq(ByteCount(count) - |before|, _ => 0)
    requires forall g :: previous <= g < 4 * |before| ==> GateAt(before, g) == 0
    ensures |after| == ByteCount(count) && (forall g :: previous <= g < 4 * |after| ==> GateAt(after, g) == 0)
    ensures GatesOf(after, count)[..previous] == GatesOf(before, previous)
  {
    hide GetSlot;
    ZeroSlots();
    forall g | 0 <= g < 4 * |after| ensures GateAt(after, g) == if g < 4 * |before| then GateAt(before, g) else 0 {
    }
  }

  lemma ShrunkBytes(before: seq<bv8>, previous: nat, after: seq<bv8>, count: nat)
    requires |before| == ByteCount(previous) && count <= previous && after == before[..ByteCount(count)]
    ensures count <= 4 * |after| && GatesOf(after, count) == GatesOf(before, previous)[..count]
  {
    hide GetSlot;
    forall g | 0 <= g < count ensures GateAt(after, g) == GateAt(before, g) {
    }
  }

  lemma ZeroSlots()
    ensures forall slot: nat :: GetSlot(0, slot) == 0
  {
  }

  /** The mask of a byte's lowest gates. */
  function LowGates(gates: nat): bv8 {
    if gates == 1 then 0x03 else if gates == 2 then 0x0f else 0x3f
  }

  lemma LowGatesKept(b: bv8, gates: nat, t: nat)
    requires 0 < gates < 4 && t < 4
    ensures GetSlot(b & LowGates(gates), t) == if t < gates then GetSlot(b, t) else 0
  {
  }

  /** The gates of a tape of another length: a prefix, or the gates followed by copies of a value. */
  function Resized(gates: seq<bv8>, count: nat, value: bv8): (r: seq<bv8>)
    ensures |r| == count
  {
    if count <= |gates| then gates[..count] else gates + seq(count - |gates|, _ => value)
  }

  class PackedControls {
    var bytes: seq<bv8>
    var count: nat

    /** The bytes just cover the gates and the padding of the last byte is zero. */
    ghost predicate Valid()
      reads this
    {
      && |bytes| == ByteCount(count)
      && forall g :: count <= g < 4 * |bytes| ==> GateAt(bytes, g) == 0
    }

    ghost function Gates(): (gates: seq<bv8>)
      requires Valid()
      reads this
      ensures |gates| == count
    {
      GatesOf(bytes, count)
    }

    /** The tape as controls. */
    ghost function Controls(): (cs: seq<Control>)
      requires Valid()
      reads this
      ensures |cs| == count
    {
      ControlsOf(GatesOf(bytes, count))
    }

    /** A zeroed tape. */
    constructor (count: nat)
      ensures Valid() && this.count == count
      ensures forall g :: 0 <= g < count ==> Gates()[g] == 0
    {
      this.count := count;
      this.bytes := seq(ByteCount(count), _ => 0);
      new;
      assert forall g :: 0 <= g < 4 * |bytes| ==> GateAt(bytes, g) == 0;
    }

    method Get(index: nat) returns (ok: bool, value: bv8)
      requires Valid()
      ensures ok == (index < count)
      ensures ok ==> value == Gates()[index] && value < 4 && ControlOf(value) == Controls()[index]
    {
      ok := index < count;
      value := 0;
      if ok {
        value := ShiftRight(bytes[index / 4], index % 4) & 3;
      }
    }

    /** Writes one gate; an index past the end or a value above three is refused and changes nothing. */
    method Set(index: nat, value: bv8) returns (ok: bool)
      requires Valid()
      modifies this`bytes
      ensures Valid()
      ensures ok == (index < count && value < 4)
      ensures Gates() == if ok then old(Gates())[index := value] else old(Gates())
      ensures Controls() == if ok then old(Controls())[index := ControlOf(value)] else old(Controls())
    {
      ok := index < count && value < 4;
      if ok {
        var slot := index % 4;
        ghost var before := bytes;
        bytes := bytes[index / 4 := SetSlot(bytes[index / 4], slot, value)];
        forall g | 0 <= g < 4 * |bytes|
          ensures GateAt(bytes, g) == if g == index then value else GateAt(before, g)
        {
          SlotUpdate(before[index / 4], slot, value, g % 4);
        }
      }
    }

    /** Changes the length; new gates get the value, and the padding is zero again even after shrinking. */
    method Resize(newCount: nat, value: bv8) returns (ok: bool)
      requires Valid()
      modifies this
      ensures Valid() && ok == (value < 4)
      ensures count == if ok then newCount else old(count)
      ensures Gates() == if ok then Resized(old(Gates()), newCount, value) else old(Gates())
    {
      ok := value < 4;
      if !ok {
        return;
      }
      var previous, size := count, ByteCount(newCount);
      ghost var before := bytes;
      bytes := if size <= |bytes| then bytes[..size] else bytes + seq(size - |bytes|, _ => 0);
      count := newCount;
      if newCount > previous {
        GrownBytes(before, previous, bytes, newCount);
        Fill(previous, value);
      } else {
        ShrunkBytes(before, previous, bytes, newCount);
      }
      if newCount % 4 != 0 {
        ClearPadding(newCount);
      }
    }

    /** Gives every gate from a place on the value; they are zero. */
    method Fill(from: nat, value: bv8)
      requires Valid() && from <= count && value < 4 && forall g :: from <= g < count ==> Gates()[g] == 0
      modifies this`bytes
      ensures Valid() && Gates() == old(Gates())[..from] + seq(count - from, _ => value)
    {
      if value != 0 {
        for i := from to count
          invariant Valid()
          invariant forall g :: 0 <= g < count ==> Gates()[g] == if from <= g < i then value else old(Gates())[g]
        {
          var written := Set(i, value);
        }
      }
    }

    /** Zeroes the gates of the last byte that are past the end. */
    method ClearPadding(ghost length: nat)
      requires length == count && |bytes| == ByteCount(count) && count % 4 != 0
      modifies this`bytes
      ensures Valid() && Gates() == GatesOf(old(bytes), count)
    {
      ghost var before := bytes;
      var last := |bytes| - 1;
      bytes := bytes[last := bytes[last] & LowGates(count % 4)];
      forall g | 0 <= g < 4 * |bytes| ensures GateAt(bytes, g) == if g < count then GateAt(before, g) else 0 {
        LowGatesKept(before[last], count % 4, g % 4);
      }
    }
  }

  /**
   * The cache byte holds k gates of the stream from gate g on, and zeros above them; an empty cache may hold anything.
   */
  ghost predicate Cached(cached: bv8, k: nat, bytes: seq<bv8>, g: nat) {
    && k <= 4 && (0 < k ==> g + k <= 4 * |bytes|)
    && (0 < k ==> forall s :: 0 <= s < 4 ==> GetSlot(cached, s) == if s < k then GateAt(bytes, g + s) else 0)
  }

  lemma CacheEmpty(cached: bv8, bytes: seq<bv8>, g: nat)
    ensures Cached(cached, 0, bytes, g)
  {
  }

  lemma CacheBound(cached: bv8, k: nat, bytes: seq<bv8>, g: nat)
    requires Cached(cached, k, bytes, g)
    ensures k <= 4
  {
  }

  lemma GateRange(bytes: seq<bv8>, g: nat)
    requires g < 4 * |bytes|
    ensures GateAt(bytes, g) < 4
  {
  }

  lemma CacheOpened(bytes: seq<bv8>, g: nat)
    requires g < 4 * |bytes|
    ensures Cached(ShiftRight(bytes[g / 4], g % 4), 4 - g % 4, bytes, g)
  {
    forall s | 0 <= s < 4
      ensures GetSlot(ShiftRight(bytes[g / 4], g % 4), s) == if s < 4 - g % 4 then GateAt(bytes, g + s) else 0
    {
      OpeningShift(bytes[g / 4], g % 4, s);
      if s < 4 - g % 4 {
        assert (g + s) / 4 == g / 4 && (g + s) % 4 == g % 4 + s;
      }
    }
  }

  lemma CacheLoaded(bytes: seq<bv8>, g: nat)
    requires g % 4 == 0 && g < 4 * |bytes|
    ensures Cached(bytes[g / 4], 4, bytes, g)
  {
    CacheOpened(bytes, g);
  }

  lemma CacheStep(cached: bv8, rest: bv8, k: nat, bytes: seq<bv8>, g: nat)
    requires 0 < k && Cached(cached, k, bytes, g) && rest == cached >> 2
    ensures g < 4 * |bytes| && cached & 3 == GateAt(bytes, g) && Cached(rest, k - 1, bytes, g + 1)
  {
    CachedShift(cached, 0);
    forall s | 0 <= s < 4 ensures GetSlot(rest, s) == if s == 3 then 0 else GetSlot(cached, s + 1) {
      CachedShift(cached, s);
    }
  }

  /** The byte packs the four gates of the stream from gate g on. */
  ghost predicate FourGates(packed: bv8, bytes: seq<bv8>, g: nat) {
    g + 4 <= 4 * |bytes| && forall s :: 0 <= s < 4 ==> GetSlot(packed, s) == GateAt(bytes, g + s)
  }

  lemma FullCache(cached: bv8, bytes: seq<bv8>, g: nat)
    requires Cached(cached, 4, bytes, g)
    ensures FourGates(cached, bytes, g)
  {
  }

  /** With k gates cached, the next byte supplies the other 4 - k of a packed read and k gates of the new cache. */
  lemma CacheJoined(cached: bv8, following: bv8, packed: bv8, rest: bv8, k: nat, bytes: seq<bv8>, g: nat)
    requires 0 < k < 4 && Cached(cached, k, bytes, g) && (g + k) % 4 == 0 && g + k < 4 * |bytes|
    requires following == bytes[(g + k) / 4]
    requires packed == cached | ShiftLeft(following, k) && rest == ShiftRight(following, 4 - k)
    ensures FourGates(packed, bytes, g) && Cached(rest, k, bytes, g + 4)
  {
    hide ShiftLeft, ShiftRight, GetSlot, GateAt;
    forall s | 0 <= s < 4
      ensures GetSlot(packed, s) == GateAt(bytes, g + s)
      ensures GetSlot(rest, s) == if s < k then GateAt(bytes, g + 4 + s) else 0
    {
      JoinedByte(cached, following, k, s);
      ByteGate(bytes, g + k, if s < k then s + 4 - k else s - k);
    }
  }

  /** The gates of the byte that starts at a gate divisible by four. */
  lemma ByteGate(bytes: seq<bv8>, gate: nat, t: nat)
    requires gate % 4 == 0 && gate < 4 * |bytes| && t < 4
    ensures gate + t < 4 * |bytes| && GateAt(bytes, gate + t) == GetSlot(bytes[gate / 4], t)
  {
    hide GetSlot;
    assert (gate + t) / 4 == gate / 4 && (gate + t) % 4 == t;
  }

  lemma CachedShift(b: bv8, s: nat)
    requires s < 4
    ensures GetSlot(b >> 2, s) == if s == 3 then 0 else GetSlot(b, s + 1)
    ensures GetSlot(b, 0) == b & 3
  {
  }

  lemma OpeningShift(b: bv8, k: nat, s: nat)
    requires k < 4 && s < 4
    ensures GetSlot(ShiftRight(b, k), s) == if s + k < 4 then GetSlot(b, s + k) else 0
  {
  }

  /** Joining k cached gates with the first gates of the following byte, when the cache is clean above them. */
  lemma JoinedByte(cached: bv8, following: bv8, k: nat, s: nat)
    requires 0 < k < 4 && s < 4
    requires forall t :: k <= t < 4 ==> GetSlot(cached, t) == 0
    ensures GetSlot(cached | ShiftLeft(following, k), s) == if s < k then GetSlot(cached, s)
            else GetSlot(following, s - k)
    ensures GetSlot(ShiftRight(following, 4 - k), s) == if s < k then GetSlot(following, s + 4 - k) else 0
  {
    assert k <= 1 ==> GetSlot(cached, 1) == 0;
    assert k <= 2 ==> GetSlot(cached, 2) == 0;
    assert k <= 3 ==> GetSlot(cached, 3) == 0;
  }

  /** A forward reader of a view of the tape; it loads each byte once and hands out up to four gates of it. */
  class PackedControlCursor {
    const bytes: seq<bv8>
    const offset: nat
    const count: nat
    var position: nat
    var nextByte: nat
    var cachedByte: bv8
    var cachedGates: nat

    /** The cache holds exactly the gates up to the next byte boundary, with nothing above them. */
    ghost predicate Valid()
      reads this
    {
      && offset + count <= 4 * |bytes| && position <= count
      && (position < count || 0 < cachedGates ==>
            4 * nextByte == offset + position + cachedGates && nextByte <= |bytes|)
      && Cached(cachedByte, cachedGates, bytes, offset + position)
    }

    constructor (bytes: seq<bv8>, offset: nat, count: nat, position: nat)
      requires offset + count <= 4 * |bytes| && position <= count
      ensures Valid() && this.bytes == bytes && this.offset == offset && this.count == count
              && this.position == position
    {
      hide GetSlot, ShiftRight;
      this.bytes, this.offset, this.count, this.position := bytes, offset, count, position;
      if position < count {
        var gate := offset + position;
        this.cachedByte := ShiftRight(bytes[gate / 4], gate % 4);
        this.cachedGates := 4 - gate % 4;
        this.nextByte := gate / 4 + 1;
        CacheOpened(bytes, gate);
      } else {
        this.nextByte, this.cachedByte, this.cachedGates := 0, 0, 0;
        CacheEmpty(0, bytes, offset + position);
      }
    }

    /** Reads one gate. */
    method NextUnchecked() returns (control: bv8)
      requires Valid() && position < count
      modifies this
      ensures Valid() && position == old(position) + 1
      ensures control == GateAt(bytes, offset + old(position)) && control < 4
    {
      hide GetSlot, ShiftRight, Cached, GateAt;
      if cachedGates == 0 {
        cachedByte := bytes[nextByte];
        nextByte := nextByte + 1;
        cachedGates := 4;
        CacheLoaded(bytes, offset + position);
      }
      CacheStep(cachedByte, cachedByte >> 2, cachedGates, bytes, offset + position);
      GateRange(bytes, offset + position);
      control := cachedByte & 3;
      cachedByte := cachedByte >> 2;
      cachedGates := cachedGates - 1;
      position := position + 1;
    }

    /** Reads four gates at once: the byte handed out packs what four single reads would return. */
    method NextFourUnchecked() returns (packed: bv8)
      requires Valid() && position + 4 <= count
      modifies this
      ensures Valid() && position == old(position) + 4
      ensures FourGates(packed, bytes, offset + old(position))
    {
      hide GetSlot, ShiftRight, ShiftLeft, Cached, FourGates, GateAt;
      ghost var gate := offset + position;
      CacheBound(cachedByte, cachedGates, bytes, gate);
      position := position + 4;
      if cachedGates == 0 {
        CacheLoaded(bytes, gate);
        FullCache(bytes[nextByte], bytes, gate);
        CacheEmpty(cachedByte, bytes, gate + 4);
        packed := bytes[nextByte];
        nextByte := nextByte + 1;
        return;
      }
      if cachedGates == 4 {
        FullCache(cachedByte, bytes, gate);
        CacheEmpty(cachedByte, bytes, gate + 4);
        cachedGates := 0;
        packed := cachedByte;
        return;
      }
      var following := bytes[nextByte];
      nextByte := nextByte + 1;
      packed := cachedByte | ShiftLeft(following, cachedGates);
      CacheJoined(cachedByte, following, packed, ShiftRight(following, 4 - cachedGates), cachedGates, bytes, gate);
      cachedByte := ShiftRight(following, 4 - cachedGates);
    }
  }
}
