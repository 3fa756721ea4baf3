/** Selection bits packed eight to a byte, least significant first. */
module PackedBits {

  function ShiftedBit(b: bv8, i: nat): bv8
    requires i < 8
  {
    match i
    case 0 => b & 1
    case 1 => (b >> 1) & 1
    case 2 => (b >> 2) & 1
    case 3 => (b >> 3) & 1
    case 4 => (b >> 4) & 1
    case 5 => (b >> 5) & 1
    case 6 => (b >> 6) & 1
    case _ => (b >> 7) & 1
  }

  function Mask(i: nat): bv8
    requires i < 8
  {
    match i
    case 0 => 1
    case 1 => 2
    case 2 => 4
    case 3 => 8
    case 4 => 16
    case 5 => 32
    case 6 => 64
    case _ => 128
  }

  /** Bit p of a packed buffer. */
  predicate BitAt(bytes: seq<bv8>, p: nat)
    requires p < 8 * |bytes|
  {
    ShiftedBit(bytes[p / 8], p % 8) != 0
  }

  /** Bits [from, from + count) of a packed buffer. */
  function BitsOf(bytes: seq<bv8>, from: nat, count: nat): (bits: seq<bool>)
    requires from + count <= 8 * |bytes|
    ensures |bits| == count && forall i :: 0 <= i < count ==> bits[i] == BitAt(bytes, from + i)
  {
    seq(count, i requires 0 <= i < count => BitAt(bytes, from + i))
  }

  /** A bit read past the end of the buffer is clear. */
  predicate BitOrClear(bytes: seq<bv8>, p: nat) {
    p < 8 * |bytes| && BitAt(bytes, p)
  }

  /** The first out entries hold the bits from bitPos on. */
  ghost predicate Unpacked(s: seq<bool>, c: seq<bv8>, bitPos: nat, out: nat) {
    out <= |s| && forall i :: 0 <= i < out ==> s[i] == BitOrClear(c, bitPos + i)
  }

  /** The eight masks of the unrolled loop are the eight shifts. */
  lemma MasksAreShifts(b: bv8, i: nat)
    requires i < 8
    ensures (b & Mask(i) != 0) == (ShiftedBit(b, i) != 0)
  {
  }

  /** The byte with bit i replaced, as the writer computes it: the value spread over the byte, then masked. */
  function Replaced(b: bv8, i: nat, value: bool): bv8
    requires i < 8
  {
    var spread: bv8 := if value then 0xff else 0;
    (b & !Mask(i)) | (spread & Mask(i))
  }

  lemma ReplacedBits(b: bv8, i: nat, value: bool, j: nat)
    requires i < 8 && j < 8
    ensures (ShiftedBit(Replaced(b, i, value), j) != 0) == if j == i then value else ShiftedBit(b, j) != 0
  {
    hide ShiftedBit;
    MasksAreShifts(b, j);
    MasksAreShifts(Replaced(b, i, value), j);
  }

  /** Writing one bit changes that bit and no other. */
  method WriteBit(bytes: array<bv8>, p: nat, value: bool)
    requires p < 8 * bytes.Length
    modifies bytes
    ensures forall q :: 0 <= q < 8 * bytes.Length ==>
              BitAt(bytes[..], q) == if q == p then value else old(BitAt(bytes[..], q))
  {
    hide ShiftedBit, Mask, Replaced;
    ghost var s0 := bytes[..];
    bytes[p / 8] := Replaced(bytes[p / 8], p % 8, value);
    forall q | 0 <= q < 8 * bytes.Length ensures BitAt(bytes[..], q) == if q == p then value else BitAt(s0, q) {
      if q / 8 == p / 8 {
        ReplacedBits(s0[p / 8], p % 8, value, q % 8);
      }
    }
  }

  /** A partial byte: from bit bitIndex of byte byteIndex until the byte or the request ends. */
  method UnpackByte(c: seq<bv8>, byteIndex: nat, bitIndex: nat, bitPos: nat, from: nat, bitCount: nat, dst: array<bool>)
    returns (out: nat)
    requires byteIndex < |c| && bitIndex < 8 && from <= bitCount <= dst.Length
             && bitPos + from == 8 * byteIndex + bitIndex
    requires Unpacked(dst[..], c, bitPos, from)
    modifies dst
    ensures from <= out <= bitCount && (out < bitCount ==> bitPos + out == 8 * (byteIndex + 1))
    ensures Unpacked(dst[..], c, bitPos, out)
    ensures dst[bitCount..] == old(dst[bitCount..])
  {
    hide ShiftedBit;
    ghost var tail := dst[bitCount..];
    var bits, bit := c[byteIndex], bitIndex;
    out := from;
    while out < bitCount && bit < 8
      invariant from <= out <= bitCount && bit <= 8 && bitPos + out == 8 * byteIndex + bit
      invariant Unpacked(dst[..], c, bitPos, out)
      invariant dst[bitCount..] == tail
    {
      dst[out] := ShiftedBit(bits, bit) != 0;
      bit := bit + 1;
      out := out + 1;
    }
  }

  /** The bits of a byte, one mask each. */
  method EightMasks(b: bv8) returns (b0: bool, b1: bool, b2: bool, b3: bool, b4: bool, b5: bool, b6: bool, b7: bool)
    ensures [b0, b1, b2, b3, b4, b5, b6, b7] == seq(8, i requires 0 <= i < 8 => ShiftedBit(b, i) != 0)
  {
    b0, b1, b2, b3 := b & 0x01 != 0, b & 0x02 != 0, b & 0x04 != 0, b & 0x08 != 0;
    b4, b5, b6, b7 := b & 0x10 != 0, b & 0x20 != 0, b & 0x40 != 0, b & 0x80 != 0;
    forall i | 0 <= i < 8 ensures (b & Mask(i) != 0) == (ShiftedBit(b, i) != 0) {
      MasksAreShifts(b, i);
    }
  }

  lemma EightBits(c: seq<bv8>, byteIndex: nat, p: nat, eight: seq<bool>)
    requires byteIndex < |c| && p == 8 * byteIndex
    requires eight == seq(8, i requires 0 <= i < 8 => ShiftedBit(c[byteIndex], i) != 0)
    ensures |eight| == 8 && forall i :: 0 <= i < 8 ==> eight[i] == BitOrClear(c, p + i)
  {
    hide ShiftedBit;
    forall i | 0 <= i < 8 ensures eight[i] == BitOrClear(c, p + i) {
      assert (p + i) / 8 == byteIndex && (p + i) % 8 == i;
    }
  }

  method WriteFour(dst: array<bool>, out: nat, b0: bool, b1: bool, b2: bool, b3: bool)
    requires out + 4 <= dst.Length
    modifies dst
    ensures dst[..] == old(dst[..])[out := b0][out + 1 := b1][out + 2 := b2][out + 3 := b3]
  {
    dst[out], dst[out + 1], dst[out + 2], dst[out + 3] := b0, b1, b2, b3;
  }

  /** Eight bits at a time, with one mask each. */
  method UnpackWholeByte(c: seq<bv8>, byteIndex: nat, bitPos: nat, out: nat, dst: array<bool>, ghost bitCount: nat)
    requires byteIndex < |c| && bitPos + out == 8 * byteIndex && out + 8 <= bitCount <= dst.Length
    requires Unpacked(dst[..], c, bitPos, out)
    modifies dst
    ensures Unpacked(dst[..], c, bitPos, out + 8)
    ensures dst[bitCount..] == old(dst[bitCount..])
  {
    hide ShiftedBit, Unpacked;
    ghost var s0 := dst[..];
    var b0, b1, b2, b3, b4, b5, b6, b7 := EightMasks(c[byteIndex]);
    ghost var eight := [b0, b1, b2, b3, b4, b5, b6, b7];
    EightBits(c, byteIndex, bitPos + out, eight);
    WriteFour(dst, out, b0, b1, b2, b3);
    WriteFour(dst, out + 4, b4, b5, b6, b7);
    EightWrites(s0, out, eight, bitCount);
    WholeByteStep(c, bitPos, s0, dst[..], out, eight);
  }

  lemma EightWrites(s: seq<bool>, out: nat, eight: seq<bool>, bitCount: nat)
    requires |eight| == 8 && out + 8 <= bitCount <= |s|
    ensures var four := s[out := eight[0]][out + 1 := eight[1]][out + 2 := eight[2]][out + 3 := eight[3]];
            var r := four[out + 4 := eight[4]][out + 4 + 1 := eight[5]][out + 4 + 2 := eight[6]]
                     [out + 4 + 3 := eight[7]];
            && r[..out] == s[..out] && r[bitCount..] == s[bitCount..]
            && forall e :: 0 <= e < 8 ==> r[out + e] == eight[e]
  {
  }

  lemma WholeByteStep(c: seq<bv8>, bitPos: nat, s0: seq<bool>, s: seq<bool>, out: nat, eight: seq<bool>)
    requires out + 8 <= |s0| == |s| && |eight| == 8 && s[..out] == s0[..out] && forall e :: 0 <= e < 8 ==>
             s[out + e] == eight[e]
    requires Unpacked(s0, c, bitPos, out)
    requires forall i :: 0 <= i < 8 ==> eight[i] == BitOrClear(c, bitPos + out + i)
    ensures Unpacked(s, c, bitPos, out + 8)
  {
    hide BitOrClear;
    forall i | 0 <= i < out + 8 ensures s[i] == BitOrClear(c, bitPos + i) {
      if i < out {
        assert s[..out][i] == s0[..out][i];
      } else {
        var e := i - out;
        assert s[out + e] == eight[e] && eight[e] == BitOrClear(c, bitPos + out + e);
      }
    }
  }

  /** Unpacks count bits from bitPos on: a partial first byte, whole bytes eight at a time, a partial last byte. */
  method UnpackControlBitsToBoolArray(c: seq<bv8>, bitPos: nat, bitCount: nat, dst: array<bool>)
    requires bitCount <= dst.Length
    modifies dst
    ensures forall i :: 0 <= i < bitCount ==> dst[i] == BitOrClear(c, bitPos + i)
    ensures dst[bitCount..] == old(dst[bitCount..])
  {
    hide ShiftedBit, Mask;
    ghost var tail := dst[bitCount..];
    if bitCount == 0 {
      return;
    }
    var byteIndex, bitIndex := bitPos / 8, bitPos % 8;
    var out: nat := 0;
    if byteIndex < |c| && bitIndex != 0 {
      out := UnpackByte(c, byteIndex, bitIndex, bitPos, out, bitCount, dst);
      byteIndex := byteIndex + 1;
    }
    while out + 8 <= bitCount && byteIndex < |c|
      invariant out <= bitCount && dst[bitCount..] == tail
      invariant Unpacked(dst[..], c, bitPos, out)
      invariant out < bitCount ==> bitPos + out == 8 * byteIndex || (|c| <= byteIndex && 8 * |c| <= bitPos + out)
    {
      UnpackWholeByte(c, byteIndex, bitPos, out, dst, bitCount);
      byteIndex := byteIndex + 1;
      out := out + 8;
    }
    if out < bitCount && byteIndex < |c| {
      out := UnpackByte(c, byteIndex, 0, bitPos, out, bitCount, dst);
    }
    while out < bitCount
      invariant out <= bitCount && dst[bitCount..] == tail
      invariant out < bitCount ==> 8 * |c| <= bitPos + out
      invariant Unpacked(dst[..], c, bitPos, out)
    {
      dst[out] := false;
      out := out + 1;
    }
  }
}
