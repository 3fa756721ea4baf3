/** Tags and gate controls as the bytes the program computes with. */
module TagBits {
  import opened Tags

  const TAG_RIGHT: bv8 := 1
  const TAG_LEFT: bv8 := 2
  const TAG_BOTH: bv8 := 3

  function LeftBit(t: bv8): bv8 { (t >> 1) & 1 }

  function RightBit(t: bv8): bv8 { t & 1 }

  /** The tag, or the control, a two-bit byte stands for. */
  function TagOf(t: bv8): Tag { Tag(LeftBit(t) == 1, RightBit(t) == 1) }

  function ControlOf(c: bv8): Control { Control(LeftBit(c) == 1, RightBit(c) == 1) }

  function Byte(t: Tag): (b: bv8)
    ensures b < 4 && TagOf(b) == t
  {
    if t.left then if t.right then 3 else 2 else if t.right then 1 else 0
  }

  function EqualU8(x: bv8, y: bv8): bv8 { if x == y then 1 else 0 }

  function LessSize(x: int, y: int): bv8 { if x < y then 1 else 0 }

  /** A zero-or-one byte as a count. */
  function Flag(b: bv8): nat { if b == 1 then 1 else 0 }

  /** Bits 0 and 1: fixed right and left; bits 2 and 3: variable right and left; bit 4: diagonal. */
  function ClassifyPairBits(x: bv8, y: bv8): bv8 {
    var different := x ^ y;
    var opposite := LeftBit(different) & RightBit(different);
    var xSingleton := LeftBit(x) ^ RightBit(x);
    var diagonal := opposite & xSingleton;
    var variable := different & (0 - (diagonal ^ 1));
    (x & y) | (variable << 2) | (diagonal << 4)
  }

  function PairBit(pair: bv8, k: Kind): bv8 {
    match k
    case Diagonal => (pair >> 4) & 1
    case VariableLeft => (pair >> 3) & 1
    case VariableRight => (pair >> 2) & 1
    case FixedLeft => (pair >> 1) & 1
    case FixedRight => pair & 1
  }

  function GateControlForBalancedPair(x: bv8, y: bv8, topTag: bv8): bv8 {
    var straight := EqualU8(topTag, x);
    var cross := EqualU8(topTag, y) & (straight ^ 1);
    var forkY := LeftBit(y) & (straight ^ 1) & (cross ^ 1);
    var topFromY := cross | forkY;
    var bottomFromY := straight | forkY;
    (topFromY << 1) | bottomFromY
  }

  /** The tag byte given to the top output, from the feature byte and the three quota tests. */
  function TopByte(pair: bv8, belowDiagonal: bv8, belowLeft: bv8, belowRight: bv8): bv8 {
    var useDiagonal := PairBit(pair, Diagonal) & belowDiagonal;
    var useLeft := PairBit(pair, VariableLeft) & belowLeft;
    var useRight := PairBit(pair, VariableRight) & belowRight;
    var topLeft := PairBit(pair, FixedLeft) | useDiagonal | useLeft;
    var topRight := PairBit(pair, FixedRight) | (PairBit(pair, Diagonal) & (useDiagonal ^ 1)) | useRight;
    (topLeft << 1) | topRight
  }

  /** The five feature bits are exactly the five kinds of a pair. */
  lemma FeatureBits(x: bv8, y: bv8, k: Kind)
    requires x < 4 && y < 4
    ensures PairBit(ClassifyPairBits(x, y), k) == if Is(k, TagOf(x), TagOf(y)) then 1 else 0
  {
  }

  /** The byte arithmetic of a gate computes the top tag, the bottom tag and the control of the pair. */
  lemma GateBytes(x: bv8, y: bv8, q: Quotas)
    requires x < 4 && y < 4
    ensures var top := TopByte(ClassifyPairBits(x, y), LessSize(0, q.diagonal), LessSize(0, q.left),
                               LessSize(0, q.right));
            && top < 4 && TagOf(top) == TopTag(TagOf(x), TagOf(y), q)
            && x ^ y ^ top < 4 && TagOf(x ^ y ^ top) == BottomTag(TagOf(x), TagOf(y), TagOf(top))
            && GateControlForBalancedPair(x, y, top) < 4
            && ControlOf(GateControlForBalancedPair(x, y, top)) == GateControl(TagOf(x), TagOf(y), TagOf(top))
  {
    FeatureBits(x, y, Diagonal);
    FeatureBits(x, y, FixedLeft);
    FeatureBits(x, y, FixedRight);
    FeatureBits(x, y, VariableLeft);
    FeatureBits(x, y, VariableRight);
  }

  /** The two-lane control: three exclusive-or the first tag. */
  lemma PairControlBits(x: bv8)
    requires x < 4
    ensures TAG_BOTH ^ x < 4 && ControlOf(TAG_BOTH ^ x) == Control(!TagOf(x).left, !TagOf(x).right)
  {
  }

  /** The arithmetic zero test. */
  function IsZeroBit(t: bv8): bv8 { ((t + 3) >> 2) ^ 1 }

  lemma ZeroTest(t: bv8)
    requires t < 4
    ensures IsZeroBit(t) == if TagOf(t) == Tag(false, false) then 1 else 0
  {
  }
}
