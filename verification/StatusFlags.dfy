/**
 The status flags as the processor manual defines them (Intel SDM volume 1, section
 3.4.3.1), by arithmetic on whole numbers and on rings of bits: what a machine that
 computes all six of them after every instruction does.
 */
module StatusFlags {
  import opened BitArithmetic

  datatype Width = Byte | Word | Dword

  function Bits(w: Width): (n: nat)
    ensures n >= 8
  { match w case Byte => 8 case Word => 16 case Dword => 32 }

  function Size(w: Width): (s: nat)
    ensures s > 0
  { match w case Byte => 0x100 case Word => 0x1_0000 case Dword => 0x1_0000_0000 }

  /** The sign bit. */
  function Sign(w: Width): (s: nat)
    ensures 2 * s == Size(w)
  { match w case Byte => 0x80 case Word => 0x8000 case Dword => 0x8000_0000 }

  lemma WidthPowers(w: Width)
    ensures Size(w) == Pow2(Bits(w)) && Sign(w) == Pow2(Bits(w) - 1)
  {
    assert Pow2(7) == 0x80 && Pow2(15) == 0x8000;
    assert Pow2(23) == 0x80_0000;
    assert Pow2(31) == 0x8000_0000;
  }

  function Low(x: int, w: Width): (r: nat)
    ensures r < Size(w)
  { x % Size(w) }

  /** AND, OR and XOR of two operands. */
  function Logic(op: BitOp, a: nat, b: nat, w: Width): (r: nat)
    requires a < Size(w) && b < Size(w)
    ensures r < Size(w)
  {
    WidthPowers(w);
    BitwiseBound(op, a, b, Bits(w));
    Bitwise(op, a, b)
  }

  /** The signed reading of an operand. */
  function Signed(x: nat, w: Width): int
    requires x < Size(w)
  { if x >= Sign(w) then x - Size(w) else x }

  predicate InRange(x: int, w: Width) { -(Sign(w) as int) <= x < Sign(w) }

  /** The number of ones in the lowest `n` bits. */
  function Ones(x: nat, n: nat): nat { if n == 0 then 0 else x % 2 + Ones(x / 2, n - 1) }

  /** The low byte has an even number of ones. */
  predicate EvenParity(x: nat) { Ones(x % 256, 8) % 2 == 0 }

  datatype Status = Status(cf: bool, pf: bool, af: bool, zf: bool, sf: bool, of: bool)

  /** ZF, SF and PF of a result, with the other flags given. */
  function ResultFlags(r: nat, w: Width, cf: bool, af: bool, of: bool): Status
    requires r < Size(w)
  {
    Status(cf, EvenParity(r), af, r == 0, Signed(r, w) < 0, of)
  }

  /** The sum of two operands and a carry: carry out, carry out of the low four bits, signed overflow. */
  function SumFlags(a: nat, b: nat, c: bool, w: Width): Status
    requires a < Size(w) && b < Size(w)
  {
    ResultFlags(Low(a + b + One(c), w), w,
                a + b + One(c) >= Size(w), a % 16 + b % 16 + One(c) >= 16, !InRange(Signed(a, w) + Signed(b, w) + One(c), w))
  }

  /** The difference of two operands and a borrow. */
  function DifferenceFlags(a: nat, b: nat, c: bool, w: Width): Status
    requires a < Size(w) && b < Size(w)
  {
    ResultFlags(Low(a - b - One(c), w), w,
                a < b + One(c), a % 16 < b % 16 + One(c), !InRange(Signed(a, w) - Signed(b, w) - One(c), w))
  }

  // ---- shifts and rotations ----

  function BitsOf(x: nat, n: nat): (s: seq<bool>)
    ensures |s| == n
  { seq(n, i requires 0 <= i < n => BitAt(x, i)) }

  /** A ring of bits, turned `k` places towards its high end. */
  function Turned(ring: seq<bool>, k: nat): (s: seq<bool>)
    requires ring != []
    ensures |s| == |ring|
  { seq(|ring|, i requires 0 <= i < |ring| => ring[(i + |ring| - k % |ring|) % |ring|]) }

  function TurnedBack(ring: seq<bool>, k: nat): (s: seq<bool>)
    requires ring != []
    ensures |s| == |ring|
  { seq(|ring|, i requires 0 <= i < |ring| => ring[(i + k % |ring|) % |ring|]) }

  function RotateLeft(x: nat, k: nat, w: Width): (r: nat)
    requires x < Size(w)
    ensures r < Size(w)
  { WidthPowers(w); Pack(Turned(BitsOf(x, Bits(w)), k)) }

  function RotateRight(x: nat, k: nat, w: Width): (r: nat)
    requires x < Size(w)
    ensures r < Size(w)
  { WidthPowers(w); Pack(TurnedBack(BitsOf(x, Bits(w)), k)) }

  /** The carry flag above the operand. */
  function CarryRing(x: nat, cf: bool, w: Width): (s: seq<bool>)
    ensures |s| == Bits(w) + 1
  { BitsOf(x, Bits(w)) + [cf] }

  datatype Rotation = ROL | ROR | RCL | RCR

  /** The count without whole turns through operand and carry. */
  function CarryTurns(k: nat, w: Width): nat { k % (Bits(w) + 1) }

  /** The ring of RCL and RCR after `k` steps. */
  function CarryTurned(rot: Rotation, x: nat, cf: bool, k: nat, w: Width): (s: seq<bool>)
    ensures |s| == Bits(w) + 1
  { if rot.RCL? then Turned(CarryRing(x, cf, w), k) else TurnedBack(CarryRing(x, cf, w), k) }

  /** The operand after a rotation by `k`. */
  function Rotated(rot: Rotation, x: nat, cf: bool, k: nat, w: Width): (r: nat)
    requires x < Size(w)
    ensures r < Size(w)
  {
    WidthPowers(w);
    match rot
    case ROL => RotateLeft(x, k, w)
    case ROR => RotateRight(x, k, w)
    case _ => Pack(CarryTurned(rot, x, cf, k, w)[..Bits(w)])
  }

  /** A rotation defines CF and OF and leaves the other flags; a whole number of turns through the carry changes nothing. */
  function RotationFlags(rot: Rotation, x: nat, k: nat, w: Width, f: Status): Status
    requires x < Size(w)
  {
    var r := Rotated(rot, x, f.cf, k, w);
    var n := Bits(w);
    var sign, next := BitAt(r, n - 1), BitAt(r, n - 2);
    match rot
    case ROL => f.(cf := BitAt(r, 0), of := BitAt(r, 0) != sign)
    case ROR => f.(cf := sign, of := sign != next)
    case RCL => if CarryTurns(k, w) == 0 then f else f.(cf := CarryTurned(rot, x, f.cf, k, w)[n], of := CarryTurned(rot, x, f.cf, k, w)[n] != sign)
    case RCR => if CarryTurns(k, w) == 0 then f else f.(cf := CarryTurned(rot, x, f.cf, k, w)[n], of := sign != next)
  }

  /** Left shift by 1..31: CF is the last bit shifted out, OF tells whether the sign changed. */
  function LeftFlags(a: nat, k: nat, w: Width): Status
    requires a < Size(w)
  {
    var r := Low(Shl(a, k), w);
    ResultFlags(r, w, k <= Bits(w) && BitAt(a, Bits(w) - k), true, (Signed(r, w) < 0) != (Signed(a, w) < 0))
  }

  /** Right shift of an unsigned or signed operand by 1..31; OF is given. */
  function RightFlags(x: int, r: nat, k: nat, of: bool, w: Width): Status
    requires r < Size(w) && k > 0
  {
    ResultFlags(r, w, BitAt(x, k - 1), true, of)
  }
}
