/**
 Shifts, masks and bitwise operations on whole numbers, and their bits.
 */
module BitArithmetic {
  function Pow2(n: nat): (p: nat)
    ensures p > 0
  { if n == 0 then 1 else 2 * Pow2(n - 1) }

  function One(c: bool): nat { if c then 1 else 0 }

  /** Bit `i` of a number; negative numbers are in two's complement. */
  predicate BitAt(x: int, i: nat)
    decreases i
  { if i == 0 then x % 2 == 1 else BitAt(x / 2, i - 1) }

  function Shl(x: nat, k: nat): nat
    decreases k
  { if k == 0 then x else Shl(2 * x, k - 1) }

  /** A right shift; of a negative number it is the arithmetic shift. */
  function Shr(x: int, k: nat): (r: int)
    ensures x >= 0 ==> r >= 0
    decreases k
  { if k == 0 then x else Shr(x / 2, k - 1) }

  datatype BitOp = AND | OR | XOR

  predicate Combine(op: BitOp, p: bool, q: bool) {
    match op case AND => p && q case OR => p || q case XOR => p != q
  }

  function Bitwise(op: BitOp, a: nat, b: nat): nat
    decreases a + b
  {
    if a == 0 && b == 0 then 0 else One(Combine(op, a % 2 == 1, b % 2 == 1)) + 2 * Bitwise(op, a / 2, b / 2)
  }

  function And(a: nat, b: nat): nat { Bitwise(AND, a, b) }

  function Or(a: nat, b: nat): nat { Bitwise(OR, a, b) }

  function Xor(a: nat, b: nat): nat { Bitwise(XOR, a, b) }

  /** Bit `i` of a hexadecimal digit. */
  predicate DigitBit(x: nat, i: nat) {
    if i == 0 then x % 2 == 1 else if i == 1 then x / 2 % 2 == 1 else if i == 2 then x / 4 % 2 == 1 else x / 8 % 2 == 1
  }

  lemma LowDigit(high: nat, d: nat, i: nat)
    requires d < 16
    ensures BitAt(0x10 * high + d, i) == if i < 4 then DigitBit(d, i) else BitAt(high, i - 4)
  {
    var x := 0x10 * high + d;
    assert x / 2 == 8 * high + d / 2;
    assert x / 2 / 2 == 4 * high + d / 4;
    assert x / 2 / 2 / 2 == 2 * high + d / 8;
    assert x / 2 / 2 / 2 / 2 == high;
    if i > 0 {
      assert BitAt(x, i) == BitAt(x / 2, i - 1);
      if i > 1 {
        assert BitAt(x / 2, i - 1) == BitAt(x / 2 / 2, i - 2);
        if i > 2 {
          assert BitAt(x / 2 / 2, i - 2) == BitAt(x / 2 / 2 / 2, i - 3);
        }
      }
    }
  }

  lemma {:induction false} ZeroBit(i: nat)
    ensures !BitAt(0, i)
  {
    if i > 0 {
      ZeroBit(i - 1);
    }
  }

  lemma {:induction false} BitwiseBit(op: BitOp, a: nat, b: nat, i: nat)
    ensures BitAt(Bitwise(op, a, b), i) == Combine(op, BitAt(a, i), BitAt(b, i))
    decreases i
  {
    if a == 0 && b == 0 {
      ZeroBit(i);
    } else if i > 0 {
      BitwiseBit(op, a / 2, b / 2, i - 1);
    }
  }

  lemma {:induction false} BitwiseBound(op: BitOp, a: nat, b: nat, n: nat)
    requires a < Pow2(n) && b < Pow2(n)
    ensures Bitwise(op, a, b) < Pow2(n)
    decreases n
  {
    if n > 0 && (a != 0 || b != 0) {
      BitwiseBound(op, a / 2, b / 2, n - 1);
    }
  }

  lemma {:induction false} ShlBit(x: nat, k: nat, i: nat)
    ensures BitAt(Shl(x, k), i) == (i >= k && BitAt(x, i - k))
    decreases k
  {
    if k > 0 {
      ShlBit(2 * x, k - 1, i);
    }
  }

  lemma {:induction false} ShrBit(x: int, k: nat, i: nat)
    ensures BitAt(Shr(x, k), i) == BitAt(x, i + k)
    decreases k
  {
    if k > 0 {
      ShrBit(x / 2, k - 1, i);
    }
  }

  /** The low `n` bits. */
  function Trunc(x: int, n: nat): (r: nat)
    ensures r < Pow2(n)
  { x % Pow2(n) }

  lemma ModHalf(x: int, p: nat)
    requires p > 0
    ensures x % (2 * p) == x % 2 + 2 * (x / 2 % p)
  {
    var h := x / 2;
    var r := x % 2 + 2 * (h % p);
    assert x == (2 * p) * (h / p) + r;
    DivUnique(x, 2 * p, h / p, r);
  }

  lemma {:induction false} TruncBit(x: int, n: nat, i: nat)
    ensures BitAt(Trunc(x, n), i) == (i < n && BitAt(x, i))
    decreases n
  {
    if n == 0 {
      ZeroBit(i);
    } else {
      ModHalf(x, Pow2(n - 1));
      if i > 0 {
        TruncBit(x / 2, n - 1, i - 1);
      }
    }
  }

  /** A number is its bits. */
  lemma {:induction false} SameBits(x: nat, y: nat, n: nat)
    requires x < Pow2(n) && y < Pow2(n) && forall i: nat :: i < n ==> BitAt(x, i) == BitAt(y, i)
    ensures x == y
    decreases n
  {
    if n > 0 {
      forall i: nat | i < n - 1 ensures BitAt(x / 2, i) == BitAt(y / 2, i) {
        assert BitAt(x, i + 1) == BitAt(y, i + 1);
      }
      assert BitAt(x, 0) == BitAt(y, 0);
      SameBits(x / 2, y / 2, n - 1);
    }
  }

  lemma {:induction false} HighBits(x: nat, n: nat, i: nat)
    requires x < Pow2(n) && i >= n
    ensures !BitAt(x, i)
    decreases n
  {
    if n == 0 {
      ZeroBit(i);
    } else {
      HighBits(x / 2, n - 1, i - 1);
    }
  }

  lemma {:induction false} TopBit(x: nat, n: nat)
    requires x < 2 * Pow2(n)
    ensures BitAt(x, n) <==> x >= Pow2(n)
    decreases n
  {
    if n > 0 {
      TopBit(x / 2, n - 1);
    }
  }

  /** The number with the given bits, the lowest one first. */
  function Pack(bits: seq<bool>): (x: nat)
    ensures x < Pow2(|bits|)
    ensures forall i: nat :: i < |bits| ==> BitAt(x, i) == bits[i]
  {
    if bits == [] then 0 else One(bits[0]) + 2 * Pack(bits[1..])
  }

  lemma DivUnique(x: int, d: nat, q: int, r: int)
    requires d > 0 && x == d * q + r && 0 <= r < d
    ensures x / d == q && x % d == r
  {
    QuotientUnique(d, q, r, x / d, x % d);
  }

  lemma QuotientUnique(d: nat, q: int, r: int, q': int, r': int)
    requires 0 <= r < d && 0 <= r' < d && d * q + r == d * q' + r'
    ensures q == q' && r == r'
  {
    assert d * (q - q') == r' - r;
    AtLeast(d, q - q');
    AtLeast(d, q' - q);
  }

  lemma AtLeast(d: nat, k: int)
    ensures k >= 1 ==> d * k >= d
  {
    if k >= 1 {
      assert d * k == d * (k - 1) + d;
    }
  }

  lemma {:induction false} ShrAll(x: nat, n: nat)
    requires x < Pow2(n)
    ensures Shr(x, n) == 0
    decreases n
  {
    if n > 0 {
      ShrAll(x / 2, n - 1);
    }
  }

  lemma {:induction false} OrZero(x: nat)
    ensures Or(x, 0) == x
    decreases x
  {
    if x > 0 {
      OrZero(x / 2);
    }
  }

  lemma {:induction false} AndZero(x: nat)
    ensures And(x, 0) == 0
    decreases x
  {
    if x > 0 {
      AndZero(x / 2);
    }
  }
}
