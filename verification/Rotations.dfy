/**
 The shift-and-or formulas of the rotate macros are turns of a ring of bits.
 */
module Rotations {
  import opened BitArithmetic
  import opened StatusFlags

  lemma LowIsTrunc(x: int, w: Width)
    ensures Low(x, w) == Trunc(x, Bits(w))
  {
    WidthPowers(w);
  }

  /** Bit `i` of `(x << k) | (x >> (n - k))` */
  lemma RolBit(x: nat, k: nat, n: nat, i: nat)
    requires x < Pow2(n) && k <= n && i < n
    ensures BitAt(Or(Shl(x, k), Shr(x, n - k)), i) == BitAt(x, if i >= k then i - k else i + n - k)
  {
    BitwiseBit(OR, Shl(x, k), Shr(x, n - k), i);
    ShlBit(x, k, i);
    ShrBit(x, n - k, i);
    if i >= k {
      HighBits(x, n, i + n - k);
    }
  }

  /** Bit `i` of `(x >> k) | (x << (n - k))` */
  lemma RorBit(x: nat, k: nat, n: nat, i: nat)
    requires x < Pow2(n) && k <= n && i < n
    ensures BitAt(Or(Shr(x, k), Shl(x, n - k)), i) == BitAt(x, if i + k < n then i + k else i + k - n)
  {
    BitwiseBit(OR, Shr(x, k), Shl(x, n - k), i);
    ShlBit(x, n - k, i);
    ShrBit(x, k, i);
    if i + k >= n {
      HighBits(x, n, i + k);
    }
  }

  lemma SmallMod(x: nat, n: nat)
    requires x < 2 * n
    ensures x % n == if x < n then x else x - n
  {
    DivUnique(x, n, if x < n then 0 else 1, if x < n then x else x - n);
  }

  lemma TurnedAt(ring: seq<bool>, k: nat, i: nat)
    requires i < |ring| && k < |ring|
    ensures Turned(ring, k)[i] == ring[if i >= k then i - k else i + |ring| - k]
    ensures TurnedBack(ring, k)[i] == ring[if i + k < |ring| then i + k else i + k - |ring|]
  {
    SmallMod(k, |ring|);
    SmallMod(i + |ring| - k, |ring|);
    SmallMod(i + k, |ring|);
  }

  /** The bits of a number determine its low part. */
  lemma PackIs(y: nat, bits: seq<bool>, w: Width)
    requires |bits| == Bits(w) && forall i: nat :: i < |bits| ==> BitAt(y, i) == bits[i]
    ensures Low(y, w) == Pack(bits)
  {
    var n := Bits(w);
    LowIsTrunc(y, w);
    hide Pow2, Low, Trunc, Bits;
    forall i: nat | i < n ensures BitAt(Trunc(y, n), i) == BitAt(Pack(bits), i) {
      TruncBit(y, n, i);
    }
    SameBits(Trunc(y, n), Pack(bits), n);
  }

  /** The ring of an operand, turned. */
  lemma RingAt(x: nat, k: nat, n: nat, i: nat)
    requires i < n && k < n
    ensures Turned(BitsOf(x, n), k)[i] == BitAt(x, if i >= k then i - k else i + n - k)
    ensures TurnedBack(BitsOf(x, n), k)[i] == BitAt(x, if i + k < n then i + k else i + k - n)
  {
    TurnedAt(BitsOf(x, n), k, i);
    hide Turned, TurnedBack;
  }

  lemma CarryRingAt(x: nat, cf: bool, k: nat, w: Width, i: nat)
    requires i <= Bits(w) && 1 <= k <= Bits(w)
    ensures var n := Bits(w);
            Turned(CarryRing(x, cf, w), k)[i] ==
            if i >= k then BitAt(x, i - k) else if i == k - 1 then cf else BitAt(x, i + n + 1 - k)
    ensures var n := Bits(w);
            TurnedBack(CarryRing(x, cf, w), k)[i] ==
            if i + k < n then BitAt(x, i + k) else if i + k == n then cf else BitAt(x, i + k - n - 1)
  {
    TurnedAt(CarryRing(x, cf, w), k, i);
    hide Turned, TurnedBack, Bits;
  }

  lemma RolTurns(x: nat, k: nat, w: Width)
    requires x < Size(w) && k < Bits(w)
    ensures Low(Or(Shl(x, k), Shr(x, Bits(w) - k)), w) == RotateLeft(x, k, w)
  {
    hide Turned, TurnedBack, BitsOf, BitAt, Pow2, Bits, Size, Sign, Low, Or, Shl, Shr, Bitwise;
    var n := Bits(w);
    var y, ring := Or(Shl(x, k), Shr(x, n - k)), Turned(BitsOf(x, n), k);
    WidthPowers(w);
    forall i: nat | i < n ensures BitAt(y, i) == ring[i] {
      hide *;
      RolBit(x, k, n, i);
      RingAt(x, k, n, i);
    }
    PackIs(y, ring, w);
  }

  lemma RorTurns(x: nat, k: nat, w: Width)
    requires x < Size(w) && k < Bits(w)
    ensures Low(Or(Shr(x, k), Shl(x, Bits(w) - k)), w) == RotateRight(x, k, w)
  {
    hide Turned, TurnedBack, BitsOf, BitAt, Pow2, Bits, Size, Sign, Low, Or, Shl, Shr, Bitwise;
    var n := Bits(w);
    var y, ring := Or(Shr(x, k), Shl(x, n - k)), TurnedBack(BitsOf(x, n), k);
    WidthPowers(w);
    forall i: nat | i < n ensures BitAt(y, i) == ring[i] {
      hide *;
      RorBit(x, k, n, i);
      RingAt(x, k, n, i);
    }
    PackIs(y, ring, w);
  }

  lemma OneBit(c: bool, i: nat)
    ensures BitAt(One(c), i) == (i == 0 && c)
  {
    ZeroBit(i);
    if i > 0 {
      ZeroBit(i - 1);
    }
  }

  /** The formula of RCL: the operand moves up, the carry goes in below it, the bits that fall off go in below that. */
  function RclValue(x: nat, cf: bool, k: nat, n: nat): nat
    requires 1 <= k <= n
  { Or(Or(Shl(x, k), Shl(One(cf), k - 1)), Shr(x, n + 1 - k)) }

  lemma RclBit(x: nat, cf: bool, k: nat, n: nat, i: nat)
    requires x < Pow2(n) && 1 <= k <= n && i < n
    ensures BitAt(RclValue(x, cf, k, n), i) ==
            if i >= k then BitAt(x, i - k) else if i == k - 1 then cf else BitAt(x, i + n + 1 - k)
  {
    var a, b, c := Shl(x, k), Shl(One(cf), k - 1), Shr(x, n + 1 - k);
    BitwiseBit(OR, Or(a, b), c, i);
    BitwiseBit(OR, a, b, i);
    ShlBit(x, k, i);
    ShlBit(One(cf), k - 1, i);
    ShrBit(x, n + 1 - k, i);
    if i >= k - 1 {
      OneBit(cf, i - (k - 1));
      HighBits(x, n, i + n + 1 - k);
    }
  }

  /** RCL turns the ring of the operand and the carry. */
  lemma RclTurns(x: nat, cf: bool, k: nat, w: Width)
    requires x < Size(w) && 1 <= k <= Bits(w)
    ensures var n := Bits(w);
            var ring := Turned(CarryRing(x, cf, w), k);
            Low(RclValue(x, cf, k, n), w) == Pack(ring[..n]) && BitAt(x, n - k) == ring[n]
  {
    var n := Bits(w);
    var ring, y := Turned(CarryRing(x, cf, w), k), RclValue(x, cf, k, n);
    WidthPowers(w);
    forall i: nat | i < n ensures BitAt(y, i) == ring[..n][i] {
      hide *;
      RclBit(x, cf, k, n, i);
      CarryRingAt(x, cf, k, w, i);
    }
    hide *;
    CarryRingAt(x, cf, k, w, n);
    PackIs(y, ring[..n], w);
  }

  /** The formula of RCR. */
  function RcrValue(x: nat, cf: bool, k: nat, n: nat): nat
    requires 1 <= k <= n
  { Or(Or(Shr(x, k), Shl(One(cf), n - k)), Shl(x, n + 1 - k)) }

  lemma RcrBit(x: nat, cf: bool, k: nat, n: nat, i: nat)
    requires x < Pow2(n) && 1 <= k <= n && i < n
    ensures BitAt(RcrValue(x, cf, k, n), i) ==
            if i + k < n then BitAt(x, i + k) else if i + k == n then cf else BitAt(x, i + k - n - 1)
  {
    var a, b, c := Shr(x, k), Shl(One(cf), n - k), Shl(x, n + 1 - k);
    BitwiseBit(OR, Or(a, b), c, i);
    BitwiseBit(OR, a, b, i);
    ShrBit(x, k, i);
    ShlBit(One(cf), n - k, i);
    ShlBit(x, n + 1 - k, i);
    if i + k >= n {
      OneBit(cf, i + k - n);
      HighBits(x, n, i + k);
    }
  }

  lemma RcrTurns(x: nat, cf: bool, k: nat, w: Width)
    requires x < Size(w) && 1 <= k <= Bits(w)
    ensures var n := Bits(w);
            var ring := TurnedBack(CarryRing(x, cf, w), k);
            Low(RcrValue(x, cf, k, n), w) == Pack(ring[..n]) && BitAt(x, k - 1) == ring[n]
  {
    var n := Bits(w);
    var ring, y := TurnedBack(CarryRing(x, cf, w), k), RcrValue(x, cf, k, n);
    WidthPowers(w);
    forall i: nat | i < n ensures BitAt(y, i) == ring[..n][i] {
      hide *;
      RcrBit(x, cf, k, n, i);
      CarryRingAt(x, cf, k, w, i);
    }
    hide *;
    CarryRingAt(x, cf, k, w, n);
    PackIs(y, ring[..n], w);
  }

  /** Turning back by the same amount restores the ring. */
  lemma TurnAndBack(ring: seq<bool>, k: nat)
    requires ring != []
    ensures TurnedBack(Turned(ring, k), k) == ring == Turned(TurnedBack(ring, k), k)
  {
    var n := |ring|;
    var there, back := Turned(ring, k), TurnedBack(ring, k);
    hide Turned, TurnedBack;
    forall i | 0 <= i < n
      ensures TurnedBack(there, k)[i] == ring[i] == Turned(back, k)[i]
    {
      var j := k % n;
      TurnedIndex(there, k, i);
      TurnedIndex(ring, k, if i + j < n then i + j else i + j - n);
      TurnedIndex(back, k, i);
      TurnedIndex(ring, k, if i >= j then i - j else i + n - j);
    }
  }

  lemma TurnedIndex(ring: seq<bool>, k: nat, i: nat)
    requires i < |ring|
    ensures var j := k % |ring|;
            && Turned(ring, k)[i] == ring[if i >= j then i - j else i + |ring| - j]
            && TurnedBack(ring, k)[i] == ring[if i + j < |ring| then i + j else i + j - |ring|]
  {
    var j := k % |ring|;
    SmallMod(i + |ring| - j, |ring|);
    SmallMod(i + j, |ring|);
  }

  /** Rotating back restores the operand. */
  lemma RotateBack(x: nat, k: nat, w: Width)
    requires x < Size(w)
    ensures RotateRight(RotateLeft(x, k, w), k, w) == x == RotateLeft(RotateRight(x, k, w), k, w)
  {
    hide Turned, TurnedBack, BitsOf, Pack, Bits, Pow2, Size, Sign;
    var ring := BitsOf(x, Bits(w));
    TurnAndBack(ring, k);
    WidthPowers(w);
    PackBitsOf(Turned(ring, k));
    PackBitsOf(TurnedBack(ring, k));
    BitsOfPack(x, Bits(w));
  }

  lemma PackBitsOf(bits: seq<bool>)
    ensures BitsOf(Pack(bits), |bits|) == bits
  {
  }

  lemma BitsOfPack(x: nat, n: nat)
    requires x < Pow2(n)
    ensures Pack(BitsOf(x, n)) == x
  {
    SameBits(Pack(BitsOf(x, n)), x, n);
  }

  /** The two's complement of a negative number has ones above its width. */
  lemma {:induction false} NegativeBit(x: nat, n: nat, j: nat)
    requires x < Pow2(n)
    ensures BitAt(x - Pow2(n), j) == (j >= n || BitAt(x, j))
    decreases n
  {
    if n == 0 {
      MinusOneBit(j);
    } else if j > 0 {
      NegativeBit(x / 2, n - 1, j - 1);
    }
  }

  lemma {:induction false} MinusOneBit(j: nat)
    ensures BitAt(-1, j)
  {
    if j > 0 {
      MinusOneBit(j - 1);
    }
  }

  lemma OnesBit(n: nat, j: nat)
    ensures BitAt(Pow2(n) - 1, j) == (j < n)
    decreases n
  {
    if n == 0 {
      ZeroBit(j);
    } else if j > 0 {
      OnesBit(n - 1, j - 1);
    }
  }

  /** `(x >> k) | (ones << (n - k))` is the arithmetic shift of a negative operand. */
  lemma SarFills(x: nat, k: nat, w: Width)
    requires Sign(w) <= x < Size(w) && k <= Bits(w)
    ensures Low(Or(Shr(x, k), Shl(Size(w) - 1, Bits(w) - k)), w) == Low(Shr(Signed(x, w), k), w)
  {
    hide BitAt, Pow2, Or, Shl, Shr, Bitwise, Trunc;
    var n := Bits(w);
    WidthPowers(w);
    var y, z := Or(Shr(x, k), Shl(Size(w) - 1, n - k)), Shr(Signed(x, w), k);
    LowIsTrunc(y, w);
    LowIsTrunc(z, w);
    hide Low, Size, Sign, Signed;
    forall i: nat | i < n ensures BitAt(Trunc(y, n), i) == BitAt(Trunc(z, n), i) {
      SarBit(x, k, n, i);
      TruncBit(y, n, i);
      TruncBit(z, n, i);
    }
    SameBits(Trunc(y, n), Trunc(z, n), n);
  }

  lemma SarBit(x: nat, k: nat, n: nat, i: nat)
    requires x < Pow2(n) && k <= n && i < n
    ensures BitAt(Or(Shr(x, k), Shl(Pow2(n) - 1, n - k)), i) == BitAt(Shr(x - Pow2(n), k), i)
  {
    BitwiseBit(OR, Shr(x, k), Shl(Pow2(n) - 1, n - k), i);
    ShrBit(x, k, i);
    ShlBit(Pow2(n) - 1, n - k, i);
    ShrBit(x - Pow2(n), k, i);
    NegativeBit(x, n, i + k);
    if i >= n - k {
      OnesBit(n, i - (n - k));
      HighBits(x, n, i + k);
    }
  }

  /** Only the count modulo the size of the ring matters. */
  lemma TurnedModulo(ring: seq<bool>, k: nat)
    requires ring != []
    ensures Turned(ring, k % |ring|) == Turned(ring, k) && TurnedBack(ring, k % |ring|) == TurnedBack(ring, k)
  {
    SmallMod(k % |ring|, |ring|);
  }

  /** An arithmetic shift by at least the width leaves nothing but the sign. */
  lemma {:induction false} ShrSign(x: int, n: nat, k: nat)
    requires -(Pow2(n) as int) <= x < Pow2(n) && k >= n
    ensures Shr(x, k) == (if x < 0 then -1 else 0) && BitAt(x, k) == (x < 0)
    decreases k
  {
    if n > 0 {
      ShrSign(x / 2, n - 1, k - 1);
    } else if k > 0 {
      ShrSign(x / 2, 0, k - 1);
    }
  }

  /** `(r & 1) ^ (r >> (n - 1))` tells whether the lowest and the highest bit differ. */
  lemma EndsDiffer(r: nat, w: Width, c: bool)
    requires r < Size(w)
    ensures And(r, 1) == One(BitAt(r, 0))
    ensures Xor(One(c), Shr(r, Bits(w) - 1)) != 0 <==> c != BitAt(r, Bits(w) - 1)
  {
    WidthPowers(w);
    AndOne(r);
    TopShr(r, Bits(w) - 1);
  }

  lemma AndOne(r: nat)
    ensures And(r, 1) == r % 2
  {
    AndZero(r / 2);
  }

  lemma {:induction false} TopShr(r: nat, n: nat)
    requires r < 2 * Pow2(n)
    ensures Shr(r, n) == One(BitAt(r, n))
    decreases n
  {
    if n > 0 {
      TopShr(r / 2, n - 1);
    }
  }
}
