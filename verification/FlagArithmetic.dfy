/**
 The carry, borrow, overflow and nibble-carry formulas of the lazy flags, against whole-number arithmetic.
 */
module FlagArithmetic {
  import opened BitArithmetic
  import opened StatusFlags

  lemma LowMod(x: int, w: Width)
    ensures Low(x, w) % 32 == x % 32
  {
    match w
    case Byte => DivUnique(x, 32, 8 * (x / 0x100) + x % 0x100 / 32, x % 0x100 % 32);
    case Word => DivUnique(x, 32, 0x800 * (x / 0x1_0000) + x % 0x1_0000 / 32, x % 0x1_0000 % 32);
    case Dword => DivUnique(x, 32, 0x800_0000 * (x / 0x1_0000_0000) + x % 0x1_0000_0000 / 32, x % 0x1_0000_0000 % 32);
  }

  lemma CarryOut(a: nat, b: nat, c: bool, w: Width)
    requires a < Size(w) && b < Size(w)
    ensures var r := Low(a + b + One(c), w);
            a + b + One(c) >= Size(w) <==> (r < a || (c && r == a))
  {
    match w
    case Byte => case Word => case Dword =>
  }

  lemma BorrowOut(a: nat, b: nat, c: bool, w: Width)
    requires a < Size(w) && b < Size(w)
    ensures var r := Low(a - b - One(c), w);
            a < b + One(c) <==> (a < r || (c && b == Size(w) - 1))
  {
    match w
    case Byte => case Word => case Dword =>
  }

  lemma SumOverflow(a: nat, b: nat, c: bool, w: Width)
    requires a < Size(w) && b < Size(w)
    ensures var r := Low(a + b + One(c), w);
            !InRange(Signed(a, w) + Signed(b, w) + One(c), w) <==>
            ((a >= Sign(w)) == (b >= Sign(w)) && (r >= Sign(w)) != (b >= Sign(w)))
  {
    match w
    case Byte => case Word => case Dword =>
  }

  lemma DifferenceOverflow(a: nat, b: nat, c: bool, w: Width)
    requires a < Size(w) && b < Size(w)
    ensures var r := Low(a - b - One(c), w);
            !InRange(Signed(a, w) - Signed(b, w) - One(c), w) <==>
            ((a >= Sign(w)) != (b >= Sign(w)) && (a >= Sign(w)) != (r >= Sign(w)))
  {
    match w
    case Byte => case Word => case Dword =>
  }

  lemma Nibble(x: nat)
    ensures x % 16 == x % 32 - (if x % 32 >= 16 then 16 else 0)
  {
    var q, r := x / 32, x % 32;
    DivUnique(x, 16, 2 * q + (if r >= 16 then 1 else 0), r - (if r >= 16 then 16 else 0));
  }

  lemma FiveBitSum(a: nat, b: nat, c: bool, r: nat)
    requires r % 32 == (a + b + One(c)) % 32
    ensures var s := a % 32 + b % 32 + One(c); s == r % 32 || s == r % 32 + 32
  {
    var s := a % 32 + b % 32 + One(c);
    DivUnique(a + b + One(c), 32, a / 32 + b / 32 + s / 32, s % 32);
  }

  lemma FiveBitDifference(a: nat, b: nat, c: bool, r: nat)
    requires r % 32 == (a - b - One(c)) % 32
    ensures var s := a % 32 - b % 32 - One(c); s == r % 32 || s == r % 32 - 32
  {
    var s := a % 32 - b % 32 - One(c);
    DivUnique(a - b - One(c), 32, a / 32 - b / 32 + s / 32, s % 32);
  }

  lemma NibbleCarry(a: nat, b: nat, c: bool, r: nat)
    requires r % 32 == (a + b + One(c)) % 32
    ensures (a % 16 + b % 16 + One(c) >= 16) <==> ((a % 32 >= 16) != (b % 32 >= 16)) != (r % 32 >= 16)
  {
    Nibble(a);
    Nibble(b);
    FiveBitSum(a, b, c, r);
  }

  lemma NibbleBorrow(a: nat, b: nat, c: bool, r: nat)
    requires r % 32 == (a - b - One(c)) % 32
    ensures (a % 16 < b % 16 + One(c)) <==> ((a % 32 >= 16) != (b % 32 >= 16)) != (r % 32 >= 16)
  {
    Nibble(a);
    Nibble(b);
    FiveBitDifference(a, b, c, r);
  }
}
