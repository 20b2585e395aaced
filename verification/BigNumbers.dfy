/**
 Multi-precision arithmetic by chains of ADC and SBB, whose carries go through the lazy
 flags, and packed decimal arithmetic with DAA and DAS.
 */
module BigNumbers {
  import opened BitArithmetic
  import opened StatusFlags
  import opened LazyFlags
  import opened FlagMachine

  /** The number with the given digits, the lowest one first. */
  function Number(digits: seq<nat>, base: nat): nat {
    if digits == [] then 0 else digits[0] + base * Number(digits[1..], base)
  }

  function Power(base: nat, n: nat): nat { if n == 0 then 1 else base * Power(base, n - 1) }

  lemma {:induction false} NumberAppend(digits: seq<nat>, d: nat, base: nat)
    ensures Number(digits + [d], base) == Number(digits, base) + d * Power(base, |digits|)
  {
    if digits == [] {
      assert [] + [d] == [d];
    } else {
      var rest := digits[1..];
      assert (digits + [d])[1..] == rest + [d];
      NumberAppend(rest, d, base);
      Distribute(base, Number(rest, base), d, Power(base, |rest|));
    }
  }

  lemma Distribute(b: int, x: int, d: int, p: int)
    ensures b * (x + d * p) == b * x + d * (b * p)
  {
  }

  /** One more digit of a sum: `c` is the carry so far and `c'` the next one. */
  lemma CarryOn(z: int, x: int, y: int, c0: int, c: int, c': int, zi: int, xi: int, yi: int, p: int, base: int)
    requires z + c * p == x + y + c0 && zi + c' * base == xi + yi + c
    ensures (z + zi * p) + c' * (base * p) == (x + xi * p) + (y + yi * p) + c0
  {
    assert (zi + c' * base) * p == (xi + yi + c) * p;
    assert c' * (base * p) == (c' * base) * p;
  }

  lemma BorrowOn(z: int, x: int, y: int, c0: int, c: int, c': int, zi: int, xi: int, yi: int, p: int, base: int)
    requires z - c * p == x - y - c0 && zi - c' * base == xi - yi - c
    ensures (z + zi * p) - c' * (base * p) == (x + xi * p) - (y + yi * p) - c0
  {
    assert (zi - c' * base) * p == (xi - yi - c) * p;
    assert c' * (base * p) == (c' * base) * p;
  }

  lemma SumDigit(a: nat, b: nat, c: bool, w: Width)
    requires a < Size(w) && b < Size(w)
    ensures Low(a + b + One(c), w) + One(SumFlags(a, b, c, w).cf) * Size(w) == a + b + One(c)
  {
    var s := a + b + One(c);
    DivUnique(s, Size(w), if s >= Size(w) then 1 else 0, if s >= Size(w) then s - Size(w) else s);
  }

  lemma DifferenceDigit(a: nat, b: nat, c: bool, w: Width)
    requires a < Size(w) && b < Size(w)
    ensures Low(a - b - One(c), w) - One(DifferenceFlags(a, b, c, w).cf) * Size(w) == a - b - One(c)
  {
    var s := a - b - One(c);
    DivUnique(s, Size(w), if s < 0 then -1 else 0, if s < 0 then s + Size(w) else s);
  }

  predicate Digits(s: seq<nat>, base: nat) { forall d <- s :: d < base }

  /** MOV: the flags are not touched. */
  method Move(cpu: Cpu, w: Width, d: nat, v: nat)
    requires cpu.Valid() && d < 8 && v < Size(w)
    modifies cpu`regs
    ensures cpu.Valid() && ReadReg(cpu.regs, w, d) == v && cpu.Seen() == old(cpu.Seen())
  {
    hide Low, Pulled, ReadReg, WriteReg;
    ReadWritten(cpu.regs, w, d, v, d);
    cpu.regs := WriteReg(cpu.regs, w, d, v);
  }

  /** mov d, x; adc d, y: one digit of the sum. */
  method AddDigit(cpu: Cpu, w: Width, x: nat, y: nat) returns (z: nat)
    requires cpu.Valid() && x < Size(w) && y < Size(w)
    modifies cpu
    ensures cpu.Valid() && z < Size(w)
    ensures z + One(cpu.Seen().cf) * Size(w) == x + y + One(old(cpu.Seen().cf))
  {
    hide Low, Pulled, ReadReg, WriteReg, SumFlags, Size;
    ghost var c := cpu.Seen().cf;
    Move(cpu, w, 0, x);
    ghost var regs := cpu.regs;
    SumDigit(x, y, c, w);
    ReadWritten(regs, w, 0, Low(x + y + One(c), w), 0);
    cpu.ADC(w, 0, y);
    z := ReadReg(cpu.regs, w, 0);
  }

  method SubtractDigit(cpu: Cpu, w: Width, x: nat, y: nat) returns (z: nat)
    requires cpu.Valid() && x < Size(w) && y < Size(w)
    modifies cpu
    ensures cpu.Valid() && z < Size(w)
    ensures z - One(cpu.Seen().cf) * Size(w) == x - y - One(old(cpu.Seen().cf))
  {
    hide Low, Pulled, ReadReg, WriteReg, DifferenceFlags, Size;
    ghost var c := cpu.Seen().cf;
    Move(cpu, w, 0, x);
    ghost var regs := cpu.regs;
    DifferenceDigit(x, y, c, w);
    ReadWritten(regs, w, 0, Low(x - y - One(c), w), 0);
    cpu.SBB(w, 0, y);
    z := ReadReg(cpu.regs, w, 0);
  }

  /** An ADC chain of any length is the addition of big numbers: the final carry is the carry out of the top digit. */
  method AddNumbers(cpu: Cpu, w: Width, xs: seq<nat>, ys: seq<nat>) returns (zs: seq<nat>)
    requires cpu.Valid() && |xs| == |ys| && Digits(xs, Size(w)) && Digits(ys, Size(w))
    modifies cpu
    ensures cpu.Valid() && |zs| == |xs| && Digits(zs, Size(w))
    ensures Number(zs, Size(w)) + One(cpu.Seen().cf) * Power(Size(w), |xs|) ==
            Number(xs, Size(w)) + Number(ys, Size(w)) + One(old(cpu.Seen().cf))
  {
    hide Pulled, Size, Number, Power;
    ghost var base, c0 := Size(w), cpu.Seen().cf;
    zs := [];
    NothingYet(base);
    while |zs| < |xs|
      invariant cpu.Valid() && |zs| <= |xs| && Digits(zs, base)
      invariant Number(zs, base) + One(cpu.Seen().cf) * Power(base, |zs|) ==
                Number(xs[..|zs|], base) + Number(ys[..|zs|], base) + One(c0)
    {
      var i := |zs|;
      ghost var c := cpu.Seen().cf;
      assert xs[i] in xs && ys[i] in ys;
      var z := AddDigit(cpu, w, xs[i], ys[i]);
      CarryOn(Number(zs, base), Number(xs[..i], base), Number(ys[..i], base), One(c0), One(c), One(cpu.Seen().cf),
              z, xs[i], ys[i], Power(base, i), base);
      OneMore(zs, z, xs, ys, base);
      zs := zs + [z];
    }
    assert xs[..|zs|] == xs && ys[..|zs|] == ys;
  }

  method SubtractNumbers(cpu: Cpu, w: Width, xs: seq<nat>, ys: seq<nat>) returns (zs: seq<nat>)
    requires cpu.Valid() && |xs| == |ys| && Digits(xs, Size(w)) && Digits(ys, Size(w))
    modifies cpu
    ensures cpu.Valid() && |zs| == |xs| && Digits(zs, Size(w))
    ensures Number(zs, Size(w)) - One(cpu.Seen().cf) * Power(Size(w), |xs|) ==
            Number(xs, Size(w)) - Number(ys, Size(w)) - One(old(cpu.Seen().cf))
  {
    hide Pulled, Size, Number, Power;
    ghost var base, c0 := Size(w), cpu.Seen().cf;
    zs := [];
    NothingYet(base);
    while |zs| < |xs|
      invariant cpu.Valid() && |zs| <= |xs| && Digits(zs, base)
      invariant Number(zs, base) - One(cpu.Seen().cf) * Power(base, |zs|) ==
                Number(xs[..|zs|], base) - Number(ys[..|zs|], base) - One(c0)
    {
      var i := |zs|;
      ghost var c := cpu.Seen().cf;
      assert xs[i] in xs && ys[i] in ys;
      var z := SubtractDigit(cpu, w, xs[i], ys[i]);
      BorrowOn(Number(zs, base), Number(xs[..i], base), Number(ys[..i], base), One(c0), One(c), One(cpu.Seen().cf),
               z, xs[i], ys[i], Power(base, i), base);
      OneMore(zs, z, xs, ys, base);
      zs := zs + [z];
    }
    assert xs[..|zs|] == xs && ys[..|zs|] == ys;
  }

  lemma NothingYet(base: nat)
    ensures Number([], base) == 0 && Power(base, 0) == 1
  {
  }

  lemma OneMore(zs: seq<nat>, z: nat, xs: seq<nat>, ys: seq<nat>, base: nat)
    requires |zs| < |xs| == |ys|
    ensures var i := |zs|;
            && Number(zs + [z], base) == Number(zs, base) + z * Power(base, i)
            && Number(xs[..i + 1], base) == Number(xs[..i], base) + xs[i] * Power(base, i)
            && Number(ys[..i + 1], base) == Number(ys[..i], base) + ys[i] * Power(base, i)
            && Power(base, i + 1) == base * Power(base, i)
  {
    var i := |zs|;
    NumberAppend(zs, z, base);
    NumberAppend(xs[..i], xs[i], base);
    NumberAppend(ys[..i], ys[i], base);
    assert xs[..i + 1] == xs[..i] + [xs[i]] && ys[..i + 1] == ys[..i] + [ys[i]];
  }

  // ---- packed decimal ----

  /** Two decimal digits in a byte. */
  predicate IsBcd(x: nat) { x < 0xA0 && x % 16 <= 9 }

  function Decimal(x: nat): nat { 10 * (x / 16) + x % 16 }

  /** reg_al += y, in a byte */
  function Add8(x: nat, y: int): (r: nat)
    ensures r < 0x100
  { (x + y) % 0x100 }

  lemma Add8Twice(x: nat, y: int, z: int)
    requires x < 0x100
    ensures Add8(Add8(x, y), z) == Add8(x, y + z) && Add8(x, 0) == x
  {
    var q := (x + y) / 0x100;
    var t := (x + y) % 0x100 + z;
    DivUnique(x + y + z, 0x100, q + t / 0x100, t % 0x100);
  }

  /** DAA.  CF and AF are pulled, the other flags come from the result; OF is whatever reg_flags held. */
  method DAA(cpu: Cpu)
    requires cpu.Valid()
    modifies cpu
    ensures cpu.Valid()
    ensures var al, f := old(ReadReg(cpu.regs, Byte, 0)), old(cpu.Seen());
            cpu.regs == old(WriteReg(cpu.regs, Byte, 0, AdjustedSum(al, f.af, f.cf)))
            && cpu.Seen().cf == (al > 0x99 || f.cf) && cpu.Seen().af == (al % 16 > 9 || f.af)
    ensures var r := old(AdjustedSum(ReadReg(cpu.regs, Byte, 0), cpu.Seen().af, cpu.Seen().cf));
            cpu.Seen() == ResultFlags(r, Byte, cpu.Seen().cf, cpu.Seen().af, old(cpu.flags).of)
  {
    hide Pulled, ReadReg, WriteReg, GetZF, GetSF, GetPF, GetOF, GetCF, GetAF, EvenParity, ParityLookup, Bitwise, Add8;
    var al := ReadReg(cpu.regs, Byte, 0);
    Add8Twice(al, 0x60, 0x06);
    SeenFlags(cpu.lflags, cpu.flags);
    MaskLow(al);
    if And(al, 0x0F) > 0x09 || GetAF(cpu.lflags, cpu.flags) {
      if al > 0x99 || GetCF(cpu.lflags, cpu.flags) {
        al := Add8(al, 0x60);
        cpu.flags := cpu.flags.(cf := true);
      } else {
        cpu.flags := cpu.flags.(cf := false);
      }
      al := Add8(al, 0x06);
      cpu.flags := cpu.flags.(af := true);
    } else {
      if al > 0x99 || GetCF(cpu.lflags, cpu.flags) {
        al := Add8(al, 0x60);
        cpu.flags := cpu.flags.(cf := true);
      } else {
        cpu.flags := cpu.flags.(cf := false);
      }
      cpu.flags := cpu.flags.(af := false);
    }
    cpu.regs := WriteReg(cpu.regs, Byte, 0, al);
    SetResultFlags(cpu, al);
  }

  method DAS(cpu: Cpu)
    requires cpu.Valid()
    modifies cpu
    ensures cpu.Valid()
    ensures var al, f := old(ReadReg(cpu.regs, Byte, 0)), old(cpu.Seen());
            cpu.regs == old(WriteReg(cpu.regs, Byte, 0, AdjustedDifference(al, f.af, f.cf)))
            && cpu.Seen().cf == BorrowAfter(al, f.af, f.cf) && cpu.Seen().af == (al % 16 > 9 || f.af)
    ensures var al := old(ReadReg(cpu.regs, Byte, 0));
            var r := AdjustedDifference(al, old(cpu.Seen()).af, old(cpu.Seen()).cf);
            cpu.Seen() == ResultFlags(r, Byte, cpu.Seen().cf, cpu.Seen().af, al >= 0x80 && r < 0x80)
  {
    hide Pulled, ReadReg, WriteReg, GetZF, GetSF, GetPF, GetOF, GetCF, GetAF, EvenParity, ParityLookup, Bitwise, BitAt, Add8;
    var al := ReadReg(cpu.regs, Byte, 0);
    Add8Twice(al, -0x60, -6);
    var osigned := BitAt(al, 7);
    TopIsSign(al, Byte);
    SeenFlags(cpu.lflags, cpu.flags);
    MaskLow(al);
    if And(al, 0x0F) > 9 || GetAF(cpu.lflags, cpu.flags) {
      if al > 0x99 || GetCF(cpu.lflags, cpu.flags) {
        al := Add8(al, -0x60);
        cpu.flags := cpu.flags.(cf := true);
      } else {
        cpu.flags := cpu.flags.(cf := al <= 0x05);
      }
      al := Add8(al, -6);
      cpu.flags := cpu.flags.(af := true);
    } else {
      if al > 0x99 || GetCF(cpu.lflags, cpu.flags) {
        al := Add8(al, -0x60);
        cpu.flags := cpu.flags.(cf := true);
      } else {
        cpu.flags := cpu.flags.(cf := false);
      }
      cpu.flags := cpu.flags.(af := false);
    }
    TopIsSign(al, Byte);
    cpu.regs := WriteReg(cpu.regs, Byte, 0, al);
    cpu.flags := cpu.flags.(of := osigned && !BitAt(al, 7));
    SetResultFlags(cpu, al);
  }

  /** SETFLAGBIT(SF, ...), SETFLAGBIT(ZF, ...), SETFLAGBIT(PF, ...); lflags.type = t_UNKNOWN */
  method SetResultFlags(cpu: Cpu, al: nat)
    requires al < 0x100
    modifies cpu`flags, cpu`lflags
    ensures Recorded(cpu.lflags) && Pulled(cpu.lflags, cpu.flags) == cpu.flags
    ensures cpu.flags == ResultFlags(al, Byte, old(cpu.flags).cf, old(cpu.flags).af, old(cpu.flags).of)
  {
    hide EvenParity, ParityLookup, Pulled, BitAt;
    TopIsSign(al, Byte);
    ParityTable(al);
    cpu.flags := cpu.flags.(sf := BitAt(al, 7));
    cpu.flags := cpu.flags.(zf := al == 0);
    cpu.flags := cpu.flags.(pf := ParityLookup(al));
    cpu.lflags := cpu.lflags.(kind := T_UNKNOWN);
    NothingPending(cpu.lflags, cpu.flags);
  }

  lemma SeenFlags(l: Lazy, f: Status)
    requires Recorded(l)
    ensures GetCF(l, f) == Pulled(l, f).cf && GetAF(l, f) == Pulled(l, f).af
  {
  }

  /** AL after DAA and DAS. */
  function AdjustedSum(al: nat, af: bool, cf: bool): (r: nat)
    ensures r < 0x100
  {
    Add8(al, (if al > 0x99 || cf then 0x60 else 0) + (if al % 16 > 9 || af then 0x06 else 0))
  }

  function AdjustedDifference(al: nat, af: bool, cf: bool): (r: nat)
    ensures r < 0x100
  {
    Add8(al, (if al > 0x99 || cf then -0x60 else 0) + (if al % 16 > 9 || af then -6 else 0))
  }

  /** CF after DAS. */
  predicate BorrowAfter(al: nat, af: bool, cf: bool) { al > 0x99 || cf || ((al % 16 > 9 || af) && al <= 0x05) }

  /** The binary sum of two packed bytes, adjusted, is their decimal sum, with the carry as hundred. */
  lemma DecimalSum(a: nat, b: nat, c: bool)
    requires IsBcd(a) && IsBcd(b)
    ensures var f, al := SumFlags(a, b, c, Byte), Low(a + b + One(c), Byte);
            var r, cf := AdjustedSum(al, f.af, f.cf), al > 0x99 || f.cf;
            IsBcd(r) && Decimal(r) + 100 * One(cf) == Decimal(a) + Decimal(b) + One(c)
  {
    hide EvenParity;
    var lo, hi := a % 16 + b % 16 + One(c), a / 16 + b / 16;
    assert a + b + One(c) == 16 * hi + lo;
    DecimalAdjust(lo, hi);
  }

  lemma DecimalAdjust(lo: nat, hi: nat)
    requires lo <= 19 && hi <= 18
    ensures var s := 16 * hi + lo;
            var al := s % 0x100;
            var cf := al > 0x99 || s >= 0x100;
            var r := AdjustedSum(al, lo >= 16, s >= 0x100);
            IsBcd(r) && Decimal(r) + 100 * One(cf) == 10 * hi + lo
  {
    var s := 16 * hi + lo;
    var wraps := s >= 0x100;
    var al := if wraps then s - 0x100 else s;
    DivUnique(s, 0x100, One(wraps), al);
    SumNibbleOf(lo, hi);
    var carry := hi + One(lo > 9) >= 10;
    assert carry == (al > 0x99 || wraps);
    var h, l := hi + One(lo > 9) - 10 * One(carry), lo - 10 * One(lo > 9);
    DivUnique(al + (0x60 * One(carry) + 0x06 * One(lo > 9)), 0x100, One(carry && !wraps), 16 * h + l);
    hide Low;
    DivUnique(16 * h + l, 16, h, l);
  }

  lemma SumNibbleOf(lo: nat, hi: nat)
    requires lo <= 19 && hi <= 18
    ensures var s := 16 * hi + lo;
            (if s >= 0x100 then s - 0x100 else s) % 16 == if lo >= 16 then lo - 16 else lo
  {
    var s := 16 * hi + lo;
    DivUnique(if s >= 0x100 then s - 0x100 else s, 16, hi + One(lo >= 16) - 16 * One(s >= 0x100), if lo >= 16 then lo - 16 else lo);
  }

  lemma DecimalDifference(a: nat, b: nat, c: bool)
    requires IsBcd(a) && IsBcd(b)
    ensures var f, al := DifferenceFlags(a, b, c, Byte), Low(a - b - One(c), Byte);
            var r, cf := AdjustedDifference(al, f.af, f.cf), BorrowAfter(al, f.af, f.cf);
            IsBcd(r) && Decimal(r) - 100 * One(cf) == Decimal(a) - Decimal(b) - One(c)
  {
    hide EvenParity;
    var lo, hi := a % 16 - b % 16 - One(c), a / 16 - b / 16;
    assert a - b - One(c) == 16 * hi + lo;
    DecimalAdjustBack(lo, hi);
  }

  lemma DecimalAdjustBack(lo: int, hi: int)
    requires -10 <= lo <= 9 && -9 <= hi <= 9
    ensures var s := 16 * hi + lo;
            var al := s % 0x100;
            var cf := BorrowAfter(al, lo < 0, s < 0);
            var r := AdjustedDifference(al, lo < 0, s < 0);
            IsBcd(r) && Decimal(r) - 100 * One(cf) == 10 * hi + lo && cf == (s < 0)
  {
    var s := 16 * hi + lo;
    var borrow := s < 0;
    var al := if borrow then s + 0x100 else s;
    DivUnique(s, 0x100, if borrow then -1 else 0, al);
    var nibble := if lo < 0 then lo + 16 else lo;
    DivUnique(al, 16, hi - One(lo < 0) + 16 * One(borrow), nibble);
    var h, l := hi - One(lo < 0) + 10 * One(borrow), lo + 10 * One(lo < 0);
    var r := 16 * h + l;
    DivUnique(al - 0x60 * One(borrow) - 0x06 * One(lo < 0), 0x100, 0, r);
    DivUnique(r, 16, h, l);
  }

  predicate Packed(s: seq<nat>) { forall x <- s :: IsBcd(x) }

  /** mov al, x; adc al, y; daa: two decimal digits of the sum. */
  method AddPacked(cpu: Cpu, x: nat, y: nat) returns (z: nat)
    requires cpu.Valid() && IsBcd(x) && IsBcd(y)
    modifies cpu
    ensures cpu.Valid() && IsBcd(z)
    ensures Decimal(z) + 100 * One(cpu.Seen().cf) == Decimal(x) + Decimal(y) + One(old(cpu.Seen().cf))
  {
    hide Low, Pulled, ReadReg, WriteReg, SumFlags, ResultFlags, AdjustedSum, Decimal;
    ghost var c := cpu.Seen().cf;
    DecimalSum(x, y, c);
    Move(cpu, Byte, 0, x);
    ghost var regs := cpu.regs;
    ReadWritten(regs, Byte, 0, Low(x + y + One(c), Byte), 0);
    cpu.ADC(Byte, 0, y);
    ghost var f := cpu.Seen();
    ReadWritten(cpu.regs, Byte, 0, AdjustedSum(Low(x + y + One(c), Byte), f.af, f.cf), 0);
    DAA(cpu);
    z := ReadReg(cpu.regs, Byte, 0);
  }

  method SubtractPacked(cpu: Cpu, x: nat, y: nat) returns (z: nat)
    requires cpu.Valid() && IsBcd(x) && IsBcd(y)
    modifies cpu
    ensures cpu.Valid() && IsBcd(z)
    ensures Decimal(z) - 100 * One(cpu.Seen().cf) == Decimal(x) - Decimal(y) - One(old(cpu.Seen().cf))
  {
    hide Low, Pulled, ReadReg, WriteReg, DifferenceFlags, ResultFlags, AdjustedDifference, Decimal, BorrowAfter;
    ghost var c := cpu.Seen().cf;
    DecimalDifference(x, y, c);
    Move(cpu, Byte, 0, x);
    ghost var regs := cpu.regs;
    ReadWritten(regs, Byte, 0, Low(x - y - One(c), Byte), 0);
    cpu.SBB(Byte, 0, y);
    ghost var f := cpu.Seen();
    ReadWritten(cpu.regs, Byte, 0, AdjustedDifference(Low(x - y - One(c), Byte), f.af, f.cf), 0);
    DAS(cpu);
    z := ReadReg(cpu.regs, Byte, 0);
  }

  ghost function Values(s: seq<nat>): (v: seq<nat>)
    ensures |v| == |s|
  { seq(|s|, i requires 0 <= i < |s| => Decimal(s[i])) }

  /** Packed decimal strings of any length: ADC and DAA byte by byte give the decimal sum, and CF is its carry. */
  method AddDecimals(cpu: Cpu, xs: seq<nat>, ys: seq<nat>) returns (zs: seq<nat>)
    requires cpu.Valid() && |xs| == |ys| && Packed(xs) && Packed(ys)
    modifies cpu
    ensures cpu.Valid() && |zs| == |xs| && Packed(zs)
    ensures Number(Values(zs), 100) + One(cpu.Seen().cf) * Power(100, |xs|) ==
            Number(Values(xs), 100) + Number(Values(ys), 100) + One(old(cpu.Seen().cf))
  {
    hide Pulled, Number, Power, Decimal;
    ghost var c0, vx, vy := cpu.Seen().cf, Values(xs), Values(ys);
    zs := [];
    NothingYet(100);
    while |zs| < |xs|
      invariant cpu.Valid() && |zs| <= |xs| && Packed(zs)
      invariant Number(Values(zs), 100) + One(cpu.Seen().cf) * Power(100, |zs|) ==
                Number(vx[..|zs|], 100) + Number(vy[..|zs|], 100) + One(c0)
    {
      var i := |zs|;
      ghost var c, vz := cpu.Seen().cf, Values(zs);
      var z := AddPacked(cpu, xs[i], ys[i]);
      CarryOn(Number(vz, 100), Number(vx[..i], 100), Number(vy[..i], 100), One(c0), One(c), One(cpu.Seen().cf),
              Decimal(z), vx[i], vy[i], Power(100, i), 100);
      OneMore(vz, Decimal(z), vx, vy, 100);
      assert Values(zs + [z]) == vz + [Decimal(z)];
      zs := zs + [z];
    }
    assert vx[..|zs|] == vx && vy[..|zs|] == vy;
  }

  method SubtractDecimals(cpu: Cpu, xs: seq<nat>, ys: seq<nat>) returns (zs: seq<nat>)
    requires cpu.Valid() && |xs| == |ys| && Packed(xs) && Packed(ys)
    modifies cpu
    ensures cpu.Valid() && |zs| == |xs| && Packed(zs)
    ensures Number(Values(zs), 100) - One(cpu.Seen().cf) * Power(100, |xs|) ==
            Number(Values(xs), 100) - Number(Values(ys), 100) - One(old(cpu.Seen().cf))
  {
    hide Pulled, Number, Power, Decimal;
    ghost var c0, vx, vy := cpu.Seen().cf, Values(xs), Values(ys);
    zs := [];
    NothingYet(100);
    while |zs| < |xs|
      invariant cpu.Valid() && |zs| <= |xs| && Packed(zs)
      invariant Number(Values(zs), 100) - One(cpu.Seen().cf) * Power(100, |zs|) ==
                Number(vx[..|zs|], 100) - Number(vy[..|zs|], 100) - One(c0)
    {
      var i := |zs|;
      ghost var c, vz := cpu.Seen().cf, Values(zs);
      var z := SubtractPacked(cpu, xs[i], ys[i]);
      BorrowOn(Number(vz, 100), Number(vx[..i], 100), Number(vy[..i], 100), One(c0), One(c), One(cpu.Seen().cf),
               Decimal(z), vx[i], vy[i], Power(100, i), 100);
      OneMore(vz, Decimal(z), vx, vy, 100);
      assert Values(zs + [z]) == vz + [Decimal(z)];
      zs := zs + [z];
    }
    assert vx[..|zs|] == vx && vy[..|zs|] == vy;
  }
}
