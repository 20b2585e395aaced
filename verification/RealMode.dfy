/**
 Real-mode interrupts and IRET on a stack pointer of 16 or 32 bits (src/cpu/cpu.cpp).
 */
module RealMode {
  import opened BitArithmetic

  type Byte = x: nat | x < 0x100
  type Word = x: nat | x < 0x1_0000

  const U32: nat := 0x1_0000_0000
  const FMASK_ALL: nat := 0x7FD5
  const NOT_FMASK_ALL: nat := 0x802A
  const NOT_IF_TF: nat := 0xFCFF

  /** x & cpu.stack.mask */
  function Masked(x: int, big: bool): nat { if big then x % U32 else x % 0x1_0000 }

  /** (esp & notmask) | ((esp + d) & mask) */
  function Moved(esp: nat, d: int, big: bool): nat
    requires esp < U32
  { if big then (esp + d) % U32 else esp - esp % 0x1_0000 + (esp + d) % 0x1_0000 }

  /** Moving down and up again restores the stack pointer, also around the end of the segment. */
  lemma MovedBack(esp: nat, d: int, e: int, big: bool)
    requires esp < U32
    ensures Moved(esp, d, big) < U32 && Moved(Moved(esp, d, big), e, big) == Moved(esp, d + e, big)
    ensures Moved(esp, 0, big) == esp && Masked(Moved(esp, d, big), big) == Masked(esp + d, big)
  {
    if big {
      ModPlus(esp + d, e, U32);
    } else {
      var hi := esp - esp % 0x1_0000;
      var m := (esp + d) % 0x1_0000;
      DivUnique(hi + m, 0x1_0000, esp / 0x1_0000, m);
      ModPlus(hi + m, e, 0x1_0000);
      ModPlus(esp + d, e, 0x1_0000);
    }
  }

  lemma ModPlus(x: int, e: int, m: nat)
    requires m > 0
    ensures (x % m + e) % m == (x + e) % m && x % m % m == x % m
  {
    var q, t := x / m, x % m + e;
    assert x + e == m * q + t && t == m * (t / m) + t % m;
    assert m * q + m * (t / m) == m * (q + t / m);
    DivUnique(x + e, m, q + t / m, t % m);
  }

  /** The address of the byte `i` of the word `d` bytes from the stack pointer. */
  function Slot(base: nat, esp: nat, d: int, i: nat, big: bool): nat { (base + Masked(esp + d, big) + i) % U32 }

  function WordAt(mem: nat -> Byte, base: nat, esp: nat, d: int, big: bool): nat {
    mem(Slot(base, esp, d, 0, big)) as int + 0x100 * mem(Slot(base, esp, d, 1, big)) as int
  }

  function Lo(v: Word): Byte { v % 0x100 }

  function Hi(v: Word): Byte { v / 0x100 }

  /** A word written `d` bytes from the stack pointer. */
  function Written(mem: nat -> Byte, base: nat, esp: nat, d: int, big: bool, v: Word): nat -> Byte {
    var a0, a1 := Slot(base, esp, d, 0, big), Slot(base, esp, d, 1, big);
    x => if x == a1 then Hi(v) else if x == a0 then Lo(v) else mem(x)
  }

  lemma ReadBack(mem: nat -> Byte, base: nat, esp: nat, d: int, big: bool, v: Word)
    ensures WordAt(Written(mem, base, esp, d, big, v), base, esp, d, big) == v
  {
    SlotsDiffer(base, esp, d, 0, d, 1, big);
    var mem' := Written(mem, base, esp, d, big, v);
    assert mem'(Slot(base, esp, d, 0, big)) == Lo(v) && mem'(Slot(base, esp, d, 1, big)) == Hi(v);
    Halves(v);
  }

  lemma Halves(v: Word)
    ensures Lo(v) as int + 0x100 * Hi(v) as int == v
  {
  }

  /** Words that are two or four bytes apart do not overlap, wherever the stack wraps around. */
  lemma ReadOther(mem: nat -> Byte, base: nat, esp: nat, d: int, e: int, big: bool, v: Word)
    requires e == d + 2 || e == d + 4
    ensures WordAt(Written(mem, base, esp, d, big, v), base, esp, e, big) == WordAt(mem, base, esp, e, big)
  {
    SlotsDiffer(base, esp, d, 0, e, 0, big);
    SlotsDiffer(base, esp, d, 0, e, 1, big);
    SlotsDiffer(base, esp, d, 1, e, 0, big);
    SlotsDiffer(base, esp, d, 1, e, 1, big);
  }

  lemma SlotsDiffer(base: nat, esp: nat, d: int, i: nat, e: int, j: nat, big: bool)
    requires i <= 1 && j <= 1 && ((e == d && i != j) || e == d + 2 || e == d + 4)
    ensures Slot(base, esp, d, i, big) != Slot(base, esp, e, j, big)
  {
    var m := if big then U32 else 0x1_0000;
    var x, y := Masked(esp + d, big), Masked(esp + e, big);
    assert y == x + (e - d) || y == x + (e - d) - m by {
      var q := (esp + d) / m;
      var z := x + (e - d);
      DivUnique(esp + e, m, if z < m then q else q + 1, if z < m then z else z - m);
    }
    FarApart(base, x + i, y + j);
  }

  /** Offsets that differ, by less than the address space, are different addresses. */
  lemma FarApart(base: nat, a: nat, b: nat)
    requires a != b && -(U32 as int) < b - a < U32
    ensures (base + a) % U32 != (base + b) % U32
  {
    var q := (base + a) / U32;
    var r := (base + a) % U32 + (b - a);
    DivUnique(base + b, U32, if r < 0 then q - 1 else if r < U32 then q else q + 1,
                            if r < 0 then r + U32 else if r < U32 then r else r - U32);
  }

  // ---- the flags ----

  /** The upper flags that a program can toggle: none, AC, or AC and ID. */
  datatype Toggle = Nothing | Ac | AcAndId

  /** reg_flags: the low word, and the AC and ID bits above it. */
  datatype Flags = Flags(low: nat, ac: bool, id: bool)

  /** CPU_SetFlags with the mask of a 16-bit IRET: the toggle bits are in the mask, but not in the word. */
  function SetFlags(f: Flags, word: nat, toggle: Toggle): Flags {
    Flags(Or(Or(And(f.low, NOT_FMASK_ALL), And(word, FMASK_ALL)), 2), f.ac && toggle.Nothing?, f.id && !toggle.AcAndId?)
  }

  lemma {:induction false} ComplementBit(m: nat, c: nat, n: nat, i: nat)
    requires m + c == Pow2(n) - 1 && i < n
    ensures BitAt(c, i) == !BitAt(m, i)
    decreases n
  {
    if i > 0 {
      ComplementBit(m / 2, c / 2, n - 1, i - 1);
    }
  }

  /** CF, PF, AF, ZF, SF, TF, IF, DF, OF, IOPL and NT. */
  predicate Loadable(i: nat) { i in {0, 2, 4, 6, 7, 8, 9, 10, 11, 12, 13, 14} }

  lemma MaskIs(i: nat)
    requires i < 16
    ensures BitAt(FMASK_ALL, i) == Loadable(i)
  {
    FourBits(0x7, 0xF, 0xD, 0x5, i);
  }

  /** TF is bit 8 and IF bit 9. */
  lemma ClearMaskIs(i: nat)
    requires i < 16
    ensures BitAt(NOT_IF_TF, i) == (i != 8 && i != 9)
  {
    FourBits(0xF, 0xC, 0xF, 0xF, i);
  }

  lemma FourBits(d3: nat, d2: nat, d1: nat, d0: nat, i: nat)
    requires i < 16 && d3 < 16 && d2 < 16 && d1 < 16 && d0 < 16
    ensures BitAt(0x1000 * d3 + 0x100 * d2 + 0x10 * d1 + d0, i) ==
            if i < 4 then DigitBit(d0, i) else if i < 8 then DigitBit(d1, i - 4) else if i < 12 then DigitBit(d2, i - 8) else DigitBit(d3, i - 12)
  {
    hide BitAt, DigitBit;
    LowDigit(0x100 * d3 + 0x10 * d2 + d1, d0, i);
    if i >= 4 {
      LowDigit(0x10 * d3 + d2, d1, i - 4);
      if i >= 8 {
        LowDigit(d3, d2, i - 8);
        if i >= 12 {
          LowDigit(0, d3, i - 12);
        }
      }
    }
  }

  /** The masked bits are those of the word, the others stay, and bit 1 is set. */
  lemma SetFlagsBit(f: Flags, word: nat, toggle: Toggle, i: nat)
    requires i < 16
    ensures BitAt(SetFlags(f, word, toggle).low, i) == (i == 1 || if Loadable(i) then BitAt(word, i) else BitAt(f.low, i))
  {
    MaskIs(i);
    hide Bitwise;
    var a, b := And(f.low, NOT_FMASK_ALL), And(word, FMASK_ALL);
    BitwiseBit(OR, Or(a, b), 2, i);
    BitwiseBit(OR, a, b, i);
    BitwiseBit(AND, f.low, NOT_FMASK_ALL, i);
    BitwiseBit(AND, word, FMASK_ALL, i);
    Sixteen();
    ComplementBit(FMASK_ALL, NOT_FMASK_ALL, 16, i);
    TwoBit(i);
  }

  lemma TwoBit(i: nat)
    ensures BitAt(2, i) == (i == 1)
  {
    if i > 1 {
      ZeroBit(i - 2);
    }
  }

  lemma SetFlagsBound(f: Flags, word: nat, toggle: Toggle)
    requires f.low < 0x1_0000
    ensures SetFlags(f, word, toggle).low < 0x1_0000
  {
    hide Bitwise;
    Sixteen();
    AndBound(f.low, NOT_FMASK_ALL, 16);
    AndBound(word, FMASK_ALL, 16);
    BitwiseBound(OR, And(f.low, NOT_FMASK_ALL), And(word, FMASK_ALL), 16);
    BitwiseBound(OR, Or(And(f.low, NOT_FMASK_ALL), And(word, FMASK_ALL)), 2, 16);
  }

  lemma {:induction false} AndBound(x: nat, m: nat, n: nat)
    requires m < Pow2(n)
    ensures And(x, m) < Pow2(n)
    decreases x + m
  {
    if n == 0 {
      AndZero(x);
    } else if x != 0 || m != 0 {
      AndBound(x / 2, m / 2, n - 1);
    }
  }

  class RealModeCpu {
    var mem: nat -> Byte
    var esp: nat
    // SegPhys(ss), and whether the stack pointer has 32 bits
    const base: nat
    const big: bool
    var cs: Word
    var eip: nat
    var flags: Flags
    const toggle: Toggle

    ghost predicate Valid()
      reads this
    { esp < U32 && flags.low < 0x1_0000 }

    constructor (mem: nat -> Byte, esp: nat, base: nat, big: bool, cs: Word, eip: nat, flags: Flags, toggle: Toggle)
      requires esp < U32 && flags.low < 0x1_0000
      ensures Valid()
    {
      this.mem, this.esp, this.base, this.big, this.cs, this.eip, this.flags, this.toggle := mem, esp, base, big, cs, eip, flags, toggle;
    }

    /** CPU_Push16 */
    method Push16(v: Word)
      requires Valid()
      modifies this`mem, this`esp
      ensures Valid() && esp == Moved(old(esp), -2, big) && mem == Written(old(mem), base, old(esp), -2, big, v)
    {
      MovedBack(esp, -2, 0, big);
      var newEsp := Moved(esp, -2, big);
      mem := Written(mem, base, esp, -2, big, v);
      esp := newEsp;
    }

    /** CPU_Pop16 */
    method Pop16() returns (v: Word)
      requires Valid()
      modifies this`esp
      ensures Valid() && esp == Moved(old(esp), 2, big) && v == WordAt(mem, base, old(esp), 0, big)
    {
      MovedBack(esp, 2, 0, big);
      v := WordAt(mem, base, esp, 0, big);
      esp := Moved(esp, 2, big);
    }

    /** The real-mode part of CPU_Interrupt: flags, CS and IP are pushed, IF and TF cleared, CS:IP comes from the vector. */
    method Interrupt(num: nat, oldEip: nat, idt: nat)
      requires Valid()
      modifies this`mem, this`esp, this`cs, this`eip, this`flags
      ensures Valid() && esp == Moved(old(esp), -6, big)
      ensures WordAt(mem, base, old(esp), -2, big) == old(flags).low && WordAt(mem, base, old(esp), -4, big) == old(cs)
      ensures WordAt(mem, base, old(esp), -6, big) == oldEip % 0x1_0000
      ensures flags == old(flags).(low := flags.low)
      ensures forall i: nat :: BitAt(flags.low, i) == (i != 8 && i != 9 && i < 16 && BitAt(old(flags).low, i))
      ensures var a := idt + num * 4;
              && eip == mem(a) as int + 0x100 * mem(a + 1) as int
              && cs == mem(a + 2) as int + 0x100 * mem(a + 3) as int
    {
      hide Moved, Written, WordAt, Bitwise, Slot;
      ghost var esp0, f, c, ip := esp, flags.low, cs, oldEip % 0x1_0000;
      PushAt(mem, base, esp0, big, f, c, ip);
      Push16(flags.low);
      Push16(cs);
      Push16(oldEip % 0x1_0000);
      NotIfTfBound(flags.low);
      forall i: nat ensures BitAt(And(f, NOT_IF_TF), i) == (i != 8 && i != 9 && i < 16 && BitAt(f, i)) {
        CleanedBit(f, i);
      }
      flags := flags.(low := And(flags.low, NOT_IF_TF));
      eip := VectorWord(mem, idt + num * 4);
      cs := VectorWord(mem, idt + num * 4 + 2);
    }

    /** The real-mode part of CPU_IRET with a 16-bit frame. */
    method Iret()
      requires Valid()
      modifies this`esp, this`cs, this`eip, this`flags
      ensures Valid() && esp == Moved(old(esp), 6, big)
      ensures eip == WordAt(mem, base, old(esp), 0, big) && cs == WordAt(mem, base, old(esp), 2, big)
      ensures flags == SetFlags(old(flags), WordAt(mem, base, old(esp), 4, big), toggle)
    {
      hide Moved, WordAt, SetFlags, Slot;
      PopAt(mem, base, esp, big);
      eip := Pop16();
      cs := Pop16();
      var word := Pop16();
      SetFlagsBound(flags, word, toggle);
      flags := SetFlags(flags, word, toggle);
    }
  }

  function VectorWord(mem: nat -> Byte, a: nat): Word { mem(a) as int + 0x100 * mem(a + 1) as int }

  lemma CleanedBit(x: nat, i: nat)
    ensures BitAt(And(x, NOT_IF_TF), i) == (i != 8 && i != 9 && i < 16 && BitAt(x, i))
  {
    hide Bitwise, BitAt;
    BitwiseBit(AND, x, NOT_IF_TF, i);
    if i < 16 {
      ClearMaskIs(i);
    } else {
      Sixteen();
      HighBits(NOT_IF_TF, 16, i);
    }
  }

  lemma NotIfTfBound(x: nat)
    ensures And(x, NOT_IF_TF) < 0x1_0000
  {
    Sixteen();
    AndBound(x, NOT_IF_TF, 16);
  }

  /** Reading or writing relative to a moved stack pointer. */
  lemma SlotMoved(base: nat, esp: nat, d: int, e: int, i: nat, big: bool)
    requires esp < U32
    ensures Moved(esp, d, big) < U32 && Slot(base, Moved(esp, d, big), e, i, big) == Slot(base, esp, d + e, i, big)
  {
    MovedBack(esp, d, e, big);
    MovedBack(esp, d + e, 0, big);
    MovedBack(Moved(esp, d, big), e, 0, big);
  }

  lemma WordMoved(mem: nat -> Byte, base: nat, esp: nat, d: int, e: int, big: bool)
    requires esp < U32
    ensures Moved(esp, d, big) < U32 && WordAt(mem, base, Moved(esp, d, big), e, big) == WordAt(mem, base, esp, d + e, big)
  {
    SlotMoved(base, esp, d, e, 0, big);
    SlotMoved(base, esp, d, e, 1, big);
  }

  lemma WrittenMoved(mem: nat -> Byte, base: nat, esp: nat, d: int, e: int, big: bool, v: Word)
    requires esp < U32
    ensures Moved(esp, d, big) < U32 && Written(mem, base, Moved(esp, d, big), e, big, v) == Written(mem, base, esp, d + e, big, v)
  {
    SlotMoved(base, esp, d, e, 0, big);
    SlotMoved(base, esp, d, e, 1, big);
  }

  lemma PushAt(mem: nat -> Byte, base: nat, esp: nat, big: bool, f: Word, c: Word, ip: Word)
    requires esp < U32
    ensures var m1 := Written(mem, base, esp, -2, big, f);
            var e1 := Moved(esp, -2, big);
            && e1 < U32
            && var m2, e2 := Written(m1, base, e1, -2, big, c), Moved(e1, -2, big);
            && e2 < U32
            && var m3, e3 := Written(m2, base, e2, -2, big, ip), Moved(e2, -2, big);
            && e3 == Moved(esp, -6, big)
            && WordAt(m3, base, esp, -2, big) == f && WordAt(m3, base, esp, -4, big) == c && WordAt(m3, base, esp, -6, big) == ip
  {
    hide Written, WordAt, Moved, Slot;
    var e1 := Moved(esp, -2, big);
    var m1 := Written(mem, base, esp, -2, big, f);
    MovedBack(esp, -2, -2, big);
    MovedBack(esp, -4, -2, big);
    WrittenMoved(m1, base, esp, -2, -2, big, c);
    var m2 := Written(m1, base, esp, -4, big, c);
    WrittenMoved(m2, base, esp, -4, -2, big, ip);
    ReadBack(mem, base, esp, -2, big, f);
    ReadBack(m1, base, esp, -4, big, c);
    ReadBack(m2, base, esp, -6, big, ip);
    ReadOther(m1, base, esp, -4, -2, big, c);
    ReadOther(m2, base, esp, -6, -2, big, ip);
    ReadOther(m2, base, esp, -6, -4, big, ip);
  }

  lemma PopAt(mem: nat -> Byte, base: nat, esp: nat, big: bool)
    requires esp < U32
    ensures var e1 := Moved(esp, 2, big);
            && e1 < U32 && WordAt(mem, base, e1, 0, big) == WordAt(mem, base, esp, 2, big)
            && var e2 := Moved(e1, 2, big);
            && e2 < U32 && WordAt(mem, base, e2, 0, big) == WordAt(mem, base, esp, 4, big)
            && Moved(e2, 2, big) == Moved(esp, 6, big)
  {
    hide WordAt, Moved;
    MovedBack(esp, 2, 2, big);
    MovedBack(esp, 4, 2, big);
    WordMoved(mem, base, esp, 2, 0, big);
    WordMoved(mem, base, esp, 4, 0, big);
  }

  /** An interrupt, a handler that leaves its frame and the stack pointer alone, and IRET: CS, IP and the stack pointer are
      as before and so are the flags that IRET loads; AC and ID are kept only where they cannot be toggled. */
  method Serve(cpu: RealModeCpu, num: nat, oldEip: nat, idt: nat, handlerMem: nat -> Byte, handlerFlags: Flags)
    requires cpu.Valid() && oldEip < 0x1_0000 && handlerFlags.low < 0x1_0000
    requires handlerFlags.ac == cpu.flags.ac && handlerFlags.id == cpu.flags.id
    modifies cpu
    ensures (forall d :: d == -2 || d == -4 || d == -6 ==>
              WordAt(handlerMem, cpu.base, old(cpu.esp), d, cpu.big) == Frame(old(cpu.flags).low, old(cpu.cs), oldEip, d)) ==>
              && cpu.esp == old(cpu.esp) && cpu.cs == old(cpu.cs) && cpu.eip == oldEip
              && (forall i: nat :: i < 16 && Loadable(i) ==> BitAt(cpu.flags.low, i) == BitAt(old(cpu.flags).low, i))
              && cpu.flags.ac == (old(cpu.flags).ac && cpu.toggle.Nothing?) && cpu.flags.id == (old(cpu.flags).id && !cpu.toggle.AcAndId?)
  {
    hide Moved, WordAt, Bitwise, Slot, BitAt;
    ghost var esp0, f := cpu.esp, cpu.flags;
    cpu.Interrupt(num, oldEip, idt);
    cpu.mem := handlerMem;
    cpu.flags := handlerFlags;
    MovedBack(esp0, -6, 6, cpu.big);
    WordMoved(handlerMem, cpu.base, esp0, -6, 0, cpu.big);
    WordMoved(handlerMem, cpu.base, esp0, -6, 2, cpu.big);
    WordMoved(handlerMem, cpu.base, esp0, -6, 4, cpu.big);
    cpu.Iret();
    forall i: nat | i < 16 && Loadable(i) ensures BitAt(cpu.flags.low, i) == BitAt(WordAt(handlerMem, cpu.base, esp0, -2, cpu.big), i) {
      SetFlagsBit(handlerFlags, WordAt(handlerMem, cpu.base, esp0, -2, cpu.big), cpu.toggle, i);
    }
  }

  /** The word that an interrupt stores `d` bytes from the old stack pointer. */
  function Frame(flags: nat, cs: nat, ip: nat, d: int): nat { if d == -2 then flags else if d == -4 then cs else ip }

  lemma Sixteen()
    ensures Pow2(16) == 0x1_0000
  {
    assert Pow2(8) == 0x100;
    assert Pow2(12) == 0x1000;
  }
}
