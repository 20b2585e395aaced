/**
 The instruction macros (src/cpu/instructions.h) on the lazy flags, and the filling in of
 pending flags (src/cpu/flags.cpp).
 */
module FlagMachine {
  import opened BitArithmetic
  import opened StatusFlags
  import opened LazyFlags
  import opened Rotations

  /** A write to the low byte, the low word or all of a dword. */
  function Put(x: nat, w: Width, v: nat): (y: nat)
    requires v < Size(w)
    ensures Low(y, w) == v
  {
    PutLow(x, w, v);
    x - Low(x, w) + v
  }

  lemma PutLow(x: nat, w: Width, v: nat)
    requires v < Size(w)
    ensures x - Low(x, w) >= 0 && Low(x - Low(x, w) + v, w) == v
  {
    DivUnique(x - Low(x, w) + v, Size(w), x / Size(w), v);
  }

  /** FillFlags combines the result with the first operand, get_OF with the second: under a common sign it is the same. */
  lemma SameOverflow(a: nat, b: nat, r: nat, w: Width)
    ensures BitAt(And(Xor(Xor(a, b), Sign(w)), Xor(r, a)), Top(w)) == BitAt(And(Xor(Xor(a, b), Sign(w)), Xor(r, b)), Top(w))
  {
    TopIsSign(Sign(w), w);
    hide Bitwise, BitAt, Top, Sign;
    AndXorBits(Xor(a, b), Sign(w), r, a, Top(w));
    AndXorBits(Xor(a, b), Sign(w), r, b, Top(w));
    BitwiseBit(XOR, a, b, Top(w));
  }

  lemma SameDifferenceOverflow(a: nat, b: nat, r: nat, w: Width)
    ensures BitAt(And(And(Xor(a, b), Xor(a, r)), Sign(w)), Top(w)) == BitAt(And(Xor(a, b), Xor(a, r)), Top(w))
  {
    TopIsSign(Sign(w), w);
    BitwiseBit(AND, And(Xor(a, b), Xor(a, r)), Sign(w), Top(w));
  }

  /** DOFLAG_AF looks at the low bytes only. */
  lemma SameNibble(x: nat, y: nat, z: nat, w: Width)
    ensures BitAt(Xor(Xor(Low(x, Byte), Low(y, Byte)), Low(z, Byte)), 4) == BitAt(Xor(Xor(Low(x, w), Low(y, w)), Low(z, w)), 4)
  {
    SameBitFour(x, w);
    SameBitFour(y, w);
    SameBitFour(z, w);
    hide Bitwise, BitAt, Low;
    XorBits(Low(x, Byte), Low(y, Byte), Low(z, Byte), 4);
    XorBits(Low(x, w), Low(y, w), Low(z, w), 4);
  }

  lemma SameBitFour(x: nat, w: Width)
    ensures BitAt(Low(x, Byte), 4) == BitAt(Low(x, w), 4)
  {
    hide BitAt, Low;
    LowIsTrunc(x, w);
    LowIsTrunc(x, Byte);
    TruncBit(x, Bits(w), 4);
    TruncBit(x, 8, 4);
  }

  lemma SameNegationNibble(l: Lazy)
    requires Recorded(l) && l.kind.Did? && l.kind.op.T_NEG?
    ensures And(Low(l.res, l.kind.w), 0xF) != 0 <==> And(Low(l.var1, l.kind.w), 0xF) != 0
  {
    MaskLow(Low(l.res, l.kind.w));
    MaskLow(Low(l.var1, l.kind.w));
    NegationNibble(Low(l.var1, l.kind.w), l.kind.w);
  }

  /** The low byte of var2 is the count, whatever the rest of var2 holds. */
  lemma CountMasks(l: Lazy)
    requires Recorded(l) && l.kind.Did? && IsShift(l.kind.op)
    ensures var k := Low(l.var2, Byte);
            && And(k, 0x1F) == k == And(Low(l.var2, l.kind.w), 0x1F) && k != 0
  {
    MaskLow(Low(l.var2, Byte));
    MaskLow(Low(l.var2, l.kind.w));
    FlagArithmetic.LowMod(l.var2, Byte);
    FlagArithmetic.LowMod(l.var2, l.kind.w);
  }

  /** The AF that FillFlags and FillFlagsNoCFOF compute. */
  predicate FillAF(l: Lazy, f: Status)
    requires l.kind.Did?
  {
    var op, w := l.kind.op, l.kind.w;
    var b, r := Low(l.var2, w), Low(l.res, w);
    match op
    case T_ADD | T_ADC | T_SBB | T_SUB | T_CMP => BitAt(Xor(Xor(Low(l.var1, Byte), Low(l.var2, Byte)), Low(l.res, Byte)), 4)
    case T_OR | T_TEST | T_AND | T_XOR => false
    case T_SHL | T_SHR | T_SAR => And(b, 0x1F) != 0
    case T_DSHL | T_DSHR => f.af
    case T_INC => And(r, 0xF) == 0
    case T_DEC => And(r, 0xF) == 0xF
    case T_NEG => And(r, 0xF) != 0
  }

  /** The OF that FillFlags computes. */
  predicate FillOF(l: Lazy)
    requires l.kind.Did?
  {
    var op, w := l.kind.op, l.kind.w;
    var a, b, r := Low(l.var1, w), Low(l.var2, w), Low(l.res, w);
    match op
    case T_ADD | T_ADC => BitAt(And(Xor(Xor(a, b), Sign(w)), Xor(r, a)), Top(w))
    case T_SBB | T_SUB | T_CMP => BitAt(And(And(Xor(a, b), Xor(a, r)), Sign(w)), Top(w))
    case T_OR | T_TEST | T_AND | T_XOR | T_SAR => false
    case T_SHL | T_DSHL | T_DSHR => BitAt(Xor(r, a), Top(w))
    case T_SHR => if And(b, 0x1F) == 1 then a >= Sign(w) else false
    case T_INC => r == Sign(w)
    case T_DEC => r == Sign(w) - 1
    case T_NEG => a == Sign(w)
  }

  lemma FillAFSeen(l: Lazy, f: Status)
    requires Recorded(l) && l.kind.Did?
    ensures FillAF(l, f) == if DoubleShift(l) then f.af else GetAF(l, f)
  {
    hide Bitwise, BitAt, Low, And, Xor;
    SameNibble(l.var1, l.var2, l.res, l.kind.w);
    if l.kind.op.T_NEG? {
      SameNegationNibble(l);
    }
  }

  lemma FillOFSeen(l: Lazy, f: Status)
    requires Recorded(l) && l.kind.Did?
    ensures FillOF(l) == (GetOF(l, f) || ShiftedSignBit(l))
  {
    hide Bitwise, BitAt, Low, And, Xor;
    var w := l.kind.w;
    SameOverflow(Low(l.var1, w), Low(l.var2, w), Low(l.res, w), w);
    SameDifferenceOverflow(Low(l.var1, w), Low(l.var2, w), Low(l.res, w), w);
    if l.kind.op.T_SHR? {
      CountMasks(l);
    }
  }

  /** The state that FillFlags leaves in reg_flags, from what a reader saw before. */
  function FilledIn(l: Lazy, f: Status): Status
    requires Recorded(l)
  {
    var seen := Pulled(l, f);
    seen.(of := seen.of || ShiftedSignBit(l), af := if DoubleShift(l) then f.af else seen.af)
  }

  /** Where reading and filling in differ, exactly. */
  lemma FillAgrees(l: Lazy, f: Status)
    requires Recorded(l)
    ensures FilledIn(l, f) == Pulled(l, f).(of := FilledIn(l, f).of, af := FilledIn(l, f).af)
    ensures FilledIn(l, f).of != GetOF(l, f) <==> ShiftedSignBit(l)
    ensures FilledIn(l, f).af != GetAF(l, f) <==> DoubleShift(l) && f.af
    ensures FilledIn(l.(kind := T_UNKNOWN), FilledIn(l, f)) == FilledIn(l, f)
  {
    hide Bitwise, BitAt, Low, Shr;
    if ShiftedSignBit(l) {
      CountMasks(l);
    }
  }

  lemma NothingPending(l: Lazy, f: Status)
    requires l.kind.T_UNKNOWN?
    ensures Recorded(l) && Pulled(l, f) == f
  {
  }

  // ---- the general registers ----

  /** Byte registers 4..7 are the second bytes of registers 0..3. */
  function ReadReg(regs: seq<nat>, w: Width, i: nat): (v: nat)
    requires |regs| == 8 && i < 8
    ensures v < Size(w)
  {
    if w.Byte? && i >= 4 then Low(regs[i - 4] / 0x100, Byte) else Low(regs[i], w)
  }

  function WriteReg(regs: seq<nat>, w: Width, i: nat, v: nat): (regs': seq<nat>)
    requires |regs| == 8 && i < 8 && v < Size(w)
    ensures |regs'| == 8
  {
    if w.Byte? && i >= 4 then
      regs[i - 4 := Put(regs[i - 4] / 0x100, Byte, v) * 0x100 + regs[i - 4] % 0x100]
    else regs[i := Put(regs[i], w, v)]
  }

  /** A register reads as it was written, and AL and AH do not disturb each other. */
  lemma ReadWritten(regs: seq<nat>, w: Width, i: nat, v: nat, j: nat)
    requires |regs| == 8 && i < 8 && j < 8 && v < Size(w)
    ensures ReadReg(WriteReg(regs, w, i, v), w, i) == v
    ensures w.Byte? && i != j ==> ReadReg(WriteReg(regs, w, i, v), w, j) == ReadReg(regs, w, j)
  {
    hide Low, Put;
    if w.Byte? && i >= 4 {
      var x, y := Put(regs[i - 4] / 0x100, Byte, v), regs[i - 4] % 0x100;
      DivUnique(x * 0x100 + y, 0x100, x, y);
      SameLow(x * 0x100 + y, regs[i - 4]);
    } else if w.Byte? {
      PutHigh(regs[i], v);
    }
  }

  /** The dword register that an operand lies in, its first byte there, and its number of bytes. */
  function Home(w: Width, i: nat): nat { if w.Byte? && i >= 4 then i - 4 else i }

  function FirstByte(w: Width, i: nat): nat { if w.Byte? && i >= 4 then 1 else 0 }

  function Bytes(w: Width): nat { match w case Byte => 1 case Word => 2 case Dword => 4 }

  predicate ShareBytes(w: Width, i: nat, w': Width, j: nat) {
    Home(w, i) == Home(w', j) && FirstByte(w, i) < FirstByte(w', j) + Bytes(w') && FirstByte(w', j) < FirstByte(w, i) + Bytes(w)
  }

  /** A write changes no other dword, and of its own one no byte outside the operand. */
  lemma WriteKeeps(regs: seq<nat>, w: Width, i: nat, v: nat)
    requires |regs| == 8 && i < 8 && v < Size(w)
    ensures var regs' := WriteReg(regs, w, i, v);
            && (forall k :: 0 <= k < 8 && k != Home(w, i) ==> regs'[k] == regs[k])
            && (w.Word? ==> regs'[i] / 0x1_0000 == regs[i] / 0x1_0000)
            && (w.Byte? && i < 4 ==> regs'[i] / 0x100 == regs[i] / 0x100)
            && (w.Byte? && i >= 4 ==> regs'[i - 4] % 0x100 == regs[i - 4] % 0x100 && regs'[i - 4] / 0x1_0000 == regs[i - 4] / 0x1_0000)
  {
    var r := regs[Home(w, i)];
    hide Low, Put;
    if w.Byte? && i >= 4 {
      var x, y := Put(r / 0x100, Byte, v), r % 0x100;
      DivUnique(x * 0x100 + y, 0x100, x, y);
      PutHigh(r / 0x100, v);
      Shifts(x * 0x100 + y);
      Shifts(r);
    } else if w.Byte? {
      PutHigh(r, v);
    } else if w.Word? {
      PutUpper(r, v);
    }
  }

  lemma Shifts(x: nat)
    ensures x / 0x1_0000 == x / 0x100 / 0x100
  {
    DivUnique(x, 0x1_0000, x / 0x100 / 0x100, x / 0x100 % 0x100 * 0x100 + x % 0x100);
  }

  lemma PutUpper(x: nat, v: nat)
    requires v < 0x1_0000
    ensures Put(x, Word, v) / 0x1_0000 == x / 0x1_0000
  {
    DivUnique(x - x % 0x1_0000 + v, 0x1_0000, x / 0x1_0000, v);
  }

  /** Every register of any width that shares no byte with the operand reads as before. */
  lemma ReadElsewhere(regs: seq<nat>, w: Width, i: nat, v: nat, w': Width, j: nat)
    requires |regs| == 8 && i < 8 && j < 8 && v < Size(w) && !ShareBytes(w, i, w', j)
    ensures ReadReg(WriteReg(regs, w, i, v), w', j) == ReadReg(regs, w', j)
  {
    WriteKeeps(regs, w, i, v);
    if Home(w, i) == Home(w', j) {
      ReadWritten(regs, w, i, v, j);
    }
  }

  /** AX is AL and AH, and so on; EAX continues AX. */
  lemma HalvesJoin(regs: seq<nat>, i: nat)
    requires |regs| == 8 && i < 8
    ensures i < 4 ==> ReadReg(regs, Word, i) == ReadReg(regs, Byte, i) + 0x100 * ReadReg(regs, Byte, i + 4)
    ensures regs[i] < 0x1_0000_0000 ==> ReadReg(regs, Dword, i) == regs[i] == ReadReg(regs, Word, i) + 0x1_0000 * (regs[i] / 0x1_0000)
  {
    var x := regs[i];
    Shifts(x);
    DivUnique(x, 0x1_0000, x / 0x1_0000, x % 0x100 + 0x100 * (x / 0x100 % 0x100));
  }

  lemma SameLow(x: nat, y: nat)
    requires x % 0x100 == y % 0x100
    ensures Low(x, Byte) == Low(y, Byte)
  {
  }

  lemma PutHigh(x: nat, v: nat)
    requires v < 0x100
    ensures Put(x, Byte, v) / 0x100 == x / 0x100
  {
    DivUnique(x - x % 0x100 + v, 0x100, x / 0x100, v);
  }

  class Cpu {
    var lflags: Lazy
    var flags: Status
    var regs: seq<nat>

    ghost predicate Valid()
      reads this
    {
      Recorded(lflags) && |regs| == 8
    }

    /** All six flags as condition readers see them. */
    ghost function Seen(): Status
      requires Valid()
      reads this
    {
      Pulled(lflags, flags)
    }

    /** FillFlags: reg_flags then holds what a reader saw before, but for OF of a right shift of exactly the sign bit by
        one and for AF of double shifts. */
    method FillFlags()
      requires Valid()
      modifies this`lflags, this`flags
      ensures Valid() && lflags == old(lflags).(kind := T_UNKNOWN) && flags == old(FilledIn(lflags, flags))
    {
      if lflags.kind.T_UNKNOWN? {
        return;
      }
      hide GetCF, GetOF, GetAF, FillOF, FillAF;
      FillAFSeen(lflags, flags);
      FillOFSeen(lflags, flags);
      // the two switches have the same formulas for CF
      var cf := GetCF(lflags, flags);
      FillResultFlags();
      flags := flags.(cf := cf, of := FillOF(lflags));
      lflags := lflags.(kind := T_UNKNOWN);
    }

    /** DOFLAG_AF, DOFLAG_ZF, DOFLAG_SF and DOFLAG_PF of the pending instruction */
    method FillResultFlags()
      requires Valid() && lflags.kind.Did?
      modifies this`flags
      ensures flags == old(flags).(af := FillAF(lflags, old(flags)), zf := old(Seen()).zf, sf := old(Seen()).sf, pf := old(Seen()).pf)
    {
      hide GetCF, GetOF, GetAF, FillAF;
      var w := lflags.kind.w;
      var r := Low(lflags.res, w);
      flags := flags.(af := FillAF(lflags, flags));
      flags := flags.(zf := r == 0);
      flags := flags.(sf := BitAt(r, Top(w)));
      flags := flags.(pf := ParityLookup(Low(lflags.res, Byte)));
    }

    /** FillFlagsNoCFOF: like FillFlags, but CF and OF keep what reg_flags held. */
    method FillFlagsNoCFOF()
      requires Valid()
      modifies this`lflags, this`flags
      ensures Valid() && lflags == old(lflags).(kind := T_UNKNOWN)
      ensures flags == old(FilledIn(lflags, flags)).(cf := old(flags).cf, of := old(flags).of)
    {
      if lflags.kind.T_UNKNOWN? {
        return;
      }
      hide GetCF, GetOF, GetAF, FillAF;
      FillAFSeen(lflags, flags);
      FillResultFlags();
      lflags := lflags.(kind := T_UNKNOWN);
    }

    // ---- the macros; `w` is the suffix B, W or D ----

    /** lf_var1 = load(op1); lf_var2 = op2 */
    method Operands(w: Width, a: nat, b: nat)
      requires a < Size(w) && b < Size(w)
      modifies this`lflags
      ensures Low(lflags.var1, w) == a && Low(lflags.var2, w) == b && lflags.oldcf == old(lflags).oldcf
    {
      lflags := lflags.(var1 := Put(lflags.var1, w, a), var2 := Put(lflags.var2, w, b));
    }

    /** lf_res = r; lflags.type = t_op */
    method Finish(w: Width, op: Op, r: nat)
      requires r < Size(w)
      modifies this`lflags
      ensures lflags == old(lflags).(res := lflags.res, kind := Did(op, w)) && Low(lflags.res, w) == r
    {
      lflags := lflags.(res := Put(lflags.res, w, r), kind := Did(op, w));
    }

    method ADD(w: Width, d: nat, s: nat)
      requires Valid() && d < 8 && s < Size(w)
      modifies this`lflags, this`regs
      ensures Valid() && lflags.kind == Did(T_ADD, w) && regs == old(WriteReg(regs, w, d, Low(ReadReg(regs, w, d) + s, w)))
      ensures Seen() == old(SumFlags(ReadReg(regs, w, d), s, false, w))
    {
      hide Pulled, SumFlags, DifferenceFlags, ResultFlags, Low, Size, Recorded, WriteReg, ReadReg;
      Operands(w, ReadReg(regs, w, d), s);
      var r := Low(Low(lflags.var1, w) + Low(lflags.var2, w), w);
      regs := WriteReg(regs, w, d, r);
      Finish(w, T_ADD, r);
      PulledSum(lflags, flags, false);
    }

    /** The carry is pulled before the operands are overwritten. */
    method ADC(w: Width, d: nat, s: nat)
      requires Valid() && d < 8 && s < Size(w)
      modifies this`lflags, this`regs
      ensures Valid() && lflags.kind == Did(T_ADC, w) && regs == old(WriteReg(regs, w, d, Low(ReadReg(regs, w, d) + s + One(Seen().cf), w)))
      ensures Seen() == old(SumFlags(ReadReg(regs, w, d), s, Seen().cf, w))
    {
      hide SumFlags, ResultFlags, Low, Size, Recorded, WriteReg, ReadReg, GetCF, GetAF, GetZF, GetSF, GetPF, GetOF;
      lflags := lflags.(oldcf := GetCF(lflags, flags));
      Operands(w, ReadReg(regs, w, d), s);
      var r := Low(Low(lflags.var1, w) + Low(lflags.var2, w) + One(lflags.oldcf), w);
      regs := WriteReg(regs, w, d, r);
      Finish(w, T_ADC, r);
      PulledSum(lflags, flags, lflags.oldcf);
    }

    method SBB(w: Width, d: nat, s: nat)
      requires Valid() && d < 8 && s < Size(w)
      modifies this`lflags, this`regs
      ensures Valid() && lflags.kind == Did(T_SBB, w) && regs == old(WriteReg(regs, w, d, Low(ReadReg(regs, w, d) - s - One(Seen().cf), w)))
      ensures Seen() == old(DifferenceFlags(ReadReg(regs, w, d), s, Seen().cf, w))
    {
      hide DifferenceFlags, ResultFlags, Low, Size, Recorded, WriteReg, ReadReg, GetCF, GetAF, GetZF, GetSF, GetPF, GetOF;
      lflags := lflags.(oldcf := GetCF(lflags, flags));
      Operands(w, ReadReg(regs, w, d), s);
      var r := Low(Low(lflags.var1, w) - (Low(lflags.var2, w) + One(lflags.oldcf)), w);
      regs := WriteReg(regs, w, d, r);
      Finish(w, T_SBB, r);
      PulledDifference(lflags, flags, lflags.oldcf);
    }

    method SUB(w: Width, d: nat, s: nat)
      requires Valid() && d < 8 && s < Size(w)
      modifies this`lflags, this`regs
      ensures Valid() && lflags.kind == Did(T_SUB, w) && regs == old(WriteReg(regs, w, d, Low(ReadReg(regs, w, d) - s, w)))
      ensures Seen() == old(DifferenceFlags(ReadReg(regs, w, d), s, false, w))
    {
      hide Pulled, SumFlags, DifferenceFlags, ResultFlags, Low, Size, Recorded, WriteReg, ReadReg;
      Operands(w, ReadReg(regs, w, d), s);
      var r := Low(Low(lflags.var1, w) - Low(lflags.var2, w), w);
      regs := WriteReg(regs, w, d, r);
      Finish(w, T_SUB, r);
      PulledDifference(lflags, flags, false);
    }

    method CMP(w: Width, d: nat, s: nat)
      requires Valid() && d < 8 && s < Size(w)
      modifies this`lflags
      ensures Valid() && lflags.kind == Did(T_CMP, w)
      ensures Seen() == old(DifferenceFlags(ReadReg(regs, w, d), s, false, w))
    {
      hide Pulled, SumFlags, DifferenceFlags, ResultFlags, Low, Size, Recorded, WriteReg, ReadReg;
      Operands(w, ReadReg(regs, w, d), s);
      var r := Low(Low(lflags.var1, w) - Low(lflags.var2, w), w);
      Finish(w, T_CMP, r);
      PulledDifference(lflags, flags, false);
    }

    method OR(w: Width, d: nat, s: nat)
      requires Valid() && d < 8 && s < Size(w)
      modifies this`lflags, this`regs
      ensures Valid() && lflags.kind == Did(T_OR, w) && regs == old(WriteReg(regs, w, d, Logic(BitOp.OR, ReadReg(regs, w, d), s, w)))
      ensures Seen() == old(ResultFlags(Logic(BitOp.OR, ReadReg(regs, w, d), s, w), w, false, false, false))
    {
      hide Pulled, ResultFlags, Low, Size, Recorded, WriteReg, ReadReg, Logic;
      Operands(w, ReadReg(regs, w, d), s);
      var r := Logic(BitOp.OR, Low(lflags.var1, w), Low(lflags.var2, w), w);
      regs := WriteReg(regs, w, d, r);
      Finish(w, T_OR, r);
      PulledLogic(lflags, flags);
    }

    method AND(w: Width, d: nat, s: nat)
      requires Valid() && d < 8 && s < Size(w)
      modifies this`lflags, this`regs
      ensures Valid() && lflags.kind == Did(T_AND, w) && regs == old(WriteReg(regs, w, d, Logic(BitOp.AND, ReadReg(regs, w, d), s, w)))
      ensures Seen() == old(ResultFlags(Logic(BitOp.AND, ReadReg(regs, w, d), s, w), w, false, false, false))
    {
      hide Pulled, ResultFlags, Low, Size, Recorded, WriteReg, ReadReg, Logic;
      Operands(w, ReadReg(regs, w, d), s);
      var r := Logic(BitOp.AND, Low(lflags.var1, w), Low(lflags.var2, w), w);
      regs := WriteReg(regs, w, d, r);
      Finish(w, T_AND, r);
      PulledLogic(lflags, flags);
    }

    method XOR(w: Width, d: nat, s: nat)
      requires Valid() && d < 8 && s < Size(w)
      modifies this`lflags, this`regs
      ensures Valid() && lflags.kind == Did(T_XOR, w) && regs == old(WriteReg(regs, w, d, Logic(BitOp.XOR, ReadReg(regs, w, d), s, w)))
      ensures Seen() == old(ResultFlags(Logic(BitOp.XOR, ReadReg(regs, w, d), s, w), w, false, false, false))
    {
      hide Pulled, ResultFlags, Low, Size, Recorded, WriteReg, ReadReg, Logic;
      Operands(w, ReadReg(regs, w, d), s);
      var r := Logic(BitOp.XOR, Low(lflags.var1, w), Low(lflags.var2, w), w);
      regs := WriteReg(regs, w, d, r);
      Finish(w, T_XOR, r);
      PulledLogic(lflags, flags);
    }

    method TEST(w: Width, d: nat, s: nat)
      requires Valid() && d < 8 && s < Size(w)
      modifies this`lflags
      ensures Valid() && lflags.kind == Did(T_TEST, w)
      ensures Seen() == old(ResultFlags(Logic(BitOp.AND, ReadReg(regs, w, d), s, w), w, false, false, false))
    {
      hide Pulled, ResultFlags, Low, Size, Recorded, WriteReg, ReadReg, Logic;
      Operands(w, ReadReg(regs, w, d), s);
      var r := Logic(BitOp.AND, Low(lflags.var1, w), Low(lflags.var2, w), w);
      Finish(w, T_TEST, r);
      PulledLogic(lflags, flags);
    }

    method INC(w: Width, d: nat)
      requires Valid() && d < 8
      modifies this`lflags, this`regs, this`flags
      ensures Valid() && lflags.kind == Did(T_INC, w) && regs == old(WriteReg(regs, w, d, Low(ReadReg(regs, w, d) + 1, w)))
      ensures Seen() == old(SumFlags(ReadReg(regs, w, d), 1, false, w).(cf := Seen().cf))
    {
      hide SumFlags, DifferenceFlags, ResultFlags, Low, Size, Recorded, WriteReg, ReadReg, GetCF, GetAF, GetZF, GetSF, GetPF, GetOF;
      flags := flags.(cf := GetCF(lflags, flags));
      lflags := lflags.(var1 := Put(lflags.var1, w, ReadReg(regs, w, d)));
      var r := Low(Low(lflags.var1, w) + 1, w);
      regs := WriteReg(regs, w, d, r);
      Finish(w, T_INC, r);
      PulledIncrement(lflags, flags);
    }

    method DEC(w: Width, d: nat)
      requires Valid() && d < 8
      modifies this`lflags, this`regs, this`flags
      ensures Valid() && lflags.kind == Did(T_DEC, w) && regs == old(WriteReg(regs, w, d, Low(ReadReg(regs, w, d) - 1, w)))
      ensures Seen() == old(DifferenceFlags(ReadReg(regs, w, d), 1, false, w).(cf := Seen().cf))
    {
      hide SumFlags, DifferenceFlags, ResultFlags, Low, Size, Recorded, WriteReg, ReadReg, GetCF, GetAF, GetZF, GetSF, GetPF, GetOF;
      flags := flags.(cf := GetCF(lflags, flags));
      lflags := lflags.(var1 := Put(lflags.var1, w, ReadReg(regs, w, d)));
      var r := Low(Low(lflags.var1, w) - 1, w);
      regs := WriteReg(regs, w, d, r);
      Finish(w, T_DEC, r);
      PulledDecrement(lflags, flags);
    }

    method NEG(w: Width, d: nat)
      requires Valid() && d < 8
      modifies this`lflags, this`regs
      ensures Valid() && lflags.kind == Did(T_NEG, w) && regs == old(WriteReg(regs, w, d, Low(0 - ReadReg(regs, w, d), w)))
      ensures Seen() == old(DifferenceFlags(0, ReadReg(regs, w, d), false, w))
    {
      hide SumFlags, DifferenceFlags, ResultFlags, Low, Size, WriteReg, ReadReg, GetCF, GetAF, GetZF, GetSF, GetPF, GetOF;
      lflags := lflags.(var1 := Put(lflags.var1, w, ReadReg(regs, w, d)));
      var r := Low(0 - Low(lflags.var1, w), w);
      regs := WriteReg(regs, w, d, r);
      Finish(w, T_NEG, r);
      PulledNegation(lflags, flags);
    }

    // ---- shifts and rotations; the callers have masked the count to 1..31 ----

    /** lf_var1 = load(op1); lf_var2b = k */
    method Counted(w: Width, a: nat, k: nat)
      requires a < Size(w) && k < 0x100
      modifies this`lflags
      ensures Low(lflags.var1, w) == a && Low(lflags.var2, Byte) == k && lflags.kind == old(lflags).kind
    {
      lflags := lflags.(var1 := Put(lflags.var1, w, a), var2 := Put(lflags.var2, Byte, k));
    }

    method SHL(w: Width, d: nat, k: nat)
      requires Valid() && d < 8 && 1 <= k <= 31
      modifies this`lflags, this`regs
      ensures Valid() && lflags.kind == Did(T_SHL, w) && regs == old(WriteReg(regs, w, d, Low(Shl(ReadReg(regs, w, d), k), w)))
      ensures Seen() == old(LeftFlags(ReadReg(regs, w, d), k, w))
    {
      hide Pulled, LeftFlags, Low, Size, WriteReg, ReadReg, Shl;
      Counted(w, ReadReg(regs, w, d), k);
      var r := Low(Shl(Low(lflags.var1, w), k), w);
      regs := WriteReg(regs, w, d, r);
      Finish(w, T_SHL, r);
      PulledLeft(lflags, flags);
    }

    /** The OF of a shift by one is the old sign bit, but get_OF misses an operand that is exactly the sign bit. */
    method SHR(w: Width, d: nat, k: nat)
      requires Valid() && d < 8 && 1 <= k <= 31
      modifies this`lflags, this`regs
      ensures Valid() && (ShiftedSignBit(lflags) <==> k == 1 && old(ReadReg(regs, w, d)) == Sign(w))
      ensures lflags.kind == Did(T_SHR, w) && regs == old(WriteReg(regs, w, d, Low(Shr(ReadReg(regs, w, d), k), w)))
      ensures Seen() == old(RightFlags(ReadReg(regs, w, d), Low(Shr(ReadReg(regs, w, d), k), w), k,
                                     k == 1 && ReadReg(regs, w, d) > Sign(w), w))
    {
      hide Pulled, RightFlags, Low, Size, WriteReg, ReadReg, Shr;
      Counted(w, ReadReg(regs, w, d), k);
      var r := Low(Shr(Low(lflags.var1, w), k), w);
      regs := WriteReg(regs, w, d, r);
      Finish(w, T_SHR, r);
      PulledRight(lflags, flags);
    }

    /** The count is cut to the width of a byte or a word. */
    method SAR(w: Width, d: nat, k: nat)
      requires Valid() && d < 8 && 1 <= k <= 31
      modifies this`lflags, this`regs
      ensures Valid() && lflags.kind == Did(T_SAR, w) && regs == old(WriteReg(regs, w, d, Low(Shr(Signed(ReadReg(regs, w, d), w), k), w)))
      ensures Seen() == old(RightFlags(Signed(ReadReg(regs, w, d), w), Low(Shr(Signed(ReadReg(regs, w, d), w), k), w), k, false, w))
    {
      hide Pulled, RightFlags, Low, Size, WriteReg, ReadReg, Shr, Shl, Or, Sign, Signed;
      var k' := if !w.Dword? && k > Bits(w) then Bits(w) else k;
      Counted(w, ReadReg(regs, w, d), k');
      var a := Low(lflags.var1, w);
      var r := if a >= Sign(w) then Low(Or(Shr(a, k'), Shl(Size(w) - 1, Bits(w) - k')), w) else Low(Shr(a, k'), w);
      ArithmeticShift(a, k, k', w);
      regs := WriteReg(regs, w, d, r);
      Finish(w, T_SAR, r);
      PulledRight(lflags, flags);
      SameRight(Signed(a, w), r, k, k', w);
    }

    method SetRotated(w: Width, d: nat, r: nat)
      requires |regs| == 8 && d < 8 && r < Size(w)
      modifies this`lflags, this`regs
      ensures lflags == old(lflags).(res := lflags.res) && Low(lflags.res, w) == r && regs == old(WriteReg(regs, w, d, r))
    {
      lflags := lflags.(res := Put(lflags.res, w, r));
      regs := WriteReg(regs, w, d, r);
    }

    method ROL(w: Width, d: nat, k: nat)
      requires Valid() && d < 8 && 1 <= k <= 31 && !DoubleShift(lflags)
      modifies this
      ensures Valid() && lflags.kind == T_UNKNOWN &&
              regs == old(WriteReg(regs, w, d, Rotated(Rotation.ROL, ReadReg(regs, w, d), Seen().cf, k, w)))
      ensures Seen() == old(RotationFlags(Rotation.ROL, ReadReg(regs, w, d), k, w, Seen()))
    {
      hide GetCF, GetAF, GetZF, GetSF, GetPF, GetOF, ShiftedSignBit, Low, Size, WriteReg, ReadReg, Shr, Shl, Or, Xor, And, RotateLeft,
        BitAt;
      FillFlagsNoCFOF();
      var a, k' := ReadReg(regs, w, d), RotateCount(k, w);
      RotateMasked(a, k, w);
      Counted(w, a, k');
      var r := Low(Or(Shl(a, k'), Shr(a, Bits(w) - k')), w);
      SetRotated(w, d, r);
      EndsDiffer(r, w, BitAt(r, 0));
      flags := flags.(cf := And(r, 1) != 0);
      flags := flags.(of := Xor(And(r, 1), Shr(r, Top(w))) != 0);
      NothingPending(lflags, flags);
    }

    method ROR(w: Width, d: nat, k: nat)
      requires Valid() && d < 8 && 1 <= k <= 31 && !DoubleShift(lflags)
      modifies this
      ensures Valid() && lflags.kind == T_UNKNOWN &&
              regs == old(WriteReg(regs, w, d, Rotated(Rotation.ROR, ReadReg(regs, w, d), Seen().cf, k, w)))
      ensures Seen() == old(RotationFlags(Rotation.ROR, ReadReg(regs, w, d), k, w, Seen()))
    {
      hide GetCF, GetAF, GetZF, GetSF, GetPF, GetOF, ShiftedSignBit, Low, Size, WriteReg, ReadReg, Shr, Shl, Or, Xor, And, RotateLeft,
        RotateRight, BitAt, CarryTurned, RclValue, RcrValue;
      FillFlagsNoCFOF();
      var a, k' := ReadReg(regs, w, d), RotateCount(k, w);
      RotateMasked(a, k, w);
      Counted(w, a, k');
      var r := Low(Or(Shr(a, k'), Shl(a, Bits(w) - k')), w);
      SetRotated(w, d, r);
      BitsDiffer(r, w);
      flags := flags.(cf := BitAt(r, Top(w)));
      flags := flags.(of := BitAt(Xor(r, Shl(r, 1)), Top(w)));
      NothingPending(lflags, flags);
    }

    /** The rotation through the carry to the left, with all flags in reg_flags. */
    method RCLStep(w: Width, d: nat, k: nat, k': nat)
      requires |regs| == 8 && d < 8 && k' == CarryTurns(k, w) && 1 <= k' <= Bits(w) <= 32
      modifies this
      ensures lflags.kind == old(lflags).kind &&
              regs == old(WriteReg(regs, w, d, Rotated(Rotation.RCL, ReadReg(regs, w, d), flags.cf, k, w)))
      ensures flags == old(RotationFlags(Rotation.RCL, ReadReg(regs, w, d), k, w, flags))
    {
      hide Low, Size, WriteReg, ReadReg, Shr, Shl, Or, Xor, And, BitAt, Rotated, CarryTurns, Bits, Put, RotationFlags, RclResult;
      var a := ReadReg(regs, w, d);
      RclResultTurns(a, k, k', w, flags);
      Counted(w, a, k');
      var r := RclResult(a, flags.cf, k', w);
      SetRotated(w, d, r);
      flags := flags.(cf := BitAt(Shr(a, Bits(w) - k'), 0));
      flags := flags.(of := Xor(One(flags.cf), Shr(r, Top(w))) != 0);
    }

    /** A byte or word is rotated through the carry by the count modulo 9 or 17; whole turns do nothing, not even to the
        pending flags. */
    method RCL(w: Width, d: nat, k: nat)
      requires Valid() && d < 8 && 1 <= k <= 31 && !DoubleShift(lflags)
      modifies this
      ensures Valid() && (if CarryTurns(k, w) == 0 then lflags == old(lflags) else lflags.kind == T_UNKNOWN)
      ensures regs == (if CarryTurns(k, w) == 0 then old(regs)
                                  else old(WriteReg(regs, w, d, Rotated(Rotation.RCL, ReadReg(regs, w, d), Seen().cf, k, w))))
      ensures Seen() == old(RotationFlags(Rotation.RCL, ReadReg(regs, w, d), k, w, Seen()))
    {
      hide FilledIn, ShiftedSignBit, Size, WriteReg, ReadReg, Rotated, RotationFlags, CarryTurns, GetCF, GetAF, GetZF, GetSF, GetPF, GetOF;
      var k' := if w.Dword? then k else CarryTurns(k, w);
      CarryCount(k, w);
      if k' == 0 {
        WholeTurns(Rotation.RCL, ReadReg(regs, w, d), k, w, Seen());
        return;
      }
      ghost var f := Seen();
      FillAgrees(lflags, flags);
      OverflowReplaced(Rotation.RCL, ReadReg(regs, w, d), k, w, f, FilledIn(lflags, flags));
      FillFlags();
      RCLStep(w, d, k, k');
      NothingPending(lflags, flags);
    }

    /** The rotation through the carry to the right, with all flags in reg_flags. */
    method RCRStep(w: Width, d: nat, k: nat, k': nat)
      requires |regs| == 8 && d < 8 && k' == CarryTurns(k, w) && 1 <= k' <= Bits(w) <= 32
      modifies this
      ensures lflags.kind == old(lflags).kind &&
              regs == old(WriteReg(regs, w, d, Rotated(Rotation.RCR, ReadReg(regs, w, d), flags.cf, k, w)))
      ensures flags == old(RotationFlags(Rotation.RCR, ReadReg(regs, w, d), k, w, flags))
    {
      hide Low, Size, WriteReg, ReadReg, Shr, Shl, Or, Xor, And, BitAt, Rotated, CarryTurns, Bits, Put, RotationFlags, RcrResult;
      var a := ReadReg(regs, w, d);
      RcrResultTurns(a, k, k', w, flags);
      Counted(w, a, k');
      var r := RcrResult(a, flags.cf, k', w);
      SetRotated(w, d, r);
      flags := flags.(cf := BitAt(Shr(a, k' - 1), 0));
      flags := flags.(of := BitAt(Xor(r, Shl(r, 1)), Top(w)));
    }

    method RCR(w: Width, d: nat, k: nat)
      requires Valid() && d < 8 && 1 <= k <= 31 && !DoubleShift(lflags)
      modifies this
      ensures Valid() && (if CarryTurns(k, w) == 0 then lflags == old(lflags) else lflags.kind == T_UNKNOWN)
      ensures regs == (if CarryTurns(k, w) == 0 then old(regs)
                                  else old(WriteReg(regs, w, d, Rotated(Rotation.RCR, ReadReg(regs, w, d), Seen().cf, k, w))))
      ensures Seen() == old(RotationFlags(Rotation.RCR, ReadReg(regs, w, d), k, w, Seen()))
    {
      hide FilledIn, ShiftedSignBit, Size, WriteReg, ReadReg, Rotated, RotationFlags, CarryTurns, GetCF, GetAF, GetZF, GetSF, GetPF, GetOF;
      var k' := if w.Dword? then k else CarryTurns(k, w);
      CarryCount(k, w);
      if k' == 0 {
        WholeTurns(Rotation.RCR, ReadReg(regs, w, d), k, w, Seen());
        return;
      }
      ghost var f := Seen();
      FillAgrees(lflags, flags);
      OverflowReplaced(Rotation.RCR, ReadReg(regs, w, d), k, w, f, FilledIn(lflags, flags));
      FillFlags();
      RCRStep(w, d, k, k');
      NothingPending(lflags, flags);
    }
  }

  /** The count that ROLB/RORB and ROLW/RORW mask once more. */
  function RotateCount(k: nat, w: Width): nat { match w case Byte => And(k, 0x07) case Word => And(k, 0xF) case Dword => k }

  lemma RotateMasked(a: nat, k: nat, w: Width)
    requires a < Size(w) && k <= 31
    ensures var k' := RotateCount(k, w);
            && k' < Bits(w) && k' < 0x100
            && Low(Or(Shl(a, k'), Shr(a, Bits(w) - k')), w) == RotateLeft(a, k, w)
            && Low(Or(Shr(a, k'), Shl(a, Bits(w) - k')), w) == RotateRight(a, k, w)
  {
    hide Low, Or, Shr, Shl, Turned, TurnedBack, BitAt, Pow2, Bitwise;
    var k' := RotateCount(k, w);
    CountModulo(k, w);
    RolTurns(a, k', w);
    RorTurns(a, k', w);
    TurnedModulo(BitsOf(a, Bits(w)), k);
  }

  lemma CountModulo(k: nat, w: Width)
    requires k <= 31
    ensures RotateCount(k, w) == k % Bits(w)
  {
    MaskLow(k);
    MaskBits(k, 3);
  }

  lemma ArithmeticShift(a: nat, k: nat, k': nat, w: Width)
    requires a < Size(w) && 1 <= k <= 31 && k' == if !w.Dword? && k > Bits(w) then Bits(w) else k
    ensures Low(Shr(Signed(a, w), k), w) == if a >= Sign(w) then Low(Or(Shr(a, k'), Shl(Size(w) - 1, Bits(w) - k')), w) else Low(Shr(a, k'), w)
    ensures BitAt(Signed(a, w), k - 1) == BitAt(Signed(a, w), k' - 1)
  {
    hide Low, Or, Shr, Shl, BitAt, Pow2;
    WidthPowers(w);
    if a >= Sign(w) {
      SarFills(a, k', w);
    }
    if k != k' {
      ShrSign(Signed(a, w), Top(w), k);
      ShrSign(Signed(a, w), Top(w), k');
      ShrSign(Signed(a, w), Top(w), k - 1);
      ShrSign(Signed(a, w), Top(w), k' - 1);
    }
  }

  lemma SameRight(x: int, r: nat, k: nat, k': nat, w: Width)
    requires r < Size(w) && k > 0 && k' > 0 && BitAt(x, k - 1) == BitAt(x, k' - 1)
    ensures RightFlags(x, r, k, false, w) == RightFlags(x, r, k', false, w)
  {
  }

  /** `(r ^ (r << 1))` shows at the top whether the two highest bits differ. */
  lemma BitsDiffer(r: nat, w: Width)
    ensures BitAt(Xor(r, Shl(r, 1)), Top(w)) <==> BitAt(r, Bits(w) - 1) != BitAt(r, Bits(w) - 2)
  {
    hide BitAt, Bitwise, Shl;
    BitwiseBit(XOR, r, Shl(r, 1), Top(w));
    ShlBit(r, 1, Top(w));
  }

  lemma CarryCount(k: nat, w: Width)
    requires 1 <= k <= 31
    ensures var k' := if w.Dword? then k else CarryTurns(k, w);
            k' == CarryTurns(k, w) && k' <= Bits(w)
  {
  }

  lemma CarryRotation(a: nat, cf: bool, k: nat, k': nat, w: Width)
    requires a < Size(w) && k' == CarryTurns(k, w) && k' > 0
    ensures Low(RclValue(a, cf, k', Bits(w)), w) == Rotated(Rotation.RCL, a, cf, k, w)
    ensures BitAt(a, Bits(w) - k') == CarryTurned(Rotation.RCL, a, cf, k, w)[Bits(w)]
    ensures Low(RcrValue(a, cf, k', Bits(w)), w) == Rotated(Rotation.RCR, a, cf, k, w)
    ensures BitAt(a, k' - 1) == CarryTurned(Rotation.RCR, a, cf, k, w)[Bits(w)]
    ensures w.Dword? && k' == 1 ==> Low(Or(Shl(a, 1), One(cf)), w) == Rotated(Rotation.RCL, a, cf, k, w)
    ensures w.Dword? && k' == 1 ==> Low(Or(Shr(a, 1), Shl(One(cf), 31)), w) == Rotated(Rotation.RCR, a, cf, k, w)
  {
    hide BitAt, Low, Size, Turned, TurnedBack, RclValue, RcrValue, Pack, CarryRing;
    TurnedModulo(CarryRing(a, cf, w), k);
    RclTurns(a, cf, k', w);
    RcrTurns(a, cf, k', w);
    if w.Dword? && k' == 1 {
      OneStep(a, cf);
    }
  }

  /** RCLD and RCRD by one leave out the shift by 32 places. */
  lemma OneStep(a: nat, cf: bool)
    requires a < Size(Dword)
    ensures Low(Or(Shl(a, 1), One(cf)), Dword) == Low(RclValue(a, cf, 1, 32), Dword)
    ensures Low(Or(Shr(a, 1), Shl(One(cf), 31)), Dword) == Low(RcrValue(a, cf, 1, 32), Dword)
  {
    hide Low, Bitwise, Pow2, Or, Shr;
    WidthPowers(Dword);
    ShrAll(a, 32);
    OrZero(Or(Shl(a, 1), One(cf)));
    assert Shl(One(cf), 0) == One(cf);
    HighOr(Or(Shr(a, 1), Shl(One(cf), 31)), a, Dword);
  }

  /** What was shifted out of the width does not matter. */
  lemma HighOr(x: nat, a: nat, w: Width)
    ensures Low(Or(x, Shl(a, Bits(w))), w) == Low(x, w)
  {
    hide BitAt, Bitwise, Pow2, Shl, Trunc;
    var n := Bits(w);
    var y := Or(x, Shl(a, n));
    LowIsTrunc(y, w);
    LowIsTrunc(x, w);
    hide Low, Bits;
    forall i: nat | i < n ensures BitAt(Trunc(y, n), i) == BitAt(Trunc(x, n), i) {
      TruncBit(y, n, i);
      TruncBit(x, n, i);
      BitwiseBit(OR, x, Shl(a, n), i);
      ShlBit(a, n, i);
    }
    SameBits(Trunc(y, n), Trunc(x, n), n);
  }

  /** A rotation that turns something replaces OF, whatever it was. */
  lemma OverflowReplaced(rot: Rotation, a: nat, k: nat, w: Width, f: Status, f': Status)
    requires a < Size(w) && f' == f.(of := f'.of) && ((rot.RCL? || rot.RCR?) ==> CarryTurns(k, w) != 0)
    ensures RotationFlags(rot, a, k, w, f') == RotationFlags(rot, a, k, w, f)
    ensures Rotated(rot, a, f'.cf, k, w) == Rotated(rot, a, f.cf, k, w)
  {
    hide BitAt, Rotated, CarryTurned;
  }

  lemma WholeTurns(rot: Rotation, a: nat, k: nat, w: Width, f: Status)
    requires a < Size(w) && (rot.RCL? || rot.RCR?) && CarryTurns(k, w) == 0
    ensures RotationFlags(rot, a, k, w, f) == f
  {
  }

  function RclResult(a: nat, cf: bool, k: nat, w: Width): (r: nat)
    requires 1 <= k <= Bits(w)
    ensures r < Size(w)
  { if w.Dword? && k == 1 then Low(Or(Shl(a, 1), One(cf)), w) else Low(RclValue(a, cf, k, Bits(w)), w) }

  lemma RclResultTurns(a: nat, k: nat, k': nat, w: Width, f: Status)
    requires a < Size(w) && k' == CarryTurns(k, w) && 1 <= k' <= Bits(w)
    ensures var r, cf' := RclResult(a, f.cf, k', w), BitAt(Shr(a, Bits(w) - k'), 0);
            && r == Rotated(Rotation.RCL, a, f.cf, k, w)
            && RotationFlags(Rotation.RCL, a, k, w, f) == f.(cf := cf', of := Xor(One(cf'), Shr(r, Top(w))) != 0)
  {
    hide Low, Size, Shr, Shl, Or, Xor, And, BitAt, RclValue, RcrValue, CarryTurns, CarryTurned, Bits, Rotated, Pow2, Sign;
    var r, cf' := RclResult(a, f.cf, k', w), BitAt(Shr(a, Bits(w) - k'), 0);
    CarryRotation(a, f.cf, k, k', w);
    ShrBit(a, Bits(w) - k', 0);
    EndsDiffer(r, w, cf');
  }

  function RcrResult(a: nat, cf: bool, k: nat, w: Width): (r: nat)
    requires 1 <= k <= Bits(w)
    ensures r < Size(w)
  { if w.Dword? && k == 1 then Low(Or(Shr(a, 1), Shl(One(cf), 31)), w) else Low(RcrValue(a, cf, k, Bits(w)), w) }

  lemma RcrResultTurns(a: nat, k: nat, k': nat, w: Width, f: Status)
    requires a < Size(w) && k' == CarryTurns(k, w) && 1 <= k' <= Bits(w)
    ensures var r, cf' := RcrResult(a, f.cf, k', w), BitAt(Shr(a, k' - 1), 0);
            && r == Rotated(Rotation.RCR, a, f.cf, k, w)
            && RotationFlags(Rotation.RCR, a, k, w, f) == f.(cf := cf', of := BitAt(Xor(r, Shl(r, 1)), Top(w)))
  {
    hide Low, Size, Shr, Shl, Or, Xor, And, BitAt, RclValue, RcrValue, CarryTurns, CarryTurned, Bits, Rotated, Pow2, Sign;
    var r, cf' := RcrResult(a, f.cf, k', w), BitAt(Shr(a, k' - 1), 0);
    CarryRotation(a, f.cf, k, k', w);
    ShrBit(a, k' - 1, 0);
    BitsDiffer(r, w);
  }
}
