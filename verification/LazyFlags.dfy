/**
 The lazy flags (src/cpu/flags.cpp, src/cpu/lazyflags.h): operands and result of the
 last instruction are recorded, and each flag is derived when somebody asks for it.
 In the formulas `e & 1`, `e & 0x10` and `e & Sign` are the bits 0, 4 and the top bit of `e`.
 */
module LazyFlags {
  import opened BitArithmetic
  import opened StatusFlags
  import opened FlagArithmetic

  datatype Op =
    | T_ADD | T_OR | T_ADC | T_SBB | T_AND | T_SUB | T_XOR | T_CMP | T_INC | T_DEC | T_TEST
    | T_SHL | T_SHR | T_SAR | T_NEG | T_DSHL | T_DSHR

  datatype Kind = T_UNKNOWN | Did(op: Op, w: Width)

  /** lflags.  var1, var2 and res are dwords whose low byte or low word is written by the narrower instructions. */
  datatype Lazy = Lazy(var1: nat, var2: nat, res: nat, kind: Kind, oldcf: bool)

  predicate IsShift(op: Op) { op.T_SHL? || op.T_SHR? || op.T_SAR? || op.T_DSHL? || op.T_DSHR? }

  /** What the instruction macros leave behind: shift counts are 1..31, double shifts are not on bytes, and NEG
      recorded the negation of its operand. */
  predicate Recorded(l: Lazy) {
    match l.kind
    case T_UNKNOWN => true
    case Did(op, w) =>
      && (IsShift(op) ==> 1 <= Low(l.var2, Byte) <= 31)
      && (op.T_DSHL? || op.T_DSHR? ==> !w.Byte?)
      && (op.T_NEG? ==> Low(l.res, w) == Low(0 - Low(l.var1, w), w))
  }

  function Top(w: Width): nat { Bits(w) - 1 }

  /** parity_lookup has 16 rows of 16 entries; each row is one of two, and ROWS says which. */
  const ROW_E: seq<bool> := [true, false, false, true, false, true, true, false, false, true, true, false, true, false, false, true]
  const ROW_O: seq<bool> := [false, true, true, false, true, false, false, true, true, false, false, true, false, true, true, false]
  const ROWS: seq<bool> := [true, false, false, true, false, true, true, false, false, true, true, false, true, false, false, true]

  predicate ParityLookup(x: nat)
    requires x < 256
  { if ROWS[x / 16] then ROW_E[x % 16] else ROW_O[x % 16] }

  predicate GetCF(l: Lazy, f: Status)
    requires Recorded(l)
  {
    match l.kind
    case T_UNKNOWN => f.cf
    case Did(op, w) =>
      var a, b, r, k := Low(l.var1, w), Low(l.var2, w), Low(l.res, w), Low(l.var2, Byte);
      match op
      case T_INC => f.cf
      case T_DEC => f.cf
      case T_ADD => r < a
      case T_ADC => r < a || (l.oldcf && r == a)
      case T_SBB => a < r || (l.oldcf && b == Size(w) - 1)
      case T_SUB => a < b
      case T_CMP => a < b
      case T_SHL => if w.Dword? then BitAt(Shr(a, 32 - k), 0) else if k > Bits(w) then false else BitAt(Shr(a, Bits(w) - k), 0)
      case T_DSHL => BitAt(Shr(Low(l.var1, Dword), 32 - k), 0)
      case T_SHR => BitAt(Shr(a, k - 1), 0)
      case T_DSHR => BitAt(Shr(Low(l.var1, Dword), k - 1), 0)
      case T_SAR => BitAt(Shr(Signed(a, w), k - 1), 0)
      case T_NEG => a != 0
      case T_OR => false
      case T_AND => false
      case T_XOR => false
      case T_TEST => false
  }

  predicate GetAF(l: Lazy, f: Status) {
    match l.kind
    case T_UNKNOWN => f.af
    case Did(op, w) =>
      var a, b, r := Low(l.var1, w), Low(l.var2, w), Low(l.res, w);
      if op.T_ADD? || op.T_ADC? || op.T_SBB? || op.T_SUB? || op.T_CMP? then BitAt(Xor(Xor(a, b), r), 4)
      else if op.T_INC? then And(r, 0xF) == 0
      else if op.T_DEC? then And(r, 0xF) == 0xF
      else if op.T_NEG? then And(a, 0xF) != 0
      else if op.T_SHL? || op.T_SHR? || op.T_SAR? then And(b, 0x1F) != 0
      else false
  }

  predicate GetZF(l: Lazy, f: Status) {
    match l.kind case T_UNKNOWN => f.zf case Did(op, w) => Low(l.res, w) == 0
  }

  predicate GetSF(l: Lazy, f: Status) {
    match l.kind case T_UNKNOWN => f.sf case Did(op, w) => BitAt(Low(l.res, w), Top(w))
  }

  predicate GetPF(l: Lazy, f: Status) {
    match l.kind case T_UNKNOWN => f.pf case Did(op, w) => ParityLookup(Low(l.res, Byte))
  }

  predicate GetOF(l: Lazy, f: Status) {
    match l.kind
    case T_UNKNOWN => f.of
    case Did(op, w) =>
      var a, b, r, k := Low(l.var1, w), Low(l.var2, w), Low(l.res, w), Low(l.var2, Byte);
      match op
      case T_ADD => BitAt(And(Xor(Xor(a, b), Sign(w)), Xor(r, b)), Top(w))
      case T_ADC => BitAt(And(Xor(Xor(a, b), Sign(w)), Xor(r, b)), Top(w))
      case T_SBB => BitAt(And(Xor(a, b), Xor(a, r)), Top(w))
      case T_SUB => BitAt(And(Xor(a, b), Xor(a, r)), Top(w))
      case T_CMP => BitAt(And(Xor(a, b), Xor(a, r)), Top(w))
      case T_INC => r == Sign(w)
      case T_DEC => r == Sign(w) - 1
      case T_NEG => a == Sign(w)
      case T_SHL => BitAt(Xor(r, a), Top(w))
      case T_DSHL => BitAt(Xor(r, a), Top(w))
      case T_DSHR => BitAt(Xor(r, a), Top(w))
      case T_SHR => if And(k, 0x1F) == 1 then a > Sign(w) else false
      case T_SAR => false
      case T_OR => false
      case T_AND => false
      case T_XOR => false
      case T_TEST => false
  }

  /** What the condition readers see. */
  function Pulled(l: Lazy, f: Status): Status
    requires Recorded(l)
  {
    Status(GetCF(l, f), GetPF(l, f), GetAF(l, f), GetZF(l, f), GetSF(l, f), GetOF(l, f))
  }

  /** Where reading OF gives another answer than filling it in. */
  predicate ShiftedSignBit(l: Lazy) {
    l.kind.Did? && l.kind.op.T_SHR? && Low(l.var2, Byte) == 1 && Low(l.var1, l.kind.w) == Sign(l.kind.w)
  }

  predicate DoubleShift(l: Lazy) { l.kind.Did? && (l.kind.op.T_DSHL? || l.kind.op.T_DSHR?) }

  // ---- bits of the operands ----

  lemma TopIsSign(x: nat, w: Width)
    requires x < Size(w)
    ensures BitAt(x, Top(w)) <==> x >= Sign(w)
  {
    WidthPowers(w);
    TopBit(x, Top(w));
  }

  lemma BitFour(x: nat)
    ensures BitAt(x, 4) <==> x % 32 >= 16
  {
  }

  lemma MaskLow(x: nat)
    ensures And(x, 0xF) == x % 16 && And(x, 0x1F) == x % 32
  {
    MaskBits(x, 4);
    MaskBits(x, 5);
  }

  lemma {:induction false} MaskBits(x: nat, n: nat)
    ensures And(x, Pow2(n) - 1) == x % Pow2(n)
  {
    if n == 0 {
      AndZero(x);
    } else {
      MaskBits(x / 2, n - 1);
      MaskStep(x, Pow2(n - 1));
    }
  }

  lemma MaskStep(x: nat, p: nat)
    requires p > 0 && And(x / 2, p - 1) == x / 2 % p
    ensures And(x, 2 * p - 1) == x % (2 * p)
  {
    ModHalf(x, p);
    var m := x % (2 * p);
    var h := x / 2 % p;
    assert (2 * p - 1) % 2 == 1 && (2 * p - 1) / 2 == p - 1;
  }

  lemma XorBits(a: nat, b: nat, r: nat, i: nat)
    ensures BitAt(Xor(Xor(a, b), r), i) == ((BitAt(a, i) != BitAt(b, i)) != BitAt(r, i))
  {
    BitwiseBit(XOR, Xor(a, b), r, i);
    BitwiseBit(XOR, a, b, i);
  }

  lemma AndXorBits(a: nat, b: nat, c: nat, d: nat, i: nat)
    ensures BitAt(And(Xor(a, b), Xor(c, d)), i) == ((BitAt(a, i) != BitAt(b, i)) && (BitAt(c, i) != BitAt(d, i)))
  {
    BitwiseBit(AND, Xor(a, b), Xor(c, d), i);
    BitwiseBit(XOR, a, b, i);
    BitwiseBit(XOR, c, d, i);
  }

  /** parity_lookup is the parity. */
  lemma ParityTable(x: nat)
    requires x < 256
    ensures ParityLookup(x) <==> EvenParity(x)
  {
    hide Ones, Shr;
    var h, l := x / 16, x % 16;
    ParityRow(l);
    ParityRow(h);
    OnesPlus(x, 4, 4);
    ShrFour(x);
    OnesIgnore(l, h, 4);
  }

  function Ones4(x: nat): nat { x % 2 + x / 2 % 2 + x / 2 / 2 % 2 + x / 2 / 2 / 2 % 2 }

  lemma OnesFour(x: nat)
    ensures Ones(x, 4) == Ones4(x)
  {
    var c := x / 2 / 2 / 2;
    assert Ones(c, 1) == c % 2 + Ones(c / 2, 0);
    assert Ones(x / 2 / 2, 2) == x / 2 / 2 % 2 + Ones(c, 1);
    assert Ones(x / 2, 3) == x / 2 % 2 + Ones(x / 2 / 2, 2);
  }

  lemma ParityRow(x: nat)
    requires x < 16
    ensures (Ones(x, 4) % 2 == 0) == ROW_E[x] == ROWS[x] && ROW_O[x] != ROW_E[x]
  {
    hide Ones, Ones4;
    OnesFour(x);
    NibbleParity(x);
  }

  lemma NibbleParity(x: nat)
    requires x < 16
    ensures (Ones4(x) % 2 == 0) == ROW_E[x]
  {
    if x < 8 {
      LowNibbleParity(x);
    } else {
      match x
      case 8 => case 9 => case 10 => case 11 => case 12 => case 13 => case 14 => case 15 =>
    }
  }

  lemma LowNibbleParity(x: nat)
    requires x < 8
    ensures (Ones4(x) % 2 == 0) == ROW_E[x]
  {
    match x
    case 0 => case 1 => case 2 => case 3 => case 4 => case 5 => case 6 => case 7 =>
  }

  lemma ShrFour(x: nat)
    ensures Shr(x, 4) == x / 16
  {
    assert Shr(x, 4) == Shr(x / 2, 3) == Shr(x / 2 / 2, 2) == x / 2 / 2 / 2 / 2;
  }

  lemma {:induction false} OnesPlus(x: nat, m: nat, n: nat)
    ensures Ones(x, m + n) == Ones(x, m) + Ones(Shr(x, m), n)
    decreases m
  {
    if m > 0 {
      OnesPlus(x / 2, m - 1, n);
    }
  }

  lemma {:induction false} OnesIgnore(l: nat, h: nat, n: nat)
    ensures Ones(l + Pow2(n) * h, n) == Ones(l, n)
    decreases n
  {
    if n > 0 {
      OnesIgnore(l / 2, h, n - 1);
      TwiceTimes(Pow2(n - 1), h);
      HalfPlus(l, Pow2(n - 1) * h);
    }
  }

  // ---- the flags of each kind of result ----

  lemma LowByteOf(x: nat, w: Width)
    ensures Low(Low(x, w), Byte) == Low(x, Byte)
  {
    match w
    case Byte =>
    case Word => DivUnique(x, 256, 0x100 * (x / 0x1_0000) + x % 0x1_0000 / 256, x % 0x1_0000 % 256);
    case Dword => DivUnique(x, 256, 0x100_0000 * (x / 0x1_0000_0000) + x % 0x1_0000_0000 / 256, x % 0x1_0000_0000 % 256);
  }

  /** ZF, SF and PF of whatever was recorded. */
  lemma ResultPart(l: Lazy, f: Status)
    requires Recorded(l) && l.kind.Did?
    ensures var w := l.kind.w;
            Pulled(l, f) == ResultFlags(Low(l.res, w), w, GetCF(l, f), GetAF(l, f), GetOF(l, f))
  {
    hide GetCF, GetAF, GetOF, ParityLookup, EvenParity, BitAt;
    var w := l.kind.w;
    var r := Low(l.res, w);
    LowByteOf(l.res, w);
    ParityTable(Low(l.res, Byte));
    SameParity(r);
    TopIsSign(r, w);
  }

  lemma SameParity(r: nat)
    ensures EvenParity(r % 256) <==> EvenParity(r)
  {
  }

  /** The carry out of the low four bits shows in bit 4. */
  lemma SumNibble(a: nat, b: nat, c: bool, w: Width)
    requires a < Size(w) && b < Size(w)
    ensures var r := Low(a + b + One(c), w);
            BitAt(Xor(Xor(a, b), r), 4) <==> a % 16 + b % 16 + One(c) >= 16
  {
    var r := Low(a + b + One(c), w);
    LowMod(a + b + One(c), w);
    hide Bitwise, BitAt, Low, Size;
    XorBits(a, b, r, 4);
    BitFour(a);
    BitFour(b);
    BitFour(r);
    NibbleCarry(a, b, c, r);
  }

  lemma DifferenceNibble(a: nat, b: nat, c: bool, w: Width)
    requires a < Size(w) && b < Size(w)
    ensures var r := Low(a - b - One(c), w);
            BitAt(Xor(Xor(a, b), r), 4) <==> a % 16 < b % 16 + One(c)
  {
    var r := Low(a - b - One(c), w);
    LowMod(a - b - One(c), w);
    hide Bitwise, BitAt, Low, Size;
    XorBits(a, b, r, 4);
    BitFour(a);
    BitFour(b);
    BitFour(r);
    NibbleBorrow(a, b, c, r);
  }

  lemma SumTop(a: nat, b: nat, c: bool, w: Width)
    requires a < Size(w) && b < Size(w)
    ensures var r := Low(a + b + One(c), w);
            BitAt(And(Xor(Xor(a, b), Sign(w)), Xor(r, b)), Top(w)) <==> !InRange(Signed(a, w) + Signed(b, w) + One(c), w)
  {
    var r := Low(a + b + One(c), w);
    SumOverflow(a, b, c, w);
    TopIsSign(a, w);
    TopIsSign(b, w);
    TopIsSign(r, w);
    TopIsSign(Sign(w), w);
    hide Bitwise, BitAt, Low, InRange;
    AndXorBits(Xor(a, b), Sign(w), r, b, Top(w));
    BitwiseBit(XOR, a, b, Top(w));
  }

  lemma DifferenceTop(a: nat, b: nat, c: bool, w: Width)
    requires a < Size(w) && b < Size(w)
    ensures var r := Low(a - b - One(c), w);
            BitAt(And(Xor(a, b), Xor(a, r)), Top(w)) <==> !InRange(Signed(a, w) - Signed(b, w) - One(c), w)
  {
    var r := Low(a - b - One(c), w);
    DifferenceOverflow(a, b, c, w);
    TopIsSign(a, w);
    TopIsSign(b, w);
    TopIsSign(r, w);
    hide Bitwise, BitAt, Low, InRange;
    AndXorBits(a, b, a, r, Top(w));
  }

  predicate IsSum(l: Lazy, c: bool) {
    l.kind.Did? && ((l.kind.op.T_ADD? && !c) || (l.kind.op.T_ADC? && c == l.oldcf)) &&
    Low(l.res, l.kind.w) == Low(Low(l.var1, l.kind.w) + Low(l.var2, l.kind.w) + One(c), l.kind.w)
  }

  lemma SumCarries(l: Lazy, f: Status, c: bool)
    requires IsSum(l, c)
    ensures Recorded(l)
    ensures var w := l.kind.w;
            var a, b := Low(l.var1, w), Low(l.var2, w);
            && (GetCF(l, f) <==> a + b + One(c) >= Size(w))
            && (GetAF(l, f) <==> a % 16 + b % 16 + One(c) >= 16)
  {
    var w := l.kind.w;
    hide Bitwise, BitAt, Low;
    CarryOut(Low(l.var1, w), Low(l.var2, w), c, w);
    SumNibble(Low(l.var1, w), Low(l.var2, w), c, w);
  }

  lemma SumOverflows(l: Lazy, f: Status, c: bool)
    requires IsSum(l, c)
    ensures var w := l.kind.w;
            GetOF(l, f) <==> !InRange(Signed(Low(l.var1, w), w) + Signed(Low(l.var2, w), w) + One(c), w)
  {
    var w := l.kind.w;
    hide Bitwise, BitAt, Low, InRange, Signed;
    SumTop(Low(l.var1, w), Low(l.var2, w), c, w);
  }

  lemma PulledSum(l: Lazy, f: Status, c: bool)
    requires IsSum(l, c)
    ensures Recorded(l) && Pulled(l, f) == SumFlags(Low(l.var1, l.kind.w), Low(l.var2, l.kind.w), c, l.kind.w)
  {
    hide Bitwise, BitAt, InRange, GetCF, GetAF, GetOF;
    ResultPart(l, f);
    SumCarries(l, f, c);
    SumOverflows(l, f, c);
    hide Pulled, ResultFlags;
  }

  predicate IsDifference(l: Lazy, c: bool) {
    l.kind.Did? && (((l.kind.op.T_SUB? || l.kind.op.T_CMP?) && !c) || (l.kind.op.T_SBB? && c == l.oldcf)) &&
    Low(l.res, l.kind.w) == Low(Low(l.var1, l.kind.w) - Low(l.var2, l.kind.w) - One(c), l.kind.w)
  }

  lemma DifferenceCarries(l: Lazy, f: Status, c: bool)
    requires IsDifference(l, c)
    ensures Recorded(l)
    ensures var w := l.kind.w;
            var a, b := Low(l.var1, w), Low(l.var2, w);
            && (GetCF(l, f) <==> a < b + One(c))
            && (GetAF(l, f) <==> a % 16 < b % 16 + One(c))
  {
    var w := l.kind.w;
    hide Bitwise, BitAt, Low;
    BorrowOut(Low(l.var1, w), Low(l.var2, w), c, w);
    DifferenceNibble(Low(l.var1, w), Low(l.var2, w), c, w);
  }

  lemma DifferenceOverflows(l: Lazy, f: Status, c: bool)
    requires IsDifference(l, c)
    ensures var w := l.kind.w;
            GetOF(l, f) <==> !InRange(Signed(Low(l.var1, w), w) - Signed(Low(l.var2, w), w) - One(c), w)
  {
    var w := l.kind.w;
    hide Bitwise, BitAt, Low, InRange, Signed;
    DifferenceTop(Low(l.var1, w), Low(l.var2, w), c, w);
  }

  lemma PulledDifference(l: Lazy, f: Status, c: bool)
    requires IsDifference(l, c)
    ensures Recorded(l) && Pulled(l, f) == DifferenceFlags(Low(l.var1, l.kind.w), Low(l.var2, l.kind.w), c, l.kind.w)
  {
    hide Bitwise, BitAt, InRange, GetCF, GetAF, GetOF;
    ResultPart(l, f);
    DifferenceCarries(l, f, c);
    DifferenceOverflows(l, f, c);
    hide Pulled, ResultFlags;
  }

  /** What the three readers that differ do after INC and DEC. */
  lemma CountReaders(l: Lazy, f: Status)
    requires l.kind.Did? && (l.kind.op.T_INC? || l.kind.op.T_DEC?)
    ensures Recorded(l) && GetCF(l, f) == f.cf
    ensures var r, up := Low(l.res, l.kind.w), l.kind.op.T_INC?;
            && GetAF(l, f) == (r % 16 == if up then 0 else 15) && GetOF(l, f) == (r == if up then Sign(l.kind.w) else Sign(l.kind.w) - 1)
  {
    hide Bitwise, BitAt, Low;
    MaskLow(Low(l.res, l.kind.w));
  }

  lemma PulledIncrement(l: Lazy, f: Status)
    requires l.kind.Did? && l.kind.op.T_INC? && Low(l.res, l.kind.w) == Low(Low(l.var1, l.kind.w) + 1, l.kind.w)
    ensures Recorded(l) && Pulled(l, f) == SumFlags(Low(l.var1, l.kind.w), 1, false, l.kind.w).(cf := f.cf)
  {
    var w := l.kind.w;
    var a, r := Low(l.var1, w), Low(l.res, w);
    hide Bitwise, BitAt, InRange, Pulled, GetCF, GetAF, GetOF, Signed, EvenParity, Low;
    ResultPart(l, f);
    CountReaders(l, f);
    IncrementEdges(a, w);
  }

  lemma IncrementEdges(a: nat, w: Width)
    requires a < Size(w)
    ensures var r := Low(a + 1, w);
            && (r % 16 == 0 <==> a % 16 + 1 >= 16)
            && (r == Sign(w) <==> !InRange(Signed(a, w) + 1, w))
  {
    var carry := a + 1 == Size(w);
    DivUnique(a + 1, Size(w), if carry then 1 else 0, if carry then 0 else a + 1);
    hide Low;
    NextNibble(a);
  }

  lemma NextNibble(a: nat)
    ensures (a + 1) % 16 == if a % 16 == 15 then 0 else a % 16 + 1
  {
    var wraps := a % 16 == 15;
    DivUnique(a + 1, 16, a / 16 + (if wraps then 1 else 0), if wraps then 0 else a % 16 + 1);
  }

  lemma PulledDecrement(l: Lazy, f: Status)
    requires l.kind.Did? && l.kind.op.T_DEC? && Low(l.res, l.kind.w) == Low(Low(l.var1, l.kind.w) - 1, l.kind.w)
    ensures Recorded(l) && Pulled(l, f) == DifferenceFlags(Low(l.var1, l.kind.w), 1, false, l.kind.w).(cf := f.cf)
  {
    var w := l.kind.w;
    var a, r := Low(l.var1, w), Low(l.res, w);
    hide Bitwise, BitAt, InRange, Pulled, GetCF, GetAF, GetOF, Signed, EvenParity, Low;
    ResultPart(l, f);
    CountReaders(l, f);
    DecrementEdges(a, w);
  }

  lemma DecrementEdges(a: nat, w: Width)
    requires a < Size(w)
    ensures var r := Low(a - 1, w);
            && (r % 16 == 15 <==> a % 16 < 1)
            && (r == Sign(w) - 1 <==> !InRange(Signed(a, w) - 1, w))
  {
    DivUnique(a - 1, Size(w), if a == 0 then -1 else 0, if a == 0 then Size(w) - 1 else a - 1);
    hide Low;
    if a > 0 {
      NextNibble(a - 1);
    }
  }

  lemma PulledNegation(l: Lazy, f: Status)
    requires Recorded(l) && l.kind.Did? && l.kind.op.T_NEG?
    ensures Pulled(l, f) == DifferenceFlags(0, Low(l.var1, l.kind.w), false, l.kind.w)
  {
    hide Bitwise, BitAt, InRange, GetAF, EvenParity;
    ResultPart(l, f);
    NegationNibbleSeen(l, f);
    hide Pulled, ResultFlags;
    NegationEdge(Low(l.var1, l.kind.w), l.kind.w);
    hide Low;
  }

  lemma NegationNibbleSeen(l: Lazy, f: Status)
    requires Recorded(l) && l.kind.Did? && l.kind.op.T_NEG?
    ensures GetAF(l, f) <==> Low(l.var1, l.kind.w) % 16 > 0
  {
    hide Low;
    MaskLow(Low(l.var1, l.kind.w));
  }

  lemma NegationEdge(a: nat, w: Width)
    requires a < Size(w)
    ensures a == Sign(w) <==> !InRange(-Signed(a, w), w)
  {
    match w
    case Byte => case Word => case Dword =>
  }

  lemma NegationNibble(a: nat, w: Width)
    requires a < Size(w)
    ensures a % 16 != 0 <==> Low(0 - a, w) % 16 != 0
  {
    var m := Size(w) / 16;
    DivUnique(0 - a, Size(w), if a == 0 then 0 else -1, if a == 0 then 0 else Size(w) - a);
    hide Low;
    if a != 0 && a % 16 != 0 {
      DivUnique(Size(w) - a, 16, m - a / 16 - 1, 16 - a % 16);
    } else if a != 0 {
      DivUnique(Size(w) - a, 16, m - a / 16, 0);
    }
  }

  lemma PulledLogic(l: Lazy, f: Status)
    requires l.kind.Did? && (l.kind.op.T_AND? || l.kind.op.T_OR? || l.kind.op.T_XOR? || l.kind.op.T_TEST?)
    ensures Recorded(l) && Pulled(l, f) == ResultFlags(Low(l.res, l.kind.w), l.kind.w, false, false, false)
  {
    ResultPart(l, f);
  }

  lemma PulledLeft(l: Lazy, f: Status)
    requires Recorded(l) && l.kind.Did? && l.kind.op.T_SHL?
    requires var w := l.kind.w; Low(l.res, w) == Low(Shl(Low(l.var1, w), Low(l.var2, Byte)), w)
    ensures Pulled(l, f) == LeftFlags(Low(l.var1, l.kind.w), Low(l.var2, Byte), l.kind.w)
  {
    hide Bitwise, BitAt, Low, Shl, Shr, GetCF, GetAF, GetOF, Signed, EvenParity;
    ResultPart(l, f);
    LeftCarry(l, f);
    LeftSign(l, f);
    ShiftCountSeen(l, f);
    hide Pulled;
  }

  lemma LeftCarry(l: Lazy, f: Status)
    requires Recorded(l) && l.kind.Did? && l.kind.op.T_SHL?
    ensures var w := l.kind.w;
            var a, k := Low(l.var1, w), Low(l.var2, Byte);
            GetCF(l, f) <==> k <= Bits(w) && BitAt(a, Bits(w) - k)
  {
    hide BitAt, Low, Shr;
    var w := l.kind.w;
    if Low(l.var2, Byte) <= Bits(w) {
      ShrBit(Low(l.var1, w), Bits(w) - Low(l.var2, Byte), 0);
    }
  }

  lemma LeftSign(l: Lazy, f: Status)
    requires Recorded(l) && l.kind.Did? && l.kind.op.T_SHL?
    ensures var w := l.kind.w;
            GetOF(l, f) <==> (Signed(Low(l.res, w), w) < 0) != (Signed(Low(l.var1, w), w) < 0)
  {
    hide Bitwise, BitAt, Low;
    var w := l.kind.w;
    TopIsSign(Low(l.var1, w), w);
    TopIsSign(Low(l.res, w), w);
    BitwiseBit(XOR, Low(l.res, w), Low(l.var1, w), Top(w));
  }

  /** The count of a shift is never a multiple of 32, so get_AF sees it. */
  lemma ShiftCountSeen(l: Lazy, f: Status)
    requires Recorded(l) && l.kind.Did? && (l.kind.op.T_SHL? || l.kind.op.T_SHR? || l.kind.op.T_SAR?)
    ensures GetAF(l, f)
  {
    MaskLow(Low(l.var2, l.kind.w));
    LowMod(l.var2, l.kind.w);
    LowMod(l.var2, Byte);
  }

  lemma PulledRight(l: Lazy, f: Status)
    requires Recorded(l) && l.kind.Did? && (l.kind.op.T_SHR? || l.kind.op.T_SAR?)
    ensures var w := l.kind.w;
            var a, r, k := Low(l.var1, w), Low(l.res, w), Low(l.var2, Byte);
            Pulled(l, f) == RightFlags(if l.kind.op.T_SAR? then Signed(a, w) else a, r, k,
                                       l.kind.op.T_SHR? && k == 1 && a > Sign(w), w)
  {
    hide Bitwise, BitAt, Low, Shl, Shr, GetCF, GetAF, GetOF, Signed, EvenParity;
    ResultPart(l, f);
    RightCarry(l, f);
    RightSign(l, f);
    ShiftCountSeen(l, f);
    hide Pulled;
  }

  lemma RightCarry(l: Lazy, f: Status)
    requires Recorded(l) && l.kind.Did? && (l.kind.op.T_SHR? || l.kind.op.T_SAR?)
    ensures var w := l.kind.w;
            GetCF(l, f) <==> BitAt(if l.kind.op.T_SAR? then Signed(Low(l.var1, w), w) else Low(l.var1, w), Low(l.var2, Byte) - 1)
  {
    hide BitAt, Low, Shr;
    var w := l.kind.w;
    ShrBit(if l.kind.op.T_SAR? then Signed(Low(l.var1, w), w) else Low(l.var1, w), Low(l.var2, Byte) - 1, 0);
  }

  lemma RightSign(l: Lazy, f: Status)
    requires Recorded(l) && l.kind.Did? && (l.kind.op.T_SHR? || l.kind.op.T_SAR?)
    ensures GetOF(l, f) <==> l.kind.op.T_SHR? && Low(l.var2, Byte) == 1 && Low(l.var1, l.kind.w) > Sign(l.kind.w)
  {
    hide BitAt, Low, Bitwise;
    MaskLow(Low(l.var2, Byte));
  }

  lemma TwiceTimes(p: nat, h: nat)
    ensures 2 * p * h == 2 * (p * h)
  {
  }

  lemma HalfPlus(l: nat, m: nat)
    ensures (l + 2 * m) / 2 == l / 2 + m && (l + 2 * m) % 2 == l % 2
  {
  }
}
