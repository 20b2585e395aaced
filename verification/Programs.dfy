/**
 Programs on the lazy flags and on a machine that computes all six flags after every
 instruction: whatever is read in between, the two cannot be told apart, but for the
 overflow flag of a right shift of exactly the sign bit by one.
 */
module Programs {
  import opened BitArithmetic
  import opened StatusFlags
  import opened LazyFlags
  import opened FlagMachine

  datatype Operand = Register(i: nat) | Immediate(v: nat)

  datatype Condition = O | NO | B | NB | Z | NZ | BE | NBE | S | NS | P | NP | L | NL | LE | NLE

  /** A rotation or shift takes its count from an operand; Jump reads a condition, Fill all the flags. */
  datatype Instr =
    | Binary(op: Op, w: Width, d: nat, s: Operand)
    | Unary(op: Op, w: Width, d: nat)
    | Shift(op: Op, w: Width, d: nat, s: Operand)
    | Rotate(rot: Rotation, w: Width, d: nat, s: Operand)
    | Jump(cond: Condition, target: nat)
    | Fill

  predicate OperandOk(s: Operand, w: Width) { match s case Register(i) => i < 8 case Immediate(v) => v < Size(w) }

  predicate InstrOk(i: Instr) {
    match i
    case Binary(op, w, d, s) =>
      && d < 8 && OperandOk(s, w)
      && (op.T_ADD? || op.T_OR? || op.T_ADC? || op.T_SBB? || op.T_AND? || op.T_SUB? || op.T_XOR? || op.T_CMP? || op.T_TEST?)
    case Unary(op, w, d) => d < 8 && (op.T_INC? || op.T_DEC? || op.T_NEG?)
    case Shift(op, w, d, s) => d < 8 && OperandOk(s, Byte) && (op.T_SHL? || op.T_SHR? || op.T_SAR?)
    case Rotate(_, w, d, s) => d < 8 && OperandOk(s, Byte)
    case Jump(_, _) => true
    case Fill => true
  }

  function Value(regs: seq<nat>, w: Width, s: Operand): (v: nat)
    requires |regs| == 8 && OperandOk(s, w)
    ensures v < Size(w)
  { match s case Register(i) => ReadReg(regs, w, i) case Immediate(v) => v }

  /** The count of GRP2: the low five bits; a count of zero does nothing. */
  function Count(regs: seq<nat>, s: Operand): (k: nat)
    requires |regs| == 8 && OperandOk(s, Byte)
    ensures k <= 31
  { Value(regs, Byte, s) % 32 }

  // ---- the eager machine ----

  predicate Holds(c: Condition, f: Status) {
    match c
    case O => f.of case NO => !f.of
    case B => f.cf case NB => !f.cf
    case Z => f.zf case NZ => !f.zf
    case BE => f.cf || f.zf case NBE => !(f.cf || f.zf)
    case S => f.sf case NS => !f.sf
    case P => f.pf case NP => !f.pf
    case L => f.sf != f.of case NL => f.sf == f.of
    case LE => f.zf || f.sf != f.of case NLE => !(f.zf || f.sf != f.of)
  }

  /** The condition with the opposite lowest bit in its code. */
  function Negated(c: Condition): Condition {
    match c
    case O => NO case NO => O
    case B => NB case NB => B
    case Z => NZ case NZ => Z
    case BE => NBE case NBE => BE
    case S => NS case NS => S
    case P => NP case NP => P
    case L => NL case NL => L
    case LE => NLE case NLE => LE
  }

  /** Of a condition and its opposite exactly one holds. */
  lemma Opposite(c: Condition, f: Status)
    ensures Holds(Negated(c), f) <==> !Holds(c, f)
  {
  }

  lemma Compared(a: nat, b: nat, w: Width)
    requires a < Size(w) && b < Size(w)
    ensures var f := DifferenceFlags(a, b, false, w);
            && (Holds(Z, f) <==> a == b) && (Holds(B, f) <==> a < b) && (Holds(BE, f) <==> a <= b)
            && (Holds(L, f) <==> Signed(a, w) < Signed(b, w)) && (Holds(LE, f) <==> Signed(a, w) <= Signed(b, w))
  {
    hide EvenParity;
    DivUnique(a - b, Size(w), if a < b then -1 else 0, if a < b then a - b + Size(w) else a - b);
    hide Low;
  }

  /** After a comparison the conditions mean what their names say. */
  lemma Comparison(a: nat, b: nat, w: Width)
    requires a < Size(w) && b < Size(w)
    ensures var f := DifferenceFlags(a, b, false, w);
            && (Holds(Z, f) <==> a == b) && (Holds(B, f) <==> a < b) && (Holds(BE, f) <==> a <= b)
            && (Holds(NZ, f) <==> a != b) && (Holds(NB, f) <==> a >= b) && (Holds(NBE, f) <==> a > b)
            && (Holds(L, f) <==> Signed(a, w) < Signed(b, w)) && (Holds(LE, f) <==> Signed(a, w) <= Signed(b, w))
            && (Holds(NL, f) <==> Signed(a, w) >= Signed(b, w)) && (Holds(NLE, f) <==> Signed(a, w) > Signed(b, w))
  {
    Compared(a, b, w);
    var f := DifferenceFlags(a, b, false, w);
    Opposite(Z, f);
    Opposite(B, f);
    Opposite(BE, f);
    Opposite(L, f);
    Opposite(LE, f);
    hide Holds, DifferenceFlags, Signed;
  }

  /** After a comparison S, P and O tell whether the difference, cut to the width, is negative, has an even number of ones
      in its low byte, and is not the true one. */
  lemma Conditions(a: nat, b: nat, w: Width)
    requires a < Size(w) && b < Size(w)
    ensures var f, d := DifferenceFlags(a, b, false, w), Low(a - b, w);
            && (Holds(S, f) <==> Signed(d, w) < 0) && (Holds(P, f) <==> EvenParity(d))
            && (Holds(O, f) <==> Signed(d, w) != Signed(a, w) - Signed(b, w))
  {
    hide EvenParity;
    DivUnique(a - b, Size(w), if a < b then -1 else 0, if a < b then a - b + Size(w) else a - b);
    hide Low;
  }

  /** The count is the low five bits of its operand. */
  lemma CountBits(regs: seq<nat>, s: Operand, i: nat)
    requires |regs| == 8 && OperandOk(s, Byte)
    ensures BitAt(Count(regs, s), i) == (i < 5 && BitAt(Value(regs, Byte, s), i))
  {
    var x := Value(regs, Byte, s);
    assert Pow2(5) == 32 by {
      assert Pow2(3) == 8;
    }
    TruncBit(x, 5, i);
  }

  datatype Observation = Taken(yes: bool) | Flags(f: Status)

  /** `late`: the overflow flag is set, but a condition does not see it before the flags are filled in. */
  datatype Machine = Machine(regs: seq<nat>, f: Status, late: bool, pc: nat, seen: seq<Observation>)

  /** The flags as conditions see them. */
  function Visible(m: Machine): Status { m.f.(of := m.f.of && !m.late) }

  function BinaryResult(op: Op, a: nat, b: nat, c: bool, w: Width): (r: nat)
    requires a < Size(w) && b < Size(w)
    ensures r < Size(w)
  {
    match op
    case T_ADD => Low(a + b, w)
    case T_ADC => Low(a + b + One(c), w)
    case T_SUB => Low(a - b, w)
    case T_SBB => Low(a - b - One(c), w)
    case T_OR => Logic(BitOp.OR, a, b, w)
    case T_AND => Logic(BitOp.AND, a, b, w)
    case T_XOR => Logic(BitOp.XOR, a, b, w)
    case _ => a
  }

  function BinaryFlags(op: Op, a: nat, b: nat, c: bool, w: Width): Status
    requires a < Size(w) && b < Size(w)
  {
    match op
    case T_ADD => SumFlags(a, b, false, w)
    case T_ADC => SumFlags(a, b, c, w)
    case T_SBB => DifferenceFlags(a, b, c, w)
    case T_OR => ResultFlags(Logic(BitOp.OR, a, b, w), w, false, false, false)
    case T_AND | T_TEST => ResultFlags(Logic(BitOp.AND, a, b, w), w, false, false, false)
    case T_XOR => ResultFlags(Logic(BitOp.XOR, a, b, w), w, false, false, false)
    case _ => DifferenceFlags(a, b, false, w)
  }

  predicate Writes(op: Op) { !op.T_CMP? && !op.T_TEST? }

  function StepBinary(op: Op, w: Width, d: nat, s: Operand, regs: seq<nat>, f: Status): (seq<nat>, Status)
    requires |regs| == 8 && d < 8 && OperandOk(s, w)
  {
    var a, b := ReadReg(regs, w, d), Value(regs, w, s);
    (if Writes(op) then WriteReg(regs, w, d, BinaryResult(op, a, b, f.cf, w)) else regs, BinaryFlags(op, a, b, f.cf, w))
  }

  function StepUnary(op: Op, w: Width, d: nat, regs: seq<nat>, f: Status): (seq<nat>, Status)
    requires |regs| == 8 && d < 8
  {
    var a := ReadReg(regs, w, d);
    match op
    case T_INC => (WriteReg(regs, w, d, Low(a + 1, w)), SumFlags(a, 1, false, w).(cf := f.cf))
    case T_DEC => (WriteReg(regs, w, d, Low(a - 1, w)), DifferenceFlags(a, 1, false, w).(cf := f.cf))
    case _ => (WriteReg(regs, w, d, Low(0 - a, w)), DifferenceFlags(0, a, false, w))
  }

  /** The overflow flag of SHR by one is the old sign bit. */
  function StepShift(op: Op, w: Width, d: nat, k: nat, regs: seq<nat>): (seq<nat>, Status)
    requires |regs| == 8 && d < 8 && k > 0
  {
    var a := ReadReg(regs, w, d);
    match op
    case T_SHL => (WriteReg(regs, w, d, Low(Shl(a, k), w)), LeftFlags(a, k, w))
    case T_SHR =>
      var r := Low(Shr(a, k), w);
      (WriteReg(regs, w, d, r), RightFlags(a, r, k, k == 1 && a >= Sign(w), w))
    case _ =>
      var r := Low(Shr(Signed(a, w), k), w);
      (WriteReg(regs, w, d, r), RightFlags(Signed(a, w), r, k, false, w))
  }

  /** get_OF does not recognise this operand. */
  predicate Missed(op: Op, w: Width, d: nat, k: nat, regs: seq<nat>)
    requires |regs| == 8 && d < 8
  { op.T_SHR? && k == 1 && ReadReg(regs, w, d) == Sign(w) }

  /** A rotation that turns nothing leaves everything alone. */
  predicate Turns(rot: Rotation, w: Width, k: nat) { k != 0 && (rot.RCL? || rot.RCR? ==> CarryTurns(k, w) != 0) }

  /** A rotation is left out for no count, and one through the carry for whole turns of its ring of 9, 17 or 33 bits. */
  lemma TurnsMeans(rot: Rotation, w: Width, k: nat)
    ensures Turns(rot, w, k) <==>
              k > 0 && (rot.ROL? || rot.ROR? || (match w case Byte => k % 9 > 0 case Word => k % 17 > 0 case Dword => k % 33 > 0))
  {
  }

  function StepRotate(rot: Rotation, w: Width, d: nat, k: nat, regs: seq<nat>, f: Status): (seq<nat>, Status)
    requires |regs| == 8 && d < 8
  {
    var a := ReadReg(regs, w, d);
    (WriteReg(regs, w, d, Rotated(rot, a, f.cf, k, w)), RotationFlags(rot, a, k, w, f))
  }

  /** One instruction; `shown` are the flags that a condition sees. */
  function Step(i: Instr, m: Machine, shown: Status): (m': Machine)
    requires InstrOk(i) && |m.regs| == 8
    ensures |m'.regs| == 8
  {
    match i
    case Binary(op, w, d, s) => var (regs, f) := StepBinary(op, w, d, s, m.regs, m.f); Machine(regs, f, false, m.pc + 1, m.seen)
    case Unary(op, w, d) => var (regs, f) := StepUnary(op, w, d, m.regs, m.f); Machine(regs, f, false, m.pc + 1, m.seen)
    case Shift(op, w, d, s) =>
      var k := Count(m.regs, s);
      if k == 0 then m.(pc := m.pc + 1)
      else var (regs, f) := StepShift(op, w, d, k, m.regs); Machine(regs, f, Missed(op, w, d, k, m.regs), m.pc + 1, m.seen)
    case Rotate(rot, w, d, s) =>
      var k := Count(m.regs, s);
      if !Turns(rot, w, k) then m.(pc := m.pc + 1)
      else var (regs, f) := StepRotate(rot, w, d, k, m.regs, m.f); Machine(regs, f, false, m.pc + 1, m.seen)
    case Jump(c, target) =>
      m.(pc := if Holds(c, shown) then target else m.pc + 1, seen := m.seen + [Taken(Holds(c, shown))])
    case Fill => m.(late := false, pc := m.pc + 1, seen := m.seen + [Flags(m.f)])
  }

  /** At most `steps` instructions of a program, with the late overflow flag. */
  function Run(program: seq<Instr>, m: Machine, steps: nat): (m': Machine)
    requires |m.regs| == 8 && forall i <- program :: InstrOk(i)
    ensures |m'.regs| == 8
    decreases steps
  {
    if steps == 0 || m.pc >= |program| then m else Run(program, Step(program[m.pc], m, Visible(m)), steps - 1)
  }

  /** The same on the machine that shows each flag at once. */
  function PromptRun(program: seq<Instr>, m: Machine, steps: nat): (m': Machine)
    requires |m.regs| == 8 && forall i <- program :: InstrOk(i)
    ensures |m'.regs| == 8
    decreases steps
  {
    if steps == 0 || m.pc >= |program| then m else PromptRun(program, Step(program[m.pc], m, m.f), steps - 1)
  }

  predicate AsksOverflow(i: Instr) {
    i.Jump? && (i.cond.O? || i.cond.NO? || i.cond.L? || i.cond.NL? || i.cond.LE? || i.cond.NLE?)
  }

  /** On the way no condition asks for the overflow flag while it is late. */
  predicate NeverAsks(program: seq<Instr>, m: Machine, steps: nat)
    requires |m.regs| == 8 && forall i <- program :: InstrOk(i)
    decreases steps
  {
    steps == 0 || m.pc >= |program| ||
    (!(m.late && AsksOverflow(program[m.pc])) && NeverAsks(program, Step(program[m.pc], m, Visible(m)), steps - 1))
  }

  /** When the flag is late it is set, and the result was neither negative nor zero. */
  predicate Sane(m: Machine) { |m.regs| == 8 && (m.late ==> m.f.of && !m.f.sf && !m.f.zf) }

  lemma StepSane(i: Instr, m: Machine, shown: Status)
    requires InstrOk(i) && Sane(m)
    ensures Sane(Step(i, m, shown))
  {
    hide StepBinary, StepUnary, StepRotate, Holds, LeftFlags, ReadReg, WriteReg, BitAt, EvenParity, Low, Shr;
    if i.Shift? && i.op.T_SHR? && Count(m.regs, i.s) == 1 && ReadReg(m.regs, i.w, i.d) == Sign(i.w) {
      SignHalved(i.w);
    }
  }

  lemma SignHalved(w: Width)
    ensures 0 < Low(Shr(Sign(w), 1), w) == Sign(w) / 2 < Sign(w)
  {
    match w
    case Byte => case Word => case Dword =>
  }

  lemma Asking(i: Instr, m: Machine)
    requires InstrOk(i) && Sane(m)
    ensures !(m.late && AsksOverflow(i)) ==> Step(i, m, Visible(m)) == Step(i, m, m.f)
    ensures m.late && AsksOverflow(i) ==>
              exists yes :: Step(i, m, Visible(m)).seen == m.seen + [Taken(yes)] && Step(i, m, m.f).seen == m.seen + [Taken(!yes)]
  {
    hide StepBinary, StepUnary, StepShift, StepRotate;
    if m.late && AsksOverflow(i) {
      assert Holds(i.cond, m.f) == !Holds(i.cond, Visible(m));
      var yes := Holds(i.cond, Visible(m));
      hide Holds;
      assert Step(i, m, Visible(m)).seen == m.seen + [Taken(yes)] && Step(i, m, m.f).seen == m.seen + [Taken(!yes)];
    }
  }

  lemma StepGrows(i: Instr, m: Machine, shown: Status)
    requires InstrOk(i) && |m.regs| == 8
    ensures m.seen <= Step(i, m, shown).seen
  {
    hide StepBinary, StepUnary, StepShift, StepRotate, Holds;
  }

  lemma {:induction false} SeenGrows(program: seq<Instr>, m: Machine, steps: nat)
    requires |m.regs| == 8 && forall i <- program :: InstrOk(i)
    ensures m.seen <= Run(program, m, steps).seen && m.seen <= PromptRun(program, m, steps).seen
    decreases steps
  {
    hide Step, InstrOk;
    if steps > 0 && m.pc < |program| {
      StepGrows(program[m.pc], m, Visible(m));
      StepGrows(program[m.pc], m, m.f);
      SeenGrows(program, Step(program[m.pc], m, Visible(m)), steps - 1);
      SeenGrows(program, Step(program[m.pc], m, m.f), steps - 1);
    }
  }

  /** A program tells the two machines apart if and only if it asks for the overflow flag while it is late; otherwise they
      agree in everything. */
  lemma {:induction false} LateOnlyWhenAsked(program: seq<Instr>, m: Machine, steps: nat)
    requires Sane(m) && forall i <- program :: InstrOk(i)
    ensures NeverAsks(program, m, steps) ==> Run(program, m, steps) == PromptRun(program, m, steps)
    ensures !NeverAsks(program, m, steps) ==> Run(program, m, steps).seen != PromptRun(program, m, steps).seen
    decreases steps
  {
    hide StepBinary, StepUnary, StepShift, StepRotate, Holds, AsksOverflow, Step;
    if steps > 0 && m.pc < |program| {
      var i := program[m.pc];
      StepSane(i, m, Visible(m));
      Asking(i, m);
      var m1, m2 := Step(i, m, Visible(m)), Step(i, m, m.f);
      if m.late && AsksOverflow(i) {
        SeenGrows(program, m1, steps - 1);
        SeenGrows(program, m2, steps - 1);
        assert m1.seen[|m.seen|] != m2.seen[|m.seen|];
      } else {
        LateOnlyWhenAsked(program, m1, steps - 1);
      }
    }
  }

  // ---- the lazy machine ----

  /** The TFLG_ macros */
  predicate Tflg(c: Condition, l: Lazy, f: Status)
    requires Recorded(l)
  {
    match c
    case O => GetOF(l, f) case NO => !GetOF(l, f)
    case B => GetCF(l, f) case NB => !GetCF(l, f)
    case Z => GetZF(l, f) case NZ => !GetZF(l, f)
    case BE => GetCF(l, f) || GetZF(l, f) case NBE => !GetCF(l, f) && !GetZF(l, f)
    case S => GetSF(l, f) case NS => !GetSF(l, f)
    case P => GetPF(l, f) case NP => !GetPF(l, f)
    case L => GetSF(l, f) != GetOF(l, f) case NL => GetSF(l, f) == GetOF(l, f)
    case LE => GetZF(l, f) || GetSF(l, f) != GetOF(l, f) case NLE => !GetZF(l, f) && GetSF(l, f) == GetOF(l, f)
  }

  lemma TflgReads(c: Condition, l: Lazy, f: Status)
    requires Recorded(l)
    ensures Tflg(c, l, f) <==> Holds(c, Pulled(l, f))
  {
    hide GetCF, GetAF, GetZF, GetSF, GetPF, GetOF;
    match c
    case O => case NO => case B => case NB => case Z => case NZ => case BE => case NBE =>
    case S => case NS => case P => case NP => case L => case NL => case LE => case NLE =>
  }

  /** The state of the eager machine that the lazy one stands for. */
  ghost function State(cpu: Cpu, pc: nat, seen: seq<Observation>): Machine
    requires cpu.Valid()
    reads cpu
  {
    Machine(cpu.regs, FilledIn(cpu.lflags, cpu.flags), ShiftedSignBit(cpu.lflags), pc, seen)
  }

  lemma VisibleSeen(l: Lazy, f: Status)
    requires Recorded(l) && !DoubleShift(l)
    ensures Pulled(l, f) == FilledIn(l, f).(of := FilledIn(l, f).of && !ShiftedSignBit(l))
  {
    FillAgrees(l, f);
    hide GetCF, GetAF, GetZF, GetSF, GetPF, GetOF, ShiftedSignBit;
  }

  lemma BinaryUnread(op: Op, w: Width, d: nat, s: Operand, regs: seq<nat>, f: Status, f': Status)
    requires |regs| == 8 && d < 8 && OperandOk(s, w) && f' == f.(of := f'.of)
    ensures StepBinary(op, w, d, s, regs, f') == StepBinary(op, w, d, s, regs, f)
  {
  }

  lemma UnaryUnread(op: Op, w: Width, d: nat, regs: seq<nat>, f: Status, f': Status)
    requires |regs| == 8 && d < 8 && f' == f.(of := f'.of)
    ensures StepUnary(op, w, d, regs, f') == StepUnary(op, w, d, regs, f)
  {
  }

  lemma RotateUnread(rot: Rotation, w: Width, d: nat, k: nat, regs: seq<nat>, f: Status, f': Status)
    requires |regs| == 8 && d < 8 && Turns(rot, w, k) && f' == f.(of := f'.of)
    ensures StepRotate(rot, w, d, k, regs, f') == StepRotate(rot, w, d, k, regs, f)
  {
    OverflowReplaced(rot, ReadReg(regs, w, d), k, w, f, f');
  }

  method LazyBinary(cpu: Cpu, op: Op, w: Width, d: nat, s: Operand)
    requires cpu.Valid() && !DoubleShift(cpu.lflags) && InstrOk(Binary(op, w, d, s))
    modifies cpu
    ensures cpu.Valid() && !DoubleShift(cpu.lflags) && !ShiftedSignBit(cpu.lflags)
    ensures (cpu.regs, cpu.Seen()) == old(StepBinary(op, w, d, s, cpu.regs, cpu.Seen()))
  {
    hide SumFlags, DifferenceFlags, ResultFlags, Low, Size, WriteReg, ReadReg, Logic, Pulled, Recorded, FilledIn;
    var b := Value(cpu.regs, w, s);
    match op
    case T_ADD => cpu.ADD(w, d, b);
    case T_OR => cpu.OR(w, d, b);
    case T_ADC => cpu.ADC(w, d, b);
    case T_SBB => cpu.SBB(w, d, b);
    case T_AND => cpu.AND(w, d, b);
    case T_SUB => cpu.SUB(w, d, b);
    case T_XOR => cpu.XOR(w, d, b);
    case T_CMP => cpu.CMP(w, d, b);
    case T_TEST => cpu.TEST(w, d, b);
  }

  method DoBinary(cpu: Cpu, op: Op, w: Width, d: nat, s: Operand)
    requires cpu.Valid() && !DoubleShift(cpu.lflags) && InstrOk(Binary(op, w, d, s))
    modifies cpu
    ensures cpu.Valid() && !DoubleShift(cpu.lflags) && !ShiftedSignBit(cpu.lflags)
    ensures (cpu.regs, FilledIn(cpu.lflags, cpu.flags)) == old(StepBinary(op, w, d, s, cpu.regs, FilledIn(cpu.lflags, cpu.flags)))
  {
    hide StepBinary, Pulled, Recorded, FilledIn, ShiftedSignBit, DoubleShift, Turns;
    VisibleSeen(cpu.lflags, cpu.flags);
    BinaryUnread(op, w, d, s, cpu.regs, cpu.Seen(), FilledIn(cpu.lflags, cpu.flags));
    LazyBinary(cpu, op, w, d, s);
    VisibleSeen(cpu.lflags, cpu.flags);
  }

  method LazyUnary(cpu: Cpu, op: Op, w: Width, d: nat)
    requires cpu.Valid() && !DoubleShift(cpu.lflags) && InstrOk(Unary(op, w, d))
    modifies cpu
    ensures cpu.Valid() && !DoubleShift(cpu.lflags) && !ShiftedSignBit(cpu.lflags)
    ensures (cpu.regs, cpu.Seen()) == old(StepUnary(op, w, d, cpu.regs, cpu.Seen()))
  {
    hide SumFlags, DifferenceFlags, ResultFlags, Low, Size, WriteReg, ReadReg, Pulled, Recorded, FilledIn;
    match op
    case T_INC => cpu.INC(w, d);
    case T_DEC => cpu.DEC(w, d);
    case T_NEG => cpu.NEG(w, d);
  }

  method DoUnary(cpu: Cpu, op: Op, w: Width, d: nat)
    requires cpu.Valid() && !DoubleShift(cpu.lflags) && InstrOk(Unary(op, w, d))
    modifies cpu
    ensures cpu.Valid() && !DoubleShift(cpu.lflags) && !ShiftedSignBit(cpu.lflags)
    ensures (cpu.regs, FilledIn(cpu.lflags, cpu.flags)) == old(StepUnary(op, w, d, cpu.regs, FilledIn(cpu.lflags, cpu.flags)))
  {
    hide StepUnary, Pulled, Recorded, FilledIn, ShiftedSignBit, DoubleShift, Turns;
    VisibleSeen(cpu.lflags, cpu.flags);
    UnaryUnread(op, w, d, cpu.regs, cpu.Seen(), FilledIn(cpu.lflags, cpu.flags));
    LazyUnary(cpu, op, w, d);
    VisibleSeen(cpu.lflags, cpu.flags);
  }

  method DoShift(cpu: Cpu, op: Op, w: Width, d: nat, k: nat)
    requires cpu.Valid() && d < 8 && 1 <= k <= 31 && (op.T_SHL? || op.T_SHR? || op.T_SAR?)
    modifies cpu
    ensures cpu.Valid() && !DoubleShift(cpu.lflags) && (ShiftedSignBit(cpu.lflags) <==> old(Missed(op, w, d, k, cpu.regs)))
    ensures (cpu.regs, FilledIn(cpu.lflags, cpu.flags)) == old(StepShift(op, w, d, k, cpu.regs))
  {
    hide LeftFlags, RightFlags, Low, Size, WriteReg, ReadReg, Pulled, Recorded, Shl, Shr, Signed, FilledIn;
    ghost var a := ReadReg(cpu.regs, w, d);
    match op {
      case T_SHL => cpu.SHL(w, d, k);
      case T_SHR =>
        cpu.SHR(w, d, k);
        RightOverflow(a, Low(Shr(a, k), w), k, w);
      case T_SAR => cpu.SAR(w, d, k);
    }
    VisibleSeen(cpu.lflags, cpu.flags);
    FillAgrees(cpu.lflags, cpu.flags);
  }

  /** The OF that get_OF reads after SHR, and the one that is filled in. */
  lemma RightOverflow(a: nat, r: nat, k: nat, w: Width)
    requires r < Size(w) && k > 0
    ensures RightFlags(a, r, k, k == 1 && a >= Sign(w), w) ==
            RightFlags(a, r, k, k == 1 && a > Sign(w), w).(of := (k == 1 && a > Sign(w)) || (k == 1 && a == Sign(w)))
    ensures RightFlags(a, r, k, k == 1 && a > Sign(w), w).of == (k == 1 && a > Sign(w))
  {
  }

  method LazyRotate(cpu: Cpu, rot: Rotation, w: Width, d: nat, k: nat)
    requires cpu.Valid() && !DoubleShift(cpu.lflags) && d < 8 && k <= 31 && Turns(rot, w, k)
    modifies cpu
    ensures cpu.Valid() && !DoubleShift(cpu.lflags) && !ShiftedSignBit(cpu.lflags)
    ensures (cpu.regs, cpu.Seen()) == old(StepRotate(rot, w, d, k, cpu.regs, cpu.Seen()))
  {
    hide RotationFlags, Low, Size, WriteReg, ReadReg, Pulled, Recorded, Rotated, CarryTurns, FilledIn;
    match rot
    case ROL => cpu.ROL(w, d, k);
    case ROR => cpu.ROR(w, d, k);
    case RCL => cpu.RCL(w, d, k);
    case RCR => cpu.RCR(w, d, k);
  }

  method DoRotate(cpu: Cpu, rot: Rotation, w: Width, d: nat, k: nat)
    requires cpu.Valid() && !DoubleShift(cpu.lflags) && d < 8 && k <= 31 && Turns(rot, w, k)
    modifies cpu
    ensures cpu.Valid() && !DoubleShift(cpu.lflags) && !ShiftedSignBit(cpu.lflags)
    ensures (cpu.regs, FilledIn(cpu.lflags, cpu.flags)) == old(StepRotate(rot, w, d, k, cpu.regs, FilledIn(cpu.lflags, cpu.flags)))
  {
    hide StepRotate, Pulled, Recorded, FilledIn, ShiftedSignBit, DoubleShift, Turns;
    VisibleSeen(cpu.lflags, cpu.flags);
    RotateUnread(rot, w, d, k, cpu.regs, cpu.Seen(), FilledIn(cpu.lflags, cpu.flags));
    LazyRotate(cpu, rot, w, d, k);
    VisibleSeen(cpu.lflags, cpu.flags);
  }

  lemma Filled(l: Lazy, f: Status)
    requires l.kind.T_UNKNOWN?
    ensures Recorded(l) && FilledIn(l, f) == f && !ShiftedSignBit(l) && !DoubleShift(l)
  {
  }

  method Calculate(cpu: Cpu, i: Instr, ghost pc: nat, ghost seen: seq<Observation>)
    requires cpu.Valid() && !DoubleShift(cpu.lflags) && InstrOk(i) && (i.Binary? || i.Unary?)
    modifies cpu
    ensures cpu.Valid() && !DoubleShift(cpu.lflags)
    ensures State(cpu, pc + 1, seen) == old(Step(i, State(cpu, pc, seen), Visible(State(cpu, pc, seen))))
  {
    hide Pulled, Recorded, StepBinary, StepUnary, StepShift, StepRotate, Holds, Tflg, FilledIn, ShiftedSignBit, DoubleShift, Missed,
      Turns, Count, Value;
    match i
    case Binary(op, w, d, s) => DoBinary(cpu, op, w, d, s);
    case Unary(op, w, d) => DoUnary(cpu, op, w, d);
  }

  method Turn(cpu: Cpu, i: Instr, ghost pc: nat, ghost seen: seq<Observation>)
    requires cpu.Valid() && !DoubleShift(cpu.lflags) && InstrOk(i) && (i.Shift? || i.Rotate?)
    modifies cpu
    ensures cpu.Valid() && !DoubleShift(cpu.lflags)
    ensures State(cpu, pc + 1, seen) == old(Step(i, State(cpu, pc, seen), Visible(State(cpu, pc, seen))))
  {
    hide Pulled, Recorded, StepBinary, StepUnary, StepShift, StepRotate, Holds, Tflg, FilledIn, ShiftedSignBit, DoubleShift, Missed,
      Turns, Count, Value;
    var k := Count(cpu.regs, i.s);
    match i
    case Shift(op, w, d, s) =>
      if k != 0 {
        DoShift(cpu, op, w, d, k);
      }
    case Rotate(rot, w, d, s) =>
      if Turns(rot, w, k) {
        DoRotate(cpu, rot, w, d, k);
      }
  }

  method Observe(cpu: Cpu, i: Instr, pc: nat, seen: seq<Observation>) returns (pc': nat, seen': seq<Observation>)
    requires cpu.Valid() && !DoubleShift(cpu.lflags) && InstrOk(i) && (i.Jump? || i.Fill?)
    modifies cpu
    ensures cpu.Valid() && !DoubleShift(cpu.lflags)
    ensures State(cpu, pc', seen') == old(Step(i, State(cpu, pc, seen), Visible(State(cpu, pc, seen))))
  {
    hide Pulled, Recorded, StepBinary, StepUnary, StepShift, StepRotate, Holds, Tflg, FilledIn, ShiftedSignBit, DoubleShift, Missed,
      Turns, Count, Value;
    match i
    case Jump(c, target) =>
      VisibleSeen(cpu.lflags, cpu.flags);
      TflgReads(c, cpu.lflags, cpu.flags);
      var taken := Tflg(c, cpu.lflags, cpu.flags);
      pc', seen' := if taken then target else pc + 1, seen + [Taken(taken)];
    case Fill =>
      cpu.FillFlags();
      Filled(cpu.lflags, cpu.flags);
      pc', seen' := pc + 1, seen + [Flags(cpu.flags)];
  }

  method ExecuteOne(cpu: Cpu, i: Instr, pc: nat, seen: seq<Observation>) returns (pc': nat, seen': seq<Observation>)
    requires cpu.Valid() && !DoubleShift(cpu.lflags) && InstrOk(i)
    modifies cpu
    ensures cpu.Valid() && !DoubleShift(cpu.lflags)
    ensures State(cpu, pc', seen') == old(Step(i, State(cpu, pc, seen), Visible(State(cpu, pc, seen))))
  {
    hide *;
    pc', seen' := pc + 1, seen;
    match i {
      case Binary(_, _, _, _) => Calculate(cpu, i, pc, seen);
      case Unary(_, _, _) => Calculate(cpu, i, pc, seen);
      case Shift(_, _, _, _) => Turn(cpu, i, pc, seen);
      case Rotate(_, _, _, _) => Turn(cpu, i, pc, seen);
      case Jump(_, _) => pc', seen' := Observe(cpu, i, pc, seen);
      case Fill => pc', seen' := Observe(cpu, i, pc, seen);
    }
  }

  /** The run of a program on the deferred flags is its run on the eager machine, in which the overflow flag is late after a
      right shift of the sign bit by one: the same registers, the same flags, the same jumps, and the same flags wherever
      they were filled in. */
  method Execute(cpu: Cpu, program: seq<Instr>, start: nat, steps: nat) returns (pc: nat, seen: seq<Observation>)
    requires cpu.Valid() && !DoubleShift(cpu.lflags) && forall i <- program :: InstrOk(i)
    modifies cpu
    ensures cpu.Valid() && !DoubleShift(cpu.lflags)
    ensures State(cpu, pc, seen) == old(Run(program, State(cpu, start, []), steps))
    ensures cpu.Seen() == Visible(State(cpu, pc, seen))
  {
    hide Pulled, Recorded, InstrOk, Step, FilledIn, ShiftedSignBit, DoubleShift;
    pc, seen := start, [];
    var n := steps;
    ghost var m0 := State(cpu, start, []);
    while n > 0 && pc < |program|
      invariant cpu.Valid() && !DoubleShift(cpu.lflags)
      invariant Run(program, State(cpu, pc, seen), n) == Run(program, m0, steps)
      decreases n
    {
      pc, seen := ExecuteOne(cpu, program[pc], pc, seen);
      n := n - 1;
    }
    VisibleSeen(cpu.lflags, cpu.flags);
  }
}
