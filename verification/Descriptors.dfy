/**
 Segment and task state descriptors, and the task state segment (src/cpu/cpu.h).
 */
module Descriptors {
  import opened Options

  type Selector = x: nat | x < 0x1_0000

  const FLAG_NT: bv32 := 0x0000_4000
  const FLAG_VM: bv32 := 0x0002_0000
  const FMASK_ALL: bv32 := 0x0000_7FD5

  datatype Descriptor = Descriptor(typ: nat, p: bool, dpl: nat, base: nat)

  /** TSS_Descriptor::IsBusy, Is386 and SetBusy */
  predicate Busy(d: Descriptor) { d.typ / 2 % 2 == 1 }

  predicate Is386(d: Descriptor) { d.typ / 8 % 2 == 1 }

  function SetBusy(d: Descriptor, busy: bool): Descriptor {
    d.(typ := if busy == Busy(d) then d.typ else if busy then d.typ + 2 else d.typ - 2)
  }

  predicate IsTss(d: Descriptor) { d.typ == 0x01 || d.typ == 0x03 || d.typ == 0x09 || d.typ == 0x0B }

  /** The busy bit tells the two kinds of task state segments apart. */
  lemma BusyBit(d: Descriptor, busy: bool)
    requires IsTss(d)
    ensures IsTss(SetBusy(d, busy)) && (Busy(SetBusy(d, busy)) <==> busy)
    ensures Is386(SetBusy(d, busy)) == Is386(d) && SetBusy(SetBusy(d, busy), Busy(d)) == d
  {
  }

  predicate IsNull(s: Selector) { s < 4 }

  predicate InLdt(s: Selector) { s / 4 % 2 == 1 }

  /** GDTDescriptorTable::GetDescriptor */
  function Lookup(gdt: seq<Descriptor>, ldt: seq<Descriptor>, s: Selector): Option<Descriptor> {
    var table := if InLdt(s) then ldt else gdt;
    if s / 8 < |table| then Some(table[s / 8]) else None
  }

  /** The LDT after CPU_LLDT(value), which leaves it alone if the descriptor is not that of an LDT. */
  function LdtAfter(gdt: seq<Descriptor>, tables: map<nat, seq<Descriptor>>, ldt: seq<Descriptor>, value: Selector): seq<Descriptor> {
    if IsNull(value) then [] else
      match Lookup(gdt, ldt, value)
      case Some(d) => if d.typ == 0x02 && d.p then (if d.base in tables then tables[d.base] else []) else ldt
      case None => ldt
  }

  /** The checks on the code segment of a task. */
  predicate CodeLoads(gdt: seq<Descriptor>, ldt: seq<Descriptor>, cs: Selector) {
    match Lookup(gdt, ldt, cs)
    case None => false
    case Some(d) =>
      d.p && (if 0x18 <= d.typ <= 0x1B then cs % 4 == d.dpl else 0x1C <= d.typ <= 0x1F && cs % 4 >= d.dpl)
  }

  /** CPU_SetSegGeneral in protected mode loads the selector. */
  predicate StackLoads(gdt: seq<Descriptor>, ldt: seq<Descriptor>, cpl: nat, ss: Selector) {
    !IsNull(ss) &&
    match Lookup(gdt, ldt, ss)
    case None => false
    case Some(d) => ss % 4 == cpl == d.dpl && (d.typ == 0x12 || d.typ == 0x13 || d.typ == 0x16 || d.typ == 0x17) && d.p
  }

  predicate DataLoads(gdt: seq<Descriptor>, ldt: seq<Descriptor>, cpl: nat, s: Selector) {
    IsNull(s) ||
    match Lookup(gdt, ldt, s)
    case None => false
    case Some(d) =>
      && (((0x10 <= d.typ <= 0x17 || d.typ == 0x1A || d.typ == 0x1B) && s % 4 <= d.dpl && cpl <= d.dpl) || d.typ == 0x1E || d.typ == 0x1F)
      && d.p
  }

  // ---- the same by the bits of a type, as the 80386 manual has them (section 6.3) ----

  predicate Bit(typ: nat, weight: nat)
    requires weight > 0
  { typ / weight % 2 == 1 }

  /** Code or data, not a system segment; of code: conforming and readable; of data: writeable. */
  predicate IsCode(d: Descriptor) { Bit(d.typ, 16) && Bit(d.typ, 8) }

  predicate IsData(d: Descriptor) { Bit(d.typ, 16) && !Bit(d.typ, 8) }

  predicate Conforming(d: Descriptor) { IsCode(d) && Bit(d.typ, 4) }

  predicate Readable(d: Descriptor) { IsData(d) || (IsCode(d) && Bit(d.typ, 2)) }

  predicate Writeable(d: Descriptor) { IsData(d) && Bit(d.typ, 2) }

  /** Which selectors load: the code segment of a task, if it is at the level of its selector, or at an inner one and
      conforming; a stack, if it can be written and all levels are the same; data, if it can be read and is at no inner
      level, or conforming, or none at all. */
  lemma SegmentsLoad(gdt: seq<Descriptor>, ldt: seq<Descriptor>, s: Selector, cpl: nat)
    requires forall d: Descriptor :: Lookup(gdt, ldt, s) == Some(d) ==> d.typ < 32
    ensures CodeLoads(gdt, ldt, s) <==>
              exists d: Descriptor :: Lookup(gdt, ldt, s) == Some(d) && d.p && IsCode(d) &&
                                      (d.dpl == s % 4 || (Conforming(d) && d.dpl < s % 4))
    ensures StackLoads(gdt, ldt, cpl, s) <==>
              s >= 4 && exists d: Descriptor :: Lookup(gdt, ldt, s) == Some(d) && d.p && Writeable(d) && d.dpl == cpl == s % 4
    ensures DataLoads(gdt, ldt, cpl, s) <==>
              s < 4 || exists d: Descriptor :: Lookup(gdt, ldt, s) == Some(d) && d.p && Readable(d) &&
                                               (Conforming(d) || (s % 4 <= d.dpl && cpl <= d.dpl))
  {
    match Lookup(gdt, ldt, s)
    case None =>
    case Some(d) => assert Lookup(gdt, ldt, s) == Some(d);
  }

  /** Where a descriptor is looked up, and which LDT a task gets: that of a present LDT descriptor, an empty one for a null
      selector, and else the one that was there. */
  lemma LdtLoads(gdt: seq<Descriptor>, tables: map<nat, seq<Descriptor>>, ldt: seq<Descriptor>, s: Selector, d: Descriptor)
    requires d.base in tables
    ensures s < 4 ==> LdtAfter(gdt, tables, ldt, s) == []
    ensures s >= 4 && Lookup(gdt, ldt, s) == Some(d) ==> LdtAfter(gdt, tables, ldt, s) == if d.typ == 2 && d.p then tables[d.base] else ldt
    ensures s >= 4 && Lookup(gdt, ldt, s) == None ==> LdtAfter(gdt, tables, ldt, s) == ldt
    ensures s % 8 < 4 ==> (Lookup(gdt, ldt, s) == Some(d) <==> s / 8 < |gdt| && gdt[s / 8] == d)
    ensures s % 8 >= 4 ==> (Lookup(gdt, ldt, s) == Some(d) <==> s / 8 < |ldt| && ldt[s / 8] == d)
  {
  }

  datatype Selectors = Selectors(es: Selector, cs: Selector, ss: Selector, ds: Selector, fs: Selector, gs: Selector)

  datatype General = General(eax: nat, ecx: nat, edx: nat, ebx: nat, esp: nat, ebp: nat, esi: nat, edi: nat)

  /** TSS_32 without the stacks of the inner levels. */
  datatype Tss = Tss(back: nat, cr3: nat, eip: nat, eflags: bv32, regs: General, segs: Selectors, ldt: Selector)

  /** All selectors load at the level of the code segment. */
  predicate AllLoad(gdt: seq<Descriptor>, ldt: seq<Descriptor>, segs: Selectors) {
    var cpl := segs.cs % 4;
    && CodeLoads(gdt, ldt, segs.cs) && StackLoads(gdt, ldt, cpl, segs.ss)
    && DataLoads(gdt, ldt, cpl, segs.es) && DataLoads(gdt, ldt, cpl, segs.ds)
    && DataLoads(gdt, ldt, cpl, segs.fs) && DataLoads(gdt, ldt, cpl, segs.gs)
  }

  /** LdtAfter, when the task brings an LDT of its own. */
  function HomeLdt(gdt: seq<Descriptor>, tables: map<nat, seq<Descriptor>>, current: seq<Descriptor>, home: Selector): seq<Descriptor> {
    if home == 0 then current else LdtAfter(gdt, tables, current, home)
  }

  /** The selectors of a task load whichever LDT the previous task used. */
  ghost predicate Settled(gdt: seq<Descriptor>, tables: map<nat, seq<Descriptor>>, home: Selector, segs: Selectors) {
    forall current {:trigger HomeLdt(gdt, tables, current, home)} :: AllLoad(gdt, HomeLdt(gdt, tables, current, home), segs)
  }

  // ---- the busy bit does not matter to segment loads ----

  /** The two tables differ in busy bits only. */
  ghost predicate BusyOnly(gdt: seq<Descriptor>, gdt': seq<Descriptor>) {
    && |gdt'| == |gdt|
    && (forall i :: 0 <= i < |gdt| ==> gdt'[i] == gdt[i] || (IsTss(gdt[i]) && IsTss(gdt'[i]) && gdt'[i] == gdt[i].(typ := gdt'[i].typ)))
  }

  lemma BusyOnlyLoads(gdt: seq<Descriptor>, gdt': seq<Descriptor>, ldt: seq<Descriptor>, segs: Selectors)
    requires BusyOnly(gdt, gdt')
    ensures AllLoad(gdt, ldt, segs) ==> AllLoad(gdt', ldt, segs)
  {
  }

  lemma BusyOnlyLdt(gdt: seq<Descriptor>, gdt': seq<Descriptor>, tables: map<nat, seq<Descriptor>>, ldt: seq<Descriptor>, home: Selector)
    requires BusyOnly(gdt, gdt')
    ensures HomeLdt(gdt, tables, ldt, home) == HomeLdt(gdt', tables, ldt, home)
  {
  }

  lemma StaysSettled(gdt: seq<Descriptor>, gdt': seq<Descriptor>, tables: map<nat, seq<Descriptor>>, home: Selector, segs: Selectors)
    requires BusyOnly(gdt, gdt') && Settled(gdt, tables, home, segs)
    ensures Settled(gdt', tables, home, segs)
  {
    forall current {:trigger HomeLdt(gdt', tables, current, home)}
      ensures AllLoad(gdt', HomeLdt(gdt', tables, current, home), segs)
    {
      BusyOnlyLdt(gdt, gdt', tables, current, home);
      BusyOnlyLoads(gdt, gdt', HomeLdt(gdt, tables, current, home), segs);
    }
  }
}
