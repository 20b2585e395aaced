/**
 Task switches (src/cpu/cpu.cpp, cpu_switch_task and TaskStateSegment).
 */
module Tasks {
  import opened Descriptors

  datatype SwitchType = CALL_INT | IRET

  /** cpu_tss: the task register with its copy of the descriptor. */
  datatype TaskRegister = TaskRegister(desc: Descriptor, selector: Selector)

  /** What belongs to a task while it runs. */
  datatype Context = Context(eip: nat, flags: bv32, regs: General, segs: Selectors)

  /** A task that waits for another one to return to it. */
  datatype Caller = Caller(selector: Selector, context: Context)

  /** TaskStateSegment::SetSelector accepts the selector (other than a null selector, which callers exclude). */
  predicate TssLoads(gdt: seq<Descriptor>, s: Selector) {
    !IsNull(s) && !InLdt(s) && s / 8 < |gdt| && IsTss(gdt[s / 8]) && gdt[s / 8].p
  }

  /** The switch gets past the checks that precede the first change of state. */
  predicate MaySwitch(gdt: seq<Descriptor>, s: Selector, kind: SwitchType) {
    TssLoads(gdt, s) && (Busy(gdt[s / 8]) <==> kind.IRET?) && Is386(gdt[s / 8])
  }

  /** A task can be called if its descriptor is that of an available 386 TSS in the GDT, and returned to if of a busy one. */
  lemma MaySwitchMeans(gdt: seq<Descriptor>, s: Selector, kind: SwitchType)
    ensures MaySwitch(gdt, s, kind) <==>
              && s >= 4 && s % 8 < 4 && s / 8 < |gdt| && gdt[s / 8].p
              && gdt[s / 8].typ == match kind case CALL_INT => 9 case IRET => 11
  {
  }

  /** Descriptor `i` of a task, with its TSS in memory. */
  predicate TaskOk(gdt: seq<Descriptor>, tss: map<nat, Tss>, s: Selector) {
    TssLoads(gdt, s) && Is386(gdt[s / 8]) && gdt[s / 8].base in tss
  }

  function TssOf(gdt: seq<Descriptor>, tss: map<nat, Tss>, s: Selector): Tss
    requires TaskOk(gdt, tss, s)
  { tss[gdt[s / 8].base] }

  /** Different task state segments do not overlap. */
  ghost predicate Disjoint(gdt: seq<Descriptor>) {
    forall i, j :: 0 <= i < j < |gdt| && IsTss(gdt[i]) && IsTss(gdt[j]) ==> gdt[i].base != gdt[j].base
  }

  /** The selectors of the suspended tasks, outermost first, and of the running one. */
  ghost function Chain(callers: seq<Caller>, current: Selector): (s: seq<nat>)
    ensures |s| == |callers| + 1
  { seq(|callers| + 1, i requires 0 <= i <= |callers| => (if i < |callers| then callers[i].selector else current) / 8) }

  ghost predicate Distinct(s: seq<nat>) { forall i, j :: 0 <= i < j < |s| ==> s[i] != s[j] }

  /** Exactly the tasks of the chain are busy. */
  ghost predicate BusyExactly(gdt: seq<Descriptor>, chain: seq<nat>) {
    forall i :: 0 <= i < |gdt| && IsTss(gdt[i]) ==> (Busy(gdt[i]) <==> i in chain)
  }

  predicate Nested(flags: bv32) { flags & FLAG_NT != 0 }

  predicate Virtual86(flags: bv32) { flags & FLAG_VM != 0 }

  /** The back link of the task `s` leads to caller number `k`; the outermost task has none that counts. */
  predicate BackLink(gdt: seq<Descriptor>, tss: map<nat, Tss>, callers: seq<Caller>, k: nat, s: Selector)
    requires k <= |callers|
  {
    TaskOk(gdt, tss, s) && (k > 0 ==> TssOf(gdt, tss, s).back % 0x1_0000 == callers[k - 1].selector)
  }

  function Saved(t: Tss): Context { Context(t.eip, t.eflags, t.regs, t.segs) }

  /** Caller number `k` is saved in its TSS and can be resumed. */
  ghost predicate CallerOk(gdt: seq<Descriptor>, tables: map<nat, seq<Descriptor>>, tss: map<nat, Tss>, callers: seq<Caller>, k: nat)
    requires k < |callers|
  {
    var c := callers[k];
    && BackLink(gdt, tss, callers, k, c.selector)
    && Saved(TssOf(gdt, tss, c.selector)) == c.context
    && (Nested(c.context.flags) <==> k > 0) && !Virtual86(c.context.flags)
    && Settled(gdt, tables, TssOf(gdt, tss, c.selector).ldt, c.context.segs)
  }

  ghost predicate CallersOk(gdt: seq<Descriptor>, tables: map<nat, seq<Descriptor>>, tss: map<nat, Tss>, callers: seq<Caller>) {
    forall k {:trigger CallerOk(gdt, tables, tss, callers, k)} :: 0 <= k < |callers| ==> CallerOk(gdt, tables, tss, callers, k)
  }

  /** The nesting of tasks as a property of the tables. */
  ghost predicate Nesting(gdt: seq<Descriptor>, tables: map<nat, seq<Descriptor>>, tss: map<nat, Tss>, callers: seq<Caller>, current: Selector)
  {
    && TaskOk(gdt, tss, current) && Disjoint(gdt)
    && (forall i :: 0 <= i < |gdt| && IsTss(gdt[i]) ==> gdt[i].base in tss)
    && Distinct(Chain(callers, current)) && BusyExactly(gdt, Chain(callers, current))
    && CallersOk(gdt, tables, tss, callers)
    && BackLink(gdt, tss, callers, |callers|, current)
  }

  /** The context that the TSS number `i` holds can be taken up. */
  ghost predicate Ready(gdt: seq<Descriptor>, tables: map<nat, seq<Descriptor>>, tss: map<nat, Tss>, i: nat)
    requires i < |gdt|
  {
    gdt[i].base in tss && !Virtual86(tss[gdt[i].base].eflags)
    && Settled(gdt, tables, tss[gdt[i].base].ldt, tss[gdt[i].base].segs)
  }

  ghost predicate AllReady(gdt: seq<Descriptor>, tables: map<nat, seq<Descriptor>>, tss: map<nat, Tss>) {
    forall i {:trigger Ready(gdt, tables, tss, i)} :: 0 <= i < |gdt| && IsTss(gdt[i]) ==> Ready(gdt, tables, tss, i)
  }

  /** cpu_extflags_toggle is nothing, AC, or AC and ID. */
  predicate ToggleOk(toggle: bv32) { toggle == 0 || toggle == 0x0004_0000 || toggle == 0x0024_0000 }

  /** The mask holds all flags that programs see, NT among them, and VM. */
  predicate LoadsNested(mask: bv32) {
    mask & 2 == 0 && mask & FLAG_NT == FLAG_NT && mask & FLAG_VM == FLAG_VM && mask & 0x7FD5 == 0x7FD5
  }

  /** The flags that programs see are the same in both words: CF, PF, AF, ZF, SF, TF, IF, DF, OF, IOPL and NT. */
  predicate SameFlags(f: bv32, g: bv32) {
    && f & 0x0001 == g & 0x0001 && f & 0x0004 == g & 0x0004 && f & 0x0010 == g & 0x0010 && f & 0x0040 == g & 0x0040
    && f & 0x0080 == g & 0x0080 && f & 0x0100 == g & 0x0100 && f & 0x0200 == g & 0x0200 && f & 0x0400 == g & 0x0400
    && f & 0x0800 == g & 0x0800 && f & 0x3000 == g & 0x3000 && f & 0x4000 == g & 0x4000
  }

  lemma OneOf(f: bv32, g: bv32, toggle: bv32, b: bv32)
    requires f & (FMASK_ALL | FLAG_VM | toggle) == g & (FMASK_ALL | FLAG_VM | toggle) && (FMASK_ALL | FLAG_VM) & b == b
    ensures f & b == g & b
  {
    MaskedPart(f, g, FMASK_ALL | FLAG_VM | toggle, b);
  }

  lemma MaskedPart(f: bv32, g: bv32, mask: bv32, b: bv32)
    requires f & mask == g & mask && mask & b == b
    ensures f & b == g & b
  {
    Regrouped(f, mask, b);
    Regrouped(g, mask, b);
  }

  lemma Regrouped(x: bv32, y: bv32, z: bv32)
    ensures (x & y) & z == x & (y & z)
  {
  }

  /** A task switch loads all of them, whatever else it loads. */
  lemma MaskTells(f: bv32, g: bv32, toggle: bv32)
    requires f & (FMASK_ALL | FLAG_VM | toggle) == g & (FMASK_ALL | FLAG_VM | toggle)
    ensures SameFlags(f, g)
  {
    OneOf(f, g, toggle, 0x0001);
    OneOf(f, g, toggle, 0x0004);
    OneOf(f, g, toggle, 0x0010);
    OneOf(f, g, toggle, 0x0040);
    OneOf(f, g, toggle, 0x0080);
    OneOf(f, g, toggle, 0x0100);
    OneOf(f, g, toggle, 0x0200);
    OneOf(f, g, toggle, 0x0400);
    OneOf(f, g, toggle, 0x0800);
    OneOf(f, g, toggle, 0x3000);
    OneOf(f, g, toggle, 0x4000);
  }

  lemma MaskBits(toggle: bv32)
    requires ToggleOk(toggle)
    ensures LoadsNested(FMASK_ALL | FLAG_VM | toggle)
  {
  }

  /** The flags that a called task starts with. */
  function Linked(flags: bv32): bv32 { flags | FLAG_NT }

  function Under(flags: bv32, mask: bv32): bv32 { flags & mask }

  /** CPU_SetFlags */
  function SetFlags(flags: bv32, word: bv32, mask: bv32): bv32 { (flags & !mask) | (word & mask) | 2 }

  /** Whatever was in the flags before, those that programs see come from the new word. */
  lemma SwitchLoads(flags: bv32, word: bv32, mask: bv32)
    requires LoadsNested(mask)
    ensures SameFlags(SetFlags(flags, word, mask), word)
  {
    Loaded(flags, word, mask, 0x0001);
    Loaded(flags, word, mask, 0x0004);
    Loaded(flags, word, mask, 0x0010);
    Loaded(flags, word, mask, 0x0040);
    Loaded(flags, word, mask, 0x0080);
    Loaded(flags, word, mask, 0x0100);
    Loaded(flags, word, mask, 0x0200);
    Loaded(flags, word, mask, 0x0400);
    Loaded(flags, word, mask, 0x0800);
    Loaded(flags, word, mask, 0x3000);
    Loaded(flags, word, mask, 0x4000);
  }

  lemma Loaded(flags: bv32, word: bv32, mask: bv32, b: bv32)
    requires mask & 0x7FD5 == 0x7FD5 && 0x7FD5 & b == b
    ensures SetFlags(flags, word, mask) & b == word & b
  {
    Regrouped(mask, 0x7FD5, b);
    LoadedBit(flags, word, mask, b);
  }

  lemma LoadedBit(flags: bv32, word: bv32, mask: bv32, b: bv32)
    requires mask & b == b && b & 2 == 0
    ensures SetFlags(flags, word, mask) & b == word & b
  {
  }

  /** The masked bits are those of the new word, the others stay. */
  lemma SetFlagsMasked(flags: bv32, word: bv32, mask: bv32)
    requires mask & 2 == 0
    ensures SetFlags(flags, word, mask) & mask == word & mask
    ensures mask & FLAG_NT == FLAG_NT ==> Nested(SetFlags(flags, word, mask)) == Nested(word)
    ensures mask & FLAG_VM == FLAG_VM ==> Virtual86(SetFlags(flags, word, mask)) == Virtual86(word)
  {
  }

  /** A called task starts with NT, and with its own flags else. */
  lemma LinkedAddsNested(flags: bv32)
    ensures Linked(flags) & 0x4000 == 0x4000 && Linked(flags) & 0xFFFF_BFFF == flags & 0xFFFF_BFFF
  {
  }

  /** What a task switch makes of the flags. */
  lemma SwitchSets(flags: bv32, word: bv32, mask: bv32)
    requires LoadsNested(mask)
    ensures var f := SetFlags(flags, word, mask);
            Under(f, mask) == Under(word, mask) && Nested(f) == Nested(word) && Virtual86(f) == Virtual86(word) && SameFlags(f, word)
  {
    hide SetFlags, Nested, Virtual86, SameFlags;
    SetFlagsMasked(flags, word, mask);
    SwitchLoads(flags, word, mask);
  }

  lemma SetNested(flags: bv32)
    ensures Nested(Linked(flags)) && Virtual86(Linked(flags)) == Virtual86(flags)
  {
    assert (flags | 0x4000) & 0x4000 == 0x4000;
    assert (flags | 0x4000) & 0x2_0000 == flags & 0x2_0000;
  }

  lemma ClearNested(flags: bv32)
    ensures !Nested(flags & !FLAG_NT) && Virtual86(flags & !FLAG_NT) == Virtual86(flags)
  {
    assert (flags & !0x4000) & 0x4000 == 0;
    assert (flags & !0x4000) & 0x2_0000 == flags & 0x2_0000;
  }

  class TaskMachine {
    var gdt: seq<Descriptor>
    var ldt: seq<Descriptor>
    // the contents of the LDTs and of the task state segments, by base address
    const tables: map<nat, seq<Descriptor>>
    var tss: map<nat, Tss>
    var tr: TaskRegister
    var eip: nat
    var flags: bv32
    var regs: General
    var segs: Selectors
    var cr3: nat
    // cpu_extflags_toggle
    const toggle: bv32
    ghost var callers: seq<Caller>

    /** CPU_LTR when no task is busy yet: the running task becomes the outermost one. */
    constructor (gdt: seq<Descriptor>, tables: map<nat, seq<Descriptor>>, tss: map<nat, Tss>, s: Selector, context: Context, toggle: bv32)
      requires TaskOk(gdt, tss, s) && Disjoint(gdt) && ToggleOk(toggle) && AllReady(gdt, tables, tss)
      requires forall i :: 0 <= i < |gdt| && IsTss(gdt[i]) ==> gdt[i].base in tss && !Busy(gdt[i])
      requires !Nested(context.flags) && !Virtual86(context.flags) && Settled(gdt, tables, TssOf(gdt, tss, s).ldt, context.segs)
      ensures Valid() && callers == [] && Running() == context && tr.selector == s
      ensures this.gdt == gdt[s / 8 := SetBusy(gdt[s / 8], true)] && this.tss == tss
    {
      FirstTask(gdt, tables, tss, s, context.segs);
      this.gdt, this.tables, this.tss, this.toggle := gdt[s / 8 := SetBusy(gdt[s / 8], true)], tables, tss, toggle;
      ldt, cr3, callers := [], 0, [];
      tr := TaskRegister(SetBusy(gdt[s / 8], true), s);
      eip, flags, regs, segs := context.eip, context.flags, context.regs, context.segs;
      new;
      hide Settled, Nested, Virtual86;
    }

    /** The tables and the task register alone. */
    ghost predicate Tables()
      reads this
    {
      && TaskOk(gdt, tss, tr.selector) && tr.desc == gdt[tr.selector / 8]
      && (forall i :: 0 <= i < |gdt| && IsTss(gdt[i]) ==> gdt[i].base in tss)
      && ToggleOk(toggle)
    }

    /** The running task and the tasks that wait for it to return. */
    ghost predicate Valid()
      reads this
    {
      && Tables() && Nesting(gdt, tables, tss, callers, tr.selector) && AllReady(gdt, tables, tss)
      && (Nested(flags) <==> |callers| > 0) && !Virtual86(flags)
      && Settled(gdt, tables, TssOf(gdt, tss, tr.selector).ldt, segs)
    }

    function Running(): Context
      reads this
    { Context(eip, flags, regs, segs) }

    /** The mask of the flags that a task switch loads. */
    function Mask(): bv32 { FMASK_ALL | FLAG_VM | toggle }

    lemma Tells(f: bv32, g: bv32)
      requires Under(f, Mask()) == Under(g, Mask())
      ensures SameFlags(f, g)
    {
      MaskTells(f, g, toggle);
    }

    lemma MaskLoads()
      requires ToggleOk(toggle)
      ensures LoadsNested(Mask())
    {
      MaskBits(toggle);
    }

    /** cpu_tss.desc.SetBusy(false); cpu_tss.SaveSelector() */
    method ReleaseOld()
      requires tr.selector / 8 < |gdt|
      modifies this`gdt, this`tr
      ensures tr == old(tr).(desc := SetBusy(old(tr).desc, false))
      ensures gdt == old(gdt)[tr.selector / 8 := tr.desc]
    {
      tr := tr.(desc := SetBusy(tr.desc, false));
      gdt := gdt[tr.selector / 8 := tr.desc];
    }

    /** Save the current context in the current TSS. */
    method SaveContext(oldEip: nat, oldFlags: bv32)
      requires tr.desc.base in tss
      modifies this`tss
      ensures tss == old(tss)[tr.desc.base := old(tss)[tr.desc.base].(eflags := oldFlags, eip := oldEip, regs := regs, segs := segs)]
    {
      var t := tss[tr.desc.base];
      t := t.(eflags := oldFlags);
      t := t.(eip := oldEip);
      t := t.(regs := regs);
      t := t.(segs := segs);
      tss := tss[tr.desc.base := t];
    }

    /** CPU_SetFlags(word, FMASK_ALL | FLAG_VM) and the general registers */
    method LoadContext(t: Tss, newFlags: bv32)
      modifies this`cr3, this`eip, this`flags, this`regs
      ensures cr3 == t.cr3 && eip == t.eip && regs == t.regs && flags == SetFlags(old(flags), newFlags, Mask())
    {
      cr3 := t.cr3;
      eip := t.eip;
      flags := SetFlags(flags, newFlags, Mask());
      regs := t.regs;
    }

    /** CPU_SetSegGeneral for SS: a selector that does not load leaves the register as it was. */
    method SetStack(cpl: nat, v: Selector)
      modifies this`segs
      ensures segs == old(segs).(ss := segs.ss)
      ensures segs.ss == if Virtual86(flags) || StackLoads(gdt, ldt, cpl, v) then v else old(segs).ss
    {
      if Virtual86(flags) || StackLoads(gdt, ldt, cpl, v) {
        segs := segs.(ss := v);
      }
    }

    /** The selectors of the new task, code segment first; `ok` is false where the program gives up with E_Exit. */
    method LoadSelectors(target: Selectors, newLdt: Selector) returns (ok: bool)
      modifies this`segs, this`ldt
      ensures ldt == if Virtual86(flags) then old(ldt) else HomeLdt(gdt, tables, old(ldt), newLdt)
      ensures ok <==> Virtual86(flags) || CodeLoads(gdt, ldt, target.cs)
      ensures ok && (Virtual86(flags) || AllLoad(gdt, ldt, target)) ==> segs == target
    {
      hide StackLoads, DataLoads, CodeLoads, LdtAfter, Virtual86;
      var cpl := 3;
      var real86 := Virtual86(flags);
      if !real86 {
        if newLdt != 0 {
          ldt := LdtAfter(gdt, tables, ldt, newLdt);
        }
        cpl := target.cs % 4;
        if !CodeLoads(gdt, ldt, target.cs) {
          return false;
        }
      }
      segs := segs.(cs := target.cs);
      if real86 || DataLoads(gdt, ldt, cpl, target.es) {
        segs := segs.(es := target.es);
      }
      SetStack(cpl, target.ss);
      if real86 || DataLoads(gdt, ldt, cpl, target.ds) {
        segs := segs.(ds := target.ds);
      }
      if real86 || DataLoads(gdt, ldt, cpl, target.fs) {
        segs := segs.(fs := target.fs);
      }
      if real86 || DataLoads(gdt, ldt, cpl, target.gs) {
        segs := segs.(gs := target.gs);
      }
      ok := true;
    }

    /** The part of cpu_switch_task that leaves the old task. */
    method HandOver(newSel: Selector, desc: Descriptor, kind: SwitchType, oldEip: nat)
      requires tr.selector / 8 < |gdt| && newSel / 8 < |gdt| && desc == gdt[newSel / 8]
      requires tr.desc.base in tss && desc.base in tss
      modifies this`gdt, this`tss, this`tr
      ensures gdt == SwitchedGdt(old(gdt), old(tr), newSel, kind) && tr.selector == old(tr).selector
      ensures tss == SwitchedTss(old(tss), old(tr), desc.base, kind, old(Running()).(eip := oldEip))
    {
      hide SetBusy;
      ghost var base := tr.desc.base;
      if kind.IRET? {
        ReleaseOld();
        SameBase(old(tr).desc, false);
      }
      SaveContext(oldEip, if kind.IRET? then flags & !FLAG_NT else flags);
      if kind.CALL_INT? {
        tss := tss[desc.base := tss[desc.base].(back := tr.selector)];
        gdt := gdt[newSel / 8 := SetBusy(desc, true)];
      }
    }

    /** The part of cpu_switch_task that takes up the new one. */
    method Enter(newSel: Selector, t: Tss, newFlags: bv32, oldEip: nat) returns (ok: bool)
      requires TssLoads(gdt, newSel)
      modifies this`ldt, this`tr, this`eip, this`flags, this`regs, this`segs, this`cr3
      ensures newSel != old(tr).selector ==>
                && flags == SetFlags(old(flags), newFlags, Mask())
                && eip == t.eip && regs == t.regs && cr3 == t.cr3
                && (!Virtual86(flags) ==> ldt == HomeLdt(gdt, tables, old(ldt), t.ldt))
                && (ok <==> Virtual86(flags) || CodeLoads(gdt, ldt, t.segs.cs))
                && (ok && (Virtual86(flags) || AllLoad(gdt, ldt, t.segs)) ==> segs == t.segs)
      ensures ok ==> tr == TaskRegister(gdt[newSel / 8], newSel)
    {
      hide CodeLoads, LdtAfter, HomeLdt, Virtual86, AllLoad, SetFlags, SameFlags;
      var newSegs := t.segs;
      if newSel == tr.selector {
        eip := oldEip;
        newSegs := segs;
      } else {
        LoadContext(t, newFlags);
      }
      ok := LoadSelectors(newSegs, t.ldt);
      if ok && TssLoads(gdt, newSel) {
        tr := TaskRegister(gdt[newSel / 8], newSel);
      }
    }

    /** cpu_switch_task; `ok` is false where the program gives up with E_Exit. */
    method SwitchTask(newSel: Selector, kind: SwitchType, oldEip: nat) returns (ok: bool)
      requires Tables()
      modifies this`gdt, this`ldt, this`tss, this`tr, this`eip, this`flags, this`regs, this`segs, this`cr3
      ensures ok ==> MaySwitch(old(gdt), newSel, kind)
      ensures MaySwitch(old(gdt), newSel, kind) && newSel / 8 != old(tr).selector / 8 ==>
                var t := old(tss)[old(gdt)[newSel / 8].base];
                && flags == SetFlags(old(flags), if kind.IRET? then t.eflags else Linked(t.eflags), Mask())
                && eip == t.eip && regs == t.regs && cr3 == t.cr3
                && gdt == SwitchedGdt(old(gdt), old(tr), newSel, kind)
                && tss == SwitchedTss(old(tss), old(tr), old(gdt)[newSel / 8].base, kind, old(Running()).(eip := oldEip))
                && (!Virtual86(flags) ==> ldt == HomeLdt(gdt, tables, old(ldt), t.ldt))
                && (ok <==> Virtual86(flags) || CodeLoads(gdt, ldt, t.segs.cs))
                && (ok && (Virtual86(flags) || AllLoad(gdt, ldt, t.segs)) ==> segs == t.segs)
                && (ok ==> tr == TaskRegister(gdt[newSel / 8], newSel))
    {
      hide Disjoint, CodeLoads, LdtAfter, HomeLdt, Virtual86, AllLoad, SetFlags, SwitchedGdt, SwitchedTss, SameFlags;
      if !TssLoads(gdt, newSel) {
        return false;
      }
      var desc := gdt[newSel / 8];
      if kind.IRET? {
        if !Busy(desc) {
          return false;
        }
      } else {
        if Busy(desc) {
          return false;
        }
      }
      if !Is386(desc) {
        return false;
      }
      var t := tss[desc.base];
      StillLoads(gdt, tr, newSel, kind);
      HandOver(newSel, desc, kind, oldEip);
      ok := Enter(newSel, t, if kind.CALL_INT? then Linked(t.eflags) else t.eflags, oldEip);
    }
  }

  /** The descriptor table after a switch: the busy bit of the old task is given back or that of the new one is taken. */
  function SwitchedGdt(gdt: seq<Descriptor>, tr: TaskRegister, newSel: Selector, kind: SwitchType): seq<Descriptor>
    requires tr.selector / 8 < |gdt| && newSel / 8 < |gdt|
  {
    if kind.IRET? then gdt[tr.selector / 8 := SetBusy(tr.desc, false)] else gdt[newSel / 8 := SetBusy(gdt[newSel / 8], true)]
  }

  /** The task state segments after a switch: the context of the old task is saved, and a call sets the back link. */
  function SwitchedTss(tss: map<nat, Tss>, tr: TaskRegister, newBase: nat, kind: SwitchType, leaving: Context): map<nat, Tss>
    requires tr.desc.base in tss && newBase in tss
  {
    var flags := if kind.IRET? then leaving.flags & !FLAG_NT else leaving.flags;
    var saved := tss[tr.desc.base := tss[tr.desc.base].(eflags := flags, eip := leaving.eip, regs := leaving.regs, segs := leaving.segs)];
    if kind.IRET? then saved else saved[newBase := saved[newBase].(back := tr.selector)]
  }

  lemma SameBase(d: Descriptor, busy: bool)
    ensures SetBusy(d, busy).base == d.base && SetBusy(d, busy).p == d.p
  {
  }

  lemma StillLoads(gdt: seq<Descriptor>, tr: TaskRegister, newSel: Selector, kind: SwitchType)
    requires tr.selector / 8 < |gdt| && TssLoads(gdt, newSel) && tr.desc == gdt[tr.selector / 8]
    ensures TssLoads(SwitchedGdt(gdt, tr, newSel, kind), newSel)
  {
    BusyBit(gdt[newSel / 8], kind.CALL_INT?);
  }

  lemma FirstTask(gdt: seq<Descriptor>, tables: map<nat, seq<Descriptor>>, tss: map<nat, Tss>, s: Selector, segs: Selectors)
    requires TaskOk(gdt, tss, s) && Disjoint(gdt) && AllReady(gdt, tables, tss)
    requires forall i :: 0 <= i < |gdt| && IsTss(gdt[i]) ==> gdt[i].base in tss && !Busy(gdt[i])
    requires Settled(gdt, tables, TssOf(gdt, tss, s).ldt, segs)
    ensures var gdt' := gdt[s / 8 := SetBusy(gdt[s / 8], true)];
            && Nesting(gdt', tables, tss, [], s) && AllReady(gdt', tables, tss) && TaskOk(gdt', tss, s)
            && Settled(gdt', tables, TssOf(gdt', tss, s).ldt, segs)
            && (forall i :: 0 <= i < |gdt'| && IsTss(gdt'[i]) ==> gdt'[i].base in tss)
  {
    hide Settled, Virtual86, Nested;
    var gdt' := gdt[s / 8 := SetBusy(gdt[s / 8], true)];
    BusyBit(gdt[s / 8], true);
    assert BusyOnly(gdt, gdt');
    StaysSettled(gdt, gdt', tables, TssOf(gdt, tss, s).ldt, segs);
    forall i {:trigger Ready(gdt', tables, tss, i)} | 0 <= i < |gdt'| && IsTss(gdt'[i]) ensures Ready(gdt', tables, tss, i) {
      assert Ready(gdt, tables, tss, i);
      StaysSettled(gdt, gdt', tables, tss[gdt[i].base].ldt, tss[gdt[i].base].segs);
    }
    assert Chain([], s) == [s / 8];
  }
}
