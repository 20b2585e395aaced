/**
 Runs of nested tasks: whatever happens between a call and its return, the caller
 goes on where it was.
 */
module TaskRuns {
  import opened Descriptors
  import opened Tasks
  import opened TaskNesting

  /** The innermost caller is the task that the back link names, and it can be resumed. */
  lemma BeforeReturn(gdt: seq<Descriptor>, tables: map<nat, seq<Descriptor>>, tss: map<nat, Tss>, callers: seq<Caller>, tr: TaskRegister,
                     c: Context)
    requires Nesting(gdt, tables, tss, callers, tr.selector) && tr.desc == gdt[tr.selector / 8] && callers != []
    requires AllReady(gdt, tables, tss) && !Virtual86(c.flags) && Settled(gdt, tables, TssOf(gdt, tss, tr.selector).ldt, c.segs)
    ensures var s := callers[|callers| - 1].selector;
            s / 8 < |gdt| && gdt[s / 8].base in tss && MaySwitch(gdt, s, IRET) && s / 8 != tr.selector / 8
            && TssOf(gdt, tss, tr.selector).back % 0x1_0000 == s
    ensures var n := |callers| - 1;
            var s := callers[n].selector;
            var t := tss[gdt[s / 8].base];
            var gdt', tss' := SwitchedGdt(gdt, tr, s, IRET), SwitchedTss(tss, tr, gdt[s / 8].base, IRET, c);
            && Nesting(gdt', tables, tss', callers[..n], s) && AllReady(gdt', tables, tss')
            && BusyOnly(gdt, gdt') && SameHomes(tss, tss') && s / 8 < |gdt'|
            && TaskOk(gdt', tss', s) && TssOf(gdt', tss', s).ldt == t.ldt
            && Saved(t) == callers[n].context && Settled(gdt', tables, t.ldt, t.segs)
            && (Nested(t.eflags) <==> n > 0) && !Virtual86(t.eflags)
  {
    hide Settled, Virtual86, Nested, Distinct, BusyExactly, CallersOk, Chain, SetBusy;
    var n := |callers| - 1;
    var s := callers[n].selector;
    ReturnUnnests(gdt, tables, tss, callers, tr, c);
    OtherTask(gdt, tables, tss, callers, tr.selector, n);
    hide Nesting, AllReady, Ready;
    SwitchedStaysReady(gdt, SwitchedGdt(gdt, tr, s, IRET), tables, tss, tr, gdt[s / 8].base, IRET, c);
  }

  lemma EntersAgain(gdt: seq<Descriptor>, tables: map<nat, seq<Descriptor>>, t: Tss, ldt: seq<Descriptor>, flags: bv32, mask: bv32)
    requires Settled(gdt, tables, t.ldt, t.segs) && !Virtual86(t.eflags) && LoadsNested(mask)
    ensures AllLoad(gdt, HomeLdt(gdt, tables, ldt, t.ldt), t.segs) && CodeLoads(gdt, HomeLdt(gdt, tables, ldt, t.ldt), t.segs.cs)
    ensures var flags' := SetFlags(flags, t.eflags, mask);
            Nested(flags') == Nested(t.eflags) && !Virtual86(flags') && Under(flags', mask) == Under(t.eflags, mask) && SameFlags(flags', t.eflags)
  {
    hide Settled, AllLoad, CodeLoads, HomeLdt, Nested, Virtual86, SetFlags, SameFlags, LoadsNested;
    SettledLoads(gdt, tables, ldt, t.ldt, t.segs);
    SwitchSets(flags, t.eflags, mask);
  }

  /** The descriptor table after the running task `s` has returned. */
  function Idle(gdt: seq<Descriptor>, s: Selector): seq<Descriptor>
    requires s / 8 < |gdt|
  { gdt[s / 8 := SetBusy(gdt[s / 8], false)] }

  lemma IdleIs(gdt: seq<Descriptor>, tr: TaskRegister, s: Selector)
    requires tr.selector / 8 < |gdt| && tr.desc == gdt[tr.selector / 8] && s / 8 < |gdt|
    ensures SwitchedGdt(gdt, tr, s, IRET) == Idle(gdt, tr.selector)
  {
  }

  /** CPU_IRET in protected mode.  It returns to another task iff one waits (a return within the task, which pops its frame,
      is not carried out here); then the return cannot fail, and the caller has its instruction pointer, registers, selectors
      and loadable flags again. */
  method Iret(m: TaskMachine, oldEip: nat) returns (switched: bool)
    requires m.Valid()
    modifies m
    ensures switched <==> old(m.callers) != []
    ensures m.Valid() && BusyOnly(old(m.gdt), m.gdt) && SameHomes(old(m.tss), m.tss)
    ensures switched ==> old(m.tr).selector / 8 < |old(m.gdt)| && m.gdt == Idle(old(m.gdt), old(m.tr).selector)
    ensures switched ==> var c := old(m.callers)[|old(m.callers)| - 1];
                         && m.callers == old(m.callers)[..|old(m.callers)| - 1] && m.tr.selector == c.selector
                         && m.Running() == c.context.(flags := m.flags) && SameFlags(m.flags, c.context.flags)
                         && Under(m.flags, m.Mask()) == Under(c.context.flags, m.Mask())
    ensures !switched ==> m.callers == old(m.callers) && m.tr == old(m.tr)
  {
    hide Nesting, Settled, AllReady, Idle, SwitchedGdt, SwitchedTss, SetFlags, BusyOnly, Nested, Virtual86, AllLoad, CodeLoads,
      HomeLdt, ToggleOk,
      LoadsNested, TaskMachine.Mask, SameHomes, MaySwitch, SameFlags;
    switched := Nested(m.flags);
    if !switched {
      NothingSwitched(m.gdt, m.tss);
      return;
    }
    ghost var gdt, tss, tr, callers, c := m.gdt, m.tss, m.tr, m.callers, m.Running().(eip := oldEip);
    ghost var n := |callers| - 1;
    BeforeReturn(gdt, m.tables, tss, callers, tr, c);
    var backLink := m.tss[m.tr.desc.base].back % 0x1_0000;
    ghost var t, gdt' := tss[gdt[backLink / 8].base], SwitchedGdt(gdt, tr, backLink, IRET);
    IdleIs(gdt, tr, backLink);
    m.MaskLoads();
    EntersAgain(gdt', m.tables, t, m.ldt, m.flags, m.Mask());
    var ok := SwitchReady(m, backLink, IRET, oldEip, t, gdt', SetFlags(m.flags, t.eflags, m.Mask()));
    m.callers := callers[..n];
    AllHaveTss(m.gdt, m.tables, m.tss, m.callers, backLink);
  }

  lemma NothingSwitched(gdt: seq<Descriptor>, tss: map<nat, Tss>)
    ensures BusyOnly(gdt, gdt) && SameHomes(tss, tss)
  {
  }

  // ---- whole runs ----

  /** What a task does: it computes, or it calls another task that does something and returns. */
  datatype Script =
    | End
    | Work(eip: nat, flags: bv32, regs: General, segs: Selectors, rest: Script)
    | Call(newSel: Selector, callEip: nat, body: Script, retEip: nat, next: Script)

  /** A task loads selectors that work with its own LDT. */
  ghost predicate Honest(s: Script, gdt: seq<Descriptor>, tables: map<nat, seq<Descriptor>>, tss: map<nat, Tss>, home: Selector) {
    match s
    case End => true
    case Work(_, _, _, segs, rest) => Settled(gdt, tables, home, segs) && Honest(rest, gdt, tables, tss, home)
    case Call(newSel, _, body, _, next) =>
      && (newSel / 8 < |gdt| && gdt[newSel / 8].base in tss ==> Honest(body, gdt, tables, tss, tss[gdt[newSel / 8].base].ldt))
      && Honest(next, gdt, tables, tss, home)
  }

  lemma {:induction false} StaysHonest(s: Script, gdt: seq<Descriptor>, gdt': seq<Descriptor>, tables: map<nat, seq<Descriptor>>, tss: map<nat, Tss>,
                                       tss': map<nat, Tss>, home: Selector)
    requires Honest(s, gdt, tables, tss, home) && BusyOnly(gdt, gdt') && SameHomes(tss, tss')
    ensures Honest(s, gdt', tables, tss', home)
    decreases s
  {
    hide Settled;
    match s
    case End =>
    case Work(_, _, _, segs, rest) =>
      StaysSettled(gdt, gdt', tables, home, segs);
      StaysHonest(rest, gdt, gdt', tables, tss, tss', home);
    case Call(newSel, _, body, _, next) =>
      StaysHonest(next, gdt, gdt', tables, tss, tss', home);
      if newSel / 8 < |gdt| && gdt[newSel / 8].base in tss {
        StaysHonest(body, gdt, gdt', tables, tss, tss', tss[gdt[newSel / 8].base].ldt);
      }
  }

  lemma Through(gdt: seq<Descriptor>, gdt1: seq<Descriptor>, gdt2: seq<Descriptor>, tss: map<nat, Tss>, tss1: map<nat, Tss>, tss2: map<nat, Tss>)
    requires BusyOnly(gdt, gdt1) && BusyOnly(gdt1, gdt2) && SameHomes(tss, tss1) && SameHomes(tss1, tss2)
    ensures BusyOnly(gdt, gdt2) && SameHomes(tss, tss2)
  {
  }

  /** The home LDT of the current task. */
  ghost function Home(m: TaskMachine): Selector
    requires m.Tables()
    reads m
  { TssOf(m.gdt, m.tss, m.tr.selector).ldt }

  /** The flags after a computation: all of `w` but NT and VM, which stay. */
  function Worked(w: bv32, flags: bv32): bv32 { (w & 0xFFFD_BFFF) | (flags & 0x0002_4000) }

  lemma WorkBits(w: bv32, flags: bv32)
    ensures Nested(Worked(w, flags)) == Nested(flags) && Virtual86(Worked(w, flags)) == Virtual86(flags)
  {
    KeptBits(w, flags);
    hide Worked;
  }

  /** All bits but those of NT and VM come from the computation. */
  lemma WorkedElsewhere(w: bv32, flags: bv32)
    ensures Worked(w, flags) & 0xFFFD_BFFF == w & 0xFFFD_BFFF
  {
  }

  lemma KeptBits(w: bv32, flags: bv32)
    ensures Worked(w, flags) & 0x4000 == flags & 0x4000
    ensures Worked(w, flags) & 0x2_0000 == flags & 0x2_0000
  {
  }

  /** A script runs to its end iff each task that it calls is idle and can be entered at that time. */
  ghost predicate Succeeds(s: Script, gdt: seq<Descriptor>)
    decreases s
  {
    match s
    case End => true
    case Work(_, _, _, _, rest) => Succeeds(rest, gdt)
    case Call(newSel, _, body, _, next) => MaySwitch(gdt, newSel, CALL_INT) && Succeeds(body, Called(gdt, newSel)) && Succeeds(next, gdt)
  }

  /** The context that a script leaves: what its task computed last, and where it last called another task. */
  function Final(s: Script, c: Context): Context
    decreases s
  {
    match s
    case End => c
    case Work(eip, flags, regs, segs, rest) => Final(rest, Context(eip, Worked(flags, c.flags), regs, segs))
    case Call(_, callEip, _, _, next) => Final(next, c.(eip := callEip))
  }

  /** The same context as far as a task switch restores it. */
  predicate SameContext(c: Context, d: Context, mask: bv32) {
    c.eip == d.eip && c.regs == d.regs && c.segs == d.segs && Under(c.flags, mask) == Under(d.flags, mask)
  }

  lemma WorkedAlike(w: bv32, f: bv32, g: bv32, mask: bv32)
    requires Under(f, mask) == Under(g, mask)
    ensures Under(Worked(w, f), mask) == Under(Worked(w, g), mask)
  {
    WorkedMasked(w, f, mask);
    WorkedMasked(w, g, mask);
  }

  lemma WorkedMasked(w: bv32, f: bv32, mask: bv32)
    ensures Worked(w, f) & mask == ((w & 0xFFFD_BFFF) & mask) | ((f & mask) & 0x0002_4000)
  {
  }

  lemma StepAlike(s: Script, c: Context, d: Context, mask: bv32)
    requires SameContext(c, d, mask)
    ensures s.Work? ==> SameContext(Context(s.eip, Worked(s.flags, c.flags), s.regs, s.segs),
                                    Context(s.eip, Worked(s.flags, d.flags), s.regs, s.segs), mask)
    ensures s.Call? ==> SameContext(c.(eip := s.callEip), d.(eip := s.callEip), mask)
  {
    hide Worked, Under;
    if s.Work? {
      WorkedAlike(s.flags, c.flags, d.flags, mask);
    }
  }

  lemma {:induction false} FinalAlike(s: Script, c: Context, d: Context, mask: bv32)
    requires SameContext(c, d, mask)
    ensures SameContext(Final(s, c), Final(s, d), mask)
    decreases s
  {
    StepAlike(s, c, d, mask);
    hide Worked, SameContext;
    match s
    case End =>
    case Work(eip, flags, regs, segs, rest) =>
      FinalAlike(rest, Context(eip, Worked(flags, c.flags), regs, segs), Context(eip, Worked(flags, d.flags), regs, segs), mask);
    case Call(_, callEip, _, _, next) =>
      FinalAlike(next, c.(eip := callEip), d.(eip := callEip), mask);
  }

  lemma SameTwice(c: Context, d: Context, e: Context, mask: bv32)
    requires SameContext(c, d, mask) && SameContext(d, e, mask)
    ensures SameContext(c, e, mask)
  {
  }

  lemma UnderTells(m: TaskMachine, f: bv32, g: bv32)
    requires Under(f, m.Mask()) == Under(g, m.Mask())
    ensures SameFlags(f, g)
  {
    hide SameFlags, TaskMachine.Mask;
    m.Tells(f, g);
  }

  lemma ContextTells(m: TaskMachine, c: Context, d: Context)
    requires SameContext(c, d, m.Mask())
    ensures SameFlags(c.flags, d.flags)
  {
    hide SameFlags, TaskMachine.Mask;
    UnderTells(m, c.flags, d.flags);
  }

  lemma BackAgain(gdt: seq<Descriptor>, s: Selector)
    requires MaySwitch(gdt, s, CALL_INT)
    ensures s / 8 < |Called(gdt, s)| && Idle(Called(gdt, s), s) == gdt
  {
    BusyBit(gdt[s / 8], true);
  }

  /** A stretch of computation: everything may change but NT and VM. */
  method Compute(m: TaskMachine, eip: nat, flags: bv32, regs: General, segs: Selectors)
    requires m.Valid() && Settled(m.gdt, m.tables, Home(m), segs)
    modifies m`eip, m`flags, m`regs, m`segs
    ensures m.Valid() && m.Running() == Context(eip, Worked(flags, old(m.flags)), regs, segs)
  {
    hide Nesting, Settled, AllReady, Nested, Virtual86, ToggleOk, Worked;
    WorkBits(flags, m.flags);
    m.eip := eip;
    m.flags := Worked(flags, m.flags);
    m.regs := regs;
    m.segs := segs;
  }

  /** A call, everything that the called task does, however deep it nests further, and its return: the caller finds its
      registers, selectors, instruction pointer and loadable flags as they were.  `ok` is false iff a call on the way fails. */
  method Interlude(m: TaskMachine, newSel: Selector, callEip: nat, body: Script, retEip: nat) returns (ok: bool)
    requires m.Valid()
    requires MaySwitch(m.gdt, newSel, CALL_INT) && m.gdt[newSel / 8].base in m.tss ==>
               Honest(body, m.gdt, m.tables, m.tss, m.tss[m.gdt[newSel / 8].base].ldt)
    modifies m
    ensures ok <==> MaySwitch(old(m.gdt), newSel, CALL_INT) && Succeeds(body, Called(old(m.gdt), newSel))
    ensures ok ==> m.gdt == old(m.gdt)
    ensures ok ==> m.Valid() && m.callers == old(m.callers) && m.tr.selector == old(m.tr).selector
    ensures ok ==> m.Running() == old(m.Running()).(eip := callEip, flags := m.flags) && SameFlags(m.flags, old(m.flags))
    ensures ok ==> Under(m.flags, m.Mask()) == Under(old(m.flags), m.Mask())
    ensures ok ==> BusyOnly(old(m.gdt), m.gdt) && SameHomes(old(m.tss), m.tss)
    decreases body, 1
  {
    hide Nesting, Settled, AllReady, BusyOnly, Nested, Virtual86, ToggleOk, TaskMachine.Mask, SameHomes, Honest, Called, Idle,
      Succeeds, Final, SameFlags;
    ghost var gdt, tss, callers := m.gdt, m.tss, m.callers;
    ok := CallTask(m, newSel, callEip);
    if !ok {
      return;
    }
    ghost var gdt1, tss1 := m.gdt, m.tss;
    CalledHome(gdt, gdt1, tss, tss1, newSel);
    StaysHonest(body, gdt, gdt1, m.tables, tss, tss1, Home(m));
    ok := Perform(m, body);
    if !ok {
      return;
    }
    ghost var gdt2, tss2 := m.gdt, m.tss;
    Through(gdt, gdt1, gdt2, tss, tss1, tss2);
    ok := Iret(m, retEip);
    Through(gdt, gdt2, m.gdt, tss, tss2, m.tss);
    assert m.callers == callers;
    BackAgain(gdt, newSel);
  }

  lemma CalledHome(gdt: seq<Descriptor>, gdt': seq<Descriptor>, tss: map<nat, Tss>, tss': map<nat, Tss>, s: Selector)
    requires BusyOnly(gdt, gdt') && SameHomes(tss, tss') && TaskOk(gdt', tss', s)
    ensures s / 8 < |gdt| && gdt[s / 8].base in tss && TssOf(gdt', tss', s).ldt == tss[gdt[s / 8].base].ldt
  {
  }

  /** A script runs to its end iff all its calls succeed; then the same callers wait, the same task runs, in the context that
      the script tells. */
  method Perform(m: TaskMachine, s: Script) returns (ok: bool)
    requires m.Valid() && Honest(s, m.gdt, m.tables, m.tss, Home(m))
    modifies m
    ensures ok <==> Succeeds(s, old(m.gdt))
    ensures ok ==> m.Valid() && m.callers == old(m.callers) && m.tr.selector == old(m.tr).selector && m.gdt == old(m.gdt)
    ensures ok ==> BusyOnly(old(m.gdt), m.gdt) && SameHomes(old(m.tss), m.tss)
    ensures ok ==> SameContext(m.Running(), Final(s, old(m.Running())), m.Mask())
    ensures ok ==> SameFlags(m.Running().flags, Final(s, old(m.Running())).flags)
    decreases s, 0
  {
    hide Nesting, Settled, AllReady, BusyOnly, Nested, Virtual86, ToggleOk, TaskMachine.Mask, SameHomes, Worked, Called, SameFlags;
    ok := true;
    ghost var gdt, tss, c := m.gdt, m.tss, m.Running();
    NothingSwitched(gdt, tss);
    match s {
    case End =>
    case Work(eip, flags, regs, segs, rest) =>
      Compute(m, eip, flags, regs, segs);
      ok := Perform(m, rest);
    case Call(newSel, callEip, body, retEip, next) =>
      ok := Interlude(m, newSel, callEip, body, retEip);
      if ok {
        CalledHome(gdt, m.gdt, tss, m.tss, m.tr.selector);
        StaysHonest(next, gdt, m.gdt, m.tables, tss, m.tss, Home(m));
        ghost var gdt1, tss1, c1 := m.gdt, m.tss, m.Running();
        FinalAlike(next, c1, c.(eip := callEip), m.Mask());
        ok := Perform(m, next);
        if ok {
          Through(gdt, gdt1, m.gdt, tss, tss1, m.tss);
          SameTwice(m.Running(), Final(next, c1), Final(next, c.(eip := callEip)), m.Mask());
        }
      }
    }
    if ok {
      ContextTells(m, m.Running(), Final(s, c));
    }
  }
}
