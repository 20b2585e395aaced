/**
 The chain of nested tasks: what a call and a return do to it.
 */
module TaskNesting {
  import opened Descriptors
  import opened Tasks

  lemma ChainAt(callers: seq<Caller>, current: Selector, k: nat)
    requires k <= |callers|
    ensures Chain(callers, current)[k] == (if k < |callers| then callers[k].selector else current) / 8
  {
  }

  lemma ChainMore(callers: seq<Caller>, current: Selector, c: Context, next: Selector)
    ensures Chain(callers + [Caller(current, c)], next) == Chain(callers, current) + [next / 8]
  {
  }

  lemma ChangeBusy(gdt: seq<Descriptor>, i: nat, busy: bool)
    requires i < |gdt| && IsTss(gdt[i]) && Disjoint(gdt)
    ensures var gdt' := gdt[i := SetBusy(gdt[i], busy)];
            BusyOnly(gdt, gdt') && Disjoint(gdt') && IsTss(gdt'[i]) && (Busy(gdt'[i]) <==> busy) && gdt'[i].base == gdt[i].base
            && gdt'[i].p == gdt[i].p && Is386(gdt'[i]) == Is386(gdt[i])
  {
    BusyBit(gdt[i], busy);
  }

  /** A task whose TSS was not written and whose descriptor changed in the busy bit at most is as it was. */
  lemma CallerStays(gdt: seq<Descriptor>, gdt': seq<Descriptor>, tables: map<nat, seq<Descriptor>>, tss: map<nat, Tss>, tss': map<nat, Tss>,
                    callers: seq<Caller>, callers': seq<Caller>, k: nat)
    requires BusyOnly(gdt, gdt') && k < |callers| && k < |callers'| && callers'[..k + 1] == callers[..k + 1]
    requires CallerOk(gdt, tables, tss, callers, k)
    requires gdt'[callers[k].selector / 8] == gdt[callers[k].selector / 8]
    requires var b := gdt[callers[k].selector / 8].base; b in tss' && tss'[b] == tss[b]
    ensures CallerOk(gdt', tables, tss', callers', k)
  {
    var c := callers[k];
    assert callers'[k] == callers'[..k + 1][k] == c;
    assert k > 0 ==> callers'[k - 1] == callers'[..k + 1][k - 1] == callers[..k + 1][k - 1] == callers[k - 1];
    StaysSettled(gdt, gdt', tables, TssOf(gdt, tss, c.selector).ldt, c.context.segs);
  }

  /** Members of the chain have different descriptors and different bases. */
  lemma OtherTask(gdt: seq<Descriptor>, tables: map<nat, seq<Descriptor>>, tss: map<nat, Tss>, callers: seq<Caller>, current: Selector, k: nat)
    requires Nesting(gdt, tables, tss, callers, current) && k < |callers|
    ensures TaskOk(gdt, tss, callers[k].selector) && callers[k].selector / 8 != current / 8
    ensures gdt[callers[k].selector / 8].base != gdt[current / 8].base
  {
    var chain := Chain(callers, current);
    ChainAt(callers, current, k);
    ChainAt(callers, current, |callers|);
    assert CallerOk(gdt, tables, tss, callers, k);
    assert chain[k] != chain[|callers|];
  }

  lemma CallKeepsCallers(gdt: seq<Descriptor>, tables: map<nat, seq<Descriptor>>, tss: map<nat, Tss>, callers: seq<Caller>, tr: TaskRegister,
                         newSel: Selector, c: Context)
    requires Nesting(gdt, tables, tss, callers, tr.selector) && tr.desc == gdt[tr.selector / 8] && MaySwitch(gdt, newSel, CALL_INT)
    requires (Nested(c.flags) <==> |callers| > 0) && !Virtual86(c.flags) && Settled(gdt, tables, TssOf(gdt, tss, tr.selector).ldt, c.segs)
    ensures CallersOk(SwitchedGdt(gdt, tr, newSel, CALL_INT), tables, SwitchedTss(tss, tr, gdt[newSel / 8].base, CALL_INT, c),
                      callers + [Caller(tr.selector, c)])
  {
    hide Distinct, Settled;
    var n := newSel / 8;
    var gdt', tss' := SwitchedGdt(gdt, tr, newSel, CALL_INT), SwitchedTss(tss, tr, gdt[n].base, CALL_INT, c);
    var callers' := callers + [Caller(tr.selector, c)];
    ChangeBusy(gdt, n, true);
    CurrentInChain(gdt, callers, tr.selector, |callers|);
    forall k {:trigger CallerOk(gdt', tables, tss', callers', k)} | 0 <= k < |callers'| ensures CallerOk(gdt', tables, tss', callers', k) {
      if k < |callers| {
        OtherTask(gdt, tables, tss, callers, tr.selector, k);
        CurrentInChain(gdt, callers, tr.selector, k);
        assert CallerOk(gdt, tables, tss, callers, k);
        assert callers'[..k + 1] == callers[..k + 1];
        CallerStays(gdt, gdt', tables, tss, tss', callers, callers', k);
      } else {
        StaysSettled(gdt, gdt', tables, TssOf(gdt, tss, tr.selector).ldt, c.segs);
      }
    }
  }

  /** A task of the chain is busy. */
  lemma CurrentInChain(gdt: seq<Descriptor>, callers: seq<Caller>, current: Selector, k: nat)
    requires BusyExactly(gdt, Chain(callers, current)) && k <= |callers|
    requires var s := if k < |callers| then callers[k].selector else current; s / 8 < |gdt| && IsTss(gdt[s / 8])
    ensures var s := if k < |callers| then callers[k].selector else current; Busy(gdt[s / 8])
  {
    ChainAt(callers, current, k);
  }

  lemma CallKeepsChain(gdt: seq<Descriptor>, tables: map<nat, seq<Descriptor>>, tss: map<nat, Tss>, callers: seq<Caller>, tr: TaskRegister,
                       newSel: Selector, c: Context)
    requires Nesting(gdt, tables, tss, callers, tr.selector) && tr.desc == gdt[tr.selector / 8] && MaySwitch(gdt, newSel, CALL_INT)
    ensures var gdt', callers' := SwitchedGdt(gdt, tr, newSel, CALL_INT), callers + [Caller(tr.selector, c)];
            Distinct(Chain(callers', newSel)) && BusyExactly(gdt', Chain(callers', newSel))
  {
    ChainMore(callers, tr.selector, c, newSel);
    ChangeBusy(gdt, newSel / 8, true);
    var chain := Chain(callers, tr.selector);
    assert newSel / 8 !in chain;
  }

  /** A call nests one task deeper: the caller is saved, the new task is busy and linked back to it. */
  lemma CallNests(gdt: seq<Descriptor>, tables: map<nat, seq<Descriptor>>, tss: map<nat, Tss>, callers: seq<Caller>, tr: TaskRegister,
                  newSel: Selector, c: Context)
    requires Nesting(gdt, tables, tss, callers, tr.selector) && tr.desc == gdt[tr.selector / 8] && MaySwitch(gdt, newSel, CALL_INT)
    requires (Nested(c.flags) <==> |callers| > 0) && !Virtual86(c.flags) && Settled(gdt, tables, TssOf(gdt, tss, tr.selector).ldt, c.segs)
    ensures var gdt', tss' := SwitchedGdt(gdt, tr, newSel, CALL_INT), SwitchedTss(tss, tr, gdt[newSel / 8].base, CALL_INT, c);
            Nesting(gdt', tables, tss', callers + [Caller(tr.selector, c)], newSel)
            && BusyOnly(gdt, gdt') && TssOf(gdt', tss', newSel) == TssOf(gdt, tss, newSel).(back := tr.selector)
  {
    CallKeepsCallers(gdt, tables, tss, callers, tr, newSel, c);
    CallKeepsChain(gdt, tables, tss, callers, tr, newSel, c);
    ChangeBusy(gdt, newSel / 8, true);
    CurrentInChain(gdt, callers, tr.selector, |callers|);
    hide Distinct, Settled, BusyExactly, CallersOk, Chain;
    var gdt', tss' := SwitchedGdt(gdt, tr, newSel, CALL_INT), SwitchedTss(tss, tr, gdt[newSel / 8].base, CALL_INT, c);
    forall i | 0 <= i < |gdt'| && IsTss(gdt'[i]) ensures gdt'[i].base in tss' {
      assert gdt'[i].base == gdt[i].base && IsTss(gdt[i]);
    }
  }

  /** A return takes the innermost task off the chain. */
  lemma ReturnKeepsChain(gdt: seq<Descriptor>, tables: map<nat, seq<Descriptor>>, tss: map<nat, Tss>, callers: seq<Caller>, tr: TaskRegister)
    requires Nesting(gdt, tables, tss, callers, tr.selector) && tr.desc == gdt[tr.selector / 8] && callers != []
    ensures callers[|callers| - 1].selector / 8 < |gdt|
    ensures var n := |callers| - 1;
            var gdt', chain := SwitchedGdt(gdt, tr, callers[n].selector, IRET), Chain(callers[..n], callers[n].selector);
            Distinct(chain) && BusyExactly(gdt', chain)
  {
    var n := |callers| - 1;
    OtherTask(gdt, tables, tss, callers, tr.selector, n);
    ChainMore(callers[..n], callers[n].selector, callers[n].context, tr.selector);
    assert callers[..n] + [Caller(callers[n].selector, callers[n].context)] == callers;
    hide CallersOk, Chain;
    var chain := Chain(callers[..n], callers[n].selector);
    ChainLess(chain, tr.selector / 8);
    ChangeBusy(gdt, tr.selector / 8, false);
  }

  lemma ChainLess(chain: seq<nat>, x: nat)
    requires Distinct(chain + [x])
    ensures Distinct(chain) && x !in chain
  {
    var longer := chain + [x];
    forall i, j | 0 <= i < j < |chain| ensures chain[i] != chain[j] {
      assert longer[i] != longer[j];
    }
    forall i | 0 <= i < |chain| ensures chain[i] != x {
      assert longer[i] != longer[|chain|];
    }
  }

  lemma ReturnKeepsCallers(gdt: seq<Descriptor>, tables: map<nat, seq<Descriptor>>, tss: map<nat, Tss>, callers: seq<Caller>, tr: TaskRegister,
                           c: Context)
    requires Nesting(gdt, tables, tss, callers, tr.selector) && tr.desc == gdt[tr.selector / 8] && callers != []
    ensures var n := |callers| - 1;
            callers[n].selector / 8 < |gdt| && gdt[callers[n].selector / 8].base in tss
    ensures var n := |callers| - 1;
            var base := gdt[callers[n].selector / 8].base;
            CallersOk(SwitchedGdt(gdt, tr, callers[n].selector, IRET), tables, SwitchedTss(tss, tr, base, IRET, c), callers[..n])
            && CallerOk(SwitchedGdt(gdt, tr, callers[n].selector, IRET), tables, SwitchedTss(tss, tr, base, IRET, c), callers, n)
  {
    hide Distinct, Settled, BusyExactly;
    var n := |callers| - 1;
    OtherTask(gdt, tables, tss, callers, tr.selector, n);
    ChangeBusy(gdt, tr.selector / 8, false);
    var s := callers[n].selector;
    var gdt', tss' := SwitchedGdt(gdt, tr, s, IRET), SwitchedTss(tss, tr, gdt[s / 8].base, IRET, c);
    forall k {:trigger CallerOk(gdt', tables, tss', callers[..n], k)} | 0 <= k < n ensures CallerOk(gdt', tables, tss', callers[..n], k) {
      OtherTask(gdt, tables, tss, callers, tr.selector, k);
      assert CallerOk(gdt, tables, tss, callers, k);
      assert callers[..n][..k + 1] == callers[..k + 1];
      CallerStays(gdt, gdt', tables, tss, tss', callers, callers[..n], k);
    }
    assert CallerOk(gdt, tables, tss, callers, n);
    CallerStays(gdt, gdt', tables, tss, tss', callers, callers, n);
  }

  lemma ReturnUnnests(gdt: seq<Descriptor>, tables: map<nat, seq<Descriptor>>, tss: map<nat, Tss>, callers: seq<Caller>, tr: TaskRegister,
                      c: Context)
    requires Nesting(gdt, tables, tss, callers, tr.selector) && tr.desc == gdt[tr.selector / 8] && callers != []
    ensures var n := |callers| - 1;
            var s := callers[n].selector;
            && TssOf(gdt, tss, tr.selector).back % 0x1_0000 == s && s / 8 != tr.selector / 8
            && MaySwitch(gdt, s, IRET) && gdt[s / 8].base in tss
            && tss[gdt[s / 8].base] == TssOf(gdt, tss, s)
            && BusyOnly(gdt, SwitchedGdt(gdt, tr, s, IRET))
    ensures var n := |callers| - 1;
            var s := callers[n].selector;
            Nesting(SwitchedGdt(gdt, tr, s, IRET), tables, SwitchedTss(tss, tr, gdt[s / 8].base, IRET, c), callers[..n], s)
            && CallerOk(SwitchedGdt(gdt, tr, s, IRET), tables, SwitchedTss(tss, tr, gdt[s / 8].base, IRET, c), callers, n)
            && TssOf(SwitchedGdt(gdt, tr, s, IRET), SwitchedTss(tss, tr, gdt[s / 8].base, IRET, c), s) == TssOf(gdt, tss, s)
  {
    var n := |callers| - 1;
    OtherTask(gdt, tables, tss, callers, tr.selector, n);
    CurrentInChain(gdt, callers, tr.selector, n);
    ReturnKeepsCallers(gdt, tables, tss, callers, tr, c);
    ReturnKeepsChain(gdt, tables, tss, callers, tr);
    ChangeBusy(gdt, tr.selector / 8, false);
    hide Distinct, Settled, BusyExactly, CallersOk, Chain;
    var s := callers[n].selector;
    var gdt', tss' := SwitchedGdt(gdt, tr, s, IRET), SwitchedTss(tss, tr, gdt[s / 8].base, IRET, c);
    forall i | 0 <= i < |gdt'| && IsTss(gdt'[i]) ensures gdt'[i].base in tss' {
      assert gdt'[i].base == gdt[i].base && IsTss(gdt[i]);
    }
  }

  /** A switch saves a context that can be taken up again and changes no other one. */
  lemma StaysReady(gdt: seq<Descriptor>, gdt': seq<Descriptor>, tables: map<nat, seq<Descriptor>>, tss: map<nat, Tss>, tss': map<nat, Tss>,
                   base: nat, c: Context)
    requires AllReady(gdt, tables, tss) && BusyOnly(gdt, gdt')
    requires base in tss && !Virtual86(c.flags) && Settled(gdt, tables, tss[base].ldt, c.segs)
    requires forall b :: b in tss ==> b in tss' && tss'[b].ldt == tss[b].ldt
    requires forall b :: b in tss && b != base ==> tss'[b].eflags == tss[b].eflags && tss'[b].segs == tss[b].segs
    requires !Virtual86(tss'[base].eflags) && tss'[base].segs == c.segs
    ensures AllReady(gdt', tables, tss')
  {
    hide Settled, Virtual86;
    forall i {:trigger Ready(gdt', tables, tss', i)} | 0 <= i < |gdt'| && IsTss(gdt'[i]) ensures Ready(gdt', tables, tss', i) {
      assert IsTss(gdt[i]) && gdt'[i].base == gdt[i].base;
      assert Ready(gdt, tables, tss, i);
      var b := gdt[i].base;
      StaysSettled(gdt, gdt', tables, tss[b].ldt, if b == base then c.segs else tss[b].segs);
    }
  }

  lemma SwitchedStaysReady(gdt: seq<Descriptor>, gdt': seq<Descriptor>, tables: map<nat, seq<Descriptor>>, tss: map<nat, Tss>, tr: TaskRegister,
                           newBase: nat, kind: SwitchType, c: Context)
    requires AllReady(gdt, tables, tss) && BusyOnly(gdt, gdt') && tr.desc.base in tss && newBase in tss && newBase != tr.desc.base
    requires !Virtual86(c.flags) && Settled(gdt, tables, tss[tr.desc.base].ldt, c.segs)
    ensures AllReady(gdt', tables, SwitchedTss(tss, tr, newBase, kind, c))
  {
    ClearNested(c.flags);
    hide Settled, Virtual86, AllReady;
    StaysReady(gdt, gdt', tables, tss, SwitchedTss(tss, tr, newBase, kind, c), tr.desc.base, c);
  }

  /** A switch to a task whose selectors load: it succeeds, and the new context is that of the TSS. */
  method SwitchReady(m: TaskMachine, newSel: Selector, kind: SwitchType, oldEip: nat, ghost t: Tss, ghost gdt': seq<Descriptor>,
                     ghost flags': bv32) returns (ok: bool)
    requires m.Tables() && MaySwitch(m.gdt, newSel, kind) && newSel / 8 != m.tr.selector / 8
    requires m.gdt[newSel / 8].base in m.tss && t == m.tss[m.gdt[newSel / 8].base]
    requires gdt' == SwitchedGdt(m.gdt, m.tr, newSel, kind) && newSel / 8 < |gdt'|
    requires flags' == SetFlags(m.flags, if kind.IRET? then t.eflags else Linked(t.eflags), m.Mask()) && !Virtual86(flags')
    requires AllLoad(gdt', HomeLdt(gdt', m.tables, m.ldt, t.ldt), t.segs) &&
            CodeLoads(gdt', HomeLdt(gdt', m.tables, m.ldt, t.ldt), t.segs.cs)
    modifies m`gdt, m`ldt, m`tss, m`tr, m`eip, m`flags, m`regs, m`segs, m`cr3
    ensures ok && m.gdt == gdt' && m.tr == TaskRegister(gdt'[newSel / 8], newSel)
    ensures m.tss == SwitchedTss(old(m.tss), old(m.tr), old(m.gdt)[newSel / 8].base, kind, old(m.Running()).(eip := oldEip))
    ensures m.Running() == Context(t.eip, flags', t.regs, t.segs)
  {
    hide SwitchedGdt, SwitchedTss, SetFlags, Virtual86, AllLoad, CodeLoads, HomeLdt, TaskMachine.Mask, MaySwitch, ToggleOk, SameFlags;
    ok := m.SwitchTask(newSel, kind, oldEip);
  }

  /** The descriptor table while task `s` runs that was idle in `gdt`. */
  function Called(gdt: seq<Descriptor>, s: Selector): seq<Descriptor>
    requires s / 8 < |gdt|
  { gdt[s / 8 := SetBusy(gdt[s / 8], true)] }

  lemma CalledIs(gdt: seq<Descriptor>, tr: TaskRegister, s: Selector)
    requires MaySwitch(gdt, s, CALL_INT) && tr.selector / 8 < |gdt|
    ensures SwitchedGdt(gdt, tr, s, CALL_INT) == Called(gdt, s)
  {
  }

  /** A CALL or interrupt through a task gate.  It fails exactly where the new task cannot be entered; otherwise the
      new task runs in the context of its TSS and the old one is on the chain with the context it had. */
  method CallTask(m: TaskMachine, newSel: Selector, oldEip: nat) returns (ok: bool)
    requires m.Valid()
    modifies m
    ensures ok <==> MaySwitch(old(m.gdt), newSel, CALL_INT)
    ensures ok ==> m.Valid() && m.tr.selector == newSel
    ensures ok ==> m.callers == old(m.callers) + [Caller(old(m.tr).selector, old(m.Running()).(eip := oldEip))]
    ensures ok ==> var t := old(m.tss)[old(m.gdt)[newSel / 8].base];
                   m.Running() == Context(t.eip, m.flags, t.regs, t.segs) && Under(m.flags, m.Mask()) == Under(Linked(t.eflags), m.Mask())
    ensures ok ==> SameFlags(m.flags, Linked(old(m.tss)[old(m.gdt)[newSel / 8].base].eflags))
    ensures ok ==> BusyOnly(old(m.gdt), m.gdt) && SameHomes(old(m.tss), m.tss) && m.gdt == Called(old(m.gdt), newSel)
  {
    hide Nesting, Settled, AllReady, Called, SwitchedGdt, SwitchedTss, SetFlags, BusyOnly, Nested, Virtual86, AllLoad, CodeLoads,
      HomeLdt, ToggleOk, LoadsNested, TaskMachine.Mask, SameHomes, SameFlags, Linked, Under;
    if !MaySwitch(m.gdt, newSel, CALL_INT) {
      ok := m.SwitchTask(newSel, CALL_INT, oldEip);
      return;
    }
    ghost var gdt, tss, tr, callers, c := m.gdt, m.tss, m.tr, m.callers, m.Running().(eip := oldEip);
    BeforeCall(gdt, m.tables, tss, callers, tr, newSel, c);
    CalledIs(gdt, tr, newSel);
    ghost var t, gdt' := tss[gdt[newSel / 8].base], SwitchedGdt(gdt, tr, newSel, CALL_INT);
    ghost var flags' := SetFlags(m.flags, Linked(t.eflags), m.Mask());
    m.MaskLoads();
    EntersNested(gdt, gdt', m.tables, t, m.ldt, m.flags, m.Mask());
    ok := SwitchReady(m, newSel, CALL_INT, oldEip, t, gdt', flags');
    m.callers := callers + [Caller(tr.selector, c)];
    hide Ready, MaySwitch;
    AllHaveTss(m.gdt, m.tables, m.tss, m.callers, newSel);
  }

  lemma AllHaveTss(gdt: seq<Descriptor>, tables: map<nat, seq<Descriptor>>, tss: map<nat, Tss>, callers: seq<Caller>, current: Selector)
    requires Nesting(gdt, tables, tss, callers, current)
    ensures TaskOk(gdt, tss, current) && forall i :: 0 <= i < |gdt| && IsTss(gdt[i]) ==> gdt[i].base in tss
  {
  }

  ghost predicate SameHomes(tss: map<nat, Tss>, tss': map<nat, Tss>) {
    tss'.Keys == tss.Keys && forall b :: b in tss ==> b in tss' && tss'[b].ldt == tss[b].ldt
  }

  lemma BeforeCall(gdt: seq<Descriptor>, tables: map<nat, seq<Descriptor>>, tss: map<nat, Tss>, callers: seq<Caller>, tr: TaskRegister,
                   newSel: Selector, c: Context)
    requires Nesting(gdt, tables, tss, callers, tr.selector) && tr.desc == gdt[tr.selector / 8] && MaySwitch(gdt, newSel, CALL_INT)
    requires (Nested(c.flags) <==> |callers| > 0) && !Virtual86(c.flags) && Settled(gdt, tables, TssOf(gdt, tss, tr.selector).ldt, c.segs)
    requires AllReady(gdt, tables, tss)
    ensures gdt[newSel / 8].base in tss && newSel / 8 != tr.selector / 8 && Ready(gdt, tables, tss, newSel / 8)
    ensures var gdt', tss' := SwitchedGdt(gdt, tr, newSel, CALL_INT), SwitchedTss(tss, tr, gdt[newSel / 8].base, CALL_INT, c);
            && Nesting(gdt', tables, tss', callers + [Caller(tr.selector, c)], newSel) && AllReady(gdt', tables, tss')
            && BusyOnly(gdt, gdt') && SameHomes(tss, tss') && newSel / 8 < |gdt'|
            && TssOf(gdt', tss', newSel).ldt == tss[gdt[newSel / 8].base].ldt
  {
    hide Settled, Virtual86, Nested, Distinct, BusyExactly, CallersOk, Chain, SetBusy;
    var n := newSel / 8;
    CallNests(gdt, tables, tss, callers, tr, newSel, c);
    assert Ready(gdt, tables, tss, n);
    CurrentInChain(gdt, callers, tr.selector, |callers|);
    DifferentBase(gdt, n, tr.selector / 8);
    hide Nesting, AllReady, Ready;
    SwitchedStaysReady(gdt, SwitchedGdt(gdt, tr, newSel, CALL_INT), tables, tss, tr, gdt[n].base, CALL_INT, c);
  }

  /** The new task's selectors load, and its flags are those of its TSS with NT set. */
  lemma EntersNested(gdt: seq<Descriptor>, gdt': seq<Descriptor>, tables: map<nat, seq<Descriptor>>, t: Tss, ldt: seq<Descriptor>,
                     flags: bv32, mask: bv32)
    requires BusyOnly(gdt, gdt') && Settled(gdt, tables, t.ldt, t.segs) && !Virtual86(t.eflags)
    requires LoadsNested(mask)
    ensures Settled(gdt', tables, t.ldt, t.segs)
    ensures AllLoad(gdt', HomeLdt(gdt', tables, ldt, t.ldt), t.segs) && CodeLoads(gdt', HomeLdt(gdt', tables, ldt, t.ldt), t.segs.cs)
    ensures var flags' := SetFlags(flags, Linked(t.eflags), mask);
            Nested(flags') && !Virtual86(flags') && Under(flags', mask) == Under(Linked(t.eflags), mask) && SameFlags(flags', Linked(t.eflags))
  {
    hide Settled, BusyOnly, AllLoad, CodeLoads, HomeLdt;
    StaysSettled(gdt, gdt', tables, t.ldt, t.segs);
    SettledLoads(gdt', tables, ldt, t.ldt, t.segs);
    hide Nested, Virtual86, SetFlags, SameFlags, LoadsNested, Linked, Under;
    SetNested(t.eflags);
    SwitchSets(flags, Linked(t.eflags), mask);
  }

  lemma DifferentBase(gdt: seq<Descriptor>, i: nat, j: nat)
    requires Disjoint(gdt) && i < |gdt| && j < |gdt| && i != j && IsTss(gdt[i]) && IsTss(gdt[j])
    ensures gdt[i].base != gdt[j].base
  {
  }

  lemma SettledLoads(gdt: seq<Descriptor>, tables: map<nat, seq<Descriptor>>, ldt: seq<Descriptor>, home: Selector, segs: Selectors)
    requires Settled(gdt, tables, home, segs)
    ensures AllLoad(gdt, HomeLdt(gdt, tables, ldt, home), segs) && CodeLoads(gdt, HomeLdt(gdt, tables, ldt, home), segs.cs)
  {
    hide CodeLoads, StackLoads, DataLoads;
  }
}
