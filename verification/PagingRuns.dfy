/**
 Whole runs of the paging unit, told by a machine without a TLB: accesses at any privilege,
 changes of the mapping, and guest stores.
 */
module PagingRuns {
  import opened Options
  import opened PageEntries
  import opened PagingUnit

  /** `cpl` and `mpl` are the privilege levels of an access; `flush` whether the page's handler flushes the TLB. */
  datatype Step =
    | Access(addr: nat, writing: bool, checked: bool, cpl: bv2, mpl: bv2, flush: bool)
    | Base(cr3: nat)
    | Enable(on: bool)
    | Map(page: nat, phys: nat)
    | Store(addr: nat, v: Dword)

  /** Addresses have 32 bits, and only low pages are remapped. */
  predicate StepOk(s: Step) {
    match s
    case Access(addr, _, _, _, _, _) => addr / 4096 < PAGE_COUNT
    case Map(page, _) => page < LINK_START
    case _ => true
  }

  predicate StepsOk(steps: seq<Step>) { forall s <- steps :: StepOk(s) }

  // ---- the machine without a TLB ----

  /** Its memory is what the guest stored; accessed and dirty bits are not set, see Due for them. */
  datatype Machine = Machine(memory: Memory, cr3: nat, basePage: nat, enabled: bool, firstmb: seq<nat>) {
    predicate Ok() { |firstmb| == LINK_START }

    function Plain(lin: nat): nat
      requires Ok()
    { if lin < LINK_START then firstmb[lin] else lin }

    function Table(lin: nat): PageEntry { TableOf(memory, basePage, lin) }

    function Entry(lin: nat): PageEntry { EntryOf(memory, basePage, lin) }

    /** A write marks its page as dirty, but for a supervisor's to a page that users may read and not write. */
    predicate MustDirty(s: Step, arch: Arch)
      requires Ok() && s.Access?
    {
      var table, entry := Table(s.addr / 4096), Entry(s.addr / 4096);
      s.writing && !(Tracks(arch) && (s.cpl & s.mpl) as nat != 3 && UserMayRead(arch, table, entry) && !UserMayWrite(arch, table, entry))
    }

    /** `memory` after a step that ended with `o`, with the bits set that have to be. */
    function DueNext(due: Memory, s: Step, o: Option<Outcome>, arch: Arch): Memory
      requires Ok()
    {
      match s
      case Store(addr, v) => due[addr := v]
      case Access(addr, _, _, _, _, _) =>
        var lin := addr / 4096;
        var table := TableOf(due, basePage, lin);
        if enabled && o == Some(Done)
        then Marked(due, TableAddr(basePage, lin), table, EntryAddr(table, lin), EntryOf(due, basePage, lin), MustDirty(s, arch))
        else due
      case _ => due
    }

    function Next(s: Step): (m: Machine)
      requires Ok() && StepOk(s)
      ensures m.Ok()
    {
      match s
      case Access(_, _, _, _, _, _) => this
      case Base(c) => this.(cr3 := c, basePage := c / 4096)
      case Enable(on) => this.(enabled := on, basePage := if on && !enabled then cr3 / 4096 else basePage)
      case Map(page, phys) => this.(firstmb := firstmb[page := phys])
      case Store(addr, v) => this.(memory := memory[addr := v])
    }

    /** The dword at `addr` is an entry of a present page. */
    predicate OnAWalk(addr: nat) {
      enabled && exists lin: nat {:trigger Table(lin)} :: lin < PAGE_COUNT && Present(Table(lin), Entry(lin)) &&
                                  (addr == TableAddr(basePage, lin) || addr == EntryAddr(Table(lin), lin))
    }
  }

  function After(m: Machine, steps: seq<Step>): (m': Machine)
    requires m.Ok() && StepsOk(steps)
    ensures m'.Ok()
  {
    if steps == [] then m else After(m, steps[..|steps| - 1]).Next(steps[|steps| - 1])
  }

  /** What memory has to be after a run: what the guest stored, and the accessed and dirty bits set since. */
  function Due(m: Machine, steps: seq<Step>, outcomes: seq<Option<Outcome>>, arch: Arch): Memory
    requires m.Ok() && StepsOk(steps) && |outcomes| == |steps|
  {
    if steps == [] then m.memory else
      var n := |steps| - 1;
      After(m, steps[..n]).DueNext(Due(m, steps[..n], outcomes[..n], arch), steps[n], outcomes[n], arch)
  }

  /** An entry of a present page was stored to since the last flush. */
  predicate MayBeStale(m: Machine, steps: seq<Step>)
    requires m.Ok() && StepsOk(steps)
  {
    steps != [] &&
    var n := |steps| - 1;
    var before, stale := After(m, steps[..n]), MayBeStale(m, steps[..n]);
    match steps[n]
    case Base(_) => stale && !before.enabled
    case Enable(on) => stale && on == before.enabled
    case Store(addr, _) => stale || before.OnAWalk(addr)
    case _ => stale
  }

  /** How an access may end.  Without paging only a page number out of range is fatal.  On the architectures that track
      protection the walk decides, but for a supervisor write to a page that users may read and not write: that may go
      through the read pointer.  On the other ones the access may succeed in spite of the walk. */
  predicate Agrees(m: Machine, s: Step, outcome: Outcome, arch: Arch, flags: nat -> Flags)
    requires m.Ok() && s.Access?
  {
    var lin := s.addr / 4096;
    var level := (s.cpl & s.mpl) as nat;
    if !m.enabled then outcome == if m.Plain(lin) >= PAGE_COUNT then Fatal else Done
    else
      var table, entry := m.Table(lin), m.Entry(lin);
      || outcome == OutcomeOf(AccessFault(arch, table, entry, s.writing, level))
      || (&& Tracks(arch) && s.writing && level != 3 && UserMayRead(arch, table, entry) && !UserMayWrite(arch, table, entry)
          && outcome == ThroughRead(flags(entry.base)))
      || (!Tracks(arch) && outcome == Done)
  }

  // ---- the machine with the TLB does the same ----

  ghost predicate Matches(p: Paging, m: Machine)
    reads p, p.firstmb
  {
    && m.Ok() && p.firstmb[..] == m.firstmb && p.cr3 == m.cr3 && p.basePage == m.basePage && p.enabled == m.enabled
    && MemoryRaised(m.memory, p.memory)
  }

  /** A store goes to both memories alike. */
  lemma StoreRaised(m: Memory, m': Memory, addr: nat, v: Dword)
    requires MemoryRaised(m, m')
    ensures MemoryRaised(m[addr := v], m'[addr := v])
  {
    hide Set;
    var n, n' := m[addr := v], m'[addr := v];
    forall x: nat ensures Raised(Set(Read(n, x)), Set(Read(n', x))) {
      assert x != addr ==> Read(n, x) == Read(m, x) && Read(n', x) == Read(m', x);
    }
  }

  /** A dword that a walk to a linked page reads is an entry of a present page for the other machine too. */
  lemma OnBothWalks(p: Paging, m: Machine, addr: nat)
    requires p.Valid() && p.SoundBut(-1) && Matches(p, m) && !p.OffTheWalks(addr)
    ensures m.OnAWalk(addr)
  {
    RaisedAlike(m.memory, p.memory);
    hide Set, Get, Read, TableAddr, EntryAddr, MemoryAlike, MemoryRaised, Paging.Shaped;
    var lin: nat :| lin < PAGE_COUNT && !Uninit(p.tlb[lin]) && (addr == TableAddr(p.basePage, lin) || addr == EntryAddr(p.Table(lin), lin));
    assert SoundEntry(p.tlb[lin], p.arch, p.enabled, p.Table(lin), p.Entry(lin), p.Plain(lin));
    WalkAlike(m.memory, p.memory, p.basePage, lin);
    SameEntryAddr(m.Table(lin), p.Table(lin), lin);
    assert Present(m.Table(lin), m.Entry(lin));
  }

  lemma SameEntryAddr(table: PageEntry, table': PageEntry, lin: nat)
    requires Alike(table, table')
    ensures EntryAddr(table, lin) == EntryAddr(table', lin)
  {
  }

  /** What Decides says of an access, told without the TLB: `e` is the entry of the page before the access. */
  lemma DecidedAgrees(m: Machine, s: Step, outcome: Outcome, e: TlbEntry, arch: Arch, flags: nat -> Flags,
                      table: PageEntry, entry: PageEntry, plain: nat)
    requires m.Ok() && m.enabled && s.Access? && SoundEntry(e, arch, true, table, entry, plain)
    requires Alike(m.Table(s.addr / 4096), table) && Alike(m.Entry(s.addr / 4096), entry)
    requires var level := (s.cpl & s.mpl) as nat;
             outcome == if s.writing && e.writeHandler.UserROHandler? && level != 3 then ThroughRead(flags(e.phys))
                        else if Tracks(arch) || Uninit(e) then OutcomeOf(AccessFault(arch, table, entry, s.writing, level))
                        else Done
    ensures Agrees(m, s, outcome, arch, flags)
  {
    hide TableOf, EntryOf, ThroughRead, OutcomeOf;
    AccessFaultAlike(arch, m.Table(s.addr / 4096), m.Entry(s.addr / 4096), table, entry, s.writing, (s.cpl & s.mpl) as nat);
  }

  /** A page that was accessed is marked, whether it was linked before or not. */
  lemma MarkedEnough(m: Machine, s: Step, outcome: Outcome, e: TlbEntry, arch: Arch, flags: nat -> Flags, table: PageEntry, entry: PageEntry,
                     plain: nat, table': PageEntry, entry': PageEntry)
    requires m.Ok() && m.enabled && s.Access? && SoundEntry(e, arch, true, table, entry, plain)
    requires Alike(m.Table(s.addr / 4096), table) && Alike(m.Entry(s.addr / 4096), entry)
    requires outcome == Done ==> if Uninit(e) then IsMarked(table', entry', s.writing) else table' == table && entry' == entry
    requires var level := (s.cpl & s.mpl) as nat;
             outcome == if s.writing && e.writeHandler.UserROHandler? && level != 3 then ThroughRead(flags(e.phys))
                        else if Tracks(arch) || Uninit(e) then OutcomeOf(AccessFault(arch, table, entry, s.writing, level))
                        else Done
    ensures outcome == Done ==> IsMarked(table', entry', m.MustDirty(s, arch))
  {
    hide TableOf, EntryOf, ThroughRead;
  }

  lemma EntryBefore(p: Paging, m: Machine, lin: nat)
    requires p.Valid() && p.SoundBut(-1) && Matches(p, m) && p.enabled && lin < PAGE_COUNT
    ensures SoundEntry(p.tlb[lin], p.arch, true, p.Table(lin), p.Entry(lin), p.Plain(lin))
    ensures Alike(m.Table(lin), p.Table(lin)) && Alike(m.Entry(lin), p.Entry(lin))
  {
    RaisedAlike(m.memory, p.memory);
    hide Set, Get, Read, TableAddr, EntryAddr, MemoryAlike, MemoryRaised, Paging.Shaped;
    WalkAlike(m.memory, p.memory, p.basePage, lin);
  }

  /** The privilege of an access does not matter to what is linked already. */
  method SetLevel(p: Paging, cpl: bv2, mpl: bv2)
    requires p.Valid() && p.SoundBut(-1)
    modifies p`cpl, p`mpl
    ensures p.Valid() && p.SoundBut(-1) && p.cpl == cpl && p.mpl == mpl
  {
    hide *;
    p.cpl, p.mpl := cpl, mpl;
    Unlevelled(p);
  }

  twostate lemma Unlevelled(p: Paging)
    requires old(p.Valid()) && old(p.SoundBut(-1))
    requires p.memory == old(p.memory) && p.used == old(p.used) && p.enabled == old(p.enabled) && p.basePage == old(p.basePage)
    requires unchanged(p.tlb) && unchanged(p.links) && unchanged(p.firstmb)
    ensures p.Valid() && p.SoundBut(-1)
  {
    hide Set, Get, Read, TableAddr, EntryAddr, SoundEntry, Paging.Shaped, TableOf, EntryOf;
    assert p.links[..p.used] == old(p.links[..p.used]);
    forall lin {:trigger p.tlb[lin]} | 0 <= lin < PAGE_COUNT
      ensures SoundEntry(p.tlb[lin], p.arch, p.enabled, p.Table(lin), p.Entry(lin), p.Plain(lin))
    {
      assert old(SoundEntry(p.tlb[lin], p.arch, p.enabled, p.Table(lin), p.Entry(lin), p.Plain(lin)));
    }
  }

  /** An access, checked or not, ends as the machine without a TLB says. */
  method DoAccess(p: Paging, ghost m: Machine, s: Step) returns (outcome: Outcome)
    requires p.Valid() && p.SoundBut(-1) && Matches(p, m) && s.Access? && StepOk(s)
    modifies p, p.tlb, p.links
    ensures p.Valid() && p.SoundBut(-1) && Matches(p, m) && Agrees(m, s, outcome, p.arch, p.flags)
    ensures MemoryRaised(old(p.memory), p.memory)
    ensures m.enabled && outcome == Done ==> IsMarked(p.Table(s.addr / 4096), p.Entry(s.addr / 4096), m.MustDirty(s, p.arch))
  {
    hide Set, Get, Read, TableAddr, EntryAddr, MemoryRaised, Marks, SoundEntry, Paging.Shaped, TableOf, EntryOf, AccessFault, ThroughRead;
    RaisedRefl(p.memory);
    SetLevel(p, s.cpl, s.mpl);
    if !p.enabled {
      outcome := p.PlainAccess(s.addr, s.writing, s.flush);
    } else {
      ghost var memory, lin := p.memory, s.addr / 4096;
      EntryBefore(p, m, lin);
      ghost var e, table, entry, plain := p.tlb[lin], p.Table(lin), p.Entry(lin), p.Plain(lin);
      ghost var dirty := p.Dirties(s.addr, s.writing);
      outcome := DoPaged(p, s);
      MarkedOrNot(memory, p.memory, p.basePage, lin, dirty, outcome.Done? && Uninit(e));
      if outcome.Done? && Uninit(e) {
        MarksRaise(memory, p.memory, p.basePage, lin, dirty);
      }
      RaisedTwice(m.memory, memory, p.memory);
      MarkedEnough(m, s, outcome, e, p.arch, p.flags, table, entry, plain, p.Table(lin), p.Entry(lin));
      DecidedAgrees(m, s, outcome, e, p.arch, p.flags, table, entry, plain);
    }
  }

  method DoPaged(p: Paging, s: Step) returns (outcome: Outcome)
    requires p.Valid() && p.SoundBut(-1) && p.enabled && s.Access? && StepOk(s)
    modifies p.tlb, p.links, p`used, p`memory, p`cr2
    ensures p.Valid() && p.SoundBut(-1)
    ensures var lin := s.addr / 4096;
            if outcome.Done? && old(Uninit(p.tlb[lin]))
            then Marks(old(p.memory), p.memory, p.basePage, lin, old(p.Dirties(s.addr, s.writing))) else p.memory == old(p.memory)
    ensures p.Decides(old(p.tlb[s.addr / 4096]), s.writing, outcome, old(p.WalkOutcome(s.addr, s.writing)))
  {
    assert s.addr / 4096 < PAGE_COUNT;
    hide *;
    if s.checked {
      outcome := p.CheckedAccess(s.addr, s.writing, s.flush);
    } else {
      outcome := p.Access(s.addr, s.writing, s.flush);
    }
  }

  /** One step.  While the TLB is stale, accesses are not described. */
  method Do(p: Paging, ghost m: Machine, ghost due: Memory, s: Step, stale: bool) returns (outcome: Option<Outcome>, stale': bool)
    requires p.Valid() && (stale || p.SoundBut(-1)) && Matches(p, m) && StepOk(s) && MemoryRaised(due, p.memory)
    modifies p, p.tlb, p.links, p.firstmb
    ensures MemoryRaised(m.DueNext(due, s, outcome, p.arch), p.memory)
    ensures p.Valid() && (stale' || p.SoundBut(-1)) && Matches(p, m.Next(s))
    ensures outcome.None? <==> stale && s.Access?
    ensures s.Access? && !stale ==> Agrees(m, s, outcome.value, p.arch, p.flags)
    ensures stale' ==>
              && (stale || (s.Store? && m.OnAWalk(s.addr)))
              && !(s.Base? && m.enabled) && !(s.Enable? && s.on != m.enabled)
  {
    hide Set, Get, Read, TableAddr, EntryAddr, MemoryRaised, SoundEntry, Paging.Shaped, TableOf, EntryOf, AccessFault, Agrees, IsMarked,
      Machine.OnAWalk, Machine.MustDirty, Marked,
      Paging.OffTheWalks;
    outcome, stale' := Some(Done), stale;
    match s
    case Access(_, _, _, _, _, _) =>
      outcome := None;
      if !stale {
        ghost var memory := p.memory;
        var o := DoAccess(p, m, s);
        outcome := Some(o);
        RaisedTwice(due, memory, p.memory);
        if m.enabled && o == Done {
          MarkedBelow(due, p.memory, m.basePage, s.addr / 4096, m.MustDirty(s, p.arch));
        }
      }
    case Base(cr3) =>
      stale' := stale && !p.enabled;
      p.SetDirBase(cr3);
    case Enable(on) =>
      stale' := stale && on == p.enabled;
      p.Enable(on);
    case Map(page, phys) => p.MapLowPage(page, phys);
    case Store(addr, v) =>
      if !stale && !p.OffTheWalks(addr) {
        OnBothWalks(p, m, addr);
        stale' := true;
      }
      StoreRaised(m.memory, p.memory, addr, v);
      StoreRaised(due, p.memory, addr, v);
      p.GuestStore(addr, v);
  }

  /** What the outcomes of a run tell: each access ends as the machine without a TLB says after the steps before it; only
      accesses between a store to an entry of a present page and the next flush are not described. */
  predicate Fits(m: Machine, steps: seq<Step>, outcomes: seq<Option<Outcome>>, k: nat, arch: Arch, flags: nat -> Flags)
    requires m.Ok() && StepsOk(steps) && k < |outcomes| <= |steps|
  {
    && (outcomes[k].None? ==> steps[k].Access? && MayBeStale(m, steps[..k]))
    && (outcomes[k].Some? && steps[k].Access? ==> Agrees(After(m, steps[..k]), steps[k], outcomes[k].value, arch, flags))
  }

  ghost predicate AllFit(m: Machine, steps: seq<Step>, outcomes: seq<Option<Outcome>>, arch: Arch, flags: nat -> Flags)
    requires m.Ok() && StepsOk(steps) && |outcomes| <= |steps|
  {
    forall k: nat {:trigger Fits(m, steps, outcomes, k, arch, flags)} :: k < |outcomes| ==> Fits(m, steps, outcomes, k, arch, flags)
  }

  lemma OneMore(m: Machine, steps: seq<Step>, outcomes: seq<Option<Outcome>>, o: Option<Outcome>, arch: Arch, flags: nat -> Flags)
    requires m.Ok() && StepsOk(steps) && |outcomes| < |steps| && AllFit(m, steps, outcomes, arch, flags)
    requires o.None? ==> steps[|outcomes|].Access? && MayBeStale(m, steps[..|outcomes|])
    requires o.Some? && steps[|outcomes|].Access? ==> Agrees(After(m, steps[..|outcomes|]), steps[|outcomes|], o.value, arch, flags)
    ensures AllFit(m, steps, outcomes + [o], arch, flags)
  {
    var outcomes' := outcomes + [o];
    hide MayBeStale, Agrees, After;
    forall k: nat {:trigger Fits(m, steps, outcomes', k, arch, flags)} | k < |outcomes'| ensures Fits(m, steps, outcomes', k, arch, flags) {
      assert k < |outcomes| ==> Fits(m, steps, outcomes, k, arch, flags);
    }
  }

  lemma DueOn(m: Machine, steps: seq<Step>, outcomes: seq<Option<Outcome>>, o: Option<Outcome>, arch: Arch)
    requires m.Ok() && StepsOk(steps) && |outcomes| < |steps|
    ensures Due(m, steps[..|outcomes| + 1], outcomes + [o], arch) ==
            After(m, steps[..|outcomes|]).DueNext(Due(m, steps[..|outcomes|], outcomes, arch), steps[|outcomes|], o, arch)
  {
    var k := |outcomes|;
    assert steps[..k + 1][..k] == steps[..k] && (outcomes + [o])[..k] == outcomes;
  }

  lemma StepOn(m: Machine, steps: seq<Step>, k: nat)
    requires m.Ok() && StepsOk(steps) && k < |steps|
    ensures After(m, steps[..k + 1]) == After(m, steps[..k]).Next(steps[k])
    ensures MayBeStale(m, steps[..k + 1]) ==
            var before, stale := After(m, steps[..k]), MayBeStale(m, steps[..k]);
            match steps[k]
            case Base(_) => stale && !before.enabled
            case Enable(on) => stale && on == before.enabled
            case Store(addr, _) => stale || before.OnAWalk(addr)
            case _ => stale
  {
    assert steps[..k + 1][..k] == steps[..k];
  }

  ghost function MachineOf(p: Paging): Machine
    reads p, p.firstmb
  { Machine(p.memory, p.cr3, p.basePage, p.enabled, p.firstmb[..]) }

  /** The TLB cannot be noticed: in every run of accesses at any privilege, changes of the mapping and guest stores, with the
      stated exceptions.  Whatever is linked at the end is what the walk gives, with the protection of the walk on the
      architectures that track it, unless an entry of a present page was stored to since the last flush: see
      Paging.LinkedPageIsWalked and LinkedPageIsPermitted. */
  method Session(p: Paging, steps: seq<Step>) returns (outcomes: seq<Option<Outcome>>)
    requires p.Valid() && p.SoundBut(-1) && StepsOk(steps)
    modifies p, p.tlb, p.links, p.firstmb
    ensures p.Valid() && Matches(p, After(old(MachineOf(p)), steps)) && (MayBeStale(old(MachineOf(p)), steps) || p.SoundBut(-1))
    ensures |outcomes| == |steps| && AllFit(old(MachineOf(p)), steps, outcomes, p.arch, p.flags)
    ensures MemoryRaised(Due(old(MachineOf(p)), steps, outcomes, p.arch), p.memory)
  {
    ghost var m := MachineOf(p);
    RaisedRefl(p.memory);
    outcomes := [];
    var stale := false;
    assert steps[..0] == [];
    while |outcomes| < |steps|
      invariant |outcomes| <= |steps| && AllFit(m, steps, outcomes, p.arch, p.flags)
      invariant p.Valid() && (stale || p.SoundBut(-1)) && Matches(p, After(m, steps[..|outcomes|]))
      invariant stale ==> MayBeStale(m, steps[..|outcomes|])
      invariant MemoryRaised(Due(m, steps[..|outcomes|], outcomes, p.arch), p.memory)
      decreases |steps| - |outcomes|
    {
      var k := |outcomes|;
      StepOn(m, steps, k);
      hide Paging.Valid, Paging.SoundBut, Matches, AllFit, After, MayBeStale, Agrees, StepOk, Machine.OnAWalk, Due, MemoryRaised,
        Machine.DueNext;
      assert steps[k] in steps;
      var o;
      o, stale := Do(p, After(m, steps[..k]), Due(m, steps[..k], outcomes, p.arch), steps[k], stale);
      DueOn(m, steps, outcomes, o, p.arch);
      OneMore(m, steps, outcomes, o, p.arch, p.flags);
      outcomes := outcomes + [o];
    }
    assert steps[..|outcomes|] == steps;
  }
}
