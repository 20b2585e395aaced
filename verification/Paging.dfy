/**
 The TLB over the two-level page walk (src/cpu/paging.cpp): which linear pages are
 linked, the journal of links that makes flushing cheap, and the scheme that keeps
 pages a user access must not reach out of the TLB.
 */
module PagingUnit {
  import opened Options
  import opened PageEntries

  const PAGING_LINKS: nat := 128 * 1024 / 4
  const NO_HOST: int := -1

  /** Who serves an access that has no host pointer: init_page_handler, init_page_handler_userro, or the handler of the
      physical page. */
  datatype Handler = InitHandler | UserROHandler | PhysHandler(page: nat)

  /** PFLAG_READABLE and PFLAG_WRITEABLE of a physical page, and whether both use the same host memory. */
  datatype Flags = Flags(readable: bool, writeable: bool, sameHost: bool)

  /** tlb.read, tlb.write (the physical page behind the host pointer), tlb.readhandler, tlb.writehandler, tlb.phys_page */
  datatype TlbEntry = TlbEntry(read: int, write: int, readHandler: Handler, writeHandler: Handler, phys: nat)

  predicate Uninit(e: TlbEntry) {
    e.read == NO_HOST && e.write == NO_HOST && e.readHandler.InitHandler? && e.writeHandler.InitHandler?
  }

  /** An access ends with a value moved, with a page fault, or with E_Exit; or a value is stored through the pointer that
      was meant for reading, past the page's own way to write, or even through a null pointer. */
  datatype Outcome = Done | Fault(error: nat) | Fatal | PastHandler | NullHost

  /** A store through the read pointer of a page with flags `f`. */
  function ThroughRead(f: Flags): Outcome {
    if !f.readable then NullHost else if f.writeable && f.sameHost then Done else PastHandler
  }

  function OutcomeOf(fault: Option<nat>): Outcome {
    match fault
    case None => Done
    case Some(error) => Fault(error)
  }

  /** What InitPage returns: whether and how the page has to be taken out of the TLB again after the access. */
  datatype InitResult = Linked(relink: nat) | Faulted(error: nat) | Illegal

  /** The privilege classification of InitPage: 0 no action, 1 can fail a user access check, 2 can fail a write check,
      3 fails a check now. */
  function PrivCheck(arch: Arch, table: PageEntry, entry: PageEntry, writing: bool, level: nat): nat {
    var prohibited := level == 3;
    var check := if UserFails(arch, entry.us, table.us) then (if prohibited then 3 else if Tracks(arch) then 1 else 0) else 0;
    if entry.wr == 0 || table.wr == 0 then
      var check2 := if check == 0 && Tracks(arch) then 2 else check;
      if writing && prohibited then 3 else check2
    else check
  }

  /** A linked entry is one the walk through the tables would give, and on the architectures that track protection it
      lets a user access do exactly what the walk permits.  Both entries of a linked page are marked as accessed, and as
      dirty too if the link lets writes pass unnoticed. */
  ghost predicate SoundEntry(e: TlbEntry, arch: Arch, enabled: bool, table: PageEntry, entry: PageEntry, plain: nat)
  {
    Uninit(e) ||
      if !enabled then e.phys == plain && !e.writeHandler.UserROHandler?
      else
        && Present(table, entry) && entry.base == e.phys && IsMarked(table, entry, !e.writeHandler.UserROHandler?)
        && (Tracks(arch) ==> UserMayRead(arch, table, entry) && (e.writeHandler.UserROHandler? <==> !UserMayWrite(arch, table, entry)))
        && (!Tracks(arch) ==> !e.writeHandler.UserROHandler?)
  }

  /** More accessed and dirty bits do no harm. */
  lemma SoundRaised(e: TlbEntry, arch: Arch, enabled: bool, table: PageEntry, entry: PageEntry, table': PageEntry, entry': PageEntry,
                    plain: nat)
    requires SoundEntry(e, arch, enabled, table, entry, plain) && Raised(table, table') && Raised(entry, entry') && Fits(table') && Fits(entry')
    ensures SoundEntry(e, arch, enabled, table', entry', plain)
  {
  }

  lemma AccessFaultAlike(arch: Arch, table: PageEntry, entry: PageEntry, table': PageEntry, entry': PageEntry, writing: bool, level: nat)
    requires Alike(table, table') && Alike(entry, entry')
    ensures AccessFault(arch, table, entry, writing, level) == AccessFault(arch, table', entry', writing, level)
  {
  }

  class Paging {
    const tlb: array<TlbEntry>
    const links: array<nat>
    var used: nat
    const firstmb: array<nat>
    var cr2: nat
    var cr3: nat
    var basePage: nat
    var enabled: bool
    var memory: Memory
    const flags: nat -> Flags
    const arch: Arch
    var cpl: bv2
    var mpl: bv2

    /** The entry that links `lin` to `phys`, fully or for reading only. */
    function LinkedEntry(phys: nat, readOnly: bool): TlbEntry {
      var f := flags(phys);
      TlbEntry(if f.readable then phys else NO_HOST, if f.writeable && !readOnly then phys else NO_HOST,
               PhysHandler(phys), if readOnly then UserROHandler else PhysHandler(phys), phys)
    }

    /** An entry is uninitialised, linked to its page, or linked to it for reading only. */
    ghost predicate Shaped(e: TlbEntry) { Uninit(e) || (e.phys < PAGE_COUNT && e == LinkedEntry(e.phys, e.writeHandler.UserROHandler?)) }

    /** What becomes of a supervisor write to a page that is linked for reading only: the value is stored through the read
        pointer, which a page that cannot be read in this way does not have. */
    function SupervisorStore(phys: nat): Outcome { ThroughRead(flags(phys)) }

    /** The journal covers the TLB: whatever is linked is recorded, so a flush finds it. */
    ghost predicate Valid()
      reads this, tlb, links, firstmb
    {
      && tlb.Length == PAGE_COUNT && links.Length == PAGING_LINKS && firstmb.Length == LINK_START && links != firstmb
      && used <= PAGING_LINKS
      && (forall k :: 0 <= k < used ==> links[k] < PAGE_COUNT)
      && (forall lin {:trigger tlb[lin]} :: 0 <= lin < PAGE_COUNT ==> Shaped(tlb[lin]))
      && (forall lin {:trigger tlb[lin]} :: 0 <= lin < PAGE_COUNT && !Uninit(tlb[lin]) ==> lin in links[..used])
    }

    constructor (flags: nat -> Flags, arch: Arch)
      ensures Valid() && !enabled && forall lin :: 0 <= lin < PAGE_COUNT ==> Uninit(tlb[lin])
      ensures fresh(tlb) && fresh(links) && fresh(firstmb)
    {
      tlb := new TlbEntry[PAGE_COUNT](_ => TlbEntry(NO_HOST, NO_HOST, InitHandler, InitHandler, 0));
      links := new nat[PAGING_LINKS](_ => 0);
      firstmb := new nat[LINK_START]((i: nat) => i);
      used, cr2, cr3, basePage, enabled, memory := 0, 0, 0, 0, false, map[];
      cpl, mpl := 0, 3;
      this.flags, this.arch := flags, arch;
    }

    /** PAGING_ClearTLB: afterwards nothing at all is linked. */
    method ClearTLB()
      requires Valid()
      modifies tlb, this`used
      ensures Valid() && used == 0
      ensures forall lin :: 0 <= lin < PAGE_COUNT ==> Uninit(tlb[lin])
    {
      ghost var recorded := links[..used];
      var k := 0;
      while used > 0
        invariant used + k == |recorded| && k >= 0 && links[..|recorded|] == recorded
        invariant forall lin {:trigger tlb[lin]} :: 0 <= lin < PAGE_COUNT && !Uninit(tlb[lin]) ==> lin in recorded[k..]
        invariant forall lin :: 0 <= lin < PAGE_COUNT ==> Shaped(tlb[lin])
        modifies tlb, this`used
      {
        var page := links[k];
        assert recorded[k..] == [page] + recorded[k + 1..];
        tlb[page] := TlbEntry(NO_HOST, NO_HOST, InitHandler, InitHandler, tlb[page].phys);
        used := used - 1;
        k := k + 1;
      }
    }

    /** The page a linear page has while paging is off. */
    function Plain(lin: nat): nat
      requires firstmb.Length == LINK_START
      reads this, firstmb
    {
      if lin < LINK_START then firstmb[lin] else lin
    }

    function Table(lin: nat): PageEntry
      reads this
    { TableOf(memory, basePage, lin) }

    function Entry(lin: nat): PageEntry
      reads this
    { EntryOf(memory, basePage, lin) }

    /** `cpl & mpl` */
    function Level(): (l: nat)
      reads this
      ensures l <= 3
    { (cpl & mpl) as nat }

    /** The TLB agrees with the page walk, for every page but perhaps `but`. */
    ghost predicate SoundBut(but: int)
      requires tlb.Length == PAGE_COUNT && firstmb.Length == LINK_START
      reads this, tlb, firstmb
    {
      forall lin {:trigger tlb[lin]} :: 0 <= lin < PAGE_COUNT && lin != but ==>
        SoundEntry(tlb[lin], arch, enabled, Table(lin), Entry(lin), Plain(lin))
    }

    /** PAGING_MakePhysPage */
    function MakePhysPage(lin: nat): Option<nat>
      requires firstmb.Length == LINK_START
      reads this, firstmb
    {
      if !enabled then Some(Plain(lin))
      else if Table(lin).p == 0 || Entry(lin).p == 0 then None
      else Some(Entry(lin).base)
    }

    /** Only the entry of `lin` changed, or everything was flushed as well. */
    twostate predicate OnlyEntry(lin: nat)
      reads this, tlb
    {
      && tlb.Length == PAGE_COUNT
      && (forall x {:trigger tlb[x]} :: 0 <= x < PAGE_COUNT && x != lin ==> tlb[x] == old(tlb[x]) || Uninit(tlb[x]))
    }

    /** PAGING_LinkPage and PAGING_LinkPage_ReadOnly; `ok` is false where they give up with E_Exit. */
    method LinkPage(lin: nat, phys: nat, readOnly: bool) returns (ok: bool)
      requires Valid()
      modifies tlb, links, this`used
      ensures Valid() && ok == (lin < PAGE_COUNT && phys < PAGE_COUNT)
      ensures OnlyEntry(lin) && (ok ==> tlb[lin] == LinkedEntry(phys, readOnly) && used > 0 && links[used - 1] == lin)
      ensures !ok ==> tlb[..] == old(tlb[..]) && used == old(used)
    {
      if lin >= PAGE_COUNT || phys >= PAGE_COUNT {
        return false;
      }
      if used >= PAGING_LINKS {
        ClearTLB();
      }
      ghost var recorded := links[..used];
      tlb[lin] := LinkedEntry(phys, readOnly);
      links[used] := lin;
      used := used + 1;
      assert links[..used] == recorded + [lin];
      ok := true;
    }

    /** PAGING_UnlinkPages; the journal is the caller's business. */
    method UnlinkPages(lin: nat, pages: nat)
      requires tlb.Length == PAGE_COUNT && lin + pages <= PAGE_COUNT
      modifies tlb
      ensures forall x {:trigger tlb[x]} :: 0 <= x < PAGE_COUNT ==>
                if lin <= x < lin + pages then Uninit(tlb[x]) else tlb[x] == old(tlb[x])
    {
      var page := lin;
      while page < lin + pages
        invariant lin <= page <= lin + pages
        invariant forall x {:trigger tlb[x]} :: 0 <= x < PAGE_COUNT ==>
                    if lin <= x < page then Uninit(tlb[x]) else tlb[x] == old(tlb[x])
        modifies tlb
      {
        tlb[page] := TlbEntry(NO_HOST, NO_HOST, InitHandler, InitHandler, tlb[page].phys);
        page := page + 1;
      }
    }

    /** InitPageUpdateLink: take a page that was linked for one access only out of the TLB, and possibly link it again
        for reading only.  `lin` is the last page in the journal, unless the access flushed the TLB. */
    method InitPageUpdateLink(relink: nat, lin: nat) returns (ok: bool)
      requires Valid() && lin < PAGE_COUNT
      requires used == 0 || links[used - 1] == lin
      modifies tlb, links, this`used
      ensures Valid() && ok == (relink < PAGE_COUNT)
      ensures OnlyEntry(lin)
      ensures relink == 0 ==> tlb[lin] == old(tlb[lin])
      ensures relink == 1 ==> Uninit(tlb[lin])
      ensures relink > 1 && ok ==> tlb[lin] == LinkedEntry(relink, true)
    {
      ok := true;
      if relink == 0 {
        return;
      }
      ghost var recorded := links[..used];
      if used != 0 {
        if links[used - 1] == lin {
          used := used - 1;
          Popped(recorded, lin);
          assert recorded[..used] == links[..used];
          UnlinkPages(lin, 1);
        }
      }
      if relink > 1 {
        ok := LinkPage(lin, relink, true);
      }
    }

    /** Store accessed and dirty bits, as InitPage does with its copies of the two entries. */
    method SetAccessed(lin: nat, table: PageEntry, entry: PageEntry, dirty: bool)
      requires Valid() && lin < PAGE_COUNT && table == Table(lin) && entry == Entry(lin)
      modifies this`memory
      ensures Valid() && Marks(old(memory), memory, basePage, lin, dirty)
    {
      hide Set, Get, Read, TableAddr, EntryAddr, Marks;
      ghost var m := memory;
      if table.a == 0 {
        memory := memory[TableAddr(basePage, lin) := Get(table.(a := 1))];
      }
      ghost var m1 := memory;
      if entry.a == 0 || entry.d == 0 {
        memory := memory[EntryAddr(table, lin) := Get(entry.(a := 1, d := if dirty then 1 else entry.d))];
      }
      MarkedBy(m, m1, memory, basePage, lin, dirty);
    }

    lemma SoundAfter(m: Memory, but: int)
      requires Valid() && MemoryRaised(m, memory)
      requires forall lin {:trigger tlb[lin]} :: 0 <= lin < PAGE_COUNT && lin != but ==>
                 SoundEntry(tlb[lin], arch, enabled, TableOf(m, basePage, lin), EntryOf(m, basePage, lin), Plain(lin))
      ensures SoundBut(but)
    {
      forall lin {:trigger tlb[lin]} | 0 <= lin < PAGE_COUNT && lin != but
        ensures SoundEntry(tlb[lin], arch, enabled, Table(lin), Entry(lin), Plain(lin))
      {
        WalkRaised(m, memory, basePage, lin);
        SoundRaised(tlb[lin], arch, enabled, TableOf(m, basePage, lin), EntryOf(m, basePage, lin), Table(lin), Entry(lin), Plain(lin));
      }
    }

    /** InitPageHandler::InitPage with paging enabled.  On a fault nothing has changed; otherwise the page is linked and
        the result says how InitPageUpdateLink has to link it for good. */
    method InitPage(addr: nat, writing: bool) returns (r: InitResult)
      requires Valid() && SoundBut(-1) && enabled && addr / 4096 < PAGE_COUNT
      modifies tlb, links, this`used, this`memory, this`cr2
      ensures Valid() && !r.Illegal?
      ensures var f := old(AccessFault(arch, Table(addr / 4096), Entry(addr / 4096), writing, Level()));
              if r.Faulted? then f == Some(r.error) && cr2 == addr else f == None
      ensures r.Faulted? ==> memory == old(memory) && tlb[..] == old(tlb[..]) && SoundBut(-1)
      ensures r.Linked? ==>
                && Marks(old(memory), memory, basePage, addr / 4096, old(Dirties(addr, writing))) && cr2 == old(cr2)
                && AwaitsRelink(addr / 4096, r.relink) && OnlyEntry(addr / 4096)
                && (StaysLinked(old(Table(addr / 4096)), old(Entry(addr / 4096)), writing) ==> r.relink == 0 && !Uninit(tlb[addr / 4096]))
    {
      hide Set, Get, Read, TableAddr, EntryAddr, Marks, PrivCheck, SoundEntry, Alike, Uninit, LinkedEntry, UserFails, AwaitsRelink,
        UserMayWrite;
      var lin := addr / 4096;
      var table, entry := Table(lin), Entry(lin);
      if table.p == 0 || entry.p == 0 {
        cr2 := addr;
        return Faulted((if writing then 2 else 0) + (if Level() == 0 then 0 else 4));
      }
      PrivCheckMeans(arch, table, entry, writing, Level());
      var check := PrivCheck(arch, table, entry, writing, Level());
      if check != 3 {
        CheckZero(arch, table, entry, writing, Level());
      }
      if check == 3 {
        cr2 := addr;
        return Faulted(5 + if writing then 2 else 0);
      }
      var relink := LinkForAccess(lin, table, entry, writing, check);
      r := Linked(relink);
    }

    /** Page `lin` is linked as the last one in the journal, unless everything was flushed, and the rest of the TLB is
        sound; now InitPageUpdateLink(relink) has to be called, which leaves a sound entry. */
    ghost predicate AwaitsRelink(lin: nat, relink: nat)
      requires tlb.Length == PAGE_COUNT && firstmb.Length == LINK_START && links.Length == PAGING_LINKS
      reads this, tlb, links, firstmb
    {
      && SoundBut(lin) && enabled
      && used <= PAGING_LINKS && (used == 0 || links[used - 1] == lin) && lin < PAGE_COUNT
      && relink < PAGE_COUNT
      && (relink == 0 ==> SoundEntry(tlb[lin], arch, enabled, Table(lin), Entry(lin), Plain(lin)))
      && (relink > 1 ==> SoundEntry(LinkedEntry(relink, true), arch, enabled, Table(lin), Entry(lin), Plain(lin)))
    }

    /** A page that InitPage need not take out of the TLB again. */
    predicate StaysLinked(table: PageEntry, entry: PageEntry, writing: bool) {
      !Tracks(arch) || (!writing && UserMayRead(arch, table, entry))
    }

    /** An access that links the page marks it as dirty: if it is a write, or if later writes will not be noticed because
        protection is not tracked or the page may be written by everybody. */
    ghost predicate Dirties(addr: nat, writing: bool)
      reads this
    { writing || !Tracks(arch) || UserMayWrite(arch, Table(addr / 4096), Entry(addr / 4096)) }

    /** The entries of the page are marked; the TLB stays sound. */
    method MarkForAccess(lin: nat, table: PageEntry, entry: PageEntry, dirty: bool)
      requires Valid() && SoundBut(-1) && lin < PAGE_COUNT && table == Table(lin) && entry == Entry(lin)
      modifies this`memory
      ensures Valid() && SoundBut(-1) && Marks(old(memory), memory, basePage, lin, dirty)
      ensures Raised(table, Table(lin)) && Raised(entry, Entry(lin)) && IsMarked(Table(lin), Entry(lin), dirty)
    {
      hide Set, Get, Read, TableAddr, EntryAddr, Marks, MemoryRaised, Alike, SoundEntry;
      ghost var m := memory;
      SetAccessed(lin, table, entry, dirty);
      MarksRaise(m, memory, basePage, lin, dirty);
      SoundAfter(m, -1);
      WalkRaised(m, memory, basePage, lin);
    }

    /** The rest of InitPage, once no fault is left to raise. */
    method LinkForAccess(lin: nat, table: PageEntry, entry: PageEntry, writing: bool, check: nat) returns (relink: nat)
      requires Valid() && SoundBut(-1) && enabled && lin < PAGE_COUNT && table == Table(lin) && entry == Entry(lin)
      requires Present(table, entry) && check == PrivCheck(arch, table, entry, writing, Level()) != 3
      modifies tlb, links, this`used, this`memory
      ensures Valid() && Marks(old(memory), memory, basePage, lin, writing || check == 0) && AwaitsRelink(lin, relink) && OnlyEntry(lin)
      ensures StaysLinked(table, entry, writing) ==> relink == 0 && !Uninit(tlb[lin])
    {
      hide Set, Get, Read, TableAddr, EntryAddr, Marks, MemoryRaised, PrivCheck, Alike, UserFails, UserMayWrite, UserMayRead,
        TableOf, EntryOf;
      PrivCheckRange(arch, table, entry, writing, Level());
      MarkForAccess(lin, table, entry, writing || check == 0);
      var phys := entry.base;
      var ok := LinkPage(lin, phys, check == 2 && !writing);
      LinkedSound(LinkedEntry(phys, false), LinkedEntry(phys, true), arch, table, entry, Table(lin), Entry(lin), Plain(lin), writing, Level());
      if check == 0 {
        relink := 0;
      } else if check == 1 {
        relink := 1;
      } else if writing {
        if !flags(phys).readable {
          relink := 1;
        } else if !flags(phys).writeable {
          relink := 1;
        } else if !flags(phys).sameHost {
          relink := 1;
        } else {
          relink := if phys > 1 then phys else 1;
        }
      } else {
        relink := 0;
      }
    }

    /** The outcome of an access decided by the walk alone. */
    function WalkOutcome(addr: nat, writing: bool): Outcome
      reads this
    {
      OutcomeOf(AccessFault(arch, Table(addr / 4096), Entry(addr / 4096), writing, Level()))
    }

    /** What the TLB and the walk together do for an access: on the architectures that track protection exactly what the
        walk decides, except that a supervisor write to a page linked for reading only does not go through the page's own
        way to write; it ends well iff the page can be written and uses the same host memory for both.  On the other
        architectures the walk decides if and only if the page is not linked yet or the walk has no objection, because
        whoever links a page links it for everybody. */
    ghost predicate Decides(before: TlbEntry, writing: bool, outcome: Outcome, walk: Outcome)
      reads this
    {
      outcome == if writing && before.writeHandler.UserROHandler? && Level() != 3 then SupervisorStore(before.phys)
                 else if Tracks(arch) || Uninit(before) then walk
                 else Done
    }

    lemma LinkedDecision(addr: nat, writing: bool)
      requires Valid() && SoundBut(-1) && enabled && addr / 4096 < PAGE_COUNT
      ensures var e := tlb[addr / 4096];
              && (Uninit(e) ==> e.read == e.write == NO_HOST && e.readHandler == e.writeHandler == InitHandler)
              && (!Uninit(e) ==> !e.readHandler.InitHandler? && !e.readHandler.UserROHandler? && !e.writeHandler.InitHandler?)
              && (e.write != NO_HOST ==> !Uninit(e) && !e.writeHandler.UserROHandler?)
              && (e.read != NO_HOST ==> !Uninit(e))
              && (e.writeHandler.UserROHandler? ==> !Uninit(e) && (e.read == NO_HOST <==> !flags(e.phys).readable))
              && (!Tracks(arch) && !Uninit(e) ==> !e.writeHandler.UserROHandler?)
              && (Tracks(arch) && !Uninit(e) ==>
                    WalkOutcome(addr, writing) ==
                    if writing && e.writeHandler.UserROHandler? && Level() == 3 then Fault(7) else Done)
    {
      assert Shaped(tlb[addr / 4096]);
    }

    /** The access goes through; `flush` tells whether the handler of the page flushed the TLB meanwhile, as a code page
        that is given up does.  Then the page is taken out again or kept as InitPage asked for. */
    method AccessAndRelink(lin: nat, relink: nat, flush: bool)
      requires Valid() && AwaitsRelink(lin, relink)
      modifies tlb, links, this`used
      ensures Valid() && SoundBut(-1)
      ensures relink == 0 && !flush ==> tlb[lin] == old(tlb[lin])
    {
      hide Set, Get, Read, TableAddr, EntryAddr, UserFails, UserMayRead, UserMayWrite, Present, LinkedEntry, TableOf, EntryOf;
      if flush {
        ClearTLB();
      }
      var ok := InitPageUpdateLink(relink, lin);
    }

    /** mem_readb and mem_writeb and their wider forms, within one page, with paging enabled. */
    method Access(addr: nat, writing: bool, flush: bool) returns (outcome: Outcome)
      requires Valid() && SoundBut(-1) && enabled && addr / 4096 < PAGE_COUNT
      modifies tlb, links, this`used, this`memory, this`cr2
      ensures Valid() && SoundBut(-1)
      ensures if outcome.Done? && old(Uninit(tlb[addr / 4096]))
              then Marks(old(memory), memory, basePage, addr / 4096, old(Dirties(addr, writing))) else memory == old(memory)
      ensures Decides(old(tlb[addr / 4096]), writing, outcome, old(WalkOutcome(addr, writing)))
      ensures outcome.Fault? ==> cr2 == addr && memory == old(memory) && tlb[..] == old(tlb[..])
      ensures outcome.Done? && !flush && old(Uninit(tlb[addr / 4096]) && StaysLinked(Table(addr / 4096), Entry(addr / 4096), writing)) ==>
                !Uninit(tlb[addr / 4096])
      ensures outcome.Done? && !flush && !Tracks(arch) ==> !Uninit(tlb[addr / 4096])
    {
      hide Set, Get, Read, TableAddr, EntryAddr, Marks, SoundEntry, AwaitsRelink, Paging.Shaped, TableOf, EntryOf, AccessFault, Paging.Dirties;
      LinkedDecision(addr, writing);
      var lin := addr / 4096;
      var e := tlb[lin];
      if (if writing then e.write else e.read) != NO_HOST {
        return Done;
      }
      match if writing then e.writeHandler else e.readHandler {
        case PhysHandler(_) =>
          if flush {
            ClearTLB();
            FlushedIsSound();
          }
          outcome := Done;
        case UserROHandler =>
          if Level() != 3 {
            return StoreThroughRead(lin);
          }
          cr2 := addr;
          outcome := Fault(7);
        case InitHandler =>
          var r := InitPage(addr, writing);
          match r {
            case Faulted(error) => outcome := Fault(error);
            case Linked(relink) =>
              AccessAndRelink(lin, relink, flush);
              outcome := Done;
          }
      }
    }

    /** `host_writeb(get_tlb_read(addr) + addr, val)` */
    function StoreThroughRead(lin: nat): Outcome
      requires lin < tlb.Length
      reads tlb
    {
      var e := tlb[lin];
      if e.read == NO_HOST then NullHost
      else if flags(e.phys).writeable && flags(e.phys).sameHost then Done
      else PastHandler
    }

    /** InitPageHandler::InitPageCheckOnly with paging enabled: the same decision, reported instead of raised. */
    method InitPageCheckOnly(addr: nat, writing: bool) returns (fault: Option<nat>)
      requires Valid() && enabled
      modifies this`cr2
      ensures Valid() && fault == old(AccessFault(arch, Table(addr / 4096), Entry(addr / 4096), writing, Level()))
      ensures cr2 == if fault.Some? then addr else old(cr2)
    {
      hide Set, Get, Read, TableAddr, EntryAddr, TableOf, EntryOf;
      var table, entry := Table(addr / 4096), Entry(addr / 4096);
      if table.p == 0 || entry.p == 0 {
        cr2 := addr;
        return Some((if writing then 2 else 0) + (if Level() == 0 then 0 else 4));
      }
      if Level() != 3 {
        return None;
      }
      if UserFails(arch, entry.us, table.us) || ((entry.wr == 0 || table.wr == 0) && writing) {
        cr2 := addr;
        return Some(5 + if writing then 2 else 0);
      }
      fault := None;
    }

    /** mem_readb_checked and mem_writeb_checked and their wider forms: they decide exactly as the unchecked accesses. */
    method CheckedAccess(addr: nat, writing: bool, flush: bool) returns (outcome: Outcome)
      requires Valid() && SoundBut(-1) && enabled && addr / 4096 < PAGE_COUNT
      modifies tlb, links, this`used, this`memory, this`cr2
      ensures Valid() && SoundBut(-1)
      ensures if outcome.Done? && old(Uninit(tlb[addr / 4096]))
              then Marks(old(memory), memory, basePage, addr / 4096, old(Dirties(addr, writing))) else memory == old(memory)
      ensures Decides(old(tlb[addr / 4096]), writing, outcome, old(WalkOutcome(addr, writing)))
      ensures outcome.Fault? ==> cr2 == addr && memory == old(memory) && tlb[..] == old(tlb[..])
    {
      hide Set, Get, Read, TableAddr, EntryAddr, Marks, SoundEntry, AwaitsRelink, Paging.Shaped, TableOf, EntryOf, AccessFault, Paging.Dirties;
      LinkedDecision(addr, writing);
      var lin := addr / 4096;
      var e := tlb[lin];
      if (if writing then e.write else e.read) != NO_HOST {
        return Done;
      }
      match if writing then e.writeHandler else e.readHandler {
        case PhysHandler(_) =>
          if flush {
            ClearTLB();
            FlushedIsSound();
          }
          outcome := Done;
        case UserROHandler =>
          if Level() != 3 {
            return StoreThroughRead(lin);
          }
          outcome := WriteToReadOnly(addr);
        case InitHandler =>
          var fault := InitPageCheckOnly(addr, writing);
          match fault {
            case Some(error) => outcome := Fault(error);
            case None => outcome := Access(addr, writing, flush);
          }
      }
    }

    /** InitPageUserROHandler::InitPageCheckOnly for a user write: the tables are consulted again. */
    method WriteToReadOnly(addr: nat) returns (outcome: Outcome)
      requires Valid() && SoundBut(-1) && enabled && addr / 4096 < PAGE_COUNT && Level() == 3
      modifies tlb, links, this`used, this`cr2
      ensures Valid() && (SoundBut(-1) <==> outcome.Fault? || IsMarked(Table(addr / 4096), Entry(addr / 4096), true))
      ensures outcome == if old(WalkOutcome(addr, true)).Done? && !flags(Entry(addr / 4096).base).writeable then NullHost
                         else old(WalkOutcome(addr, true))
      ensures outcome.Fault? ==> cr2 == addr && tlb[..] == old(tlb[..])
    {
      hide Set, Get, Read, TableAddr, EntryAddr, TableOf, EntryOf;
      var lin := addr / 4096;
      var table, entry := Table(lin), Entry(lin);
      if table.p == 0 || entry.p == 0 {
        cr2 := addr;
        return Fault(2 + if Level() == 0 then 0 else 4);
      }
      if UserFails(arch, entry.us, table.us) || entry.wr == 0 || table.wr == 0 {
        cr2 := addr;
        return Fault(7);
      }
      var ok := LinkPage(lin, entry.base, false);
      outcome := if tlb[lin].write != NO_HOST then Done else NullHost;
    }

    lemma FlushedIsSound()
      requires Valid() && forall lin :: 0 <= lin < PAGE_COUNT ==> Uninit(tlb[lin])
      ensures SoundBut(-1)
    {
    }

    // ---- accesses without paging, and changes of the mapping ----

    /** Any access with paging disabled: it may end in E_Exit, never in a fault. */
    method PlainAccess(addr: nat, writing: bool, flush: bool) returns (outcome: Outcome)
      requires Valid() && SoundBut(-1) && !enabled && addr / 4096 < PAGE_COUNT
      modifies tlb, links, this`used
      ensures Valid() && SoundBut(-1)
      ensures outcome == if Plain(addr / 4096) >= PAGE_COUNT then Fatal else Done
    {
      hide Set, Get, Read, TableAddr, EntryAddr, TableOf, EntryOf;
      var lin := addr / 4096;
      assert Shaped(tlb[lin]) && SoundEntry(tlb[lin], arch, enabled, Table(lin), Entry(lin), Plain(lin));
      var e := tlb[lin];
      outcome := Done;
      if (if writing then e.write else e.read) == NO_HOST {
        if (if writing then e.writeHandler else e.readHandler).InitHandler? {
          var ok := LinkPage(lin, Plain(lin), false);
          if !ok {
            return Fatal;
          }
        }
        if flush {
          ClearTLB();
        }
      }
    }

    /** PAGING_MapPage of low memory; it forgets the link of the page, but not that the journal mentions it. */
    method MapLowPage(lin: nat, phys: nat)
      requires Valid() && lin < LINK_START
      modifies tlb, firstmb
      ensures Valid() && (old(SoundBut(-1)) ==> SoundBut(-1)) && firstmb[..] == old(firstmb[..])[lin := phys] && Uninit(tlb[lin])
      ensures forall x :: 0 <= x < PAGE_COUNT && x != lin ==> tlb[x] == old(tlb[x])
    {
      hide Set, Get, Read, TableAddr, EntryAddr, TableOf, EntryOf;
      firstmb[lin] := phys;
      tlb[lin] := TlbEntry(NO_HOST, NO_HOST, InitHandler, InitHandler, tlb[lin].phys);
      if old(SoundBut(-1)) {
        forall x {:trigger tlb[x]} | 0 <= x < PAGE_COUNT ensures SoundEntry(tlb[x], arch, enabled, Table(x), Entry(x), Plain(x)) {
          assert x != lin ==> tlb[x] == old(tlb[x]) && Plain(x) == old(Plain(x));
        }
      }
    }

    /** PAGING_SetDirBase */
    method SetDirBase(cr3: nat)
      requires Valid()
      modifies this`cr3, this`basePage, tlb, this`used
      ensures Valid() && this.cr3 == cr3 && basePage == cr3 / 4096
      ensures enabled ==> forall lin :: 0 <= lin < PAGE_COUNT ==> Uninit(tlb[lin])
      ensures !enabled ==> tlb[..] == old(tlb[..])
      ensures enabled || old(SoundBut(-1)) ==> SoundBut(-1)
    {
      hide Set, Get, Read, TableAddr, EntryAddr, TableOf, EntryOf;
      this.cr3 := cr3;
      basePage := cr3 / 4096;
      if enabled {
        ClearTLB();
      } else if old(SoundBut(-1)) {
        forall lin {:trigger tlb[lin]} | 0 <= lin < PAGE_COUNT
          ensures SoundEntry(tlb[lin], arch, enabled, Table(lin), Entry(lin), Plain(lin))
        {
          assert old(SoundEntry(tlb[lin], arch, enabled, Table(lin), Entry(lin), Plain(lin)));
        }
      }
    }

    /** PAGING_Enable: a change of mode empties the TLB, so no link of one mode is used in the other. */
    method Enable(on: bool)
      requires Valid()
      modifies this`enabled, this`cr3, this`basePage, tlb, this`used
      ensures Valid() && enabled == on && cr3 == old(cr3) && basePage == if on && !old(enabled) then cr3 / 4096 else old(basePage)
      ensures on != old(enabled) || old(SoundBut(-1)) ==> SoundBut(-1)
      ensures on != old(enabled) ==> forall lin :: 0 <= lin < PAGE_COUNT ==> Uninit(tlb[lin])
    {
      hide Set, Get, Read, TableAddr, EntryAddr, TableOf, EntryOf, SoundEntry;
      if enabled == on {
        return;
      }
      enabled := on;
      if on {
        SetDirBase(cr3);
      }
      ClearTLB();
      FlushedIsSound();
    }

    /** No walk to a linked page reads the dword at `addr`; as both entries of a linked page are present, this is so for
        every dword that does not hold a present entry. */
    predicate OffTheWalks(addr: nat)
      requires tlb.Length == PAGE_COUNT
      reads this, tlb
    {
      !enabled || forall lin {:trigger tlb[lin]} :: 0 <= lin < PAGE_COUNT && !Uninit(tlb[lin]) ==>
                    addr != TableAddr(basePage, lin) && addr != EntryAddr(Table(lin), lin)
    }

    lemma NotPresentIsOff(addr: nat)
      requires Valid() && SoundBut(-1) && Set(Read(memory, addr)).p == 0
      ensures OffTheWalks(addr)
    {
      hide Set, Get, Read, TableAddr, EntryAddr;
      forall lin {:trigger tlb[lin]} | enabled && 0 <= lin < PAGE_COUNT && !Uninit(tlb[lin])
        ensures addr != TableAddr(basePage, lin) && addr != EntryAddr(Table(lin), lin)
      {
        assert SoundEntry(tlb[lin], arch, enabled, Table(lin), Entry(lin), Plain(lin));
      }
    }

    /** The guest stores a dword; the TLB stays sound if no walk to a linked page reads it. */
    method GuestStore(addr: nat, v: Dword)
      requires Valid()
      modifies this`memory
      ensures Valid() && memory == old(memory)[addr := v]
      ensures old(SoundBut(-1) && OffTheWalks(addr)) ==> SoundBut(-1)
    {
      ghost var off := SoundBut(-1) && OffTheWalks(addr);
      ghost var m := memory;
      memory := memory[addr := v];
      hide Set, Get, TableAddr, EntryAddr;
      if off {
        forall lin {:trigger tlb[lin]} | 0 <= lin < PAGE_COUNT
          ensures SoundEntry(tlb[lin], arch, enabled, Table(lin), Entry(lin), Plain(lin))
        {
          assert SoundEntry(tlb[lin], arch, enabled, TableOf(m, basePage, lin), EntryOf(m, basePage, lin), Plain(lin));
        }
      }
    }

    /** A linked page is marked as accessed, and as dirty if it is linked for writing. */
    lemma LinkedPageIsMarked(lin: nat)
      requires Valid() && SoundBut(-1) && enabled && lin < PAGE_COUNT && !Uninit(tlb[lin])
      ensures Table(lin).a == 1 && Entry(lin).a == 1 && (tlb[lin].write != NO_HOST ==> Entry(lin).d == 1)
    {
      assert Shaped(tlb[lin]) && SoundEntry(tlb[lin], arch, enabled, Table(lin), Entry(lin), Plain(lin));
    }

    /** What a linked page was linked to is what PAGING_MakePhysPage computes now. */
    lemma LinkedPageIsWalked(lin: nat)
      requires Valid() && SoundBut(-1) && lin < PAGE_COUNT && !Uninit(tlb[lin])
      ensures MakePhysPage(lin) == Some(tlb[lin].phys)
    {
      assert SoundEntry(tlb[lin], arch, enabled, Table(lin), Entry(lin), Plain(lin));
    }

    /** On a tracking architecture nothing that is linked lets a user access do more than the walk permits. */
    lemma LinkedPageIsPermitted(lin: nat)
      requires Valid() && SoundBut(-1) && enabled && Tracks(arch) && lin < PAGE_COUNT
      ensures tlb[lin].read != NO_HOST || tlb[lin].readHandler.PhysHandler? ==> UserMayRead(arch, Table(lin), Entry(lin))
      ensures tlb[lin].write != NO_HOST || tlb[lin].writeHandler.PhysHandler? ==> UserMayWrite(arch, Table(lin), Entry(lin))
    {
      assert Shaped(tlb[lin]) && SoundEntry(tlb[lin], arch, enabled, Table(lin), Entry(lin), Plain(lin));
    }
  }

  lemma PrivCheckRange(arch: Arch, table: PageEntry, entry: PageEntry, writing: bool, level: nat)
    ensures PrivCheck(arch, table, entry, writing, level) <= 3
    ensures !Tracks(arch) ==> PrivCheck(arch, table, entry, writing, level) in {0, 3}
    ensures UserMayRead(arch, table, entry) ==> PrivCheck(arch, table, entry, writing, level) != 1
  {
  }

  /** Class 3 is exactly the page fault of the walk. */
  lemma PrivCheckMeans(arch: Arch, table: PageEntry, entry: PageEntry, writing: bool, level: nat)
    requires Fits(table) && Fits(entry) && Present(table, entry)
    ensures AccessFault(arch, table, entry, writing, level) ==
            if PrivCheck(arch, table, entry, writing, level) == 3 then Some(5 + if writing then 2 else 0) else None
  {
  }

  /** The link of an unclassified page, and the read-only link of a write-protected one, can stay. */
  lemma LinkedSound(full: TlbEntry, readOnly: TlbEntry, arch: Arch, table: PageEntry, entry: PageEntry, table': PageEntry, entry': PageEntry,
                    plain: nat, writing: bool, level: nat)
    requires Fits(table) && Fits(entry) && Present(table, entry) && Alike(table, table') && Alike(entry, entry')
    requires IsMarked(table', entry', PrivCheck(arch, table, entry, writing, level) == 0)
    requires full.phys == readOnly.phys == entry.base && !full.writeHandler.UserROHandler? && readOnly.writeHandler.UserROHandler?
    ensures var check := PrivCheck(arch, table, entry, writing, level);
            && (check == 0 ==> SoundEntry(full, arch, true, table', entry', plain))
            && (check == 2 ==> SoundEntry(readOnly, arch, true, table', entry', plain))
  {
  }

  /** A page is unclassified if protection is not tracked or everybody may write it. */
  lemma CheckZero(arch: Arch, table: PageEntry, entry: PageEntry, writing: bool, level: nat)
    requires Fits(table) && Fits(entry) && Present(table, entry) && PrivCheck(arch, table, entry, writing, level) != 3
    ensures PrivCheck(arch, table, entry, writing, level) == 0 <==> !Tracks(arch) || UserMayWrite(arch, table, entry)
  {
  }

  lemma Popped(recorded: seq<nat>, lin: nat)
    requires recorded != [] && recorded[|recorded| - 1] == lin
    ensures forall x :: x in recorded ==> x == lin || x in recorded[..|recorded| - 1]
  {
    assert recorded == recorded[..|recorded| - 1] + [lin];
  }

  /** On an architecture that does not track protection the page walk is bypassed on every page a user must not read:
      a supervisor access links it, and the following user read succeeds although the walk would raise a fault. */
  method UntrackedBypass(p: Paging, addr: nat) returns (supervisor: Outcome, user: Outcome, walk: Outcome)
    requires p.Valid() && p.SoundBut(-1) && p.enabled && !Tracks(p.arch) && addr / 4096 < PAGE_COUNT
    requires Present(p.Table(addr / 4096), p.Entry(addr / 4096)) && !UserMayRead(p.arch, p.Table(addr / 4096), p.Entry(addr / 4096))
    modifies p, p.tlb, p.links
    ensures supervisor == Done && user == Done && walk == Fault(5)
  {
    hide Set, Get, Read, TableAddr, EntryAddr, TableOf, EntryOf, SoundEntry, MemoryAlike, Marks, MemoryRaised;
    ghost var m, missed := p.memory, Uninit(p.tlb[addr / 4096]);
    p.cpl, p.mpl := 0, 3;
    ghost var dirty := p.Dirties(addr, false);
    supervisor := p.Access(addr, false, false);
    p.cpl := 3;
    MarkedOrNot(m, p.memory, p.basePage, addr / 4096, dirty, missed && supervisor.Done?);
    WalkAlike(m, p.memory, p.basePage, addr / 4096);
    AccessFaultAlike(p.arch, TableOf(m, p.basePage, addr / 4096), EntryOf(m, p.basePage, addr / 4096),
                     p.Table(addr / 4096), p.Entry(addr / 4096), false, 3);
    walk := p.WalkOutcome(addr, false);
    user := p.Access(addr, false, false);
  }

  /** Such a page exists: a present supervisor page, here in both of its entries. */
  lemma SupervisorPage()
    ensures var e := Set(5 * 4096 + 3); AccessFault(Mixed, e, e, false, 3) == Some(5) && AccessFault(Mixed, e, e, false, 0) == None
  {
    assert Half(5 * 4096 + 3) == 10241 && Half(10241) == 5120;
  }

  /** A supervisor write past a page's own way to write, or through a null pointer: on the architectures that track
      protection, any page that users may read but not write is linked for reading only by whoever reads it first, and the
      next supervisor write goes through the read pointer.  It does not mark the page as dirty either. */
  method WriteProtectedStore(p: Paging, addr: nat) returns (reading: Outcome, writing: Outcome, walk: Outcome)
    requires p.Valid() && p.SoundBut(-1) && p.enabled && Tracks(p.arch) && addr / 4096 < PAGE_COUNT && Uninit(p.tlb[addr / 4096])
    requires UserMayRead(p.arch, p.Table(addr / 4096), p.Entry(addr / 4096)) &&
            !UserMayWrite(p.arch, p.Table(addr / 4096), p.Entry(addr / 4096))
    modifies p, p.tlb, p.links
    ensures p.Valid() && p.SoundBut(-1) && reading == Done && walk == Done
    ensures var f := p.flags(old(p.Entry(addr / 4096)).base);
            && (writing == NullHost <==> !f.readable)
            && (writing == Done <==> f.readable && f.writeable && f.sameHost)
            && (writing == PastHandler <==> f.readable && !(f.writeable && f.sameHost))
    ensures p.Entry(addr / 4096).d == old(p.Entry(addr / 4096).d)
  {
    hide Set, Get, Read, TableAddr, EntryAddr, TableOf, EntryOf, MemoryAlike, Marks, MemoryRaised;
    ghost var m := p.memory;
    p.cpl, p.mpl := 0, 3;
    reading := p.Access(addr, false, false);
    MarksRaise(m, p.memory, p.basePage, addr / 4096, false);
    RaisedAlike(m, p.memory);
    WalkAlike(m, p.memory, p.basePage, addr / 4096);
    walk := p.WalkOutcome(addr, true);
    writing := p.Access(addr, true, false);
  }

  /** Such a page exists: page 0 of this table is present, for users, and write-protected. */
  lemma WriteProtectedPage(m: Memory, arch: Arch, t: PageEntry, e: PageEntry)
    requires t == PageEntry(1, 0, 1, 0, 0, 0, 0, 0, 0, 0, 2) && e == PageEntry(1, 0, 1, 0, 0, 0, 0, 0, 0, 0, 5)
    requires m == map[4096 := Get(t), 2 * 4096 := Get(e)]
    ensures UserMayRead(arch, TableOf(m, 1, 0), EntryOf(m, 1, 0)) && !UserMayWrite(arch, TableOf(m, 1, 0), EntryOf(m, 1, 0))
  {
    hide Set, Get;
    SetGet(t);
    SetGet(e);
    assert Read(m, TableAddr(1, 0)) == Get(t) && Read(m, EntryAddr(t, 0)) == Get(e);
  }
}
