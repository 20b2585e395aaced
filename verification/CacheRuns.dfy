/**
 Whole runs of the code cache: any sequence of pages taken and given back, guest
 writes of every kind, and stretches of translated code.
 */
module CacheRuns {
  import opened Chains
  import opened LinkTables
  import opened CodePages
  import opened CacheInvariants
  import opened Decoding
  import opened RunTraces
  import opened CodeCaches

  /** MakeCodePage and ClearRelease, guest writes, the run loop from a lookup on, and the running block going on by its
      exits after it was interrupted by other steps. */
  datatype Step =
    | Take(page: nat)
    | Give(page: nat)
    | Write(page: nat, addr: nat, val: seq<int>, ip: int)
    | WriteChecked(page: nat, addr: nat, val: seq<int>, ip: int)
    | Execute(page: nat, offset: nat, fetches: seq<Fetch>, nextPage: nat, second: seq<Fetch>, written: nat, exits: seq<Exit>)
    | Leave(exits: seq<Exit>)

  /** How a step ended: with nothing to tell, as a write, with the blocks that ran (`translated` where the first one had to be
      made, `spoiled` where a dropped block was linked again), without room in a counter of a byte to translate, or with
      E_Exit for lack of blocks or arena. */
  datatype Report = Quiet | Wrote(outcome: WriteOutcome) | Ran(trace: seq<int>, translated: bool, spoiled: bool) | Full | GaveUp

  /** The run is not followed further: the program stopped, or the cache is not what it should be. */
  predicate Ends(r: Report) { r.Full? || r.GaveUp? || r == Wrote(Fatal) || (r.Ran? && r.spoiled) }

  predicate ExitsOk(exits: seq<Exit>, pages: nat) { forall e <- exits :: e.ind < 2 && 0 <= e.p < pages && e.offset < PAGE_SIZE }

  /** The numbers in a step are pages, offsets and lengths. */
  predicate StepOk(s: Step, pages: nat) {
    match s
    case Take(p) => p < pages
    case Give(p) => p < pages
    case Write(p, addr, val, _) => p < pages && 1 <= |val| <= 4 && addr + |val| <= PAGE_SIZE
    case WriteChecked(p, addr, val, _) => p < pages && 1 <= |val| <= 4 && addr + |val| <= PAGE_SIZE
    case Execute(p, offset, fetches, q, second, written, exits) =>
      && p < pages && offset < PAGE_SIZE && written > 0 && ExitsOk(exits, pages)
      && WellFormed(fetches) && Total(fetches) > 0 && offset + Total(fetches) <= PAGE_SIZE
      && (second != [] ==>
              offset + Total(fetches) == PAGE_SIZE && q < pages && q != p && WellFormed(second) && 0 < Total(second) <= PAGE_SIZE)
    case Leave(exits) => ExitsOk(exits, pages)
  }

  predicate IsWrite(s: Step) { s.Write? || s.WriteChecked? }

  // ---- what a run does to memory, told from its steps and reports ----

  predicate MemoryOk(memory: seq<seq<int>>) { forall row <- memory :: |row| == PAGE_SIZE }

  function After(memory: seq<seq<int>>, s: Step, r: Report): (memory': seq<seq<int>>)
    requires MemoryOk(memory) && StepOk(s, |memory|)
    ensures MemoryOk(memory') && |memory'| == |memory|
  {
    if IsWrite(s) && r == Wrote(Done) then memory[s.page := Stored(memory[s.page], s.addr, s.val)] else memory
  }

  predicate StepsOk(steps: seq<Step>, pages: nat) { forall s <- steps :: StepOk(s, pages) }

  function MemoryAfter(memory: seq<seq<int>>, steps: seq<Step>, reports: seq<Report>): (memory': seq<seq<int>>)
    requires MemoryOk(memory) && StepsOk(steps, |memory|) && |reports| == |steps|
    ensures MemoryOk(memory') && |memory'| == |memory|
  {
    if steps == [] then memory else
      var n := |steps| - 1;
      After(MemoryAfter(memory, steps[..n], reports[..n]), steps[n], reports[n])
  }

  /** The step made a block. */
  predicate Translates(r: Report) { r.Ran? && r.translated }

  /** The step drops no block: it is no page release, and no write that is carried out in, or reported from, a page of `homes`. */
  predicate Gentle(s: Step, r: Report, homes: set<int>) {
    !s.Give? && (IsWrite(s) ==> r == Wrote(Ignored) || s.page !in homes)
  }

  /** What else a run tells: how many translations there were, the pages that code is from, and the pages and offsets where a
      block is sure to begin, because one was entered since blocks were dropped last, which a translation may do as well. */
  datatype Tally = Tally(translations: nat, homes: set<int>, known: set<(nat, nat)>) {
    function Next(s: Step, r: Report): Tally {
      if s.Execute? then
        if Translates(r) then Tally(translations + 1, homes + {s.page, s.nextPage}, {(s.page, s.offset)})
        else if r.Ran? then this.(known := known + {(s.page, s.offset)})
        else this
      else if Gentle(s, r, homes) then this
      else this.(known := {})
    }
  }

  function TallyOf(homes: set<int>, steps: seq<Step>, reports: seq<Report>): Tally
    requires |reports| == |steps|
  {
    if steps == [] then Tally(0, homes, {}) else
      var n := |steps| - 1;
      TallyOf(homes, steps[..n], reports[..n]).Next(steps[n], reports[n])
  }

  /** The report fits the step: which writes are carried out; and a running block is stopped only by a checked write that
      changes something in a page with code. */
  predicate Plausible(s: Step, r: Report, rom: seq<bool>, readable: seq<bool>, memory: seq<seq<int>>, homes: set<int>)
    requires MemoryOk(memory) && StepOk(s, |memory|) && |rom| == |readable| == |memory|
  {
    if IsWrite(s) then
      && r.Wrote? && (r.outcome.Ignored? <==> rom[s.page]) && (r.outcome.Fatal? ==> !readable[s.page])
      && (r.outcome.CurrentBlock? ==> s.WriteChecked? && s.page in homes && memory[s.page][s.addr..s.addr + |s.val|] != s.val)
    else match s
      case Take(_) => r.Quiet?
      case Give(_) => r.Quiet?
      case Leave(_) => r.Ran?
      case _ => r.Full? || r.GaveUp? || (r.Ran? && r.trace != [] && !r.spoiled)
  }

  // ---- the steps ----

  /** A write to a page without code handler, through its old handler. */
  method WritePlain(c: CodeCache, page: nat, addr: nat, val: seq<int>) returns (outcome: WriteOutcome)
    requires c.Valid() && c.Coherent() && page < |c.pages.inUse| && !c.pages.inUse[page] && addr + |val| <= PAGE_SIZE
    modifies c`memory
    ensures c.Valid() && c.Coherent() && outcome == if c.rom[page] then Ignored else Done
    ensures c.memory == if outcome.Done? then old(c.memory)[page := Stored(old(c.memory)[page], addr, val)] else old(c.memory)
  {
    hide ArenaOk, PlacesOk, Chain, HashOk, WriteMapOk, CrossOk, LinksOk, ActiveOk, Stored, AllFresh;
    if c.rom[page] {
      return Ignored;
    }
    UnusedHasNoBlocks(c.pages.handler, c.pages.index, c.pages.span, c.pages.source, c.pages.inUse, page);
    var row := Stored(c.memory[page], addr, val);
    OtherPage(c.pages.handler, c.pages.source, c.memory, page, row);
    c.Store(page, row);
    outcome := Done;
  }

  lemma OtherPage(handler: seq<int>, source: seq<map<int, int>>, memory: seq<seq<int>>, page: nat, row: seq<int>)
    requires AllFresh(handler, source, memory) && page < |memory|
    requires forall b :: 0 <= b < |handler| ==> handler[b] != page
    ensures AllFresh(handler, source, memory[page := row])
  {
    forall b {:trigger Fresh(handler, source, memory[page := row], b)} | 0 <= b < |handler|
      ensures Fresh(handler, source, memory[page := row], b)
    {
      assert Fresh(handler, source, memory, b);
    }
  }

  /** Whoever writes: the handler of the page decides. */
  method WriteAnywhere(c: CodeCache, s: Step) returns (outcome: WriteOutcome)
    requires c.Valid() && c.Coherent() && |c.rom| == |c.readable| == |c.memory| && MemoryOk(c.memory) && StepOk(s, |c.memory|) && IsWrite(s)
    modifies c, c.link0, c.link1, c.pages
    ensures c.Valid() && c.Coherent() && c.memory == After(old(c.memory), s, Wrote(outcome))
    ensures Plausible(s, Wrote(outcome), c.rom, c.readable, old(c.memory), HomePages(old(c.pages.handler)))
    ensures Dropped(old(c.pages.handler), c.pages.handler) && c.pages.index == old(c.pages.index) && c.arena == old(c.arena)
    ensures !old(c.pages.inUse[s.page]) ==> outcome == (if c.rom[s.page] then Ignored else Done) && c.pages.handler == old(c.pages.handler)
    ensures Kept(old(c.pages.handler), old(c.pages.span), c.pages.handler, c.pages.span)
    ensures Gentle(s, Wrote(outcome), HomePages(old(c.pages.handler))) ==> c.pages.handler == old(c.pages.handler)
  {
    hide ArenaOk, PlacesOk, AllFresh, Chain, HashOk, WriteMapOk, CrossOk, BodiesOk, Fresh, LinksOk, ActiveOk, Stored, Gentle;
    NothingDropped(c.pages.handler);
    if !c.pages.inUse[s.page] {
      outcome := WritePlain(c, s.page, s.addr, s.val);
    } else {
      outcome := WriteToCode(c, s);
    }
  }

  /** A write through the handler for code pages. */
  method WriteToCode(c: CodeCache, s: Step) returns (outcome: WriteOutcome)
    requires c.Valid() && c.Coherent() && |c.rom| == |c.readable| == |c.memory| && MemoryOk(c.memory) && StepOk(s, |c.memory|) && IsWrite(s)
    requires |c.pages.inUse| == |c.memory| && c.pages.inUse[s.page]
    modifies c, c.link0, c.link1, c.pages
    ensures c.Valid() && c.Coherent() && c.memory == After(old(c.memory), s, Wrote(outcome))
    ensures Plausible(s, Wrote(outcome), c.rom, c.readable, old(c.memory), HomePages(old(c.pages.handler)))
    ensures c.pages.index == old(c.pages.index) && c.arena == old(c.arena)
    ensures Kept(old(c.pages.handler), old(c.pages.span), c.pages.handler, c.pages.span)
    ensures Gentle(s, Wrote(outcome), HomePages(old(c.pages.handler))) ==> c.pages.handler == old(c.pages.handler)
  {
    hide CodeCache.Valid, CodeCache.Coherent, Stored, Evicted, Kept, CodeCache.LastIdle;
    ghost var handler, span, cross, homes, current := c.pages.handler, c.pages.span, c.cross, HomePages(c.pages.handler), false;
    if s.Write? {
      outcome, current := c.Write(s.page, s.addr, s.val, s.ip);
    } else {
      outcome := c.WriteChecked(s.page, s.addr, s.val, s.ip);
      current := outcome.CurrentBlock?;
    }
    if s.page !in homes {
      NoneEvicted(handler, span, cross, c.pages.handler, c.pages.span, c.cross, s.page, s.addr, s.addr + |s.val| - 1, s.ip, current);
    }
  }

  lemma NothingDropped(handler: seq<int>)
    ensures Dropped(handler, handler)
  {
  }

  /** MakeCodePage: a page that has no handler for code gets one. */
  method MakeCodePage(c: CodeCache, p: nat)
    requires c.Valid() && c.Coherent() && p < |c.pages.inUse|
    modifies c.pages`inUse, c.pages`hashMap, c.pages`writeMap, c.pages`active, c.pages`countdown, c.pages`chains
    ensures c.Valid() && c.Coherent() && c.pages.inUse == old(c.pages.inUse)[p := true]
    ensures old(c.pages.inUse[p]) ==> unchanged(c.pages)
  {
    hide *;
    if !c.pages.inUse[p] {
      c.TakePage(p);
    }
  }

  lemma Sizes(c: CodeCache)
    requires c.Valid()
    ensures |c.memory| == |c.rom| == |c.readable| == |c.pages.inUse| == |c.pages.writeMap| && MemoryOk(c.memory)
    ensures |c.cross| == |c.pages.handler| == |c.pages.span|
  {
  }

  /** The steps that enter no block: blocks are dropped at most. */
  method Disturb(c: CodeCache, s: Step) returns (r: Report)
    requires c.Valid() && c.Coherent() && |c.rom| == |c.readable| == |c.memory| && MemoryOk(c.memory) && StepOk(s, |c.memory|)
    requires !s.Execute? && !s.Leave?
    modifies c, c.link0, c.link1, c.pages
    ensures c.Valid() && c.Coherent() && c.memory == After(old(c.memory), s, r)
    ensures Plausible(s, r, c.rom, c.readable, old(c.memory), HomePages(old(c.pages.handler)))
    ensures Dropped(old(c.pages.handler), c.pages.handler) && c.pages.index == old(c.pages.index) && c.arena == old(c.arena)
    ensures Kept(old(c.pages.handler), old(c.pages.span), c.pages.handler, c.pages.span)
    ensures Gentle(s, r, HomePages(old(c.pages.handler))) ==> c.pages.handler == old(c.pages.handler)
    ensures s.Take? ==> c.pages.inUse == old(c.pages.inUse)[s.page := true]
    ensures s.Give? ==> c.pages.inUse == old(c.pages.inUse)[s.page := false] && forall b <- c.pages.handler :: b != s.page
  {
    hide ArenaOk, PlacesOk, AllFresh, Chain, HashOk, WriteMapOk, CrossOk, BodiesOk, Fresh, LinksOk, ActiveOk, Plausible, Stored, Gentle;
    NothingDropped(c.pages.handler);
    GentleUnlessGiven(s, Quiet, HomePages(c.pages.handler));
    r := Quiet;
    if s.Take? || s.Give? {
      PlausiblyQuiet(s, c.rom, c.readable, c.memory, HomePages(c.pages.handler));
    }
    if s.Take? {
      MakeCodePage(c, s.page);
    } else if s.Give? && c.pages.inUse[s.page] {
      c.ClearRelease(s.page);
    } else if s.Give? {
      UnusedHasNoBlocks(c.pages.handler, c.pages.index, c.pages.span, c.pages.source, c.pages.inUse, s.page);
    } else {
      var outcome := WriteAnywhere(c, s);
      r := Wrote(outcome);
    }
  }

  lemma GentleUnlessGiven(s: Step, r: Report, homes: set<int>)
    ensures s.Give? ==> !Gentle(s, r, homes)
  {
  }

  lemma PlausiblyQuiet(s: Step, rom: seq<bool>, readable: seq<bool>, memory: seq<seq<int>>, homes: set<int>)
    requires MemoryOk(memory) && StepOk(s, |memory|) && |rom| == |readable| == |memory| && (s.Take? || s.Give?)
    ensures Plausible(s, Quiet, rom, readable, memory, homes)
  {
  }

  /** A translation registers two blocks at most and takes two from the free list. */
  ghost predicate Grew(s: Step, handler: seq<int>, unused: int, handler': seq<int>, unused': int)
    requires s.Execute?
  {
    && |Registered(handler')| <= |Registered(handler)| + 2 && unused' >= unused - 2
    && HomePages(handler') <= HomePages(handler) + {s.page, s.nextPage}
  }

  /** Nothing else does either. */
  ghost predicate Grown(s: Step, r: Report, handler: seq<int>, unused: int, handler': seq<int>, unused': int)
  {
    if s.Execute? && Translates(r) then Grew(s, handler, unused, handler', unused')
    else |Registered(handler')| <= |Registered(handler)| && unused' >= unused && HomePages(handler') <= HomePages(handler)
  }

  /** What a step does to the places where blocks begin.  An execution enters a block that begins where it is to, if there is
      one; otherwise it makes one there, and drops others perhaps.  No other step makes any. */
  ghost predicate PlacedBy(s: Step, r: Report, v: Places, v': Places, homes: set<int>) {
    if !s.Execute? then v'.Within(v) && (Gentle(s, r, homes) ==> v'.Same(v))
    else if v.BeginsAt(s.page, s.offset) then
      r.Ran? && !r.translated && r.trace != [] && v.Begins(r.trace[0], s.page, s.offset) && v' == v
    else if r.Ran? then
      r.translated && r.trace != [] && v'.MoreThan(v, r.trace[0]) && v'.Begins(r.trace[0], s.page, s.offset)
    else v' == v
  }

  /** A counter that has no room counts 255 blocks. */
  method HasRoom(c: CodeCache, p: nat, from: nat, fetches: seq<Fetch>) returns (room: bool)
    requires c.Valid() && p < |c.pages.inUse| && c.pages.inUse[p]
    ensures room <==> c.RoomIn(p, from, fetches)
    ensures !room ==> |Registered(c.pages.handler)| >= 255
  {
    hide ArenaOk, PlacesOk, Chain, HashOk, CrossOk, LinksOk, ActiveOk, BodiesOk;
    room := Room(c.pages.writeMap[p], from, fetches);
    if !room {
      ghost var i :| 0 <= i < PAGE_SIZE && Translated(fetches, from, i) && c.pages.writeMap[p][i] >= 255;
      CountersBelow(c.pages.handler, c.pages.source, c.pages.writeMap, c.pages.inUse, p, i);
    }
  }

  /** The next page is taken too if the code goes on there; is there room for all that will be translated? */
  method Prepare(c: CodeCache, s: Step) returns (room: bool)
    requires c.Valid() && c.Coherent() && s.Execute? && StepOk(s, |c.pages.inUse|) && c.pages.inUse[s.page]
    modifies c.pages`inUse, c.pages`hashMap, c.pages`writeMap, c.pages`active, c.pages`countdown, c.pages`chains
    ensures c.Valid() && c.Coherent() && |c.pages.inUse| == |old(c.pages.inUse)| && c.pages.inUse[s.page]
    ensures s.second != [] ==> c.pages.inUse[s.nextPage]
    ensures room ==> c.RoomIn(s.page, s.offset, s.fetches) && (s.second != [] ==> c.RoomIn(s.nextPage, 0, s.second))
    ensures !room ==> |Registered(c.pages.handler)| >= 255
  {
    hide CodeCache.Valid, CodeCache.Coherent, CodeCache.Parts, CodeCache.RoomIn, Registered, Total, WellFormed;
    if s.second != [] {
      MakeCodePage(c, s.nextPage);
    }
    room := HasRoom(c, s.page, s.offset, s.fetches);
    if room && s.second != [] {
      room := HasRoom(c, s.nextPage, 0, s.second);
    }
  }

  /** There is no block yet, so the code is translated, if there is room. */
  method Produce(c: CodeCache, s: Step) returns (block: int, r: Report)
    requires c.Valid() && c.Coherent() && s.Execute? && StepOk(s, |c.pages.inUse|) && c.pages.inUse[s.page]
    modifies c, c.link0, c.link1, c.pages
    ensures c.memory == old(c.memory) && (block == NULL ==> r.Full? || r.GaveUp?) && (block != NULL ==> r.Quiet?)
    ensures !r.GaveUp? ==> c.Valid() && c.Coherent() && |c.cross| == old(|c.cross|)
    ensures block != NULL ==>
              block in c.link0.live && 0 <= block < |c.cross| && StartsAt(c.pages.handler, c.pages.span, block, s.page, s.offset)
    ensures r.Full? ==> |Registered(old(c.pages.handler))| >= 255
    ensures r.GaveUp? ==> s.written > CACHE_MAXSIZE || old(|c.freeList|) < 2
    ensures r.Full? ==> c.PlacesOf() == old(c.PlacesOf()) && c.freeList == old(c.freeList)
    ensures block != NULL ==> Grew(s, old(c.pages.handler), old(|c.freeList|), c.pages.handler, |c.freeList|)
    ensures block != NULL ==> c.PlacesOf().MoreThan(old(c.PlacesOf()), block)
  {
    Sizes(c);
    PlacesAre(c);
    hide *;
    block, r := NULL, Full;
    var room := Prepare(c, s);
    PlacesAre(c);
    if room {
      block, r := Attempt(c, s);
    }
  }

  lemma PlacesAre(c: CodeCache)
    ensures c.PlacesOf() == Places(c.pages.handler, c.pages.span, c.link0.live)
  {
  }

  method Attempt(c: CodeCache, s: Step) returns (block: int, r: Report)
    requires c.Valid() && c.Coherent() && s.Execute? && StepOk(s, |c.pages.inUse|) && c.pages.inUse[s.page]
    requires s.second != [] ==> c.pages.inUse[s.nextPage] && c.RoomIn(s.nextPage, 0, s.second)
    requires c.RoomIn(s.page, s.offset, s.fetches)
    modifies c, c.link0, c.link1, c.pages
    ensures c.memory == old(c.memory) && (if block == NULL then r.GaveUp? else r.Quiet?)
    ensures block != NULL ==> c.Valid() && c.Coherent() && |c.cross| == old(|c.cross|)
    ensures block != NULL ==>
              block in c.link0.live && 0 <= block < |c.cross| && StartsAt(c.pages.handler, c.pages.span, block, s.page, s.offset)
    ensures r.GaveUp? ==> s.written > CACHE_MAXSIZE || old(|c.freeList|) < 2
    ensures block != NULL ==> Grew(s, old(c.pages.handler), old(|c.freeList|), c.pages.handler, |c.freeList|)
    ensures block != NULL ==> c.PlacesOf().MoreThan(old(c.PlacesOf()), block)
  {
    Sizes(c);
    hide CodeCache.Valid, CodeCache.Coherent, CodeCache.Parts, CodeCache.RoomIn, CodeCache.Calm, CodeCache.RestIs, CodeCache.Splits,
      CodeCache.GoesOn, Registered, HomePages, Total, WellFormed,
      AlikeExcept, Put, AllPlain, CodeCache.PlacesOf;
    var ok;
    block, ok := c.Translate(s.page, s.offset, s.fetches, s.nextPage, s.second, s.written);
    if ok {
      r := Quiet;
      Sizes(c);
    } else {
      block, r := NULL, GaveUp;
    }
  }

  /** The block that begins where the execution is to, if there is one. */
  method LookUp(c: CodeCache, s: Step) returns (block: int)
    requires c.Valid() && c.Coherent() && s.Execute? && StepOk(s, |c.memory|)
    modifies c.pages`inUse, c.pages`hashMap, c.pages`writeMap, c.pages`active, c.pages`countdown, c.pages`chains
    ensures c.Valid() && c.Coherent() && |c.pages.inUse| == |c.memory| && c.pages.inUse[s.page]
    ensures block == NULL ==> !c.PlacesOf().BeginsAt(s.page, s.offset)
    ensures block != NULL ==> c.PlacesOf().Begins(block, s.page, s.offset) && 0 <= block < |c.cross| && unchanged(c.pages)
  {
    hide ArenaOk, PlacesOk, AllFresh, Chain, HashOk, WriteMapOk, CrossOk, Fresh, LinksOk, ActiveOk;
    if !c.pages.inUse[s.page] {
      UnusedHasNoBlocks(c.pages.handler, c.pages.index, c.pages.span, c.pages.source, c.pages.inUse, s.page);
      MakeCodePage(c, s.page);
      return NULL;
    }
    c.StartsInSlot();
    block := c.pages.FindCacheBlock(s.page, s.offset);
  }

  /** The part of the run loop that looks a block up, translates it if there is none, and enters it. */
  method Enter(c: CodeCache, s: Step) returns (r: Report)
    requires c.Valid() && c.Coherent() && s.Execute? && StepOk(s, |c.memory|)
    modifies c, c.link0, c.link1, c.pages
    ensures c.memory == old(c.memory) && (r.Full? || r.GaveUp? || (r.Ran? && r.trace != [] && !r.spoiled))
    ensures !r.GaveUp? ==> c.Valid() && c.Coherent() && |c.cross| == old(|c.cross|)
    ensures r.Ran? ==>
      && GenuineWhereLive(c.pages.handler, c.pages.source, c.memory, c.link0.live, r.trace) && (forall b <- r.trace :: b in c.link0.live)
      && StartsAt(c.pages.handler, c.pages.span, r.trace[0], s.page, s.offset)
    ensures r.Full? ==> |Registered(old(c.pages.handler))| >= 255
    ensures r.GaveUp? ==> s.written > CACHE_MAXSIZE || old(|c.freeList|) < 2
    ensures !r.GaveUp? ==> Grown(s, r, old(c.pages.handler), old(|c.freeList|), c.pages.handler, |c.freeList|)
    ensures !r.GaveUp? ==> PlacedBy(s, r, old(c.PlacesOf()), c.PlacesOf(), {})
    ensures old(c.PlacesOf()).BeginsAt(s.page, s.offset) ==> unchanged(c) && unchanged(c.pages)
    ensures r.GaveUp? ==> !old(c.PlacesOf()).BeginsAt(s.page, s.offset)
  {
    PlacesAre(c);
    Sizes(c);
    hide CodeCache.Valid, CodeCache.Coherent, CodeCache.PlacesOf, Grew, Registered, HomePages, Places.BeginsAt, Places.MoreThan,
      Total, WellFormed;
    var block := LookUp(c, s);
    PlacesAre(c);
    Sizes(c);
    var translated := block == NULL;
    if translated {
      block, r := Produce(c, s);
      if block == NULL {
        return;
      }
      PlacesAre(c);
      Sizes(c);
    } else {
      ItBegins(c.PlacesOf(), block, s.page, s.offset);
    }
    r := RunLive(c, block, s.exits);
    r := r.(translated := translated);
    PlacesAre(c);
  }

  lemma ItBegins(v: Places, b: int, page: int, offset: nat)
    requires v.Begins(b, page, offset)
    ensures v.BeginsAt(page, offset)
  {
  }

  /** From a live block on nothing can be spoiled. */
  method RunLive(c: CodeCache, block: int, exits: seq<Exit>) returns (r: Report)
    requires c.Valid() && c.Coherent() && 0 <= block < |c.cross| && block in c.link0.live && ExitsOk(exits, |c.pages.inUse|)
    modifies c.link0, c.link1
    ensures c.Valid() && c.Coherent() && c.link0.live == old(c.link0.live)
    ensures r.Ran? && !r.spoiled && r.trace != [] && r.trace[0] == block && (forall b <- r.trace :: b in c.link0.live)
    ensures GenuineWhereLive(c.pages.handler, c.pages.source, c.memory, c.link0.live, r.trace)
  {
    var trace, spoiled := c.Run(block, exits);
    r := Ran(trace, false, spoiled);
    hide CodeCache.Valid, CodeCache.Coherent, Followed;
    forall k: nat | k < |trace| ensures trace[k] in c.link0.live {
      AllLive(c.link0.live, trace, k);
    }
  }

  /** Block `b` may run now, live or dropped; NULL stands for the core outside of all blocks. */
  ghost predicate MayRun(c: CodeCache, b: int)
    reads c
  { b == NULL || 0 <= b < |c.cross| }

  /** How the running block went on by the exits of `s`: see CodeCache.Run. */
  ghost predicate WentOn(c: CodeCache, before: Jumps, exits: seq<Exit>, running: int, r: Report)
    requires r.Ran?
    reads c, c.link0, c.link1, c.pages
  {
    && r.trace != [] && r.trace[0] == running
    && c.Along(before, exits, r.trace, if r.spoiled then |r.trace| - 2 else |r.trace| - 1)
    && (if r.spoiled then |r.trace| >= 2 && r.trace[|r.trace| - 2] !in c.link0.live && Unlinked(before, exits, r.trace, |r.trace| - 2)
        else |r.trace| <= |exits| ==> c.Stops(r.trace[|r.trace| - 1], exits[|r.trace| - 1]))
  }

  method DoExecute(c: CodeCache, s: Step) returns (r: Report)
    requires c.Valid() && c.Coherent() && |c.rom| == |c.readable| == |c.memory| && MemoryOk(c.memory) && StepOk(s, |c.memory|)
    requires s.Execute?
    modifies c, c.link0, c.link1, c.pages
    ensures c.memory == After(old(c.memory), s, r)
    ensures Plausible(s, r, c.rom, c.readable, old(c.memory), HomePages(old(c.pages.handler)))
    ensures r.Full? || r.GaveUp? || (r.Ran? && r.trace != [] && !r.spoiled)
    ensures !r.GaveUp? ==> c.Valid() && c.Coherent() && |c.cross| == old(|c.cross|)
    ensures !r.GaveUp? ==> Grown(s, r, old(c.pages.handler), old(|c.freeList|), c.pages.handler, |c.freeList|)
    ensures r.Full? ==> |Registered(old(c.pages.handler))| >= 255
    ensures r.GaveUp? ==> s.written > CACHE_MAXSIZE || old(|c.freeList|) < 2
    ensures !r.GaveUp? ==> PlacedBy(s, r, old(c.PlacesOf()), c.PlacesOf(), HomePages(old(c.pages.handler)))
    ensures old(c.PlacesOf()).BeginsAt(s.page, s.offset) ==> unchanged(c) && unchanged(c.pages) && !r.GaveUp?
    ensures r.Ran? ==>
      && GenuineWhereLive(c.pages.handler, c.pages.source, c.memory, c.link0.live, r.trace) && (forall b <- r.trace :: b in c.link0.live)
      && StartsAt(c.pages.handler, c.pages.span, r.trace[0], s.page, s.offset) && MayRun(c, r.trace[|r.trace| - 1])
  {
    hide CodeCache.Valid, CodeCache.Coherent, Total, WellFormed, Registered, HomePages, Grown, StartsAt, Stored,
      Places.BeginsAt, Places.Begins, Places.MoreThan, CodeCache.PlacesOf;
    r := Enter(c, s);
    if !r.GaveUp? {
      Sizes(c);
    }
    assert r.Ran? ==> r.trace[|r.trace| - 1] in r.trace;
  }

  method DoLeave(c: CodeCache, s: Step, running: int) returns (r: Report)
    requires c.Valid() && c.Coherent() && |c.rom| == |c.readable| == |c.memory| && MemoryOk(c.memory) && StepOk(s, |c.memory|)
    requires s.Leave? && MayRun(c, running)
    modifies c.link0, c.link1
    ensures r.Ran? && c.Coherent() && (c.Valid() <==> !r.spoiled) && c.link0.live == old(c.link0.live)
    ensures c.memory == After(c.memory, s, r) && Plausible(s, r, c.rom, c.readable, c.memory, HomePages(c.pages.handler))
    ensures Grown(s, r, c.pages.handler, |c.freeList|, c.pages.handler, |c.freeList|)
    ensures PlacedBy(s, r, old(c.PlacesOf()), c.PlacesOf(), HomePages(c.pages.handler))
    ensures if running == NULL then r == Ran([], false, false)
            else WentOn(c, old(c.JumpsNow()), s.exits, running, r) && r.trace != [] && MayRun(c, r.trace[|r.trace| - 1])
    ensures running in c.link0.live && running != NULL ==> !r.spoiled && r.trace[|r.trace| - 1] in c.link0.live
  {
    Sizes(c);
    NothingWritten(s, c.rom, c.readable, c.memory, c.pages.handler, |c.freeList|);
    NothingMoved(c, s, HomePages(c.pages.handler));
    ghost var places := c.PlacesOf();
    PlacesAre(c);
    hide CodeCache.Valid, CodeCache.Coherent, CodeCache.Stops, CodeCache.Along, Unlinked, After, Plausible, Grown, StepOk, MemoryOk,
      Registered, HomePages, PlacedBy, CodeCache.PlacesOf;
    r := Ran([], false, false);
    if running != NULL {
      r := GoOn(c, running, s.exits);
      PlacesAre(c);
    }
  }

  method GoOn(c: CodeCache, running: int, exits: seq<Exit>) returns (r: Report)
    requires c.Valid() && c.Coherent() && 0 <= running < |c.cross| && ExitsOk(exits, |c.pages.inUse|)
    modifies c.link0, c.link1
    ensures r.Ran? && c.Coherent() && (c.Valid() <==> !r.spoiled) && c.link0.live == old(c.link0.live)
    ensures WentOn(c, old(c.JumpsNow()), exits, running, r) && r.trace != [] && MayRun(c, r.trace[|r.trace| - 1])
    ensures running in c.link0.live ==> !r.spoiled && r.trace[|r.trace| - 1] in c.link0.live
  {
    Sizes(c);
    hide CodeCache.Valid, CodeCache.Coherent, CodeCache.Stops, CodeCache.Along, Unlinked;
    var trace, spoiled := c.Run(running, exits);
    r := Ran(trace, false, spoiled);
    LastOf(c, old(c.JumpsNow()), exits, trace, if spoiled then |trace| - 2 else |trace| - 1);
  }

  lemma NothingMoved(c: CodeCache, s: Step, homes: set<int>)
    requires c.Valid() && s.Leave?
    ensures forall r: Report :: PlacedBy(s, r, c.PlacesOf(), c.PlacesOf(), homes)
  {
  }

  lemma NothingWritten(s: Step, rom: seq<bool>, readable: seq<bool>, memory: seq<seq<int>>, handler: seq<int>, unused: int)
    requires MemoryOk(memory) && StepOk(s, |memory|) && |rom| == |readable| == |memory| && s.Leave?
    ensures forall r: Report :: r.Ran? ==> After(memory, s, r) == memory && Plausible(s, r, rom, readable, memory, HomePages(handler))
    ensures forall r: Report :: Grown(s, r, handler, unused, handler, unused)
  {
  }

  lemma LastOf(c: CodeCache, before: Jumps, exits: seq<Exit>, trace: seq<int>, n: int)
    requires c.Along(before, exits, trace, n) && |c.cross| == |c.pages.handler|
    ensures trace != [] && 0 <= trace[|trace| - 1] < |c.cross|
    ensures trace[0] in c.link0.live ==> trace[|trace| - 1] in c.link0.live && (|trace| >= 2 ==> trace[|trace| - 2] in c.link0.live)
  {
    assert trace[|trace| - 1] in trace;
    if trace[0] in c.link0.live {
      AllLive(c.link0.live, trace, |trace| - 1);
      if |trace| >= 2 {
        AllLive(c.link0.live, trace, |trace| - 2);
      }
    }
  }

  method DoDisturb(c: CodeCache, s: Step) returns (r: Report)
    requires c.Valid() && c.Coherent() && |c.rom| == |c.readable| == |c.memory| && MemoryOk(c.memory) && StepOk(s, |c.memory|)
    requires !s.Execute? && !s.Leave?
    modifies c, c.link0, c.link1, c.pages
    ensures c.Valid() && c.Coherent() && c.memory == After(old(c.memory), s, r) && |c.cross| == old(|c.cross|)
    ensures Plausible(s, r, c.rom, c.readable, old(c.memory), HomePages(old(c.pages.handler)))
    ensures Grown(s, r, old(c.pages.handler), old(|c.freeList|), c.pages.handler, |c.freeList|) && (r.Quiet? || r.Wrote?)
    ensures PlacedBy(s, r, old(c.PlacesOf()), c.PlacesOf(), HomePages(old(c.pages.handler)))
    ensures s.Take? ==> c.pages.inUse == old(c.pages.inUse)[s.page := true] && c.link0.live == old(c.link0.live)
    ensures s.Give? ==> c.pages.inUse == old(c.pages.inUse)[s.page := false] && forall b <- c.pages.handler :: b != s.page
  {
    Sizes(c);
    ghost var span, live := c.pages.span, c.link0.live;
    ghost var arena, freeList, handler, index, next, free := c.arena, c.freeList, c.pages.handler, c.pages.index, c.next, c.free;
    FreeBefore(c);
    hide Stored, Total, WellFormed, Plausible, AllFresh, LinksOk, HashOk, WriteMapOk, ActiveOk, BodiesOk, CrossOk, ArenaOk, Gentle, Kept;
    r := Disturb(c, s);
    Sizes(c);
    FreeBefore(c);
    hide Chain, PlacesOk, Dropped;
    FewerPlaces(handler, span, c.pages.handler, c.pages.span, index);
    DroppedFewer(handler, c.pages.handler);
    DroppedFreesMore(arena, freeList, c.freeList, handler, c.pages.handler, index, next, c.next, free, c.free);
  }

  lemma FreeBefore(c: CodeCache)
    requires c.Valid()
    ensures PlacesOk(c.arena, c.freeList, c.pages.handler, c.pages.index) && Chain(c.free, c.next, c.freeList)
    ensures |c.next| == |c.pages.handler| && c.link0.live == Mains(c.pages.handler, c.pages.index)
  {
  }

  /** One step while block `running` runs, which may have been dropped meanwhile; it runs on as long as nobody tells it.
      The cache stays valid unless the step gives up, or a dropped block is linked again. */
  method Do(c: CodeCache, s: Step, running: int) returns (r: Report, running': int)
    requires c.Valid() && c.Coherent() && |c.rom| == |c.readable| == |c.memory| && MemoryOk(c.memory) && StepOk(s, |c.memory|)
    requires MayRun(c, running)
    modifies c, c.link0, c.link1, c.pages
    ensures c.memory == After(old(c.memory), s, r)
    ensures Plausible(s, r, c.rom, c.readable, old(c.memory), HomePages(old(c.pages.handler)))
    ensures !r.GaveUp? ==> c.Coherent() && MayRun(c, running') && (c.Valid() <==> !(r.Ran? && r.spoiled))
    ensures !r.GaveUp? ==> Grown(s, r, old(c.pages.handler), old(|c.freeList|), c.pages.handler, |c.freeList|)
    ensures r.Full? ==> |Registered(old(c.pages.handler))| >= 255
    ensures r.GaveUp? ==> s.Execute? && (s.written > CACHE_MAXSIZE || old(|c.freeList|) < 2)
    ensures !r.GaveUp? ==> PlacedBy(s, r, old(c.PlacesOf()), c.PlacesOf(), HomePages(old(c.pages.handler)))
    ensures s.Execute? && old(c.PlacesOf()).BeginsAt(s.page, s.offset) ==> unchanged(c) && unchanged(c.pages) && !r.GaveUp?
    ensures s.Take? ==> c.pages.inUse == old(c.pages.inUse)[s.page := true]
    ensures s.Give? ==> c.pages.inUse == old(c.pages.inUse)[s.page := false] && forall b <- c.pages.handler :: b != s.page
    ensures s.Execute? && r.Ran? ==>
      && GenuineWhereLive(c.pages.handler, c.pages.source, c.memory, c.link0.live, r.trace) && (forall b <- r.trace :: b in c.link0.live)
      && StartsAt(c.pages.handler, c.pages.span, r.trace[0], s.page, s.offset)
    ensures s.Leave? ==> if running == NULL then r == Ran([], false, false) else WentOn(c, old(c.JumpsNow()), s.exits, running, r)
    ensures running' == if r.Ran? && r.trace != [] then r.trace[|r.trace| - 1]
                        else if s.Execute? || r == Wrote(CurrentBlock) then NULL else running
    ensures r.Ran? && r.spoiled ==> s.Leave? && running != NULL && running !in old(c.link0.live)
    ensures !IsWrite(s) && !s.Give? && !Ends(r) && (running == NULL || running in old(c.link0.live)) ==>
              running' == NULL || running' in c.link0.live
  {
    hide CodeCache.Valid, CodeCache.Coherent, After, Plausible, Grown, WentOn, StartsAt, GenuineWhereLive, Registered, HomePages,
      StepOk, MemoryOk, PlacedBy, CodeCache.PlacesOf, Places.BeginsAt;
    if s.Execute? {
      r := DoExecute(c, s);
      running' := if r.Ran? then r.trace[|r.trace| - 1] else NULL;
    } else if s.Leave? {
      r := DoLeave(c, s, running);
      running' := if r.trace != [] then r.trace[|r.trace| - 1] else NULL;
    } else {
      r := DoDisturb(c, s);
      running' := if r == Wrote(CurrentBlock) then NULL else running;
    }
  }

  // ---- whole runs ----

  /** What matters of the cache that a run begins with. */
  datatype Beginning = Beginning(memory: seq<seq<int>>, rom: seq<bool>, readable: seq<bool>, homes: set<int>,
                                 registered: nat, unused: nat, single: bool) {
    predicate Ok() { MemoryOk(memory) && |rom| == |readable| == |memory| }
  }

  ghost function BeginningOf(c: CodeCache): Beginning
    reads c, c.link0, c.pages
  {
    Beginning(c.memory, c.rom, c.readable, HomePages(c.pages.handler), |Registered(c.pages.handler)|, |c.freeList|, c.PlacesOf().Single())
  }

  /** Something happened that may have dropped the running block. */
  predicate Disturbed(steps: seq<Step>) { exists s <- steps :: IsWrite(s) || s.Give? }

  /** Report `k` fits step `k` and what went before: writes act on the memory that the steps before left; an execution does
      not translate where a block is known to begin; counters are full only after many translations, and blocks run out only
      after as many; and a dropped block is linked again only after a write or a page release. */
  ghost predicate Fits(b: Beginning, steps: seq<Step>, reports: seq<Report>, k: nat)
    requires b.Ok() && k < |reports| <= |steps| && StepsOk(steps, |b.memory|)
  {
    var s, r, t := steps[k], reports[k], TallyOf(b.homes, steps[..k], reports[..k]);
    Plausible(s, r, b.rom, b.readable, MemoryAfter(b.memory, steps[..k], reports[..k]), t.homes) && Told(b, t, s, r, Disturbed(steps[..k]))
  }

  predicate Told(b: Beginning, t: Tally, s: Step, r: Report, disturbed: bool) {
    && (s.Execute? && (s.page, s.offset) in t.known ==> r.Ran? && !r.translated)
    && (r.Full? ==> b.registered + 2 * t.translations >= 255)
    && (r.GaveUp? ==> s.Execute? && (s.written > CACHE_MAXSIZE || b.unused < 2 * t.translations + 2))
    && (r.Ran? && r.spoiled ==> s.Leave? && disturbed)
  }

  /** What the tally says of the blocks is so. */
  ghost predicate Tallied(b: Beginning, t: Tally, v: Places, unused: int) {
    && HomePages(v.handler) <= t.homes
    && |Registered(v.handler)| <= b.registered + 2 * t.translations && unused >= b.unused - 2 * t.translations
    && (forall page, offset {:trigger v.BeginsAt(page, offset)} :: (page, offset) in t.known ==> v.BeginsAt(page, offset))
    && (b.single ==> v.Single())
  }

  /** What the loop of Session keeps. */
  ghost predicate Underway(c: CodeCache, b: Beginning, t: Tally, disturbed: bool, running: int)
    reads c, c.link0, c.link1, c.pages
  {
    && c.Valid() && c.Coherent() && MayRun(c, running) && c.rom == b.rom && c.readable == b.readable
    && Tallied(b, t, c.PlacesOf(), |c.freeList|)
    && (disturbed || running == NULL || running in c.link0.live)
  }

  lemma MemoryOn(memory: seq<seq<int>>, steps: seq<Step>, reports: seq<Report>, r: Report)
    requires MemoryOk(memory) && StepsOk(steps, |memory|) && |reports| < |steps|
    ensures MemoryAfter(memory, steps[..|reports| + 1], reports + [r]) ==
            After(MemoryAfter(memory, steps[..|reports|], reports), steps[|reports|], r)
  {
    var k := |reports|;
    assert steps[..k + 1][..k] == steps[..k] && (reports + [r])[..k] == reports;
  }

  lemma TallyOn(homes: set<int>, steps: seq<Step>, reports: seq<Report>, r: Report)
    requires |reports| < |steps|
    ensures TallyOf(homes, steps[..|reports| + 1], reports + [r]) == TallyOf(homes, steps[..|reports|], reports).Next(steps[|reports|], r)
    ensures Disturbed(steps[..|reports| + 1]) <==> Disturbed(steps[..|reports|]) || IsWrite(steps[|reports|]) || steps[|reports|].Give?
  {
    var k := |reports|;
    assert steps[..k + 1][..k] == steps[..k] && (reports + [r])[..k] == reports && steps[..k + 1] == steps[..k] + [steps[k]];
  }

  /** One more step keeps the tally right, and the report is one that the tally allows. */
  lemma TalliedOn(b: Beginning, t: Tally, s: Step, r: Report, v: Places, unused: int, v': Places, unused': int)
    requires Tallied(b, t, v, unused) && Grown(s, r, v.handler, unused, v'.handler, unused') && PlacedBy(s, r, v, v', HomePages(v.handler))
    ensures !Ends(r) ==> Tallied(b, t.Next(s, r), v', unused')
    ensures b.single ==> v'.Single()
  {
    hide Tally.Next;
    if !Ends(r) {
      KnownOn(b, t, s, r, v, unused, v');
    }
    if b.single {
      SingleOn(s, r, v, v', HomePages(v.handler));
    }
    CountedOn(b, t, s, r, v, unused, v', unused');
    hide Places.Single, Grown, PlacedBy;
  }

  lemma KnownOn(b: Beginning, t: Tally, s: Step, r: Report, v: Places, unused: int, v': Places)
    requires Tallied(b, t, v, unused) && PlacedBy(s, r, v, v', HomePages(v.handler)) && !Ends(r)
    ensures forall page, offset {:trigger v'.BeginsAt(page, offset)} :: (page, offset) in t.Next(s, r).known ==> v'.BeginsAt(page, offset)
  {
    hide Places.Single, Places.Begins, Places.BeginsAt, Places.MoreThan, Places.Same, Registered, HomePages;
    forall page, offset {:trigger v'.BeginsAt(page, offset)} | (page, offset) in t.Next(s, r).known ensures v'.BeginsAt(page, offset) {
      if s.Execute? {
        if Translates(r) {
          ItBegins(v', r.trace[0], s.page, s.offset);
        }
      } else {
        assert Gentle(s, r, HomePages(v.handler));
        SameBegins(v, v', page, offset);
      }
    }
  }

  lemma CountedOn(b: Beginning, t: Tally, s: Step, r: Report, v: Places, unused: int, v': Places, unused': int)
    requires Tallied(b, t, v, unused) && Grown(s, r, v.handler, unused, v'.handler, unused')
    ensures var t' := t.Next(s, r);
            && HomePages(v'.handler) <= t'.homes
            && |Registered(v'.handler)| <= b.registered + 2 * t'.translations && unused' >= b.unused - 2 * t'.translations
  {
    hide Places.Single, Places.BeginsAt, Registered, HomePages;
  }

  lemma SingleOn(s: Step, r: Report, v: Places, v': Places, homes: set<int>)
    requires PlacedBy(s, r, v, v', homes) && v.Single()
    ensures v'.Single()
  {
    hide Places.Single, Places.Begins, Places.BeginsAt, Places.MoreThan, Gentle;
    if !s.Execute? {
      WithinSingle(v, v');
    } else if !v.BeginsAt(s.page, s.offset) && r.Ran? {
      MoreSingle(v, v', r.trace[0], s.page, s.offset);
    }
  }

  lemma FitsStill(b: Beginning, steps: seq<Step>, reports: seq<Report>, r: Report, j: nat)
    requires b.Ok() && j < |reports| < |steps| && StepsOk(steps, |b.memory|) && Fits(b, steps, reports, j)
    ensures Fits(b, steps, reports + [r], j)
  {
    assert (reports + [r])[..j] == reports[..j];
  }

  lemma MoreHomes(s: Step, r: Report, rom: seq<bool>, readable: seq<bool>, memory: seq<seq<int>>, homes: set<int>, homes': set<int>)
    requires MemoryOk(memory) && StepOk(s, |memory|) && |rom| == |readable| == |memory|
    requires Plausible(s, r, rom, readable, memory, homes) && homes <= homes'
    ensures Plausible(s, r, rom, readable, memory, homes')
  {
  }

  lemma NewFits(b: Beginning, steps: seq<Step>, reports: seq<Report>, r: Report, v: Places, unused: int, v': Places)
    requires b.Ok() && |reports| < |steps| && StepsOk(steps, |b.memory|)
    requires var s, before := steps[|reports|], steps[..|reports|];
             && Plausible(s, r, b.rom, b.readable, MemoryAfter(b.memory, before, reports), HomePages(v.handler))
             && Tallied(b, TallyOf(b.homes, before, reports), v, unused)
             && (r.Full? ==> |Registered(v.handler)| >= 255)
             && (r.GaveUp? ==> s.Execute? && (s.written > CACHE_MAXSIZE || unused < 2) && !v.BeginsAt(s.page, s.offset))
             && (!r.GaveUp? ==> PlacedBy(s, r, v, v', HomePages(v.handler)))
             && (r.Ran? && r.spoiled ==> s.Leave? && Disturbed(before))
    ensures Fits(b, steps, reports + [r], |reports|)
  {
    var k := |reports|;
    assert (reports + [r])[..k] == reports;
    hide TallyOf, MemoryAfter, Disturbed, Plausible, Places.BeginsAt, Places.Begins, Places.MoreThan, Places.Same,
      Places.Single, Registered, HomePages;
    MoreHomes(steps[k], r, b.rom, b.readable, MemoryAfter(b.memory, steps[..k], reports), HomePages(v.handler),
              TallyOf(b.homes, steps[..k], reports).homes);
  }

  lemma StillUnderway(c: CodeCache, b: Beginning, t: Tally, disturbed: bool, running: int)
    requires c.Valid() && c.Coherent() && MayRun(c, running) && c.rom == b.rom && c.readable == b.readable
    requires Tallied(b, t, c.PlacesOf(), |c.freeList|) && (disturbed || running == NULL || running in c.link0.live)
    ensures Underway(c, b, t, disturbed, running)
  {
  }

  lemma IsUnderway(c: CodeCache, b: Beginning, t: Tally, disturbed: bool, running: int)
    requires Underway(c, b, t, disturbed, running)
    ensures c.Valid() && c.Coherent() && MayRun(c, running) && c.rom == b.rom && c.readable == b.readable
    ensures Tallied(b, t, c.PlacesOf(), |c.freeList|) && c.PlacesOf().handler == c.pages.handler && (b.single ==> c.PlacesOf().Single())
    ensures disturbed || running == NULL || running in c.link0.live
  {
  }

  lemma Begins(c: CodeCache, b: Beginning, steps: seq<Step>)
    requires c.Valid() && c.Coherent() && b == BeginningOf(c) && b.Ok() && StepsOk(steps, |b.memory|)
    ensures Underway(c, b, TallyOf(b.homes, steps[..0], []), Disturbed(steps[..0]), NULL)
    ensures c.memory == MemoryAfter(b.memory, steps[..0], []) && History(b, steps, [], false)
  {
    hide CodeCache.Valid, CodeCache.Coherent, Places.Single, Places.BeginsAt, Registered, HomePages;
  }

  /** One step of a run. */
  method OneStep(c: CodeCache, ghost b: Beginning, steps: seq<Step>, reports: seq<Report>, running: int) returns (r: Report, running': int)
    requires b.Ok() && StepsOk(steps, |b.memory|) && |reports| < |steps|
    requires Underway(c, b, TallyOf(b.homes, steps[..|reports|], reports), Disturbed(steps[..|reports|]), running)
    requires c.memory == MemoryAfter(b.memory, steps[..|reports|], reports)
    modifies c, c.link0, c.link1, c.pages
    ensures c.memory == MemoryAfter(b.memory, steps[..|reports| + 1], reports + [r])
    ensures Fits(b, steps, reports + [r], |reports|)
    ensures !r.GaveUp? ==> c.Coherent() && (c.Valid() <==> !(r.Ran? && r.spoiled)) && (b.single ==> c.PlacesOf().Single())
    ensures !Ends(r) ==>
              Underway(c, b, TallyOf(b.homes, steps[..|reports| + 1], reports + [r]), Disturbed(steps[..|reports| + 1]), running')
  {
    var k := |reports|;
    var s := steps[k];
    ghost var t, disturbed := TallyOf(b.homes, steps[..k], reports), Disturbed(steps[..k]);
    IsUnderway(c, b, t, disturbed, running);
    Sizes(c);
    PlacesAre(c);
    assert s in steps;
    hide *;
    ghost var v, unused := c.PlacesOf(), |c.freeList|;
    r, running' := Do(c, s, running);
    PlacesAre(c);
    MemoryOn(b.memory, steps, reports, r);
    TallyOn(b.homes, steps, reports, r);
    NewFits(b, steps, reports, r, v, unused, c.PlacesOf());
    if !r.GaveUp? {
      TalliedOn(b, t, s, r, v, unused, c.PlacesOf(), |c.freeList|);
      if !Ends(r) {
        EndsNot(r);
        StillUnderway(c, b, t.Next(s, r), Disturbed(steps[..k + 1]), running');
      }
    }
  }

  lemma EndsNot(r: Report)
    requires !Ends(r)
    ensures !r.Full? && !r.GaveUp? && !(r.Ran? && r.spoiled)
  {
  }

  ghost predicate AllFit(b: Beginning, steps: seq<Step>, reports: seq<Report>)
    requires b.Ok() && |reports| <= |steps| && StepsOk(steps, |b.memory|)
  {
    forall k: nat {:trigger Fits(b, steps, reports, k)} :: k < |reports| ==> Fits(b, steps, reports, k)
  }

  lemma ReportsOn(b: Beginning, steps: seq<Step>, reports: seq<Report>, r: Report, told: seq<Report>)
    requires b.Ok() && |reports| < |steps| && StepsOk(steps, |b.memory|) && told == reports + [r]
    requires AllFit(b, steps, reports)
    requires Fits(b, steps, reports + [r], |reports|)
    ensures AllFit(b, steps, told)
  {
    hide Fits;
    forall k: nat {:trigger Fits(b, steps, told, k)} | k < |told| ensures Fits(b, steps, told, k) {
      if k < |reports| {
        FitsStill(b, steps, reports, r, k);
      }
    }
  }

  /** No report but perhaps the last one ends the run, and it is not followed to its end only if that one does. */
  predicate FollowedOk(reports: seq<Report>, steps: nat) {
    && |reports| <= steps && (forall k :: 0 <= k < |reports| - 1 ==> !Ends(reports[k]))
    && (|reports| < steps ==> reports != [] && Ends(reports[|reports| - 1]))
  }

  predicate LastGaveUp(reports: seq<Report>) { reports != [] && reports[|reports| - 1].GaveUp? }

  predicate LastSpoiled(reports: seq<Report>) { reports != [] && reports[|reports| - 1].Ran? && reports[|reports| - 1].spoiled }

  /** The reports so far; `over` tells whether the last one ended the run. */
  ghost predicate History(b: Beginning, steps: seq<Step>, reports: seq<Report>, over: bool) {
    && b.Ok() && |reports| <= |steps| && StepsOk(steps, |b.memory|) && AllFit(b, steps, reports)
    && (forall k :: 0 <= k < |reports| ==> (Ends(reports[k]) <==> over && k == |reports| - 1)) && (over ==> reports != [])
  }

  lemma HistoryOn(b: Beginning, steps: seq<Step>, reports: seq<Report>, r: Report)
    requires History(b, steps, reports, false) && |reports| < |steps| && Fits(b, steps, reports + [r], |reports|)
    ensures History(b, steps, reports + [r], Ends(r))
    ensures LastGaveUp(reports + [r]) == r.GaveUp? && LastSpoiled(reports + [r]) == (r.Ran? && r.spoiled)
  {
    ReportsOn(b, steps, reports, r, reports + [r]);
    hide AllFit, Ends, StepsOk;
  }

  lemma HistoryTells(b: Beginning, steps: seq<Step>, reports: seq<Report>, over: bool)
    requires History(b, steps, reports, over) && (over || |reports| == |steps|)
    ensures b.Ok() && |reports| <= |steps| && StepsOk(steps, |b.memory|) && AllFit(b, steps, reports) && FollowedOk(reports, |steps|)
    ensures !over ==> !LastGaveUp(reports) && !LastSpoiled(reports)
  {
    hide AllFit, StepsOk;
  }

  /** A run of any length, told by its reports.  It is followed to its end unless one of the stated reports ends it; its
      memory is what the steps and reports say; and the cache is valid and coherent at its end, see Assured, unless the
      program gave up or a dropped block was linked again: that ends validity. */
  method Session(c: CodeCache, steps: seq<Step>) returns (reports: seq<Report>)
    requires c.Valid() && c.Coherent() && BeginningOf(c).Ok() && StepsOk(steps, |c.memory|)
    modifies c, c.link0, c.link1, c.pages
    ensures FollowedOk(reports, |steps|)
    ensures c.memory == MemoryAfter(old(c.memory), steps[..|reports|], reports)
    ensures AllFit(old(BeginningOf(c)), steps, reports)
    ensures !LastGaveUp(reports) ==> c.Coherent() && (c.Valid() <==> !LastSpoiled(reports))
    ensures !LastGaveUp(reports) && old(c.PlacesOf().Single()) ==> c.PlacesOf().Single()
  {
    ghost var b := BeginningOf(c);
    Begins(c, b, steps);
    hide *;
    reports := [];
    var running, over := NULL, false;
    while !over && |reports| < |steps|
      invariant |reports| <= |steps| && History(b, steps, reports, over) && c.memory == MemoryAfter(b.memory, steps[..|reports|], reports)
      invariant !over ==> Underway(c, b, TallyOf(b.homes, steps[..|reports|], reports), Disturbed(steps[..|reports|]), running)
      invariant over && !LastGaveUp(reports) ==>
                  c.Coherent() && (c.Valid() <==> !LastSpoiled(reports)) && (b.single ==> c.PlacesOf().Single())
      modifies c, c.link0, c.link1, c.pages
      decreases |steps| - |reports|
    {
      var r;
      r, running := OneStep(c, b, steps, reports, running);
      over := Ends(r);
      HistoryOn(b, steps, reports, r);
      reports := reports + [r];
    }
    HistoryTells(b, steps, reports, over);
    if !over {
      IsUnderway(c, b, TallyOf(b.homes, steps[..|reports|], reports), Disturbed(steps[..|reports|]), running);
    }
  }

  /** The blocks of page `p` whose unmasked bytes include byte `i`. */
  ghost function Covering(handler: seq<int>, span: seq<Span>, p: int, i: int): set<int>
    requires |handler| == |span|
  {
    set b | 0 <= b < |handler| && handler[b] == p && Covers(span[b], i)
  }

  /** Block `b`, if it is registered, holds at each byte it covers the value that the guest memory has there now. */
  lemma Assured(c: CodeCache, b: int, i: int)
    requires c.Valid() && c.Coherent() && 0 <= b < |c.pages.handler| && c.pages.handler[b] != NULL && Covers(c.pages.span[b], i)
    ensures 0 <= c.pages.handler[b] < |c.memory| && 0 <= i < PAGE_SIZE && i in c.pages.source[b]
    ensures c.memory[c.pages.handler[b]][i] == c.pages.source[b][i]
  {
    hide ArenaOk, PlacesOk, Chain, HashOk, WriteMapOk, CrossOk, LinksOk, ActiveOk;
    assert BodyOk(c.pages.handler, c.pages.index, c.pages.span, c.pages.source, c.pages.inUse, b);
    assert Fresh(c.pages.handler, c.pages.source, c.memory, b);
  }

  /** The write map counts the blocks that cover a byte unmasked, and the byte-wide counter did not wrap. */
  lemma CountsExact(c: CodeCache, p: nat, i: nat)
    requires c.Valid() && p < |c.pages.inUse| && c.pages.inUse[p] && i < PAGE_SIZE
    ensures c.pages.writeMap[p][i] == |Covering(c.pages.handler, c.pages.span, p, i)| <= 255
  {
    hide ArenaOk, PlacesOk, Chain, HashOk, CrossOk, LinksOk, ActiveOk;
    forall b | 0 <= b < |c.pages.handler| && c.pages.handler[b] == p
      ensures i in c.pages.source[b] <==> Covers(c.pages.span[b], i)
    {
      assert BodyOk(c.pages.handler, c.pages.index, c.pages.span, c.pages.source, c.pages.inUse, b);
    }
    assert Covering(c.pages.handler, c.pages.span, p, i) == CoverSet(c.pages.handler, c.pages.source, p, i);
  }

  /** A jump of a block that can be entered leads to the default link block or to a block that can be entered. */
  lemma JumpsStayInside(c: CodeCache, b: int, ind: nat)
    requires c.Valid() && b in c.link0.live && ind < 2
    ensures 0 <= b < |c.pages.handler| && c.pages.handler[b] != NULL
    ensures var t := (if ind == 0 then c.link0 else c.link1).to[b];
            t == LINK_CODE || (0 <= t < |c.pages.handler| && c.pages.handler[t] != NULL && c.pages.index[t] != 0)
  {
    hide ArenaOk, PlacesOk, Chain, HashOk, CrossOk, WriteMapOk, ActiveOk, BodiesOk;
    var links := if ind == 0 then c.link0 else c.link1;
    assert BlockOk(links.to, links.next, links.from, links.callers, links.live, b);
  }
}
