/**
 The dynamic-core code cache (src/cpu/dyn_cache.h): translated blocks, the jumps
 between them, the pages they were translated from and the arena they live in.
 */
module CodeCaches {
  import opened Chains
  import opened LinkTables
  import opened CodePages
  import opened CacheInvariants
  import opened Decoding
  import opened RunTraces

  /** How a write to a code page ends: carried out, dropped because it is ROM, E_Exit, or stopped because it modifies
      the block that is running. */
  datatype WriteOutcome = Done | Ignored | Fatal | CurrentBlock

  function Stored(row: seq<int>, addr: nat, val: seq<int>): (row': seq<int>)
    requires addr + |val| <= |row|
    ensures |row'| == |row|
    ensures forall i :: 0 <= i < |row| && !(addr <= i < addr + |val|) ==> row'[i] == row[i]
    ensures forall i :: 0 <= i < |val| ==> row'[addr + i] == val[i]
  {
    row[..addr] + val + row[addr + |val|..]
  }

  lemma StoredSame(row: seq<int>, addr: nat, val: seq<int>)
    requires addr + |val| <= |row| && row[addr..addr + |val|] == val
    ensures Stored(row, addr, val) == row
  {
  }

  class CodeCache {
    const link0: LinkTable
    const link1: LinkTable
    const pages: CodePageTable
    // CacheBlock::crossblock
    var cross: seq<int>
    // CacheBlock::cache.start, cache.size and cache.next: the arena chain and the free list
    var start: seq<int>
    var size: seq<int>
    var next: seq<int>
    var first: int
    var active: int
    var free: int
    ghost var arena: seq<int>
    ghost var freeList: seq<int>
    // the guest memory of the pages, and the flags of their old handlers
    var memory: seq<seq<int>>
    // the C_DYNREC build restarts the arena earlier, at blocks that start beyond this limit
    const dynrec: bool
    const limit: int
    const rom: seq<bool>
    const readable: seq<bool>

    /** cache_init: one block holds the whole arena, the others are free, no page is in use. */
    constructor (blocks: nat, contents: seq<seq<int>>, rom: seq<bool>, readable: seq<bool>, dynrec: bool, limit: int)
      requires blocks > 0 && |contents| == |rom| == |readable|
      requires dynrec ==> 0 <= limit <= CACHE_TOTAL - CACHE_MAXSIZE
      requires forall p :: 0 <= p < |contents| ==> |contents[p]| == PAGE_SIZE
      ensures Valid() && Coherent() && memory == contents
      ensures fresh(link0) && fresh(link1) && fresh(pages) && this.rom == rom && this.readable == readable
      ensures this.dynrec == dynrec && this.limit == limit
      ensures Calm() && size[active] == CACHE_TOTAL && 0 <= active < |start| && start[active] == 0 && |freeList| == blocks - 1
      ensures |pages.handler| == blocks && forall b :: 0 <= b < blocks ==> pages.handler[b] == NULL
      ensures |pages.inUse| == |contents| && forall p :: 0 <= p < |contents| ==> !pages.inUse[p]
    {
      link0 := new LinkTable(blocks);
      link1 := new LinkTable(blocks);
      pages := new CodePageTable(blocks, |contents|);
      cross := seq(blocks, _ => NULL);
      start := seq(blocks, _ => 0);
      size := seq(blocks, _ => CACHE_TOTAL);
      next := seq(blocks, i requires 0 <= i < blocks => if i == 0 || i + 1 == blocks then NULL else i + 1);
      first, active, free := 0, 0, if blocks == 1 then NULL else 1;
      memory := contents;
      this.rom, this.readable, this.dynrec, this.limit := rom, readable, dynrec, limit;
      arena, freeList := [0], seq(blocks - 1, i => i + 1);
      new;
      hide CodePageTable.Valid, LinkTable.Valid, ArenaOk, PlacesOk, BodiesOk, CrossOk, AllFresh, Chain;
      InitialInvariants(blocks, |contents|, pages.handler, pages.index, cross, pages.span, pages.source, pages.inUse, memory,
                        start, size, next, free, freeList);
    }

    /** What every operation on the cache keeps. */
    ghost predicate Valid()
      reads this, link0, link1, pages
    {
      Core() && ArenaAtRest()
    }

    /** The blocks, their pages and their links; the jumps among exactly the blocks that can be entered. */
    ghost predicate Core()
      reads this, link0, link1, pages
    {
      && Skeleton()
      && BodiesOk(pages.handler, pages.index, pages.span, pages.source, pages.inUse)
      && link0.live == Mains(pages.handler, pages.index)
    }

    ghost predicate Skeleton()
      reads this, link0, link1, pages
    {
      && Parts()
      && CrossOk(cross, pages.handler, pages.index)
      && |memory| == |rom| == |readable| == |pages.inUse|
      && (forall p :: 0 <= p < |memory| ==> |memory[p]| == PAGE_SIZE)
    }

    /** The arena is tiled, the free list is a list, and every block is in exactly one place. */
    ghost predicate ArenaAtRest()
      reads this, pages
    {
      && ArenaOk(start, size, next, first, arena) && |next| == |cross| && active in arena && LowActive()
      && Chain(free, next, freeList)
      && PlacesOk(arena, freeList, pages.handler, pages.index)
    }

    /** In the C_DYNREC build an active block always has CACHE_MAXSIZE bytes of arena before it ends. */
    ghost predicate LowActive()
      reads this
    {
      dynrec ==> 0 <= active < |start| && start[active] <= limit && 0 <= limit <= CACHE_TOTAL - CACHE_MAXSIZE
    }

    /** Every registered block was translated from the bytes that its page holds now. */
    ghost predicate Coherent()
      reads this, pages
    {
      AllFresh(pages.handler, pages.source, memory)
    }

    ghost predicate Parts()
      reads this, link0, link1, pages
    {
      && link0 != link1
      && link0.Valid() && link1.Valid() && pages.Valid()
      && |cross| == |next| == |link0.to| == |link1.to|
      && |cross| == |pages.handler| == |pages.index| == |pages.span| == |pages.source|
      && |pages.inUse| == |pages.hashMap|
      && link0.live == link1.live
    }

    /** A finished block that is registered in a page, or whose page is being released. */
    ghost predicate Finished(b: int)
      requires Parts()
      reads this, link0, link1, pages
    {
      && 0 <= b < |cross|
      && (pages.handler[b] != NULL ==>
            0 <= pages.handler[b] < |pages.hashMap| && pages.inUse[pages.handler[b]] && Sealed(pages.span[b], pages.source[b]))
    }

    ghost predicate Clearable(b: int)
      requires Parts()
      reads this, link0, link1, pages
    {
      Finished(b) && (pages.index[b] != 0 <==> b in link0.live)
    }

    /** The two halves of a block that crosses a page boundary point at each other. */
    ghost predicate Paired(b: int, c: int)
      requires Parts()
      reads this, link0, link1, pages
    {
      && 0 <= b < |cross| && 0 <= c < |cross| && b != c
      && cross[c] == b && (pages.index[b] == 0 <==> pages.index[c] != 0)
      && pages.handler[b] != pages.handler[c]
    }

    method RetireLinks(b: int)
      requires Parts() && b in link0.live
      modifies link0, link1
      ensures Parts() && link0.live == old(link0.live) - {b}
      ensures FellBack(old(link0.to), link0.to, link0.live, {b}) && FellBack(old(link1.to), link1.to, link0.live, {b})
    {
      var found := link0.Retire(b);
      found := link1.Retire(b);
    }

    /** cache_add_unused_block */
    method AddUnusedBlock(b: int)
      requires 0 <= b < |next|
      modifies this`next, this`free
      ensures next == old(next)[b := old(free)] && free == b
    {
      next := next[b := free];
      free := b;
    }

    /** The link or free-list part of CacheBlock::Clear. */
    method Unhook(b: int)
      requires Parts() && Clearable(b)
      modifies this`next, this`free, link0, link1
      ensures Parts() && link0.live == old(link0.live) - {b}
      ensures FellBack(old(link0.to), link0.to, link0.live, {b}) && FellBack(old(link1.to), link1.to, link0.live, {b})
      ensures if pages.index[b] == 0 then next == old(next)[b := old(free)] && free == b
              else next == old(next) && free == old(free)
    {
      if pages.index[b] != 0 {
        RetireLinks(b);
      } else {
        TargetsAreLive(link0, b);
        TargetsAreLive(link1, b);
        AddUnusedBlock(b);
      }
    }

    /** The page part of CacheBlock::Clear. */
    method Deregister(b: int)
      requires Parts() && Finished(b)
      modifies pages`handler, pages`next, pages`span, pages`hashMap, pages`writeMap, pages`active, pages`countdown, pages`chains
      ensures Parts() && pages.handler == old(pages.handler)[b := NULL]
      ensures pages.span == old(pages.span)[b := old(pages.span[b]).(mask := [])]
      ensures RowsKept(old(pages.hashMap), pages.hashMap, {old(pages.handler[b])})
      ensures RelinkedOnly(old(pages.next), pages.next, {b})
    {
      if pages.handler[b] != NULL {
        pages.DelBlock(b);
      } else {
        pages.DropMask(b);
      }
    }

    /** CacheBlock::Clear */
    method Clear(b: int)
      requires Parts() && Clearable(b)
      requires cross[b] != NULL ==> Paired(b, cross[b]) && Clearable(cross[b])
      modifies this`cross, this`next, this`free, link0, link1
      modifies pages`handler, pages`next, pages`span, pages`hashMap, pages`writeMap, pages`active, pages`countdown, pages`chains
      ensures Parts()
      ensures pages.handler == Cleared(old(pages.handler), b, old(cross[b])) && cross == Cleared(old(cross), b, old(cross[b]))
      ensures pages.span == Unmasked(old(pages.span), b, old(cross[b]))
      ensures RowsKept(old(pages.hashMap), pages.hashMap, Homes(old(pages.handler), b, old(cross[b])))
      ensures RelinkedOnly(old(pages.next), pages.next, Halves(b, old(cross[b])))
      ensures link0.live == old(link0.live) - Halves(b, old(cross[b]))
      ensures FellBack(old(link0.to), link0.to, link0.live, Halves(b, old(cross[b])))
      ensures FellBack(old(link1.to), link1.to, link0.live, Halves(b, old(cross[b])))
      ensures var x := CrossHalf(b, old(cross[b]), pages.index);
              if x != NULL then next == old(next)[x := old(free)] && free == x else next == old(next) && free == old(free)
      decreases if cross[b] != NULL then 1 else 0
    {
      hide CodePageTable.Valid, LinkTable.Valid, Sealed, FellBack, RelinkedOnly, RowsKept;
      Unhook(b);
      label Unhooked:
      var c := cross[b];
      if c != NULL {
        cross := cross[c := NULL];
        Clear(c);
        cross := cross[b := NULL];
      }
      label Mid:
      Deregister(b);
      RelinkTwice(old(pages.next), old@Mid(pages.next), pages.next, b, c);
      RowsTwice(old(pages.hashMap), old@Mid(pages.hashMap), pages.hashMap, old(pages.handler), b, c);
      FellBackTwice(old(link0.to), old@Unhooked(link0.to), link0.to, old@Unhooked(link0.live), link0.live, b, c);
      FellBackTwice(old(link1.to), old@Unhooked(link1.to), link1.to, old@Unhooked(link0.live), link0.live, b, c);
    }

    /** Clear, seen from outside: block `b` is gone together with its other half. */
    method ClearCore(b: int)
      requires Core() && 0 <= b < |cross| && pages.handler[b] != NULL
      modifies this`cross, this`next, this`free, link0, link1
      modifies pages`handler, pages`next, pages`span, pages`hashMap, pages`writeMap, pages`active, pages`countdown, pages`chains
      ensures Core() && cross == Cleared(old(cross), b, old(cross[b]))
      ensures pages.handler == Cleared(old(pages.handler), b, old(cross[b]))
      ensures pages.span == Unmasked(old(pages.span), b, old(cross[b]))
      ensures RelinkedOnly(old(pages.next), pages.next, Halves(b, old(cross[b])))
      ensures var x := CrossHalf(b, old(cross[b]), pages.index);
              if x != NULL then 0 <= x < old(|next|) && next == old(next)[x := old(free)] && free == x
              else next == old(next) && free == old(free)
    {
      hide CodePageTable.Valid, LinkTable.Valid, Sealed, FellBack, RelinkedOnly, Mains;
      ClearKeepsCross(cross, pages.handler, pages.index, b);
      ClearKeepsBodies(pages.handler, pages.index, pages.span, pages.source, pages.inUse, b, cross[b]);
      CanClear(b);
      Clear(b);
    }

    /** The same with the arena at rest. */
    method ClearBlock(b: int)
      requires Valid() && 0 <= b < |cross| && pages.handler[b] != NULL
      modifies this`cross, this`next, this`free, this`freeList, link0, link1
      modifies pages`handler, pages`next, pages`span, pages`hashMap, pages`writeMap, pages`active, pages`countdown, pages`chains
      ensures Valid() && cross == Cleared(old(cross), b, old(cross[b]))
      ensures pages.handler == Cleared(old(pages.handler), b, old(cross[b]))
      ensures pages.span == Unmasked(old(pages.span), b, old(cross[b]))
      ensures RelinkedOnly(old(pages.next), pages.next, Halves(b, old(cross[b])))
    {
      hide CodePageTable.Valid, LinkTable.Valid, BodiesOk, RelinkedOnly, Chain, Mains, TileOk;
      ClearKeepsPlaces(arena, freeList, next, free, pages.handler, pages.index, cross, b);
      ghost var x := CrossHalf(b, cross[b], pages.index);
      if x != NULL {
        ArenaFrame(start, size, next, first, arena, x, free);
      }
      ClearCore(b);
      if x != NULL {
        freeList := [x] + freeList;
      }
    }

    /** Everything an invalidation of bytes `lo..hi` of page `p` may have done since the state `handler0, span0, cross0`. */
    ghost predicate Invalidating(handler0: seq<int>, span0: seq<Span>, cross0: seq<int>, p: int, lo: int, hi: int, ip: int, current: bool)
      reads this, link0, link1, pages
    {
      && Valid() && 0 <= p < |pages.inUse| && pages.inUse[p]
      && Kept(handler0, span0, pages.handler, pages.span)
      && Evicted(handler0, span0, cross0, pages.handler, cross, p, lo, hi, ip, current)
    }

    /** The inner loop of InvalidateRange: clear the blocks of one slot that meet `lo..hi`. */
    method SweepSlot(p: int, i: int, lo: int, hi: int, ip: int, current: bool,
                     ghost handler0: seq<int>, ghost span0: seq<Span>, ghost cross0: seq<int>)
      returns (current': bool)
      requires Invalidating(handler0, span0, cross0, p, lo, hi, ip, current) && 0 <= i < HASH_SIZE
      modifies this`cross, this`next, this`free, this`freeList, link0, link1
      modifies pages`handler, pages`next, pages`span, pages`hashMap, pages`writeMap, pages`active, pages`countdown, pages`chains
      ensures Invalidating(handler0, span0, cross0, p, lo, hi, ip, current')
      ensures Kept(old(pages.handler), old(pages.span), pages.handler, pages.span)
      ensures forall b :: 0 <= b < |cross| && pages.handler[b] == p && pages.index[b] == i ==> !Overlaps(pages.span[b], lo, hi)
    {
      current' := current;
      ghost var rest := SlotList(p, i);
      var block := pages.hashMap[p][i];
      ghost var handler1, span1 := pages.handler, pages.span;
      while block != NULL
        invariant Invalidating(handler0, span0, cross0, p, lo, hi, ip, current')
        invariant Kept(handler1, span1, pages.handler, pages.span)
        invariant Sweeping(pages.handler, pages.index, pages.span, pages.next, rest, block, p, i, lo, hi)
        modifies this`cross, this`next, this`free, this`freeList, link0, link1
        modifies pages`handler, pages`next, pages`span, pages`hashMap, pages`writeMap, pages`active, pages`countdown, pages`chains
        decreases |rest|
      {
        hide *;
        block, rest, current' := SweepBlock(block, rest, p, i, lo, hi, ip, current', handler0, span0, cross0, handler1, span1);
      }
    }

    /** One round of that loop. */
    method SweepBlock(block: int, ghost rest: seq<int>, p: int, i: int, lo: int, hi: int, ip: int, current: bool,
                      ghost handler0: seq<int>, ghost span0: seq<Span>, ghost cross0: seq<int>,
                      ghost handler1: seq<int>, ghost span1: seq<Span>)
      returns (nextBlock: int, ghost rest': seq<int>, current': bool)
      requires Invalidating(handler0, span0, cross0, p, lo, hi, ip, current) && block != NULL
      requires Kept(handler1, span1, pages.handler, pages.span)
      requires Sweeping(pages.handler, pages.index, pages.span, pages.next, rest, block, p, i, lo, hi)
      modifies this`cross, this`next, this`free, this`freeList, link0, link1
      modifies pages`handler, pages`next, pages`span, pages`hashMap, pages`writeMap, pages`active, pages`countdown, pages`chains
      ensures Invalidating(handler0, span0, cross0, p, lo, hi, ip, current') && |rest'| < |rest|
      ensures Kept(handler1, span1, pages.handler, pages.span)
      ensures Sweeping(pages.handler, pages.index, pages.span, pages.next, rest', nextBlock, p, i, lo, hi)
    {
      hide CodePageTable.Valid, LinkTable.Valid, Sealed, ArenaOk, PlacesOk, BodiesOk, CrossOk, HashOk, WriteMapOk, Mains, RelinkedOnly,
        Chain, Evicted;
      SweepHead(pages.handler, pages.index, pages.span, pages.next, rest, block, p, i, lo, hi);
      current' := current;
      nextBlock := pages.next[block];
      rest' := rest[1..];
      if lo <= pages.span[block].end && hi >= pages.span[block].start {
        if pages.span[block].start <= ip <= pages.span[block].end {
          current' := true;
        }
        ghost var c := cross[block];
        OtherHalfElsewhere(cross, pages.handler, pages.index, block);
        KeptClear(handler0, span0, pages.handler, pages.span, block, c);
        KeptClear(handler1, span1, pages.handler, pages.span, block, c);
        EvictOne(handler0, span0, cross0, pages.handler, pages.span, cross, pages.index, p, lo, hi, ip, current, block);
        ghost var oldNext, oldHandler, oldSpan := pages.next, pages.handler, pages.span;
        ClearBlock(block);
        SweepClear(oldHandler, pages.index, oldSpan, oldNext, pages.next, rest, block, c, p, i, lo, hi);
      } else {
        SweepSkip(pages.handler, pages.index, pages.span, pages.next, rest, block, p, i, lo, hi);
      }
    }

    /** CodePageHandler::InvalidateRange.  The slots are swept downwards from the one of the last byte, and the sweep
        stops early when the write map says that nothing is left in the range. */
    method InvalidateRange(p: int, lo: int, hi: int, ip: int) returns (current: bool)
      requires Valid() && 0 <= p < |pages.inUse| && pages.inUse[p] && 0 <= lo <= hi < PAGE_SIZE
      modifies this`cross, this`next, this`free, this`freeList, link0, link1
      modifies pages`handler, pages`next, pages`span, pages`hashMap, pages`writeMap, pages`active, pages`countdown, pages`chains
      ensures Invalidating(old(pages.handler), old(pages.span), old(cross), p, lo, hi, ip, current)
      ensures forall i :: lo <= i <= hi ==> Untouched(pages.handler, pages.source, p, i)
    {
      current := false;
      ghost var handler0, span0, cross0 := pages.handler, pages.span, cross;
      NothingEvicted(handler0, span0, cross0, p, lo, hi, ip);
      HighSlots(pages.handler, pages.index, pages.span, pages.source, pages.inUse, p, lo, hi);
      var index := HashSlot(hi);
      while index >= 0
        invariant -1 <= index < HASH_SIZE
        invariant Invalidating(handler0, span0, cross0, p, lo, hi, ip, current)
        invariant SweptAbove(pages.handler, pages.index, pages.span, p, index, lo, hi)
        modifies this`cross, this`next, this`free, this`freeList, link0, link1
        modifies pages`handler, pages`next, pages`span, pages`hashMap, pages`writeMap, pages`active, pages`countdown, pages`chains
      {
        hide CodePageTable.Valid, LinkTable.Valid, Sealed, ArenaOk, PlacesOk, BodiesOk, CrossOk, HashOk, WriteMapOk, Mains,
          RelinkedOnly, Chain, Evicted;
        var codeLeft := CodeInRange(pages.writeMap[p], lo, hi);
        if !codeLeft {
          NoCodeLeft(p, lo, hi);
          return;
        }
        ghost var handler1, span1 := pages.handler, pages.span;
        current := SweepSlot(p, index, lo, hi, ip, current, handler0, span0, cross0);
        SweptOneMore(handler1, span1, pages.handler, pages.index, pages.span, p, index, lo, hi);
        index := index - 1;
      }
      NoOverlapUntouched(pages.handler, pages.index, pages.span, pages.source, pages.inUse, p, lo, hi);
    }

    // ---- guest writes ----

    /** A write that changes something in a page without blocks, when only one more of them was left to the page. */
    ghost predicate LastIdle(p: int, addr: nat, val: seq<int>)
      requires Parts() && 0 <= p < |memory| == |pages.active| == |pages.countdown| && addr + |val| <= |memory[p]|
      reads this, link0, link1, pages
    {
      pages.active[p] == 0 && pages.countdown[p] == 1 && memory[p][addr..addr + |val|] != val
    }

    lemma HitHasBlocks(p: int, lo: int, hi: int)
      requires Valid() && 0 <= p < |pages.inUse| && pages.inUse[p] && 0 <= lo <= hi < PAGE_SIZE
      requires SeesCode(pages.writeMap[p], lo, hi)
      ensures pages.active[p] > 0
    {
      var i :| lo <= i <= hi && pages.writeMap[p][i] != 0;
      assert pages.writeMap[p][i] == |CoverSet(pages.handler, pages.source, p, i)|;
      var b :| b in CoverSet(pages.handler, pages.source, p, i);
      assert b in Members(pages.handler, p);
    }

    /** A write to a byte from which nothing was translated; a page without blocks is given up in the end, with
        its sixteenth such write. */
    method IdleWrite(p: int)
      requires Valid() && 0 <= p < |pages.inUse| && pages.inUse[p]
      modifies pages`countdown, pages`inUse
      ensures Valid() && pages.inUse == old(pages.inUse)[p := old(pages.active[p] != 0 || pages.countdown[p] != 1)]
      ensures pages.countdown == old(pages.countdown)[p := old(pages.countdown[p]) - if old(pages.active[p]) == 0 then 1 else 0]
    {
      if pages.active[p] != 0 {
        return;
      }
      hide CodePageTable.Valid, LinkTable.Valid, Sealed, ArenaOk, PlacesOk, CrossOk, HashOk, WriteMapOk, Mains, Chain;
      NoBlocksIn(p);
      ghost var inUse0 := pages.inUse;
      var released := pages.CountIdleWrite(p);
      if released {
        ReleaseKeepsBodies(pages.handler, pages.index, pages.span, pages.source, inUse0, p);
      }
    }

    lemma NoBlocksIn(p: int)
      requires Valid() && 0 <= p < |pages.inUse| && pages.inUse[p] && pages.active[p] == 0
      ensures forall b :: 0 <= b < |cross| ==> pages.handler[b] != p
    {
      forall b | 0 <= b < |cross| ensures pages.handler[b] != p {
        assert b !in Members(pages.handler, p);
      }
    }

    /** host_writeb, host_writew, host_writed */
    method Store(p: int, row: seq<int>)
      requires Valid() && 0 <= p < |memory| && |row| == PAGE_SIZE
      requires AllFresh(pages.handler, pages.source, memory[p := row])
      modifies this`memory
      ensures Valid() && Coherent() && memory == old(memory)[p := row]
    {
      memory := memory[p := row];
    }

    /** A write that meets no code. */
    method StoreIdly(p: int, addr: nat, val: seq<int>)
      requires Valid() && Coherent() && 0 <= p < |pages.inUse| && pages.inUse[p] && 1 <= |val| <= 4 && addr + |val| <= PAGE_SIZE
      requires !SeesCode(pages.writeMap[p], addr, addr + |val| - 1) && memory[p][addr..addr + |val|] != val
      modifies this`memory, pages`countdown, pages`inUse
      ensures Valid() && Coherent() && memory == old(memory)[p := Stored(old(memory)[p], addr, val)]
      ensures pages.inUse == old(pages.inUse)[p := !old(LastIdle(p, addr, val))]
    {
      hide ArenaOk, PlacesOk, BodiesOk, CrossOk, AllFresh, HashOk, Mains, Chain, LinkTable.Valid, Stored;
      NoCodeLeft(p, addr, addr + |val| - 1);
      StoreKeepsFresh(pages.handler, pages.source, memory, p, addr, addr + |val| - 1, Stored(memory[p], addr, val));
      IdleWrite(p);
      Store(p, Stored(memory[p], addr, val));
    }

    /** CodePageHandler::writeb, writew and writed: the bytes of `val` are stored at `addr`, and afterwards every
        block that is still registered was translated from what the memory now holds. */
    method Write(p: int, addr: nat, val: seq<int>, ip: int) returns (outcome: WriteOutcome, ghost current: bool)
      requires Valid() && Coherent() && 0 <= p < |pages.inUse| && pages.inUse[p]
      requires 1 <= |val| <= 4 && addr + |val| <= PAGE_SIZE
      modifies this`memory, this`cross, this`next, this`free, this`freeList, link0, link1
      modifies pages`handler, pages`next, pages`span, pages`hashMap, pages`writeMap, pages`active, pages`countdown, pages`chains, pages`inUse
      ensures Valid() && Coherent()
      ensures outcome == if rom[p] then Ignored else if !readable[p] then Fatal else Done
      ensures !outcome.Done? ==> pages.handler == old(pages.handler)
      ensures memory == if outcome.Done? then old(memory)[p := Stored(old(memory)[p], addr, val)] else old(memory)
      ensures pages.inUse == old(pages.inUse)[p := !(outcome.Done? && old(LastIdle(p, addr, val)))]
      ensures Kept(old(pages.handler), old(pages.span), pages.handler, pages.span)
      ensures Evicted(old(pages.handler), old(pages.span), old(cross), pages.handler, cross, p, addr, addr + |val| - 1, ip, current)
    {
      hide ArenaOk, PlacesOk, BodiesOk, CrossOk, AllFresh, HashOk, Mains, Chain, LinkTable.Valid, Stored, Evicted, Kept, SeesCode,
        ActiveOk;
      NothingEvicted(pages.handler, pages.span, cross, p, addr, addr + |val| - 1, ip);
      if rom[p] {
        return Ignored, false;
      }
      if !readable[p] {
        return Fatal, false;
      }
      outcome, current := Done, false;
      if memory[p][addr..addr + |val|] == val {
        StoredSame(memory[p], addr, val);
        return;
      }
      var hit := CodeInRange(pages.writeMap[p], addr, addr + |val| - 1);
      if !hit {
        StoreIdly(p, addr, val);
      } else {
        HitHasBlocks(p, addr, addr + |val| - 1);
        ghost var handler0 := pages.handler;
        memory := memory[p := Stored(memory[p], addr, val)];
        current := InvalidateRange(p, addr, addr + |val| - 1, ip);
        KeptDropped(handler0, old(pages.span), pages.handler, pages.span);
        DroppedKeepsFresh(handler0, pages.handler, pages.source, old(memory));
        StoreKeepsFresh(pages.handler, pages.source, old(memory), p, addr, addr + |val| - 1, memory[p]);
      }
    }

    /** The blocks that a checked write meets are dropped before it is carried out. */
    method EvictFor(p: int, addr: nat, val: seq<int>, ip: int) returns (current: bool)
      requires Valid() && Coherent() && 0 <= p < |pages.inUse| && pages.inUse[p] && 1 <= |val| <= 4 && addr + |val| <= PAGE_SIZE
      modifies this`cross, this`next, this`free, this`freeList, link0, link1
      modifies pages`handler, pages`next, pages`span, pages`hashMap, pages`writeMap, pages`active, pages`countdown, pages`chains
      ensures Valid() && Coherent() && AllFresh(pages.handler, pages.source, memory[p := Stored(memory[p], addr, val)])
      ensures Kept(old(pages.handler), old(pages.span), pages.handler, pages.span)
      ensures Evicted(old(pages.handler), old(pages.span), old(cross), pages.handler, cross, p, addr, addr + |val| - 1, ip, current)
    {
      hide ArenaOk, PlacesOk, BodiesOk, CrossOk, AllFresh, HashOk, Mains, Chain, LinkTable.Valid, Stored, Evicted, Kept;
      ghost var handler0, span0 := pages.handler, pages.span;
      current := InvalidateRange(p, addr, addr + |val| - 1, ip);
      KeptDropped(handler0, span0, pages.handler, pages.span);
      DroppedKeepsFresh(handler0, pages.handler, pages.source, memory);
      StoreKeepsFresh(pages.handler, pages.source, memory, p, addr, addr + |val| - 1, Stored(memory[p], addr, val));
    }

    /** The part of a checked write that changes something. */
    method StoreChecked(p: int, addr: nat, val: seq<int>, ip: int) returns (outcome: WriteOutcome)
      requires Valid() && Coherent() && 0 <= p < |pages.inUse| && pages.inUse[p] && 1 <= |val| <= 4 && addr + |val| <= PAGE_SIZE
      requires memory[p][addr..addr + |val|] != val
      modifies this`memory, this`cross, this`next, this`free, this`freeList, link0, link1
      modifies pages`handler, pages`next, pages`span, pages`hashMap, pages`writeMap, pages`active, pages`countdown, pages`chains, pages`inUse
      ensures Valid() && Coherent() && (outcome.Done? || outcome.CurrentBlock?)
      ensures memory == if outcome.Done? then old(memory)[p := Stored(old(memory)[p], addr, val)] else old(memory)
      ensures pages.inUse == old(pages.inUse)[p := !(outcome.Done? && old(LastIdle(p, addr, val)))]
      ensures Kept(old(pages.handler), old(pages.span), pages.handler, pages.span)
      ensures Evicted(old(pages.handler), old(pages.span), old(cross), pages.handler, cross, p, addr, addr + |val| - 1, ip,
                      outcome.CurrentBlock?)
    {
      hide ArenaOk, PlacesOk, BodiesOk, CrossOk, AllFresh, HashOk, Mains, Chain, LinkTable.Valid, Stored, Evicted, Kept, SeesCode,
        ActiveOk;
      NothingEvicted(pages.handler, pages.span, cross, p, addr, addr + |val| - 1, ip);
      outcome := Done;
      var hit := CodeInRange(pages.writeMap[p], addr, addr + |val| - 1);
      if !hit {
        StoreIdly(p, addr, val);
      } else {
        HitHasBlocks(p, addr, addr + |val| - 1);
        var current := EvictFor(p, addr, val, ip);
        if current {
          return CurrentBlock;
        }
        Store(p, Stored(memory[p], addr, val));
      }
    }

    /** CodePageHandler::writeb_checked, writew_checked and writed_checked: the same, except that a write into the block
        that holds `ip` is not carried out but reported, after the blocks it meets are gone. */
    method WriteChecked(p: int, addr: nat, val: seq<int>, ip: int) returns (outcome: WriteOutcome)
      requires Valid() && Coherent() && 0 <= p < |pages.inUse| && pages.inUse[p]
      requires 1 <= |val| <= 4 && addr + |val| <= PAGE_SIZE
      modifies this`memory, this`cross, this`next, this`free, this`freeList, link0, link1
      modifies pages`handler, pages`next, pages`span, pages`hashMap, pages`writeMap, pages`active, pages`countdown, pages`chains, pages`inUse
      ensures Valid() && Coherent()
      ensures rom[p] <==> outcome.Ignored?
      ensures !rom[p] && !readable[p] <==> outcome.Fatal?
      ensures outcome.CurrentBlock? ==> memory[p][addr..addr + |val|] != val
      ensures outcome.Ignored? || outcome.Fatal? ==> pages.handler == old(pages.handler)
      ensures memory == if outcome.Done? then old(memory)[p := Stored(old(memory)[p], addr, val)] else old(memory)
      ensures pages.inUse == old(pages.inUse)[p := !(outcome.Done? && old(LastIdle(p, addr, val)))]
      ensures Kept(old(pages.handler), old(pages.span), pages.handler, pages.span)
      ensures Evicted(old(pages.handler), old(pages.span), old(cross), pages.handler, cross, p, addr, addr + |val| - 1, ip,
                      outcome.CurrentBlock?)
    {
      hide ArenaOk, PlacesOk, BodiesOk, CrossOk, AllFresh, HashOk, Mains, Chain, LinkTable.Valid, Stored, Evicted, Kept, SeesCode,
        ActiveOk;
      NothingEvicted(pages.handler, pages.span, cross, p, addr, addr + |val| - 1, ip);
      if rom[p] {
        return Ignored;
      }
      if !readable[p] {
        return Fatal;
      }
      outcome := Done;
      if memory[p][addr..addr + |val|] == val {
        StoredSame(memory[p], addr, val);
        return;
      }
      outcome := StoreChecked(p, addr, val, ip);
    }

    /** A checked write from a running block into the second half of this block itself: it is carried out, the block is
        dropped, and nothing tells the block so. */
    method StoreIntoSecondHalf(running: int, p: int, addr: nat, val: seq<int>, ip: int) returns (outcome: WriteOutcome)
      requires Valid() && Coherent() && 0 <= p < |pages.inUse| && pages.inUse[p] && !rom[p] && readable[p]
      requires 1 <= |val| <= 4 && addr + |val| <= PAGE_SIZE
      requires running in link0.live && 0 <= running < |cross| && 0 <= cross[running] < |cross| && pages.handler[cross[running]] == p
      requires exists i :: 0 <= i < |val| && addr + i in pages.source[cross[running]] && memory[p][addr + i] != val[i]
      requires !(0 <= ip < PAGE_SIZE)
      modifies this`memory, this`cross, this`next, this`free, this`freeList, link0, link1
      modifies pages`handler, pages`next, pages`span, pages`hashMap, pages`writeMap, pages`active, pages`countdown, pages`chains, pages`inUse
      ensures Valid() && Coherent() && outcome.Done? && memory == old(memory)[p := Stored(old(memory)[p], addr, val)]
      ensures running !in link0.live && pages.handler[running] == NULL
    {
      hide ArenaOk, PlacesOk, HashOk, WriteMapOk, Chain, LinkTable.Valid;
      ghost var x := cross[running];
      ghost var handler0, span0, cross0 := pages.handler, pages.span, cross;
      ghost var i :| 0 <= i < |val| && addr + i in pages.source[x] && memory[p][addr + i] != val[i];
      assert Fresh(pages.handler, pages.source, memory, x) && HalfOk(cross, pages.handler, pages.index, running);
      SpansInPage(p);
      outcome := WriteChecked(p, addr, val, ip);
      NotInPage(handler0, span0, cross0, pages.handler, cross, p, addr, addr + |val| - 1, ip, outcome.CurrentBlock?);
      assert Fresh(pages.handler, pages.source, memory, x) && HalfOk(cross, pages.handler, pages.index, running);
    }

    lemma SpansInPage(p: int)
      requires Valid() && p != NULL
      ensures forall b :: 0 <= b < |cross| && pages.handler[b] == p ==> 0 <= pages.span[b].start && pages.span[b].end < PAGE_SIZE
    {
      forall b | 0 <= b < |cross| && pages.handler[b] == p ensures 0 <= pages.span[b].start && pages.span[b].end < PAGE_SIZE {
        assert BodyOk(pages.handler, pages.index, pages.span, pages.source, pages.inUse, b);
      }
    }

    // ---- running and linking blocks ----

    function Links(ind: nat): LinkTable
      requires ind < 2
    { if ind == 0 then link0 else link1 }

    /** LinkBlocks: the running block left through its unlinked jump `ind`; look the target up and link it.  The running
        block may have been cleared meanwhile, see StoreIntoSecondHalf; linking it then spoils the caller lists. */
    method LinkBlocks(running: int, ind: nat, p: int, offset: nat) returns (block: int)
      requires Valid() && ind < 2 && 0 <= running < |cross| && (running in link0.live ==> Links(ind).to[running] == LINK_CODE)
      requires 0 <= p < |pages.inUse| && offset < PAGE_SIZE
      modifies Links(ind)
      ensures Valid() <==> block == NULL || running in link0.live
      ensures link0.live == old(link0.live)
      ensures block == NULL <==> (forall b <- link0.live :: 0 <= b < |cross| && pages.handler[b] == p ==> pages.span[b].start != offset)
      ensures block == NULL ==> Links(ind).to == old(Links(ind).to)
      ensures block != NULL ==>
                block in link0.live && 0 <= block < |cross| && pages.handler[block] == p && pages.span[block].start == offset &&
                Links(ind).to == old(Links(ind).to)[running := block]
    {
      hide ArenaOk, PlacesOk, AllFresh, Chain, HashOk, WriteMapOk, CrossOk, LinksOk;
      if !pages.inUse[p] {
        UnusedHasNoBlocks(pages.handler, pages.index, pages.span, pages.source, pages.inUse, p);
        return NULL;
      }
      StartsInSlot();
      block := pages.FindCacheBlock(p, offset);
      if block != NULL {
        Links(ind).LinkTo(running, block);
      }
    }

    lemma StartsInSlot()
      requires Core()
      ensures forall b :: 0 <= b < |cross| && pages.handler[b] != NULL && pages.index[b] != 0 ==>
                pages.index[b] == HashSlot(pages.span[b].start)
    {
      forall b | 0 <= b < |cross| && pages.handler[b] != NULL && pages.index[b] != 0
        ensures pages.index[b] == HashSlot(pages.span[b].start)
      {
        assert BodyOk(pages.handler, pages.index, pages.span, pages.source, pages.inUse, b);
      }
    }

    /** No block that can be entered starts at `offset` of page `p`. */
    ghost predicate NothingAt(p: int, offset: nat)
      requires Parts()
      reads this, link0, link1, pages
    {
      forall b <- link0.live :: 0 <= b < |cross| && pages.handler[b] == p ==> pages.span[b].start != offset
    }

    /** Where the blocks that can be entered begin. */
    ghost function PlacesOf(): Places
      reads this, link0, pages
    { Places(pages.handler, pages.span, link0.live) }

    ghost function JumpsNow(): Jumps
      reads link0, link1
    { Jumps(link0.to, link1.to) }

    /** Block `running` is left by exit `e`: by its jump, or through LinkBlocks; `target` is NULL where that finds nothing.
        A block that was cleared meanwhile still has its jumps, wherever they lead; it must not be linked again. */
    method Follow(running: int, e: Exit) returns (target: int, linked: bool)
      requires Valid() && 0 <= running < |cross| && e.ind < 2 && 0 <= e.p < |pages.inUse| && e.offset < PAGE_SIZE
      modifies link0, link1
      ensures link0.live == old(link0.live) && old(JumpsNow()).Sized(|cross|)
      ensures linked == (target != NULL && old(JumpsNow().Of(e.ind)[running]) == LINK_CODE)
      ensures Valid() <==> !linked || running in link0.live
      ensures target == NULL ==> JumpsNow() == old(JumpsNow()) && JumpsNow().Of(e.ind)[running] == LINK_CODE && NothingAt(e.p, e.offset)
      ensures target != NULL ==> 0 <= target < |cross| && JumpsNow() == old(JumpsNow()).To(e.ind, running, target)
      ensures target != NULL && running in link0.live ==> target in link0.live
      ensures linked ==> target in link0.live && StartsAt(pages.handler, pages.span, target, e.p, e.offset)
      ensures target != NULL && !linked ==> old(JumpsNow().Of(e.ind)[running]) == target
    {
      hide ArenaOk, PlacesOk, AllFresh, Chain, HashOk, WriteMapOk, CrossOk, BodiesOk;
      JumpInTable(running, e.ind);
      target, linked := Links(e.ind).to[running], false;
      assert Links(e.ind).to == Links(e.ind).to[running := target];
      if target == LINK_CODE {
        hide LinksOk;
        target := LinkBlocks(running, e.ind, e.p, e.offset);
        linked := target != NULL;
      }
    }

    /** Block `b` can be entered; the run loop itself never asks. */
    method IsLive(b: int) returns (live: bool)
      requires Valid() && 0 <= b < |cross|
      ensures live <==> b in link0.live
    {
      live := pages.handler[b] != NULL && pages.index[b] != 0;
    }

    /** Along `trace` control followed the jumps of the `exits`, see Followed; whatever a live block led to is live, and was
        translated from the bytes now in memory; and none of the first `n` exits linked a block that had been cleared. */
    ghost predicate Along(before: Jumps, exits: seq<Exit>, trace: seq<int>, n: int)
      reads this, link0, link1, pages
    {
      && Followed(|pages.handler|, before, JumpsNow(), pages.handler, pages.span, exits, trace)
      && GenuineWhereLive(pages.handler, pages.source, memory, link0.live, trace)
      && Rising(link0.live, trace) && DeadKept(before, exits, trace, link0.live, n)
    }

    /** The run loop comes to an end where a jump is not linked and there is no block to link it to. */
    ghost predicate Stops(b: int, e: Exit)
      reads this, link0, link1, pages
    {
      Parts() && 0 <= b < |cross| && e.ind < 2 && JumpsNow().Of(e.ind)[b] == LINK_CODE && NothingAt(e.p, e.offset)
    }

    /** The run loop from block `entry` on, exit by exit.  The cache is spoiled if and only if a block that was cleared
        meanwhile is linked again; then the run is not followed any further. */
    method Run(entry: int, exits: seq<Exit>) returns (trace: seq<int>, spoiled: bool)
      requires Valid() && Coherent() && 0 <= entry < |cross|
      requires forall e <- exits :: e.ind < 2 && 0 <= e.p < |pages.inUse| && e.offset < PAGE_SIZE
      modifies link0, link1
      ensures link0.live == old(link0.live) && Coherent() && (Valid() <==> !spoiled)
      ensures 0 < |trace| <= |exits| + 1 && trace[0] == entry
      ensures Along(old(JumpsNow()), exits, trace, if spoiled then |trace| - 2 else |trace| - 1)
      ensures spoiled ==> |trace| >= 2 && trace[|trace| - 2] !in link0.live && Unlinked(old(JumpsNow()), exits, trace, |trace| - 2)
      ensures !spoiled && |trace| <= |exits| ==> Stops(trace[|trace| - 1], exits[|trace| - 1])
    {
      hide CodeCache.Parts, Followed, Rising, DeadKept, GenuineWhereLive, Unlinked, CodeCache.Stops;
      trace, spoiled := [entry], false;
      ghost var before := JumpsNow();
      AtEntry(entry, exits);
      while |trace| <= |exits|
        invariant link0.live == old(link0.live) && Coherent() && Valid() && !spoiled
        invariant 0 < |trace| <= |exits| + 1 && trace[0] == entry && Along(before, exits, trace, |trace| - 1)
        modifies link0, link1
        decreases |exits| - |trace|
      {
        hide *;
        var target;
        target, spoiled := RunStep(before, exits, trace);
        if target == NULL {
          return;
        }
        trace := trace + [target];
        if spoiled {
          return;
        }
      }
    }

    /** One round of the run loop. */
    method RunStep(ghost before: Jumps, exits: seq<Exit>, trace: seq<int>) returns (target: int, spoiled: bool)
      requires Valid() && Coherent() && 0 < |trace| <= |exits| && Along(before, exits, trace, |trace| - 1)
      requires forall e <- exits :: e.ind < 2 && 0 <= e.p < |pages.inUse| && e.offset < PAGE_SIZE
      modifies link0, link1
      ensures link0.live == old(link0.live) && Coherent() && (Valid() <==> !spoiled)
      ensures target == NULL ==> !spoiled && Along(before, exits, trace, |trace| - 1) && Stops(trace[|trace| - 1], exits[|trace| - 1])
      ensures target != NULL ==> Along(before, exits, trace + [target], if spoiled then |trace| - 1 else |trace|)
      ensures spoiled ==> target != NULL && trace[|trace| - 1] !in link0.live && Unlinked(before, exits, trace + [target], |trace| - 1)
    {
      var k := |trace| - 1;
      var running, e := trace[k], exits[k];
      InTable(before, exits, trace, k);
      hide CodeCache.Valid, CodeCache.Parts, CodeCache.NothingAt, Followed, Rising, DeadKept, GenuineWhereLive, Unlinked, StartsAt;
      var live := IsLive(running);
      ghost var jumps := JumpsNow();
      var linked;
      target, linked := Follow(running, e);
      spoiled := linked && !live;
      if target == NULL {
        StopsHere(running, e);
      } else {
        OneFurther(before, jumps, exits, trace, running, e, target, linked);
      }
    }

    lemma InTable(before: Jumps, exits: seq<Exit>, trace: seq<int>, k: nat)
      requires Valid() && Along(before, exits, trace, k) && k < |trace|
      ensures 0 <= trace[k] < |cross| == |pages.handler|
      ensures forall d <- link0.live :: 0 <= d < |pages.handler| && pages.handler[d] != NULL
    {
      assert trace[k] in trace;
    }

    lemma StopsHere(b: int, e: Exit)
      requires Valid() && 0 <= b < |cross| && e.ind < 2 && JumpsNow().Sized(|cross|) && JumpsNow().Of(e.ind)[b] == LINK_CODE &&
              NothingAt(e.p, e.offset)
      ensures Stops(b, e)
    {
    }

    lemma JumpInTable(b: int, ind: nat)
      requires Valid() && 0 <= b < |cross| && ind < 2
      ensures |link0.to| == |link1.to| == |cross| && (Links(ind).to[b] == LINK_CODE || 0 <= Links(ind).to[b] < |cross|)
      ensures b in link0.live ==> Links(ind).to[b] == LINK_CODE || Links(ind).to[b] in link0.live
    {
      var t := Links(ind);
      if b in link0.live {
        assert BlockOk(t.to, t.next, t.from, t.callers, t.live, b);
      }
    }

    lemma AtEntry(entry: int, exits: seq<Exit>)
      requires Valid() && Coherent() && 0 <= entry < |cross|
      ensures Along(JumpsNow(), exits, [entry], 0)
    {
      NothingFollowed(|cross|, JumpsNow(), pages.handler, pages.span, exits, entry);
      assert Fresh(pages.handler, pages.source, memory, entry);
    }

    lemma OneFurther(before: Jumps, jumps: Jumps, exits: seq<Exit>, trace: seq<int>, b: int, e: Exit, target: int, linked: bool)
      requires Coherent() && Followed(|pages.handler|, before, jumps, pages.handler, pages.span, exits, trace) && |trace| <= |exits|
      requires GenuineWhereLive(pages.handler, pages.source, memory, link0.live, trace)
      requires Rising(link0.live, trace) && DeadKept(before, exits, trace, link0.live, |trace| - 1)
      requires forall d <- link0.live :: 0 <= d < |pages.handler| && pages.handler[d] != NULL
      requires b == trace[|trace| - 1] && e == exits[|trace| - 1] && 0 <= b < |pages.handler| && 0 <= target < |pages.handler| && e.ind < 2
      requires JumpsNow() == jumps.To(e.ind, b, target) && (b in link0.live ==> target in link0.live)
      requires if linked then jumps.Of(e.ind)[b] == LINK_CODE && StartsAt(pages.handler, pages.span, target, e.p, e.offset)
               else jumps.Of(e.ind)[b] == target
      ensures var spoiled := linked && b !in link0.live;
              && Along(before, exits, trace + [target], if spoiled then |trace| - 1 else |trace|)
              && (spoiled ==> Unlinked(before, exits, trace + [target], |trace| - 1))
    {
      FollowedOn(|pages.handler|, before, jumps, pages.handler, pages.span, exits, trace, e, b, target);
      var n, trace' := |trace| - 1, trace + [target];
      assert Fresh(pages.handler, pages.source, memory, target);
      if b !in link0.live {
        DeadJump(|pages.handler|, before, jumps, pages.handler, pages.span, exits, trace, link0.live, e.ind, b);
      }
      hide Followed, Fresh;
      forall k {:trigger trace'[k]} | 0 <= k < n && trace'[k] !in link0.live ensures !Unlinked(before, exits, trace', k) {
        assert trace'[k] == trace[k] && (Unlinked(before, exits, trace', k) <==> Unlinked(before, exits, trace, k));
      }
      forall k {:trigger trace'[k]} | 0 <= k < |trace'| - 1 && trace'[k] in link0.live ensures trace'[k + 1] in link0.live {
        assert trace'[k] == trace[k];
      }
    }

    // ---- the arena ----

    /** The state inside the merge loop of cache_openblock: `block` is cleared and will own `acc` bytes up to `after`. */
    ghost predicate Merging(block: int, acc: int, after: int)
      reads this, link0, link1, pages
    {
      && Core() && |next| == |cross| && active in arena && LowActive()
      && MergingOk(start, size, next, first, arena, block, acc, after)
      && Chain(free, next, freeList)
      && PlacesOk(arena, freeList, pages.handler, pages.index)
    }

    /** The block after the active one is cleared and joined to it. */
    method MergeNext(block: int, acc: int, after: int, ghost handler0: seq<int>, ghost span0: seq<Span>,
                     ghost arena0: seq<int>)
      returns (acc': int, after': int)
      requires Merging(block, acc, after) && after != NULL && block == active && 0 <= block < |cross| && pages.handler[block] == NULL
      modifies this`cross, this`next, this`free, this`freeList, this`arena, link0, link1
      modifies pages`handler, pages`next, pages`span, pages`hashMap, pages`writeMap, pages`active, pages`countdown, pages`chains
      requires Kept(handler0, span0, pages.handler, pages.span)
      ensures Merging(block, acc', after') && acc' > acc && 0 <= block < |cross| && pages.handler[block] == NULL
      ensures active == old(active) && Kept(handler0, span0, pages.handler, pages.span)
      ensures |freeList| >= |old(freeList)|
      requires acc < CACHE_MAXSIZE && Placed(arena0) && MergedUpTo(start, arena0, arena, block, acc)
      ensures |cross| == old(|cross|) && MergedUpTo(start, arena0, arena, block, acc')
    {
      hide CodePageTable.Valid, LinkTable.Valid, Sealed, ArenaOk, CrossOk, BodiesOk, HashOk, WriteMapOk, Mains, RelinkedOnly, Chain,
        PlacesOk, MergingOk, MergedUpTo, Kept;
      MergedOneMore(start, size, next, first, arena0, arena, block, acc, after);
      Absorb(start, size, next, first, arena, block, acc, after);
      acc' := acc + size[after];
      after' := next[after];
      if pages.handler[after] != NULL {
        ClearWhileMerging(after, block, acc, after, handler0, span0);
      }
      Absorb(start, size, next, first, arena, block, acc, after);
      AbsorbKeepsPlaces(arena, freeList, next, free, pages.handler, pages.index, after);
      arena := Drop(arena, after);
      freeList := [after] + freeList;
      MergingFrame(start, size, next, first, arena, block, acc', after', after, free);
      AddUnusedBlock(after);
    }

    ghost predicate Placed(s: seq<int>)
      reads this
    { forall b <- s :: 0 <= b < |start| }

    /** Clear during the merge. */
    method ClearWhileMerging(b: int, block: int, acc: int, after: int, ghost handler0: seq<int>, ghost span0: seq<Span>)
      requires Kept(handler0, span0, pages.handler, pages.span)
      requires Merging(block, acc, after) && 0 <= b < |cross| && pages.handler[b] != NULL && b in arena
      modifies this`cross, this`next, this`free, this`freeList, link0, link1
      modifies pages`handler, pages`next, pages`span, pages`hashMap, pages`writeMap, pages`active, pages`countdown, pages`chains
      ensures Merging(block, acc, after) && pages.handler[b] == NULL && next[b] == old(next[b])
      ensures Kept(handler0, span0, pages.handler, pages.span) && Dropped(old(pages.handler), pages.handler)
      ensures |freeList| >= |old(freeList)|
    {
      KeptClear(handler0, span0, pages.handler, pages.span, b, cross[b]);
      hide CodePageTable.Valid, LinkTable.Valid, Sealed, ArenaOk, CrossOk, BodiesOk, HashOk, WriteMapOk, Mains, RelinkedOnly, Chain,
        PlacesOk, MergingOk, Kept;
      ClearKeepsPlaces(arena, freeList, next, free, pages.handler, pages.index, cross, b);
      ghost var x := CrossHalf(b, cross[b], pages.index);
      ghost var next0, free0 := next, free;
      ClearCore(b);
      MergingClear(start, size, next0, first, arena, block, acc, after, x, free0, next);
      if x != NULL {
        freeList := [x] + freeList;
      }
    }

    ghost predicate Unregistered(b: int)
      reads this, pages
    { 0 <= b < |pages.handler| && pages.handler[b] == NULL }

    /** The active block is neither registered nor too small, so opening it drops no block. */
    ghost predicate Calm()
      reads this, pages
    { Unregistered(active) && 0 <= active < |size| && size[active] >= CACHE_MAXSIZE }

    lemma ActiveHasSize()
      requires Valid()
      ensures 0 <= active < |size| == |next| && 0 <= size[active]
    {
      hide CodePageTable.Valid, LinkTable.Valid, ArenaOk, CrossOk, Chain, PlacesOk, BodiesOk;
      ActiveTile(start, size, next, first, arena, active);
    }

    lemma ActiveInTable()
      requires Valid()
      ensures 0 <= active < |cross| == |size| == |next| == |start|
    {
    }

    /** The start of cache_openblock: the active block is cleared. */
    method ClearActive() returns (block: int, acc: int, after: int)
      requires Valid()
      modifies this`cross, this`next, this`free, this`freeList, link0, link1
      modifies pages`handler, pages`next, pages`span, pages`hashMap, pages`writeMap, pages`active, pages`countdown, pages`chains
      ensures Merging(block, acc, after) && block == active == old(active) && 0 <= block < |cross|
      ensures pages.handler[block] == NULL && Kept(old(pages.handler), old(pages.span), pages.handler, pages.span)
      ensures |freeList| >= |old(freeList)| && acc == size[block]
      ensures old(Unregistered(active)) ==>
                after == next[block] && pages.handler == old(pages.handler) && pages.span == old(pages.span) &&
                next == old(next) && free == old(free) && freeList == old(freeList)
    {
      hide CodePageTable.Valid, LinkTable.Valid, Sealed, CrossOk, BodiesOk, PlacesOk, Chain, Mains, AllFresh, TileOk;
      block := active;
      ActiveInTable();
      acc, after := size[block], next[block];
      assert next[block := after] == next && size[block := acc] == size;
      if pages.handler[block] != NULL {
        ClearWhileMerging(block, block, acc, after, pages.handler, pages.span);
      }
    }

    /** The merge loop of cache_openblock. */
    method MergeAll(block: int, acc: int, after: int, ghost handler0: seq<int>, ghost span0: seq<Span>,
                    ghost arena0: seq<int>)
      returns (acc': int, after': int)
      requires Placed(arena0) && 0 <= block < |start| && MergedUpTo(start, arena0, arena, block, acc)
      requires Merging(block, acc, after) && block == active && 0 <= block < |cross| && pages.handler[block] == NULL
      requires Kept(handler0, span0, pages.handler, pages.span)
      modifies this`cross, this`next, this`free, this`freeList, this`arena, link0, link1
      modifies pages`handler, pages`next, pages`span, pages`hashMap, pages`writeMap, pages`active, pages`countdown, pages`chains
      ensures Merging(block, acc', after') && 0 <= block < |cross| && pages.handler[block] == NULL
      ensures (acc' >= CACHE_MAXSIZE || after' == NULL) && MergedUpTo(start, arena0, arena, block, acc')
      ensures active == old(active) && Kept(handler0, span0, pages.handler, pages.span)
      ensures |freeList| >= |old(freeList)|
      ensures acc >= CACHE_MAXSIZE ==>
                acc' == acc && after' == after && pages.handler == old(pages.handler) && pages.span == old(pages.span) &&
                next == old(next) && free == old(free) && freeList == old(freeList)
    {
      acc', after' := acc, after;
      while acc' < CACHE_MAXSIZE && after' != NULL
        invariant Merging(block, acc', after') && 0 <= block < |cross| && pages.handler[block] == NULL && active == old(active)
        invariant |freeList| >= |old(freeList)| && MergedUpTo(start, arena0, arena, block, acc')
        invariant Kept(handler0, span0, pages.handler, pages.span)
        invariant acc >= CACHE_MAXSIZE ==>
                  acc' == acc && after' == after && pages.handler == old(pages.handler) && pages.span == old(pages.span) &&
                  next == old(next) && free == old(free) && freeList == old(freeList)
        modifies this`cross, this`next, this`free, this`freeList, this`arena, link0, link1
        modifies pages`handler, pages`next, pages`span, pages`hashMap, pages`writeMap, pages`active, pages`countdown, pages`chains
        decreases CACHE_MAXSIZE - acc'
      {
        hide *;
        acc', after' := MergeNext(block, acc', after', handler0, span0, arena0);
      }
    }

    /** Clearing and merging; a calm cache stays as it is. */
    method MergeActive() returns (block: int, acc: int, after: int)
      requires Valid()
      modifies this`cross, this`next, this`free, this`freeList, this`arena, link0, link1
      modifies pages`handler, pages`next, pages`span, pages`hashMap, pages`writeMap, pages`active, pages`countdown, pages`chains
      ensures Merging(block, acc, after) && block == active == old(active) && 0 <= block < |cross| && pages.handler[block] == NULL
      ensures (acc >= CACHE_MAXSIZE || after == NULL) && 0 <= block < |start| && Placed(old(arena))
      ensures MergedUpTo(start, old(arena), arena, block, acc)
      ensures Kept(old(pages.handler), old(pages.span), pages.handler, pages.span) && |freeList| >= |old(freeList)|
      ensures 0 <= block < |size| == |old(next)|
      ensures old(Calm()) ==>
                acc == size[block] && after == old(next[block]) && pages.handler == old(pages.handler) &&
                pages.span == old(pages.span) && next == old(next) && free == old(free) && freeList == old(freeList)
    {
      ActiveInTable();
      assert Calm() ==> Unregistered(active) && size[active] >= CACHE_MAXSIZE;
      NothingMerged(start, size, next, first, arena, active);
      hide *;
      block, acc, after := ClearActive();
      acc, after := MergeAll(block, acc, after, old(pages.handler), old(pages.span), old(arena));
    }

    /** cache_openblock: the active block, cleared and merged with its successors until it is large enough, and no longer. */
    method OpenBlock() returns (block: int)
      requires Valid()
      modifies this`cross, this`next, this`size, this`free, this`freeList, this`arena, link0, link1
      modifies pages`handler, pages`next, pages`span, pages`hashMap, pages`writeMap, pages`active, pages`countdown, pages`chains
      ensures Valid() && 0 <= block < |cross| && block == active == old(active) && pages.handler[block] == NULL
      ensures size[block] >= CACHE_MAXSIZE || (next[block] == NULL && !dynrec)
      ensures 0 <= block < |start| && forall b <- old(arena) :: 0 <= b < |start|
      ensures forall b <- old(arena) :: b in arena <==> b == block || start[b] < start[block] || start[b] >= start[block] + size[block]
      ensures forall b <- old(arena) :: b !in arena ==> start[b] < start[block] + CACHE_MAXSIZE
      ensures |freeList| >= |old(freeList)|
      ensures Kept(old(pages.handler), old(pages.span), pages.handler, pages.span)
      ensures old(Calm()) ==>
                size == old(size) && pages.handler == old(pages.handler) && pages.span == old(pages.span) && next == old(next) &&
                free == old(free) && freeList == old(freeList)
    {
      hide *;
      var acc, after;
      block, acc, after := MergeActive();
      if dynrec && after == NULL {
        BigEnough(block, acc, after);
      }
      Merged(old(arena), block, acc);
      FinishMerge(block, acc, after);
    }

    lemma Merged(arena0: seq<int>, block: int, acc: int)
      requires 0 <= block < |start| && Placed(arena0) && MergedUpTo(start, arena0, arena, block, acc)
      ensures forall b <- arena0 :: 0 <= b < |start| && (b in arena <==> b == block || start[b] < start[block] || start[b] >= start[block] + acc)
      ensures forall b <- arena0 :: 0 <= b < |start| && (b !in arena ==> start[b] < start[block] + CACHE_MAXSIZE)
    {
    }

    lemma BigEnough(block: int, acc: int, after: int)
      requires Merging(block, acc, after) && block == active && dynrec && after == NULL
      ensures acc >= CACHE_MAXSIZE
    {
      LastTile(start, size, next, first, arena, block, acc);
    }

    /** The adjusted size and successor of the merged block are stored. */
    method FinishMerge(block: int, acc: int, after: int)
      requires Merging(block, acc, after) && 0 <= block < |cross|
      modifies this`next, this`size
      ensures Valid() && 0 <= block < |size| == |next| && size == old(size)[block := acc] && next == old(next)[block := after]
      ensures size[block] == acc && next[block] == after
    {
      hide CodePageTable.Valid, LinkTable.Valid, CrossOk, BodiesOk, PlacesOk, Mains;
      assert block !in freeList by {
        NotFree(arena, freeList, pages.handler, pages.index, block);
      }
      ChainFrame(free, next, freeList, block, after);
      size := size[block := acc];
      next := next[block := after];
    }

    // ---- translating ----

    /** Block `block` is registered but not closed yet: it cannot be linked, and its end is not known. */
    ghost predicate Building(block: int)
      reads this, link0, link1, pages
    {
      && Skeleton() && ArenaAtRest() && block == active && block in Mains(pages.handler, pages.index)
      && link0.live == Mains(pages.handler, pages.index) - {block}
    }

    /** CreateCacheBlock up to AddCacheBlock. */
    method Begin(block: int, p: int, offset: nat)
      requires Valid() && block == active && 0 <= block < |cross| && pages.handler[block] == NULL
      requires 0 <= p < |pages.inUse| && pages.inUse[p] && offset < PAGE_SIZE
      modifies pages`handler, pages`index, pages`next, pages`hashMap, pages`active, pages`chains, pages`source, pages`span
      ensures Building(block) && 0 <= block < |cross| && cross[block] == NULL
      ensures pages.handler == old(pages.handler)[block := p] && pages.index == old(pages.index)[block := HashSlot(offset)]
      ensures pages.source == old(pages.source)[block := map[]] && pages.span == old(pages.span)[block := pages.span[block]]
      ensures pages.span[block].start == offset && pages.span[block].mask == []
    {
      hide CodePageTable.Valid, LinkTable.Valid, ArenaOk, CrossOk, BodiesOk, HashOk, WriteMapOk, Chain, PlacesOk, Mains;
      NewMain(cross, pages.handler, pages.index, arena, freeList, block, p, HashSlot(offset));
      MaskIsEmpty(pages.handler, pages.index, pages.span, pages.source, pages.inUse, block);
      pages.SetSpan(block, pages.span[block].(start := offset));
      pages.AddBlock(block, p, HashSlot(offset));
    }

    /** cache_getblock; NULL is its E_Exit. */
    method GetBlock() returns (x: int)
      requires Skeleton() && ArenaAtRest()
      modifies this`next, this`free, this`freeList
      ensures x == old(free) && (x == NULL <==> old(freeList) == [])
      ensures x == NULL ==> next == old(next) && free == old(free) && freeList == old(freeList)
      ensures x != NULL ==> next == old(next)[x := NULL]
      ensures x != NULL ==>
                0 <= x < |cross| && pages.handler[x] == NULL && x !in arena && x !in freeList && old(freeList) == [x] + freeList
      ensures ArenaOk(start, size, next, first, arena) && |next| == |cross| && Chain(free, next, freeList)
    {
      hide CodePageTable.Valid, LinkTable.Valid, ArenaOk, CrossOk, PlacesOk, Distinct;
      x := free;
      if x != NULL {
        TakeFree(arena, freeList, next, free, pages.handler, pages.index);
        ArenaFrame(start, size, next, first, arena, x, NULL);
        free := next[x];
        next := next[x := NULL];
        freeList := freeList[1..];
      }
    }

    /** The block part of decode_advancepage. */
    method AddSecondHalf(block: int, q: int) returns (x: int)
      requires Building(block) && 0 <= q < |pages.inUse| && pages.inUse[q] && pages.handler[block] != q && cross[block] == NULL
      modifies this`next, this`free, this`freeList, this`cross
      modifies pages`handler, pages`index, pages`next, pages`hashMap, pages`active, pages`chains, pages`source, pages`span
      ensures (x == NULL <==> old(freeList) == []) && (x != NULL ==> old(freeList) == [x] + freeList && next == old(next)[x := NULL])
      ensures x != NULL ==>
        && Building(block) && 0 <= x < |cross| == |old(pages.handler)| && x != block && old(pages.handler[x]) == NULL
        && cross == old(cross)[block := x][x := block]
        && pages.handler == old(pages.handler)[x := q] && pages.index == old(pages.index)[x := 0]
        && pages.source == old(pages.source)[x := map[]] && pages.span == old(pages.span)[x := pages.span[x]]
        && pages.span[x].start == 0 && pages.span[x].mask == []
    {
      hide CodePageTable.Valid, LinkTable.Valid, ArenaOk, CrossOk, HashOk, WriteMapOk, Chain, PlacesOk;
      ghost var freeList0 := freeList;
      x := GetBlock();
      if x == NULL {
        return;
      }
      NewHalf(cross, pages.handler, pages.index, arena, freeList0, block, x, q);
      cross := cross[block := x][x := block];
      pages.SetSpan(x, pages.span[x].(start := 0, mask := []));
      pages.AddBlock(x, q, 0);
    }

    /** cache_closeblock does not give up on `written` bytes in a block of `size`. */
    predicate Fits(size: int, next: int, written: int, noBlockLeft: bool) {
      if written > size then next == NULL && written <= size + CACHE_MAXSIZE
      else size - written > CACHE_ALIGN ==> !noBlockLeft
    }

    function Shrunk(size: int, written: nat): int
      requires written > 0
    { if written <= size && size - written > CACHE_ALIGN then Rounded(written) else size }

    /** The closed block leaves enough space for another one. */
    predicate Splits(size: int, written: int) { written <= size && size - written > CACHE_ALIGN }

    /** The rest of the space of a block at `from` of `size` is block `rest` now, the one after `block`. */
    ghost predicate RestIs(rest: int, block: int, from: int, size: int, written: nat)
      requires written > 0
      reads this, pages
    {
      && 0 <= rest < |this.size| == |start| && this.size[rest] == size - Rounded(written) && start[rest] == from + Rounded(written)
      && Unregistered(rest) && 0 <= block < |next| && next[block] == rest
    }

    /** The arena is not yet to be used from its beginning again. */
    predicate GoesOn(from: int, written: nat)
      requires written > 0
    { dynrec ==> from + Rounded(written) <= limit }

    /** The resizing part of cache_closeblock: what the block does not need becomes a block of its own. */
    method ShrinkActive(written: nat) returns (ok: bool)
      requires Skeleton() && ArenaAtRest() && written > 0
      modifies this`start, this`size, this`next, this`free, this`freeList, this`arena
      ensures 0 <= active < old(|size|) == old(|next|) == old(|start|) == |size|
      ensures ok <==> Fits(old(size[active]), old(next[active]), written, old(freeList) == [])
      ensures ok ==> Skeleton() && ArenaAtRest() && size[active] == Shrunk(old(size[active]), written)
      ensures ok && next[active] != NULL ==> written <= size[active]
      ensures ok ==> freeList == if Splits(old(size[active]), written) then old(freeList)[1..] else old(freeList)
      ensures ok && Splits(old(size[active]), written) ==> RestIs(old(free), active, old(start[active]), old(size[active]), written)
    {
      hide CodePageTable.Valid, LinkTable.Valid, ArenaOk, CrossOk, Chain, PlacesOk;
      ActiveTile(start, size, next, first, arena, active);
      var block := active;
      ok := true;
      if written > size[block] {
        ok := next[block] == NULL && written <= size[block] + CACHE_MAXSIZE;
      } else if size[block] - written > CACHE_ALIGN {
        ok := SplitActive(Rounded(written));
      }
    }

    /** The space of `block` behind `newSize` becomes that of `rest`, which follows it. */
    method Divide(block: int, rest: int, newSize: nat)
      requires |start| == |size| == |next| && 0 <= block < |next| && 0 <= rest < |next| && block != rest
      modifies this`start, this`size, this`next
      ensures start == old(start)[rest := old(start[block]) + newSize]
      ensures size == old(size)[rest := old(size[block]) - newSize][block := newSize]
      ensures next == old(next)[rest := old(next[block])][block := rest]
    {
      start := start[rest := start[block] + newSize];
      size := size[rest := size[block] - newSize];
      next := next[rest := next[block]];
      next := next[block := rest];
      size := size[block := newSize];
    }

    method SplitActive(newSize: nat) returns (ok: bool)
      requires Skeleton() && ArenaAtRest() && 0 <= active < |size| && 0 < newSize < size[active] && newSize % CACHE_ALIGN == 0
      modifies this`start, this`size, this`next, this`free, this`freeList, this`arena
      ensures (ok <==> old(freeList) != []) && (!ok ==> size == old(size))
      ensures ok ==> Skeleton() && ArenaAtRest() && 0 <= active < |size| == |start| == |next| && 0 <= old(free) < |size|
      ensures ok ==> size == old(size)[old(free) := old(size[active]) - newSize][active := newSize]
      ensures ok ==> start == old(start)[old(free) := old(start[active]) + newSize]
      ensures ok ==> next == old(next)[old(free) := old(next[active])][active := old(free)]
      ensures ok ==> freeList == old(freeList)[1..] && old(free) != active && Unregistered(old(free))
    {
      hide CodePageTable.Valid, LinkTable.Valid, ArenaOk, CrossOk, Chain, PlacesOk;
      var block := active;
      ghost var freeList0 := freeList;
      ActiveTile(start, size, next, first, arena, active);
      NotFree(arena, freeList, pages.handler, pages.index, block);
      var rest := GetBlock();
      if rest == NULL {
        return false;
      }
      ActiveTile(start, size, next, first, arena, active);
      SplitKeeps(start, size, next, first, arena, block, rest, newSize);
      SplitKeepsPlaces(arena, freeList0, pages.handler, pages.index, block, rest);
      SplitFrame(next, free, freeList, block, rest, next[block], arena);
      Divide(block, rest, newSize);
      arena := InsertAfter(arena, block, rest);
      ok := true;
    }

    /** The end of cache_closeblock: the next block to open is the following one, or the first one again when the
        arena is used up. */
    method AdvanceActive()
      requires Skeleton() && ArenaAtRest()
      modifies this`active
      ensures Skeleton() && ArenaAtRest() && 0 <= old(active) < |next| == |start|
      ensures next[old(active)] == NULL || 0 <= next[old(active)] < |start|
      ensures active == if next[old(active)] == NULL || (dynrec && start[next[old(active)]] > limit) then first else next[old(active)]
    {
      hide CodePageTable.Valid, LinkTable.Valid, ArenaOk, CrossOk, Chain, PlacesOk;
      NextInArena(start, size, next, first, arena, active);
      if next[active] == NULL || (dynrec && start[next[active]] > limit) {
        active := first;
      } else {
        active := next[active];
      }
    }

    /** cache_closeblock; `ok` is false where it gives up with E_Exit. */
    method CloseBlock(block: int, written: nat) returns (ok: bool)
      requires Building(block) && written > 0
      modifies this`start, this`size, this`next, this`free, this`active, this`freeList, this`arena, link0, link1
      ensures 0 <= block < old(|size|) == old(|next|) == old(|start|) == |size|
      ensures ok <==> Fits(old(size[block]), old(next[block]), written, old(freeList) == [])
      ensures ok ==> Skeleton() && ArenaAtRest() && link0.live == Mains(pages.handler, pages.index)
      ensures ok ==> size[block] == Shrunk(old(size[block]), written)
      ensures ok ==> freeList == if Splits(old(size[block]), written) then old(freeList)[1..] else old(freeList)
      ensures ok && Splits(old(size[block]), written) && GoesOn(old(start[block]), written) ==>
                RestIs(active, block, old(start[block]), old(size[block]), written)
      ensures link0.to == old(link0.to)[block := LINK_CODE] && link1.to == old(link1.to)[block := LINK_CODE]
    {
      hide CodePageTable.Valid, ArenaOk, CrossOk, Chain, PlacesOk;
      link0.Open(block);
      link1.Open(block);
      assert Skeleton() && ArenaAtRest();
      ok := ShrinkActive(written);
      if ok {
        AdvanceActive();
      }
    }

    /** The translation loop over one page, for a half `b` of the block being built. */
    method TranslateInto(block: int, b: int, p: int, from: nat, fetches: seq<Fetch>) returns (index: nat)
      requires Building(block) && 0 <= b < |cross| && 0 <= p < |pages.inUse| && pages.inUse[p] && pages.handler[b] == p
      requires pages.span[b].start == from && pages.span[b].mask == [] && pages.source[b] == map[]
      requires WellFormed(fetches) && from + Total(fetches) <= PAGE_SIZE && RoomIn(p, from, fetches)
      modifies pages`writeMap, pages`source, pages`span
      ensures Building(block) && index == from + Total(fetches)
      ensures pages.source == old(pages.source)[b := pages.source[b]] && pages.span == old(pages.span)[b := pages.span[b]]
      ensures TranslatedUpTo(pages.span[b], pages.source[b], memory[p], from, index)
      ensures AllPlain(fetches) ==> pages.span[b].mask == []
      ensures forall r :: 0 <= r < |pages.inUse| && r != p ==> pages.writeMap[r] == old(pages.writeMap[r])
    {
      hide LinkTable.Valid, ArenaOk, CrossOk, Chain, PlacesOk, Mains, TranslatedUpTo, HashOk, ActiveOk;
      index := TranslatePart(pages, b, p, memory[p], from, fetches);
    }

    /** The counters of page `p` have room for `fetches` from `from` on. */
    ghost predicate RoomIn(p: int, from: nat, fetches: seq<Fetch>)
      requires Parts() && 0 <= p < |pages.inUse|
      reads this, link0, link1, pages
    {
      Room(pages.writeMap[p], from, fetches)
    }

    lemma RoomStays(handler: seq<int>, writeMap: seq<seq<int>>, p: int, from: nat, fetches: seq<Fetch>)
      requires Parts() && 0 <= p < |pages.inUse| && pages.inUse[p]
      requires |handler| == |cross| && |writeMap| == |pages.inUse| && Dropped(handler, pages.handler)
      requires WriteMapOk(handler, pages.source, writeMap, pages.inUse) && Room(writeMap[p], from, fetches)
      ensures RoomIn(p, from, fetches)
    {
      forall i | 0 <= i < PAGE_SIZE && Translated(fetches, from, i) ensures pages.writeMap[p][i] < 255 {
        FewerCover(handler, pages.handler, pages.source, p, i);
        assert writeMap[p][i] < 255;
      }
    }

    /** The part of CreateCacheBlock between cache_openblock and cache_closeblock; `x` is NULL where no block is left for a
        second half. */
    method BuildHalves(block: int, p: int, offset: nat, fetches: seq<Fetch>, q: int, second: seq<Fetch>)
      returns (x: int, end: nat, end2: nat)
      requires Valid() && block == active && 0 <= block < |cross| && pages.handler[block] == NULL
      requires 0 <= p < |pages.inUse| && pages.inUse[p] && offset < PAGE_SIZE
      requires WellFormed(fetches) && Total(fetches) > 0 && offset + Total(fetches) <= PAGE_SIZE
      requires RoomIn(p, offset, fetches)
      requires second != [] ==>
        && 0 <= q < |pages.inUse| && pages.inUse[q] && q != p
        && WellFormed(second) && 0 < Total(second) <= PAGE_SIZE && RoomIn(q, 0, second)
      modifies this`next, this`free, this`freeList, this`cross
      modifies pages`handler, pages`index, pages`next, pages`hashMap, pages`active, pages`chains, pages`source, pages`span, pages`writeMap
      ensures second == [] ==> x == NULL && next == old(next) && free == old(free) && freeList == old(freeList)
      ensures second != [] ==> (x == NULL <==> old(freeList) == []) && (x != NULL ==> old(freeList) == [x] + freeList)
      ensures x != NULL || second == [] ==> 0 <= block < |next| == |old(next)| && next[block] == old(next[block])
      ensures end == offset + Total(fetches) && (second == [] ==> end2 == 0)
      ensures x != NULL || second == [] ==>
        && Building(block) && 0 <= block < |cross| == |pages.handler| && cross[block] == x
        && (x != NULL ==> 0 <= x < |old(pages.handler)| && x != block && old(pages.handler[x]) == NULL)
        && pages.handler == Put(old(pages.handler), block, p, x, q)
        && pages.index == Put(old(pages.index), block, HashSlot(offset), x, 0)
        && AlikeExcept(old(pages.source), pages.source, block, x) && AlikeExcept(old(pages.span), pages.span, block, x)
        && TranslatedUpTo(pages.span[block], pages.source[block], memory[p], offset, end)
        && (AllPlain(fetches) ==> pages.span[block].mask == [])
        && (x != NULL ==> end2 == Total(second) && TranslatedUpTo(pages.span[x], pages.source[x], memory[q], 0, end2))
    {
      hide CodePageTable.Valid, LinkTable.Valid, ArenaOk, BodiesOk, HashOk, WriteMapOk, Chain, PlacesOk, CrossOk, TranslatedUpTo, AllPlain;
      ActiveInTable();
      Begin(block, p, offset);
      end := TranslateInto(block, block, p, offset, fetches);
      x, end2 := NULL, 0;
      if second != [] {
        x := AddSecondHalf(block, q);
        if x != NULL {
          end2 := TranslateInto(block, x, q, 0, second);
        }
      }
    }

    /** The part of CreateCacheBlock between cache_openblock and the end of cache_closeblock. */
    method Build(block: int, p: int, offset: nat, fetches: seq<Fetch>, q: int, second: seq<Fetch>, written: nat)
      returns (x: int, end: nat, end2: nat, ok: bool)
      requires Valid() && block == active && 0 <= block < |cross| && pages.handler[block] == NULL && written > 0
      requires 0 <= p < |pages.inUse| && pages.inUse[p] && offset < PAGE_SIZE
      requires WellFormed(fetches) && Total(fetches) > 0 && offset + Total(fetches) <= PAGE_SIZE
      requires RoomIn(p, offset, fetches)
      requires second != [] ==>
        && 0 <= q < |pages.inUse| && pages.inUse[q] && q != p
        && WellFormed(second) && 0 < Total(second) <= PAGE_SIZE && RoomIn(q, 0, second)
      modifies this`start, this`size, this`next, this`free, this`active, this`freeList, this`arena, this`cross, link0, link1
      modifies pages`handler, pages`index, pages`next, pages`hashMap, pages`active, pages`chains, pages`source, pages`span, pages`writeMap
      ensures 0 <= block < old(|size|) == old(|start|) == old(|next|)
      ensures |old(freeList)| >= 2 && Fits(old(size[block]), old(next[block]), written, false) ==> ok
      ensures ok ==> Skeleton() && ArenaAtRest() && link0.live == Mains(pages.handler, pages.index) && block in link0.live
      ensures ok ==> link0.to[block] == LINK_CODE && link1.to[block] == LINK_CODE
      ensures ok ==> (x == NULL <==> second == []) &&
                      (x != NULL ==> 0 <= x < |old(pages.handler)| && x != block && old(pages.handler[x]) == NULL)
      ensures ok ==> 0 <= block < |cross| == |pages.handler| && cross[block] == x && end == offset + Total(fetches) && end2 == Total(second)
      ensures ok ==> pages.handler == Put(old(pages.handler), block, p, x, q)
      ensures ok ==> pages.index == Put(old(pages.index), block, HashSlot(offset), x, 0)
      ensures ok ==> AlikeExcept(old(pages.source), pages.source, block, x) && AlikeExcept(old(pages.span), pages.span, block, x)
      ensures ok ==> TranslatedUpTo(pages.span[block], pages.source[block], memory[p], offset, end)
      ensures ok ==> (AllPlain(fetches) ==> pages.span[block].mask == [])
      ensures ok && x != NULL ==> TranslatedUpTo(pages.span[x], pages.source[x], memory[q], 0, end2)
      ensures ok ==> |freeList| >= |old(freeList)| - 2
      ensures second == [] && Splits(old(size[block]), written) && old(freeList) != [] ==> ok && |freeList| == |old(freeList)| - 1
      ensures ok && second == [] && Splits(old(size[block]), written) && GoesOn(old(start[block]), written) ==>
                RestIs(active, block, old(start[block]), old(size[block]), written)
    {
      hide CodePageTable.Valid, LinkTable.Valid, ArenaOk, BodiesOk, HashOk, WriteMapOk, Chain, PlacesOk, CrossOk, TranslatedUpTo,
        Put, AlikeExcept, AllPlain, CodeCache.Building, CodeCache.RestIs, CodeCache.ArenaAtRest, CodeCache.Skeleton;
      ActiveInTable();
      x, end, end2 := BuildHalves(block, p, offset, fetches, q, second);
      ok := false;
      if x != NULL || second == [] {
        BlockIsMain(block);
        ok := CloseBlock(block, written);
        if second == [] {
          NothingIn(second);
        }
      }
    }

    lemma NothingIn(fetches: seq<Fetch>)
      requires fetches == []
      ensures Total(fetches) == 0
    {
    }

    lemma BlockIsMain(block: int)
      requires Building(block)
      ensures block in Mains(pages.handler, pages.index) && |link0.to| == |link1.to| == |cross| && 0 <= block < |cross|
    {
    }

    /** The steps of Translate; `handler1` and `span1` are what cache_openblock leaves of the blocks. */
    method OpenAndCreate(p: int, offset: nat, fetches: seq<Fetch>, q: int, second: seq<Fetch>, written: nat)
      returns (block: int, ok: bool, ghost handler1: seq<int>, ghost span1: seq<Span>)
      requires Valid() && Coherent() && written > 0
      requires 0 <= p < |pages.inUse| && pages.inUse[p] && offset < PAGE_SIZE
      requires WellFormed(fetches) && Total(fetches) > 0 && offset + Total(fetches) <= PAGE_SIZE
      requires RoomIn(p, offset, fetches)
      requires second != [] ==>
        && offset + Total(fetches) == PAGE_SIZE && 0 <= q < |pages.inUse| && pages.inUse[q] && q != p
        && WellFormed(second) && 0 < Total(second) <= PAGE_SIZE && RoomIn(q, 0, second)
      modifies this`start, this`size, this`next, this`free, this`active, this`freeList, this`arena, this`cross, link0, link1
      modifies pages`handler, pages`index, pages`next, pages`hashMap, pages`active, pages`countdown, pages`chains
      modifies pages`source, pages`span, pages`writeMap
      ensures written <= CACHE_MAXSIZE && |old(freeList)| >= 2 ==> ok
      ensures ok ==> Valid() && Coherent()
      ensures ok ==> block in link0.live && 0 <= block < |cross| && pages.handler[block] == p
      ensures ok ==> pages.span[block].start == offset && pages.span[block].end == offset + Total(fetches) - 1
      ensures ok ==> link0.to[block] == LINK_CODE && link1.to[block] == LINK_CODE
      ensures ok ==> (cross[block] != NULL <==> second != [])
      ensures old(Calm()) && 0 <= old(active) < old(|size|) == old(|start|) && GoesOn(old(start[active]), written) && second == [] &&
              Splits(old(size[active]), written) && old(freeList) != [] ==>
        && ok && block == old(active) && pages.handler == Put(old(pages.handler), block, p, NULL, q)
        && AlikeExcept(old(pages.source), pages.source, block, NULL) && AlikeExcept(old(pages.span), pages.span, block, NULL)
        && (AllPlain(fetches) ==> pages.span[block].mask == [])
        && |freeList| == |old(freeList)| - 1 && RestIs(active, block, old(start[active]), old(size[active]), written)
      ensures Kept(old(pages.handler), old(pages.span), handler1, span1) && 0 <= block < |handler1|
      ensures ok ==> pages.handler == Put(handler1, block, p, cross[block], q) && |pages.handler| == |cross| == |old(pages.handler)|
      ensures ok ==> pages.index == Put(old(pages.index), block, HashSlot(offset), cross[block], 0)
      ensures ok ==> AlikeExcept(span1, pages.span, block, cross[block]) && cross[block] != block && |freeList| >= |old(freeList)| - 2
    {
      hide CodeCache.Valid, CodeCache.Coherent, CodeCache.Parts, CodeCache.RoomIn, CodeCache.Calm, CodeCache.RestIs, CodeCache.GoesOn,
        CodeCache.Splits, Kept, AlikeExcept, AllPlain, WellFormed, Total, Mains;
      block := OpenForBuild(p, offset, fetches, q, second);
      handler1, span1 := pages.handler, pages.span;
      ok := Create(block, p, offset, fetches, q, second, written);
    }

    /** CreateCacheBlock as one step: `fetches` are made in page `p` from `offset` on; if they reach the end of the
        page, the translation may go on with the fetches `second` at the beginning of page `q`.  `ok` is false where
        the program gives up with E_Exit. */
    method Translate(p: int, offset: nat, fetches: seq<Fetch>, q: int, second: seq<Fetch>, written: nat) returns (block: int, ok: bool)
      requires Valid() && Coherent() && written > 0
      requires 0 <= p < |pages.inUse| && pages.inUse[p] && offset < PAGE_SIZE
      requires WellFormed(fetches) && Total(fetches) > 0 && offset + Total(fetches) <= PAGE_SIZE
      requires RoomIn(p, offset, fetches)
      requires second != [] ==>
        && offset + Total(fetches) == PAGE_SIZE && 0 <= q < |pages.inUse| && pages.inUse[q] && q != p
        && WellFormed(second) && 0 < Total(second) <= PAGE_SIZE && RoomIn(q, 0, second)
      modifies this`start, this`size, this`next, this`free, this`active, this`freeList, this`arena, this`cross, link0, link1
      modifies pages`handler, pages`index, pages`next, pages`hashMap, pages`active, pages`countdown, pages`chains
      modifies pages`source, pages`span, pages`writeMap
      ensures written <= CACHE_MAXSIZE && |old(freeList)| >= 2 ==> ok
      ensures ok ==> Valid() && Coherent()
      ensures ok ==> block in link0.live && 0 <= block < |cross| && pages.handler[block] == p
      ensures ok ==> pages.span[block].start == offset && pages.span[block].end == offset + Total(fetches) - 1
      ensures ok ==> link0.to[block] == LINK_CODE && link1.to[block] == LINK_CODE
      ensures ok ==> (cross[block] != NULL <==> second != [])
      ensures ok ==> |Registered(pages.handler)| <= |Registered(old(pages.handler))| + 2 && |freeList| >= |old(freeList)| - 2
      ensures ok ==> HomePages(pages.handler) <= HomePages(old(pages.handler)) + {p, q} && |pages.handler| == |old(pages.handler)|
      ensures ok ==> PlacesOf().MoreThan(old(PlacesOf()), block)
      ensures old(Calm()) && 0 <= old(active) < old(|size|) == old(|start|) && GoesOn(old(start[active]), written) && second == [] &&
              Splits(old(size[active]), written) && old(freeList) != [] ==>
        && ok && block == old(active) && pages.handler == Put(old(pages.handler), block, p, NULL, q)
        && AlikeExcept(old(pages.source), pages.source, block, NULL) && AlikeExcept(old(pages.span), pages.span, block, NULL)
        && (AllPlain(fetches) ==> pages.span[block].mask == [])
        && |freeList| == |old(freeList)| - 1 && RestIs(active, block, old(start[active]), old(size[active]), written)
    {
      LiveAreMains();
      hide *;
      ghost var handler1, span1;
      block, ok, handler1, span1 := OpenAndCreate(p, offset, fetches, q, second, written);
      if ok {
        KeptDropped(old(pages.handler), old(pages.span), handler1, span1);
        AtMostTwoMore(old(pages.handler), handler1, block, p, cross[block], q);
        LiveAreMains();
        OnePlaceMore(old(pages.handler), old(pages.span), old(pages.index), handler1, span1, pages.handler, pages.span, pages.index, block, p,
                     HashSlot(offset), cross[block], q);
      }
    }

    lemma LiveAreMains()
      requires Valid()
      ensures link0.live == Mains(pages.handler, pages.index)
    {
    }

    /** The rest of CreateCacheBlock, on the opened block. */
    method Create(block: int, p: int, offset: nat, fetches: seq<Fetch>, q: int, second: seq<Fetch>, written: nat) returns (ok: bool)
      requires Valid() && Coherent() && block == active && 0 <= block < |cross| && pages.handler[block] == NULL && written > 0
      requires 0 <= p < |pages.inUse| && pages.inUse[p] && offset < PAGE_SIZE
      requires WellFormed(fetches) && Total(fetches) > 0 && offset + Total(fetches) <= PAGE_SIZE
      requires RoomIn(p, offset, fetches)
      requires second != [] ==>
        && 0 <= q < |pages.inUse| && pages.inUse[q] && q != p
        && WellFormed(second) && 0 < Total(second) <= PAGE_SIZE && RoomIn(q, 0, second)
      modifies this`start, this`size, this`next, this`free, this`active, this`freeList, this`arena, this`cross, link0, link1
      modifies pages`handler, pages`index, pages`next, pages`hashMap, pages`active, pages`chains, pages`source, pages`span, pages`writeMap
      ensures 0 <= block < old(|size|) == old(|start|) == old(|next|)
      ensures |old(freeList)| >= 2 && Fits(old(size[block]), old(next[block]), written, false) ==> ok
      ensures ok ==> Valid() && Coherent()
      ensures ok ==> block in link0.live && 0 <= block < |cross| && pages.handler[block] == p
      ensures ok ==> pages.span[block].start == offset && pages.span[block].end == offset + Total(fetches) - 1
      ensures ok ==> link0.to[block] == LINK_CODE && link1.to[block] == LINK_CODE
      ensures ok ==> (cross[block] != NULL <==> second != []) && cross[block] != block && |cross| == |pages.handler|
      ensures ok ==> pages.handler == Put(old(pages.handler), block, p, cross[block], q) && |freeList| >= |old(freeList)| - 2
      ensures ok ==> pages.index == Put(old(pages.index), block, HashSlot(offset), cross[block], 0)
      ensures ok ==> AlikeExcept(old(pages.source), pages.source, block, cross[block])
      ensures ok ==> AlikeExcept(old(pages.span), pages.span, block, cross[block])
      ensures ok ==> (AllPlain(fetches) ==> pages.span[block].mask == [])
      ensures second == [] && Splits(old(size[block]), written) && old(freeList) != [] ==> ok && |freeList| == |old(freeList)| - 1
      ensures ok && second == [] && Splits(old(size[block]), written) && GoesOn(old(start[block]), written) ==>
                RestIs(active, block, old(start[block]), old(size[block]), written)
    {
      hide CodePageTable.Valid, LinkTable.Valid, ArenaOk, BodiesOk, AllFresh, CrossOk, Chain, PlacesOk, TranslatedUpTo, AlikeExcept, Mains,
        CodeCache.Valid, CodeCache.Coherent, CodeCache.Skeleton, CodeCache.ArenaAtRest, CodeCache.RoomIn, CodeCache.Parts, WellFormed,
        Total, Room;
      ghost var handler0, index0, span0, source0 := pages.handler, pages.index, pages.span, pages.source;
      BodiesBefore();
      var x, end, end2;
      x, end, end2, ok := Build(block, p, offset, fetches, q, second, written);
      if ok {
        Finish(block, p, offset, end, x, q, end2, handler0, index0, span0, source0);
      }
    }

    lemma BodiesBefore()
      requires Valid() && Coherent()
      ensures BodiesOk(pages.handler, pages.index, pages.span, pages.source, pages.inUse)
      ensures AllFresh(pages.handler, pages.source, memory) && |pages.handler| == |cross|
    {
    }

    /** The end of CreateCacheBlock: `page.end` of the halves. */
    method Finish(block: int, ghost p: int, ghost offset: nat, end: nat, x: int, ghost q: int, end2: nat,
                  ghost handler0: seq<int>, ghost index0: seq<int>, ghost span0: seq<Span>, ghost source0: seq<map<int, int>>)
      requires Skeleton() && ArenaAtRest() && link0.live == Mains(pages.handler, pages.index) && 0 <= block < |cross|
      requires BodiesOk(handler0, index0, span0, source0, pages.inUse) && AllFresh(handler0, source0, memory) && |handler0| == |cross|
      requires pages.handler == Put(handler0, block, p, x, q) && pages.index == Put(index0, block, HashSlot(offset), x, 0)
      requires AlikeExcept(source0, pages.source, block, x) && AlikeExcept(span0, pages.span, block, x)
      requires 0 <= p < |pages.inUse| && pages.inUse[p] && offset < end
      requires TranslatedUpTo(pages.span[block], pages.source[block], memory[p], offset, end)
      requires x != NULL ==>
        && 0 <= x < |cross| && x != block && 0 <= q < |pages.inUse| && pages.inUse[q] && 0 < end2
        && TranslatedUpTo(pages.span[x], pages.source[x], memory[q], 0, end2)
      modifies pages`span
      ensures Valid() && Coherent() && pages.span[block].start == offset && pages.span[block].end == end - 1
      ensures AlikeExcept(span0, pages.span, block, x) && pages.span[block].mask == old(pages.span[block].mask)
    {
      SealHalf(block, memory[p], offset, end);
      if x != NULL {
        SealHalf(x, memory[q], 0, end2);
      }
      hide CodePageTable.Valid, LinkTable.Valid, ArenaOk, BodiesOk, Chain, PlacesOk, Mains, CrossOk, AllFresh, TranslatedUpTo, Sealed;
      FinishBodies(handler0, index0, span0, source0, pages.inUse, memory, block, p, HashSlot(offset), x, q,
                   pages.handler, pages.index, pages.span, pages.source);
    }

    method SealHalf(b: int, ghost row: seq<int>, ghost from: nat, end: nat)
      requires Skeleton() && ArenaAtRest() && 0 <= b < |cross| && from < end
      requires TranslatedUpTo(pages.span[b], pages.source[b], row, from, end)
      modifies pages`span
      ensures Skeleton() && ArenaAtRest() && pages.span == old(pages.span)[b := old(pages.span[b]).(end := end - 1)]
      ensures Sealed(pages.span[b], pages.source[b]) && pages.span[b].start == from && pages.span[b].end == end - 1
      ensures forall i :: i in pages.source[b] ==> 0 <= i < |row| && row[i] == pages.source[b][i]
    {
      hide CodePageTable.Valid, LinkTable.Valid, ArenaOk, Chain, PlacesOk, CrossOk, TranslatedUpTo;
      Seal(pages.span[b], pages.source[b], row, from, end);
      pages.SetSpan(b, pages.span[b].(end := end - 1));
    }

    /** cache_openblock before the translation: nothing that was fresh becomes stale and no counter grows. */
    method OpenForBuild(ghost p: int, ghost from: nat, ghost fetches: seq<Fetch>, ghost q: int, ghost second: seq<Fetch>) returns (block: int)
      requires Valid() && Coherent() && 0 <= p < |pages.inUse| && pages.inUse[p] && RoomIn(p, from, fetches)
      requires second != [] ==> 0 <= q < |pages.inUse| && pages.inUse[q] && RoomIn(q, 0, second)
      modifies this`cross, this`next, this`size, this`free, this`freeList, this`arena, link0, link1
      modifies pages`handler, pages`next, pages`span, pages`hashMap, pages`writeMap, pages`active, pages`countdown, pages`chains
      ensures Valid() && Coherent() && block == active && 0 <= block < |cross| && pages.handler[block] == NULL
      ensures RoomIn(p, from, fetches) && (second != [] ==> RoomIn(q, 0, second))
      ensures 0 <= block < |size| == |next| && |freeList| >= |old(freeList)| && |cross| == |pages.handler| == |old(pages.handler)|
      ensures size[block] >= CACHE_MAXSIZE || (0 <= size[block] && next[block] == NULL)
      ensures block == old(active) && Kept(old(pages.handler), old(pages.span), pages.handler, pages.span)
      ensures old(Calm()) ==>
                size == old(size) && pages.handler == old(pages.handler) && pages.span == old(pages.span) && next == old(next) &&
                free == old(free) && freeList == old(freeList)
    {
      ghost var handler, writeMap := pages.handler, pages.writeMap;
      block := OpenBlock();
      ActiveHasSize();
      KeptDropped(handler, old(pages.span), pages.handler, pages.span);
      DroppedKeepsFresh(handler, pages.handler, pages.source, memory);
      RoomStays(handler, writeMap, p, from, fetches);
      if second != [] {
        RoomStays(handler, writeMap, q, 0, second);
      }
    }

    // ---- taking and emptying pages ----

    /** The end of MakeCodePage: a page handler from the free list is set up for page `p`. */
    method TakePage(p: int)
      requires Valid() && Coherent() && 0 <= p < |pages.inUse| && !pages.inUse[p]
      modifies pages`inUse, pages`hashMap, pages`writeMap, pages`active, pages`countdown, pages`chains
      ensures Valid() && Coherent() && pages.inUse == old(pages.inUse)[p := true] && pages.countdown == old(pages.countdown)[p := 16]
    {
      hide CodePageTable.Valid, LinkTable.Valid, ArenaOk, HashOk, WriteMapOk, Chain, PlacesOk, Mains, CrossOk, AllFresh;
      UnusedHasNoBlocks(pages.handler, pages.index, pages.span, pages.source, pages.inUse, p);
      TakeKeepsBodies(pages.handler, pages.index, pages.span, pages.source, pages.inUse, p);
      pages.SetupAt(p);
    }

    /** The state while page `p` is being emptied: it left the table, its remaining blocks are otherwise intact. */
    ghost predicate Draining(p: int)
      reads this, link0, link1, pages
    {
      && Skeleton() && ArenaAtRest() && 0 <= p < |pages.inUse| && !pages.inUse[p]
      && BodiesOk(pages.handler, pages.index, pages.span, pages.source, pages.inUse[p := true])
      && link0.live == Mains(pages.handler, pages.index)
    }

    /** One step of ClearRelease. */
    method DetachAndClear(b: int, p: int)
      requires Draining(p) && 0 <= b < |cross| && pages.handler[b] == p
      modifies this`cross, this`next, this`free, this`freeList, link0, link1
      modifies pages`handler, pages`next, pages`span, pages`hashMap, pages`writeMap, pages`active, pages`countdown, pages`chains
      ensures Draining(p) && cross == Cleared(old(cross), b, old(cross[b]))
      ensures pages.handler == Cleared(old(pages.handler), b, old(cross[b])) && pages.span == Unmasked(old(pages.span), b, old(cross[b]))
      ensures RelinkedOnly(old(pages.next), pages.next, Halves(b, old(cross[b])))
      ensures RowsKept(old(pages.hashMap), pages.hashMap, Homes(Cleared(old(pages.handler), b, NULL), b, old(cross[b])))
    {
      hide CodePageTable.Valid, LinkTable.Valid, RelinkedOnly, RowsKept, Chain, Mains, ArenaOk, FellBack, Sealed, BodiesOk, PlacesOk,
        Unmasked, CrossOk, Homes,
        ActiveOk, HashOk, WriteMapOk, LinksOk, Covers;
      ClearKeepsCross(cross, pages.handler, pages.index, b);
      ClearKeepsBodies(pages.handler, pages.index, pages.span, pages.source, pages.inUse[p := true], b, cross[b]);
      ClearKeepsPlaces(arena, freeList, next, free, pages.handler, pages.index, cross, b);
      ghost var x := CrossHalf(b, cross[b], pages.index);
      if x != NULL {
        ArenaFrame(start, size, next, first, arena, x, free);
      }
      CanClearDetached(b, p);
      ghost var handler0, c := pages.handler, cross[b];
      pages.Detach(b, p);
      assert Cleared(pages.handler, b, c) == Cleared(handler0, b, c);
      Clear(b);
      if x != NULL {
        freeList := [x] + freeList;
      }
    }

    lemma CanClearDetached(b: int, p: int)
      requires Draining(p) && 0 <= b < |cross| && pages.handler[b] == p
      ensures pages.index[b] != 0 <==> b in link0.live
      ensures cross[b] != NULL ==> Paired(b, cross[b]) && Clearable(cross[b]) && pages.handler[cross[b]] != NULL
    {
      assert HalfOk(cross, pages.handler, pages.index, b);
      if cross[b] != NULL {
        assert BodyOk(pages.handler, pages.index, pages.span, pages.source, pages.inUse[p := true], cross[b]);
      }
    }

    /** The remaining walk of ClearRelease, `rest` and `lists` being what the hash map of the page leads to. */
    ghost predicate AtWalk(p: int, lists: seq<seq<int>>, rest: seq<int>, block: int, k: nat, count: int)
      reads this, link0, link1, pages
    {
      && Draining(p) && |pages.hashMap| == |pages.inUse|
      && Walking(pages.handler, pages.index, pages.next, pages.hashMap[p], lists, rest, block, k, p)
      && count == |Members(pages.handler, p)|
    }

    /** `while (block == nullptr) block = *++map;` never leaves the hash map while blocks are left. */
    method NextOccupied(p: int, ghost lists: seq<seq<int>>, ghost rest: seq<int>, block: int, k: nat, count: int)
      returns (block': int, k': nat, ghost rest': seq<int>)
      requires AtWalk(p, lists, rest, block, k, count) && count > 0
      ensures AtWalk(p, lists, rest', block', k', count) && block' != NULL
    {
      block', k', rest' := block, k, rest;
      while block' == NULL
        invariant k' < HASH_SIZE && AtWalk(p, lists, rest', block', k', count)
        decreases HASH_SIZE - k'
      {
        WalkOn(pages.handler, pages.index, pages.next, pages.hashMap[p], lists, rest', k', p);
        k' := k' + 1;
        block' := pages.hashMap[p][k'];
        rest' := lists[k'];
      }
    }

    /** The body of that walk. */
    method WalkStep(p: int, ghost lists: seq<seq<int>>, ghost rest: seq<int>, block: int, ghost k: nat, ghost count: int,
                    ghost handler0: seq<int>, ghost span0: seq<Span>)
      returns (nextBlock: int)
      requires AtWalk(p, lists, rest, block, k, count) && block != NULL && Kept(handler0, span0, pages.handler, pages.span)
      modifies this`cross, this`next, this`free, this`freeList, link0, link1
      modifies pages`handler, pages`next, pages`span, pages`hashMap, pages`writeMap, pages`active, pages`countdown, pages`chains
      ensures rest != [] && AtWalk(p, lists, rest[1..], nextBlock, k, count - 1) && Kept(handler0, span0, pages.handler, pages.span)
    {
      hide CodePageTable.Valid, LinkTable.Valid, BodiesOk, CrossOk, RelinkedOnly, Chain, Mains, ArenaOk, PlacesOk, Walking, Members,
        Unmasked, Kept;
      WalkHead(pages.handler, pages.index, pages.next, pages.hashMap[p], lists, rest, block, k, p);
      OtherHalfElsewhere(cross, pages.handler, pages.index, block);
      KeptClear(handler0, span0, pages.handler, pages.span, block, cross[block]);
      ghost var handler1, next1, c := pages.handler, pages.next, cross[block];
      ghost var row := pages.hashMap[p];
      nextBlock := pages.next[block];
      DetachAndClear(block, p);
      assert pages.hashMap[p] == row by {
        assert p !in Homes(Cleared(handler1, block, NULL), block, c);
      }
      WalkClear(handler1, pages.index, next1, pages.next, row, lists, rest, block, c, k, p);
    }

    /** CodePageHandler::ClearRelease: every block of the page is visited once and gone, with its other half. */
    method ClearRelease(p: int)
      requires Valid() && Coherent() && 0 <= p < |pages.inUse| && pages.inUse[p]
      modifies this`cross, this`next, this`free, this`freeList, link0, link1
      modifies pages`handler, pages`next, pages`span, pages`hashMap, pages`writeMap, pages`active, pages`countdown, pages`chains, pages`inUse
      ensures Valid() && Coherent() && pages.inUse == old(pages.inUse)[p := false]
      ensures Kept(old(pages.handler), old(pages.span), pages.handler, pages.span)
      ensures forall b :: 0 <= b < |cross| ==> pages.handler[b] != p
    {
      ghost var handler0, span0 := pages.handler, pages.span;
      var count := pages.active[p];
      ghost var lists := pages.chains[p];
      StartWalk(p);
      pages.Release(p);
      assert pages.inUse[p := true] == old(pages.inUse);
      var k: nat := 0;
      var block := pages.hashMap[p][0];
      ghost var rest := lists[0];
      while count > 0
        invariant AtWalk(p, lists, rest, block, k, count) && Kept(handler0, span0, pages.handler, pages.span)
        modifies this`cross, this`next, this`free, this`freeList, link0, link1
        modifies pages`handler, pages`next, pages`span, pages`hashMap, pages`writeMap, pages`active, pages`countdown, pages`chains
        decreases count
      {
        hide *;
        block, k, rest := NextOccupied(p, lists, rest, block, k, count);
        block := WalkStep(p, lists, rest, block, k, count, handler0, span0);
        rest := rest[1..];
        count := count - 1;
      }
      hide CodePageTable.Valid, LinkTable.Valid, CrossOk, Chain, Mains, ArenaOk, PlacesOk, Walking;
      EmptyPageBodies(pages.handler, pages.index, pages.span, pages.source, pages.inUse, p);
      KeptDropped(handler0, span0, pages.handler, pages.span);
      DroppedKeepsFresh(handler0, pages.handler, pages.source, memory);
    }

    lemma StartWalk(p: int)
      requires Valid() && 0 <= p < |pages.inUse| && pages.inUse[p]
      ensures |pages.hashMap| == |pages.inUse| == |pages.active| && pages.active[p] == |Members(pages.handler, p)|
      ensures |pages.chains| == |pages.inUse| && |pages.hashMap[p]| == |pages.chains[p]| == HASH_SIZE
      ensures Walking(pages.handler, pages.index, pages.next, pages.hashMap[p], pages.chains[p], pages.chains[p][0], pages.hashMap[p][0], 0, p)
    {
      WalkStart(pages.handler, pages.index, pages.next, pages.hashMap, pages.chains, pages.inUse, p);
    }

    lemma NoCodeLeft(p: int, lo: int, hi: int)
      requires Valid() && 0 <= p < |pages.inUse| && pages.inUse[p] && 0 <= lo <= hi < PAGE_SIZE
      requires forall i :: lo <= i <= hi ==> pages.writeMap[p][i] == 0
      ensures forall i :: lo <= i <= hi ==> Untouched(pages.handler, pages.source, p, i)
    {
      ZeroMapUntouched(pages.handler, pages.source, pages.writeMap, pages.inUse, p, lo, hi);
    }

    ghost function SlotList(p: int, i: int): (s: seq<int>)
      requires Valid() && 0 <= p < |pages.inUse| && pages.inUse[p] && 0 <= i < HASH_SIZE
      reads this, link0, link1, pages
      ensures i < |pages.hashMap[p]|
      ensures forall lo, hi :: Sweeping(pages.handler, pages.index, pages.span, pages.next, s, pages.hashMap[p][i], p, i, lo, hi)
    {
      assert SlotOk(pages.handler, pages.index, pages.next, pages.hashMap, pages.chains, p, i);
      pages.chains[p][i]
    }

    lemma CanClear(b: int)
      requires Core() && 0 <= b < |cross| && pages.handler[b] != NULL
      ensures Clearable(b)
      ensures cross[b] != NULL ==> Paired(b, cross[b]) && Clearable(cross[b])
    {
      assert HalfOk(cross, pages.handler, pages.index, b);
      assert BodyOk(pages.handler, pages.index, pages.span, pages.source, pages.inUse, b);
      if cross[b] != NULL {
        assert BodyOk(pages.handler, pages.index, pages.span, pages.source, pages.inUse, cross[b]);
      }
    }
  }

  /** Blocks were dropped, and then one was made, perhaps with a second half, which cannot be entered by itself. */
  lemma OnePlaceMore(handler0: seq<int>, span0: seq<Span>, index: seq<int>, handler1: seq<int>, span1: seq<Span>,
                     handler2: seq<int>, span2: seq<Span>, index2: seq<int>, block: int, p: int, i: int, x: int, q: int)
    requires Kept(handler0, span0, handler1, span1) && |index| == |handler0| && 0 <= block < |handler0| && x != block
    requires handler2 == Put(handler1, block, p, x, q) && index2 == Put(index, block, i, x, 0) && AlikeExcept(span1, span2, block, x)
    ensures Places(handler2, span2, Mains(handler2, index2)).MoreThan(Places(handler0, span0, Mains(handler0, index)), block)
  {
  }

  /** Blocks were dropped. */
  lemma FewerPlaces(handler0: seq<int>, span0: seq<Span>, handler: seq<int>, span: seq<Span>, index: seq<int>)
    requires Kept(handler0, span0, handler, span) && |index| == |handler|
    ensures Places(handler, span, Mains(handler, index)).Within(Places(handler0, span0, Mains(handler0, index)))
    ensures handler == handler0 ==> Places(handler, span, Mains(handler, index)).Same(Places(handler0, span0, Mains(handler0, index)))
  {
  }

  /** The sum over the write map of `lo..hi`, as far as it matters: is it zero? */
  method CodeInRange(row: seq<int>, lo: int, hi: int) returns (found: bool)
    requires 0 <= lo <= hi < |row| && forall i :: lo <= i <= hi ==> row[i] >= 0
    ensures found <==> SeesCode(row, lo, hi)
  {
    var sum := 0;
    var count := lo;
    while count <= hi
      invariant lo <= count <= hi + 1 && sum >= 0
      invariant sum != 0 <==> exists i :: lo <= i < count && row[i] != 0
      decreases hi - count
    {
      sum := sum + row[count];
      count := count + 1;
    }
    found := sum != 0;
  }

  /** No live block jumps to a block that is not live. */
  lemma TargetsAreLive(links: LinkTable, b: int)
    requires links.Valid() && b !in links.live && b != LINK_CODE
    ensures FellBack(links.to, links.to, links.live, {b})
  {
    forall d | d in links.live ensures links.to[d] != b {
      assert BlockOk(links.to, links.next, links.from, links.callers, links.live, d);
    }
  }

  /** Jumps of the live blocks that led to a block of `gone` lead to the default link block, the others are unchanged. */
  ghost predicate FellBack(to: seq<int>, to': seq<int>, live: set<int>, gone: set<int>)
  {
    |to'| == |to| && forall d <- live :: 0 <= d < |to| && to'[d] == if to[d] in gone then LINK_CODE else to[d]
  }

  lemma FellBackTwice(to: seq<int>, to1: seq<int>, to2: seq<int>, live1: set<int>, live: set<int>, b: int, c: int)
    requires live <= live1 && FellBack(to, to1, live1, {b})
    requires if c == NULL then to2 == to1 else FellBack(to1, to2, live, {c})
    ensures FellBack(to, to2, live, Halves(b, c))
  {
  }

  lemma RowsTwice(hashMap: seq<seq<int>>, hashMap1: seq<seq<int>>, hashMap2: seq<seq<int>>, handler: seq<int>, b: int, c: int)
    requires 0 <= b < |handler| && (c == NULL || 0 <= c < |handler|)
    requires if c == NULL then hashMap1 == hashMap else RowsKept(hashMap, hashMap1, {handler[c]})
    requires RowsKept(hashMap1, hashMap2, {handler[b]})
    ensures RowsKept(hashMap, hashMap2, Homes(handler, b, c))
  {
  }

  lemma RelinkTwice(next: seq<int>, next1: seq<int>, next2: seq<int>, b: int, c: int)
    requires if c == NULL then next1 == next else RelinkedOnly(next, next1, {c})
    requires RelinkedOnly(next1, next2, {b})
    ensures RelinkedOnly(next, next2, Halves(b, c))
  {
  }

}
