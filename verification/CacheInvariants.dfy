/**
 What holds of all the blocks of the code cache between two operations, as
 predicates over the tables, and how clearing one block keeps it.
 */
module CacheInvariants {
  import opened Chains
  import opened CodePages

  /** `s` with the entries of `b` and of its other half `c` (if any) set to NULL. */
  function Cleared(s: seq<int>, b: int, c: int): seq<int>
    requires 0 <= b < |s|
  {
    if 0 <= c < |s| then s[b := NULL][c := NULL] else s[b := NULL]
  }

  /** The pages of the two halves. */
  function Homes(handler: seq<int>, b: int, c: int): set<int>
    requires 0 <= b < |handler|
  {
    if 0 <= c < |handler| then {handler[b], handler[c]} else {handler[b]}
  }

  function Halves(b: int, c: int): set<int> { if c == NULL then {b} else {b, c} }

  /** The spans after the write masks of `b` and of its other half `c` are deleted. */
  function Unmasked(s: seq<Span>, b: int, c: int): seq<Span>
    requires 0 <= b < |s|
  {
    var t := s[b := s[b].(mask := [])];
    if 0 <= c < |s| then t[c := t[c].(mask := [])] else t
  }

  /** The half that goes back to the free list, if the block has one. */
  function CrossHalf(b: int, c: int, index: seq<int>): int
    requires 0 <= b < |index|
  {
    if index[b] == 0 then b else c
  }

  /** The registered blocks that start in their page: the ones that can be entered and linked. */
  ghost function Mains(handler: seq<int>, index: seq<int>): set<int>
    requires |handler| == |index|
  {
    set b | 0 <= b < |handler| && handler[b] != NULL && index[b] != 0
  }

  /** A block that crosses a page boundary is two registered halves in different pages that point at each other. */
  ghost predicate HalfOk(cross: seq<int>, handler: seq<int>, index: seq<int>, b: int)
    requires |cross| == |handler| == |index| && 0 <= b < |cross|
  {
    && (cross[b] != NULL ==>
          && 0 <= cross[b] < |cross| && cross[b] != b && cross[cross[b]] == b
          && handler[b] != NULL && handler[cross[b]] != NULL && handler[b] != handler[cross[b]]
          && (index[b] == 0 <==> index[cross[b]] != 0))
    && (handler[b] != NULL && index[b] == 0 ==> cross[b] != NULL)
  }

  ghost predicate CrossOk(cross: seq<int>, handler: seq<int>, index: seq<int>)
  {
    && |cross| == |handler| == |index|
    && (forall b {:trigger HalfOk(cross, handler, index, b)} :: 0 <= b < |cross| ==> HalfOk(cross, handler, index, b))
  }

  /** A registered block lies in a page in use, in the slot of its start, and covers what it was translated from. */
  ghost predicate BodyOk(handler: seq<int>, index: seq<int>, span: seq<Span>, source: seq<map<int, int>>, inUse: seq<bool>, b: int)
    requires |handler| == |index| == |span| == |source| && 0 <= b < |handler|
  {
    if handler[b] == NULL then span[b].mask == [] else
      && 0 <= handler[b] < |inUse| && inUse[handler[b]]
      && Sealed(span[b], source[b])
      && (index[b] != 0 ==> index[b] == HashSlot(span[b].start))
  }

  ghost predicate BodiesOk(handler: seq<int>, index: seq<int>, span: seq<Span>, source: seq<map<int, int>>, inUse: seq<bool>)
  {
    && |handler| == |index| == |span| == |source|
    && (forall b {:trigger BodyOk(handler, index, span, source, inUse, b)} :: 0 <= b < |handler| ==>
          BodyOk(handler, index, span, source, inUse, b))
  }

  /** Block `b` was translated from the bytes that its page holds now. */
  ghost predicate Fresh(handler: seq<int>, source: seq<map<int, int>>, memory: seq<seq<int>>, b: int)
    requires |handler| == |source| && 0 <= b < |handler|
  {
    handler[b] != NULL ==>
      && 0 <= handler[b] < |memory|
      && (forall i :: i in source[b] ==> 0 <= i < |memory[handler[b]]| && memory[handler[b]][i] == source[b][i])
  }

  /** The blocks of a trace that can be entered were translated from the bytes that are in memory. */
  ghost predicate GenuineWhereLive(handler: seq<int>, source: seq<map<int, int>>, memory: seq<seq<int>>, live: set<int>, trace: seq<int>)
  {
    && |handler| == |source|
    && (forall b <- trace :: 0 <= b < |handler| && (b in live ==> handler[b] != NULL && Fresh(handler, source, memory, b)))
  }

  /** No translated block outlives the bytes it came from. */
  ghost predicate AllFresh(handler: seq<int>, source: seq<map<int, int>>, memory: seq<seq<int>>)
  {
    && |handler| == |source|
    && (forall b {:trigger Fresh(handler, source, memory, b)} :: 0 <= b < |handler| ==> Fresh(handler, source, memory, b))
  }

  /** Registered blocks were only dropped. */
  ghost predicate Dropped(handler: seq<int>, handler': seq<int>)
  {
    |handler'| == |handler| && forall b :: 0 <= b < |handler| ==> handler'[b] == handler[b] || handler'[b] == NULL
  }

  /** Some registered blocks were dropped, the other ones are as they were. */
  ghost predicate Kept(handler: seq<int>, span: seq<Span>, handler': seq<int>, span': seq<Span>)
  {
    && Dropped(handler, handler') && |span'| == |span| == |handler|
    && (forall b :: 0 <= b < |handler| && handler'[b] != NULL ==> span'[b] == span[b])
  }

  lemma KeptDropped(handler: seq<int>, span: seq<Span>, handler': seq<int>, span': seq<Span>)
    requires Kept(handler, span, handler', span')
    ensures Dropped(handler, handler')
  {
  }

  lemma KeptClear(handler: seq<int>, span: seq<Span>, handler1: seq<int>, span1: seq<Span>, b: int, c: int)
    requires Kept(handler, span, handler1, span1) && 0 <= b < |handler1|
    ensures Kept(handler, span, Cleared(handler1, b, c), Unmasked(span1, b, c))
  {
  }

  lemma DroppedKeepsFresh(handler: seq<int>, handler': seq<int>, source: seq<map<int, int>>, memory: seq<seq<int>>)
    requires AllFresh(handler, source, memory) && Dropped(handler, handler')
    ensures AllFresh(handler', source, memory)
  {
    forall b {:trigger Fresh(handler', source, memory, b)} | 0 <= b < |handler| ensures Fresh(handler', source, memory, b) {
      assert Fresh(handler, source, memory, b);
    }
  }

  /** Byte `i` of page `p` is part of no registered block. */
  ghost predicate Untouched(handler: seq<int>, source: seq<map<int, int>>, p: int, i: int)
  {
    |handler| == |source| && forall b :: 0 <= b < |handler| && handler[b] == p ==> i !in source[b]
  }

  /** A store is harmless to the blocks when none of them was translated from a stored byte. */
  lemma StoreKeepsFresh(handler: seq<int>, source: seq<map<int, int>>, memory: seq<seq<int>>, p: int, lo: int, hi: int, row: seq<int>)
    requires AllFresh(handler, source, memory) && 0 <= p < |memory| && |row| == |memory[p]|
    requires forall i :: 0 <= i < |row| && !(lo <= i <= hi) ==> row[i] == memory[p][i]
    requires forall i :: lo <= i <= hi ==> Untouched(handler, source, p, i)
    ensures AllFresh(handler, source, memory[p := row])
  {
    var memory' := memory[p := row];
    forall b {:trigger Fresh(handler, source, memory', b)} | 0 <= b < |handler| ensures Fresh(handler, source, memory', b) {
      assert Fresh(handler, source, memory, b);
      if handler[b] == p {
        forall i | i in source[b] ensures 0 <= i < |row| && row[i] == source[b][i] {
          assert lo <= i <= hi ==> Untouched(handler, source, p, i);
        }
      }
    }
  }

  /** A byte that 255 blocks were translated from already is translated into one more.  Its counter wraps to zero, so a write
      to it finds no code, drops no block, and leaves a registered block behind that is out of date. */
  lemma WrappedGoesStale(handler: seq<int>, source: seq<map<int, int>>, writeMap: seq<seq<int>>, inUse: seq<bool>, memory: seq<seq<int>>,
                         b: int, p: int, i: nat, v: int)
    requires |writeMap| == |inUse| == |memory| && |handler| == |source| && 0 <= b < |handler| && handler[b] == p && 0 <= p < |writeMap|
    requires WriteMapOk(handler, source, writeMap, inUse) && inUse[p] && AllFresh(handler, source, memory)
    requires i < PAGE_SIZE == |memory[p]| && i !in source[b] && writeMap[p][i] == 255 && v != memory[p][i]
    ensures var source' := source[b := Recorded(source[b], i, [memory[p][i]])];
            && AllFresh(handler, source', memory)
            && !SeesCode(Counted(writeMap[p], i, 1, 0), i, i)
            && !Fresh(handler, source', memory[p := memory[p][i := v]], b)
  {
    var source' := source[b := Recorded(source[b], i, [memory[p][i]])];
    forall c {:trigger Fresh(handler, source', memory, c)} | 0 <= c < |handler| ensures Fresh(handler, source', memory, c) {
      assert Fresh(handler, source, memory, c);
    }
    assert i in source'[b] && source'[b][i] == memory[p][i];
  }

  // ---- both halves of a block in one page ----

  /** ClearRelease counts down by one for each block that it clears, together with its other half.  That is the number of
      blocks left in the page if and only if the other half is not in the same page. */
  lemma CountStays(handler: seq<int>, b: int, c: int, p: int)
    requires 0 <= b < |handler| && handler[b] == p != NULL && b != c
    requires c == NULL || (0 <= c < |handler| && handler[c] != NULL)
    ensures |Members(Cleared(handler, b, c), p)| == |Members(handler, p)| - 1 <==> c == NULL || handler[c] != p
  {
    if c != NULL && handler[c] == p {
      assert Members(handler, p) == Members(Cleared(handler, b, c), p) + {b, c};
    } else {
      assert Members(handler, p) == Members(Cleared(handler, b, c), p) + {b};
    }
  }

  /** Two successive linear pages are one physical page, and block 0 goes on at its beginning as block 1: the walk of
      ClearRelease starts with block 1 and clears both, and then there is one more to count but none in any slot behind. */
  lemma SharedPageRunsPast(handler: seq<int>, index: seq<int>, next: seq<int>, cross: seq<int>, row: seq<int>, lists: seq<seq<int>>)
    requires handler == [0, 0] && index == [HashSlot(4090), 0] && next == [NULL, NULL] && cross == [1, 0]
    requires row == seq(HASH_SIZE, (i: int) => if i == 0 then 1 else if i == HashSlot(4090) then 0 else NULL)
    requires lists == seq(HASH_SIZE, (i: int) => if i == 0 then [1] else if i == HashSlot(4090) then [0] else [])
    ensures forall i {:trigger SlotOk(handler, index, next, [row], [lists], 0, i)} :: 0 <= i < HASH_SIZE ==>
              SlotOk(handler, index, next, [row], [lists], 0, i)
    ensures |Members(handler, 0)| - 1 == 1 && Members(Cleared(handler, row[0], cross[row[0]]), 0) == {}
    ensures next[row[0]] == NULL && forall i :: 0 < i < HASH_SIZE ==> row[i] == NULL || (row[i] == cross[row[0]] && next[row[i]] == NULL)
  {
    assert Members(handler, 0) == {0, 1};
  }

  /** The state cache_init leaves behind. */
  lemma InitialInvariants(n: nat, pageCount: nat, handler: seq<int>, index: seq<int>, cross: seq<int>, span: seq<Span>,
                          source: seq<map<int, int>>, inUse: seq<bool>, memory: seq<seq<int>>,
                          start: seq<int>, size: seq<int>, next: seq<int>, free: int, freeList: seq<int>)
    requires n > 0 && |handler| == |index| == |cross| == |span| == |source| == |start| == |size| == |next| == n
    requires forall b :: 0 <= b < n ==> handler[b] == NULL && cross[b] == NULL && span[b].mask == []
    requires start[0] == 0 && size[0] == CACHE_TOTAL && next[0] == NULL
    requires forall b :: 0 < b < n ==> next[b] == if b + 1 == n then NULL else b + 1
    requires free == if n == 1 then NULL else 1
    requires |freeList| == n - 1 && forall k :: 0 <= k < n - 1 ==> freeList[k] == k + 1
    ensures CrossOk(cross, handler, index) && BodiesOk(handler, index, span, source, inUse)
    ensures Mains(handler, index) == {} && AllFresh(handler, source, memory)
    ensures ArenaOk(start, size, next, 0, [0]) && Chain(free, next, freeList)
    ensures PlacesOk([0], freeList, handler, index)
  {
    assert TileOk(start, size, [0], 0);
    forall b {:trigger PlaceOk([0], freeList, handler, index, b)} | 0 <= b < n ensures PlaceOk([0], freeList, handler, index, b) {
      if b > 0 {
        assert freeList[b - 1] == b;
      }
    }
  }

  /** The block's first to last byte meet `lo..hi`. */
  predicate Overlaps(s: Span, lo: int, hi: int) { lo <= s.end && hi >= s.start }

  /** Exactly what an invalidation of `lo..hi` in page `p` may drop: blocks of the page that meet the range, and
      the other halves of such blocks; `current` tells whether the block that holds `ip` was among the former. */
  ghost predicate Evicted(handler0: seq<int>, span0: seq<Span>, cross0: seq<int>, handler: seq<int>, cross: seq<int>,
                          p: int, lo: int, hi: int, ip: int, current: bool)
  {
    && |handler0| == |span0| == |cross0| == |handler| == |cross|
    && (forall b :: 0 <= b < |handler| && handler[b] != NULL ==> cross[b] == cross0[b])
    && (forall b :: 0 <= b < |handler| && handler0[b] == p && handler[b] == NULL ==> Overlaps(span0[b], lo, hi))
    && (forall b :: 0 <= b < |handler| && handler0[b] != p && handler0[b] != NULL && handler[b] == NULL ==>
          0 <= cross0[b] < |handler| && handler0[cross0[b]] == p && Overlaps(span0[cross0[b]], lo, hi))
    && (current <==> exists b :: 0 <= b < |handler| && handler0[b] == p && handler[b] == NULL && span0[b].start <= ip <= span0[b].end)
  }

  /** A write to a page without blocks drops none. */
  lemma NoneEvicted(handler0: seq<int>, span0: seq<Span>, cross0: seq<int>, handler: seq<int>, span: seq<Span>, cross: seq<int>,
                    p: int, lo: int, hi: int, ip: int, current: bool)
    requires Kept(handler0, span0, handler, span) && Evicted(handler0, span0, cross0, handler, cross, p, lo, hi, ip, current)
    requires p != NULL && p !in HomePages(handler0)
    ensures handler == handler0 && !current
  {
    forall b | 0 <= b < |handler| ensures handler[b] == handler0[b] {
      assert handler0[b] != NULL ==> handler0[b] in HomePages(handler0);
    }
  }

  /** `h` is the half of the running block that holds the instruction pointer, counted from the start of page `p`. */
  predicate HoldsIp(handler: seq<int>, span: seq<Span>, p: int, h: int, ip: int)
    requires |handler| == |span|
  {
    && 0 <= h < |handler| && handler[h] != NULL
    && if handler[h] == p then span[h].start <= ip <= span[h].end else !(0 <= ip < PAGE_SIZE)
  }

  /** An invalidation that drops the running block reports it if and only if the instruction pointer is in the page that is
      written.  A block that is hit in its other half, in the next page or in the one before, goes unreported. */
  lemma DropReported(handler0: seq<int>, span0: seq<Span>, cross0: seq<int>, handler: seq<int>, cross: seq<int>,
                     p: int, lo: int, hi: int, ip: int, current: bool, h: int)
    requires Evicted(handler0, span0, cross0, handler, cross, p, lo, hi, ip, current) && p != NULL
    requires forall b :: 0 <= b < |handler0| && handler0[b] == p ==> 0 <= span0[b].start && span0[b].end < PAGE_SIZE
    requires HoldsIp(handler0, span0, p, h, ip) && handler[h] == NULL
    ensures current <==> handler0[h] == p
  {
  }

  lemma NotInPage(handler0: seq<int>, span0: seq<Span>, cross0: seq<int>, handler: seq<int>, cross: seq<int>,
                  p: int, lo: int, hi: int, ip: int, current: bool)
    requires |handler0| == |span0| && !(0 <= ip < PAGE_SIZE)
    requires forall b :: 0 <= b < |handler0| && handler0[b] == p ==> 0 <= span0[b].start && span0[b].end < PAGE_SIZE
    ensures Evicted(handler0, span0, cross0, handler, cross, p, lo, hi, ip, current) ==> !current
  {
  }

  /** Both mistakes happen: the running block, in page 0, is dropped because of its second half in page 1 and not reported;
      and a block is reported that was not dropped, because another one that holds the same instruction was. */
  lemma ReportsMislead()
    ensures Evicted([0, 1], [Span(4000, 4095, 0, []), Span(0, 20, 0, [])], [1, 0], [NULL, NULL], [NULL, NULL],
                    1, 5, 5, 4000 - PAGE_SIZE, false)
    ensures Evicted([0, 0], [Span(0, 10, 0, []), Span(5, 20, 0, [])], [NULL, NULL], [0, NULL], [NULL, NULL], 0, 15, 15, 7, true)
  {
    var handler0, span0 := [0, 0], [Span(0, 10, 0, []), Span(5, 20, 0, [])];
    assert handler0[1] == 0 && [0, NULL][1] == NULL && span0[1].start <= 7 <= span0[1].end;
  }

  lemma EvictOne(handler0: seq<int>, span0: seq<Span>, cross0: seq<int>, handler: seq<int>, span: seq<Span>, cross: seq<int>,
                 index: seq<int>, p: int, lo: int, hi: int, ip: int, current: bool, b: int)
    requires Evicted(handler0, span0, cross0, handler, cross, p, lo, hi, ip, current) && p != NULL
    requires Kept(handler0, span0, handler, span) && CrossOk(cross, handler, index)
    requires 0 <= b < |handler| && handler[b] == p && Overlaps(span[b], lo, hi)
    ensures Evicted(handler0, span0, cross0, Cleared(handler, b, cross[b]), Cleared(cross, b, cross[b]), p, lo, hi, ip,
                    current || span[b].start <= ip <= span[b].end)
  {
    assert HalfOk(cross, handler, index, b);
    var c := cross[b];
    var handler' := Cleared(handler, b, c);
    if current {
      var d :| 0 <= d < |handler| && handler0[d] == p && handler[d] == NULL && span0[d].start <= ip <= span0[d].end;
      assert handler'[d] == NULL;
    }
    assert handler'[b] == NULL;
  }

  /** The sweep of slot `i` stands at `block` with `rest` still to visit; what it has passed does not meet `lo..hi`. */
  ghost predicate Sweeping(handler: seq<int>, index: seq<int>, span: seq<Span>, next: seq<int>, rest: seq<int>, block: int,
                           p: int, i: int, lo: int, hi: int)
  {
    && |handler| == |index| == |span| == |next| && p != NULL
    && Chain(block, next, rest)
    && (forall b <- rest :: 0 <= b < |handler| && handler[b] == p && index[b] == i)
    && (forall b :: 0 <= b < |handler| && handler[b] == p && index[b] == i ==> b in rest || !Overlaps(span[b], lo, hi))
  }

  lemma SweepHead(handler: seq<int>, index: seq<int>, span: seq<Span>, next: seq<int>, rest: seq<int>, block: int,
                  p: int, i: int, lo: int, hi: int)
    requires Sweeping(handler, index, span, next, rest, block, p, i, lo, hi) && block != NULL
    ensures rest != [] && rest[0] == block && 0 <= block < |handler| && handler[block] == p
  {
  }

  lemma OtherHalfElsewhere(cross: seq<int>, handler: seq<int>, index: seq<int>, b: int)
    requires CrossOk(cross, handler, index) && 0 <= b < |cross|
    ensures cross[b] == NULL || (0 <= cross[b] < |cross| && handler[cross[b]] != handler[b])
  {
    assert HalfOk(cross, handler, index, b);
  }

  lemma SweepSkip(handler: seq<int>, index: seq<int>, span: seq<Span>, next: seq<int>, rest: seq<int>, block: int,
                  p: int, i: int, lo: int, hi: int)
    requires Sweeping(handler, index, span, next, rest, block, p, i, lo, hi) && block != NULL
    requires 0 <= block < |span| ==> !Overlaps(span[block], lo, hi)
    ensures rest != [] && 0 <= block < |next|
    ensures Sweeping(handler, index, span, next, rest[1..], next[block], p, i, lo, hi)
  {
    ChainTail(block, next, rest);
  }

  /** The successor is read before the block is cleared; the list behind it stays intact although the
      other half is unlinked as well, because that one lies in another page. */
  lemma SweepClear(handler: seq<int>, index: seq<int>, span: seq<Span>, next: seq<int>, next': seq<int>, rest: seq<int>, block: int,
                   c: int, p: int, i: int, lo: int, hi: int)
    requires Sweeping(handler, index, span, next, rest, block, p, i, lo, hi) && block != NULL
    requires 0 <= c < |handler| ==> handler[c] != p
    requires c == NULL || 0 <= c < |handler|
    requires RelinkedOnly(next, next', Halves(block, c))
    ensures rest != [] && 0 <= block < |next|
    ensures Sweeping(Cleared(handler, block, c), index, Unmasked(span, block, c), next', rest[1..], next[block], p, i, lo, hi)
  {
    var t := rest[1..];
    ChainTail(block, next, rest);
    forall k {:trigger next'[t[k]]} | 0 <= k < |t| ensures next'[t[k]] == NextOf(t, k) {
      assert next[t[k]] == NextOf(t, k);
    }
  }

  /** The blocks of the slots above `index` do not meet `lo..hi`. */
  ghost predicate SweptAbove(handler: seq<int>, index: seq<int>, span: seq<Span>, p: int, top: int, lo: int, hi: int)
  {
    && |handler| == |index| == |span|
    && (forall b :: 0 <= b < |handler| && handler[b] == p && index[b] > top ==> !Overlaps(span[b], lo, hi))
  }

  /** A block in a slot above the one of `hi` starts after `hi`. */
  lemma HighSlots(handler: seq<int>, index: seq<int>, span: seq<Span>, source: seq<map<int, int>>, inUse: seq<bool>,
                  p: int, lo: int, hi: int)
    requires BodiesOk(handler, index, span, source, inUse) && p != NULL && 0 <= hi
    ensures SweptAbove(handler, index, span, p, HashSlot(hi), lo, hi)
  {
    forall b | 0 <= b < |handler| && handler[b] == p && index[b] > HashSlot(hi) ensures !Overlaps(span[b], lo, hi) {
      assert BodyOk(handler, index, span, source, inUse, b);
    }
  }

  lemma SweptOneMore(handler: seq<int>, span: seq<Span>, handler': seq<int>, index: seq<int>, span': seq<Span>,
                     p: int, top: int, lo: int, hi: int)
    requires SweptAbove(handler, index, span, p, top, lo, hi) && p != NULL
    requires Kept(handler, span, handler', span')
    requires forall b :: 0 <= b < |handler'| && handler'[b] == p && index[b] == top ==> !Overlaps(span'[b], lo, hi)
    ensures SweptAbove(handler', index, span', p, top - 1, lo, hi)
  {
  }

  lemma NothingEvicted(handler: seq<int>, span: seq<Span>, cross: seq<int>, p: int, lo: int, hi: int, ip: int)
    requires |handler| == |span| == |cross| && p != NULL
    ensures Kept(handler, span, handler, span) && Evicted(handler, span, cross, handler, cross, p, lo, hi, ip, false)
  {
  }

  /** A write map that is zero in `lo..hi` really means that no block was translated from there. */
  lemma ZeroMapUntouched(handler: seq<int>, source: seq<map<int, int>>, writeMap: seq<seq<int>>, inUse: seq<bool>,
                         p: int, lo: int, hi: int)
    requires |handler| == |source| && |writeMap| == |inUse| && WriteMapOk(handler, source, writeMap, inUse)
    requires 0 <= p < |writeMap| && inUse[p] && 0 <= lo && hi < PAGE_SIZE
    requires forall i :: lo <= i <= hi ==> writeMap[p][i] == 0
    ensures forall i :: lo <= i <= hi ==> Untouched(handler, source, p, i)
  {
    forall i | lo <= i <= hi ensures Untouched(handler, source, p, i) {
      forall b | 0 <= b < |handler| && handler[b] == p ensures i !in source[b] {
        assert writeMap[p][i] == 0;
        assert b !in CoverSet(handler, source, p, i);
      }
    }
  }

  /** Sealed blocks that do not overlap `lo..hi` were not translated from it. */
  lemma NoOverlapUntouched(handler: seq<int>, index: seq<int>, span: seq<Span>, source: seq<map<int, int>>, inUse: seq<bool>,
                           p: int, lo: int, hi: int)
    requires BodiesOk(handler, index, span, source, inUse) && p != NULL
    requires forall b :: 0 <= b < |handler| && handler[b] == p ==> !Overlaps(span[b], lo, hi)
    ensures forall i :: lo <= i <= hi ==> Untouched(handler, source, p, i)
  {
    forall i | lo <= i <= hi ensures Untouched(handler, source, p, i) {
      forall b | 0 <= b < |handler| && handler[b] == p ensures i !in source[b] {
        assert BodyOk(handler, index, span, source, inUse, b);
      }
    }
  }

  lemma ClearKeepsCross(cross: seq<int>, handler: seq<int>, index: seq<int>, b: int)
    requires CrossOk(cross, handler, index) && 0 <= b < |cross|
    ensures cross[b] == NULL || 0 <= cross[b] < |cross|
    ensures CrossOk(Cleared(cross, b, cross[b]), Cleared(handler, b, cross[b]), index)
    ensures Mains(Cleared(handler, b, cross[b]), index) == Mains(handler, index) - Halves(b, cross[b])
  {
    assert HalfOk(cross, handler, index, b);
    var cross', handler' := Cleared(cross, b, cross[b]), Cleared(handler, b, cross[b]);
    forall d {:trigger HalfOk(cross', handler', index, d)} | 0 <= d < |cross| ensures HalfOk(cross', handler', index, d) {
      assert HalfOk(cross, handler, index, d);
    }
  }

  lemma ClearKeepsBodies(handler: seq<int>, index: seq<int>, span: seq<Span>, source: seq<map<int, int>>, inUse: seq<bool>,
                         b: int, c: int)
    requires BodiesOk(handler, index, span, source, inUse) && 0 <= b < |handler| && (c == NULL || 0 <= c < |handler|)
    ensures BodiesOk(Cleared(handler, b, c), index, Unmasked(span, b, c), source, inUse)
  {
    var handler', span' := Cleared(handler, b, c), Unmasked(span, b, c);
    forall d {:trigger BodyOk(handler', index, span', source, inUse, d)} | 0 <= d < |handler|
      ensures BodyOk(handler', index, span', source, inUse, d)
    {
      assert BodyOk(handler, index, span, source, inUse, d);
    }
  }

  lemma ReleaseKeepsBodies(handler: seq<int>, index: seq<int>, span: seq<Span>, source: seq<map<int, int>>, inUse: seq<bool>, p: int)
    requires BodiesOk(handler, index, span, source, inUse) && 0 <= p < |inUse|
    requires forall b :: 0 <= b < |handler| ==> handler[b] != p
    ensures BodiesOk(handler, index, span, source, inUse[p := false])
  {
    var inUse' := inUse[p := false];
    forall d {:trigger BodyOk(handler, index, span, source, inUse', d)} | 0 <= d < |handler|
      ensures BodyOk(handler, index, span, source, inUse', d)
    {
      assert BodyOk(handler, index, span, source, inUse, d);
    }
  }

  // ---- the arena and the free list ----

  const CACHE_TOTAL: nat := 1024 * 1024 * 8
  const CACHE_MAXSIZE: nat := 4096 * 2
  const CACHE_ALIGN: nat := 16

  /** Where element `k` of the arena chain lies: aligned, not empty, right before the next one or the end. */
  ghost predicate TileOk(start: seq<int>, size: seq<int>, arena: seq<int>, k: nat)
    requires k < |arena| && 0 <= arena[k] < |start| == |size|
    requires k + 1 < |arena| ==> 0 <= arena[k + 1] < |start|
  {
    && start[arena[k]] % CACHE_ALIGN == 0 && size[arena[k]] > 0
    && start[arena[k]] + size[arena[k]] == if k + 1 < |arena| then start[arena[k + 1]] else CACHE_TOTAL
  }

  /** The chain from `first` tiles the arena from 0 to CACHE_TOTAL without gap or overlap. */
  ghost predicate ArenaOk(start: seq<int>, size: seq<int>, next: seq<int>, first: int, arena: seq<int>)
  {
    && |start| == |size| == |next| && arena != []
    && Chain(first, next, arena)
    && start[first] == 0
    && (forall k {:trigger TileOk(start, size, arena, k)} :: 0 <= k < |arena| ==> TileOk(start, size, arena, k))
  }

  /** A write to the successor of a block outside the arena leaves the arena alone. */
  lemma ArenaFrame(start: seq<int>, size: seq<int>, next: seq<int>, first: int, arena: seq<int>, x: int, v: int)
    requires ArenaOk(start, size, next, first, arena) && 0 <= x < |next| && x !in arena
    ensures ArenaOk(start, size, next[x := v], first, arena)
  {
    ChainFrame(first, next, arena, x, v);
  }

  /** Every block is in exactly one of the arena chain, the free list and the live second halves. */
  ghost predicate PlaceOk(arena: seq<int>, freeList: seq<int>, handler: seq<int>, index: seq<int>, b: int)
    requires |handler| == |index| && 0 <= b < |handler|
  {
    && (b in arena ==> b !in freeList)
    && (handler[b] != NULL ==> b !in freeList && (index[b] == 0 <==> b !in arena))
    && (handler[b] == NULL ==> b in arena || b in freeList)
  }

  ghost predicate PlacesOk(arena: seq<int>, freeList: seq<int>, handler: seq<int>, index: seq<int>)
  {
    && |handler| == |index|
    && (forall b {:trigger PlaceOk(arena, freeList, handler, index, b)} :: 0 <= b < |handler| ==>
          PlaceOk(arena, freeList, handler, index, b))
  }

  lemma NotFree(arena: seq<int>, freeList: seq<int>, handler: seq<int>, index: seq<int>, b: int)
    requires PlacesOk(arena, freeList, handler, index) && 0 <= b < |handler| && b in arena
    ensures b !in freeList
  {
    assert PlaceOk(arena, freeList, handler, index, b);
  }

  /** Clearing a block gives its second half, and nothing else, back to the free list. */
  lemma ClearKeepsPlaces(arena: seq<int>, freeList: seq<int>, next: seq<int>, free: int, handler: seq<int>, index: seq<int>,
                         cross: seq<int>, b: int)
    requires PlacesOk(arena, freeList, handler, index) && CrossOk(cross, handler, index) && Chain(free, next, freeList)
    requires 0 <= b < |handler| == |next| && handler[b] != NULL
    ensures cross[b] == NULL || 0 <= cross[b] < |cross|
    ensures var x := CrossHalf(b, cross[b], index);
            var handler' := Cleared(handler, b, cross[b]);
            if x == NULL then PlacesOk(arena, freeList, handler', index)
            else 0 <= x < |next| && x !in arena && Chain(x, next[x := free], [x] + freeList) &&
                 PlacesOk(arena, [x] + freeList, handler', index)
  {
    assert HalfOk(cross, handler, index, b);
    var c := cross[b];
    var x := CrossHalf(b, c, index);
    var handler' := Cleared(handler, b, c);
    var freeList' := if x == NULL then freeList else [x] + freeList;
    assert PlaceOk(arena, freeList, handler, index, b);
    if c != NULL {
      assert PlaceOk(arena, freeList, handler, index, c);
    }
    if x != NULL {
      ChainPush(free, next, freeList, x);
    }
    forall d {:trigger PlaceOk(arena, freeList', handler', index, d)} | 0 <= d < |handler|
      ensures PlaceOk(arena, freeList', handler', index, d)
    {
      assert PlaceOk(arena, freeList, handler, index, d);
    }
  }

  /** The arena and the free list while cache_openblock is merging: `block` already counts `acc` bytes and its
      successor will be `after`. */
  ghost predicate MergingOk(start: seq<int>, size: seq<int>, next: seq<int>, first: int, arena: seq<int>, block: int, acc: int, after: int)
  {
    && |start| == |size| == |next| && 0 <= block < |next| && block in arena
    && ArenaOk(start, size[block := acc], next[block := after], first, arena)
  }

  lemma MergingFrame(start: seq<int>, size: seq<int>, next: seq<int>, first: int, arena: seq<int>, block: int, acc: int, after: int,
                     x: int, v: int)
    requires MergingOk(start, size, next, first, arena, block, acc, after) && 0 <= x < |next| && x !in arena
    ensures MergingOk(start, size, next[x := v], first, arena, block, acc, after)
  {
    ArenaFrame(start, size[block := acc], next[block := after], first, arena, x, v);
    assert next[block := after][x := v] == next[x := v][block := after];
  }

  /** A tile that is taken out of the chain is counted by the one before it. */
  lemma ArenaSplice(start: seq<int>, size: seq<int>, next: seq<int>, first: int, arena: seq<int>, k: nat)
    requires ArenaOk(start, size, next, first, arena) && k + 1 < |arena|
    ensures 0 <= arena[k] < |next| && 0 <= arena[k + 1] < |next| && arena[k] != arena[k + 1] && size[arena[k + 1]] > 0
    ensures ArenaOk(start, size[arena[k] := size[arena[k]] + size[arena[k + 1]]], next[arena[k] := next[arena[k + 1]]],
                    first, Without(arena, k + 1))
  {
    assert TileOk(start, size, arena, k) && TileOk(start, size, arena, k + 1);
    ChainSplice(first, next, arena, k + 1);
    var arena', size' := Without(arena, k + 1), size[arena[k] := size[arena[k]] + size[arena[k + 1]]];
    forall j {:trigger TileOk(start, size', arena', j)} | 0 <= j < |arena'| ensures TileOk(start, size', arena', j) {
      assert TileOk(start, size, arena, if j <= k then j else j + 1);
    }
  }

  lemma Absorb(start: seq<int>, size: seq<int>, next: seq<int>, first: int, arena: seq<int>, block: int, acc: int, after: int)
    requires MergingOk(start, size, next, first, arena, block, acc, after) && after != NULL
    ensures 0 <= after < |next| == |size| && after != block && after in arena && size[after] > 0
    ensures MergingOk(start, size, next, first, Drop(arena, after), block, acc + size[after], next[after])
    ensures Distinct(arena)
  {
    var size1, next1 := size[block := acc], next[block := after];
    var k := Position(arena, block);
    assert next1[arena[k]] == NextOf(arena, k);
    ArenaSplice(start, size1, next1, first, arena, k);
    assert Position(arena, after) == k + 1;
    WithoutMembers(arena, k + 1);
    hide TileOk;
    assert next1[block := next1[after]] == next[block := next[after]];
    assert size1[block := acc + size[after]] == size[block := acc + size[after]];
  }

  /** Tiles lie in the arena in the order of the chain. */
  lemma {:induction false} TilesOrdered(start: seq<int>, size: seq<int>, next: seq<int>, first: int, arena: seq<int>, i: nat, j: nat)
    requires ArenaOk(start, size, next, first, arena) && i < j < |arena|
    ensures 0 <= arena[i] < |start| && 0 <= arena[j] < |start| && start[arena[i]] < start[arena[i]] + size[arena[i]] <= start[arena[j]]
    decreases j
  {
    assert TileOk(start, size, arena, i) && TileOk(start, size, arena, j - 1) && TileOk(start, size, arena, j);
    if i < j - 1 {
      TilesOrdered(start, size, next, first, arena, i, j - 1);
    }
  }

  /** Of the tiles of `arena0` those that begin in the `acc` bytes of `block` are gone, and each of them began while the
      block was still too small. */
  ghost predicate MergedUpTo(start: seq<int>, arena0: seq<int>, arena: seq<int>, block: int, acc: int)
    requires 0 <= block < |start| && forall b <- arena0 :: 0 <= b < |start|
  {
    && (forall b <- arena0 :: b in arena <==> b == block || start[b] < start[block] || start[b] >= start[block] + acc)
    && (forall b <- arena0 :: b !in arena ==> start[b] < start[block] + CACHE_MAXSIZE)
  }

  lemma NothingMerged(start: seq<int>, size: seq<int>, next: seq<int>, first: int, arena: seq<int>, block: int)
    requires ArenaOk(start, size, next, first, arena) && block in arena
    ensures 0 <= block < |start| && (forall b <- arena :: 0 <= b < |start|) && MergedUpTo(start, arena, arena, block, size[block])
  {
    forall b <- arena
      ensures 0 <= b < |start| && 0 <= block < |start| && (b == block || start[b] < start[block] || start[b] >= start[block] + size[block])
    {
      Apart(start, size, next, first, arena, block, b);
    }
  }

  lemma Apart(start: seq<int>, size: seq<int>, next: seq<int>, first: int, arena: seq<int>, b: int, c: int)
    requires ArenaOk(start, size, next, first, arena) && b in arena && c in arena
    ensures 0 <= b < |start| == |size| && 0 <= c < |start| && size[b] > 0
    ensures b == c || start[c] < start[b] || start[c] >= start[b] + size[b]
    ensures next[b] != NULL && c != b && c != next[b] && start[c] >= start[b] ==>
              0 <= next[b] < |start| && start[c] >= start[next[b]] + size[next[b]]
    ensures next[b] != NULL ==> 0 <= next[b] < |start| && start[next[b]] == start[b] + size[b] && size[next[b]] > 0 && next[b] in arena
  {
    var i, j := Position(arena, b), Position(arena, c);
    assert TileOk(start, size, arena, i) && TileOk(start, size, arena, j) && next[arena[i]] == NextOf(arena, i);
    if i < j {
      TilesOrdered(start, size, next, first, arena, i, j);
      if i + 1 < j {
        TilesOrdered(start, size, next, first, arena, i + 1, j);
      }
    } else if j < i {
      TilesOrdered(start, size, next, first, arena, j, i);
    }
    if i + 1 < |arena| {
      assert TileOk(start, size, arena, i + 1);
    }
  }

  /** The next tile is only joined to a block that is too small. */
  lemma MergedOneMore(start: seq<int>, size: seq<int>, next: seq<int>, first: int, arena0: seq<int>, arena: seq<int>, block: int, acc: int,
                      after: int)
    requires MergingOk(start, size, next, first, arena, block, acc, after) && after != NULL && acc < CACHE_MAXSIZE
    requires (forall b <- arena0 :: 0 <= b < |start|) && MergedUpTo(start, arena0, arena, block, acc)
    ensures 0 <= after < |size| && Distinct(arena)
    ensures after in arena && MergedUpTo(start, arena0, Drop(arena, after), block, acc + size[after])
  {
    var size1, next1 := size[block := acc], next[block := after];
    Absorb(start, size, next, first, arena, block, acc, after);
    WithoutMembers(arena, Position(arena, after));
    forall b <- arena0 | b in arena
      ensures start[after] == start[block] + acc
      ensures b == block || b == after || start[b] < start[block] || start[b] >= start[block] + acc + size[after]
    {
      Apart(start, size1, next1, first, arena, block, b);
    }
    Apart(start, size1, next1, first, arena, block, after);
  }

  /** The block at the end of the chain reaches the end of the arena. */
  lemma LastTile(start: seq<int>, size: seq<int>, next: seq<int>, first: int, arena: seq<int>, block: int, acc: int)
    requires MergingOk(start, size, next, first, arena, block, acc, NULL)
    ensures start[block] + acc == CACHE_TOTAL
  {
    var k := Position(arena, block);
    assert next[block := NULL][arena[k]] == NextOf(arena, k);
    assert TileOk(start, size[block := acc], arena, k);
  }

  lemma AbsorbKeepsPlaces(arena: seq<int>, freeList: seq<int>, next: seq<int>, free: int, handler: seq<int>, index: seq<int>, x: int)
    requires PlacesOk(arena, freeList, handler, index) && Chain(free, next, freeList) && Distinct(arena)
    requires x in arena && 0 <= x < |handler| == |next| && handler[x] == NULL
    ensures Chain(x, next[x := free], [x] + freeList) && x !in Drop(arena, x)
    ensures PlacesOk(Drop(arena, x), [x] + freeList, handler, index)
  {
    assert PlaceOk(arena, freeList, handler, index, x);
    ChainPush(free, next, freeList, x);
    WithoutMembers(arena, Position(arena, x));
    var arena', freeList' := Drop(arena, x), [x] + freeList;
    forall d {:trigger PlaceOk(arena', freeList', handler, index, d)} | 0 <= d < |handler|
      ensures PlaceOk(arena', freeList', handler, index, d)
    {
      assert PlaceOk(arena, freeList, handler, index, d);
    }
  }

  /** The size a closed block keeps of the `written` bytes: rounded up to the alignment. */
  function Rounded(written: nat): nat { (written + CACHE_ALIGN - 1) / CACHE_ALIGN * CACHE_ALIGN }

  /** The next multiple of 16. */
  lemma RoundedUp(written: nat)
    ensures Rounded(written) % 16 == 0 && written <= Rounded(written) < written + 16
  {
  }

  ghost function InsertAfter(s: seq<int>, x: int, y: int): seq<int>
    requires x in s
  { var k := Position(s, x); s[..k + 1] + [y] + s[k + 1..] }

  /** Splitting `block` after `keep` bytes, with `x` as the new rest. */
  lemma SplitKeeps(start: seq<int>, size: seq<int>, next: seq<int>, first: int, arena: seq<int>, block: int, x: int, keep: nat)
    requires ArenaOk(start, size, next, first, arena) && block in arena && x !in arena && 0 <= x < |next| && 0 <= block < |next|
    requires 0 < keep < size[block] && keep % CACHE_ALIGN == 0
    ensures ArenaOk(start[x := start[block] + keep], size[x := size[block] - keep][block := keep],
                    next[x := next[block]][block := x], first, InsertAfter(arena, block, x))
  {
    var k := Position(arena, block);
    var arena' := InsertAfter(arena, block, x);
    var start', size' := start[x := start[block] + keep], size[x := size[block] - keep][block := keep];
    ChainInsert(first, next, arena, k, x);
    assert arena' == arena[..k + 1] + [x] + arena[k + 1..];
    hide TileOk, InsertAfter;
    forall j {:trigger TileOk(start', size', arena', j)} | 0 <= j < |arena'| ensures TileOk(start', size', arena', j) {
      hide Chain;
      assert TileOk(start, size, arena, if j <= k then j else j - 1);
      SplitTile(start, size, arena, k, x, keep, j);
    }
  }

  lemma SplitTile(start: seq<int>, size: seq<int>, arena: seq<int>, k: nat, x: int, keep: nat, j: nat)
    requires |start| == |size| && k < |arena| && j <= |arena| && x !in arena && 0 <= x < |start| && Distinct(arena)
    requires forall i :: 0 <= i < |arena| ==> 0 <= arena[i] < |start|
    requires TileOk(start, size, arena, if j <= k then j else j - 1)
    requires 0 < keep < size[arena[k]] && keep % CACHE_ALIGN == 0
    ensures var arena' := arena[..k + 1] + [x] + arena[k + 1..];
            TileOk(start[x := start[arena[k]] + keep], size[x := size[arena[k]] - keep][arena[k] := keep], arena', j)
  {
    var block := arena[k];
    var arena' := arena[..k + 1] + [x] + arena[k + 1..];
    var start', size' := start[x := start[block] + keep], size[x := size[block] - keep][block := keep];
    if j < k {
      assert arena'[j] == arena[j] && NextOf(arena', j) == NextOf(arena, j);
      SplitOther(start, size, start', size', arena, arena', block, x, j, j);
    } else if j > k + 1 {
      assert arena'[j] == arena[j - 1] && NextOf(arena', j) == NextOf(arena, j - 1);
      SplitOther(start, size, start', size', arena, arena', block, x, j - 1, j);
    }
  }

  /** A tile that is not split stays as it is. */
  lemma SplitOther(start: seq<int>, size: seq<int>, start': seq<int>, size': seq<int>, arena: seq<int>, arena': seq<int>,
                   block: int, x: int, i: nat, j: nat)
    requires |start| == |size| == |start'| == |size'| && Distinct(arena) && x !in arena && i < |arena| && j < |arena'|
    requires forall k :: 0 <= k < |arena| ==> 0 <= arena[k] < |start|
    requires forall b :: 0 <= b < |start| && b != x ==> start'[b] == start[b] && (b != block ==> size'[b] == size[b])
    requires arena[i] == arena'[j] && arena[i] != block
    requires NextOf(arena', j) == NextOf(arena, i) && (i + 1 < |arena| <==> j + 1 < |arena'|)
    requires TileOk(start, size, arena, i)
    ensures TileOk(start', size', arena', j)
  {
  }

  lemma TakeFree(arena: seq<int>, freeList: seq<int>, next: seq<int>, free: int, handler: seq<int>, index: seq<int>)
    requires PlacesOk(arena, freeList, handler, index) && Chain(free, next, freeList) && free != NULL && |handler| == |next|
    ensures freeList != [] && freeList[0] == free && 0 <= free < |next| && free !in arena && handler[free] == NULL
    ensures free !in freeList[1..] && Chain(next[free], next[free := NULL], freeList[1..])
  {
    ChainTail(free, next, freeList);
    ChainFrame(next[free], next, freeList[1..], free, NULL);
    assert PlaceOk(arena, freeList, handler, index, free);
  }

  /** The second half of a clear while the arena is being merged. */
  lemma MergingClear(start: seq<int>, size: seq<int>, next: seq<int>, first: int, arena: seq<int>, block: int, acc: int, after: int,
                     x: int, v: int, next': seq<int>)
    requires MergingOk(start, size, next, first, arena, block, acc, after)
    requires if x != NULL then 0 <= x < |next| && x !in arena && next' == next[x := v] else next' == next
    ensures MergingOk(start, size, next', first, arena, block, acc, after)
  {
    if x != NULL {
      MergingFrame(start, size, next, first, arena, block, acc, after, x, v);
    }
  }

  lemma MaskIsEmpty(handler: seq<int>, index: seq<int>, span: seq<Span>, source: seq<map<int, int>>, inUse: seq<bool>, b: int)
    requires BodiesOk(handler, index, span, source, inUse) && 0 <= b < |handler| && handler[b] == NULL
    ensures span[b].mask == []
  {
    assert BodyOk(handler, index, span, source, inUse, b);
  }

  /** An unregistered arena block becomes a block that starts in page `p`. */
  lemma NewMain(cross: seq<int>, handler: seq<int>, index: seq<int>, arena: seq<int>, freeList: seq<int>, b: int, p: int, i: int)
    requires CrossOk(cross, handler, index) && PlacesOk(arena, freeList, handler, index)
    requires 0 <= b < |handler| && handler[b] == NULL && b in arena && p != NULL && i != 0
    ensures cross[b] == NULL
    ensures CrossOk(cross, handler[b := p], index[b := i]) && PlacesOk(arena, freeList, handler[b := p], index[b := i])
    ensures Mains(handler[b := p], index[b := i]) == Mains(handler, index) + {b} && b !in Mains(handler, index)
  {
    var handler', index' := handler[b := p], index[b := i];
    assert HalfOk(cross, handler, index, b);
    forall d {:trigger HalfOk(cross, handler', index', d)} | 0 <= d < |cross| ensures HalfOk(cross, handler', index', d) {
      assert HalfOk(cross, handler, index, d);
    }
    forall d {:trigger PlaceOk(arena, freeList, handler', index', d)} | 0 <= d < |handler|
      ensures PlaceOk(arena, freeList, handler', index', d)
    {
      assert PlaceOk(arena, freeList, handler, index, d);
    }
  }

  /** A free block becomes the second half of `b`, in another page. */
  lemma NewHalf(cross: seq<int>, handler: seq<int>, index: seq<int>, arena: seq<int>, freeList: seq<int>, b: int, x: int, q: int)
    requires CrossOk(cross, handler, index) && PlacesOk(arena, freeList, handler, index)
    requires 0 <= b < |handler| && handler[b] != NULL && index[b] != 0 && cross[b] == NULL
    requires 0 <= x < |handler| && handler[x] == NULL && x !in arena && freeList != [] && freeList[0] == x && x !in freeList[1..]
    requires q != NULL && q != handler[b]
    ensures CrossOk(cross[b := x][x := b], handler[x := q], index[x := 0])
    ensures PlacesOk(arena, freeList[1..], handler[x := q], index[x := 0])
    ensures Mains(handler[x := q], index[x := 0]) == Mains(handler, index)
  {
    var cross', handler', index' := cross[b := x][x := b], handler[x := q], index[x := 0];
    assert HalfOk(cross, handler, index, x);
    forall d {:trigger HalfOk(cross', handler', index', d)} | 0 <= d < |cross| ensures HalfOk(cross', handler', index', d) {
      assert HalfOk(cross, handler, index, d);
    }
    forall d {:trigger PlaceOk(arena, freeList[1..], handler', index', d)} | 0 <= d < |handler|
      ensures PlaceOk(arena, freeList[1..], handler', index', d)
    {
      assert PlaceOk(arena, freeList, handler, index, d);
      assert d in freeList <==> d == x || d in freeList[1..];
    }
  }

  lemma ActiveTile(start: seq<int>, size: seq<int>, next: seq<int>, first: int, arena: seq<int>, b: int)
    requires ArenaOk(start, size, next, first, arena) && b in arena
    ensures |start| == |size| == |next| && 0 <= b < |next| && size[b] > 0
  {
    assert TileOk(start, size, arena, Position(arena, b));
  }

  lemma NextInArena(start: seq<int>, size: seq<int>, next: seq<int>, first: int, arena: seq<int>, b: int)
    requires ArenaOk(start, size, next, first, arena) && b in arena
    ensures 0 <= b < |next| == |start| && first in arena && 0 <= first < |start| && start[first] == 0
    ensures next[b] != NULL ==> 0 <= next[b] < |next| && next[b] in arena
  {
    var k := Position(arena, b);
    assert next[arena[k]] == NextOf(arena, k);
  }

  lemma SplitKeepsPlaces(arena: seq<int>, freeList: seq<int>, handler: seq<int>, index: seq<int>, b: int, x: int)
    requires PlacesOk(arena, freeList, handler, index) && b in arena
    requires 0 <= x < |handler| && handler[x] == NULL && freeList != [] && freeList[0] == x && x !in freeList[1..]
    ensures PlacesOk(InsertAfter(arena, b, x), freeList[1..], handler, index)
  {
    var arena' := InsertAfter(arena, b, x);
    assert forall d :: d in arena' <==> d in arena || d == x by {
      var k := Position(arena, b);
      assert arena == arena[..k + 1] + arena[k + 1..];
    }
    forall d {:trigger PlaceOk(arena', freeList[1..], handler, index, d)} | 0 <= d < |handler|
      ensures PlaceOk(arena', freeList[1..], handler, index, d)
    {
      assert PlaceOk(arena, freeList, handler, index, d);
      assert d in freeList <==> d == x || d in freeList[1..];
    }
  }

  lemma SplitFrame(next: seq<int>, free: int, freeList: seq<int>, b: int, x: int, v: int, arena: seq<int>)
    requires Chain(free, next, freeList) && 0 <= b < |next| && 0 <= x < |next| && b !in freeList && x !in freeList
    ensures Chain(free, next[x := v][b := x], freeList)
  {
    ChainFrame(free, next, freeList, x, v);
    ChainFrame(free, next[x := v], freeList, b, x);
  }

  /** `s` with `v` at `b` and, if there is a second half `x`, `w` at `x`. */
  function Put(s: seq<int>, b: int, v: int, x: int, w: int): seq<int>
    requires 0 <= b < |s|
  {
    if 0 <= x < |s| then s[b := v][x := w] else s[b := v]
  }

  ghost predicate AlikeExcept<T>(s: seq<T>, s': seq<T>, b: int, x: int)
  {
    |s'| == |s| && forall i :: 0 <= i < |s| && i != b && i != x ==> s'[i] == s[i]
  }

  ghost function Registered(handler: seq<int>): set<int> { set b | 0 <= b < |handler| && handler[b] != NULL }

  /** The pages that have registered blocks. */
  ghost function HomePages(handler: seq<int>): set<int> { set b | 0 <= b < |handler| && handler[b] != NULL :: handler[b] }

  /** Blocks were dropped, and then one or two registered. */
  lemma AtMostTwoMore(handler: seq<int>, handler1: seq<int>, b: int, p: int, x: int, q: int)
    requires Dropped(handler, handler1) && 0 <= b < |handler|
    ensures |Registered(Put(handler1, b, p, x, q))| <= |Registered(handler)| + 2
    ensures HomePages(Put(handler1, b, p, x, q)) <= HomePages(handler) + {p, q} && |Put(handler1, b, p, x, q)| == |handler|
  {
    Smaller(Registered(Put(handler1, b, p, x, q)), Registered(handler) + {b, x});
    assert Registered(handler) + {b, x} == Registered(handler) + ({b, x} - Registered(handler));
    assert |{b, x} - Registered(handler)| <= |{b, x}| <= 2 by {
      Smaller({b, x} - Registered(handler), {b, x});
    }
  }

  lemma DroppedFewer(handler: seq<int>, handler': seq<int>)
    requires Dropped(handler, handler')
    ensures |Registered(handler')| <= |Registered(handler)| && HomePages(handler') <= HomePages(handler)
  {
    Smaller(Registered(handler'), Registered(handler));
  }

  ghost function ElementsOf(s: seq<int>): set<int> { set x | x in s }

  lemma {:induction false} CountDistinct(s: seq<int>)
    requires Distinct(s)
    ensures |ElementsOf(s)| == |s|
  {
    if s != [] {
      var n := |s| - 1;
      CountDistinct(s[..n]);
      assert ElementsOf(s) == ElementsOf(s[..n]) + {s[n]};
    }
  }

  /** The blocks that are dropped while the arena stays as it is go to the free list, if they leave their place at all. */
  lemma DroppedFreesMore(arena: seq<int>, freeList: seq<int>, freeList': seq<int>, handler: seq<int>, handler': seq<int>, index: seq<int>,
                         next: seq<int>, next': seq<int>, free: int, free': int)
    requires PlacesOk(arena, freeList, handler, index) && PlacesOk(arena, freeList', handler', index) && Dropped(handler, handler')
    requires Chain(free, next, freeList) && Chain(free', next', freeList') && |next| == |next'| == |handler|
    ensures |freeList| <= |freeList'|
  {
    CountDistinct(freeList);
    CountDistinct(freeList');
    forall b | b in freeList ensures b in freeList' {
      assert PlaceOk(arena, freeList, handler, index, b);
      assert PlaceOk(arena, freeList', handler', index, b);
    }
    Smaller(ElementsOf(freeList), ElementsOf(freeList'));
  }

  /** No counter exceeds the number of registered blocks. */
  lemma CountersBelow(handler: seq<int>, source: seq<map<int, int>>, writeMap: seq<seq<int>>, inUse: seq<bool>, p: int, i: int)
    requires |handler| == |source| && |writeMap| == |inUse| && WriteMapOk(handler, source, writeMap, inUse)
    requires 0 <= p < |writeMap| && inUse[p] && 0 <= i < PAGE_SIZE
    ensures writeMap[p][i] <= |Registered(handler)|
  {
    Smaller(CoverSet(handler, source, p, i), Registered(handler));
  }

  /** With fewer blocks registered, fewer cover a byte. */
  lemma FewerCover(handler: seq<int>, handler': seq<int>, source: seq<map<int, int>>, p: int, i: int)
    requires |handler| == |source| && Dropped(handler, handler') && p != NULL
    ensures |CoverSet(handler', source, p, i)| <= |CoverSet(handler, source, p, i)|
  {
    Smaller(CoverSet(handler', source, p, i), CoverSet(handler, source, p, i));
  }

  lemma Smaller(s: set<int>, t: set<int>)
    requires s <= t
    ensures |s| <= |t|
  {
    assert t == s + (t - s);
  }

  /** A finished translation: the new block and its second half satisfy what all registered blocks satisfy. */
  lemma FinishBodies(handler0: seq<int>, index0: seq<int>, span0: seq<Span>, source0: seq<map<int, int>>, inUse: seq<bool>,
                     memory: seq<seq<int>>, b: int, p: int, i: int, x: int, q: int,
                     handler: seq<int>, index: seq<int>, span: seq<Span>, source: seq<map<int, int>>)
    requires BodiesOk(handler0, index0, span0, source0, inUse) && AllFresh(handler0, source0, memory)
    requires 0 <= b < |handler0| && 0 <= p < |inUse| && inUse[p] && p < |memory|
    requires handler == Put(handler0, b, p, x, q) && index == Put(index0, b, i, x, 0)
    requires AlikeExcept(span0, span, b, x) && AlikeExcept(source0, source, b, x)
    requires Sealed(span[b], source[b]) && i == HashSlot(span[b].start)
    requires forall k :: k in source[b] ==> 0 <= k < |memory[p]| && memory[p][k] == source[b][k]
    requires x != NULL ==> 0 <= x < |handler0| && x != b && 0 <= q < |inUse| && inUse[q] && q < |memory|
    requires x != NULL ==> Sealed(span[x], source[x]) && forall k :: k in source[x] ==> 0 <= k < |memory[q]| && memory[q][k] == source[x][k]
    ensures BodiesOk(handler, index, span, source, inUse) && AllFresh(handler, source, memory)
  {
    forall d {:trigger BodyOk(handler, index, span, source, inUse, d)} | 0 <= d < |handler|
      ensures BodyOk(handler, index, span, source, inUse, d)
    {
      assert BodyOk(handler0, index0, span0, source0, inUse, d);
    }
    forall d {:trigger Fresh(handler, source, memory, d)} | 0 <= d < |handler| ensures Fresh(handler, source, memory, d) {
      assert Fresh(handler0, source0, memory, d);
    }
  }

  lemma UnusedHasNoBlocks(handler: seq<int>, index: seq<int>, span: seq<Span>, source: seq<map<int, int>>, inUse: seq<bool>, p: int)
    requires BodiesOk(handler, index, span, source, inUse) && 0 <= p < |inUse| && !inUse[p]
    ensures forall b :: 0 <= b < |handler| ==> handler[b] != p
  {
    forall b | 0 <= b < |handler| ensures handler[b] != p {
      assert BodyOk(handler, index, span, source, inUse, b);
    }
  }

  lemma TakeKeepsBodies(handler: seq<int>, index: seq<int>, span: seq<Span>, source: seq<map<int, int>>, inUse: seq<bool>, p: int)
    requires BodiesOk(handler, index, span, source, inUse) && 0 <= p < |inUse|
    ensures BodiesOk(handler, index, span, source, inUse[p := true])
  {
    var inUse' := inUse[p := true];
    forall d {:trigger BodyOk(handler, index, span, source, inUse', d)} | 0 <= d < |handler|
      ensures BodyOk(handler, index, span, source, inUse', d)
    {
      assert BodyOk(handler, index, span, source, inUse, d);
    }
  }

  // ---- emptying a page ----

  /** The walk of ClearRelease stands at `block` in slot `k`: `rest` and the lists of the later slots hold exactly the
      blocks of page `p` that are left. */
  ghost predicate Walking(handler: seq<int>, index: seq<int>, next: seq<int>, row: seq<int>, lists: seq<seq<int>>,
                          rest: seq<int>, block: int, k: nat, p: int)
  {
    && |handler| == |index| == |next| && |row| == |lists| == HASH_SIZE && k < HASH_SIZE && p != NULL
    && Chain(block, next, rest)
    && (forall j :: k < j < HASH_SIZE ==> Chain(row[j], next, lists[j]))
    && (forall b <- rest :: 0 <= b < |handler| && handler[b] == p && index[b] == k)
    && (forall j, b :: k < j < HASH_SIZE && b in lists[j] ==> 0 <= b < |handler| && handler[b] == p && index[b] == j)
    && (forall b :: 0 <= b < |handler| && handler[b] == p ==>
          k <= index[b] < HASH_SIZE && (if index[b] == k then b in rest else b in lists[index[b]]))
  }

  lemma WalkStart(handler: seq<int>, index: seq<int>, next: seq<int>, hashMap: seq<seq<int>>, chains: seq<seq<seq<int>>>,
                  inUse: seq<bool>, p: int)
    requires HashOk(handler, index, next, hashMap, chains, inUse) && 0 <= p < |inUse| && inUse[p]
    ensures Walking(handler, index, next, hashMap[p], chains[p], chains[p][0], hashMap[p][0], 0, p)
  {
    assert SlotOk(handler, index, next, hashMap, chains, p, 0);
    forall j | 0 < j < HASH_SIZE ensures Chain(hashMap[p][j], next, chains[p][j]) {
      assert SlotOk(handler, index, next, hashMap, chains, p, j);
    }
    forall j, b | 0 < j < HASH_SIZE && b in chains[p][j] ensures 0 <= b < |handler| && handler[b] == p && index[b] == j {
      assert SlotOk(handler, index, next, hashMap, chains, p, j);
    }
    forall b | 0 <= b < |handler| && handler[b] == p ensures b in chains[p][index[b]] {
      assert SlotOk(handler, index, next, hashMap, chains, p, index[b]);
    }
  }

  lemma WalkHead(handler: seq<int>, index: seq<int>, next: seq<int>, row: seq<int>, lists: seq<seq<int>>,
                 rest: seq<int>, block: int, k: nat, p: int)
    requires Walking(handler, index, next, row, lists, rest, block, k, p) && block != NULL
    ensures rest != [] && 0 <= block < |handler| == |next| && handler[block] == p
  {
    assert block in rest;
  }

  /** At the end of a slot there is a next slot as long as blocks are left. */
  lemma WalkOn(handler: seq<int>, index: seq<int>, next: seq<int>, row: seq<int>, lists: seq<seq<int>>, rest: seq<int>, k: nat, p: int)
    requires Walking(handler, index, next, row, lists, rest, NULL, k, p) && Members(handler, p) != {}
    ensures k + 1 < HASH_SIZE && Walking(handler, index, next, row, lists, lists[k + 1], row[k + 1], k + 1, p)
  {
    var b :| b in Members(handler, p);
    assert handler[b] == p;
  }

  /** Clearing the block at hand, and its half in another page, keeps the rest of the walk intact. */
  lemma WalkClear(handler: seq<int>, index: seq<int>, next: seq<int>, next': seq<int>, row: seq<int>, lists: seq<seq<int>>,
                  rest: seq<int>, block: int, c: int, k: nat, p: int)
    requires Walking(handler, index, next, row, lists, rest, block, k, p) && block != NULL
    requires c == NULL || (0 <= c < |handler| && handler[c] != p)
    requires RelinkedOnly(next, next', Halves(block, c))
    ensures rest != [] && 0 <= block < |next|
    ensures Walking(Cleared(handler, block, c), index, next', row, lists, rest[1..], next[block], k, p)
    ensures Members(Cleared(handler, block, c), p) == Members(handler, p) - {block} && block in Members(handler, p)
  {
    ChainTail(block, next, rest);
    var t := rest[1..];
    forall i {:trigger next'[t[i]]} | 0 <= i < |t| ensures next'[t[i]] == NextOf(t, i) {
      assert next[t[i]] == NextOf(t, i);
    }
    forall j | k < j < HASH_SIZE ensures Chain(row[j], next', lists[j]) {
      assert block in rest;
      ListFrame(row[j], next, next', lists[j], Halves(block, c));
    }
  }

  lemma ListFrame(head: int, next: seq<int>, next': seq<int>, s: seq<int>, gone: set<int>)
    requires Chain(head, next, s) && RelinkedOnly(next, next', gone)
    requires NULL !in gone && forall b <- s :: b !in gone
    ensures Chain(head, next', s)
  {
    forall i {:trigger next'[s[i]]} | 0 <= i < |s| ensures next'[s[i]] == NextOf(s, i) {
      assert next[s[i]] == NextOf(s, i);
      assert i + 1 < |s| ==> s[i + 1] in s;
    }
  }

  /** Once its last block is gone a page need not be in use. */
  lemma EmptyPageBodies(handler: seq<int>, index: seq<int>, span: seq<Span>, source: seq<map<int, int>>, inUse: seq<bool>, p: int)
    requires 0 <= p < |inUse| && BodiesOk(handler, index, span, source, inUse[p := true]) && Members(handler, p) == {}
    ensures BodiesOk(handler, index, span, source, inUse)
    ensures forall b :: 0 <= b < |handler| ==> handler[b] != p
  {
    forall b | 0 <= b < |handler| ensures handler[b] != p {
      assert b !in Members(handler, p);
    }
    forall d {:trigger BodyOk(handler, index, span, source, inUse, d)} | 0 <= d < |handler|
      ensures BodyOk(handler, index, span, source, inUse, d)
    {
      assert BodyOk(handler, index, span, source, inUse[p := true], d);
    }
  }
}
