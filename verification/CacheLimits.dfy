/**
 A run of the code cache in which a counter of the write map becomes full: a long run of
 prefix bytes, entered at each of them.
 */
module CacheLimits {
  import opened Chains
  import opened CodePages
  import opened CacheInvariants
  import opened Decoding
  import opened CodeCaches

  /** The decoder reads `n` bytes one by one. */
  function ByteByByte(n: nat): (fetches: seq<Fetch>)
    ensures |fetches| == n && WellFormed(fetches) && AllPlain(fetches)
  { seq(n, _ => Fetch(1, false)) }

  lemma {:induction false} ByteByByteTotal(n: nat)
    ensures Total(ByteByByte(n)) == n
  {
    if n > 0 {
      assert ByteByByte(n)[1..] == ByteByByte(n - 1);
      ByteByByteTotal(n - 1);
    }
  }

  /** All registered blocks lie in page 0, begin before byte `k` and end with byte 255. */
  ghost predicate Prefixes(handler: seq<int>, span: seq<Span>, k: nat) {
    && |handler| == |span|
    && forall b :: 0 <= b < |handler| && handler[b] != NULL ==>
              handler[b] == 0 && span[b].start < k && span[b].end == 255 && span[b].mask == []
  }

  /** Each of them was translated from byte 255, so its counter tells their number. */
  lemma CountedAt255(c: CodeCache, k: nat)
    requires c.Valid() && 0 < |c.pages.inUse| && c.pages.inUse[0] && Prefixes(c.pages.handler, c.pages.span, k) && k <= 256
    ensures c.pages.writeMap[0][255] == |Registered(c.pages.handler)|
    ensures forall i :: 0 <= i < PAGE_SIZE ==> c.pages.writeMap[0][i] <= |Registered(c.pages.handler)|
  {
    hide ArenaOk, PlacesOk, Chain, HashOk, CrossOk, ActiveOk;
    forall b | 0 <= b < |c.pages.handler| && c.pages.handler[b] != NULL ensures 255 in c.pages.source[b] {
      assert BodyOk(c.pages.handler, c.pages.index, c.pages.span, c.pages.source, c.pages.inUse, b);
      assert Covers(c.pages.span[b], 255);
    }
    assert CoverSet(c.pages.handler, c.pages.source, 0, 255) == Registered(c.pages.handler);
    forall i | 0 <= i < PAGE_SIZE ensures c.pages.writeMap[0][i] <= |Registered(c.pages.handler)| {
      CountersBelow(c.pages.handler, c.pages.source, c.pages.writeMap, c.pages.inUse, 0, i);
    }
  }

  /** The cache after the first `k` bytes were entered. */
  ghost predicate Entered(c: CodeCache, k: nat)
    reads c, c.link0, c.link1, c.pages
  {
    && c.Valid() && c.Coherent() && (c.dynrec ==> 255 * CACHE_ALIGN <= c.limit) && 0 < |c.pages.inUse| && c.pages.inUse[0] && c.Calm()
    && c.size[c.active] == CACHE_TOTAL - k * CACHE_ALIGN && c.active < |c.start| && c.start[c.active] == k * CACHE_ALIGN &&
        |c.freeList| >= 300 - k
    && Prefixes(c.pages.handler, c.pages.span, k) && |Registered(c.pages.handler)| == k
  }

  /** One more block in page 0: what was registered stays. */
  lemma OneMorePrefix(handler: seq<int>, span: seq<Span>, handler': seq<int>, span': seq<Span>, b: int, k: nat)
    requires Prefixes(handler, span, k) && 0 <= b < |handler| && handler[b] == NULL && handler' == handler[b := 0]
    requires AlikeExcept(span, span', b, NULL) && span'[b].start == k && span'[b].end == 255 && span'[b].mask == []
    ensures Prefixes(handler', span', k + 1) && |Registered(handler')| == |Registered(handler)| + 1
  {
    assert Registered(handler') == Registered(handler) + {b};
  }

  /** No block begins at byte `k` yet, and one more has room. */
  method Look(c: CodeCache, k: nat) returns (found: int)
    requires Entered(c, k) && k < 255
    ensures found == NULL && c.RoomIn(0, k, ByteByByte(256 - k))
    ensures |c.pages.handler| == |c.pages.span| && 0 <= c.active < |c.size| == |c.start|
  {
    CountedAt255(c, k);
    c.StartsInSlot();
    found := c.pages.FindCacheBlock(0, k);
  }

  /** Byte `k` is entered: no block begins there, so one is translated, and it goes on to byte 255. */
  method EnterAt(c: CodeCache, k: nat)
    requires Entered(c, k) && k < 255
    modifies c, c.link0, c.link1, c.pages
    ensures Entered(c, k + 1) && c.memory == old(c.memory)
  {
    var found := Look(c, k);
    assert found == NULL;
    ByteByByteTotal(256 - k);
    hide CodeCache.Valid, CodeCache.Coherent, Registered, Total;
    ghost var handler, span, active := c.pages.handler, c.pages.span, c.active;
    var block, ok := c.Translate(0, k, ByteByByte(256 - k), 0, [], 1);
    OneMorePrefix(handler, span, c.pages.handler, c.pages.span, block, k);
  }

  /** From the empty cache to a full counter: after the run of prefixes was entered at each of its first 255 bytes, the last
      one has no block of its own yet, and translating it makes its counter wrap. */
  method FullCounter(row: seq<int>, dynrec: bool, limit: int) returns (c: CodeCache)
    requires |row| == PAGE_SIZE && (dynrec ==> 255 * CACHE_ALIGN <= limit <= CACHE_TOTAL - CACHE_MAXSIZE)
    ensures fresh(c) && c.dynrec == dynrec && c.limit == limit && c.Valid() && c.Coherent() && c.memory == [row]
    ensures c.pages.inUse[0] && c.pages.writeMap[0][255] == 255
    ensures c.NothingAt(0, 255) && !c.RoomIn(0, 255, ByteByByte(1))
  {
    c := new CodeCache(301, [row], [false], [true], dynrec, limit);
    assert Registered(c.pages.handler) == {};
    c.TakePage(0);
    var k := 0;
    while k < 255
      invariant 0 <= k <= 255 && Entered(c, k) && c.memory == [row] && c.dynrec == dynrec && c.limit == limit && fresh(c)
    {
      EnterAt(c, k);
      k := k + 1;
    }
    CountedAt255(c, 255);
  }
}
