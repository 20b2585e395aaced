/**
 The pages that hold translated guest code: the hash index of their cache blocks,
 the map that counts how many blocks were translated from each byte, and the guest
 bytes themselves (src/cpu/dyn_cache.h, class CodePageHandler).
 */
module CodePages {
  import opened Chains

  const PAGE_SIZE: nat := 4096
  const HASH_SHIFT_SIZE: nat := 16                 // 1 << DYN_HASH_SHIFT
  const HASH_SIZE: nat := 1 + PAGE_SIZE / HASH_SHIFT_SIZE

  function HashSlot(start: nat): nat { 1 + start / HASH_SHIFT_SIZE }

  /** `block->page.start`, `page.end` and the write mask of a block. */
  datatype Span = Span(start: nat, end: int, maskStart: nat, mask: seq<nat>)

  predicate Masked(s: Span, i: int) {
    s.maskStart <= i < s.maskStart + |s.mask| && s.mask[i - s.maskStart] != 0
  }

  /** Byte `i` of the page is inside the block and not exempted by its mask. */
  predicate Covers(s: Span, i: int) { s.start <= i <= s.end && !Masked(s, i) }

  // ---- the hash index ----

  /** Slot `i` of page `p` is an acyclic list of exactly the blocks registered there. */
  ghost predicate SlotOk(handler: seq<int>, index: seq<int>, next: seq<int>, hashMap: seq<seq<int>>,
                         chains: seq<seq<seq<int>>>, p: int, i: int)
  {
    && |handler| == |index| == |next|
    && 0 <= p < |hashMap| == |chains|
    && 0 <= i < |hashMap[p]| == |chains[p]|
    && Chain(hashMap[p][i], next, chains[p][i])
    && (forall b :: b in chains[p][i] <==> 0 <= b < |handler| && handler[b] == p && index[b] == i)
  }

  ghost predicate HashOk(handler: seq<int>, index: seq<int>, next: seq<int>, hashMap: seq<seq<int>>, chains: seq<seq<seq<int>>>,
                         inUse: seq<bool>)
  {
    && |handler| == |index| == |next| && |hashMap| == |chains| == |inUse|
    && (forall p :: 0 <= p < |hashMap| ==> |hashMap[p]| == HASH_SIZE)
    && (forall p :: 0 <= p < |chains| ==> |chains[p]| == HASH_SIZE)
    && (forall b :: 0 <= b < |handler| ==> 0 <= index[b] < HASH_SIZE)
    && (forall p, i {:trigger SlotOk(handler, index, next, hashMap, chains, p, i)} ::
          0 <= p < |hashMap| && inUse[p] && 0 <= i < HASH_SIZE ==> SlotOk(handler, index, next, hashMap, chains, p, i))
  }

  lemma RegisterKeepsHash(handler: seq<int>, index: seq<int>, next: seq<int>, hashMap: seq<seq<int>>,
                          chains: seq<seq<seq<int>>>, inUse: seq<bool>, b: int, p: int, i: int)
    requires HashOk(handler, index, next, hashMap, chains, inUse)
    requires 0 <= b < |handler| && handler[b] == NULL && 0 <= p < |hashMap| && inUse[p] && 0 <= i < HASH_SIZE
    ensures HashOk(handler[b := p], index[b := i], next[b := hashMap[p][i]], hashMap[p := hashMap[p][i := b]],
                   chains[p := chains[p][i := [b] + chains[p][i]]], inUse)
  {
    assert SlotOk(handler, index, next, hashMap, chains, p, i);
    ChainPush(hashMap[p][i], next, chains[p][i], b);
    var handler', index', next' := handler[b := p], index[b := i], next[b := hashMap[p][i]];
    var hashMap', chains' := hashMap[p := hashMap[p][i := b]], chains[p := chains[p][i := [b] + chains[p][i]]];
    forall q, j {:trigger SlotOk(handler', index', next', hashMap', chains', q, j)} | 0 <= q < |hashMap| && inUse[q] && 0 <= j < HASH_SIZE
      ensures SlotOk(handler', index', next', hashMap', chains', q, j)
    {
      assert SlotOk(handler, index, next, hashMap, chains, q, j);
      if q != p || j != i {
        ChainFrame(hashMap[q][j], next, chains[q][j], b, hashMap[p][i]);
      }
    }
  }

  lemma UnregisterKeepsHash(handler: seq<int>, index: seq<int>, next: seq<int>, hashMap: seq<seq<int>>,
                            chains: seq<seq<seq<int>>>, inUse: seq<bool>, b: int, p: int, i: int, k: nat, next': seq<int>, head: int)
    requires HashOk(handler, index, next, hashMap, chains, inUse) && |next'| == |next|
    requires 0 <= b < |handler| && handler[b] == p && index[b] == i && 0 <= p < |hashMap| && inUse[p] && 0 <= i < HASH_SIZE
    requires k < |chains[p][i]| && chains[p][i][k] == b
    requires forall c :: 0 <= c < |next| && c !in chains[p][i] ==> next'[c] == next[c]
    requires Chain(head, next', Without(chains[p][i], k))
    ensures HashOk(handler[b := NULL], index, next', hashMap[p := hashMap[p][i := head]],
                   chains[p := chains[p][i := Without(chains[p][i], k)]], inUse)
  {
    var s := chains[p][i];
    assert SlotOk(handler, index, next, hashMap, chains, p, i);
    WithoutMembers(s, k);
    var handler' := handler[b := NULL];
    var hashMap', chains' := hashMap[p := hashMap[p][i := head]], chains[p := chains[p][i := Without(s, k)]];
    forall q, j {:trigger SlotOk(handler', index, next', hashMap', chains', q, j)} | 0 <= q < |hashMap| && inUse[q] && 0 <= j < HASH_SIZE
      ensures SlotOk(handler', index, next', hashMap', chains', q, j)
    {
      assert SlotOk(handler, index, next, hashMap, chains, q, j);
    }
  }

  // ---- the write map ----

  /** The blocks registered in page `p` that were translated from its byte `i`. */
  ghost function CoverSet(handler: seq<int>, source: seq<map<int, int>>, p: int, i: int): set<int>
    requires |handler| == |source|
  {
    set b | 0 <= b < |handler| && handler[b] == p && i in source[b]
  }

  ghost function Members(handler: seq<int>, p: int): set<int> { set b | 0 <= b < |handler| && handler[b] == p }

  ghost predicate WriteMapOk(handler: seq<int>, source: seq<map<int, int>>, writeMap: seq<seq<int>>, inUse: seq<bool>)
    requires |handler| == |source| && |writeMap| == |inUse|
  {
    && (forall p :: 0 <= p < |writeMap| ==> |writeMap[p]| == PAGE_SIZE)
    && (forall p, i {:trigger writeMap[p][i]} :: 0 <= p < |writeMap| && inUse[p] && 0 <= i < PAGE_SIZE ==>
          writeMap[p][i] == |CoverSet(handler, source, p, i)| && writeMap[p][i] <= 255)
  }

  ghost predicate ActiveOk(handler: seq<int>, active: seq<int>, inUse: seq<bool>)
    requires |active| == |inUse|
  {
    forall p :: 0 <= p < |active| && inUse[p] ==> active[p] == |Members(handler, p)|
  }

  lemma UnregisterCounts(handler: seq<int>, source: seq<map<int, int>>, b: int, p: int, i: int)
    requires |handler| == |source| && 0 <= b < |handler| && handler[b] == p != NULL
    ensures |CoverSet(handler[b := NULL], source, p, i)| == |CoverSet(handler, source, p, i)| - (if i in source[b] then 1 else 0)
    ensures |Members(handler[b := NULL], p)| == |Members(handler, p)| - 1
  {
    assert CoverSet(handler[b := NULL], source, p, i) == CoverSet(handler, source, p, i) - {b};
    assert Members(handler[b := NULL], p) == Members(handler, p) - {b};
  }

  lemma UnregisterKeepsWriteMap(handler: seq<int>, source: seq<map<int, int>>, writeMap: seq<seq<int>>, inUse: seq<bool>,
                                b: int, p: int, row: seq<int>)
    requires |handler| == |source| && 0 <= b < |handler| && handler[b] == p && 0 <= p < |writeMap| == |inUse| && inUse[p]
    requires WriteMapOk(handler, source, writeMap, inUse) && |row| == PAGE_SIZE
    requires forall i :: 0 <= i < PAGE_SIZE ==> row[i] == writeMap[p][i] - (if i in source[b] then 1 else 0)
    ensures WriteMapOk(handler[b := NULL], source, writeMap[p := row], inUse)
  {
    var handler', writeMap' := handler[b := NULL], writeMap[p := row];
    forall q, i {:trigger writeMap'[q][i]} | 0 <= q < |writeMap| && inUse[q] && 0 <= i < PAGE_SIZE
      ensures writeMap'[q][i] == |CoverSet(handler', source, q, i)| && writeMap'[q][i] <= 255
    {
      if q == p {
        UnregisterCounts(handler, source, b, p, i);
      } else {
        assert CoverSet(handler', source, q, i) == CoverSet(handler, source, q, i);
      }
    }
  }

  lemma UnregisterKeepsActive(handler: seq<int>, active: seq<int>, inUse: seq<bool>, b: int, p: int)
    requires 0 <= b < |handler| && handler[b] == p && 0 <= p < |active| == |inUse| && inUse[p] && ActiveOk(handler, active, inUse)
    ensures active[p] > 0 && ActiveOk(handler[b := NULL], active[p := active[p] - 1], inUse)
  {
    assert b in Members(handler, p);
    var handler', active' := handler[b := NULL], active[p := active[p] - 1];
    forall q {:trigger active'[q]} | 0 <= q < |active| && inUse[q] ensures active'[q] == |Members(handler', q)| {
      assert Members(handler', q) == Members(handler, q) - (if q == p then {b} else {});
    }
  }

  lemma RegisterKeepsCounts(handler: seq<int>, source: seq<map<int, int>>, writeMap: seq<seq<int>>, active: seq<int>, inUse: seq<bool>,
                            b: int, p: int)
    requires |handler| == |source| && 0 <= b < |handler| && handler[b] == NULL && 0 <= p < |active| == |writeMap| == |inUse|
    requires WriteMapOk(handler, source, writeMap, inUse) && ActiveOk(handler, active, inUse)
    ensures WriteMapOk(handler[b := p], source[b := map[]], writeMap, inUse)
    ensures ActiveOk(handler[b := p], active[p := active[p] + 1], inUse)
  {
    var handler', source', active' := handler[b := p], source[b := map[]], active[p := active[p] + 1];
    forall q, i {:trigger writeMap[q][i]} | 0 <= q < |writeMap| && inUse[q] && 0 <= i < PAGE_SIZE
      ensures writeMap[q][i] == |CoverSet(handler', source', q, i)| && writeMap[q][i] <= 255
    {
      assert CoverSet(handler', source', q, i) == CoverSet(handler, source, q, i);
    }
    forall q {:trigger active'[q]} | 0 <= q < |active| && inUse[q] ensures active'[q] == |Members(handler', q)| {
      assert Members(handler', q) == Members(handler, q) + (if q == p then {b} else {});
    }
  }

  /** The counters after a fetch of `n` bytes at `i`: 0x01, 0x0101 or 0x01010101 is added to all of them as one number. */
  function Counted(row: seq<int>, i: nat, n: nat, carry: int): (r: seq<int>)
    requires i + n <= |row|
    ensures |r| == |row|
    decreases n
  {
    if n == 0 then row else
      var v := row[i] + 1 + carry;
      Counted(row[i := v % 256], i + 1, n - 1, v / 256)
  }

  /** The counters have room for one more block. */
  predicate Roomy(row: seq<int>, i: nat, n: nat)
    requires i + n <= |row|
  { forall j :: i <= j < i + n ==> row[j] < 255 }

  lemma {:induction false} CountedElsewhere(row: seq<int>, i: nat, n: nat, carry: int)
    requires i + n <= |row|
    ensures forall j :: 0 <= j < |row| && !(i <= j < i + n) ==> Counted(row, i, n, carry)[j] == row[j]
    decreases n
  {
    if n > 0 {
      var v := row[i] + 1 + carry;
      CountedElsewhere(row[i := v % 256], i + 1, n - 1, v / 256);
    }
  }

  /** Each counter goes up by one; or the lowest full one goes to zero and carries into the next. */
  lemma {:induction false} CountedUp(row: seq<int>, i: nat, n: nat)
    requires i + n <= |row| && forall j :: i <= j < i + n ==> 0 <= row[j] <= 255
    ensures Roomy(row, i, n) ==> forall j :: i <= j < i + n ==> Counted(row, i, n, 0)[j] == row[j] + 1
    ensures !Roomy(row, i, n) ==> exists j :: i <= j < i + n && row[j] == 255 && Counted(row, i, n, 0)[j] == 0
    decreases n
  {
    if n > 0 {
      var v := row[i] + 1;
      CountedElsewhere(row[i := v % 256], i + 1, n - 1, v / 256);
      if row[i] < 255 {
        assert v % 256 == v && v / 256 == 0;
        CountedUp(row[i := v], i + 1, n - 1);
      }
    }
  }

  /** The bytes `vals` at `i` are among those that a block was translated from. */
  function Recorded(source: map<int, int>, i: nat, vals: seq<int>): (m: map<int, int>)
    ensures forall k :: k in m <==> k in source || i <= k < i + |vals|
    ensures forall k :: k in m ==> m[k] == if i <= k < i + |vals| then vals[k - i] else source[k]
    decreases |vals|
  {
    if vals == [] then source else Recorded(source[i := vals[0]], i + 1, vals[1..])
  }

  lemma RecordedCovers(handler: seq<int>, source: seq<map<int, int>>, b: int, p: int, i: nat, vals: seq<int>, q: int, j: int)
    requires |handler| == |source| && 0 <= b < |handler| && handler[b] == p
    requires forall k :: i <= k < i + |vals| ==> k !in source[b]
    ensures |CoverSet(handler, source[b := Recorded(source[b], i, vals)], q, j)| ==
            |CoverSet(handler, source, q, j)| + (if q == p && i <= j < i + |vals| then 1 else 0)
  {
    assert CoverSet(handler, source[b := Recorded(source[b], i, vals)], q, j) ==
           CoverSet(handler, source, q, j) + (if q == p && i <= j < i + |vals| then {b} else {});
  }

  /** The bytes `vals` were translated into block `b` of page `p`.  The counters are bytes, and nobody looks whether they
      are full: the map is right afterwards if and only if none of them was. */
  lemma FetchKeepsWriteMap(handler: seq<int>, source: seq<map<int, int>>, writeMap: seq<seq<int>>, inUse: seq<bool>,
                           b: int, p: int, i: nat, vals: seq<int>)
    requires |handler| == |source| && 0 <= b < |handler| && handler[b] == p && 0 <= p < |writeMap| == |inUse|
    requires WriteMapOk(handler, source, writeMap, inUse) && inUse[p]
    requires i + |vals| <= PAGE_SIZE && forall k :: i <= k < i + |vals| ==> k !in source[b]
    ensures WriteMapOk(handler, source[b := Recorded(source[b], i, vals)], writeMap[p := Counted(writeMap[p], i, |vals|, 0)], inUse) <==>
            Roomy(writeMap[p], i, |vals|)
  {
    var row := writeMap[p];
    var source', writeMap' := source[b := Recorded(source[b], i, vals)], writeMap[p := Counted(row, i, |vals|, 0)];
    forall j | 0 <= j < PAGE_SIZE ensures 0 <= row[j] <= 255 {
      assert row[j] == |CoverSet(handler, source, p, j)|;
    }
    CountedUp(row, i, |vals|);
    CountedElsewhere(row, i, |vals|, 0);
    hide Counted, Recorded, CoverSet;
    if Roomy(row, i, |vals|) {
      forall q, j {:trigger writeMap'[q][j]} | 0 <= q < |writeMap| && inUse[q] && 0 <= j < PAGE_SIZE
        ensures writeMap'[q][j] == |CoverSet(handler, source', q, j)| && writeMap'[q][j] <= 255
      {
        RecordedCovers(handler, source, b, p, i, vals, q, j);
      }
    } else {
      var j :| i <= j < i + |vals| && row[j] == 255 && Counted(row, i, |vals|, 0)[j] == 0;
      RecordedCovers(handler, source, b, p, i, vals, p, j);
      assert writeMap'[p][j] == 0;
    }
  }

  /** Some byte of `lo..hi` was translated, as far as the counters tell. */
  predicate SeesCode(row: seq<int>, lo: int, hi: int)
    requires 0 <= lo <= hi < |row|
  { exists i :: lo <= i <= hi && row[i] != 0 }

  lemma SetupKeeps(handler: seq<int>, index: seq<int>, next: seq<int>, source: seq<map<int, int>>, hashMap: seq<seq<int>>,
                   writeMap: seq<seq<int>>, active: seq<int>, chains: seq<seq<seq<int>>>, inUse: seq<bool>, p: int)
    requires HashOk(handler, index, next, hashMap, chains, inUse) && |source| == |handler|
    requires |writeMap| == |active| == |inUse| && 0 <= p < |inUse| && !inUse[p]
    requires WriteMapOk(handler, source, writeMap, inUse) && ActiveOk(handler, active, inUse)
    requires forall b :: 0 <= b < |handler| ==> handler[b] != p
    ensures HashOk(handler, index, next, hashMap[p := seq(HASH_SIZE, _ => NULL)], chains[p := seq(HASH_SIZE, _ => [])], inUse[p := true])
    ensures WriteMapOk(handler, source, writeMap[p := seq(PAGE_SIZE, _ => 0)], inUse[p := true])
    ensures ActiveOk(handler, active[p := 0], inUse[p := true])
  {
    var hashMap', chains', inUse' := hashMap[p := seq(HASH_SIZE, _ => NULL)], chains[p := seq(HASH_SIZE, _ => [])], inUse[p := true];
    forall q, i {:trigger SlotOk(handler, index, next, hashMap', chains', q, i)} | 0 <= q < |hashMap| && inUse'[q] && 0 <= i < HASH_SIZE
      ensures SlotOk(handler, index, next, hashMap', chains', q, i)
    {
      assert q != p ==> SlotOk(handler, index, next, hashMap, chains, q, i);
    }
    assert forall i :: CoverSet(handler, source, p, i) == {};
    assert Members(handler, p) == {};
  }

  lemma DetachKeeps(handler: seq<int>, index: seq<int>, next: seq<int>, source: seq<map<int, int>>, hashMap: seq<seq<int>>,
                    writeMap: seq<seq<int>>, active: seq<int>, chains: seq<seq<seq<int>>>, inUse: seq<bool>, b: int, p: int)
    requires HashOk(handler, index, next, hashMap, chains, inUse) && |source| == |handler|
    requires |writeMap| == |active| == |inUse| && 0 <= p < |inUse| && !inUse[p] && 0 <= b < |handler| && handler[b] == p
    requires WriteMapOk(handler, source, writeMap, inUse) && ActiveOk(handler, active, inUse)
    ensures HashOk(handler[b := NULL], index, next, hashMap, chains, inUse)
    ensures WriteMapOk(handler[b := NULL], source, writeMap, inUse)
    ensures ActiveOk(handler[b := NULL], active, inUse)
  {
    var handler' := handler[b := NULL];
    forall q, i {:trigger SlotOk(handler', index, next, hashMap, chains, q, i)} | 0 <= q < |hashMap| && inUse[q] && 0 <= i < HASH_SIZE
      ensures SlotOk(handler', index, next, hashMap, chains, q, i)
    {
      assert SlotOk(handler, index, next, hashMap, chains, q, i);
    }
    forall q, i {:trigger writeMap[q][i]} | 0 <= q < |writeMap| && inUse[q] && 0 <= i < PAGE_SIZE
      ensures writeMap[q][i] == |CoverSet(handler', source, q, i)| && writeMap[q][i] <= 255
    {
      assert CoverSet(handler', source, q, i) == CoverSet(handler, source, q, i);
    }
    forall q {:trigger active[q]} | 0 <= q < |active| && inUse[q] ensures active[q] == |Members(handler', q)| {
      assert Members(handler', q) == Members(handler, q);
    }
  }

  class CodePageTable {
    // the blocks: page.handler, hash.index, hash.next, page.start/end and write mask
    var handler: seq<int>
    var index: seq<int>
    var next: seq<int>
    var span: seq<Span>
    // the pages; one that is not in use waits in `free_pages` with stale maps
    var inUse: seq<bool>
    var hashMap: seq<seq<int>>
    var writeMap: seq<seq<int>>
    var active: seq<int>
    var countdown: seq<int>       // active_count: how many more idle writes until the page is released
    // the lists behind hashMap, and the bytes each block was translated from
    ghost var chains: seq<seq<seq<int>>>
    ghost var source: seq<map<int, int>>

    ghost predicate Valid()
      reads this
    {
      && |source| == |handler| == |span|
      && |hashMap| == |writeMap| == |active| == |countdown| == |inUse|
      && HashOk(handler, index, next, hashMap, chains, inUse)
      && WriteMapOk(handler, source, writeMap, inUse)
      && ActiveOk(handler, active, inUse)
      && (forall p :: 0 <= p < |countdown| && inUse[p] ==> countdown[p] > 0)
    }

    constructor (blocks: nat, pageCount: nat)
      ensures Valid() && |inUse| == pageCount && |handler| == blocks
      ensures forall p :: 0 <= p < pageCount ==> !inUse[p]
      ensures forall b :: 0 <= b < blocks ==> handler[b] == NULL && span[b].mask == []
    {
      handler, index, next := seq(blocks, _ => NULL), seq(blocks, _ => 0), seq(blocks, _ => NULL);
      span, source := seq(blocks, _ => Span(0, 0, 0, [])), seq(blocks, _ => map[]);
      inUse := seq(pageCount, _ => false);
      hashMap, writeMap := seq(pageCount, _ => seq(HASH_SIZE, _ => NULL)), seq(pageCount, _ => seq(PAGE_SIZE, _ => 0));
      active, countdown := seq(pageCount, _ => 0), seq(pageCount, _ => 0);
      chains := seq(pageCount, _ => seq(HASH_SIZE, _ => []));
    }

    /** CodePageHandler::AddCacheBlock (slot from the start offset) and AddCrossBlock (slot 0). */
    method AddBlock(b: int, p: int, i: int)
      requires Valid() && 0 <= b < |handler| && handler[b] == NULL
      requires 0 <= p < |hashMap| && inUse[p] && 0 <= i < HASH_SIZE
      modifies this`handler, this`index, this`next, this`hashMap, this`active, this`chains, this`source
      ensures Valid()
      ensures handler == old(handler)[b := p] && index == old(index)[b := i] && source == old(source)[b := map[]]
      ensures hashMap == old(hashMap)[p := old(hashMap[p])[i := b]] && next == old(next)[b := old(hashMap[p][i])]
      ensures active == old(active)[p := old(active[p]) + 1]
    {
      RegisterKeepsHash(handler, index, next, hashMap, chains, inUse, b, p, i);
      RegisterKeepsCounts(handler, source, writeMap, active, inUse, b, p);
      next := next[b := hashMap[p][i]];
      index := index[b := i];
      chains := chains[p := chains[p][i := [b] + chains[p][i]]];
      hashMap := hashMap[p := hashMap[p][i := b]];
      handler := handler[b := p];
      source := source[b := map[]];
      active := active[p := active[p] + 1];
    }

    /** decode_fetchb, decode_fetchw and decode_fetchd: count the bytes at `i` and translate their values. */
    method Fetch(b: int, p: int, i: nat, vals: seq<int>)
      requires Valid() && 0 <= b < |handler| && handler[b] == p && 0 <= p < |inUse| && inUse[p]
      requires i + |vals| <= PAGE_SIZE && forall k :: i <= k < i + |vals| ==> k !in source[b]
      modifies this`writeMap, this`source
      ensures Valid() <==> old(Roomy(writeMap[p], i, |vals|))
      ensures source == old(source)[b := Recorded(old(source[b]), i, vals)]
      ensures writeMap == old(writeMap)[p := Counted(old(writeMap[p]), i, |vals|, 0)]
    {
      assert |writeMap[p]| == PAGE_SIZE;
      hide Counted, Recorded, Roomy, WriteMapOk;
      FetchKeepsWriteMap(handler, source, writeMap, inUse, b, p, i, vals);
      writeMap := writeMap[p := Counted(writeMap[p], i, |vals|, 0)];
      source := source[b := Recorded(source[b], i, vals)];
    }

    /** `page.start`, `page.end` and the write mask of a block. */
    method SetSpan(b: int, s: Span)
      requires Valid() && 0 <= b < |handler|
      modifies this`span
      ensures Valid() && span == old(span)[b := s]
    {
      span := span[b := s];
    }

    /** CodePageHandler::SetupAt for a page from the free list: empty maps. */
    method SetupAt(p: int)
      requires Valid() && 0 <= p < |inUse| && !inUse[p]
      requires forall b :: 0 <= b < |handler| ==> handler[b] != p
      modifies this`inUse, this`hashMap, this`writeMap, this`active, this`countdown, this`chains
      ensures Valid() && inUse == old(inUse)[p := true] && |hashMap| == old(|hashMap|)
      ensures countdown == old(countdown)[p := 16]
    {
      SetupKeeps(handler, index, next, source, hashMap, writeMap, active, chains, inUse, p);
      inUse := inUse[p := true];
      active, countdown := active[p := 0], countdown[p := 16];
      hashMap := hashMap[p := seq(HASH_SIZE, _ => NULL)];
      writeMap := writeMap[p := seq(PAGE_SIZE, _ => 0)];
      chains := chains[p := seq(HASH_SIZE, _ => [])];
    }

    /** `block->page.handler = nullptr` in ClearRelease, for a page that is being emptied. */
    method Detach(b: int, p: int)
      requires Valid() && 0 <= b < |handler| && handler[b] == p && 0 <= p < |inUse| && !inUse[p]
      modifies this`handler
      ensures Valid() && handler == old(handler)[b := NULL]
    {
      DetachKeeps(handler, index, next, source, hashMap, writeMap, active, chains, inUse, b, p);
      handler := handler[b := NULL];
    }

    /** CodePageHandler::Release: the page goes to the free list, its maps are forgotten. */
    method Release(p: int)
      requires Valid() && 0 <= p < |inUse|
      modifies this`inUse
      ensures Valid() && inUse == old(inUse)[p := false]
    {
      inUse := inUse[p := false];
      forall q, i {:trigger SlotOk(handler, index, next, hashMap, chains, q, i)} | 0 <= q < |hashMap| && inUse[q] && 0 <= i < HASH_SIZE
        ensures SlotOk(handler, index, next, hashMap, chains, q, i)
      {
        assert old(inUse)[q];
      }
    }

    /** One write to a page without blocks: it is given up when the countdown reaches zero. */
    method CountIdleWrite(p: int) returns (release: bool)
      requires Valid() && 0 <= p < |inUse| && inUse[p]
      modifies this`countdown, this`inUse
      ensures Valid() && release == (old(countdown[p]) == 1)
      ensures inUse == if release then old(inUse)[p := false] else old(inUse)
      ensures countdown == old(countdown)[p := old(countdown[p]) - 1]
    {
      release := countdown[p] == 1;
      if release {
        Release(p);
      }
      countdown := countdown[p := countdown[p] - 1];
    }

    /** CodePageHandler::FindCacheBlock: the hash lookup finds a block iff one that begins in the page starts there. */
    method FindCacheBlock(p: int, offset: nat) returns (block: int)
      requires Valid() && 0 <= p < |inUse| && inUse[p] && offset < PAGE_SIZE
      requires forall b :: 0 <= b < |handler| && handler[b] == p && index[b] != 0 ==> index[b] == HashSlot(span[b].start)
      ensures block == NULL <==> forall b :: 0 <= b < |handler| && handler[b] == p && index[b] != 0 ==> span[b].start != offset
      ensures block != NULL ==> 0 <= block < |handler| && handler[block] == p && index[block] != 0 && span[block].start == offset
    {
      var i := HashSlot(offset);
      assert SlotOk(handler, index, next, hashMap, chains, p, i);
      block := hashMap[p][i];
      ghost var rest := chains[p][i];
      while block != NULL
        invariant Chain(block, next, rest)
        invariant forall b <- rest :: 0 <= b < |handler| && handler[b] == p && index[b] == i
        invariant forall b :: 0 <= b < |handler| && handler[b] == p && index[b] == i && span[b].start == offset ==> b in rest
        decreases |rest|
      {
        ChainTail(block, next, rest);
        if span[block].start == offset {
          return;
        }
        block := next[block];
        rest := rest[1..];
      }
    }

    /** The walk of DelCacheBlock: unlink `b` from its slot. */
    method UnlinkSlot(b: int, p: int)
      requires 0 <= b < |handler| && handler[b] == p && 0 <= p < |hashMap|
      requires HashOk(handler, index, next, hashMap, chains, inUse) && inUse[p]
      modifies this`next, this`hashMap, this`chains
      ensures HashOk(handler[b := NULL], index, next, hashMap, chains, inUse)
      ensures |hashMap| == old(|hashMap|) && RowsKept(old(hashMap), hashMap, {p})
      ensures RelinkedOnly(old(next), next, {b})
    {
      var i := index[b];
      assert SlotOk(handler, index, next, hashMap, chains, p, i);
      ghost var s := chains[p][i];
      ghost var k := Position(s, b);
      var where, cur := FindLink(hashMap[p][i], next, b, s);
      if where == NULL {
        ChainDropHead(hashMap[p][i], next, s);
        hashMap := hashMap[p := hashMap[p][i := next[b]]];
      } else {
        ChainSplice(hashMap[p][i], next, s, k);
        next := next[where := next[b]];
        assert hashMap[p][i := hashMap[p][i]] == hashMap[p];
      }
      UnregisterKeepsHash(handler, index, old(next), old(hashMap), chains, inUse, b, p, i, k, next, hashMap[p][i]);
      assert hashMap == old(hashMap)[p := old(hashMap)[p][i := hashMap[p][i]]];
      chains := chains[p := chains[p][i := Drop(s, b)]];
    }

    /** DeleteWriteMask */
    method DropMask(b: int)
      requires Valid() && 0 <= b < |handler|
      modifies this`span
      ensures Valid() && span == old(span)[b := old(span[b]).(mask := [])]
    {
      span := span[b := span[b].(mask := [])];
    }

    /** CodePageHandler::DelCacheBlock followed by `page.handler = nullptr` and DeleteWriteMask. */
    method DelBlock(b: int)
      requires Valid() && 0 <= b < |handler| && 0 <= handler[b] < |hashMap| && inUse[handler[b]]
      requires Sealed(span[b], source[b])
      modifies this`handler, this`next, this`span, this`hashMap, this`writeMap, this`active, this`countdown, this`chains
      ensures Valid() && handler == old(handler)[b := NULL]
      ensures |hashMap| == old(|hashMap|) && RowsKept(old(hashMap), hashMap, {old(handler[b])})
      ensures RelinkedOnly(old(next), next, {b})
      ensures span == old(span)[b := old(span[b]).(mask := [])] && countdown == old(countdown)[old(handler[b]) := 16]
    {
      var p := handler[b];
      UnregisterKeepsActive(handler, active, inUse, b, p);
      active := active[p := active[p] - 1];
      countdown := countdown[p := 16];
      UnlinkSlot(b, p);
      var row := Uncount(writeMap[p], span[b]);
      UncountExact(handler, source, writeMap, inUse, b, p, span[b], row);
      UnregisterKeepsWriteMap(handler, source, writeMap, inUse, b, p, row);
      writeMap := writeMap[p := row];
      span := span[b := span[b].(mask := [])];
      handler := handler[b := NULL];
    }
  }

  /** The hash maps of the pages other than `changed` are as before. */
  ghost predicate RowsKept(hashMap: seq<seq<int>>, hashMap': seq<seq<int>>, changed: set<int>)
  {
    |hashMap'| == |hashMap| && forall p :: 0 <= p < |hashMap| && p !in changed ==> hashMap'[p] == hashMap[p]
  }

  /** Only list elements whose successor was one of `gone` got a new successor. */
  ghost predicate RelinkedOnly(next: seq<int>, next': seq<int>, gone: set<int>)
  {
    |next'| == |next| && forall x :: 0 <= x < |next| ==> next'[x] == next[x] || next[x] in gone
  }

  /** The finished block covers exactly the bytes it was translated from. */
  ghost predicate Sealed(s: Span, source: map<int, int>) {
    && 0 <= s.start < PAGE_SIZE && s.end < PAGE_SIZE
    && (s.mask != [] ==> s.start <= s.maskStart <= s.end + 1)
    && (forall i :: i in source <==> Covers(s, i))
  }

  lemma UncountExact(handler: seq<int>, source: seq<map<int, int>>, writeMap: seq<seq<int>>, inUse: seq<bool>,
                     b: int, p: int, s: Span, row: seq<int>)
    requires |handler| == |source| && |writeMap| == |inUse| && 0 <= b < |handler| && handler[b] == p && 0 <= p < |writeMap| && inUse[p]
    requires WriteMapOk(handler, source, writeMap, inUse) && Sealed(s, source[b]) && |row| == PAGE_SIZE
    requires forall i :: 0 <= i < PAGE_SIZE ==> row[i] == if Covers(s, i) && writeMap[p][i] != 0 then writeMap[p][i] - 1 else writeMap[p][i]
    ensures forall i :: 0 <= i < PAGE_SIZE ==> row[i] == writeMap[p][i] - (if i in source[b] then 1 else 0)
  {
    forall i | 0 <= i < PAGE_SIZE && i in source[b] ensures writeMap[p][i] != 0 {
      assert b in CoverSet(handler, source, p, i);
    }
  }

  /** The write map part of DelCacheBlock: the bytes before the mask, then the unmasked ones after it. */
  method Uncount(row: seq<int>, s: Span) returns (r: seq<int>)
    requires |row| == PAGE_SIZE && 0 <= s.start && s.end < PAGE_SIZE
    requires s.mask != [] ==> s.start <= s.maskStart <= s.end + 1
    ensures |r| == PAGE_SIZE
    ensures forall i :: 0 <= i < PAGE_SIZE ==> r[i] == if Covers(s, i) && row[i] != 0 then row[i] - 1 else row[i]
  {
    r := row;
    if s.mask != [] {
      var i := s.start;
      while i < s.maskStart
        invariant s.start <= i <= s.maskStart && |r| == PAGE_SIZE
        invariant forall j :: 0 <= j < PAGE_SIZE ==> r[j] == if s.start <= j < i && row[j] != 0 then row[j] - 1 else row[j]
      {
        if r[i] != 0 {
          r := r[i := r[i] - 1];
        }
        i := i + 1;
      }
      var maskct := 0;
      i := s.maskStart;
      while i <= s.end
        invariant i == s.maskStart + maskct && s.maskStart <= i <= s.end + 1 && |r| == PAGE_SIZE
        invariant forall j :: 0 <= j < PAGE_SIZE ==> r[j] == if s.start <= j < i && !Masked(s, j) && row[j] != 0 then row[j] - 1 else row[j]
        decreases s.end - i
      {
        if r[i] != 0 {
          if maskct >= |s.mask| || s.mask[maskct] == 0 {
            r := r[i := r[i] - 1];
          }
        }
        i, maskct := i + 1, maskct + 1;
      }
    } else {
      var i := s.start;
      while i <= s.end
        invariant s.start <= i && |r| == PAGE_SIZE
        invariant forall j :: 0 <= j < PAGE_SIZE ==> r[j] == if s.start <= j < i && j <= s.end && row[j] != 0 then row[j] - 1 else row[j]
        decreases s.end - i
      {
        if r[i] != 0 {
          r := r[i := r[i] - 1];
        }
        i := i + 1;
      }
    }
  }
}
