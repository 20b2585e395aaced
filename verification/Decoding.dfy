/**
 What translating guest code does to the page tables: the decoder's fetch functions
 (src/cpu/core_dynrec/decoder_basic.h), one page at a time.
 */
module Decoding {
  import opened Chains
  import opened CodePages
  import opened WriteMasks

  /** The decoder reads `n` bytes; an operand that is known to change is not translated but masked. */
  datatype Fetch = Fetch(n: nat, masked: bool)

  predicate WellFormed(fetches: seq<Fetch>) { forall f <- fetches :: f.n == 1 || f.n == 2 || f.n == 4 }

  function Total(fetches: seq<Fetch>): nat { if fetches == [] then 0 else fetches[0].n + Total(fetches[1..]) }

  /** Block `b` of page `p` was translated from `row`, up to byte `end`, except for its masked bytes. */
  ghost predicate TranslatedUpTo(s: Span, source: map<int, int>, row: seq<int>, from: nat, end: nat)
  {
    && s.start == from <= end <= |row| == PAGE_SIZE
    && (s.mask != [] ==> from <= s.maskStart < end && INITIAL_MASK_LEN <= |s.mask| <= 4 * PAGE_SIZE)
    && (forall i :: Masked(s, i) ==> from <= i < end)
    && (forall i :: i in source <==> from <= i < end && !Masked(s, i))
    && (forall i :: i in source ==> 0 <= i < |row| && source[i] == row[i])
  }

  /** No operand is masked. */
  predicate AllPlain(fetches: seq<Fetch>) { forall f <- fetches :: !f.masked }

  /** Byte `i` is translated, not masked, when `fetches` are made from `from` on. */
  predicate Translated(fetches: seq<Fetch>, from: nat, i: nat) {
    fetches != [] &&
    ((!fetches[0].masked && from <= i < from + fetches[0].n) || Translated(fetches[1..], from + fetches[0].n, i))
  }

  /** The counters of the bytes that are going to be translated have room for one more block. */
  predicate Room(row: seq<int>, from: nat, fetches: seq<Fetch>)
    requires |row| == PAGE_SIZE
  { forall i :: 0 <= i < PAGE_SIZE && Translated(fetches, from, i) ==> row[i] < 255 }

  lemma {:induction false} TranslatedWithin(fetches: seq<Fetch>, from: nat, i: nat)
    requires Translated(fetches, from, i)
    ensures from <= i < from + Total(fetches)
  {
    if !(!fetches[0].masked && from <= i < from + fetches[0].n) {
      TranslatedWithin(fetches[1..], from + fetches[0].n, i);
    }
  }

  /** The first fetch leaves room for the others, since it counts bytes before theirs only. */
  lemma RoomAfter(row: seq<int>, row': seq<int>, from: nat, fetches: seq<Fetch>)
    requires |row| == |row'| == PAGE_SIZE && fetches != [] && Room(row, from, fetches)
    requires forall i :: from + fetches[0].n <= i < PAGE_SIZE ==> row'[i] == row[i]
    ensures Room(row', from + fetches[0].n, fetches[1..])
  {
    var next := from + fetches[0].n;
    forall i | 0 <= i < PAGE_SIZE && Translated(fetches[1..], next, i) ensures row'[i] < 255 {
      TranslatedWithin(fetches[1..], next, i);
      assert Translated(fetches, from, i);
    }
  }

  lemma Seal(s: Span, source: map<int, int>, row: seq<int>, from: nat, end: nat)
    requires TranslatedUpTo(s, source, row, from, end) && from < end
    ensures s.start == from
    ensures Sealed(s.(end := end - 1), source)
    ensures forall i :: i in source ==> 0 <= i < |row| && row[i] == source[i]
  {
    var t := s.(end := end - 1);
    forall i ensures i in source <==> Covers(t, i) {
      assert Masked(t, i) <==> Masked(s, i);
    }
  }

  lemma FetchStep(s: Span, source: map<int, int>, row: seq<int>, from: nat, end: nat, n: nat)
    requires TranslatedUpTo(s, source, row, from, end) && end + n <= PAGE_SIZE
    ensures forall k :: end <= k < end + n ==> k !in source
    ensures end + n <= |row| && TranslatedUpTo(s, Recorded(source, end, row[end..end + n]), row, from, end + n)
  {
  }

  lemma MaskStep(s: Span, s': Span, source: map<int, int>, row: seq<int>, from: nat, end: nat, n: nat)
    requires TranslatedUpTo(s, source, row, from, end) && 1 <= n && end + n <= PAGE_SIZE
    requires s'.start == s.start && s'.mask != [] && s'.maskStart == if s.mask == [] then end else s.maskStart
    requires INITIAL_MASK_LEN <= |s'.mask| <= 4 * PAGE_SIZE
    requires forall i :: Masked(s', i) <==> Masked(s, i) || end <= i < end + n
    ensures TranslatedUpTo(s', source, row, from, end + n)
  {
  }

  /** One fetch of the translation loop. */
  method TranslateFetch(t: CodePageTable, b: int, p: int, row: seq<int>, from: nat, index: nat, f: Fetch)
    requires t.Valid() && 0 <= b < |t.handler| && t.handler[b] == p && 0 <= p < |t.inUse| && t.inUse[p]
    requires TranslatedUpTo(t.span[b], t.source[b], row, from, index) && WellFormed([f]) && index + f.n <= PAGE_SIZE
    requires !f.masked ==> Roomy(t.writeMap[p], index, f.n)
    modifies t`writeMap, t`source, t`span
    ensures t.Valid() && t.source == old(t.source)[b := t.source[b]] && t.span == old(t.span)[b := t.span[b]]
    ensures TranslatedUpTo(t.span[b], t.source[b], row, from, index + f.n) && (!f.masked ==> t.span == old(t.span))
    ensures |t.writeMap| == old(|t.writeMap|) && |t.writeMap[p]| == PAGE_SIZE
    ensures forall i :: index + f.n <= i < PAGE_SIZE ==> t.writeMap[p][i] == old(t.writeMap[p][i])
    ensures forall r :: 0 <= r < |t.writeMap| && r != p ==> t.writeMap[r] == old(t.writeMap[r])
  {
    assert f in [f];
    assert t.source == t.source[b := t.source[b]] && t.span == t.span[b := t.span[b]];
    if f.masked {
      Unmarked(t.span[b], t.source[b], row, from, index);
      var s := AddToWriteMaskAt(t.span[b], f.n, index);
      MaskStep(t.span[b], s, t.source[b], row, from, index, f.n);
      t.SetSpan(b, s);
    } else {
      FetchStep(t.span[b], t.source[b], row, from, index, f.n);
      CountedElsewhere(t.writeMap[p], index, f.n, 0);
      t.Fetch(b, p, index, row[index..index + f.n]);
    }
  }

  /** The translation loop over one page: the block ends up covering exactly the unmasked bytes it passed,
      each with the value that memory holds. */
  method TranslatePart(t: CodePageTable, b: int, p: int, row: seq<int>, from: nat, fetches: seq<Fetch>) returns (index: nat)
    requires t.Valid() && 0 <= b < |t.handler| && t.handler[b] == p && 0 <= p < |t.inUse| && t.inUse[p]
    requires t.span[b].start == from && t.span[b].mask == [] && t.source[b] == map[]
    requires |row| == PAGE_SIZE && WellFormed(fetches) && from + Total(fetches) <= PAGE_SIZE
    requires Room(t.writeMap[p], from, fetches)
    modifies t`writeMap, t`source, t`span
    ensures t.Valid() && index == from + Total(fetches) && |t.writeMap| == old(|t.writeMap|)
    ensures forall r :: 0 <= r < |t.writeMap| && r != p ==> t.writeMap[r] == old(t.writeMap[r])
    ensures t.source == old(t.source)[b := t.source[b]] && t.span == old(t.span)[b := t.span[b]]
    ensures TranslatedUpTo(t.span[b], t.source[b], row, from, index)
    ensures AllPlain(fetches) ==> t.span[b].mask == []
  {
    index := from;
    var k := 0;
    assert fetches[0..] == fetches;
    assert t.source == t.source[b := t.source[b]] && t.span == t.span[b := t.span[b]];
    while k < |fetches|
      invariant 0 <= k <= |fetches| && t.Valid() && |t.source| == |t.handler| == |t.span|
      invariant |t.writeMap| == |t.inUse| && |t.writeMap[p]| == PAGE_SIZE
      invariant index + Total(fetches[k..]) == from + Total(fetches)
      invariant t.source == old(t.source)[b := t.source[b]] && t.span == old(t.span)[b := t.span[b]]
      invariant TranslatedUpTo(t.span[b], t.source[b], row, from, index)
      invariant Room(t.writeMap[p], index, fetches[k..])
      invariant |t.writeMap| == old(|t.writeMap|) && (AllPlain(fetches) ==> t.span[b].mask == [])
      invariant forall r :: 0 <= r < |t.writeMap| && r != p ==> t.writeMap[r] == old(t.writeMap[r])
      modifies t`writeMap, t`source, t`span
    {
      assert fetches[k..][1..] == fetches[k + 1..];
      hide TranslatedUpTo;
      ghost var counters := t.writeMap[p];
      FirstRoom(counters, index, fetches[k..]);
      TranslateFetch(t, b, p, row, from, index, fetches[k]);
      RoomAfter(counters, t.writeMap[p], index, fetches[k..]);
      index := index + fetches[k].n;
      k := k + 1;
    }
  }

  lemma FirstRoom(row: seq<int>, from: nat, fetches: seq<Fetch>)
    requires |row| == PAGE_SIZE && fetches != [] && Room(row, from, fetches) && from + fetches[0].n <= PAGE_SIZE
    ensures !fetches[0].masked ==> Roomy(row, from, fetches[0].n)
  {
    forall j | !fetches[0].masked && from <= j < from + fetches[0].n ensures row[j] < 255 {
      assert Translated(fetches, from, j);
    }
  }

  lemma Unmarked(s: Span, source: map<int, int>, row: seq<int>, from: nat, end: nat)
    requires TranslatedUpTo(s, source, row, from, end)
    ensures s.mask != [] ==> s.maskStart <= end && INITIAL_MASK_LEN <= |s.mask| <= 4 * PAGE_SIZE
    ensures forall i :: end <= i ==> !Masked(s, i)
  {
  }
}
