/**
 The write mask of a cache block exempts operand bytes that keep changing from the
 write map (src/cpu/dyn_cache.h, CacheBlock::Cache).
 */
module WriteMasks {
  import opened CodePages

  const INITIAL_MASK_LEN: nat := 64

  /** The length GrowMaskForTypeAt picks when the mark would end at `end` and the mask has `len` bytes. */
  function GrownLength(len: nat, end: nat): nat
  {
    if end < len then len
    else if len * 4 < end then end / 4 * 4 * 2
    else len * 4
  }

  /** The new mask keeps the old marks and is zero beyond them. */
  ghost predicate Extends(mask: seq<nat>, mask': seq<nat>)
  {
    && |mask| <= |mask'|
    && (forall i :: 0 <= i < |mask| ==> mask'[i] == mask[i])
    && (forall i :: |mask| <= i < |mask'| ==> mask'[i] == 0)
  }

  /** CacheBlock::Cache::GrowWriteMask */
  method GrowWriteMask(mask: seq<nat>, newLength: nat) returns (mask': seq<nat>)
    requires newLength > |mask|
    ensures |mask'| == newLength && Extends(mask, mask')
  {
    var zeros: seq<nat> := seq(newLength, _ => 0);
    mask' := zeros;
    var i := 0;
    while i < |mask|
      invariant 0 <= i <= |mask| && |mask'| == newLength
      invariant forall j :: 0 <= j < newLength ==> mask'[j] == if j < i then mask[j] else 0
    {
      mask' := mask'[i := mask[i]];
      i := i + 1;
    }
  }

  /** CacheBlock::Cache::GrowMaskForTypeAt: afterwards the mark fits, no earlier mark is lost, and the length
      still is the 16-bit number it is stored in.  The assertion at the end of the function is stricter than that:
      on an existing mask it fails exactly for a mark that ends at four times the old length, as a dword 252 bytes
      after the first masked byte does. */
  method GrowMaskForTypeAt(s: Span, typeSize: nat, pageIndex: nat) returns (s': Span, offset: nat, asserted: bool)
    requires 1 <= typeSize <= 4 && pageIndex + typeSize <= PAGE_SIZE
    requires s.mask != [] ==> s.maskStart <= pageIndex && INITIAL_MASK_LEN <= |s.mask| <= 4 * PAGE_SIZE
    ensures s'.start == s.start && s'.end == s.end
    ensures s'.maskStart == if s.mask == [] then pageIndex else s.maskStart
    ensures offset == pageIndex - s'.maskStart && offset + typeSize <= |s'.mask|
    ensures Extends(s.mask, s'.mask) && INITIAL_MASK_LEN <= |s'.mask| <= 4 * PAGE_SIZE
    ensures |s'.mask| == if s.mask == [] then INITIAL_MASK_LEN else GrownLength(|s.mask|, offset + typeSize)
    ensures !asserted <==> s.mask != [] && offset + typeSize == 4 * |s.mask|
  {
    offset := 0;
    s' := s;
    if s.mask == [] {
      var mask := GrowWriteMask(s.mask, INITIAL_MASK_LEN);
      s' := s.(mask := mask, maskStart := pageIndex);
    } else {
      offset := pageIndex - s.maskStart;
      var end := offset + typeSize;
      if end >= |s.mask| {
        var newLength := |s.mask| * 4;
        if newLength < end {
          newLength := (end / 4 * 4) * 2;
        }
        var mask := GrowWriteMask(s.mask, newLength);
        s' := s.(mask := mask);
      }
    }
    asserted := offset + typeSize < |s'.mask|;
  }

  /** Such a dword: the mask is made for byte 0 and then has 64 bytes. */
  method StrictAssertionFails() returns (s: Span, offset: nat, asserted: bool)
    ensures offset == 252 && |s.mask| == 256 && !asserted
  {
    s, offset, asserted := GrowMaskForTypeAt(Span(0, 300, 0, []), 1, 0);
    s, offset, asserted := GrowMaskForTypeAt(s, 4, 252);
  }

  /** AddByteToWriteMaskAt, AddWordToWriteMaskAt, AddDwordToWriteMaskAt for bytes that carry no mark yet. */
  method AddToWriteMaskAt(s: Span, typeSize: nat, pageIndex: nat) returns (s': Span)
    requires 1 <= typeSize <= 4 && pageIndex + typeSize <= PAGE_SIZE
    requires s.mask != [] ==> s.maskStart <= pageIndex && INITIAL_MASK_LEN <= |s.mask| <= 4 * PAGE_SIZE
    requires forall i :: pageIndex <= i < pageIndex + typeSize ==> !Masked(s, i)
    ensures s'.start == s.start && s'.end == s.end && s'.mask != []
    ensures s'.maskStart == if s.mask == [] then pageIndex else s.maskStart
    ensures INITIAL_MASK_LEN <= |s'.mask| <= 4 * PAGE_SIZE
    ensures forall i :: Masked(s', i) <==> Masked(s, i) || pageIndex <= i < pageIndex + typeSize
  {
    var offset, asserted;
    s', offset, asserted := GrowMaskForTypeAt(s, typeSize, pageIndex);
    ghost var grown := s';
    assert forall i :: Masked(grown, i) <==> Masked(s, i);
    var k := 0;
    while k < typeSize
      invariant 0 <= k <= typeSize && s'.start == s.start && s'.end == s.end && s'.maskStart == grown.maskStart
      invariant |s'.mask| == |grown.mask|
      invariant forall j :: 0 <= j < |grown.mask| ==> s'.mask[j] == if offset <= j < offset + k then 1 else grown.mask[j]
    {
      assert !Masked(grown, pageIndex + k);
      s' := s'.(mask := s'.mask[offset + k := (s'.mask[offset + k] + 1) % 256]);
      k := k + 1;
    }
  }
}
