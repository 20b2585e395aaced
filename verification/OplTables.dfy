/**
 The register tables of the DBRAWOPL format and its command stream
 (src/audio/opl_capture.cpp).
 */
module OplTables {
  const NO_ENTRY: nat := 0xFF
  const RAW_USED: nat := 122
  const DELAY256: nat := 122
  const DELAY_SHIFT8: nat := 123

  /** Operator registers: of every eight, the first six are used. */
  predicate InOperators(r: nat, base: nat, i: nat) { base <= r < base + i && (r - base) % 8 < 6 }

  /** The registers that have an entry once `i` operator and `c` channel rows are in. */
  predicate Listed(r: nat, i: nat, c: nat) {
    || r == 0x01 || r == 0x04 || r == 0x05 || r == 0x08 || r == 0xBD
    || InOperators(r, 0x20, i) || InOperators(r, 0x40, i) || InOperators(r, 0x60, i) || InOperators(r, 0x80, i) || InOperators(r, 0xE0, i)
    || 0xA0 <= r < 0xA0 + c || 0xB0 <= r < 0xB0 + c || 0xC0 <= r < 0xC0 + c
  }

  /** The registers that a capture records. */
  predicate Recorded(r: nat) { Listed(r, 24, 9) }

  /** The first `used` raw codes and the registers that have a code are in one-to-one correspondence. */
  ghost predicate Inverse(toReg: seq<nat>, toRaw: seq<nat>, used: nat) {
    && |toReg| == 127 && |toRaw| == 256 && used <= 127
    && (forall k :: 0 <= k < used ==> toReg[k] < 256 && toRaw[toReg[k]] == k)
    && (forall r :: 0 <= r < 256 ==> toRaw[r] == NO_ENTRY || (toRaw[r] < used && toReg[toRaw[r]] == r))
  }

  /** Exactly the registers of the first rows have a code. */
  ghost predicate Covers(toRaw: seq<nat>, i: nat, c: nat) {
    |toRaw| == 256 && forall r :: 0 <= r < 256 ==> (toRaw[r] != NO_ENTRY <==> Listed(r, i, c))
  }

  lemma EntryKeepsInverse(toReg: seq<nat>, toRaw: seq<nat>, used: nat, r: nat)
    requires Inverse(toReg, toRaw, used) && used < 127 && r < 256 && toRaw[r] == NO_ENTRY
    ensures Inverse(toReg[used := r], toRaw[r := used], used + 1)
  {
  }

  class Tables {
    const toReg: array<nat>
    const toRaw: array<nat>
    var used: nat

    ghost predicate Valid()
      reads this, toReg, toRaw
    {
      toReg != toRaw && toReg.Length == 127 && toRaw.Length == 256 && Inverse(toReg[..], toRaw[..], used)
    }

    /** MakeEntry */
    method MakeEntry(r: nat)
      requires Valid() && used < 127 && r < 256 && toRaw[r] == NO_ENTRY
      modifies this`used, toReg, toRaw
      ensures Valid() && used == old(used) + 1
      ensures toRaw[..] == old(toRaw[..])[r := old(used)]
    {
      EntryKeepsInverse(toReg[..], toRaw[..], used, r);
      toReg[used] := r;
      toRaw[r] := used;
      assert toReg[..] == old(toReg[..])[used := r] && toRaw[..] == old(toRaw[..])[r := used];
      used := used + 1;
    }

    /** The five entries of operator row `i`. */
    method OperatorRow(i: nat)
      requires Valid() && used + 5 <= 127 && i < 24 && i % 8 < 6 && Covers(toRaw[..], i, 0)
      modifies this`used, toReg, toRaw
      ensures Valid() && used == old(used) + 5 && Covers(toRaw[..], i + 1, 0)
    {
      hide Inverse;
      MakeEntry(0x20 + i);
      MakeEntry(0x40 + i);
      MakeEntry(0x60 + i);
      MakeEntry(0x80 + i);
      MakeEntry(0xE0 + i);
    }

    method ChannelRow(c: nat)
      requires Valid() && used + 3 <= 127 && c < 9 && Covers(toRaw[..], 24, c)
      modifies this`used, toReg, toRaw
      ensures Valid() && used == old(used) + 3 && Covers(toRaw[..], 24, c + 1)
    {
      hide Inverse;
      MakeEntry(0xA0 + c);
      MakeEntry(0xB0 + c);
      MakeEntry(0xC0 + c);
    }

    /** MakeTables: 122 codes, one for each recorded register. */
    constructor ()
      ensures Valid() && used == RAW_USED && fresh(toReg) && fresh(toRaw)
      ensures Covers(toRaw[..], 24, 9)
    {
      toReg := new nat[127](_ => NO_ENTRY);
      toRaw := new nat[256](_ => NO_ENTRY);
      used := 0;
      new;
      FirstEntries();
      var i := 0;
      while i < 24
        invariant 0 <= i <= 24 && Valid() && fresh(toReg) && fresh(toRaw)
        invariant Covers(toRaw[..], i, 0) && used == 5 + 5 * Rows(i)
      {
        RowsBound(i);
        if i % 8 < 6 {
          OperatorRow(i);
        } else {
          SkipRow(toRaw[..], i);
        }
        i := i + 1;
      }
      var c := 0;
      while c < 9
        invariant 0 <= c <= 9 && Valid() && fresh(toReg) && fresh(toRaw)
        invariant Covers(toRaw[..], 24, c) && used == 95 + 3 * c
      {
        ChannelRow(c);
        c := c + 1;
      }
    }

    method FirstEntries()
      requires Valid() && used == 0 && forall r :: 0 <= r < 256 ==> toRaw[r] == NO_ENTRY
      modifies this`used, toReg, toRaw
      ensures Valid() && used == 5 && Covers(toRaw[..], 0, 0)
    {
      hide Inverse;
      MakeEntry(0x01);
      MakeEntry(0x04);
      MakeEntry(0x05);
      MakeEntry(0x08);
      MakeEntry(0xBD);
    }
  }

  /** The operator rows among the first `i`. */
  function Rows(i: nat): nat { 6 * (i / 8) + (if i % 8 < 6 then i % 8 else 6) }

  lemma RowsBound(i: nat)
    requires i < 24
    ensures Rows(i + 1) == Rows(i) + (if i % 8 < 6 then 1 else 0) && Rows(i) <= 18 && (i % 8 < 6 ==> Rows(i) <= 17)
  {
  }

  lemma SkipRow(toRaw: seq<nat>, i: nat)
    requires Covers(toRaw, i, 0) && i % 8 >= 6
    ensures Covers(toRaw, i + 1, 0)
  {
    forall r | 0 <= r < 256 ensures Listed(r, i + 1, 0) <==> Listed(r, i, 0) {
    }
  }
}
