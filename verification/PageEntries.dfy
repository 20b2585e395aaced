/**
 Page directory and page table entries (src/cpu/paging.h, struct X86PageEntry) and
 the walk through them.
 */
module PageEntries {
  import opened Options

  type Dword = x: int | 0 <= x < 0x1_0000_0000

  const PAGE_COUNT: nat := 0x10_0000               // TLB_SIZE
  const LINK_START: nat := (1024 + 64) / 4

  datatype PageEntry = PageEntry(p: nat, wr: nat, us: nat, pwt: nat, pcd: nat, a: nat, d: nat, pat: nat, g: nat, avl: nat, base: nat)

  /** The widths of the bit fields. */
  predicate Fits(e: PageEntry) {
    && e.p < 2 && e.wr < 2 && e.us < 2 && e.pwt < 2 && e.pcd < 2 && e.a < 2 && e.d < 2 && e.pat < 2 && e.g < 2
    && e.avl < 8 && e.base < PAGE_COUNT
  }

  /** `value >> (n + 1)` and so on, bit by bit. */
  function Half(v: nat): nat { v / 2 }

  function Join(bit: nat, rest: nat): nat { bit + 2 * rest }

  /** X86PageEntry::set */
  function Set(v: Dword): (e: PageEntry)
    ensures Fits(e)
  {
    var r1 := Half(v);
    var r2 := Half(r1);
    var r3 := Half(r2);
    var r4 := Half(r3);
    var r5 := Half(r4);
    var r6 := Half(r5);
    var r7 := Half(r6);
    var r8 := Half(r7);
    var r9 := Half(r8);
    PageEntry(v % 2, r1 % 2, r2 % 2, r3 % 2, r4 % 2, r5 % 2, r6 % 2, r7 % 2, r8 % 2, r9 % 8, r9 / 8)
  }

  /** X86PageEntry::get */
  function Get(e: PageEntry): (v: Dword)
    requires Fits(e)
  {
    Join(e.p, Join(e.wr, Join(e.us, Join(e.pwt, Join(e.pcd, Join(e.a, Join(e.d, Join(e.pat, Join(e.g, e.avl + 8 * e.base)))))))))
  }

  lemma HalfJoin(bit: nat, rest: nat)
    requires bit < 2
    ensures Join(bit, rest) % 2 == bit && Half(Join(bit, rest)) == rest
  {
  }

  /** The weights of the bit fields. */
  lemma Layout(e: PageEntry)
    requires Fits(e)
    ensures Get(e) == e.p + 0x2 * e.wr + 0x4 * e.us + 0x8 * e.pwt + 0x10 * e.pcd + 0x20 * e.a + 0x40 * e.d + 0x80 * e.pat + 0x100 * e.g
                      + 0x200 * e.avl + 0x1000 * e.base
  {
  }

  /** Reading back what was stored gives the same entry. */
  lemma SetGet(e: PageEntry)
    requires Fits(e)
    ensures Set(Get(e)) == e
  {
    hide Half, Join;
    var r9 := e.avl + 8 * e.base;
    var r8 := Join(e.g, r9);
    var r7 := Join(e.pat, r8);
    var r6 := Join(e.d, r7);
    var r5 := Join(e.a, r6);
    var r4 := Join(e.pcd, r5);
    var r3 := Join(e.pwt, r4);
    var r2 := Join(e.us, r3);
    var r1 := Join(e.wr, r2);
    assert r9 % 8 == e.avl && r9 / 8 == e.base;
    HalfJoin(e.g, r9);
    HalfJoin(e.pat, r8);
    HalfJoin(e.d, r7);
    HalfJoin(e.a, r6);
    HalfJoin(e.pcd, r5);
    HalfJoin(e.pwt, r4);
    HalfJoin(e.us, r3);
    HalfJoin(e.wr, r2);
    HalfJoin(e.p, r1);
  }

  /** Storing back what was read gives the same dword. */
  lemma GetSet(v: Dword)
    ensures Get(Set(v)) == v
  {
  }

  // ---- the walk ----

  type Memory = map<nat, Dword>

  /** phys_readd */
  function Read(m: Memory, addr: nat): Dword { if addr in m then m[addr] else 0 }

  /** The dwords that the walk to page `lin` reads: see Indices. */
  function TableAddr(basePage: nat, lin: nat): nat { basePage * 4096 + lin / 1024 * 4 }

  function EntryAddr(table: PageEntry, lin: nat): nat { table.base * 4096 + lin % 1024 * 4 }

  /** The upper ten bits of a linear address are the index into the directory, the next ten the one into the table. */
  lemma Indices(basePage: nat, table: PageEntry, addr: nat)
    requires addr < 0x1_0000_0000
    ensures var lin := addr / 0x1000;
            && lin < PAGE_COUNT && lin == addr / 0x40_0000 * 0x400 + addr / 0x1000 % 0x400
            && TableAddr(basePage, lin) == basePage * 0x1000 + 4 * (addr / 0x40_0000) < basePage * 0x1000 + 0x1000
            && EntryAddr(table, lin) == table.base * 0x1000 + 4 * (addr / 0x1000 % 0x400) < table.base * 0x1000 + 0x1000
  {
  }

  /** The pages of one table follow each other in it, and so do the tables in the directory. */
  lemma NextIndex(basePage: nat, table: PageEntry, lin: nat)
    ensures lin % 1024 != 1023 ==>
              TableAddr(basePage, lin + 1) == TableAddr(basePage, lin) && EntryAddr(table, lin + 1) == EntryAddr(table, lin) + 4
    ensures TableAddr(basePage, lin + 1024) == TableAddr(basePage, lin) + 4 && EntryAddr(table, lin + 1024) == EntryAddr(table, lin)
  {
  }

  function TableOf(m: Memory, basePage: nat, lin: nat): (e: PageEntry)
    ensures Fits(e)
  { Set(Read(m, TableAddr(basePage, lin))) }

  function EntryOf(m: Memory, basePage: nat, lin: nat): (e: PageEntry)
    ensures Fits(e)
  { Set(Read(m, EntryAddr(TableOf(m, basePage, lin), lin))) }

  /** Equal up to the accessed and dirty bits. */
  predicate Alike(e: PageEntry, e': PageEntry) { e.(a := 0, d := 0) == e'.(a := 0, d := 0) }

  ghost predicate MemoryAlike(m: Memory, m': Memory) { forall addr: nat :: Alike(Set(Read(m, addr)), Set(Read(m', addr))) }

  /** Accessed and dirty bits were set, and nothing else was done. */
  predicate Raised(e: PageEntry, e': PageEntry) { Alike(e, e') && e.a <= e'.a && e.d <= e'.d }

  ghost predicate MemoryRaised(m: Memory, m': Memory) { forall addr: nat :: Raised(Set(Read(m, addr)), Set(Read(m', addr))) }

  lemma RaisedAlike(m: Memory, m': Memory)
    requires MemoryRaised(m, m')
    ensures MemoryAlike(m, m')
  {
  }

  lemma RaisedRefl(m: Memory)
    ensures MemoryRaised(m, m)
  {
  }

  lemma RaisedTwice(m: Memory, m1: Memory, m2: Memory)
    requires MemoryRaised(m, m1) && MemoryRaised(m1, m2)
    ensures MemoryRaised(m, m2)
  {
    hide Set, Read;
  }

  lemma WalkRaised(m: Memory, m': Memory, basePage: nat, lin: nat)
    requires MemoryRaised(m, m')
    ensures Raised(TableOf(m, basePage, lin), TableOf(m', basePage, lin))
    ensures Raised(EntryOf(m, basePage, lin), EntryOf(m', basePage, lin))
  {
    assert EntryAddr(TableOf(m, basePage, lin), lin) == EntryAddr(TableOf(m', basePage, lin), lin);
  }

  /** What an access to page `lin` does to memory: bit 5, accessed, is set in both of its entries, and bit 6, dirty, in that
      of the page if `dirty`.  The two entries may be the same dword. */
  ghost predicate Marks(m: Memory, m': Memory, basePage: nat, lin: nat, dirty: bool) {
    var table, entry := TableOf(m, basePage, lin), EntryOf(m, basePage, lin);
    forall x: nat {:trigger Read(m', x)} ::
      Read(m', x) == Read(m, x)
                     + (if (x == TableAddr(basePage, lin) && table.a == 0) || (x == EntryAddr(table, lin) && entry.a == 0) then 0x20 else 0)
                     + (if x == EntryAddr(table, lin) && entry.d == 0 && dirty then 0x40 else 0)
  }

  /** The bits of the entry `e` in its dword. */
  lemma BitsAdd(e: PageEntry)
    requires Fits(e)
    ensures Get(e.(a := 1)) == Get(e.(a := 0)) + 0x20 && Get(e.(d := 1)) == Get(e.(d := 0)) + 0x40
  {
  }

  lemma BitsOf(v: Dword, a: nat, d: nat)
    requires a < 2 && d < 2
    ensures var e := Set(v); Fits(e) && Get(e.(a := a, d := d)) == v + 0x20 * a - 0x20 * e.a + 0x40 * d - 0x40 * e.d
  {
    hide Set, Get;
    var e := Set(v);
    GetSet(v);
    BitsAdd(e);
    BitsAdd(e.(a := a));
    assert e.(a := e.a) == e && e.(a := a).(d := e.d) == e.(a := a);
  }

  /** What the stores of the two entries come to. */
  lemma MarkedBy(m: Memory, m1: Memory, m2: Memory, basePage: nat, lin: nat, dirty: bool)
    requires var table, ta := TableOf(m, basePage, lin), TableAddr(basePage, lin);
             m1 == if table.a == 0 then m[ta := Get(table.(a := 1))] else m
    requires var table, entry := TableOf(m, basePage, lin), EntryOf(m, basePage, lin);
             m2 == if entry.a == 0 || entry.d == 0
                   then m1[EntryAddr(table, lin) := Get(entry.(a := 1, d := if dirty then 1 else entry.d))] else m1
    ensures Marks(m, m2, basePage, lin, dirty)
  {
    hide Set, Get, TableAddr, EntryAddr;
    var table, entry := TableOf(m, basePage, lin), EntryOf(m, basePage, lin);
    BitsOf(Read(m, TableAddr(basePage, lin)), 1, table.d);
    BitsOf(Read(m, EntryAddr(table, lin)), 1, if dirty then 1 else entry.d);
    assert table.(a := 1, d := table.d) == table.(a := 1);
  }

  /** Both entries of the page are accessed, and its own one dirty if it has to be. */
  predicate IsMarked(table: PageEntry, entry: PageEntry, dirty: bool) { table.a == 1 && entry.a == 1 && (dirty ==> entry.d == 1) }

  lemma OneDword(v: Dword, v': Dword, a: nat, d: nat)
    requires var e := Set(v); e.a <= a < 2 && e.d <= d < 2 && v' == v + 0x20 * (a - e.a) + 0x40 * (d - e.d)
    ensures Set(v') == Set(v).(a := a, d := d)
  {
    hide Set, Get;
    BitsOf(v, a, d);
    SetGet(Set(v).(a := a, d := d));
  }

  /** What a marked dword is, as an entry. */
  lemma DwordMarked(m: Memory, m': Memory, basePage: nat, lin: nat, dirty: bool, x: nat)
    requires Marks(m, m', basePage, lin, dirty)
    ensures var e, table := Set(Read(m, x)), TableOf(m, basePage, lin);
            Set(Read(m', x)) == e.(a := if x == TableAddr(basePage, lin) || x == EntryAddr(table, lin) then 1 else e.a,
                                   d := if x == EntryAddr(table, lin) && dirty then 1 else e.d)
  {
    hide Set, Get, TableAddr, EntryAddr;
    var e, table := Set(Read(m, x)), TableOf(m, basePage, lin);
    assert Fits(e);
    OneDword(Read(m, x), Read(m', x), if x == TableAddr(basePage, lin) || x == EntryAddr(table, lin) then 1 else e.a,
             if x == EntryAddr(table, lin) && dirty then 1 else e.d);
  }

  /** Marking sets accessed and dirty bits only; it sets those of the page, and its dirty bit only if it is to. */
  lemma MarksRaise(m: Memory, m': Memory, basePage: nat, lin: nat, dirty: bool)
    requires Marks(m, m', basePage, lin, dirty)
    ensures MemoryRaised(m, m') && IsMarked(TableOf(m', basePage, lin), EntryOf(m', basePage, lin), dirty)
    ensures !dirty ==> EntryOf(m', basePage, lin).d == EntryOf(m, basePage, lin).d
  {
    hide Set, Get, TableAddr, Marks, Read;
    var table := TableOf(m, basePage, lin);
    forall x: nat ensures Raised(Set(Read(m, x)), Set(Read(m', x))) {
      DwordMarked(m, m', basePage, lin, dirty, x);
    }
    DwordMarked(m, m', basePage, lin, dirty, TableAddr(basePage, lin));
    DwordMarked(m, m', basePage, lin, dirty, EntryAddr(table, lin));
  }

  lemma MarkedOrNot(m: Memory, m': Memory, basePage: nat, lin: nat, dirty: bool, marked: bool)
    requires if marked then Marks(m, m', basePage, lin, dirty) else m' == m
    ensures MemoryRaised(m, m') && MemoryAlike(m, m')
  {
    hide Set, Read, Marks, Alike, Raised;
    if marked {
      MarksRaise(m, m', basePage, lin, dirty);
    } else {
      RaisedRefl(m);
    }
    RaisedAlike(m, m');
  }

  /** The function that a marking access computes, for entries `table` at `ta` and `entry` at `ea`. */
  function Marked(m: Memory, ta: nat, table: PageEntry, ea: nat, entry: PageEntry, dirty: bool): Memory
    requires Fits(table) && Fits(entry)
  { m[ta := Get(table.(a := 1))][ea := Get(entry.(a := 1, d := if dirty then 1 else entry.d))] }

  /** Marking a memory in which fewer bits are set leaves it so, where the bits are set. */
  lemma MarkedBelow(m: Memory, m': Memory, basePage: nat, lin: nat, dirty: bool)
    requires MemoryRaised(m, m') && IsMarked(TableOf(m', basePage, lin), EntryOf(m', basePage, lin), dirty)
    ensures var table := TableOf(m, basePage, lin);
            MemoryRaised(Marked(m, TableAddr(basePage, lin), table, EntryAddr(table, lin), EntryOf(m, basePage, lin), dirty), m')
  {
    hide Set, Get, TableAddr;
    var table, entry := TableOf(m, basePage, lin), EntryOf(m, basePage, lin);
    var table2, entry2 := table.(a := 1), entry.(a := 1, d := if dirty then 1 else entry.d);
    WalkRaised(m, m', basePage, lin);
    SetGet(table2);
    SetGet(entry2);
    var ta, ea := TableAddr(basePage, lin), EntryAddr(table, lin);
    var n := Marked(m, ta, table, ea, entry, dirty);
    assert ea == EntryAddr(TableOf(m', basePage, lin), lin);
    forall x: nat ensures Raised(Set(Read(n, x)), Set(Read(m', x))) {
      assert Raised(Set(Read(m, x)), Set(Read(m', x)));
      if x == ea {
        assert Read(n, x) == Get(entry2);
      } else if x == ta {
        assert Read(n, x) == Get(table2);
      } else {
        assert Read(n, x) == Read(m, x);
      }
    }
  }

  /** A store of a translation the dword at `addr` already holds, with other accessed and dirty bits. */
  lemma WriteBack(m: Memory, m1: Memory, addr: nat, e: PageEntry)
    requires MemoryAlike(m, m1) && Fits(e) && Alike(e, Set(Read(m, addr)))
    ensures MemoryAlike(m, m1[addr := Get(e)])
  {
    SetGet(e);
    forall x: nat ensures Alike(Set(Read(m, x)), Set(Read(m1[addr := Get(e)], x))) {
      if x != addr {
        assert Read(m1[addr := Get(e)], x) == Read(m1, x);
      }
    }
  }

  /** Accessed and dirty bits never change where a page is or who may use it, not even when a page directory serves as
      its own page table. */
  lemma WalkAlike(m: Memory, m': Memory, basePage: nat, lin: nat)
    requires MemoryAlike(m, m')
    ensures Alike(TableOf(m, basePage, lin), TableOf(m', basePage, lin))
    ensures Alike(EntryOf(m, basePage, lin), EntryOf(m', basePage, lin))
  {
    assert EntryAddr(TableOf(m, basePage, lin), lin) == EntryAddr(TableOf(m', basePage, lin), lin);
  }

  /** Only dwords that are not present as page table entries differ. */
  ghost predicate PresentSame(m: Memory, m': Memory)
  {
    forall addr: nat :: Set(Read(m, addr)).p == 1 ==> Read(m', addr) == Read(m, addr)
  }

  lemma WalkSame(m: Memory, m': Memory, basePage: nat, lin: nat)
    requires PresentSame(m, m') && TableOf(m, basePage, lin).p == 1 && EntryOf(m, basePage, lin).p == 1
    ensures TableOf(m', basePage, lin) == TableOf(m, basePage, lin) && EntryOf(m', basePage, lin) == EntryOf(m, basePage, lin)
  {
  }

  // ---- protection ----

  datatype Arch = Mixed | Intel386Slow | Intel386Fast | Intel486OldSlow | Intel486NewSlow | Pentium | PentiumMmx

  /** InitPage_CheckUseraccess: a user access fails. */
  predicate UserFails(arch: Arch, u1: nat, u2: nat) {
    match arch
    case Mixed | Intel386Slow | Intel386Fast => u1 == 0 && u2 == 0
    case _ => u1 == 0 || u2 == 0
  }

  /** The architectures for which InitPage keeps pages that a user access might not reach out of the TLB. */
  predicate Tracks(arch: Arch) { !(arch.Mixed? || arch.Intel386Fast?) }

  predicate Present(table: PageEntry, entry: PageEntry) { table.p == 1 && entry.p == 1 }

  /** What a walk at privilege level 3 permits. */
  predicate UserMayRead(arch: Arch, table: PageEntry, entry: PageEntry) {
    Present(table, entry) && !UserFails(arch, entry.us, table.us)
  }

  predicate UserMayWrite(arch: Arch, table: PageEntry, entry: PageEntry) {
    UserMayRead(arch, table, entry) && entry.wr == 1 && table.wr == 1
  }

  /** On a 386 a page is for users if one of its two entries says so, on later processors both have to; and it can be written
      if both say so.  The fast and mixed types of 386 do not keep track of it. */
  lemma Protection(arch: Arch, table: PageEntry, entry: PageEntry)
    requires Fits(table) && Fits(entry)
    ensures arch in {Mixed, Intel386Slow, Intel386Fast} ==>
              (UserMayRead(arch, table, entry) <==> table.p + entry.p == 2 && table.us + entry.us >= 1)
    ensures arch in {Intel486OldSlow, Intel486NewSlow, Pentium, PentiumMmx} ==>
              (UserMayRead(arch, table, entry) <==> table.p + entry.p == 2 && table.us + entry.us == 2)
    ensures UserMayWrite(arch, table, entry) <==> UserMayRead(arch, table, entry) && table.wr + entry.wr == 2
    ensures Tracks(arch) <==> arch in {Intel386Slow, Intel486OldSlow, Intel486NewSlow, Pentium, PentiumMmx}
  {
  }

  /** The page fault an access raises, by the error code of the 80386: bit 0 protection violation, bit 1 write, bit 2
      not at supervisor level.  `level` is CPL restricted by the mode privilege (`cpl & mpl`). */
  function AccessFault(arch: Arch, table: PageEntry, entry: PageEntry, writing: bool, level: nat): Option<nat> {
    var w := if writing then 2 else 0;
    if !Present(table, entry) then Some(w + if level == 0 then 0 else 4)
    else if level == 3 && !(if writing then UserMayWrite(arch, table, entry) else UserMayRead(arch, table, entry)) then Some(5 + w)
    else None
  }
}
