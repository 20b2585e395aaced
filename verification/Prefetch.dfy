/**
 The prefetch queue (src/cpu/core_prefetch.cpp): a sliding window over the code that
 must look like memory as long as nobody writes into it.
 */
module Prefetch {
  type Byte = x: nat | x < 0x100

  const U32: nat := 0x1_0000_0000
  const MAX_PQ_SIZE: nat := 32

  function Address(a: nat): nat { a % U32 }

  /** The address `i` bytes after `a`, around the end of the address space. */
  function At(a: nat, i: nat): nat { Address(a + i) }

  lemma AtMore(a: nat, k: nat, i: nat)
    ensures At(a + k, i) == At(a, k + i)
  {
  }

  /** The value of `n` bytes, the lowest one first. */
  function LittleEndian(bytes: seq<Byte>): nat {
    if bytes == [] then 0 else bytes[0] + 0x100 * LittleEndian(bytes[1..])
  }

  /** b0 | b1 << 8, and the same for four bytes */
  function WordOf(b0: Byte, b1: Byte): nat {
    var lo: nat, hi: nat := b0, b1;
    lo + 0x100 * hi
  }

  function DwordOf(b0: Byte, b1: Byte, b2: Byte, b3: Byte): nat { WordOf(b0, b1) + 0x1_0000 * WordOf(b2, b3) }

  function Load(mem: nat -> Byte, a: nat, n: nat): (s: seq<Byte>)
    ensures |s| == n && forall i :: 0 <= i < n ==> s[i] == mem(At(a, i))
  { if n == 0 then [] else Load(mem, a, n - 1) + [mem(At(a, n - 1))] }

  /** The addresses of `n` bytes. */
  ghost function Addresses(a: nat, n: nat): set<nat> { if n == 0 then {} else Addresses(a, n - 1) + {At(a, n - 1)} }

  lemma {:induction false} AmongAddresses(a: nat, n: nat, i: nat)
    requires i < n
    ensures At(a, i) in Addresses(a, n)
  {
    if i < n - 1 {
      AmongAddresses(a, n - 1, i);
    }
  }

  /** The test for `n` bytes at `ip` in Fetchw and Fetchd; the left side wraps around at 32 bits, the right side does not. */
  predicate Hit(ip: nat, n: nat, start: nat, size: nat) { ip >= start && Address(ip + n) < start + size }

  /** A hit lies in the queue, whatever the queue holds, exactly below the end of the address space: there the sum wraps
      around to zero, and a queue that starts lower seems to hold the address. */
  lemma HitsLieInQueue(ip: nat, n: nat)
    requires ip < U32 && 0 < n <= 4
    ensures ip + n < U32 <==> (forall start: nat, size: nat {:trigger Hit(ip, n, start, size)} ::
                                 16 <= size <= MAX_PQ_SIZE && Hit(ip, n, start, size) ==> ip - start + n <= size)
  {
    if ip + n >= U32 {
      assert Hit(ip, n, 0, 16);
    }
  }

  // ---- the queue, address by address ----

  /** The bytes at `n` addresses from `a` on: those that are held already stay as they are, the others come from memory. */
  ghost function Refilled(held: map<nat, Byte>, mem: nat -> Byte, a: nat, n: nat): map<nat, Byte> {
    map x | x in Addresses(a, n) :: if x in held then held[x] else mem(x)
  }

  /** Where the core fetches next, the bytes that the queue holds for the `size` addresses from `start` on, and which of these
      addresses were written since their bytes were loaded. */
  datatype Window = Window(ip: nat, valid: bool, start: nat, held: map<nat, Byte>, dirty: set<nat>) {
    /** The test of Fetchb (n == 1), Fetchw and Fetchd. */
    predicate InWindow(n: nat, size: nat) {
      valid && if n == 1 then start <= ip < start + size else Hit(ip, n, start, size)
    }

    /** Fetching the next `n` bytes loads the queue anew, or none of them was written since the queue loaded it. */
    ghost predicate Clean(n: nat, size: nat) {
      InWindow(n, size) ==> forall j :: 0 <= j < n ==> At(ip, j) !in dirty
    }

    /** The fetch does not take bytes from behind the queue: see HitsLieInQueue. */
    predicate Inside(n: nat, size: nat) { InWindow(n, size) ==> ip - start + n <= size }

    /** What a fetch of `n` bytes sees at address `x`: the byte that the queue holds, however old, and memory where it misses. */
    ghost function Shown(n: nat, size: nat, mem: nat -> Byte): nat -> Byte {
      x => if InWindow(n, size) && x in held then held[x] else mem(x)
    }

    /** The queue moves on when a fetch ends among its last four bytes, and is loaded anew when a fetch misses it. */
    ghost function Fetch(n: nat, size: nat, mem: nat -> Byte): Window {
      var end := Address(ip + n);
      if !InWindow(n, size) then Window(end, true, ip, Refilled(map[], mem, ip, size), {})
      else if start + size - 4 <= end < start + size then
        Window(end, true, end, Refilled(held, mem, end, size), dirty * Addresses(end, start + size - end))
      else this.(ip := end)
    }

    ghost function Store(a: nat, size: nat): Window {
      if valid && a in Addresses(start, size) then this.(dirty := dirty + {a}) else this
    }

    function Jump(to: nat, flush: bool): Window { this.(ip := to, valid := valid && !flush) }
  }

  class PrefetchQueue {
    const buffer: array<Byte>
    // CPU_PrefetchQueueSize
    const size: nat
    var valid: bool
    var start: nat
    var cseip: nat
    var mem: nat -> Byte
    ghost var held: map<nat, Byte>
    ghost var dirty: set<nat>

    ghost function View(): Window
      reads this
    { Window(cseip, valid, start, held, dirty) }

    ghost predicate Valid()
      reads this, buffer
    {
      && buffer.Length == MAX_PQ_SIZE && (size == 16 || size == 32) && cseip < U32
      && (valid ==> start < U32 && Holds(buffer[..], held, start, size) && Mirrors(held, mem, dirty))
    }

    constructor (size: nat, ip: nat, mem: nat -> Byte)
      requires (size == 16 || size == 32) && ip < U32
      ensures Valid() && !valid && cseip == ip && this.mem == mem && this.size == size && fresh(buffer)
    {
      buffer := new Byte[MAX_PQ_SIZE](_ => 0);
      this.size, valid, start, cseip, this.mem, held, dirty := size, false, 0, ip, mem, map[], {};
    }

    /** Load buffer[from..size] from memory; buffer[0] stands for address `base`. */
    method LoadFrom(base: nat, from: nat)
      requires buffer.Length == MAX_PQ_SIZE && from <= size <= MAX_PQ_SIZE
      modifies buffer
      ensures forall j :: 0 <= j < from ==> buffer[j] == old(buffer[j])
      ensures forall j :: from <= j < size ==> buffer[j] == mem(At(base, j))
    {
      var i := from;
      while i < size
        invariant from <= i <= size
        invariant forall j :: 0 <= j < from ==> buffer[j] == old(buffer[j])
        invariant forall j :: from <= j < i ==> buffer[j] == mem(At(base, j))
      {
        buffer[i] := mem(At(base, i));
        i := i + 1;
      }
    }

    /** Move buffer[k..k + n] to the front; the two regions may overlap. */
    method ShiftDown(k: nat, n: nat)
      requires buffer.Length == MAX_PQ_SIZE && k + n <= MAX_PQ_SIZE
      modifies buffer
      ensures forall j :: 0 <= j < n ==> buffer[j] == old(buffer[k + j])
    {
      var i := 0;
      while i < n
        invariant 0 <= i <= n
        invariant forall j :: 0 <= j < i ==> buffer[j] == old(buffer[k + j])
        invariant forall j :: i <= j < buffer.Length ==> buffer[j] == old(buffer[j])
      {
        buffer[i] := buffer[k + i];
        i := i + 1;
      }
    }

    /** The queue is loaded at `cseip`. */
    method Refill()
      requires Valid()
      modifies this`start, this`valid, this`held, this`dirty, buffer
      ensures Valid() && valid && start == cseip && held == Refilled(map[], mem, cseip, size) && dirty == {}
      ensures forall j :: 0 <= j < size ==> buffer[j] == mem(At(cseip, j))
    {
      hide At, Addresses, Holds, Mirrors, Refilled;
      LoadFrom(cseip, 0);
      Loaded(buffer[..], mem, cseip, size);
      start := cseip;
      valid := true;
      held := Refilled(map[], mem, cseip, size);
      dirty := {};
    }

    /** The queue moves on to start at `cseip + n`: what remains is shifted down in place, the rest is loaded. */
    method Advance(n: nat)
      requires Valid() && valid && cseip >= start && 0 < n && cseip + n < U32 && cseip + n < start + size
      modifies this`start, this`held, this`dirty, buffer
      ensures Valid() && valid && start == cseip + n && held == Refilled(old(held), mem, start, size)
      ensures dirty == old(dirty) * Addresses(start, old(start) + size - start)
    {
      hide At, Addresses, Holds, Mirrors, Refilled;
      var k := cseip + n - start;
      var remaining := size - k;
      ghost var before := buffer[..];
      ShiftDown(k, remaining);
      LoadFrom(cseip + n, remaining);
      Shifted(before, buffer[..], held, mem, start, k, size, dirty);
      held := Refilled(held, mem, cseip + n, size);
      dirty := dirty * Addresses(cseip + n, remaining);
      start := cseip + n;
    }

    /** The guest writes memory; the queue does not notice. */
    method Store(a: nat, v: Byte)
      requires Valid() && a < U32
      modifies this`mem, this`dirty
      ensures Valid() && View() == old(View()).Store(a, size)
      ensures forall x :: mem(x) == if x == a then v else old(mem)(x)
    {
      hide At, Addresses;
      var before := mem;
      mem := x => if x == a then v else before(x);
      dirty := if valid && a in Addresses(start, size) then dirty + {a} else dirty;
    }

    /** A jump; `flush` where the core drops the queue. */
    method Jump(ip: nat, flush: bool)
      requires Valid() && ip < U32
      modifies this`cseip, this`valid
      ensures Valid() && View() == old(View()).Jump(ip, flush)
    {
      cseip := ip;
      valid := valid && !flush;
    }

    /** The end of a fetch of `n` bytes out of the queue, which moves on when it ends among the last four. */
    method MoveOn(n: nat)
      requires Valid() && View().InWindow(n, size) && View().Inside(n, size) && 1 <= n <= 4
      modifies this`cseip, this`start, this`held, this`dirty, buffer
      ensures Valid() && View() == old(View()).Fetch(n, size, mem)
    {
      hide Holds, Mirrors, At, Addresses, Refilled;
      if Address(cseip + n) >= start + size - 4 && Address(cseip + n) < start + size {
        Advance(n);
      }
      cseip := Address(cseip + n);
    }

    method Fetchb() returns (temp: nat)
      requires Valid()
      modifies this`cseip, this`start, this`valid, this`held, this`dirty, buffer
      ensures Valid() && View() == old(View()).Fetch(1, size, mem)
      ensures temp == LittleEndian(Load(old(View()).Shown(1, size, mem), old(cseip), 1))
      ensures old(View()).Clean(1, size) ==> temp == LittleEndian(Load(mem, old(cseip), 1))
    {
      hide Holds, Mirrors, Refilled, LittleEndian, Load, WordOf, DwordOf, At, Addresses;
      ghost var shown := View().Shown(1, size, mem);
      LoadBytes(shown, cseip, 1);
      LoadBytes(mem, cseip, 1);
      if valid && cseip >= start && cseip < start + size {
        InQueue(buffer[..], held, mem, start, size, dirty, cseip, 1);
        temp := buffer[cseip - start];
        MoveOn(1);
      } else {
        Refill();
        cseip := Address(cseip + 1);
        temp := buffer[0];
      }
    }

    method Fetchw() returns (temp: nat)
      requires Valid() && View().Inside(2, size)
      modifies this`cseip, this`start, this`valid, this`held, this`dirty, buffer
      ensures Valid() && View() == old(View()).Fetch(2, size, mem)
      ensures temp == LittleEndian(Load(old(View()).Shown(2, size, mem), old(cseip), 2))
      ensures old(View()).Clean(2, size) ==> temp == LittleEndian(Load(mem, old(cseip), 2))
    {
      hide Holds, Mirrors, Refilled, LittleEndian, Load, WordOf, DwordOf, At, Addresses;
      ghost var shown := View().Shown(2, size, mem);
      LoadBytes(shown, cseip, 2);
      LoadBytes(mem, cseip, 2);
      if valid && Hit(cseip, 2, start, size) {
        InQueue(buffer[..], held, mem, start, size, dirty, cseip, 2);
        temp := WordOf(buffer[cseip - start], buffer[cseip - start + 1]);
        MoveOn(2);
      } else {
        Refill();
        cseip := Address(cseip + 2);
        temp := WordOf(buffer[0], buffer[1]);
      }
    }

    method Fetchd() returns (temp: nat)
      requires Valid() && View().Inside(4, size)
      modifies this`cseip, this`start, this`valid, this`held, this`dirty, buffer
      ensures Valid() && View() == old(View()).Fetch(4, size, mem)
      ensures temp == LittleEndian(Load(old(View()).Shown(4, size, mem), old(cseip), 4))
      ensures old(View()).Clean(4, size) ==> temp == LittleEndian(Load(mem, old(cseip), 4))
    {
      hide Holds, Mirrors, Refilled, LittleEndian, Load, WordOf, DwordOf, At, Addresses;
      ghost var shown := View().Shown(4, size, mem);
      LoadBytes(shown, cseip, 4);
      LoadBytes(mem, cseip, 4);
      if valid && Hit(cseip, 4, start, size) {
        InQueue(buffer[..], held, mem, start, size, dirty, cseip, 4);
        temp := DwordOf(buffer[cseip - start], buffer[cseip - start + 1], buffer[cseip - start + 2], buffer[cseip - start + 3]);
        MoveOn(4);
      } else {
        Refill();
        cseip := Address(cseip + 4);
        temp := DwordOf(buffer[0], buffer[1], buffer[2], buffer[3]);
      }
    }
  }

  /** The buffer holds these bytes, in the order of their addresses. */
  ghost predicate Holds(buffer: seq<Byte>, held: map<nat, Byte>, start: nat, size: nat) {
    && size <= |buffer| && held.Keys == Addresses(start, size)
    && forall i {:trigger At(start, i)} :: 0 <= i < size ==> At(start, i) in held && buffer[i] == held[At(start, i)]
  }

  /** Every byte that was not written since it was loaded is what memory holds. */
  ghost predicate Mirrors(held: map<nat, Byte>, mem: nat -> Byte, dirty: set<nat>) {
    forall x <- held :: x !in dirty ==> held[x] == mem(x)
  }

  lemma Loaded(buffer: seq<Byte>, mem: nat -> Byte, start: nat, size: nat)
    requires size <= |buffer| && forall i :: 0 <= i < size ==> buffer[i] == mem(At(start, i))
    ensures Holds(buffer, Refilled(map[], mem, start, size), start, size) && Mirrors(Refilled(map[], mem, start, size), mem, {})
  {
    forall i | 0 <= i < size ensures At(start, i) in Addresses(start, size) {
      AmongAddresses(start, size, i);
    }
  }

  lemma {:induction false} IsAmong(a: nat, n: nat, x: nat)
    requires x in Addresses(a, n)
    ensures exists i: nat :: i < n && x == At(a, i)
  {
    if x != At(a, n - 1) {
      IsAmong(a, n - 1, x);
    } else {
      assert n - 1 < n;
    }
  }

  /** Addresses less than 2^32 apart differ. */
  lemma AtDiffers(a: nat, i: nat, j: nat)
    requires i < j < i + U32
    ensures At(a, i) != At(a, j)
  {
  }

  /** Moving the window on keeps the bytes that stay in it, and loads the others. */
  lemma Shifted(buffer: seq<Byte>, buffer': seq<Byte>, held: map<nat, Byte>, mem: nat -> Byte, start: nat, k: nat, size: nat, dirty: set<nat>)
    requires Holds(buffer, held, start, size) && Mirrors(held, mem, dirty) && k <= size <= |buffer'| && size <= MAX_PQ_SIZE
    requires forall j :: 0 <= j < size - k ==> buffer'[j] == buffer[k + j]
    requires forall j :: size - k <= j < size ==> buffer'[j] == mem(At(start + k, j))
    ensures var held' := Refilled(held, mem, start + k, size);
            && Holds(buffer', held', start + k, size) && Mirrors(held', mem, dirty * Addresses(start + k, size - k))
  {
    hide At;
    var held' := Refilled(held, mem, start + k, size);
    assert held'.Keys == Addresses(start + k, size);
    forall i {:trigger At(start + k, i)} | 0 <= i < size ensures At(start + k, i) in held' && buffer'[i] == held'[At(start + k, i)] {
      AmongAddresses(start + k, size, i);
      AtMore(start, k, i);
      if i < size - k {
        assert buffer'[i] == buffer[k + i];
      } else {
        NotHeld(held, start, size, k + i);
      }
    }
    forall x <- held' | x !in dirty * Addresses(start + k, size - k) ensures held'[x] == mem(x) {
      if x in held && x in dirty {
        IsAmong(start + k, size, x);
        var i: nat :| i < size && x == At(start + k, i);
        AtMore(start, k, i);
        if i < size - k {
          AmongAddresses(start + k, size - k, i);
        } else {
          NotHeld(held, start, size, k + i);
        }
      }
    }
  }

  lemma NotHeld(held: map<nat, Byte>, start: nat, size: nat, j: nat)
    requires held.Keys == Addresses(start, size) && size <= j < 2 * size && size <= MAX_PQ_SIZE
    ensures At(start, j) !in held
  {
    if At(start, j) in held {
      IsAmong(start, size, At(start, j));
      var i: nat :| i < size && At(start, j) == At(start, i);
      AtDiffers(start, i, j);
    }
  }

  /** The bytes of the queue at `ip`, and where they are clean. */
  lemma InQueue(buffer: seq<Byte>, held: map<nat, Byte>, mem: nat -> Byte, start: nat, size: nat, dirty: set<nat>, ip: nat, n: nat)
    requires Holds(buffer, held, start, size) && Mirrors(held, mem, dirty) && ip >= start && ip - start + n <= size
    ensures size <= |buffer|
    ensures forall j :: 0 <= j < n ==> At(ip, j) in held && buffer[ip - start + j] == held[At(ip, j)]
    ensures forall j :: 0 <= j < n ==> At(ip, j) !in dirty ==> buffer[ip - start + j] == mem(At(ip, j))
  {
    forall j | 0 <= j < n ensures At(ip, j) in held && buffer[ip - start + j] == held[At(ip, j)] {
      AtMore(start, ip - start, j);
    }
  }

  /** The value of one, two or four bytes in memory. */
  lemma LoadBytes(mem: nat -> Byte, a: nat, n: nat)
    ensures n == 1 ==> LittleEndian(Load(mem, a, n)) == mem(At(a, 0))
    ensures n == 2 ==> LittleEndian(Load(mem, a, n)) == WordOf(mem(At(a, 0)), mem(At(a, 1)))
    ensures n == 4 ==> LittleEndian(Load(mem, a, n)) ==
                       DwordOf(mem(At(a, 0)), mem(At(a, 1)), mem(At(a, 2)), mem(At(a, 3)))
  {
    var s := Load(mem, a, n);
    hide Load;
    if n == 1 {
      assert s == [mem(At(a, 0))];
    } else if n == 2 {
      Pair(mem(At(a, 0)), mem(At(a, 1)));
      assert s == [mem(At(a, 0)), mem(At(a, 1))];
    } else if n == 4 {
      Quad(mem(At(a, 0)), mem(At(a, 1)), mem(At(a, 2)), mem(At(a, 3)));
      assert s == [mem(At(a, 0)), mem(At(a, 1)), mem(At(a, 2)), mem(At(a, 3))];
    }
  }

  lemma Pair(b0: Byte, b1: Byte)
    ensures LittleEndian([b0, b1]) == WordOf(b0, b1)
  {
    assert [b0, b1][1..] == [b1];
    assert LittleEndian([b1]) == b1;
  }

  lemma Quad(b0: Byte, b1: Byte, b2: Byte, b3: Byte)
    ensures LittleEndian([b0, b1, b2, b3]) == DwordOf(b0, b1, b2, b3)
  {
    Pair(b2, b3);
    var t: seq<Byte> := [b1, b2, b3];
    assert [b0, b1, b2, b3][1..] == t && t[1..] == [b2, b3];
    assert LittleEndian(t) == t[0] + 0x100 * LittleEndian([b2, b3]);
  }

  // ---- whole runs ----

  datatype Step = Fetch(n: nat) | Store(a: nat, v: Byte) | Jump(ip: nat, flush: bool)

  ghost function Next(w: Window, size: nat, mem: nat -> Byte, s: Step): Window {
    match s
    case Fetch(n) => w.Fetch(n, size, mem)
    case Store(a, _) => w.Store(a, size)
    case Jump(ip, flush) => w.Jump(ip, flush)
  }

  function Stored(mem: nat -> Byte, s: Step): nat -> Byte {
    if s.Store? then x => if x == s.a then s.v else mem(x) else mem
  }

  function MemoryAfter(mem: nat -> Byte, steps: seq<Step>): nat -> Byte {
    if steps == [] then mem else Stored(MemoryAfter(mem, steps[..|steps| - 1]), steps[|steps| - 1])
  }

  ghost function WindowAfter(w: Window, size: nat, mem: nat -> Byte, steps: seq<Step>): Window {
    if steps == [] then w else
      var init := steps[..|steps| - 1];
      Next(WindowAfter(w, size, mem, init), size, MemoryAfter(mem, init), steps[|steps| - 1])
  }

  /** What the guest may do next: any fetch that does not take bytes from behind the queue, hence every one that ends below
      2^32, every one that misses the queue and every fetch of a byte. */
  predicate Possible(s: Step, w: Window, size: nat) {
    match s
    case Fetch(n) => (n == 1 || n == 2 || n == 4) && w.Inside(n, size)
    case Store(a, _) => a < U32
    case Jump(to, _) => to < U32
  }

  ghost predicate AllPossible(w: Window, size: nat, mem: nat -> Byte, steps: seq<Step>) {
    forall k :: 0 <= k < |steps| ==> Possible(steps[k], WindowAfter(w, size, mem, steps[..k]), size)
  }

  /** The value that a fetch of `n` bytes gets. */
  ghost function Value(w: Window, size: nat, mem: nat -> Byte, n: nat): nat { LittleEndian(Load(w.Shown(n, size, mem), w.ip, n)) }

  /** What step `k` fetches, told from the steps alone. */
  ghost function Told(w: Window, size: nat, mem: nat -> Byte, steps: seq<Step>, k: nat): nat
    requires k < |steps| && steps[k].Fetch?
  {
    Value(WindowAfter(w, size, mem, steps[..k]), size, MemoryAfter(mem, steps[..k]), steps[k].n)
  }

  /** Step `k` fetches bytes of which none was written while the queue held it. */
  ghost predicate CleanFetch(w: Window, size: nat, mem: nat -> Byte, steps: seq<Step>, k: nat)
    requires k < |steps|
  {
    steps[k].Fetch? && WindowAfter(w, size, mem, steps[..k]).Clean(steps[k].n, size)
  }

  /** What memory holds where step `k` fetches. */
  ghost function InMemory(w: Window, size: nat, mem: nat -> Byte, steps: seq<Step>, k: nat): nat
    requires k < |steps| && steps[k].Fetch?
  {
    LittleEndian(Load(MemoryAfter(mem, steps[..k]), WindowAfter(w, size, mem, steps[..k]).ip, steps[k].n))
  }

  /** Memories that are equal everywhere are as good as equal. */
  lemma SameMemory(w: Window, size: nat, mem: nat -> Byte, mem': nat -> Byte, s: Step)
    requires forall x :: mem(x) == mem'(x)
    ensures Next(w, size, mem, s) == Next(w, size, mem', s) && forall x :: Stored(mem, s)(x) == Stored(mem', s)(x)
    ensures forall n: nat, a: nat :: Load(mem, a, n) == Load(mem', a, n)
    ensures forall n: nat, a: nat :: Load(w.Shown(n, size, mem), a, n) == Load(w.Shown(n, size, mem'), a, n)
  {
    hide At, Addresses;
    assert Refilled(map[], mem, w.ip, size) == Refilled(map[], mem', w.ip, size);
    forall end: nat ensures Refilled(w.held, mem, end, size) == Refilled(w.held, mem', end, size) {
    }
  }

  method Do(q: PrefetchQueue, s: Step) returns (value: nat)
    requires q.Valid() && Possible(s, q.View(), q.size)
    modifies q, q.buffer
    ensures q.Valid() && q.View() == Next(old(q.View()), q.size, old(q.mem), s)
    ensures forall x :: q.mem(x) == Stored(old(q.mem), s)(x)
    ensures s.Fetch? ==> value == Value(old(q.View()), q.size, old(q.mem), s.n)
    ensures s.Fetch? && old(q.View()).Clean(s.n, q.size) ==> value == LittleEndian(Load(old(q.mem), old(q.cseip), s.n))
  {
    hide Holds, Mirrors, Refilled, LittleEndian, Load, At, Addresses;
    value := 0;
    match s
    case Store(a, v) => q.Store(a, v);
    case Jump(ip, flush) => q.Jump(ip, flush);
    case Fetch(n) =>
      if n == 1 {
        value := q.Fetchb();
      } else if n == 2 {
        value := q.Fetchw();
      } else {
        value := q.Fetchd();
      }
  }

  /** Whatever fetches, stores and jumps take place, they tell each fetched value: the bytes that memory held when the queue
      loaded them, see HeldSince, and the bytes it holds now where the fetch misses the queue.  It is what memory holds at
      that moment, unless one of its bytes was written while the queue held it. */
  method Session(q: PrefetchQueue, steps: seq<Step>) returns (values: seq<nat>)
    requires q.Valid() && AllPossible(q.View(), q.size, q.mem, steps)
    modifies q, q.buffer
    ensures q.Valid() && |values| == |steps| && q.View() == WindowAfter(old(q.View()), q.size, old(q.mem), steps)
    ensures forall k :: 0 <= k < |steps| && steps[k].Fetch? ==> values[k] == Told(old(q.View()), q.size, old(q.mem), steps, k)
    ensures forall k :: 0 <= k < |steps| && CleanFetch(old(q.View()), q.size, old(q.mem), steps, k) ==>
              values[k] == InMemory(old(q.View()), q.size, old(q.mem), steps, k)
  {
    hide PrefetchQueue.Valid, LittleEndian, Load, At, Addresses, Refilled, Next, Stored, Window.Shown, Window.Clean, Value, Told, InMemory,
      WindowAfter, MemoryAfter, Possible;
    values := [];
    ghost var w0, mem0 := q.View(), q.mem;
    NothingYet(w0, q.size, mem0, steps);
    var k := 0;
    while k < |steps|
      invariant 0 <= k <= |steps| == |steps| && |values| == k && q.Valid()
      invariant q.View() == WindowAfter(w0, q.size, mem0, steps[..k]) && (forall x :: q.mem(x) == MemoryAfter(mem0, steps[..k])(x))
      invariant forall i :: 0 <= i < k && steps[i].Fetch? ==> values[i] == Told(w0, q.size, mem0, steps, i)
      invariant forall i :: 0 <= i < k && CleanFetch(w0, q.size, mem0, steps, i) ==> values[i] == InMemory(w0, q.size, mem0, steps, i)
    {
      OneMore(w0, q.size, mem0, q.mem, steps, k);
      var value := Do(q, steps[k]);
      values := values + [value];
      k := k + 1;
    }
    assert steps[..k] == steps;
  }

  lemma NothingYet(w: Window, size: nat, mem: nat -> Byte, steps: seq<Step>)
    ensures WindowAfter(w, size, mem, steps[..0]) == w && MemoryAfter(mem, steps[..0]) == mem
  {
  }

  /** One more step, from the state that the steps before it left. */
  lemma OneMore(w: Window, size: nat, mem0: nat -> Byte, mem: nat -> Byte, steps: seq<Step>, k: nat)
    requires k < |steps| && forall x :: mem(x) == MemoryAfter(mem0, steps[..k])(x)
    ensures var v, s := WindowAfter(w, size, mem0, steps[..k]), steps[k];
            && WindowAfter(w, size, mem0, steps[..k + 1]) == Next(v, size, mem, s)
            && (forall x :: MemoryAfter(mem0, steps[..k + 1])(x) == Stored(mem, s)(x))
            && (s.Fetch? ==> Told(w, size, mem0, steps, k) == Value(v, size, mem, s.n) &&
                             InMemory(w, size, mem0, steps, k) == LittleEndian(Load(mem, v.ip, s.n)))
            && (CleanFetch(w, size, mem0, steps, k) <==> s.Fetch? && v.Clean(s.n, size))
  {
    assert steps[..k + 1][..k] == steps[..k];
    var before := MemoryAfter(mem0, steps[..k]);
    SameMemory(WindowAfter(w, size, mem0, steps[..k]), size, mem, before, steps[k]);
    hide Load, LittleEndian, Refilled, Addresses, Window.Fetch, Window.Shown, Window.Clean;
  }

  /** The core fetches the byte at 0x100, the byte behind it is written, and it fetches the old one. */
  lemma FetchesOldByte(mem: nat -> Byte, v: Byte)
    ensures var w, steps := Window(0x100, false, 0, map[], {}), [Fetch(1), Store(0x101, v), Fetch(1)];
            Told(w, 16, mem, steps, 2) == mem(0x101) && MemoryAfter(mem, steps[..2])(0x101) == v
  {
    var w, steps := Window(0x100, false, 0, map[], {}), [Fetch(1), Store(0x101, v), Fetch(1)];
    var w1 := w.Fetch(1, 16, mem);
    assert steps[..2] == [Fetch(1), Store(0x101, v)] && steps[..2][..1] == [Fetch(1)] && steps[..2][..1][..0] == [];
    assert WindowAfter(w, 16, mem, steps[..2][..1]) == w1;
    var w2, mem2 := w1.Store(0x101, 16), MemoryAfter(mem, steps[..2]);
    assert WindowAfter(w, 16, mem, steps[..2]) == w2;
    AmongAddresses(0x100, 16, 1);
    LoadBytes(w2.Shown(1, 16, mem2), 0x101, 1);
    hide LittleEndian, Load, Addresses, WindowAfter;
  }

  /** After how many steps memory was as it was when the byte at `a` was loaded. */
  ghost function LoadedAfter(w: Window, size: nat, mem: nat -> Byte, steps: seq<Step>, a: nat): nat {
    if steps == [] then 0 else
      var n := |steps| - 1;
      var before := WindowAfter(w, size, mem, steps[..n]);
      if steps[n].Fetch? && !(before.InWindow(steps[n].n, size) && a in before.held) then n
      else LoadedAfter(w, size, mem, steps[..n], a)
  }

  /** Each byte that the queue holds is what memory held when it was loaded. */
  lemma {:induction false} HeldSince(w: Window, size: nat, mem: nat -> Byte, steps: seq<Step>, a: nat)
    requires w.held == map[] && a in WindowAfter(w, size, mem, steps).held
    ensures LoadedAfter(w, size, mem, steps, a) <= |steps|
    ensures WindowAfter(w, size, mem, steps).held[a] == MemoryAfter(mem, steps[..LoadedAfter(w, size, mem, steps, a)])(a)
    decreases |steps|
  {
    hide Addresses, At, Stored;
    if steps != [] {
      var n := |steps| - 1;
      var before := WindowAfter(w, size, mem, steps[..n]);
      if !(steps[n].Fetch? && !(before.InWindow(steps[n].n, size) && a in before.held)) {
        HeldSince(w, size, mem, steps[..n], a);
        assert steps[..n][..LoadedAfter(w, size, mem, steps[..n], a)] == steps[..LoadedAfter(w, size, mem, steps[..n], a)];
      }
    }
  }

  /** The addresses that were written since the queue was flushed last. */
  function WrittenSince(steps: seq<Step>): set<nat> {
    if steps == [] then {} else
      var before := WrittenSince(steps[..|steps| - 1]);
      match steps[|steps| - 1]
      case Fetch(_) => before
      case Store(a, _) => before + {a}
      case Jump(_, flush) => if flush then {} else before
  }

  lemma {:induction false} DirtyWritten(w: Window, size: nat, mem: nat -> Byte, steps: seq<Step>)
    requires !w.valid
    ensures var v := WindowAfter(w, size, mem, steps); v.valid ==> v.dirty <= WrittenSince(steps)
  {
    hide Addresses, At, Refilled;
    if steps != [] {
      DirtyWritten(w, size, mem, steps[..|steps| - 1]);
    }
  }

  /** A program that jumps with a flush after it has written code fetches what it has written. */
  lemma FlushHelps(w: Window, size: nat, mem: nat -> Byte, steps: seq<Step>, k: nat)
    requires !w.valid && k < |steps| && steps[k].Fetch?
    requires forall j :: 0 <= j < steps[k].n ==> At(WindowAfter(w, size, mem, steps[..k]).ip, j) !in WrittenSince(steps[..k])
    ensures CleanFetch(w, size, mem, steps, k)
  {
    DirtyWritten(w, size, mem, steps[..k]);
  }
}
