/**
 Capturing raw OPL output (src/audio/opl_capture.cpp): a buffered writer, and a player
 that reads back what it wrote.
 */
module OplCaptures {
  import opened BitArithmetic
  import opened OplTables

  type Byte = x: nat | x < 0x100

  const U32: nat := 0x1_0000_0000
  const BUFFER_SIZE: nat := 1024

  /** A register write, `time` ms after the capture began. */
  datatype Timed = Timed(time: nat, reg: nat, val: nat)

  // ---- the player ----

  /** The delay that a command pair stands for, if it is one. */
  function Delay(code: nat, v: nat): nat {
    if code == DELAY256 then v + 1 else if code == DELAY_SHIFT8 then (v + 1) * 256 else 0
  }

  predicate IsDelay(code: nat) { code == DELAY256 || code == DELAY_SHIFT8 }

  /** The register of a command pair: the conversion table, with bit 7 for the second bank. */
  function RegisterOf(code: nat, table: seq<nat>): nat {
    (if code % 128 < |table| then table[code % 128] else 0) + (if code >= 128 then 0x100 else 0)
  }

  /** The milliseconds that a stream of pairs takes. */
  function Elapsed(s: seq<nat>): nat {
    if |s| < 2 then 0 else Elapsed(s[..|s| - 2]) + Delay(s[|s| - 2], s[|s| - 1])
  }

  /** The register writes in a stream of pairs, each with its time. */
  function Writes(s: seq<nat>, table: seq<nat>): seq<Timed> {
    if |s| < 2 then [] else
      var before, code, v := s[..|s| - 2], s[|s| - 2], s[|s| - 1];
      if IsDelay(code) then Writes(before, table)
      else Writes(before, table) + [Timed(Elapsed(before), RegisterOf(code, table), v)]
  }

  /** A player reads the stream from its beginning, keeping the time. */
  method Play(data: seq<nat>, table: seq<nat>) returns (played: seq<Timed>, time: nat)
    requires |data| % 2 == 0
    ensures played == Writes(data, table) && time == Elapsed(data)
  {
    played, time := [], 0;
    var i := 0;
    while i < |data|
      invariant 0 <= i <= |data| && i % 2 == 0 && played == Writes(data[..i], table) && time == Elapsed(data[..i])
    {
      var code, v := data[i], data[i + 1];
      assert data[..i + 2][..i] == data[..i];
      if code == DELAY256 {
        time := time + v + 1;
      } else if code == DELAY_SHIFT8 {
        time := time + (v + 1) * 256;
      } else {
        played := played + [Timed(time, RegisterOf(code, table), v)];
      }
      i := i + 2;
    }
    assert data[..i] == data;
  }

  lemma PairAppended(s: seq<nat>, code: nat, v: nat, table: seq<nat>)
    ensures Elapsed(s + [code, v]) == Elapsed(s) + Delay(code, v)
    ensures Writes(s + [code, v], table) ==
            if IsDelay(code) then Writes(s, table) else Writes(s, table) + [Timed(Elapsed(s), RegisterOf(code, table), v)]
  {
    var t := s + [code, v];
    assert t[..|t| - 2] == s;
  }

  // ---- the writer ----

  datatype Hardware = Opl2 | DualOpl2 | Opl3

  datatype Header = Header(hardware: Hardware, commands: nat, milliseconds: nat)

  datatype File = File(header: Header, table: seq<nat>, data: seq<Byte>)

  // ---- what a session has to leave behind, told from its inputs alone ----

  /** One capture: when it began, which writes it accepted, the time of the last of them, what hardware they need, and
      how long the pause was that ended it (0 if it was not ended by a pause). */
  datatype Take = Take(start: nat, log: seq<Timed>, time: nat, hardware: Hardware, pause: nat)

  /** The captures that have ended, and perhaps one that runs. */
  datatype Plan = Idle(done: seq<Take>) | Running(done: seq<Take>, take: Take)

  /** A port write at a time, and whether a file can be created then. */
  datatype PortWrite = PortWrite(reg: nat, val: Byte, ticks: nat, creates: bool)

  /** A note that is switched on starts a capture. */
  predicate Starts(reg: nat, val: nat) {
    (0xB0 <= reg <= 0xB8 && val / 0x20 % 2 == 1) || (reg == 0xBD && val % 0x40 > 0x20)
  }

  /** The value of register `i` that a capture starts with: notes are silenced. */
  function Silenced(i: nat, val: nat): (v: nat)
    ensures v <= val
  {
    if 0xB0 <= i % 0x100 <= 0xB8 && val / 0x20 % 2 == 1 && val >= 0x20 then val - 0x20
    else if i == 0xBD then val - val % 0x20
    else val
  }

  /** Bits 6 and 7, bit 5, and the low five bits of a value. */
  lemma Parts(q: nat, n: nat, r: nat)
    requires n < 2 && r < 0x20
    ensures var v := 0x40 * q + 0x20 * n + r;
            v / 0x40 == q && v / 0x20 % 2 == n && v % 0x20 == r && v % 0x40 == 0x20 * n + r
  {
    var v := 0x40 * q + 0x20 * n + r;
    DivUnique(v, 0x40, q, 0x20 * n + r);
    DivUnique(v, 0x20, 2 * q + n, r);
    DivUnique(2 * q + n, 2, q, n);
  }

  lemma IsParts(v: nat)
    ensures v == 0x40 * (v / 0x40) + 0x20 * (v / 0x20 % 2) + v % 0x20
  {
    DivUnique(v, 0x40, v / 0x20 / 2, 0x20 * (v / 0x20 % 2) + v % 0x20);
  }

  /** A note is bit 5 of one of the nine channel registers; a rhythm note is one of the low five bits of register 0xBD while
      bit 5 there turns the rhythm section on. */
  lemma StartsWhen(reg: nat, val: Byte)
    ensures Starts(reg, val) <==> val / 0x20 % 2 == 1 && (0xB0 <= reg < 0xB0 + 9 || (reg == 0xBD && val % 0x20 != 0))
  {
    IsParts(val);
    Parts(val / 0x40, val / 0x20 % 2, val % 0x20);
  }

  /** Silencing clears the note bits, and nothing else; rhythm notes of the first bank only. */
  lemma SilencedParts(reg: nat, val: Byte)
    ensures Silenced(reg, val) / 0x40 == val / 0x40
    ensures Silenced(reg, val) / 0x20 % 2 == if 0xB0 <= reg % 0x100 < 0xB0 + 9 then 0 else val / 0x20 % 2
    ensures Silenced(reg, val) % 0x20 == if reg == 0xBD then 0 else val % 0x20
  {
    var q, n, r := val / 0x40, val / 0x20 % 2, val % 0x20;
    IsParts(val);
    Parts(q, n, r);
    Parts(q, 0, r);
    Parts(q, n, 0);
  }

  /** A capture does not begin with a note in its first registers, but for rhythm notes of the second bank. */
  lemma BeginsSilent(reg: nat, val: Byte)
    requires reg < 0x200 && reg != 0x1BD
    ensures !Starts(reg % 0x100, Silenced(reg, val))
  {
    hide Silenced, Starts;
    SilencedParts(reg, val);
    StartsWhen(reg % 0x100, Silenced(reg, val));
  }

  /** What WriteCache writes for the first `n` registers of both banks. */
  function Initial(cache: seq<Byte>, n: nat): seq<Timed>
    requires |cache| == 512 && n <= 256
  {
    if n == 0 then [] else
      Initial(cache, n - 1) + InitialOne(n - 1, cache[n - 1]) + InitialOne(0x100 + n - 1, cache[0x100 + n - 1])
  }

  function InitialOne(reg: nat, val: nat): seq<Timed> {
    if Silenced(reg, val) != 0 && OplTables.Recorded(reg % 0x100) then [Timed(0, reg, Silenced(reg, val))] else []
  }

  /** Four-operator mode makes it an OPL3 capture, a note on the second chip one of two OPL2 chips. */
  function Needed(h: Hardware, reg: nat, val: nat, cache: seq<Byte>): Hardware
    requires |cache| == 512
  {
    if h != Opl3 && reg == 0x104 && val != 0 && cache[0x105] != 0 then Opl3
    else if h == Opl2 && 0x1B0 <= reg <= 0x1B8 && val != 0 then DualOpl2
    else h
  }

  function Rank(h: Hardware): nat { match h case Opl2 => 0 case DualOpl2 => 1 case Opl3 => 2 }

  /** The hardware never becomes less; it is an OPL3 from the first four-operator write in OPL3 mode on, and two OPL2 chips
      from the first non-zero write to a channel's note register in the second bank on, if it was one until then. */
  lemma NeededMeans(h: Hardware, reg: nat, val: nat, cache: seq<Byte>)
    requires |cache| == 512
    ensures Rank(h) <= Rank(Needed(h, reg, val, cache))
    ensures Needed(h, reg, val, cache) == Opl3 <==> h == Opl3 || (reg == 0x104 && val > 0 && cache[0x105] > 0)
    ensures Needed(h, reg, val, cache) != Opl2 <==>
              h != Opl2 || (reg == 0x104 && val > 0 && cache[0x105] > 0) || (0x1B0 <= reg < 0x1B0 + 9 && val > 0)
  {
  }

  /** The hardware that the first `n` registers of both banks need. */
  function InitialHardware(cache: seq<Byte>, n: nat): Hardware
    requires |cache| == 512 && n <= 256
  {
    if n == 0 then Opl2 else
      NeededSilenced(NeededSilenced(InitialHardware(cache, n - 1), n - 1, cache), 0x100 + n - 1, cache)
  }

  function NeededSilenced(h: Hardware, reg: nat, cache: seq<Byte>): Hardware
    requires |cache| == 512 && reg < 512
  {
    Needed(h, reg, Silenced(reg, cache[reg]), cache)
  }

  /** The write is none that a running capture ignores: its register is recorded and gets a new value. */
  predicate Counts(w: PortWrite, cache: seq<Byte>)
    requires |cache| == 512 && w.reg < 512
  {
    OplTables.Recorded(w.reg % 0x100) && cache[w.reg] != w.val
  }

  /** The ticks since the last write of a capture. */
  function Passed(t: Take, w: PortWrite): nat { (w.ticks - (t.start + t.time)) % U32 }

  const LONGEST_PAUSE: nat := 30000

  function FirstTake(w: PortWrite, cache: seq<Byte>): Take
    requires |cache| == 512 && w.reg < 512
  {
    Take(w.ticks, Initial(cache, 256) + [Timed(0, w.reg, w.val)], 0, Needed(InitialHardware(cache, 256), w.reg, w.val, cache), 0)
  }

  function Longer(t: Take, w: PortWrite, cache: seq<Byte>): Take
    requires |cache| == 512 && w.reg < 512
  {
    var time := t.time + Passed(t, w);
    Take(t.start, t.log + [Timed(time, w.reg, w.val)], time, Needed(t.hardware, w.reg, w.val, cache), 0)
  }

  /** No capture runs, or it has just ended: a note that is switched on begins one. */
  function Begun(done: seq<Take>, w: PortWrite, cache: seq<Byte>): Plan
    requires |cache| == 512 && w.reg < 512
  {
    if Starts(w.reg % 0x100, w.val) && w.creates then Running(done, FirstTake(w, cache)) else Idle(done)
  }

  function Next(p: Plan, w: PortWrite, cache: seq<Byte>): Plan
    requires |cache| == 512 && w.reg < 512
  {
    if p.Running? then
      if !Counts(w, cache) then p
      else if Passed(p.take, w) <= LONGEST_PAUSE then p.(take := Longer(p.take, w, cache))
      else Begun(p.done + [p.take.(pause := Passed(p.take, w))], w, cache)
    else Begun(p.done, w, cache)
  }

  predicate InRange(writes: seq<PortWrite>) { forall w <- writes :: w.reg < 512 && w.ticks < U32 }

  /** The registers after some writes. */
  function CacheAfter(writes: seq<PortWrite>, registers: seq<Byte>): (cache: seq<Byte>)
    requires |registers| == 512 && InRange(writes)
    ensures |cache| == 512
  {
    if writes == [] then registers else
      var w := writes[|writes| - 1];
      CacheAfter(writes[..|writes| - 1], registers)[w.reg := w.val]
  }

  function PlanAfter(writes: seq<PortWrite>, registers: seq<Byte>): Plan
    requires |registers| == 512 && InRange(writes)
  {
    if writes == [] then Idle([]) else
      var before := writes[..|writes| - 1];
      Next(PlanAfter(before, registers), writes[|writes| - 1], CacheAfter(before, registers))
  }

  /** All captures of a session that has come to its end. */
  function Takes(writes: seq<PortWrite>, registers: seq<Byte>): seq<Take>
    requires |registers| == 512 && InRange(writes)
  {
    var p := PlanAfter(writes, registers);
    if p.Running? then p.done + [p.take] else p.done
  }

  /** The file holds capture `t`: a player gets exactly its writes back, each at its time, and the header counts the
      pairs and the milliseconds, those of the pause that ended the capture included. */
  ghost predicate Holds(f: File, t: Take) {
    && |f.data| % 2 == 0 && Writes(f.data, f.table) == t.log && Elapsed(f.data) == t.time
    && f.header == Header(t.hardware, |f.data| / 2 % U32, (t.time + t.pause) % U32)
  }

  ghost predicate AllHold(files: seq<File>, takes: seq<Take>) {
    |files| == |takes| && forall k :: 0 <= k < |files| ==> Holds(files[k], takes[k])
  }

  class OplCapture {
    const tables: Tables
    const buf: array<Byte>
    var bufUsed: nat
    var handle: bool
    var header: Header
    // what was written to the open file after its header and conversion table
    var data: seq<Byte>
    var startTicks: nat
    var lastTicks: nat
    // the files that were closed
    var closed: seq<File>
    // the captures so far, as the inputs tell them
    ghost var plan: Plan

    ghost function Stream(): seq<Byte>
      requires bufUsed <= buf.Length
      reads this, buf
    { data + buf[..bufUsed] }

    ghost function Table(): seq<nat>
      requires tables.toReg.Length >= RAW_USED
      reads tables.toReg
    { tables.toReg[..RAW_USED] }

    /** The tables are complete and nobody else's. */
    ghost predicate Ready()
      reads tables, tables.toReg, tables.toRaw
    {
      && tables.Valid() && tables.used == RAW_USED && Covers(tables.toRaw[..], 24, 9)
      && buf.Length == BUFFER_SIZE
    }

    /** The buffer and the open file hold the capture that runs, so far. */
    ghost predicate Holding(t: Take)
      requires bufUsed <= buf.Length && tables.toReg.Length >= RAW_USED
      reads this, buf, tables.toReg
    {
      && |data| % 2 == 0 && header == Header(t.hardware, |data| / 2 % U32, (t.time + t.pause) % U32)
      && Writes(Stream(), Table()) == t.log && Elapsed(Stream()) == t.time
    }

    /** The files hold the captures of the plan. */
    ghost predicate Valid()
      reads this, buf, tables, tables.toReg, tables.toRaw
    {
      && Ready() && bufUsed < BUFFER_SIZE && bufUsed % 2 == 0
      && handle == plan.Running?
      && (if handle then Holding(plan.take) && plan.take.pause == 0 && startTicks == plan.take.start < U32 &&
                         lastTicks == (startTicks + plan.take.time) % U32
          else bufUsed == 0)
      && AllHold(closed, plan.done)
    }

    constructor ()
      ensures Valid() && plan == Idle([]) && fresh(tables) && fresh(tables.toReg) && fresh(tables.toRaw) && fresh(buf)
    {
      tables := new Tables();
      buf := new Byte[BUFFER_SIZE];
      bufUsed, handle, header, data := 0, false, Header(Opl2, 0, 0), [];
      startTicks, lastTicks, closed, plan := 0, 0, [], Idle([]);
    }

    /** ClearBuf */
    method ClearBuf()
      requires bufUsed <= buf.Length
      modifies this`data, this`header, this`bufUsed
      ensures data == old(Stream()) && bufUsed == 0
      ensures header == old(header).(commands := (old(header).commands + old(bufUsed) / 2) % U32)
    {
      data := data + buf[..bufUsed];
      header := header.(commands := (header.commands + bufUsed / 2) % U32);
      bufUsed := 0;
    }

    /** AddBuf */
    method AddBuf(raw: Byte, val: Byte)
      requires buf.Length == BUFFER_SIZE && bufUsed < BUFFER_SIZE && bufUsed % 2 == 0
      requires |data| % 2 == 0 && header.commands == |data| / 2 % U32
      modifies this`data, this`header, this`bufUsed, buf
      ensures bufUsed < BUFFER_SIZE && bufUsed % 2 == 0 && Stream() == old(Stream()) + [raw, val]
      ensures |data| % 2 == 0 && header == old(header).(commands := header.commands) && header.commands == |data| / 2 % U32
    {
      buf[bufUsed] := raw;
      bufUsed := bufUsed + 1;
      buf[bufUsed] := val;
      bufUsed := bufUsed + 1;
      assert buf[..bufUsed] == old(buf[..bufUsed]) + [raw, val];
      if bufUsed >= BUFFER_SIZE {
        CountPairs(|data|, bufUsed);
        ClearBuf();
      }
    }

    /** WriteCache: the registers that are not zero, with all notes silenced. */
    method WriteCache(cache: seq<Byte>)
      requires Ready() && bufUsed == 0 && data == [] && header == Header(Opl2, 0, 0) && |cache| == 512
      modifies this`data, this`header, this`bufUsed, buf
      ensures Ready() && bufUsed < BUFFER_SIZE && bufUsed % 2 == 0
      ensures |data| % 2 == 0 && header.milliseconds == old(header).milliseconds && header.commands == |data| / 2 % U32
      ensures Elapsed(Stream()) == 0 && Writes(Stream(), Table()) == Initial(cache, 256)
      ensures header.hardware == InitialHardware(cache, 256)
    {
      hide Inverse, Covers, OplTables.Recorded, Silenced;
      assert Stream() == [];
      var i := 0;
      while i < 256
        invariant 0 <= i <= 256 && Ready() && bufUsed < BUFFER_SIZE && bufUsed % 2 == 0
        invariant |data| % 2 == 0 && header.milliseconds == old(header).milliseconds && header.commands == |data| / 2 % U32
        invariant Elapsed(Stream()) == 0 && Writes(Stream(), Table()) == Initial(cache, i)
        invariant header.hardware == InitialHardware(cache, i)
        modifies this`data, this`header, this`bufUsed, buf
      {
        hide Elapsed, Writes;
        WriteOne(i, cache);
        WriteOne(0x100 + i, cache);
        i := i + 1;
      }
    }

    method WriteOne(i: nat, cache: seq<Byte>)
      requires Ready() && bufUsed < BUFFER_SIZE && bufUsed % 2 == 0 && i < 512 && |cache| == 512
      requires |data| % 2 == 0 && header.commands == |data| / 2 % U32 && Elapsed(Stream()) == 0
      modifies this`data, this`header, this`bufUsed, buf
      ensures Ready() && bufUsed < BUFFER_SIZE && bufUsed % 2 == 0
      ensures |data| % 2 == 0 && header.milliseconds == old(header).milliseconds && header.commands == |data| / 2 % U32
      ensures Elapsed(Stream()) == 0 && Writes(Stream(), Table()) == old(Writes(Stream(), Table())) + InitialOne(i, cache[i])
      ensures header.hardware == NeededSilenced(old(header.hardware), i, cache)
    {
      hide Inverse, Covers, OplTables.Recorded, Elapsed, Writes;
      var val := cache[i];
      if 0xB0 <= i % 0x100 <= 0xB8 {
        val := if val / 0x20 % 2 == 1 then val - 0x20 else val;
      }
      if i == 0xBD {
        val := val - val % 0x20;
      }
      if val != 0 {
        AddWrite(i, val, cache);
      }
    }

    /** AddWrite: a recorded register goes to the stream under its raw code. */
    method AddWrite(reg: nat, val: Byte, cache: seq<Byte>)
      requires Ready() && bufUsed < BUFFER_SIZE && bufUsed % 2 == 0 && reg < 512 && |cache| == 512
      requires |data| % 2 == 0 && header.commands == |data| / 2 % U32
      modifies this`data, this`header, this`bufUsed, buf
      ensures Ready() && bufUsed < BUFFER_SIZE && bufUsed % 2 == 0
      ensures |data| % 2 == 0 && header.milliseconds == old(header).milliseconds && header.commands == |data| / 2 % U32
      ensures Elapsed(Stream()) == old(Elapsed(Stream()))
      ensures Writes(Stream(), Table()) == old(Writes(Stream(), Table())) +
              (if OplTables.Recorded(reg % 0x100) then [Timed(old(Elapsed(Stream())), reg, val)] else [])
      ensures header.hardware == Needed(old(header.hardware), reg, val, cache)
    {
      hide Writes, Elapsed, Inverse, Covers, OplTables.Recorded, RegisterOf;
      DetectHardware(reg, val, cache);
      var raw := tables.toRaw[reg % 0x100];
      RawCode(tables.toReg[..], tables.toRaw[..], reg);
      if raw == NO_ENTRY {
        return;
      }
      if reg / 0x100 % 2 == 1 {
        raw := raw + 0x80;
      }
      PairAppended(Stream(), raw, val, Table());
      AddBuf(raw, val);
    }

    /** The hardware checks of AddWrite. */
    method DetectHardware(reg: nat, val: Byte, cache: seq<Byte>)
      requires |cache| == 512
      modifies this`header
      ensures header == old(header).(hardware := Needed(old(header.hardware), reg, val, cache))
    {
      if header.hardware != Opl3 && reg == 0x104 && val != 0 && cache[0x105] != 0 {
        header := header.(hardware := Opl3);
      }
      if header.hardware == Opl2 && 0x1B0 <= reg <= 0x1B8 && val != 0 {
        header := header.(hardware := DualOpl2);
      }
    }

    /** The delay codes for `passed` ms. */
    method AddDelay(passed: nat)
      requires Ready() && bufUsed < BUFFER_SIZE && bufUsed % 2 == 0 && passed <= LONGEST_PAUSE
      requires |data| % 2 == 0 && header.commands == |data| / 2 % U32
      modifies this`data, this`header, this`bufUsed, buf
      ensures Ready() && bufUsed < BUFFER_SIZE && bufUsed % 2 == 0
      ensures |data| % 2 == 0 && header.milliseconds == old(header).milliseconds && header.commands == |data| / 2 % U32
      ensures Elapsed(Stream()) == old(Elapsed(Stream())) + passed && Writes(Stream(), Table()) == old(Writes(Stream(), Table()))
      ensures header.hardware == old(header.hardware)
    {
      hide Writes, Elapsed, Inverse, Covers;
      var left := passed;
      while left > 0
        invariant Ready() && bufUsed < BUFFER_SIZE && bufUsed % 2 == 0 && 0 <= left <= passed
        invariant |data| % 2 == 0 && header.milliseconds == old(header).milliseconds && header.commands == |data| / 2 % U32
        invariant Elapsed(Stream()) + left == old(Elapsed(Stream())) + passed && header.hardware == old(header.hardware)
        invariant Writes(Stream(), Table()) == old(Writes(Stream(), Table()))
        modifies this`data, this`header, this`bufUsed, buf
      {
        if left < 257 {
          PairAppended(Stream(), DELAY256, left - 1, Table());
          AddBuf(DELAY256, left - 1);
          left := 0;
        } else {
          var shift := left / 256;
          PairAppended(Stream(), DELAY_SHIFT8, shift - 1, Table());
          left := left - shift * 256;
          AddBuf(DELAY_SHIFT8, shift - 1);
        }
      }
    }

    /** CloseFile: the rest of the buffer and the header are written. */
    method CloseFile()
      requires Ready() && bufUsed < BUFFER_SIZE && bufUsed % 2 == 0 && AllHold(closed, plan.done)
      requires handle == plan.Running? && if handle then Holding(plan.take) else bufUsed == 0
      modifies this`data, this`header, this`bufUsed, this`handle, this`closed, this`plan
      ensures Valid() && plan == Idle(if old(plan).Running? then old(plan).done + [old(plan).take] else old(plan).done)
      ensures closed == old(closed) + if !old(handle) then [] else
                          [File(old(header).(commands := |old(Stream())| / 2 % U32), Table(), old(Stream()))]
    {
      hide Writes, Elapsed, Inverse, Covers;
      if handle {
        CountPairs(|data|, bufUsed);
        ClearBuf();
        closed := closed + [File(header, tables.toReg[..RAW_USED], data)];
        plan := Idle(plan.done + [plan.take]);
        handle := false;
      }
    }

    /** The part of DoWrite that starts a capture: the register cache at time zero, then the write itself. */
    method Start(reg: nat, val: Byte, cache: seq<Byte>, ticks: nat, creates: bool) returns (ok: bool)
      requires Valid() && plan.Idle? && reg < 512 && |cache| == 512 && ticks < U32
      modifies this`data, this`header, this`bufUsed, this`handle, this`startTicks, this`lastTicks, this`plan, buf
      ensures Valid() && ok == (Starts(reg % 0x100, val) ==> creates)
      ensures plan == Begun(old(plan).done, PortWrite(reg, val, ticks, creates), cache)
    {
      if !Starts(reg % 0x100, val) {
        return true;
      }
      if !creates {
        return false;
      }
      StartsRecorded(reg % 0x100, val);
      hide Elapsed, Writes, Initial, InitialHardware, Needed, Inverse, Covers, OplTables.Recorded, Starts, AllHold;
      Begin(reg, val, cache, ticks, creates);
      ok := true;
    }

    /** A new file: header, conversion table, register cache and the write that began it. */
    method Begin(reg: nat, val: Byte, cache: seq<Byte>, ticks: nat, ghost creates: bool)
      requires Ready() && bufUsed == 0 && reg < 512 && |cache| == 512 && ticks < U32 && OplTables.Recorded(reg % 0x100)
      requires AllHold(closed, plan.done)
      modifies this`data, this`header, this`bufUsed, this`handle, this`startTicks, this`lastTicks, this`plan, buf
      ensures Valid() && plan == Running(old(plan).done, FirstTake(PortWrite(reg, val, ticks, creates), cache))
    {
      hide Elapsed, Writes, Inverse, Covers, OplTables.Recorded, AllHold, Tables.Valid, Initial, InitialHardware, Needed;
      handle := true;
      header := Header(Opl2, 0, 0);
      data := [];
      WriteCache(cache);
      AddWrite(reg, val, cache);
      lastTicks, startTicks := ticks, ticks;
      plan := Running(plan.done, FirstTake(PortWrite(reg, val, ticks, creates), cache));
    }

    /** A delay and a write */
    method Emit(reg: nat, val: Byte, cache: seq<Byte>, passed: nat)
      requires Ready() && bufUsed < BUFFER_SIZE && bufUsed % 2 == 0 && reg < 512 && |cache| == 512 && passed <= LONGEST_PAUSE
      requires |data| % 2 == 0 && header.commands == |data| / 2 % U32 && OplTables.Recorded(reg % 0x100)
      modifies this`data, this`header, this`bufUsed, buf
      ensures Ready() && bufUsed < BUFFER_SIZE && bufUsed % 2 == 0
      ensures |data| % 2 == 0 && header.milliseconds == old(header).milliseconds && header.commands == |data| / 2 % U32
      ensures header.hardware == Needed(old(header.hardware), reg, val, cache)
      ensures Elapsed(Stream()) == old(Elapsed(Stream())) + passed
      ensures Writes(Stream(), Table()) == old(Writes(Stream(), Table())) + [Timed(old(Elapsed(Stream())) + passed, reg, val)]
    {
      hide *;
      AddDelay(passed);
      AddWrite(reg, val, cache);
    }

    /** A write that is recorded while a capture runs. */
    method Record(reg: nat, val: Byte, cache: seq<Byte>, passed: nat, ticks: nat, ghost w: PortWrite)
      requires Valid() && handle && reg < 512 && |cache| == 512 && OplTables.Recorded(reg % 0x100)
      requires w.reg == reg && w.val == val && w.ticks == ticks < U32
      requires passed == (ticks - lastTicks) % U32 && passed == Passed(plan.take, w) && passed <= LONGEST_PAUSE
      modifies this`data, this`header, this`bufUsed, this`lastTicks, this`plan, buf
      ensures Valid() && plan == old(plan).(take := Longer(old(plan).take, w, cache))
    {
      hide Elapsed, Writes, Inverse, Covers, OplTables.Recorded, AllHold, Tables.Valid, Initial, Needed, Passed;
      ghost var t := plan.take.time;
      TicksAdvance(startTicks, lastTicks, t, ticks, passed);
      SumWraps(t, passed);
      lastTicks := ticks;
      header := header.(milliseconds := (header.milliseconds + passed) % U32);
      Emit(reg, val, cache, passed);
      plan := plan.(take := Longer(plan.take, w, cache));
    }

    /** More than 30 s have passed: the file is closed, its header counting the milliseconds that no delay code tells. */
    method Cut(passed: nat, ticks: nat)
      requires Valid() && handle && passed < U32
      modifies this`data, this`header, this`bufUsed, this`handle, this`closed, this`plan, this`lastTicks
      ensures Valid() && plan == Idle(old(plan).done + [old(plan).take.(pause := passed)])
    {
      hide Elapsed, Writes, Inverse, Covers, AllHold, Tables.Valid;
      ghost var t := plan.take.time;
      SumWraps(t, passed);
      lastTicks := ticks;
      header := header.(milliseconds := (header.milliseconds + passed) % U32);
      plan := plan.(take := plan.take.(pause := passed));
      CloseFile();
    }

    /** DoWrite follows the plan, and fails only where a file cannot be created. */
    method DoWrite(reg: nat, val: Byte, cache: seq<Byte>, ticks: nat, creates: bool) returns (ok: bool)
      requires Valid() && reg < 512 && |cache| == 512 && ticks < U32
      modifies this, buf
      ensures Valid() && plan == Next(old(plan), PortWrite(reg, val, ticks, creates), cache)
      ensures ok <==> creates || plan.Running? || !Starts(reg % 0x100, val)
    {
      hide Elapsed, Writes, Inverse, Covers, OplTables.Recorded, Initial, InitialHardware, Needed, Starts, AllHold;
      ghost var w := PortWrite(reg, val, ticks, creates);
      if handle {
        RawCode(tables.toReg[..], tables.toRaw[..], reg);
        if tables.toRaw[reg % 0x100] == NO_ENTRY {
          return true;
        }
        if cache[reg] == val {
          return true;
        }
        var passed := (ticks - lastTicks) % U32;
        SamePause(plan.take, lastTicks, ticks, w);
        if passed <= LONGEST_PAUSE {
          Record(reg, val, cache, passed, ticks, w);
          return true;
        }
        Cut(passed, ticks);
      }
      ok := Start(reg, val, cache, ticks, creates);
    }
  }

  lemma SamePause(t: Take, last: nat, ticks: nat, w: PortWrite)
    requires last == (t.start + t.time) % U32 && w.ticks == ticks
    ensures Passed(t, w) == (ticks - last) % U32
  {
  }

  /** Raw codes are below the delay codes, also with the bank bit, and lead back to their register. */
  lemma RawCode(toReg: seq<nat>, toRaw: seq<nat>, reg: nat)
    requires Inverse(toReg, toRaw, RAW_USED) && Covers(toRaw, 24, 9) && reg < 512
    ensures toRaw[reg % 0x100] == NO_ENTRY <==> !OplTables.Recorded(reg % 0x100)
    ensures toRaw[reg % 0x100] != NO_ENTRY ==>
              var raw := toRaw[reg % 0x100] + (if reg / 0x100 % 2 == 1 then 0x80 else 0);
              raw < 0x100 && !IsDelay(raw) && RegisterOf(raw, toReg[..RAW_USED]) == reg
  {
  }

  lemma StartsRecorded(reg: nat, val: Byte)
    requires Starts(reg, val)
    ensures OplTables.Recorded(reg)
  {
  }

  lemma TicksAdvance(start: nat, last: nat, t: nat, ticks: nat, passed: nat)
    requires last == (start + t) % U32 && ticks < U32 && passed == (ticks - last) % U32
    ensures ticks == (start + (t + passed)) % U32
  {
  }

  lemma SumWraps(t: nat, passed: nat)
    ensures (t % U32 + passed) % U32 == (t + passed) % U32
  {
  }

  lemma CountPairs(flushed: nat, buffered: nat)
    requires flushed % 2 == 0 && buffered % 2 == 0
    ensures (flushed / 2 % U32 + buffered / 2) % U32 == (flushed + buffered) / 2 % U32 && (flushed + buffered) % 2 == 0
  {
    assert (flushed + buffered) / 2 == flushed / 2 + buffered / 2;
  }

  /** A capture ends by a pause of more than 30 s or with the session, never otherwise. */
  ghost predicate EndedByPause(t: Take) { 30000 < t.pause < U32 }

  ghost predicate PausesOk(p: Plan) {
    (forall t <- p.done :: EndedByPause(t)) && (p.Running? ==> p.take.pause == 0)
  }

  lemma {:induction false} PlanPauses(writes: seq<PortWrite>, registers: seq<Byte>)
    requires |registers| == 512 && InRange(writes)
    ensures PausesOk(PlanAfter(writes, registers))
  {
    hide Starts, Counts, Initial, InitialHardware, Needed;
    if writes != [] {
      PlanPauses(writes[..|writes| - 1], registers);
    }
  }

  /** The times of the writes of a capture never run backwards nor stand still for more than 30 s, the first ones are at
      time zero, and the last one came at the tick that its time tells. */
  ghost predicate TimesOk(t: Take, writes: seq<PortWrite>) {
    && t.log != [] && t.log[0].time == 0 && t.log[|t.log| - 1].time == t.time
    && (forall j :: 0 < j < |t.log| ==> t.log[j - 1].time <= t.log[j].time <= t.log[j - 1].time + 30000)
    && (exists w <- writes :: w.ticks == (t.start + t.time) % U32 && w.reg == t.log[|t.log| - 1].reg && w.val == t.log[|t.log| - 1].val)
  }

  lemma {:induction false} InitialAtZero(cache: seq<Byte>, n: nat)
    requires |cache| == 512 && n <= 256
    ensures forall e <- Initial(cache, n) :: e.time == 0
  {
    if n > 0 {
      InitialAtZero(cache, n - 1);
    }
  }

  lemma MoreWrites(t: Take, writes: seq<PortWrite>)
    requires writes != [] && TimesOk(t, writes[..|writes| - 1])
    ensures TimesOk(t, writes)
  {
  }

  lemma FirstTimes(w: PortWrite, cache: seq<Byte>, writes: seq<PortWrite>)
    requires |cache| == 512 && w.reg < 512 && w.ticks < U32 && w in writes
    ensures TimesOk(FirstTake(w, cache), writes)
  {
    InitialAtZero(cache, 256);
    hide Initial, InitialHardware, Needed;
  }

  lemma LastTick(t: Take, w: PortWrite)
    requires w.ticks < U32
    ensures w.ticks == (t.start + (t.time + Passed(t, w))) % U32
  {
    TicksAdvance(t.start, (t.start + t.time) % U32, t.time, w.ticks, Passed(t, w));
  }

  lemma LongerTimes(t: Take, w: PortWrite, cache: seq<Byte>, writes: seq<PortWrite>)
    requires |cache| == 512 && w.reg < 512 && w.ticks < U32 && w in writes
    requires TimesOk(t, writes) && Passed(t, w) <= LONGEST_PAUSE
    ensures TimesOk(Longer(t, w, cache), writes)
  {
    hide Passed, Needed;
    LastTick(t, w);
    var log := Longer(t, w, cache).log;
    assert log[..|t.log|] == t.log;
    forall j | 0 < j < |log| ensures log[j - 1].time <= log[j].time <= log[j - 1].time + 30000 {
    }
  }

  lemma {:induction false} PlanTimes(writes: seq<PortWrite>, registers: seq<Byte>)
    requires |registers| == 512 && InRange(writes)
    ensures forall t <- Takes(writes, registers) :: TimesOk(t, writes)
  {
    hide Starts, Counts, FirstTake, Longer, TimesOk, Passed;
    if writes != [] {
      var before, w := writes[..|writes| - 1], writes[|writes| - 1];
      PlanTimes(before, registers);
      forall t | t in Takes(before, registers) ensures TimesOk(t, writes) && TimesOk(t.(pause := Passed(t, w)), writes) {
        MoreWrites(t, writes);
        SameTimes(t, Passed(t, w), writes);
      }
      var p, cache := PlanAfter(before, registers), CacheAfter(before, registers);
      FirstTimes(w, cache, writes);
      if p.Running? && Passed(p.take, w) <= LONGEST_PAUSE {
        assert p.take in Takes(before, registers);
        LongerTimes(p.take, w, cache, writes);
      }
    }
  }

  lemma SameTimes(t: Take, pause: nat, writes: seq<PortWrite>)
    requires TimesOk(t, writes)
    ensures TimesOk(t.(pause := pause), writes)
  {
  }

  /** A whole session: the emulator keeps the register cache, and at the end the capture is destroyed.  The files are
      those of Takes: each plays back to its accepted writes in order and in time, and counts them.  The milliseconds in
      its header are those that it plays, unless a pause ended it. */
  method Session(writes: seq<PortWrite>, registers: seq<Byte>) returns (files: seq<File>)
    requires |registers| == 512 && InRange(writes)
    ensures AllHold(files, Takes(writes, registers))
    ensures forall k :: 0 <= k < |files| ==>
              (files[k].header.milliseconds == Elapsed(files[k].data) % U32 <==> k >= |PlanAfter(writes, registers).done|)
  {
    var c := new OplCapture();
    var cache: seq<Byte> := registers;
    var k := 0;
    while k < |writes|
      invariant 0 <= k <= |writes| && c.Valid() && fresh(c.buf)
      invariant cache == CacheAfter(writes[..k], registers) && c.plan == PlanAfter(writes[..k], registers)
    {
      hide Elapsed, Writes, Inverse, Covers, OplTables.Recorded, Initial, Starts, AllHold, Tables.Valid, OplCapture.Ready, Next;
      var w := writes[k];
      assert writes[..k + 1][..k] == writes[..k];
      var ok := c.DoWrite(w.reg, w.val, cache, w.ticks, w.creates);
      cache := cache[w.reg := w.val];
      k := k + 1;
    }
    assert writes[..k] == writes;
    c.CloseFile();
    files := c.closed;
    PlanPauses(writes, registers);
    PausesTold(files, PlanAfter(writes, registers), Takes(writes, registers));
  }

  lemma PausesTold(files: seq<File>, p: Plan, takes: seq<Take>)
    requires PausesOk(p) && takes == (if p.Running? then p.done + [p.take] else p.done) && AllHold(files, takes)
    ensures forall k :: 0 <= k < |files| ==> (files[k].header.milliseconds == Elapsed(files[k].data) % U32 <==> k >= |p.done|)
  {
    forall k | 0 <= k < |files| ensures files[k].header.milliseconds == Elapsed(files[k].data) % U32 <==> k >= |p.done| {
      assert Holds(files[k], takes[k]);
      assert k < |p.done| ==> takes[k] in p.done;
      PauseShows(takes[k].time, takes[k].pause);
    }
  }

  lemma PauseShows(time: nat, pause: nat)
    requires pause < U32
    ensures (time + pause) % U32 == time % U32 <==> pause == 0
  {
  }
}
