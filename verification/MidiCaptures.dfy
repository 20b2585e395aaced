/**
 Capturing MIDI output (src/capture/capture_midi.cpp): a buffered writer of one track.
 */
module MidiCaptures {
  import opened Options
  import opened MidiTracks

  const U32: nat := 0x1_0000_0000
  const BUFFER_SIZE: nat := 4096

  /** A closed file: the four bytes of the track length and the bytes after the header. */
  datatype File = File(length: seq<Byte>, track: seq<Byte>)

  function BigEndian(n: nat): seq<Byte> { [n / 0x100_0000 % 0x100, n / 0x1_0000 % 0x100, n / 0x100 % 0x100, n % 0x100] }

  function ReadBigEndian(s: seq<Byte>): nat
    requires |s| == 4
  {
    var b: seq<nat> := s;
    ((b[0] * 0x100 + b[1]) * 0x100 + b[2]) * 0x100 + b[3]
  }

  lemma LengthRoundTrip(n: nat)
    requires n < U32
    ensures ReadBigEndian(BigEndian(n)) == n
  {
    var a := n / 0x100;
    var b := a / 0x100;
    BitArithmetic.DivUnique(n, 0x1_0000, b, a % 0x100 * 0x100 + n % 0x100);
    BitArithmetic.DivUnique(n, 0x100_0000, b / 0x100, (b % 0x100 * 0x100 + a % 0x100) * 0x100 + n % 0x100);
    assert b / 0x100 < 0x100;
  }

  class MidiCapture {
    var handle: bool
    const buffer: array<Byte>
    var bytesUsed: nat
    var bytesWritten: nat
    var lastTick: nat
    // what was written to the file after its header
    var file: seq<Byte>
    var closed: seq<File>
    ghost var events: seq<Event>

    ghost function Stream(): seq<Byte>
      requires bytesUsed <= buffer.Length
      reads this, buffer
    { file + buffer[..bytesUsed] }

    /** The buffer alone. */
    ghost predicate Counted()
      reads this
    {
      buffer.Length == BUFFER_SIZE && bytesUsed < BUFFER_SIZE && bytesWritten == |file| % U32
    }

    ghost predicate Valid()
      reads this, buffer
    {
      && Counted() && lastTick < U32
      && (!handle ==> bytesUsed == 0 && file == [] && events == [])
      && (handle ==> Stream() == EncodeAll(events) && forall e <- events :: Proper(e.message))
    }

    constructor ()
      ensures Valid() && !handle && closed == [] && fresh(buffer)
    {
      buffer := new Byte[BUFFER_SIZE](_ => 0);
      handle, bytesUsed, bytesWritten, lastTick, file, closed, events := false, 0, 0, 0, [], [], [];
    }

    /** raw_midi_add */
    method Add(b: Byte)
      requires Counted()
      modifies this`bytesUsed, this`bytesWritten, this`file, buffer
      ensures Counted() && Stream() == old(Stream()) + [b]
    {
      buffer[bytesUsed] := b;
      bytesUsed := bytesUsed + 1;
      assert buffer[..bytesUsed] == old(buffer[..bytesUsed]) + [b];
      if bytesUsed >= BUFFER_SIZE {
        WrittenMore(|file|, bytesUsed);
        bytesWritten := (bytesWritten + bytesUsed) % U32;
        file := file + buffer[..];
        bytesUsed := 0;
      }
    }

    /** raw_midi_add_number */
    method AddNumber(val: nat)
      requires Counted()
      modifies this`bytesUsed, this`bytesWritten, this`file, buffer
      ensures Counted() && Stream() == old(Stream()) + Vlq(val)
    {
      hide Septet;
      ghost var s := Stream();
      ghost var a := if val / 0x20_0000 % 0x80 != 0 then [Septet(val / 0x20_0000)] else [];
      ghost var b := if val / 0x4000 % 0x4000 != 0 then [Septet(val / 0x4000)] else [];
      ghost var c := if val / 0x80 % 0x20_0000 != 0 then [Septet(val / 0x80)] else [];
      Regroup(s, a, b, c, [val % 0x80]);
      if val / 0x20_0000 % 0x80 != 0 {
        Add(Septet(val / 0x20_0000));
      }
      assert Stream() == s + a;
      if val / 0x4000 % 0x4000 != 0 {
        Add(Septet(val / 0x4000));
      }
      assert Stream() == s + a + b;
      if val / 0x80 % 0x20_0000 != 0 {
        Add(Septet(val / 0x80));
      }
      assert Stream() == s + a + b + c;
      Add(val % 0x80);
    }

    method AddBytes(data: seq<Byte>)
      requires Counted()
      modifies this`bytesUsed, this`bytesWritten, this`file, buffer
      ensures Counted() && Stream() == old(Stream()) + data
    {
      var i := 0;
      while i < |data|
        invariant 0 <= i <= |data| && Counted() && Stream() == old(Stream()) + data[..i]
        modifies this`bytesUsed, this`bytesWritten, this`file, buffer
      {
        Add(data[i]);
        assert data[..i + 1] == data[..i] + [data[i]];
        i := i + 1;
      }
      assert data[..i] == data;
    }

    /** The bytes of one event. */
    method AddEvent(delta: nat, m: Message)
      requires Counted()
      modifies this`bytesUsed, this`bytesWritten, this`file, buffer
      ensures Counted() && Stream() == old(Stream()) + Encode(Event(delta, m))
    {
      hide Vlq;
      ghost var s := Stream();
      AddNumber(delta);
      if m.Sysex? {
        Add(0xF0);
        AddNumber(|m.bytes|);
        Regroup(s, Vlq(delta), [0xF0], Vlq(|m.bytes|), m.bytes);
      } else {
        Regroup(s, Vlq(delta), [], [], m.bytes);
      }
      AddBytes(m.bytes);
    }

    /** capture_midi_add_data.  The first message creates the file; the delta is the time since the previous message. */
    method AddData(m: Message, ticks: nat, creates: bool)
      requires Valid() && Proper(m) && ticks < U32
      modifies this, buffer
      ensures Valid() && closed == old(closed)
      ensures handle == (old(handle) || creates)
      ensures handle ==> events == old(events) + [Event(if old(handle) then (ticks - old(lastTick)) % U32 else 0, m)]
      ensures handle ==> lastTick == ticks
    {
      hide EncodeAll, Encode, Proper;
      if !handle {
        if !creates {
          return;
        }
        handle := true;
        lastTick := ticks;
        NothingEncoded();
      }
      var delta := (ticks - lastTick) % U32;
      lastTick := ticks;
      ghost var e := Event(delta, m);
      EncodeMore(events, e);
      AddEvent(delta, m);
      events := events + [e];
    }

    /** Flush the buffer, write the length, close the file and forget everything. */
    method CloseTrack(seeks: bool)
      requires Counted()
      modifies this`handle, this`bytesUsed, this`bytesWritten, this`lastTick, this`file, this`closed, buffer
      ensures Counted() && !handle && bytesUsed == 0 && lastTick == 0 && file == []
      ensures |closed| == |old(closed)| + 1 && closed[..|old(closed)|] == old(closed)
      ensures closed[|old(closed)|].track == old(Stream()) + END_OF_TRACK
      ensures seeks ==> |closed[|old(closed)|].length| == 4 &&
                        ReadBigEndian(closed[|old(closed)|].length) == |closed[|old(closed)|].track| % U32
    {
      hide ReadBigEndian;
      AddBytes(END_OF_TRACK);
      WrittenMore(|file|, bytesUsed);
      bytesWritten := (bytesWritten + bytesUsed) % U32;
      LengthRoundTrip(bytesWritten);
      file := file + buffer[..bytesUsed];
      closed := closed + [File(if seeks then BigEndian(bytesWritten) else [0, 0, 0, 0], file)];
      handle, bytesUsed, bytesWritten, lastTick, file := false, 0, 0, 0, [];
    }

    /** capture_midi_finalise: the end of the track, the rest of the buffer and the track length; `seeks` is whether the
        file can be rewound to write the length. */
    method Finalise(seeks: bool)
      requires Valid()
      modifies this, buffer
      ensures Valid() && !handle && (!old(handle) ==> closed == old(closed))
      ensures old(handle) ==> |closed| == |old(closed)| + 1 && closed[..|old(closed)|] == old(closed)
      ensures old(handle) ==>
                var f := closed[|closed| - 1];
                && f.track == EncodeAll(old(events)) + END_OF_TRACK
                && Parse(f.track) == Some(SeenAll(old(events)))
                && (seeks ==> |f.length| == 4 && ReadBigEndian(f.length) == |f.track| % U32)
    {
      if !handle {
        return;
      }
      hide EncodeAll, Encode, Proper, Parse, SeenAll, BigEndian, ReadBigEndian, Vlq;
      TrackRoundTrip(events);
      CloseTrack(seeks);
      events := [];
    }
  }

  lemma WrittenMore(written: nat, used: nat)
    ensures (written % U32 + used) % U32 == (written + used) % U32
  {
  }

  lemma NothingEncoded()
    ensures EncodeAll([]) == []
  {
  }

  lemma EncodeMore(events: seq<Event>, e: Event)
    ensures EncodeAll(events + [e]) == EncodeAll(events) + Encode(e)
  {
    assert (events + [e])[..|events|] == events;
  }

  /** A message at a time, and whether a file can be created then. */
  datatype Output = Output(message: Message, ticks: nat, creates: bool)

  predicate Dense(outputs: seq<Output>) {
    forall k :: 0 < k < |outputs| ==> Delta(outputs, k) < VLQ_LIMIT
  }

  /** The ticks between a message and the one before. */
  function Delta(outputs: seq<Output>, k: nat): nat
    requires k < |outputs|
  { if k == 0 then 0 else (outputs[k].ticks - outputs[k - 1].ticks) % U32 }

  lemma EventsMore(outputs: seq<Output>, k: nat)
    requires k < |outputs|
    ensures Events(outputs[..k + 1]) == Events(outputs[..k]) + [Event(Delta(outputs, k), outputs[k].message)]
  {
    assert outputs[..k + 1][..k] == outputs[..k];
  }

  /** A whole capture that is written to a file: the file is a track from which all the messages come back in order, with the
      ticks between them modulo 2^28, hence exactly if and only if they follow each other by less than 2^28 ms; and its
      length is stored. */
  method Session(outputs: seq<Output>) returns (c: MidiCapture)
    requires outputs != [] && forall o <- outputs :: Proper(o.message) && o.ticks < U32 && o.creates
    ensures |c.closed| == 1
    ensures Parse(c.closed[0].track) == Some(SeenAll(Events(outputs)))
    ensures Parse(c.closed[0].track) == Some(Events(outputs)) <==> Dense(outputs)
    ensures |c.closed[0].length| == 4 && ReadBigEndian(c.closed[0].length) == |c.closed[0].track| % U32
  {
    hide Parse, Proper, EncodeAll, ReadBigEndian, SeenAll, Events, Dense;
    c := new MidiCapture();
    var k := 0;
    assert Events(outputs[..0]) == [] by {
      NoEvents();
    }
    while k < |outputs|
      invariant 0 <= k <= |outputs| && c.Valid() && c.closed == [] && fresh(c) && fresh(c.buffer)
      invariant c.handle == (k > 0) && (k > 0 ==> c.lastTick == outputs[k - 1].ticks)
      invariant c.events == Events(outputs[..k])
    {
      assert outputs[k] in outputs;
      EventsMore(outputs, k);
      c.AddData(outputs[k].message, outputs[k].ticks, outputs[k].creates);
      k := k + 1;
    }
    assert outputs[..k] == outputs;
    ShortDeltas(outputs);
    DeltasExact(Events(outputs));
    c.Finalise(true);
  }

  /** The events of a capture: the first one at delta 0, the others after the ticks since the one before. */
  function Events(outputs: seq<Output>): (events: seq<Event>)
    ensures |events| == |outputs|
  {
    if outputs == [] then [] else
      var n := |outputs| - 1;
      Events(outputs[..n]) + [Event(Delta(outputs, n), outputs[n].message)]
  }

  lemma {:induction false} ShortDeltas(outputs: seq<Output>)
    ensures Dense(outputs) <==> forall e <- Events(outputs) :: e.delta < VLQ_LIMIT
    decreases |outputs|
  {
    if outputs != [] {
      var n := |outputs| - 1;
      var init, last := outputs[..n], Event(Delta(outputs, n), outputs[n].message);
      assert forall k :: 0 < k < n ==> Delta(init, k) == Delta(outputs, k);
      ShortDeltas(init);
      assert Dense(outputs) <==> Dense(init) && Delta(outputs, n) < VLQ_LIMIT;
      assert forall e :: e in Events(outputs) <==> e in Events(init) || e == last;
    }
  }

  lemma NoEvents()
    ensures Events([]) == []
  {
  }

  lemma Regroup(s: seq<Byte>, a: seq<Byte>, b: seq<Byte>, c: seq<Byte>, d: seq<Byte>)
    ensures s + a + b + c + d == s + (a + b + c + d)
    ensures s + a + d == s + (a + d)
  {
  }
}
