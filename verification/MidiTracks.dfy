/**
 The track of a captured MIDI file: variable-length quantities and events as
 Standard MIDI Files 1.0 defines them, and a parser for them.  The parser extends the
 standard: it also takes the System Common and real-time messages, which the standard
 does not allow as track events.  Of these the emulator captures the former.
 */
module MidiTracks {
  import opened BitArithmetic
  import opened Options

  type Byte = x: nat | x < 0x100

  const VLQ_LIMIT: nat := 0x1000_0000

  /** raw_midi_add_number: seven bits a byte, with a mark on all but the last one. */
  function Vlq(val: nat): seq<Byte> {
    (if val / 0x20_0000 % 0x80 != 0 then [Septet(val / 0x20_0000)] else [])
    + (if val / 0x4000 % 0x4000 != 0 then [Septet(val / 0x4000)] else [])
    + (if val / 0x80 % 0x20_0000 != 0 then [Septet(val / 0x80)] else [])
    + [val % 0x80]
  }

  /** 0x80 | (x & 0x7f) */
  function Septet(x: nat): Byte { 0x80 + x % 0x80 }

  datatype Message = Short(bytes: seq<Byte>) | Sysex(bytes: seq<Byte>)

  datatype Event = Event(delta: nat, message: Message)

  /** MIDI_message_len_by_status; none for data bytes, System Exclusive and 0xff. */
  function MessageLength(status: Byte): nat {
    if status < 0x80 then 0
    else if 0xC0 <= status < 0xE0 then 2
    else if status < 0xF0 then 3
    else if status == 0xF1 || status == 0xF3 then 2
    else if status == 0xF2 then 3
    else if status == 0xF6 || status == 0xF8 || status == 0xFA || status == 0xFB || status == 0xFC || status == 0xFE then 1
    else 0
  }

  /** A voice message has two data bytes, but program change and channel pressure have one; of the system messages song
      position has two, time code quarter frame and song select have one, and tune request, clock, start, continue, stop and
      active sensing have none.  System Exclusive has its own length, and the other statuses are no messages. */
  lemma MessageLengths(status: Byte)
    ensures MessageLength(status) ==
              if status / 16 in {0x8, 0x9, 0xA, 0xB, 0xE} || status == 0xF2 then 1 + 2
              else if status / 16 in {0xC, 0xD} || status in {0xF1, 0xF3} then 1 + 1
              else if status in {0xF6, 0xF8, 0xFA, 0xFB, 0xFC, 0xFE} then 1
              else 0
  {
  }

  /** A whole message of a status that is captured, or a System Exclusive message of a length that can be written. */
  predicate Proper(m: Message) {
    match m
    case Short(bytes) => bytes != [] && MessageLength(bytes[0]) == |bytes|
    case Sysex(bytes) => |bytes| < VLQ_LIMIT
  }

  /** What capture_midi_add_data writes for an event. */
  function Encode(e: Event): seq<Byte> {
    match e.message
    case Short(bytes) => Vlq(e.delta) + bytes
    case Sysex(bytes) => Vlq(e.delta) + [0xF0] + Vlq(|bytes|) + bytes
  }

  function EncodeAll(events: seq<Event>): seq<Byte> {
    if events == [] then [] else EncodeAll(events[..|events| - 1]) + Encode(events[|events| - 1])
  }

  const END_OF_TRACK: seq<Byte> := [0x00, 0xFF, 0x2F, 0x00]

  // ---- the parser ----

  /** A variable-length quantity: bytes with the mark go on, the first one without it ends the number. */
  function ParseNumber(s: seq<Byte>, high: nat): (r: Option<(nat, seq<Byte>)>)
    ensures r.Some? ==> |r.value.1| < |s|
  {
    if s == [] then None
    else if s[0] < 0x80 then Some((high * 0x80 + s[0], s[1..]))
    else ParseNumber(s[1..], high * 0x80 + s[0] % 0x80)
  }

  function ParseMessage(s: seq<Byte>): (r: Option<(Message, seq<Byte>)>)
    ensures r.Some? ==> |r.value.1| < |s|
  {
    if s == [] then None
    else if s[0] == 0xF0 then
      match ParseNumber(s[1..], 0)
      case None => None
      case Some((n, rest)) => if |rest| < n then None else Some((Sysex(rest[..n]), rest[n..]))
    else
      var n := MessageLength(s[0]);
      if n == 0 || |s| < n then None else Some((Short(s[..n]), s[n..]))
  }

  /** The events of a track up to its end-of-track event, which must be the last one. */
  function Parse(s: seq<Byte>): Option<seq<Event>>
    decreases |s|
  {
    match ParseNumber(s, 0)
    case None => None
    case Some((delta, rest)) =>
      if rest == [0xFF, 0x2F, 0x00] then Some([]) else
        match ParseMessage(rest)
        case None => None
        case Some((message, rest')) =>
          match Parse(rest')
          case None => None
          case Some(events) => Some([Event(delta, message)] + events)
  }

  // ---- round trips ----

  lemma ParseStep(b: Byte, s: seq<Byte>, high: nat)
    requires b >= 0x80
    ensures ParseNumber([b] + s, high) == ParseNumber(s, high * 0x80 + b % 0x80)
  {
    assert ([b] + s)[1..] == s;
  }

  lemma ParseLast(b: Byte, s: seq<Byte>, high: nat)
    requires b < 0x80
    ensures ParseNumber([b] + s, high) == Some((high * 0x80 + b, s))
  {
    assert ([b] + s)[1..] == s;
  }

  /** The four groups of seven bits. */
  lemma Groups(val: nat)
    ensures var g3, g2, g1, g0 := val / 0x20_0000 % 0x80, val / 0x4000 % 0x80, val / 0x80 % 0x80, val % 0x80;
            && val % VLQ_LIMIT == ((g3 * 0x80 + g2) * 0x80 + g1) * 0x80 + g0
            && (val / 0x4000 % 0x4000 == g3 * 0x80 + g2) && (val / 0x80 % 0x20_0000 == (g3 * 0x80 + g2) * 0x80 + g1)
  {
    var a := val / 0x80;
    var b := a / 0x80;
    var c := b / 0x80;
    var d := c / 0x80;
    var g3, g2, g1, g0 := c % 0x80, b % 0x80, a % 0x80, val % 0x80;
    DivUnique(val, 0x4000, b, g1 * 0x80 + g0);
    DivUnique(val, 0x20_0000, c, (g2 * 0x80 + g1) * 0x80 + g0);
    DivUnique(b, 0x4000, d, g3 * 0x80 + g2);
    DivUnique(a, 0x20_0000, d, (g3 * 0x80 + g2) * 0x80 + g1);
    DivUnique(val, VLQ_LIMIT, d, ((g3 * 0x80 + g2) * 0x80 + g1) * 0x80 + g0);
  }

  /** One to four groups of seven bits, without leading zeros. */
  function Groups4(g3: nat, g2: nat, g1: nat, g0: nat): seq<Byte>
    requires g3 < 0x80 && g2 < 0x80 && g1 < 0x80 && g0 < 0x80
  {
    if g3 != 0 then [0x80 + g3, 0x80 + g2, 0x80 + g1, g0]
    else if g2 != 0 then [0x80 + g2, 0x80 + g1, g0]
    else if g1 != 0 then [0x80 + g1, g0]
    else [g0]
  }

  lemma VlqGroups(val: nat)
    ensures Vlq(val) == Groups4(val / 0x20_0000 % 0x80, val / 0x4000 % 0x80, val / 0x80 % 0x80, val % 0x80)
  {
    var g3, g2, g1, g0 := val / 0x20_0000 % 0x80, val / 0x4000 % 0x80, val / 0x80 % 0x80, val % 0x80;
    Groups(val);
    assert (val / 0x4000 % 0x4000 != 0) == (g3 != 0 || g2 != 0);
    assert (val / 0x80 % 0x20_0000 != 0) == (g3 != 0 || g2 != 0 || g1 != 0);
  }

  lemma ParseGroups(g3: nat, g2: nat, g1: nat, g0: nat, rest: seq<Byte>)
    requires g3 < 0x80 && g2 < 0x80 && g1 < 0x80 && g0 < 0x80
    ensures ParseNumber(Groups4(g3, g2, g1, g0) + rest, 0) == Some((((g3 * 0x80 + g2) * 0x80 + g1) * 0x80 + g0, rest))
  {
    hide ParseNumber;
    var t0: seq<Byte> := [g0] + rest;
    var t1: seq<Byte> := [0x80 + g1] + t0;
    var t2: seq<Byte> := [0x80 + g2] + t1;
    ParseLast(g0, rest, (g3 * 0x80 + g2) * 0x80 + g1);
    ParseStep(0x80 + g1, t0, g3 * 0x80 + g2);
    ParseStep(0x80 + g2, t1, g3);
    ParseStep(0x80 + g3, t2, 0);
    if g3 != 0 {
      assert Groups4(g3, g2, g1, g0) + rest == [0x80 + g3] + t2;
    } else if g2 != 0 {
      assert Groups4(g3, g2, g1, g0) + rest == t2;
    } else if g1 != 0 {
      assert Groups4(g3, g2, g1, g0) + rest == t1;
    } else {
      assert Groups4(g3, g2, g1, g0) + rest == t0;
    }
  }

  /** Reading back a variable-length quantity gives its low 28 bits; from 2^28 on the upper ones are lost. */
  lemma VlqRoundTrip(val: nat, rest: seq<Byte>)
    ensures ParseNumber(Vlq(val) + rest, 0) == Some((val % VLQ_LIMIT, rest))
  {
    hide Groups4, Vlq, ParseNumber;
    Groups(val);
    VlqGroups(val);
    ParseGroups(val / 0x20_0000 % 0x80, val / 0x4000 % 0x80, val / 0x80 % 0x80, val % 0x80, rest);
  }

  lemma MessageRoundTrip(m: Message, rest: seq<Byte>)
    requires Proper(m)
    ensures ParseMessage((match m case Short(b) => b case Sysex(b) => [0xF0] + Vlq(|b|) + b) + rest) == Some((m, rest))
  {
    hide Vlq, ParseNumber;
    match m
    case Short(b) =>
      assert (b + rest)[0] == b[0] && (b + rest)[..|b|] == b && (b + rest)[|b|..] == rest;
    case Sysex(b) =>
      var s := [0xF0] + Vlq(|b|) + b + rest;
      assert s[1..] == Vlq(|b|) + (b + rest);
      VlqRoundTrip(|b|, b + rest);
      assert (b + rest)[..|b|] == b && (b + rest)[|b|..] == rest;
  }

  /** The event as a parser sees it: the delta is cut to 28 bits. */
  function Seen(e: Event): Event { e.(delta := e.delta % VLQ_LIMIT) }

  lemma EventRoundTrip(e: Event, rest: seq<Byte>)
    requires Proper(e.message) && Parse(rest).Some?
    ensures Parse(Encode(e) + rest) == Some([Seen(e)] + Parse(rest).value)
  {
    hide Vlq, ParseNumber, ParseMessage;
    var body := match e.message case Short(b) => b case Sysex(b) => [0xF0] + Vlq(|b|) + b;
    assert Encode(e) + rest == Vlq(e.delta) + (body + rest);
    VlqRoundTrip(e.delta, body + rest);
    MessageRoundTrip(e.message, rest);
    assert body + rest != [0xFF, 0x2F, 0x00] by {
      assert (body + rest)[0] == body[0];
    }
  }

  function SeenAll(events: seq<Event>): (s: seq<Event>)
    ensures |s| == |events| && forall i :: 0 <= i < |s| ==> s[i] == Seen(events[i])
  { if events == [] then [] else SeenAll(events[..|events| - 1]) + [Seen(events[|events| - 1])] }

  lemma EndParses()
    ensures Parse(END_OF_TRACK) == Some([])
  {
    ParseLast(0, [0xFF, 0x2F, 0x00], 0);
    assert END_OF_TRACK == [0x00] + [0xFF, 0x2F, 0x00];
  }

  lemma {:induction false} PrefixRoundTrip(events: seq<Event>, rest: seq<Byte>)
    requires (forall e <- events :: Proper(e.message)) && Parse(rest).Some?
    ensures Parse(EncodeAll(events) + rest) == Some(SeenAll(events) + Parse(rest).value)
    decreases |events|
  {
    hide Parse, Encode;
    if events == [] {
      assert EncodeAll(events) + rest == rest;
      assert SeenAll(events) + Parse(rest).value == Parse(rest).value;
    } else {
      var init, last := events[..|events| - 1], events[|events| - 1];
      EventRoundTrip(last, rest);
      PrefixRoundTrip(init, Encode(last) + rest);
      assert EncodeAll(events) + rest == EncodeAll(init) + (Encode(last) + rest);
      assert SeenAll(init) + ([Seen(last)] + Parse(rest).value) == SeenAll(events) + Parse(rest).value;
    }
  }

  /** The events of a track can be read back in order; their deltas are exact if and only if they are below 2^28. */
  lemma TrackRoundTrip(events: seq<Event>)
    requires forall e <- events :: Proper(e.message)
    ensures Parse(EncodeAll(events) + END_OF_TRACK) == Some(SeenAll(events))
    ensures Parse(EncodeAll(events) + END_OF_TRACK) == Some(events) <==> forall e <- events :: e.delta < VLQ_LIMIT
  {
    hide *;
    EndParses();
    PrefixRoundTrip(events, END_OF_TRACK);
    assert SeenAll(events) + [] == SeenAll(events);
    DeltasExact(events);
  }

  lemma DeltasExact(events: seq<Event>)
    ensures SeenAll(events) == events <==> forall e <- events :: e.delta < VLQ_LIMIT
  {
    hide SeenAll;
    var seen := SeenAll(events);
    if forall e <- events :: e.delta < VLQ_LIMIT {
      forall i | 0 <= i < |events| ensures seen[i] == events[i] {
        assert events[i] in events;
      }
    } else {
      var i :| 0 <= i < |events| && events[i].delta >= VLQ_LIMIT;
      assert seen[i] != events[i];
    }
  }
}
