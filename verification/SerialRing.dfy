/** The device side of the serial line: an interrupt that unescapes SLIP bytes into a ring with two pointers, of
    which a null one marks empty or full (targets/Arduino_slip/drivers/serial_line.c). */
module SerialRing {
  import opened Slip
  import Rfc1055

  /** What the ring stands for: a queue of at most `cap` bytes. */
  datatype Line = Line(escaped: bool, fifo: Bytes)

  function Put(cap: nat, l: Line, c: int): Line {
    if |l.fifo| < cap then l.(fifo := l.fifo + [c]) else l
  }

  /** One received byte. A full queue drops it, but an escape code still ends the escape. */
  function Arrive(cap: nat, l: Line, c: int): Line {
    if c == END then l
    else if c == ESC then l.(escaped := true)
    else if c == ESC_END && l.escaped then Put(cap, l.(escaped := false), END)
    else if c == ESC_ESC && l.escaped then Put(cap, l.(escaped := false), ESC)
    else Put(cap, l, c)
  }

  // ----- the ring -----

  const NULL := -1

  ghost predicate Pointers(b: Bytes, r: int, w: int) { NULL <= r < |b| && NULL <= w < |b| && r != w }

  /** The bytes between the pointers: none without a reader, all without a writer. */
  function Queue(b: Bytes, r: int, w: int): Bytes
    requires Pointers(b, r, w)
  {
    if r == NULL then []
    else if w == NULL then b[r..] + b[..r]
    else if r < w then b[r..w]
    else b[r..] + b[..w]
  }

  function Next(b: Bytes, i: int): int { if i + 1 == |b| then 0 else i + 1 }

  lemma QueueLength(b: Bytes, r: int, w: int)
    requires Pointers(b, r, w)
    ensures |Queue(b, r, w)| <= |b|
    ensures |Queue(b, r, w)| == |b| <==> w == NULL
    ensures Queue(b, r, w) == [] <==> r == NULL
  {
  }

  /** Taking a byte moves the reader; at the writer the ring is empty. */
  lemma QueueTakes(b: Bytes, r: int, w: int)
    requires Pointers(b, r, w) && r != NULL
    ensures var stop := if w == NULL then r else w;
            var r' := if Next(b, r) == stop then NULL else Next(b, r);
            Pointers(b, r', stop) && Queue(b, r, w) == [b[r]] + Queue(b, r', stop)
  {
    var q := Queue(b, r, w);
    assert b[r..] == [b[r]] + b[r + 1..];
    if w == NULL {
      if r + 1 < |b| { assert q == [b[r]] + (b[r + 1..] + b[..r]); } else { assert q == [b[r]] + b[0..r]; }
    } else if r < w {
      assert q == [b[r]] + b[r + 1..w];
    } else if r + 1 < |b| {
      assert q == [b[r]] + (b[r + 1..] + b[..w]);
    } else {
      assert q == [b[r]] + b[0..w];
    }
  }

  /** Storing a byte moves the writer; at the reader the ring is full. */
  lemma QueuePuts(b: Bytes, r: int, w: int, c: int)
    requires Pointers(b, r, w) && w != NULL
    ensures var first := if r == NULL then w else r;
            var w' := if Next(b, w) == first then NULL else Next(b, w);
            Pointers(b[w := c], first, w') && Queue(b[w := c], first, w') == Queue(b, r, w) + [c]
  {
    var d := b[w := c];
    if r == NULL {
      assert d[w..] == [c] + d[w + 1..];
    } else if r < w {
      assert d[r..w] == b[r..w] && d[r..w + 1] == b[r..w] + [c];
      if w + 1 == |b| { assert d[r..] == d[r..w + 1]; }
    } else {
      assert d[r..] == b[r..] && d[..w + 1] == b[..w] + [c];
      assert b[r..] + (b[..w] + [c]) == b[r..] + b[..w] + [c];
    }
  }

  class SerialLine {
    const buffer: array<int>
    var readPtr: int
    var writePtr: int
    var escaped: bool

    ghost predicate Valid()
      reads this`readPtr, this`writePtr
    {
      && 0 < buffer.Length
      && NULL <= readPtr < buffer.Length && NULL <= writePtr < buffer.Length
      && readPtr != writePtr
    }

    ghost function Fifo(): Bytes
      requires Valid()
      reads this`readPtr, this`writePtr, buffer
    {
      Queue(buffer[..], readPtr, writePtr)
    }

    ghost function View(): Line
      requires Valid()
      reads this, buffer
    {
      Line(escaped, Fifo())
    }

    /** `dev_init`. */
    constructor (inbufSize: nat)
      requires 0 < inbufSize
      ensures Valid() && fresh(buffer) && buffer.Length == inbufSize && View() == Line(false, [])
    {
      buffer := new int[inbufSize];
      writePtr, readPtr, escaped := 0, NULL, false;
    }

    /** The write part of the interrupt. */
    method Write(c: int)
      requires Valid()
      modifies this`readPtr, this`writePtr, buffer
      ensures Valid() && View() == Put(buffer.Length, old(View()), c)
      ensures (writePtr == NULL) <==> |Fifo()| == buffer.Length
    {
      hide Queue;
      QueueLength(buffer[..], readPtr, writePtr);
      if writePtr != NULL {
        QueuePuts(buffer[..], readPtr, writePtr, c);
        ghost var after := buffer[..][writePtr := c];
        if readPtr == NULL { readPtr := writePtr; }
        buffer[writePtr] := c;
        writePtr := writePtr + 1;
        if writePtr == buffer.Length { writePtr := 0; }
        if writePtr == readPtr { writePtr := NULL; }
        assert buffer[..] == after;
        QueueLength(buffer[..], readPtr, writePtr);
      }
    }

    /** The receive interrupt. */
    method Receive(byte: int)
      requires Valid()
      modifies this, buffer
      ensures Valid() && View() == Arrive(buffer.Length, old(View()), byte)
    {
      var c := byte;
      if c == END {
        return;
      } else if c == ESC {
        escaped := true;
        return;
      } else if c == ESC_END {
        if escaped { escaped := false; c := END; }
      } else if c == ESC_ESC {
        if escaped { escaped := false; c := ESC; }
      }
      Write(c);
    }

    /** `read_byte_from_buffer`. */
    method ReadByteFromBuffer() returns (c: int)
      requires Valid() && Fifo() != []
      modifies this`readPtr, this`writePtr
      ensures Valid() && old(Fifo()) == [c] + Fifo()
    {
      hide Queue;
      QueueLength(buffer[..], readPtr, writePtr);
      QueueTakes(buffer[..], readPtr, writePtr);
      if writePtr == NULL { writePtr := readPtr; }
      c := buffer[readPtr];
      readPtr := readPtr + 1;
      if readPtr == buffer.Length { readPtr := 0; }
      if readPtr == writePtr { readPtr := NULL; }
    }

    /** `dev_get`, after its wait: nothing arrived in time, or the oldest byte. */
    method DevGet() returns (c: int)
      requires Valid()
      modifies this`readPtr, this`writePtr
      ensures Valid()
      ensures if old(Fifo()) == [] then c == -1 && Fifo() == [] else old(Fifo()) == [c] + Fifo()
    {
      if readPtr == NULL { return -1; }
      c := ReadByteFromBuffer();
    }
  }

  // ----- whole runs -----

  /** A byte comes in, or the program takes one. */
  datatype Event = In(c: int) | Take

  datatype State = State(line: Line, taken: Bytes)

  function Step(cap: nat, s: State, e: Event): State {
    match e
    case In(c) => s.(line := Arrive(cap, s.line, c))
    case Take =>
      if s.line.fifo == [] then s
      else State(s.line.(fifo := s.line.fifo[1..]), s.taken + [s.line.fifo[0]])
  }

  function Run(cap: nat, s: State, events: seq<Event>): State
    decreases |events|
  {
    if events == [] then s else Run(cap, Step(cap, s, events[0]), events[1..])
  }

  /** The bytes that came in. */
  function Incoming(events: seq<Event>): Bytes
    decreases |events|
  {
    if events == [] then []
    else (if events[0].In? then [events[0].c] else []) + Incoming(events[1..])
  }

  /** The data bytes the line carries. */
  function Plain(escaped: bool, s: Bytes): Bytes
    decreases |s|
  {
    if s == [] then []
    else if s[0] == END then Plain(escaped, s[1..])
    else if s[0] == ESC then Plain(true, s[1..])
    else if s[0] == ESC_END && escaped then [END] + Plain(false, s[1..])
    else if s[0] == ESC_ESC && escaped then [ESC] + Plain(false, s[1..])
    else [s[0]] + Plain(escaped, s[1..])
  }

  /** Never was a byte stored into a full ring. */
  predicate NeverFull(cap: nat, s: State, events: seq<Event>)
    decreases |events|
  {
    events == [] ||
    (&& (events[0].In? && events[0].c != END && events[0].c != ESC ==> |s.line.fifo| < cap)
     && NeverFull(cap, Step(cap, s, events[0]), events[1..]))
  }

  lemma Regroup(t: Bytes, f: Bytes, c: int, p: Bytes)
    ensures t + (f + [c]) + p == t + f + ([c] + p)
    ensures t + f + ([] + p) == t + f + p
  {
  }

  lemma FrontMoves(t: Bytes, f: Bytes, p: Bytes)
    requires f != []
    ensures (t + [f[0]]) + f[1..] + p == t + f + p
  {
    assert [f[0]] + f[1..] == f;
  }

  lemma PlainStep(cap: nat, s: State, c: int, rest: Bytes)
    requires c == END || c == ESC || |s.line.fifo| < cap
    ensures var d := Step(cap, s, In(c));
            d.taken + d.line.fifo + Plain(d.line.escaped, rest) == s.taken + s.line.fifo + Plain(s.line.escaped, [c] + rest)
  {
    assert ([c] + rest)[1..] == rest;
    var d := Arrive(cap, s.line, c);
    if |d.fifo| > |s.line.fifo| {
      Regroup(s.taken, s.line.fifo, d.fifo[|s.line.fifo|], Plain(d.escaped, rest));
    }
  }

  /** Whatever the interleaving of arrivals and reads: what was taken, then what waits, is what came in, unescaped,
      in order and complete, as long as the ring never overflows. */
  lemma {:induction false} NothingIsLost(cap: nat, s: State, events: seq<Event>)
    requires NeverFull(cap, s, events)
    ensures var d := Run(cap, s, events);
            d.taken + d.line.fifo == s.taken + s.line.fifo + Plain(s.line.escaped, Incoming(events))
    decreases |events|
  {
    hide Arrive, Plain;
    if events == [] {
      assert Plain(s.line.escaped, []) == [] by { PlainOfNothing(s.line.escaped); }
      assert s.taken + s.line.fifo + [] == s.taken + s.line.fifo;
    } else {
      NothingIsLost(cap, Step(cap, s, events[0]), events[1..]);
      var rest := Incoming(events[1..]);
      match events[0]
      case In(c) => PlainStep(cap, s, c, rest);
      case Take =>
        assert [] + rest == rest;
        if s.line.fifo != [] { FrontMoves(s.taken, s.line.fifo, Plain(s.line.escaped, rest)); }
    }
  }

  lemma PlainOfNothing(escaped: bool)
    ensures Plain(escaped, []) == []
  {
  }

  lemma {:induction false} RoomIsEnough(cap: nat, s: State, events: seq<Event>)
    requires |s.line.fifo| + |Incoming(events)| <= cap
    ensures NeverFull(cap, s, events)
    decreases |events|
  {
    if events != [] { RoomIsEnough(cap, Step(cap, s, events[0]), events[1..]); }
  }

  // ----- sending: the inverse -----

  /** `dev_put`. */
  method DevPut(byte: int) returns (line: Bytes)
    ensures line == Escape(byte) && Plain(false, line) == [byte]
    ensures Rfc1055.Packets(line + [192], false, []) == [[byte]]
  {
    if byte == END {
      line := [ESC];
      line := line + [ESC_END];
    } else if byte == ESC {
      line := [ESC];
      line := line + [ESC_ESC];
    } else {
      line := [byte];
    }
    PlainEscape(byte, []);
    PeerByte(byte, [192], []);
    assert [] + [byte] == [byte];
    assert [192][1..] == [] && Rfc1055.Packets([192], false, [byte]) == [[byte]] + Rfc1055.Packets([], false, []);
    assert Escape(byte) + [] == Escape(byte) && [byte] + [] == [byte];
  }

  lemma PlainEscape(c: int, rest: Bytes)
    ensures Plain(false, Escape(c) + rest) == [c] + Plain(false, rest)
  {
    var s := Escape(c) + rest;
    if c == END || c == ESC {
      assert s[1..][1..] == rest;
      assert Plain(false, s) == Plain(true, s[1..]);
    } else {
      assert s[1..] == rest;
    }
  }

  lemma {:induction false} PlainOfPacket(p: Bytes, rest: Bytes)
    ensures Plain(false, Escaped(p) + rest) == p + Plain(false, rest)
    decreases |p|
  {
    hide Plain, Escape;
    if p == [] {
      assert Escaped(p) + rest == rest;
    } else {
      assert Escaped(p) + rest == Escape(p[0]) + (Escaped(p[1..]) + rest);
      PlainEscape(p[0], Escaped(p[1..]) + rest);
      PlainOfPacket(p[1..], rest);
      assert [p[0]] + (p[1..] + Plain(false, rest)) == p + Plain(false, rest);
    }
  }

  /** On every line whatsoever, noise included, the device takes the bytes that the host's reader puts into packets. */
  lemma {:induction false} HostAndDeviceAgree(mtu: nat, rx: Rx, s: Bytes)
    requires |rx.buf| + |s| <= mtu
    ensures var r := FeedAll(mtu, rx, s); Flatten(r.out) + r.buf == Flatten(rx.out) + rx.buf + Plain(rx.escaped, s)
    decreases |s|
  {
    if s == [] {
      assert rx.buf + [] == rx.buf;
      assert Flatten(rx.out) + (rx.buf + []) == Flatten(rx.out) + rx.buf + [];
    } else {
      var r := Feed(mtu, rx, s[0]);
      HostAndDeviceAgree(mtu, r, s[1..]);
      HostByte(mtu, rx, s);
    }
  }

  /** The data bytes one received byte brings. */
  function StoredBy(escaped: bool, c: int): Bytes {
    if c == END || c == ESC then []
    else if c == ESC_END && escaped then [END]
    else if c == ESC_ESC && escaped then [ESC]
    else [c]
  }

  lemma PlainBrings(escaped: bool, escaped': bool, s: Bytes)
    requires s != [] && escaped' == (if s[0] == END then escaped else if s[0] == ESC then true else escaped && s[0] != ESC_END && s[0] != ESC_ESC)
    ensures Plain(escaped, s) == StoredBy(escaped, s[0]) + Plain(escaped', s[1..])
  {
  }

  lemma FeedBrings(mtu: nat, rx: Rx, c: int)
    requires |rx.buf| < mtu
    ensures var r := Feed(mtu, rx, c);
            && r.escaped == (if c == END then rx.escaped else if c == ESC then true else rx.escaped && c != ESC_END && c != ESC_ESC)
            && (if c == END && rx.buf != [] then r.out == rx.out + [rx.buf] && r.buf == []
                else r.out == rx.out && r.buf == rx.buf + StoredBy(rx.escaped, c))
            && (c == END ==> StoredBy(rx.escaped, c) == [])
  {
  }

  lemma HostByte(mtu: nat, rx: Rx, s: Bytes)
    requires s != [] && |rx.buf| + |s| <= mtu
    ensures var r := Feed(mtu, rx, s[0]);
            Flatten(r.out) + r.buf + Plain(r.escaped, s[1..]) == Flatten(rx.out) + rx.buf + Plain(rx.escaped, s)
  {
    hide Plain, Flatten, Feed, StoredBy;
    FeedBrings(mtu, rx, s[0]);
    var r := Feed(mtu, rx, s[0]);
    PlainBrings(rx.escaped, r.escaped, s);
    FlattenMore(rx.out, rx.buf);
    Joins(Flatten(rx.out), rx.buf, StoredBy(rx.escaped, s[0]), Plain(r.escaped, s[1..]));
  }

  lemma Joins(o: Bytes, b: Bytes, d: Bytes, p: Bytes)
    ensures o + (b + d) + p == o + b + (d + p) && o + b + [] + p == o + b + ([] + p)
  {
  }

  lemma {:induction false} FlattenMore(ps: seq<Bytes>, p: Bytes)
    ensures Flatten(ps + [p]) == Flatten(ps) + p
    decreases |ps|
  {
    if ps == [] {
      assert ps + [p] == [p];
      assert [p][1..] == [];
      assert Flatten([p]) == p + [] == p;
    } else {
      assert (ps + [p])[1..] == ps[1..] + [p];
      FlattenMore(ps[1..], p);
      assert ps[0] + (Flatten(ps[1..]) + p) == ps[0] + Flatten(ps[1..]) + p;
    }
  }

  function Flatten(ps: seq<Bytes>): Bytes
    decreases |ps|
  {
    if ps == [] then [] else ps[0] + Flatten(ps[1..])
  }

  lemma PlainEnd(rest: Bytes)
    ensures Plain(false, [END] + rest) == Plain(false, rest)
  {
    assert ([END] + rest)[1..] == rest;
  }

  /** The device sees the bytes of the host's packets, for all packets. */
  lemma {:induction false} PlainOfPackets(ps: seq<Bytes>)
    ensures Plain(false, EncodeAll(ps)) == Flatten(ps)
    decreases |ps|
  {
    if ps != [] {
      var rest := EncodeAll(ps[1..]);
      assert EncodeAll(ps) == [END] + (Escaped(ps[0]) + ([END] + rest));
      hide Plain, Encode;
      PlainEnd(Escaped(ps[0]) + ([END] + rest));
      PlainOfPacket(ps[0], [END] + rest);
      PlainEnd(rest);
      PlainOfPackets(ps[1..]);
    }
  }

  /** From an idle line: any packets the host encodes, read at any pace that never lets the ring fill up, come out
      as their bytes. */
  lemma HostToDevice(cap: nat, ps: seq<Bytes>, events: seq<Event>)
    requires Incoming(events) == EncodeAll(ps) && NeverFull(cap, State(Line(false, []), []), events)
    ensures var d := Run(cap, State(Line(false, []), []), events); d.taken + d.line.fifo == Flatten(ps)
  {
    NothingIsLost(cap, State(Line(false, []), []), events);
    PlainOfPackets(ps);
    assert [] + [] + Flatten(ps) == Flatten(ps);
  }
}
