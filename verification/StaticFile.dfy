/** A static file sent over a network that loses, repeats and reorders: the file branch of core/output.c, the
    acknowledgement handling of core/input.c and the timer of core/smews.c, against a cumulative-ack receiver. */
module StaticFile {
  import opened OnesComplement
  import FileChecksum

  /** What stays fixed during one response. `mss` is a 12-bit field, `chunk` is `CHUNCKS_SIZE`, a power of two,
      and sequence numbers do not wrap. */
  datatype Setup = Setup(file: Bytes, start: int, mss: int, chunk: int)

  ghost predicate SetupOk(s: Setup) {
    && AreBytes(s.file)
    && 0 < s.start && s.start + |s.file| < 0x1_0000_0000
    && 2 <= s.chunk <= s.mss < 4096 && 65536 % s.chunk == 0
  }

  /** `final_outseqno`. */
  function Final(s: Setup): int { s.start + |s.file| }

  /** `MAX_OUT_SIZE`: the mask clears the bits below the chunk size. */
  function MaxOut(s: Setup): int
    requires s.chunk > 0
  {
    s.mss - s.mss % s.chunk
  }

  /** The connection's own fields; `open` while `output_handler` is set. */
  datatype Conn = Conn(next: int, inflight: int, cwnd: int, open: bool)

  datatype Segment = Segment(seqno: int, bytes: Bytes)

  // ----- the server -----

  predicate Able(s: Setup, c: Conn) {
    c.open && c.next != Final(s) && c.inflight + s.mss <= c.cwnd
  }

  function SegmentLength(s: Setup, c: Conn): int
    requires s.chunk > 0
  {
    var remaining := Final(s) - c.next;
    if remaining > MaxOut(s) then MaxOut(s) else remaining
  }

  /** The segment an able connection sends: the file's bytes from `index_in_file` on. */
  function NextSegment(s: Setup, c: Conn): Segment
    requires s.chunk > 0 && 0 <= SegmentLength(s, c) && s.start <= c.next && c.next + SegmentLength(s, c) <= Final(s)
  {
    var index := |s.file| - (Final(s) - c.next);
    Segment(c.next, s.file[index..index + SegmentLength(s, c)])
  }

  function AfterSend(s: Setup, c: Conn): Conn
    requires s.chunk > 0
  {
    c.(next := c.next + SegmentLength(s, c), inflight := (c.inflight + SegmentLength(s, c)) % 65536)
  }

  function AfterAck(s: Setup, c: Conn, ack: int, window: int): Conn {
    var next := if c.next - c.inflight == ack then ack else c.next;
    var inflight := if ack != 0 && ack <= next then (next - ack) % 65536 else c.inflight;
    Conn(next, inflight, window, c.open && !(inflight == 0 && next == Final(s)))
  }

  function AfterTimeout(c: Conn): Conn {
    if c.open && c.inflight > 0 then c.(next := c.next - c.inflight, inflight := 0) else c
  }

  // ----- the whole system -----

  /** The server, every segment and every acknowledgement ever sent, and what the receiver has in order. */
  datatype World = World(conn: Conn, sent: set<Segment>, acks: set<int>, got: Bytes)

  /** Losing is never delivering, repeating is delivering again, reordering is delivering in any order. */
  datatype Event = Send | Timeout | Deliver(segment: Segment) | Acknowledge | AckArrives(ack: int, window: int)

  /** A receiver that keeps what continues its data. */
  function Accept(start: int, got: Bytes, g: Segment): Bytes {
    if g.seqno <= start + |got| < g.seqno + |g.bytes| then got + g.bytes[start + |got| - g.seqno..] else got
  }

  ghost function Step(s: Setup, w: World, e: Event): World
    requires s.chunk > 0
  {
    match e
    case Send =>
      if Able(s, w.conn) && 0 <= SegmentLength(s, w.conn) && s.start <= w.conn.next <= Final(s) - SegmentLength(s, w.conn)
      then w.(conn := AfterSend(s, w.conn), sent := w.sent + {NextSegment(s, w.conn)})
      else w
    case Timeout => w.(conn := AfterTimeout(w.conn))
    case Deliver(g) => if g in w.sent then w.(got := Accept(s.start, w.got, g)) else w
    case Acknowledge => w.(acks := w.acks + {s.start + |w.got|})
    case AckArrives(ack, window) =>
      if ack in w.acks && 0 <= window < 65536 then w.(conn := AfterAck(s, w.conn, ack, window)) else w
  }

  /** The request has just been parsed; its own segment, which may come again, acknowledged `start`. */
  function Initial(s: Setup, window: int): World {
    World(Conn(s.start, 0, window, true), {}, {s.start}, [])
  }

  ghost function Run(s: Setup, w: World, events: seq<Event>): World
    requires s.chunk > 0
    decreases |events|
  {
    if events == [] then w else Run(s, Step(s, w, events[0]), events[1..])
  }

  // ----- the invariant -----

  /** On a chunk boundary of the file, or at its end. */
  ghost predicate OnBoundary(s: Setup, seqno: int)
    requires s.chunk > 0
  {
    s.start <= seqno <= Final(s) && ((seqno - s.start) % s.chunk == 0 || seqno == Final(s))
  }

  ghost predicate SegmentOk(s: Setup, g: Segment)
    requires s.chunk > 0
  {
    && OnBoundary(s, g.seqno) && g.seqno < Final(s) && |g.bytes| > 0
    && OnBoundary(s, g.seqno + |g.bytes|)
    && g.bytes == s.file[g.seqno - s.start..g.seqno - s.start + |g.bytes|]
  }

  ghost predicate ConnOk(s: Setup, c: Conn)
    requires s.chunk > 0
  {
    0 <= c.inflight && 0 <= c.cwnd < 65536 && OnBoundary(s, c.next - c.inflight) && OnBoundary(s, c.next)
  }

  ghost predicate NetworkOk(s: Setup, w: World)
    requires s.chunk > 0
  {
    && (forall g :: g in w.sent ==> SegmentOk(s, g))
    && (forall a :: a in w.acks ==> a <= s.start + |w.got| && OnBoundary(s, a))
    && |w.got| <= |s.file| && w.got == s.file[..|w.got|] && OnBoundary(s, s.start + |w.got|)
  }

  ghost predicate Inv(s: Setup, w: World)
    requires s.chunk > 0
  {
    ConnOk(s, w.conn) && NetworkOk(s, w)
  }

  /** Nothing counts as acknowledged that the receiver lacks, and a finished response was received whole. */
  ghost predicate Honest(s: Setup, w: World) {
    && w.conn.next - w.conn.inflight <= s.start + |w.got|
    && (!w.conn.open ==> w.got == s.file)
  }

  lemma MultiplesAdd(a: int, b: int, chunk: int)
    requires chunk > 0 && a % chunk == 0 && b % chunk == 0
    ensures (a + b) % chunk == 0
  {
    assert a == chunk * (a / chunk) && b == chunk * (b / chunk);
    assert a + b == chunk * (a / chunk + b / chunk);
    MultipleIs(a / chunk + b / chunk, chunk);
  }

  lemma MultipleIs(k: int, chunk: int)
    requires chunk > 0
    ensures (chunk * k) % chunk == 0
  {
    var r, q := (chunk * k) % chunk, (chunk * k) / chunk;
    assert chunk * k == chunk * q + r;
    assert (k - q) * chunk == r;
    FileChecksum.Multiples(k - q, chunk);
  }

  lemma TimesMultiple(m: int, k: int, chunk: int)
    requires chunk > 0 && m % chunk == 0
    ensures (k * m) % chunk == 0
  {
    assert m == chunk * (m / chunk);
    assert k * m == chunk * (k * (m / chunk));
    MultipleIs(k * (m / chunk), chunk);
  }

  lemma MaxOutIsChunks(s: Setup)
    requires SetupOk(s)
    ensures 0 < MaxOut(s) <= s.mss && MaxOut(s) % s.chunk == 0
  {
    assert s.mss == s.chunk * (s.mss / s.chunk) + s.mss % s.chunk;
    MultipleIs(s.mss / s.chunk, s.chunk);
  }

  /** One send: the window holds, the payload is the file at `next - start`, and it starts and ends on a
      boundary. */
  lemma SendIsSafe(s: Setup, c: Conn)
    requires SetupOk(s) && ConnOk(s, c) && Able(s, c)
    ensures s.start <= c.next && 0 < SegmentLength(s, c) <= Final(s) - c.next
    ensures SegmentOk(s, NextSegment(s, c)) && NextSegment(s, c).seqno == c.next
    ensures ConnOk(s, AfterSend(s, c)) && AfterSend(s, c).next == c.next + |NextSegment(s, c).bytes|
    ensures AfterSend(s, c).inflight <= c.cwnd && AfterSend(s, c).next - AfterSend(s, c).inflight == c.next - c.inflight
  {
    SendStops(s, c);
    hide SegmentLength, MaxOut;
  }

  lemma SendStops(s: Setup, c: Conn)
    requires SetupOk(s) && ConnOk(s, c) && Able(s, c)
    ensures 0 < SegmentLength(s, c) <= Final(s) - c.next && SegmentLength(s, c) <= s.mss && OnBoundary(s, c.next + SegmentLength(s, c))
  {
    MaxOutIsChunks(s);
    var n := SegmentLength(s, c);
    if n != Final(s) - c.next {
      MultiplesAdd(c.next - s.start, MaxOut(s), s.chunk);
      assert c.next + n - s.start == c.next - s.start + MaxOut(s);
    }
  }

  /** An acknowledgement from this response moves the window base to a boundary; exactly to `ack` when the file is
      shorter than the 16-bit counter. */
  lemma AckIsSafe(s: Setup, c: Conn, ack: int, window: int)
    requires SetupOk(s) && ConnOk(s, c) && OnBoundary(s, ack) && 0 <= window < 65536
    ensures var d := AfterAck(s, c, ack, window);
            && ConnOk(s, d)
            && (ack <= c.next && |s.file| < 65536 ==> d.next - d.inflight == ack)
            && (ack > c.next ==> d.next == c.next && d.inflight == c.inflight)
  {
    var d := AfterAck(s, c, ack, window);
    if ack <= d.next {
      var over := (d.next - ack) / 65536;
      assert d.next - d.inflight == ack + over * 65536;
      if over == 0 {
      } else {
        assert ack < d.next <= Final(s);
        TimesMultiple(65536, over, s.chunk);
        MultiplesAdd(ack - s.start, over * 65536, s.chunk);
        assert d.next - d.inflight - s.start == ack - s.start + over * 65536;
      }
    }
  }

  /** The receiver ends up where a segment ended, with the file's own bytes. */
  lemma AcceptIsSafe(s: Setup, got: Bytes, g: Segment)
    requires SetupOk(s) && SegmentOk(s, g) && |got| <= |s.file| && got == s.file[..|got|] && OnBoundary(s, s.start + |got|)
    ensures var now := Accept(s.start, got, g);
            |got| <= |now| <= |s.file| && now == s.file[..|now|] && OnBoundary(s, s.start + |now|)
  {
    var now := Accept(s.start, got, g);
    if now != got {
      var from := g.seqno - s.start;
      assert |now| == from + |g.bytes|;
      assert g.bytes[|got| - from..] == s.file[|got|..from + |g.bytes|];
      assert s.file[..|got|] + s.file[|got|..from + |g.bytes|] == s.file[..from + |g.bytes|];
    }
  }

  /** The invariant, and honesty of short files, across one event. */
  ghost predicate Keeps(s: Setup, w: World, w': World)
    requires s.chunk > 0
  {
    Inv(s, w') && (|s.file| < 65536 && Honest(s, w) ==> Honest(s, w'))
  }

  lemma SendKeeps(s: Setup, w: World)
    requires SetupOk(s) && Inv(s, w)
    ensures Keeps(s, w, Step(s, w, Send))
  {
    hide SegmentOk, OnBoundary, SegmentLength, MaxOut;
    if Able(s, w.conn) {
      SendIsSafe(s, w.conn);
      hide ConnOk, Able;
      assert AfterSend(s, w.conn).open == w.conn.open;
      hide AfterSend, NextSegment;
    }
  }

  lemma DeliverKeeps(s: Setup, w: World, g: Segment)
    requires SetupOk(s) && Inv(s, w)
    ensures Keeps(s, w, Step(s, w, Deliver(g)))
  {
    hide SegmentOk, OnBoundary, Accept, ConnOk;
    if g in w.sent { AcceptIsSafe(s, w.got, g); }
  }

  lemma AckArrivesKeeps(s: Setup, w: World, ack: int, window: int)
    requires SetupOk(s) && Inv(s, w)
    ensures Keeps(s, w, Step(s, w, AckArrives(ack, window)))
  {
    hide SegmentOk, OnBoundary, AfterAck, ConnOk;
    if ack in w.acks && 0 <= window < 65536 {
      AckIsSafe(s, w.conn, ack, window);
      AckCloses(s, w.conn, ack, window);
    }
  }

  lemma TimeoutKeeps(s: Setup, w: World)
    requires SetupOk(s) && Inv(s, w)
    ensures Keeps(s, w, Step(s, w, Timeout))
  {
    hide SegmentOk, OnBoundary;
  }

  lemma AcknowledgeKeeps(s: Setup, w: World)
    requires SetupOk(s) && Inv(s, w)
    ensures Keeps(s, w, Step(s, w, Acknowledge))
  {
    hide SegmentOk, OnBoundary, ConnOk;
  }

  lemma StepKeeps(s: Setup, w: World, e: Event)
    requires SetupOk(s) && Inv(s, w)
    ensures Inv(s, Step(s, w, e))
    ensures |s.file| < 65536 && Honest(s, w) ==> Honest(s, Step(s, w, e))
  {
    hide Inv, Honest, Step;
    match e
    case Send => SendKeeps(s, w);
    case Timeout => TimeoutKeeps(s, w);
    case Deliver(g) => DeliverKeeps(s, w, g);
    case Acknowledge => AcknowledgeKeeps(s, w);
    case AckArrives(ack, window) => AckArrivesKeeps(s, w, ack, window);
  }

  lemma AckCloses(s: Setup, c: Conn, ack: int, window: int)
    ensures var d := AfterAck(s, c, ack, window); !d.open ==> !c.open || (d.inflight == 0 && d.next == Final(s))
  {
  }

  lemma {:induction false} RunKeeps(s: Setup, w: World, events: seq<Event>)
    requires SetupOk(s) && Inv(s, w)
    ensures Inv(s, Run(s, w, events))
    ensures |s.file| < 65536 && Honest(s, w) ==> Honest(s, Run(s, w, events))
    decreases |events|
  {
    if events != [] {
      StepKeeps(s, w, events[0]);
      RunKeeps(s, Step(s, w, events[0]), events[1..]);
    }
  }

  lemma InitialHolds(s: Setup, window: int)
    requires SetupOk(s) && 0 <= window < 65536
    ensures Inv(s, Initial(s, window)) && Honest(s, Initial(s, window))
  {
    MultipleIs(0, s.chunk);
  }

  /** Every run: the window base, the next sequence number and the end stay in order, both on chunk boundaries;
      every segment carries the file's bytes and fits the checksum table; the receiver holds a prefix. */
  lemma EveryRunIsSafe(s: Setup, window: int, events: seq<Event>)
    requires SetupOk(s) && 0 <= window < 65536
    ensures var w := Run(s, Initial(s, window), events);
            && s.start <= w.conn.next - w.conn.inflight <= w.conn.next <= Final(s)
            && ((w.conn.next - s.start) % s.chunk == 0 || w.conn.next == Final(s))
            && |w.got| <= |s.file| && w.got == s.file[..|w.got|]
    ensures forall g :: g in Run(s, Initial(s, window), events).sent ==>
              && s.start <= g.seqno
              && FileChecksum.Aligned(s.file, s.chunk, g.seqno - s.start, |g.bytes|)
              && g.bytes == s.file[g.seqno - s.start..g.seqno - s.start + |g.bytes|]
  {
    hide Run, SegmentOk;
    InitialHolds(s, window);
    RunKeeps(s, Initial(s, window), events);
    var w := Run(s, Initial(s, window), events);
    forall g | g in w.sent
      ensures s.start <= g.seqno && FileChecksum.Aligned(s.file, s.chunk, g.seqno - s.start, |g.bytes|)
      ensures g.bytes == s.file[g.seqno - s.start..g.seqno - s.start + |g.bytes|]
    {
      SegmentIsAligned(s, g);
    }
  }

  /** A segment on boundaries is one the checksum table covers. */
  lemma SegmentIsAligned(s: Setup, g: Segment)
    requires SetupOk(s) && SegmentOk(s, g)
    ensures s.start <= g.seqno && FileChecksum.Aligned(s.file, s.chunk, g.seqno - s.start, |g.bytes|)
    ensures g.bytes == s.file[g.seqno - s.start..g.seqno - s.start + |g.bytes|]
  {
    var from, n := g.seqno - s.start, |g.bytes|;
    if from + n != |s.file| {
      TimesMultiple(from, -1, s.chunk);
      MultiplesAdd(from + n, -1 * from, s.chunk);
    }
  }

  // ----- when does "everything acknowledged" mean "everything received"? -----

  ghost predicate RunIsHonest(s: Setup, window: int, events: seq<Event>)
    requires s.chunk > 0
  {
    Honest(s, Run(s, Initial(s, window), events))
  }

  /** The promise, for one file: whatever the segment and chunk sizes, the window and the network. */
  ghost predicate AlwaysHonest(file: Bytes) {
    forall s: Setup, window: int, events: seq<Event> {:trigger RunIsHonest(s, window, events)} ::
      SetupOk(s) && s.file == file && 0 <= window < 65536 ==> RunIsHonest(s, window, events)
  }

  lemma {:induction false} RunAppend(s: Setup, w: World, a: seq<Event>, b: seq<Event>)
    requires s.chunk > 0
    ensures Run(s, w, a + b) == Run(s, Run(s, w, a), b)
    decreases |a|
  {
    if a == [] {
      assert a + b == b;
    } else {
      assert (a + b)[0] == a[0] && (a + b)[1..] == a[1..] + b;
      RunAppend(s, Step(s, w, a[0]), a[1..], b);
    }
  }

  function Long(file: Bytes): Setup { Setup(file, 1, 2048, 32) }

  /** `k` segments of 2048 bytes sent, received and acknowledged, and the request's own acknowledgement still
      somewhere in the network. */
  ghost predicate After(s: Setup, w: World, k: nat) {
    && w.conn == Conn(1 + 2048 * k, 0, 65535, true) && 1 in w.acks
    && 2048 * k <= |s.file| && w.got == s.file[..2048 * k]
  }

  /** Segment `k` of a long file. */
  function Piece(file: Bytes, k: nat): Segment
    requires 2048 * (k + 1) <= |file|
  {
    Segment(1 + 2048 * k, file[2048 * k..2048 * (k + 1)])
  }

  lemma SendOne(file: Bytes, w: World, k: nat)
    requires |file| >= 65536 && k < 32 && After(Long(file), w, k)
    ensures var d := Step(Long(file), w, Send);
            && d.conn == Conn(1 + 2048 * (k + 1), 2048, 65535, true) && d.got == w.got && d.acks == w.acks
            && Piece(file, k) in d.sent
  {
    LongMaxOut(file);
    hide MaxOut;
    assert NextSegment(Long(file), w.conn) == Piece(file, k);
  }

  lemma LongMaxOut(file: Bytes)
    ensures MaxOut(Long(file)) == 2048
  {
  }

  lemma AcceptOne(file: Bytes, k: nat)
    requires 2048 * (k + 1) <= |file|
    ensures Accept(1, file[..2048 * k], Piece(file, k)) == file[..2048 * (k + 1)]
  {
    var g := Piece(file, k);
    assert g.bytes[1 + 2048 * k - g.seqno..] == g.bytes;
    assert file[..2048 * k] + g.bytes == file[..2048 * (k + 1)];
  }

  /** An acknowledgement of everything sent. */
  lemma AckOne(s: Setup, c: Conn, window: int)
    requires 0 < c.inflight && 0 < c.next < Final(s)
    ensures AfterAck(s, c, c.next, window) == Conn(c.next, 0, window, c.open)
  {
  }

  /** The last three of the four events of a round. */
  lemma RestOfRound(file: Bytes, a: World, k: nat)
    requires |file| >= 65536 && k < 31
    requires a.conn == Conn(1 + 2048 * (k + 1), 2048, 65535, true) && 1 in a.acks
    requires a.got == file[..2048 * k] && Piece(file, k) in a.sent
    ensures var s := Long(file);
            var b := Step(s, a, Deliver(Piece(file, k)));
            After(s, Step(s, Step(s, b, Acknowledge), AckArrives(1 + 2048 * (k + 1), 65535)), k + 1)
  {
    AcceptOne(file, k);
    AckOne(Long(file), a.conn, 65535);
    hide Accept, AfterAck, Piece;
  }

  lemma FourSteps(s: Setup, w: World, e: Event, f: Event, g: Event, h: Event)
    requires s.chunk > 0
    ensures Run(s, w, [e, f, g, h]) == Step(s, Step(s, Step(s, Step(s, w, e), f), g), h)
  {
    hide Step;
    var a := Step(s, w, e);
    var b := Step(s, a, f);
    var c := Step(s, b, g);
    assert [e, f, g, h][1..] == [f, g, h] && [f, g, h][1..] == [g, h] && [g, h][1..] == [h] && [h][1..] == [];
    assert Run(s, w, [e, f, g, h]) == Run(s, a, [f, g, h]);
    assert Run(s, a, [f, g, h]) == Run(s, b, [g, h]);
    assert Run(s, b, [g, h]) == Run(s, c, [h]);
    assert Run(s, c, [h]) == Run(s, Step(s, c, h), []);
  }

  lemma OneRound(file: Bytes, w: World, k: nat) returns (events: seq<Event>)
    requires |file| >= 65536 && k < 31 && After(Long(file), w, k)
    ensures After(Long(file), Run(Long(file), w, events), k + 1)
  {
    SendOne(file, w, k);
    RestOfRound(file, Step(Long(file), w, Send), k);
    hide Step;
    FourSteps(Long(file), w, Send, Deliver(Piece(file, k)), Acknowledge, AckArrives(1 + 2048 * (k + 1), 65535));
    events := [Send, Deliver(Piece(file, k)), Acknowledge, AckArrives(1 + 2048 * (k + 1), 65535)];
  }

  lemma {:induction false} Rounds(file: Bytes, k: nat) returns (events: seq<Event>)
    requires |file| >= 65536 && k <= 31
    ensures After(Long(file), Run(Long(file), Initial(Long(file), 65535), events), k)
  {
    events := [];
    if k > 0 {
      var before := Rounds(file, k - 1);
      var more := OneRound(file, Run(Long(file), Initial(Long(file), 65535), before), k - 1);
      RunAppend(Long(file), Initial(Long(file), 65535), before, more);
      events := before + more;
    }
  }

  /** In every file of 65536 bytes or more a repeated old acknowledgement can hide a loss: it is exactly 65536
      behind, the 16-bit `inflight` becomes zero, and nothing will send the lost bytes again. */
  lemma OldAckHidesLoss(file: Bytes) returns (events: seq<Event>)
    requires |file| >= 65536
    ensures !RunIsHonest(Long(file), 65535, events)
    ensures var w := Run(Long(file), Initial(Long(file), 65535), events);
            w.conn.inflight == 0 && w.conn.next == 65537 && |w.got| == 63488
  {
    var s := Long(file);
    var start := Initial(s, 65535);
    var before := Rounds(file, 31);
    var w := Run(s, start, before);
    SendOne(file, w, 31);
    var a := Step(s, w, Send);
    StaleAck(s, a.conn);
    var b := Step(s, a, AckArrives(1, 65535));
    assert b.conn.inflight == 0 && b.conn.next == 65537 && b.got == w.got;
    var last := [Send, AckArrives(1, 65535)];
    hide Step;
    assert last[1..][1..] == [];
    assert Run(s, b, []) == b;
    assert Run(s, a, last[1..]) == b;
    assert Run(s, w, last) == b;
    RunAppend(s, start, before, last);
    events := before + last;
  }

  lemma StaleAck(s: Setup, c: Conn)
    requires c.next == 65537 && c.inflight == 2048
    ensures var d := AfterAck(s, c, 1, 65535); d.next == 65537 && d.inflight == 0
  {
  }

  /** A finished response was received whole, on every run over every network, exactly for files shorter than the
      range of the 16-bit counter. */
  lemma HonestIffShort(file: Bytes)
    requires AreBytes(file) && 1 + |file| < 0x1_0000_0000
    ensures AlwaysHonest(file) <==> |file| < 65536
  {
    if |file| < 65536 {
      forall s: Setup, window: int, events: seq<Event> | SetupOk(s) && s.file == file && 0 <= window < 65536
        ensures RunIsHonest(s, window, events)
      {
        InitialHolds(s, window);
        RunKeeps(s, Initial(s, window), events);
      }
    } else {
      var events := OldAckHidesLoss(file);
      assert SetupOk(Long(file));
    }
  }

  // ----- the code that changes the connection -----

  class FileConnection {
    const setup: Setup
    var next: int
    var inflight: int
    var cwnd: int
    var open: bool

    function View(): Conn
      reads this
    {
      Conn(next, inflight, cwnd, open)
    }

    constructor (s: Setup, currentAck: int, window: int)
      requires SetupOk(s) && currentAck == s.start && 0 <= window < 65536
      ensures setup == s && View() == Initial(s, window).conn && ConnOk(s, View())
    {
      setup := s;
      next, inflight, cwnd, open := currentAck, 0, window, true;
      MultipleIs(0, s.chunk);
    }

    /** `able_to_send`, then the file branch of `smews_send_packet`. */
    method SmewsSend() returns (ok: bool, segment: Segment)
      requires SetupOk(setup) && ConnOk(setup, View())
      modifies this
      ensures ok == Able(setup, old(View())) && ConnOk(setup, View())
      ensures ok ==> View() == AfterSend(setup, old(View())) && segment == NextSegment(setup, old(View())) && inflight <= cwnd
      ensures !ok ==> View() == old(View())
    {
      ok := open && next != Final(setup) && inflight + setup.mss <= cwnd;
      segment := Segment(0, []);
      if ok {
        SendIsSafe(setup, View());
        hide SegmentOk, OnBoundary;
        var maxOutSize := MaxOut(setup);
        var remaining := Final(setup) - next;
        var length := if remaining > maxOutSize then maxOutSize else remaining;
        var index := |setup.file| - remaining;
        segment := Segment(next, setup.file[index..index + length]);
        next := next + length;
        inflight := (inflight + length) % 65536;
      }
    }

    /** The acknowledgement part of the receive step. */
    method TakeAck(ack: int, window: int)
      requires SetupOk(setup) && ConnOk(setup, View()) && OnBoundary(setup, ack) && 0 <= window < 65536
      modifies this
      ensures View() == AfterAck(setup, old(View()), ack, window) && ConnOk(setup, View())
    {
      AckIsSafe(setup, View(), ack, window);
      if next - inflight == ack { next := ack; }
      if ack != 0 && ack <= next { inflight := (next - ack) % 65536; }
      if open && inflight == 0 && next == Final(setup) { open := false; }
      cwnd := window;
    }

    /** One turn of the timer loop. */
    method Retransmit()
      requires SetupOk(setup) && ConnOk(setup, View())
      modifies this
      ensures View() == AfterTimeout(old(View())) && ConnOk(setup, View())
    {
      if open && inflight > 0 {
        next := next - inflight;
        inflight := 0;
      }
    }
  }
}
