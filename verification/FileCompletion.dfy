/** Progress of static files: from every state of every run the receiver can still get the whole file. */
module FileCompletion {
  import opened OnesComplement
  import opened StaticFile

  lemma {:induction false} RunAppend(s: Setup, w: World, a: seq<Event>, b: seq<Event>)
    requires s.chunk > 0
    ensures Run(s, w, a + b) == Run(s, Run(s, w, a), b)
    decreases |a|
  {
    hide Step;
    if a == [] {
      assert a + b == b;
    } else {
      assert (a + b)[0] == a[0] && (a + b)[1..] == a[1..] + b;
      RunAppend(s, Step(s, w, a[0]), a[1..], b);
    }
  }

  lemma RunOfTwo(s: Setup, w: World, e1: Event, e2: Event, rest: seq<Event>)
    requires s.chunk > 0
    ensures Run(s, w, [e1, e2] + rest) == Run(s, Step(s, Step(s, w, e1), e2), rest)
  {
    hide Step;
    var es := [e1, e2] + rest;
    assert es[1..] == [e2] + rest && es[1..][1..] == rest;
  }

  lemma RunOfOne(s: Setup, w: World, e: Event, rest: seq<Event>)
    requires s.chunk > 0
    ensures Run(s, w, [e] + rest) == Run(s, Step(s, w, e), rest)
  {
    hide Step;
    var es := [e] + rest;
    assert es[1..] == rest;
  }

  // ----- where segments start and end, and why they could be sent -----

  /** A whole number of full segments from the start, or the end of the file. */
  ghost predicate OnGrid(s: Setup, x: int)
    requires SetupOk(s)
  {
    MaxOutIsChunks(s);
    s.start <= x <= Final(s) && ((x - s.start) % MaxOut(s) == 0 || x == Final(s))
  }

  function End(g: Segment): int { g.seqno + |g.bytes| }

  /** The segment covers one step of the grid, and there was room for it in a window that an acknowledgement opened. */
  ghost predicate Backed(s: Setup, acks: set<int>, g: Segment)
    requires SetupOk(s)
  {
    && OnGrid(s, g.seqno) && g.seqno < Final(s)
    && End(g) == (if g.seqno + MaxOut(s) < Final(s) then g.seqno + MaxOut(s) else Final(s))
    && exists a :: a in acks && a <= g.seqno && g.seqno - a + s.mss <= 65535
  }

  ghost predicate AllBacked(s: Setup, sent: set<Segment>, acks: set<int>)
    requires SetupOk(s)
  {
    forall g :: g in sent ==> Backed(s, acks, g)
  }

  /** The start, or the end of a segment that was sent. */
  ghost predicate IsEnd(s: Setup, sent: set<Segment>, x: int) {
    x == s.start || exists g :: g in sent && End(g) == x
  }

  ghost predicate AllEnds(s: Setup, sent: set<Segment>, places: set<int>) {
    forall x :: x in places ==> IsEnd(s, sent, x)
  }

  ghost predicate History(s: Setup, w: World)
    requires SetupOk(s)
  {
    && OnGrid(s, w.conn.next) && w.conn.next - w.conn.inflight in w.acks
    && AllBacked(s, w.sent, w.acks) && AllEnds(s, w.sent, w.acks) && IsEnd(s, w.sent, s.start + |w.got|)
  }

  lemma GridStep(s: Setup, x: int)
    requires SetupOk(s) && OnGrid(s, x) && x < Final(s)
    ensures OnGrid(s, if x + MaxOut(s) < Final(s) then x + MaxOut(s) else Final(s))
  {
    MaxOutIsChunks(s);
    hide MaxOut;
    MultipleIs(1, MaxOut(s));
    MultiplesAdd(x - s.start, MaxOut(s), MaxOut(s));
  }

  /** Two places of the grid are a full segment apart, or one of them is the end. */
  lemma GridGap(s: Setup, x: int, y: int)
    requires SetupOk(s) && OnGrid(s, x) && OnGrid(s, y) && x < y
    ensures y == Final(s) || y >= x + MaxOut(s)
  {
    MaxOutIsChunks(s);
    hide MaxOut;
    if y != Final(s) { MultiplesApart(x - s.start, y - s.start, MaxOut(s)); }
  }

  lemma MultiplesApart(x: int, y: int, m: int)
    requires m > 0 && x % m == 0 && y % m == 0 && x < y
    ensures y >= x + m
  {
    var i, j := x / m, y / m;
    assert x == m * i && y == m * j;
    if j <= i { TimesGrows(m, j, i); } else { TimesGrows(m, i + 1, j); }
  }

  lemma TimesGrows(m: int, i: int, j: int)
    requires m > 0 && i <= j
    ensures m * i <= m * j
  {
  }

  lemma EndIsOnGrid(s: Setup, sent: set<Segment>, acks: set<int>, x: int)
    requires SetupOk(s) && IsEnd(s, sent, x) && AllBacked(s, sent, acks)
    ensures OnGrid(s, x)
  {
    hide OnGrid;
    if x == s.start {
      StartIsOnGrid(s);
    } else {
      var g :| g in sent && End(g) == x;
      assert Backed(s, acks, g);
      GridStep(s, g.seqno);
    }
  }

  lemma StartIsOnGrid(s: Setup)
    requires SetupOk(s)
    ensures OnGrid(s, s.start)
  {
    MaxOutIsChunks(s);
    hide MaxOut;
    MultipleIs(0, MaxOut(s));
  }

  lemma Bounds(s: Setup, w: World)
    requires SetupOk(s) && Inv(s, w)
    ensures s.start <= w.conn.next - w.conn.inflight <= w.conn.next <= Final(s) && 0 <= w.conn.cwnd < 65536
  {
    hide NetworkOk;
  }

  // ----- every step keeps the history -----

  /** More acknowledgements and more segments do no harm. */
  lemma BackedAnyway(s: Setup, sent: set<Segment>, acks: set<int>, more: set<int>)
    requires SetupOk(s) && AllBacked(s, sent, acks) && acks <= more
    ensures AllBacked(s, sent, more)
  {
    hide OnGrid, MaxOut;
    forall g | g in sent ensures Backed(s, more, g) {
      assert Backed(s, acks, g);
      var a :| a in acks && a <= g.seqno && g.seqno - a + s.mss <= 65535;
      assert a in more;
    }
  }

  lemma EndsAnyway(s: Setup, sent: set<Segment>, more: set<Segment>, places: set<int>)
    requires AllEnds(s, sent, places) && sent <= more
    ensures AllEnds(s, more, places)
  {
    forall x | x in places ensures IsEnd(s, more, x) { assert IsEnd(s, sent, x); }
  }

  lemma SendFacts(s: Setup, w: World)
    requires SetupOk(s) && Inv(s, w) && OnGrid(s, w.conn.next) && Able(s, w.conn)
    ensures var w', g := Step(s, w, Send), NextSegment(s, w.conn);
            && w' == w.(conn := w'.conn, sent := w.sent + {g}) && g.seqno == w.conn.next
            && End(g) == (if g.seqno + MaxOut(s) < Final(s) then g.seqno + MaxOut(s) else Final(s))
            && w'.conn == Conn(End(g), End(g) - (w.conn.next - w.conn.inflight), w.conn.cwnd, true)
  {
    SendIsSafe(s, w.conn);
    SendFields(s, w.conn);
    hide OnGrid, SegmentOk, OnBoundary, NextSegment, AfterSend, MaxOut;
  }

  lemma SendFields(s: Setup, c: Conn)
    requires SetupOk(s) && ConnOk(s, c) && Able(s, c)
    ensures var d := AfterSend(s, c);
            && d.next == (if c.next + MaxOut(s) < Final(s) then c.next + MaxOut(s) else Final(s))
            && d.cwnd == c.cwnd && d.open
  {
    MaxOutIsChunks(s);
    hide OnBoundary;
  }

  lemma SendKeepsHistory(s: Setup, w: World)
    requires SetupOk(s) && Inv(s, w) && History(s, w)
    ensures History(s, Step(s, w, Send))
  {
    hide OnGrid, Inv, Able, AllBacked, AllEnds, NextSegment, AfterSend, SegmentLength;
    if Able(s, w.conn) {
      SendFacts(s, w);
      BelowEnd(s, w);
      var w', g := Step(s, w, Send), NextSegment(s, w.conn);
      hide Step;
      GridStep(s, w.conn.next);
      RoomForNext(s, w.acks, w.conn, g);
      OneMoreBacked(s, w.sent, w.acks, g);
      EndsAnyway(s, w.sent, w'.sent, w.acks);
      IsEndAnyway(s, w.sent, w'.sent, s.start + |w.got|);
    }
  }

  lemma IsEndAnyway(s: Setup, sent: set<Segment>, more: set<Segment>, x: int)
    requires IsEnd(s, sent, x) && sent <= more
    ensures IsEnd(s, more, x)
  {
  }

  lemma RoomForNext(s: Setup, acks: set<int>, c: Conn, g: Segment)
    requires SetupOk(s) && OnGrid(s, g.seqno) && g.seqno == c.next < Final(s) && c.next - c.inflight in acks
    requires End(g) == (if g.seqno + MaxOut(s) < Final(s) then g.seqno + MaxOut(s) else Final(s))
    requires 0 <= c.inflight && c.inflight + s.mss <= 65535
    ensures Backed(s, acks, g)
  {
    hide OnGrid, MaxOut;
    var a := c.next - c.inflight;
    assert a in acks && a <= g.seqno && g.seqno - a + s.mss <= 65535;
  }

  lemma OneMoreBacked(s: Setup, sent: set<Segment>, acks: set<int>, g: Segment)
    requires SetupOk(s) && AllBacked(s, sent, acks) && Backed(s, acks, g)
    ensures AllBacked(s, sent + {g}, acks)
  {
    hide Backed;
  }

  lemma BelowEnd(s: Setup, w: World)
    requires SetupOk(s) && Inv(s, w) && Able(s, w.conn)
    ensures w.conn.next < Final(s) && 0 <= w.conn.inflight && w.conn.inflight + s.mss <= 65535
  {
    Bounds(s, w);
  }

  /** The end of the window moves to a place acknowledged before, or not at all. */
  lemma AckedIsOnGrid(s: Setup, w: World, x: int)
    requires SetupOk(s) && History(s, w) && x in w.acks
    ensures OnGrid(s, x)
  {
    hide OnGrid, AllBacked, IsEnd;
    EndIsOnGrid(s, w.sent, w.acks, x);
  }

  lemma TimeoutKeepsHistory(s: Setup, w: World)
    requires SetupOk(s) && History(s, w)
    ensures History(s, Step(s, w, Timeout))
  {
    hide OnGrid, AllBacked, AllEnds, IsEnd;
    AckedIsOnGrid(s, w, w.conn.next - w.conn.inflight);
  }

  lemma DeliverKeepsHistory(s: Setup, w: World, g: Segment)
    requires SetupOk(s) && History(s, w)
    ensures History(s, Step(s, w, Deliver(g)))
  {
    hide OnGrid, AllBacked, AllEnds;
    var w' := Step(s, w, Deliver(g));
    if w'.got != w.got { assert End(g) == s.start + |w'.got|; }
  }

  lemma AcknowledgeKeepsHistory(s: Setup, w: World)
    requires SetupOk(s) && History(s, w)
    ensures History(s, Step(s, w, Acknowledge))
  {
    hide OnGrid, AllBacked, IsEnd;
    var w' := Step(s, w, Acknowledge);
    assert w' == w.(acks := w.acks + {s.start + |w.got|});
    hide Step;
    BackedAnyway(s, w.sent, w.acks, w'.acks);
    assert AllEnds(s, w.sent, w'.acks);
  }

  /** What an acknowledgement does to a short file's connection. */
  lemma AckFacts(s: Setup, w: World, ack: int, window: int)
    requires SetupOk(s) && Inv(s, w) && |s.file| < 65536 && ack in w.acks && 0 <= window < 65536
    ensures var w' := Step(s, w, AckArrives(ack, window)); w' == w.(conn := w'.conn)
    ensures var c, d := w.conn, Step(s, w, AckArrives(ack, window)).conn;
            && d.cwnd == window
            && (if ack <= c.next then d.next - d.inflight == ack && (d.next == c.next || d.next == ack)
                else d.next == c.next && d.inflight == c.inflight)
            && d.open == (c.open && !(d.inflight == 0 && d.next == Final(s)))
  {
    hide SegmentOk, OnBoundary;
    AckIsSafe(s, w.conn, ack, window);
  }

  lemma AckKeepsHistory(s: Setup, w: World, ack: int, window: int)
    requires SetupOk(s) && Inv(s, w) && History(s, w) && |s.file| < 65536
    ensures History(s, Step(s, w, AckArrives(ack, window)))
  {
    hide OnGrid, AllBacked, AllEnds, IsEnd, Inv, AfterAck;
    if ack in w.acks && 0 <= window < 65536 {
      AckFacts(s, w, ack, window);
      hide Step;
      AckedIsOnGrid(s, w, ack);
    }
  }

  /** What progress starts from: the invariants of every run of a short file. */
  ghost predicate Sound(s: Setup, w: World)
    requires SetupOk(s)
  {
    Inv(s, w) && Honest(s, w) && History(s, w)
  }

  lemma StepIsSound(s: Setup, w: World, e: Event)
    requires SetupOk(s) && |s.file| < 65536 && Sound(s, w)
    ensures Sound(s, Step(s, w, e))
  {
    hide Inv, Honest, History, Step;
    StepKeeps(s, w, e);
    match e
    case Send => SendKeepsHistory(s, w);
    case Timeout => TimeoutKeepsHistory(s, w);
    case Deliver(g) => DeliverKeepsHistory(s, w, g);
    case Acknowledge => AcknowledgeKeepsHistory(s, w);
    case AckArrives(ack, window) => AckKeepsHistory(s, w, ack, window);
  }

  lemma {:induction false} RunIsSound(s: Setup, w: World, events: seq<Event>)
    requires SetupOk(s) && |s.file| < 65536 && Sound(s, w)
    ensures Sound(s, Run(s, w, events))
    decreases |events|
  {
    hide Sound, Step;
    if events != [] {
      StepIsSound(s, w, events[0]);
      RunIsSound(s, Step(s, w, events[0]), events[1..]);
    }
  }

  lemma InitialIsSound(s: Setup, window: int)
    requires SetupOk(s) && 0 <= window < 65536
    ensures Sound(s, Initial(s, window))
  {
    InitialHolds(s, window);
    StartIsOnGrid(s);
    hide OnGrid, Inv, Honest;
  }

  // ----- progress -----

  function Base(w: World): int { w.conn.next - w.conn.inflight }

  /** The response is over, or the receiver's data are as they were and the window base is at t or behind it. */
  ghost predicate Passed(s: Setup, w: World, w': World, t: int)
    requires SetupOk(s)
  {
    Sound(s, w') && w'.got == w.got && w.acks <= w'.acks && (w'.conn.open ==> Base(w') >= t)
  }

  lemma SoundBounds(s: Setup, w: World)
    requires SetupOk(s) && Sound(s, w)
    ensures s.start <= Base(w) <= w.conn.next <= Final(s) && 0 <= w.conn.cwnd < 65536 && Base(w) <= s.start + |w.got| <= Final(s)
    ensures Base(w) in w.acks && OnGrid(s, w.conn.next)
    ensures !w.conn.open ==> w.got == s.file
  {
    hide OnGrid, AllBacked, AllEnds, IsEnd, Inv;
    Bounds(s, w);
    GotBounded(s, w);
  }

  lemma GotBounded(s: Setup, w: World)
    requires SetupOk(s) && Inv(s, w)
    ensures |w.got| <= |s.file|
  {
  }

  /** A timeout and an acknowledgement of all the receiver has: back to the base, with the window open. */
  lemma Rewinds(s: Setup, w: World) returns (events: seq<Event>)
    requires SetupOk(s) && |s.file| < 65536 && Sound(s, w) && w.conn.open
    ensures var w' := Run(s, w, events);
            && Passed(s, w, w', Base(w)) && (!w'.conn.open <==> Base(w) == Final(s))
            && w'.conn.next == Base(w) && w'.conn.inflight == 0 && w'.conn.cwnd == 65535
  {
    hide Sound, Step, Run;
    SoundBounds(s, w);
    var ack := s.start + |w.got|;
    var w1 := Step(s, w, Timeout);
    var w2 := Step(s, w1, Acknowledge);
    StepIsSound(s, w, Timeout);
    StepIsSound(s, w1, Acknowledge);
    StepIsSound(s, w2, AckArrives(ack, 65535));
    TimeoutThenAcknowledge(s, w);
    AckOfSound(s, w2, ack, 65535);
    events := [Timeout, Acknowledge] + ([AckArrives(ack, 65535)] + []);
    RunOfTwo(s, w, Timeout, Acknowledge, [AckArrives(ack, 65535)] + []);
    RunOfOne(s, w2, AckArrives(ack, 65535), []);
    RunOfNone(s, Step(s, w2, AckArrives(ack, 65535)));
  }

  lemma RunOfNone(s: Setup, w: World)
    requires s.chunk > 0
    ensures Run(s, w, []) == w
  {
  }

  lemma TimeoutThenAcknowledge(s: Setup, w: World)
    requires s.chunk > 0 && w.conn.open && 0 <= w.conn.inflight
    ensures var ack := s.start + |w.got|;
            Step(s, Step(s, w, Timeout), Acknowledge) == w.(conn := w.conn.(next := Base(w), inflight := 0), acks := w.acks + {ack})
  {
  }

  lemma AckOfSound(s: Setup, w: World, ack: int, window: int)
    requires SetupOk(s) && |s.file| < 65536 && Sound(s, w) && ack in w.acks && 0 <= window < 65536
    ensures var w' := Step(s, w, AckArrives(ack, window)); var (c, d) := (w.conn, w'.conn);
            && w' == w.(conn := d) && d.cwnd == window
            && (if ack <= c.next then d.next - d.inflight == ack && (d.next == c.next || d.next == ack)
                else d.next == c.next && d.inflight == c.inflight)
            && d.open == (c.open && !(d.inflight == 0 && d.next == Final(s)))
  {
    hide Inv, Honest, History, Step;
    AckFacts(s, w, ack, window);
  }

  lemma SendOfSound(s: Setup, w: World)
    requires SetupOk(s) && Sound(s, w) && Able(s, w.conn)
    ensures var w', g := Step(s, w, Send), NextSegment(s, w.conn);
            && w' == w.(conn := w'.conn, sent := w.sent + {g}) && g.seqno == w.conn.next < End(g) <= Final(s)
            && End(g) == (if g.seqno + MaxOut(s) < Final(s) then g.seqno + MaxOut(s) else Final(s))
            && w'.conn == Conn(End(g), End(g) - Base(w), w.conn.cwnd, true)
  {
    SoundBounds(s, w);
    hide Inv, Honest, OnGrid, AllBacked, AllEnds, IsEnd, Step, NextSegment, MaxOut;
    MaxOutIsChunks(s);
    SendFacts(s, w);
    BelowEnd(s, w);
  }

  /** What was sent once from an acknowledged place a can be reached again from any base behind a. */
  lemma {:induction false} SendsAgainTo(s: Setup, w: World, g: Segment, a: int) returns (events: seq<Event>)
    requires SetupOk(s) && |s.file| < 65536 && Sound(s, w) && w.conn.open && w.conn.cwnd == 65535
    requires OnGrid(s, g.seqno) && g.seqno < Final(s)
    requires End(g) == (if g.seqno + MaxOut(s) < Final(s) then g.seqno + MaxOut(s) else Final(s))
    requires a <= g.seqno && g.seqno - a + s.mss <= 65535 && a <= Base(w)
    ensures var w' := Run(s, w, events); Passed(s, w, w', Base(w)) && w'.conn.open && w'.conn.next >= End(g)
    decreases Final(s) - w.conn.next
  {
    hide Sound, Step, Run, OnGrid, NextSegment, MaxOut;
    SoundBounds(s, w);
    events := [];
    if w.conn.next >= End(g) {
      RunOfNone(s, w);
    } else {
      if w.conn.next > g.seqno { GridGap(s, g.seqno, w.conn.next); assert false; }
      assert Able(s, w.conn);
      SendOfSound(s, w);
      StepIsSound(s, w, Send);
      var rest := SendsAgainTo(s, Step(s, w, Send), g, a);
      RunOfOne(s, w, Send, rest);
      events := [Send] + rest;
    }
  }

  /** Why an acknowledged place behind the start could be reached: a segment ends there that was sent from an
      acknowledged place before it. */
  lemma ReachedFrom(s: Setup, w: World, t: int) returns (g: Segment, a: int)
    requires SetupOk(s) && Sound(s, w) && t in w.acks && t > s.start
    ensures OnGrid(s, g.seqno) && g.seqno < Final(s) && End(g) == t
    ensures End(g) == (if g.seqno + MaxOut(s) < Final(s) then g.seqno + MaxOut(s) else Final(s))
    ensures a in w.acks && s.start <= a <= g.seqno < t && g.seqno - a + s.mss <= 65535
  {
    MaxOutIsChunks(s);
    hide OnGrid, Inv, Honest, MaxOut;
    assert IsEnd(s, w.sent, t);
    g :| g in w.sent && End(g) == t;
    assert Backed(s, w.acks, g);
    a :| a in w.acks && a <= g.seqno && g.seqno - a + s.mss <= 65535;
    EndIsOnGrid(s, w.sent, w.acks, a);
    GridIsBounded(s, a);
  }

  lemma GridIsBounded(s: Setup, x: int)
    requires SetupOk(s) && OnGrid(s, x)
    ensures s.start <= x <= Final(s)
  {
  }

  lemma PassedTwice(s: Setup, w: World, w1: World, w2: World, t1: int, t: int)
    requires SetupOk(s) && Passed(s, w, w1, t1) && Passed(s, w1, w2, t)
    ensures Passed(s, w, w2, t)
  {
    hide Sound;
  }

  /** The base can be brought to any place that was ever acknowledged, stale acknowledgements or not. */
  lemma {:induction false} Reaches(s: Setup, w: World, t: int) returns (events: seq<Event>)
    requires SetupOk(s) && |s.file| < 65536 && Sound(s, w) && t in w.acks && t >= s.start
    ensures Passed(s, w, Run(s, w, events), t)
    decreases t - s.start
  {
    hide Sound, Step, Run, OnGrid, MaxOut;
    SoundBounds(s, w);
    events := [];
    RunOfNone(s, w);
    if w.conn.open && Base(w) < t {
      var g, a := ReachedFrom(s, w, t);
      var first := Reaches(s, w, a);
      var w1 := Run(s, w, first);
      events := first;
      if w1.conn.open && Base(w1) < t {
        var more := FromThere(s, w1, g, a, t);
        RunAppend(s, w, first, more);
        PassedTwice(s, w, w1, Run(s, w1, more), a, t);
        events := first + more;
      }
    }
  }

  lemma FromThere(s: Setup, w: World, g: Segment, a: int, t: int) returns (events: seq<Event>)
    requires SetupOk(s) && |s.file| < 65536 && Sound(s, w) && w.conn.open && a <= Base(w) && t in w.acks
    requires OnGrid(s, g.seqno) && g.seqno < Final(s) && End(g) == t
    requires End(g) == (if g.seqno + MaxOut(s) < Final(s) then g.seqno + MaxOut(s) else Final(s))
    requires a <= g.seqno && g.seqno - a + s.mss <= 65535
    ensures Passed(s, w, Run(s, w, events), t)
  {
    hide Sound, Step, Run, OnGrid, MaxOut;
    events := Rewinds(s, w);
    var w1 := Run(s, w, events);
    if w1.conn.open {
      var sends := SendsAgainTo(s, w1, g, a);
      var w2 := Run(s, w1, sends);
      var ack := [AckArrives(t, 65535)] + [];
      AckOfSound(s, w2, t, 65535);
      StepIsSound(s, w2, AckArrives(t, 65535));
      RunOfOne(s, w2, AckArrives(t, 65535), []);
      RunOfNone(s, Step(s, w2, AckArrives(t, 65535)));
      RunAppend(s, w1, sends, ack);
      RunAppend(s, w, events, sends + ack);
      events := events + (sends + ack);
    }
  }

  /** The base is where the receiver is: one more segment is sent and arrives. */
  lemma OneSegment(s: Setup, w: World)
    requires SetupOk(s) && |s.file| < 65536 && Sound(s, w) && w.conn.open && w.conn.cwnd == 65535 && w.conn.inflight == 0
    requires w.conn.next == s.start + |w.got| < Final(s)
    ensures var w' := Step(s, Step(s, w, Send), Deliver(NextSegment(s, w.conn)));
            Sound(s, w') && |w.got| < |w'.got|
  {
    hide Sound, Step, OnGrid, NextSegment, MaxOut;
    SoundBounds(s, w);
    SendOfSound(s, w);
    StepIsSound(s, w, Send);
    var g := NextSegment(s, w.conn);
    StepIsSound(s, Step(s, w, Send), Deliver(g));
    Arrives(s, Step(s, w, Send), g);
  }

  lemma Arrives(s: Setup, w: World, g: Segment)
    requires s.chunk > 0 && g in w.sent && g.seqno == s.start + |w.got| && |g.bytes| > 0
    ensures |Step(s, w, Deliver(g)).got| > |w.got|
  {
  }

  lemma {:induction false} Completes(s: Setup, w: World) returns (more: seq<Event>)
    requires SetupOk(s) && |s.file| < 65536 && Sound(s, w)
    ensures var done := Run(s, w, more); !done.conn.open && done.got == s.file
    decreases Final(s) - s.start - |w.got|
  {
    hide Sound, Step, Run, OnGrid, MaxOut, NextSegment;
    SoundBounds(s, w);
    more := [];
    RunOfNone(s, w);
    MaxOutIsChunks(s);
    if w.conn.open {
      more := CatchesUp(s, w);
      var w1 := Run(s, w, more);
      SoundBounds(s, w1);
      if w1.conn.open {
        var g := NextSegment(s, w1.conn);
        OneSegment(s, w1);
        var w2 := Step(s, Step(s, w1, Send), Deliver(g));
        SoundBounds(s, w2);
        var rest := Completes(s, w2);
        RunOfTwo(s, w1, Send, Deliver(g), rest);
        RunAppend(s, w, more, [Send, Deliver(g)] + rest);
        more := more + ([Send, Deliver(g)] + rest);
      }
    }
  }

  /** The base can be brought to where the receiver is. */
  lemma CatchesUp(s: Setup, w: World) returns (events: seq<Event>)
    requires SetupOk(s) && |s.file| < 65536 && Sound(s, w) && w.conn.open
    ensures var w' := Run(s, w, events);
            && Sound(s, w') && w'.got == w.got
            && (w'.conn.open ==> w'.conn.next == s.start + |w.got| < Final(s) && w'.conn.inflight == 0 && w'.conn.cwnd == 65535)
  {
    hide Sound, Step, Run, OnGrid, MaxOut;
    var t := s.start + |w.got|;
    var w1 := Step(s, w, Acknowledge);
    assert w1 == w.(acks := w.acks + {t}) by { AcknowledgeIs(s, w); }
    StepIsSound(s, w, Acknowledge);
    var reach := Reaches(s, w1, t);
    var w2 := Run(s, w1, reach);
    RunOfOne(s, w, Acknowledge, reach);
    events := [Acknowledge] + reach;
    if w2.conn.open {
      SoundBounds(s, w2);
      var last := Rewinds(s, w2);
      RunAppend(s, w, events, last);
      events := events + last;
    }
  }

  lemma AcknowledgeIs(s: Setup, w: World)
    requires s.chunk > 0
    ensures Step(s, w, Acknowledge) == w.(acks := w.acks + {s.start + |w.got|})
  {
  }

  /** However a run of a file below 65536 bytes went, stale acknowledgements and hidden progress included, the network
      can be kind from here on so that the receiver gets the whole file and the server closes the response. */
  lemma EveryRunCanFinish(s: Setup, window: int, events: seq<Event>) returns (more: seq<Event>)
    requires SetupOk(s) && 0 <= window < 65536 && |s.file| < 65536
    ensures var done := Run(s, Initial(s, window), events + more); !done.conn.open && done.got == s.file
  {
    hide Run, Sound;
    InitialIsSound(s, window);
    RunIsSound(s, Initial(s, window), events);
    more := Completes(s, Run(s, Initial(s, window), events));
    RunAppend(s, Initial(s, window), events, more);
  }
}
