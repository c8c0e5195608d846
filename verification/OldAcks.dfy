/** Acknowledgements that go back below one already accepted: exactly which responses survive them. */
module OldAcks {
  import opened Handlers
  import opened Options
  import opened Http
  import opened Response
  import opened Replay
  import opened ReplayRuns

  // ----- a response of one segment -----

  /** Nothing below the first segment can be acknowledged, so every acknowledgement is in order. */
  lemma NoOldAck(p: Params, f: nat, c: Conn, e: Event)
    requires Sane(p) && CutOk(p, f) && |Plan(p, f)| == 1 && Inv(p, f, c) && c.handler && StepOk(p, f, c, e, true)
    ensures StepOk(p, f, c, e, false)
  {
    hide Plan, At, Off;
    if e.AckEvent? && !Fresh(p, c) {
      var m: Marks :| At(p.start, Plan(p, f), c, m) && m.acked < |Plan(p, f)|;
      var k :| 0 <= k <= |Plan(p, f)| && e.inack == p.start + Off(Plan(p, f), k);
      NotBelow(p, f, c, m, k);
    }
  }

  /** A finished response stays finished and sends nothing. */
  lemma ClosedStays(p: Params, c: Conn, e: Event)
    requires Sane(p) && !c.handler
    ensures !Step(p, c, e).0.handler && Step(p, c, e).1 == None
  {
  }

  lemma {:induction false} OneSegmentCarries(p: Params, f: nat, c: Conn, es: seq<Event>)
    requires Sane(p) && CutOk(p, f) && |Plan(p, f)| == 1 && Inv(p, f, c)
    requires RunOk(p, f, c, es, true) && RunKeepsCut(p, f, c, es)
    ensures forall i :: 0 <= i < |Sent(p, c, es)| ==> Carries(Wire(Plan(p, f)), p.start, Sent(p, c, es)[i])
    decreases |es|
  {
    hide Step, StepOk, Carries, Plan, CutKept, Wire, At, Fresh;
    if es != [] {
      if c.handler {
        NoOldAck(p, f, c, es[0]);
        hide Inv;
        StepKeeps(p, f, c, es[0]);
      } else {
        ClosedStays(p, c, es[0]);
      }
      OneSegmentCarries(p, f, Step(p, c, es[0]).0, es[1..]);
    }
  }

  // ----- what an old acknowledgement does to a longer one -----

  /** After an acknowledgement of piece k, older than one accepted before, and a timeout. */
  lemma OldAckRollsBack(p: Params, f: nat, c: Conn, m: Marks, k: nat, cwnd: nat)
    requires Sane(p) && CutOk(p, f) && At(p.start, Plan(p, f), c, m) && k < m.acked
    requires Off(Plan(p, f), m.next) - Off(Plan(p, f), k) < 65536
    requires m.next < |Plan(p, f)| || m.sent == |Plan(p, f)|
    ensures Timeout(Ack(c, p.start + Off(Plan(p, f), k), cwnd)) == c.(next := p.start + Off(Plan(p, f), k), inflight := 0, cwnd := cwnd)
  {
    hide Pieces, HeaderAt, ContextAt, Entries, Off, Prune;
    var ps, inack := Plan(p, f), p.start + Off(Plan(p, f), k);
    OffsetsIncrease(ps, k, m.acked);
    OffsetsIncrease(ps, m.acked, m.next);
    PruneEntries(p.start, ps, m.acked, Min(m.sent, DataCount(ps)), k);
    var c1 := Ack(c, inack, cwnd);
    assert c1 == c.(inflight := c.next - inack, cwnd := cwnd);
  }

  /** The guard `ack >= last accepted ack` is missing in the source, and needed: once the handler has returned,
      an older acknowledgement, then a timeout, make the server send the empty chunk in place of data and
      declare the response finished short of its end. */
  lemma OldAckTruncates(p: Params, f: nat, c: Conn, m: Marks, k: nat, cwnd: nat, al: Allocs)
    requires Sane(p) && CutOk(p, f) && At(p.start, Plan(p, f), c, m) && m.ctx >= DataCount(Plan(p, f)) && m.sent == |Plan(p, f)| > 1
    requires k < m.acked && k < DataCount(Plan(p, f)) && p.mss <= cwnd && al.prepare
    requires Off(Plan(p, f), m.next) - Off(Plan(p, f), k) < 65536
    ensures var (c', g) := Send(p, Timeout(Ack(c, p.start + Off(Plan(p, f), k), cwnd)), al);
            && g == Some(Segment(p.start + Off(Plan(p, f), k), HeaderNone, ""))
            && !Carries(Wire(Plan(p, f)), p.start, g.value)
            && c'.final == c'.next < p.start + |Wire(Plan(p, f))|
  {
    hide Pieces, HeaderAt, Wire, Carries, Payload, Entries, Prune, Select;
    var ps, inack := Plan(p, f), p.start + Off(Plan(p, f), k);
    OffsetsIncrease(ps, k, m.sent);
    OldAckRollsBack(p, f, c, m, k, cwnd);
    SelectBelow(p.start, ps, m.acked, Min(m.sent, DataCount(ps)), k);
    VoidIsNotPiece(p, f, k);
    var s := c.service.value;
    assert s.context.status == Terminated && s.currSeq != inack && Select(s.inFlight, inack) == None;
    hide ContextAt, ServiceAt, Ack, Timeout;
    var c2 := c.(next := inack, inflight := 0, cwnd := cwnd);
    assert Able(p, c2);
    assert Send(p, c2, al) == Transmit(c2, s, HeaderNone, "", true);
  }

  lemma {:induction false} SelectBelow(start: nat, ps: seq<Piece>, lo: nat, hi: nat, k: nat)
    requires ps != [] && hi <= |ps| && k < lo && k <= |ps|
    ensures Select(Entries(start, ps, lo, hi), start + Off(ps, k)) == None
    decreases hi
  {
    hide Off;
    if lo < hi {
      OffsetsIncrease(ps, k, hi - 1);
      assert ([EntryAt(start, ps, hi - 1)] + Entries(start, ps, lo, hi - 1))[1..] == Entries(start, ps, lo, hi - 1);
      SelectBelow(start, ps, lo, hi - 1, k);
    }
  }

  lemma VoidIsNotPiece(p: Params, f: nat, k: nat)
    requires Sane(p) && CutOk(p, f) && k < DataCount(Plan(p, f)) && 1 < |Plan(p, f)|
    ensures !Carries(Wire(Plan(p, f)), p.start, Segment(p.start + Off(Plan(p, f), k), HeaderNone, ""))
    ensures Off(Plan(p, f), k) + HeadersSize(HeaderNone) < |Wire(Plan(p, f))|
  {
    hide Pieces, Wire, Payload, Off;
    var ps := Plan(p, f);
    var o, g := Off(ps, k), Segment(p.start + Off(ps, k), HeaderNone, "");
    WireSlice(ps, k);
    WireLength(ps);
    OffsetsIncrease(ps, k + 1, |ps|);
    PieceFacts(p.body, f, Later(p), k);
    OneEmptyChunk(p.body, f, Later(p), k);
    OffStep(ps, k);
    hide Plan, PieceIs, Carries;
    var i := HeadsOfData(ps[k]);
    SliceByte(Wire(ps), o, Bytes(ps[k]), i);
    StreamByte(Wire(ps), p.start, g, i);
  }

  /** A data segment does not start like the empty chunk. */
  lemma HeadsOfData(piece: Piece) returns (i: nat)
    requires piece.header != HeaderStandard && 0 < |piece.content| < 65536
    ensures var x, r := Bytes(piece), Payload(HeaderNone, ""); |x| == Size(piece) && i < |x| && i < |r| && x[i] != r[i]
  {
    PayloadLength(piece.header, piece.content);
    PayloadLength(HeaderNone, "");
    var d, e := Digits(|piece.content|, 16, 4), Digits(0, 16, 4);
    if piece.header == HeaderNone {
      ChunkSizeReads(|piece.content|, "");
      ChunkSizeReads(0, "");
      hide Digits;
      assert Value(d, 16) != Value(e, 16);
      hide Value;
      i := DifferAt(d, e);
    } else {
      ChunkedStartsWithH(piece.content);
      DigitsRoundTrip(0, 16, 4);
      hide Digits;
      assert IsDigit(e[0], 16);
      i := 0;
    }
  }

  lemma ChunkedStartsWithH(content: string)
    ensures var x := Payload(HeaderChunks, content); |x| > 0 && x[0] == 'H'
  {
    hide Chunk;
    assert STATUS[0] == 'H' && CHUNKED[0] == 'H';
  }

  // ----- a run that gets there -----

  lemma {:induction false} RunAppend(p: Params, f: nat, c: Conn, a: seq<Event>, b: seq<Event>)
    requires Sane(p) && CutOk(p, f)
    ensures After(p, c, a + b) == After(p, After(p, c, a), b)
    ensures Sent(p, c, a + b) == Sent(p, c, a) + Sent(p, After(p, c, a), b)
    ensures RunOk(p, f, c, a + b, true) <==> RunOk(p, f, c, a, true) && RunOk(p, f, After(p, c, a), b, true)
    decreases |a|
  {
    hide Step, StepOk;
    if a == [] {
      assert a + b == b;
    } else {
      assert (a + b)[0] == a[0] && (a + b)[1..] == a[1..] + b;
      RunAppend(p, f, Step(p, c, a[0]).0, a[1..], b);
    }
  }

  lemma RunOfOne(p: Params, f: nat, c: Conn, e: Event)
    requires Sane(p) && CutOk(p, f)
    ensures After(p, c, [e]) == Step(p, c, e).0
    ensures Sent(p, c, [e]) == if Step(p, c, e).1 == None then [] else [Step(p, c, e).1.value]
    ensures RunOk(p, f, c, [e], true) <==> StepOk(p, f, c, e, true)
  {
    hide Step, StepOk;
    assert [e][1..] == [];
  }

  /** k segments were sent and acknowledged one by one. */
  ghost predicate Reached(p: Params, f: nat, c: Conn, k: nat)
    requires Sane(p) && CutOk(p, f)
  {
    c.cwnd == 65535 && if k == 0 then f == First(p) && c == Start(p) else At(p.start, Plan(p, f), c, Marks(k, k, k, k))
  }

  /** With every allocation granted, a first transmission happens. */
  lemma SendsForSure(p: Params, f: nat, c: Conn, k: nat, max: nat)
    requires Sane(p) && CutOk(p, f) && At(p.start, Plan(p, f), c, Marks(k, k, k, k)) && k < DataCount(Plan(p, f))
    ensures Generate(p, c, c.service.value, max, AllSucceed()).1.Some?
  {
    hide Pieces, Entries, Off, Resume;
    PieceFacts(p.body, f, Later(p), k);
  }

  lemma KeepsWindow(p: Params, c: Conn, e: Event)
    requires Sane(p)
    ensures Step(p, c, e).0.cwnd == if e.AckEvent? then e.cwnd else c.cwnd
  {
  }

  lemma AbleAgain(p: Params, f: nat, c: Conn, k: nat)
    requires Sane(p) && CutOk(p, f) && At(p.start, Plan(p, f), c, Marks(k, k, k, k)) && k < |Plan(p, f)| && c.cwnd == 65535
    ensures Able(p, c)
  {
    hide Plan, ServiceAt, Off;
  }

  /** One more segment is sent. */
  lemma SendOne(p: Params, f: nat, c: Conn, k: nat)
    requires Sane(p) && CutOk(p, f) && Reached(p, f, c, k) && k + 1 < |Plan(p, f)|
    ensures var (c', g) := Step(p, c, SendEvent(AllSucceed()));
            && g.Some? && IsPiece(p.start, Plan(p, f), k, g.value)
            && At(p.start, Plan(p, f), c', Marks(k, k + 1, k + 1, k + 1)) && c'.cwnd == 65535
  {
    hide Plan, Uniform, Generate, IsPiece;
    KeepsWindow(p, c, SendEvent(AllSucceed()));
    if k == 0 {
      OpenedIsAt(p, f, c);
      AbleAgain(p, f, Opened(c), 0);
      SendsForSure(p, f, Opened(c), 0, First(p));
      var m' := GenerateStep(p, f, Opened(c), Marks(0, 0, 0, 0), First(p), AllSucceed());
      ContextOfNext(p, f, Step(p, c, SendEvent(AllSucceed())).0, m');
    } else {
      AbleAgain(p, f, c, k);
      SendsForSure(p, f, c, k, Later(p));
      var m' := GenerateStep(p, f, c, Marks(k, k, k, k), Later(p), AllSucceed());
      ContextOfNext(p, f, Step(p, c, SendEvent(AllSucceed())).0, m');
    }
  }

  lemma ContextOfNext(p: Params, f: nat, c: Conn, m: Marks)
    requires Sane(p) && CutOk(p, f) && At(p.start, Plan(p, f), c, m) && m.next == m.sent
    ensures m.ctx == m.next
  {
    hide Plan, Entries, ContextAt, HeaderAt, Off;
  }

  function AckOf(p: Params, f: nat, k: nat): Event
    requires Sane(p) && CutOk(p, f) && k <= |Plan(p, f)|
  {
    AckEvent(p.start + Off(Plan(p, f), k), 65535)
  }

  lemma AckIsOk(p: Params, f: nat, c: Conn, k: nat)
    requires Sane(p) && CutOk(p, f) && k <= |Plan(p, f)|
    ensures StepOk(p, f, c, AckOf(p, f, k), true)
  {
    hide Plan, Off;
    assert IsBoundary(p, f, AckOf(p, f, k).inack);
  }

  /** And acknowledged. */
  lemma AckOne(p: Params, f: nat, c: Conn, k: nat)
    requires Sane(p) && CutOk(p, f) && k + 1 < |Plan(p, f)| && At(p.start, Plan(p, f), c, Marks(k, k + 1, k + 1, k + 1))
    ensures Reached(p, f, Step(p, c, AckOf(p, f, k + 1)).0, k + 1)
  {
    hide Plan, Wire, Off, Ack, At;
    AckMoves(p, f, c, Marks(k, k + 1, k + 1, k + 1), k + 1, 65535);
    ClosesWhenAllAcknowledged(p, f, c, Marks(k, k + 1, k + 1, k + 1), k + 1, 65535);
    WireLength(Plan(p, f));
    OffsetsIncrease(Plan(p, f), k + 1, |Plan(p, f)|);
    KeepsWindow(p, c, AckOf(p, f, k + 1));
  }

  lemma OneRound(p: Params, f: nat, c: Conn, k: nat) returns (es: seq<Event>)
    requires Sane(p) && CutOk(p, f) && Reached(p, f, c, k) && k + 1 < |Plan(p, f)|
    ensures RunOk(p, f, c, es, true) && Reached(p, f, After(p, c, es), k + 1)
    ensures |Sent(p, c, es)| == 1 && IsPiece(p.start, Plan(p, f), k, Sent(p, c, es)[0])
    ensures es != [] && es[0] == SendEvent(AllSucceed())
  {
    hide Step, At, Off, Plan, IsPiece, StepOk, AckOf, Reached, Uniform;
    var send, ack := SendEvent(AllSucceed()), AckOf(p, f, k + 1);
    SendOne(p, f, c, k);
    var c1 := Step(p, c, send).0;
    AckOne(p, f, c1, k);
    AckIsOk(p, f, c1, k + 1);
    SendIsOk(p, f, c);
    AckSendsNothing(p, f, c1, k + 1);
    RunOfOne(p, f, c, send);
    RunOfOne(p, f, c1, ack);
    RunAppend(p, f, c, [send], [ack]);
    es := [send] + [ack];
  }

  lemma SendIsOk(p: Params, f: nat, c: Conn)
    requires Sane(p) && CutOk(p, f)
    ensures StepOk(p, f, c, SendEvent(AllSucceed()), true)
  {
  }

  lemma AckSendsNothing(p: Params, f: nat, c: Conn, k: nat)
    requires Sane(p) && CutOk(p, f) && k <= |Plan(p, f)|
    ensures Step(p, c, AckOf(p, f, k)).1 == None
  {
  }

  ghost predicate EndsWithPiece(p: Params, f: nat, k: nat, sent: seq<Segment>)
    requires Sane(p) && CutOk(p, f)
  {
    sent != [] && IsPiece(p.start, Plan(p, f), k, sent[|sent| - 1])
  }

  lemma NoRound(p: Params, f: nat)
    requires Sane(p) && f == First(p)
    ensures RunOk(p, f, Start(p), [], true) && Reached(p, f, After(p, Start(p), []), 0)
  {
  }

  lemma LastOfAppended(p: Params, f: nat, k: nat, a: seq<Segment>, b: seq<Segment>)
    requires Sane(p) && CutOk(p, f) && |b| == 1 && IsPiece(p.start, Plan(p, f), k, b[0])
    ensures EndsWithPiece(p, f, k, a + b)
  {
    hide Plan;
    assert (a + b)[|a|] == b[0];
  }

  lemma {:induction false} Rounds(p: Params, f: nat, k: nat) returns (es: seq<Event>)
    requires Sane(p) && f == First(p) && k < |Plan(p, f)|
    ensures RunOk(p, f, Start(p), es, true) && Reached(p, f, After(p, Start(p), es), k)
    ensures if k == 0 then es == []
            else EndsWithPiece(p, f, k - 1, Sent(p, Start(p), es)) && es != [] && es[0] == SendEvent(AllSucceed())
    decreases k
  {
    hide Plan, Uniform, Start, Reached, IsPiece, EndsWithPiece, StepOk, Step, After, Sent, RunOk, At;
    es := [];
    if k == 0 {
      NoRound(p, f);
    } else {
      var before := Rounds(p, f, k - 1);
      var more := OneRound(p, f, After(p, Start(p), before), k - 1);
      RunAppend(p, f, Start(p), before, more);
      LastOfAppended(p, f, k - 1, Sent(p, Start(p), before), Sent(p, After(p, Start(p), before), more));
      es := before + more;
    }
  }

  /** The end of the bad run: the empty chunk is sent, the acknowledgement of the last but one data segment comes
      again, the timer expires, and the server sends. */
  function GoBack(p: Params, f: nat): seq<Event>
    requires Sane(p) && CutOk(p, f) && |Plan(p, f)| > 2
  {
    [SendEvent(AllSucceed()), AckOf(p, f, |Plan(p, f)| - 2), TimeoutEvent, SendEvent(AllSucceed())]
  }

  /** What it sends: an empty chunk where a data segment belongs, and declared the end of the response. */
  function FalseEnd(p: Params, f: nat): Segment
    requires Sane(p) && CutOk(p, f) && |Plan(p, f)| > 2
  {
    Segment(p.start + Off(Plan(p, f), |Plan(p, f)| - 2), HeaderNone, "")
  }

  /** The last segment of all leaves everything but itself acknowledged. */
  lemma SendLast(p: Params, f: nat, c: Conn)
    requires Sane(p) && CutOk(p, f) && |Plan(p, f)| > 2 && Reached(p, f, c, |Plan(p, f)| - 1)
    ensures var n, (c', g) := |Plan(p, f)|, Step(p, c, SendEvent(AllSucceed()));
            At(p.start, Plan(p, f), c', Marks(n - 1, n, n, n)) && c'.cwnd == 65535 && g.Some?
  {
    hide Plan, Uniform, Generate, IsPiece;
    var n := |Plan(p, f)|;
    KeepsWindow(p, c, SendEvent(AllSucceed()));
    AbleAgain(p, f, c, n - 1);
    var m' := SendsEmptyChunk(p, f, c, Marks(n - 1, n - 1, n - 1, n - 1), Later(p), AllSucceed());
    ContextOfNext(p, f, Step(p, c, SendEvent(AllSucceed())).0, m');
  }

  lemma GapIsSmall(p: Params, f: nat)
    requires Sane(p) && CutOk(p, f) && |Plan(p, f)| > 2
    ensures Off(Plan(p, f), |Plan(p, f)|) - Off(Plan(p, f), |Plan(p, f)| - 2) < 65536
  {
    hide Pieces;
    var n := |Plan(p, f)|;
    OffStep(Plan(p, f), n - 1);
    OffStep(Plan(p, f), n - 2);
    SegmentSize(p, f, n - 1);
    SegmentSize(p, f, n - 2);
  }

  lemma FourEvents(p: Params, f: nat, c: Conn, e: Event, e1: Event, e2: Event, e3: Event)
    requires Sane(p) && CutOk(p, f)
    ensures var c1 := Step(p, c, e).0; var c2 := Step(p, c1, e1).0; var c3 := Step(p, c2, e2).0;
            && (RunOk(p, f, c, [e, e1, e2, e3], true) <==>
                StepOk(p, f, c, e, true) && StepOk(p, f, c1, e1, true) && StepOk(p, f, c2, e2, true) && StepOk(p, f, c3, e3, true))
            && After(p, c, [e, e1, e2, e3]) == Step(p, c3, e3).0
            && (Step(p, c3, e3).1.Some? ==> Step(p, c3, e3).1.value in Sent(p, c, [e, e1, e2, e3]))
  {
    hide Step, StepOk;
    var c1 := Step(p, c, e).0;
    var c2 := Step(p, c1, e1).0;
    var c3 := Step(p, c2, e2).0;
    RunOfOne(p, f, c, e); RunOfOne(p, f, c1, e1); RunOfOne(p, f, c2, e2); RunOfOne(p, f, c3, e3);
    RunAppend(p, f, c2, [e2], [e3]);
    RunAppend(p, f, c1, [e1], [e2] + [e3]);
    RunAppend(p, f, c, [e], [e1] + ([e2] + [e3]));
    assert [e, e1, e2, e3] == [e] + ([e1] + ([e2] + [e3]));
  }

  /** The last three events. */
  lemma OldAckSteps(p: Params, f: nat, c: Conn)
    requires Sane(p) && CutOk(p, f) && |Plan(p, f)| > 2 && At(p.start, Plan(p, f), c, Marks(|Plan(p, f)| - 1, |Plan(p, f)|, |Plan(p, f)|, |Plan(p, f)|))
    ensures var c2 := Step(p, Step(p, c, AckOf(p, f, |Plan(p, f)| - 2)).0, TimeoutEvent).0;
            var (d, g) := Step(p, c2, SendEvent(AllSucceed()));
            g == Some(FalseEnd(p, f)) && d.final == d.next < p.start + |Wire(Plan(p, f))|
  {
    hide At, Plan, Wire, Carries, Send, Ack, Timeout, Uniform, Off;
    var n := |Plan(p, f)|;
    GapIsSmall(p, f);
    OldAckTruncates(p, f, c, Marks(n - 1, n, n, n), n - 2, 65535, AllSucceed());
  }

  lemma GoesBack(p: Params, f: nat, c: Conn)
    requires Sane(p) && CutOk(p, f) && |Plan(p, f)| > 2 && Reached(p, f, c, |Plan(p, f)| - 1)
    ensures RunOk(p, f, c, GoBack(p, f), true) && FalseEnd(p, f) in Sent(p, c, GoBack(p, f))
    ensures var d := After(p, c, GoBack(p, f)); d.final == d.next < p.start + |Wire(Plan(p, f))|
  {
    hide At, Plan, Wire, Step, Reached, Uniform, AckOf, FalseEnd, Sent, After, RunOk;
    var send, ack := SendEvent(AllSucceed()), AckOf(p, f, |Plan(p, f)| - 2);
    SendLast(p, f, c);
    OldAckSteps(p, f, Step(p, c, send).0);
    AckIsOk(p, f, Step(p, c, send).0, |Plan(p, f)| - 2);
    FourEvents(p, f, c, send, ack, TimeoutEvent, send);
  }

  /** Every response of more than one segment has a run in which two segments with the same sequence number differ,
      the second one ending the response short. */
  lemma OldAckRun(p: Params, f: nat) returns (es: seq<Event>)
    requires Sane(p) && f == First(p) && |Plan(p, f)| > 2
    ensures Acceptable(p, Start(p), es, true) && f == FirstCut(p, Start(p), es)
    ensures FalseEnd(p, f) in Sent(p, Start(p), es)
    ensures exists g :: g in Sent(p, Start(p), es) && IsPiece(p.start, Plan(p, f), |Plan(p, f)| - 2, g)
    ensures var d := After(p, Start(p), es); d.final == d.next < p.start + |Wire(Plan(p, f))|
  {
    hide Plan, Reached, IsPiece, StepOk, Step, FalseEnd, GoBack, Wire;
    var before := Rounds(p, f, |Plan(p, f)| - 1);
    GoesBack(p, f, After(p, Start(p), before));
    RunAppend(p, f, Start(p), before, GoBack(p, f));
    es := before + GoBack(p, f);
    var sent := Sent(p, Start(p), before);
    assert sent[|sent| - 1] in Sent(p, Start(p), es);
    NoRound(p, f);
    SendOne(p, f, Start(p), 0);
    assert es[0] == before[0];
    CutOfRun(p, Start(p), es);
  }

  /** No stream carries both. */
  lemma EndsConflict(p: Params, f: nat, stream: string, g: Segment)
    requires Sane(p) && CutOk(p, f) && |Plan(p, f)| > 2 && IsPiece(p.start, Plan(p, f), |Plan(p, f)| - 2, g)
    ensures !(Carries(stream, p.start, g) && Carries(stream, p.start, FalseEnd(p, f)))
  {
    hide Pieces, Payload, Off;
    var k := |Plan(p, f)| - 2;
    PieceFacts(p.body, f, Later(p), k);
    OneEmptyChunk(p.body, f, Later(p), k);
    hide PieceIs, Plan, Carries;
    var i := HeadsOfData(Piece(g.header, g.content));
    StreamByte(stream, p.start, g, i);
    StreamByte(stream, p.start, FalseEnd(p, f), i);
  }

  lemma PlanSize(p: Params, f: nat)
    requires Sane(p) && CutOk(p, f)
    ensures |p.body| <= f ==> |Plan(p, f)| == 1
    ensures |p.body| > f ==> |Plan(p, f)| > 2
  {
    if |p.body| <= f { OnePiece(p.body, f, Later(p)); } else { PieceAfterFirst(p.body, f, Later(p), 1); }
  }

  /** With acknowledgements in any order, old ones included, replay is transparent exactly if the whole body fits
      the first segment. */
  lemma TransparentIffOneSegment(p: Params)
    requires Sane(p)
    ensures Transparent(p, true) <==> |p.body| <= First(p)
    ensures Transparent(p, true) <==> |p.body| <= p.bufferSize && |p.body| <= p.mss - p.mss % p.chunkSize - 80
  {
    if |p.body| <= First(p) {
      var stream := Wire(Plan(p, Later(p)));
      forall c, es ensures RunIsFaithful(p, stream, true, c, es) {
        hide Plan, Wire, Carries;
        if Acceptable(p, c, es, true) {
          var f := FirstCut(p, c, es);
          PlanSize(p, f);
          UniformPlan(p, f);
          UniformRunKeepsCut(p, f, c, es);
          OneSegmentCarries(p, f, c, es);
        }
      }
      assert Faithful(p, stream, true);
    } else if Transparent(p, true) {
      hide Plan, Wire, Carries, IsPiece;
      var stream :| Faithful(p, stream, true);
      var f := First(p);
      PlanSize(p, f);
      var es := OldAckRun(p, f);
      assert RunIsFaithful(p, stream, true, Start(p), es);
      var g :| g in Sent(p, Start(p), es) && IsPiece(p.start, Plan(p, f), |Plan(p, f)| - 2, g);
      EndsConflict(p, f, stream, g);
    }
  }
}
