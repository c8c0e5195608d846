/** Progress of the generated-response protocol: from every state of every run the response can still be brought
    to its end. */
module Completion {
  import opened Handlers
  import opened Options
  import opened Http
  import opened HttpClient
  import opened Response
  import opened Replay
  import opened ReplayRuns
  import opened InOrder

  /** Everything sent so far is acknowledged or rolled back; piece k comes next. */
  ghost predicate Rests(p: Params, f: nat, c: Conn, k: nat, window: nat)
    requires Sane(p) && CutOk(p, f)
  {
    c.cwnd == window &&
    if c.service == None then k == 0 && Fresh(p, c)
    else exists m: Marks :: At(p.start, Plan(p, f), c, m) && m.acked == m.next == k
  }

  /** Should the first segment be due again, it would be cut as it was. */
  predicate CutsAgain(p: Params, f: nat, c: Conn)
    requires p.chunkSize > 0 && MaxOut(p) > 80
  {
    c.next == c.inflight + p.start ==> CutsAs(p, f, 0, LimitNow(p, c))
  }

  // ----- one more segment -----

  /** With all allocations granted, a segment is sent. */
  lemma Generates(p: Params, f: nat, c: Conn, m: Marks, max: nat)
    requires Sane(p) && CutOk(p, f) && At(p.start, Plan(p, f), c, m) && Able(p, c)
    ensures c.service.Some? && Generate(p, c, c.service.value, max, AllSucceed()).1.Some?
  {
    Situation(p, f, c, m);
    hide Pieces, Entries, Off, Resume, HeaderAt, Pos;
    ContextInBody(p, f, m.next);
    ContextInBody(p, f, m.ctx);
  }

  lemma ContextInBody(p: Params, f: nat, k: nat)
    requires Sane(p) && CutOk(p, f)
    ensures k < |Plan(p, f)| ==> ContextAt(Plan(p, f), k).pos <= |p.body|
    ensures DataCount(Plan(p, f)) <= k <= |Plan(p, f)| ==> ContextAt(Plan(p, f), k).status == Terminated
  {
    hide Pieces;
    if k < |Plan(p, f)| { PieceFacts(p.body, f, Later(p), k); }
  }

  lemma RestsAble(p: Params, f: nat, c: Conn, m: Marks)
    requires Sane(p) && CutOk(p, f) && At(p.start, Plan(p, f), c, m) && m.acked == m.next < |Plan(p, f)| && p.mss <= c.cwnd
    ensures Able(p, c)
  {
    hide Plan, Entries, ContextAt, HeaderAt;
    NextBelowEnd(p, f, c, m);
  }

  lemma NextBelowEnd(p: Params, f: nat, c: Conn, m: Marks)
    requires Sane(p) && CutOk(p, f) && At(p.start, Plan(p, f), c, m) && m.next < |Plan(p, f)|
    ensures c.next != c.final
  {
    hide Plan, Entries, ContextAt, HeaderAt, Off;
    OffsetsIncrease(Plan(p, f), m.next, |Plan(p, f)|);
  }

  lemma SendsNext(p: Params, f: nat, c: Conn, k: nat, window: nat) returns (m': Marks)
    requires Sane(p) && CutOk(p, f) && Rests(p, f, c, k, window) && k < |Plan(p, f)| && p.mss <= window
    requires k == 0 ==> CutsAs(p, f, 0, LimitNow(p, c))
    ensures CutKept(p, f, c, AllSucceed())
    ensures var (c', g) := Send(p, c, AllSucceed());
            && g.Some? && IsPiece(p.start, Plan(p, f), k, g.value)
            && At(p.start, Plan(p, f), c', m') && m'.acked == k && m'.next == k + 1
  {
    hide Plan, Generate, At, IsPiece, CutsAs;
    var al := AllSucceed();
    if c.service == None {
      m' := SendOpens(p, f, c, al);
      OpenedIsAt(p, f, c);
      OpenedRests(p, c);
      Generates(p, f, Opened(c), Marks(0, 0, 0, 0), First(p));
    } else {
      var m: Marks :| At(p.start, Plan(p, f), c, m) && m.acked == m.next == k;
      NextIsStart(p, f, c, m);
      m' := SendMoves(p, f, c, m, al);
      RestsAble(p, f, c, m);
      Generates(p, f, c, m, Later(p));
    }
  }

  lemma OpenedRests(p: Params, c: Conn)
    requires Sane(p) && Fresh(p, c) && p.mss <= c.cwnd
    ensures Able(p, c) && Able(p, Opened(c)) && Opened(c).service.Some?
  {
  }

  /** The acknowledgement of the segment just sent. */
  lemma AckNext(p: Params, f: nat, c: Conn, m: Marks, k: nat, window: nat)
    requires Sane(p) && CutOk(p, f) && At(p.start, Plan(p, f), c, m) && m.acked == k < |Plan(p, f)| && m.next == k + 1 && window < 65536
    ensures var c' := Ack(c, p.start + Off(Plan(p, f), k + 1), window);
            if k + 1 == |Plan(p, f)| then !c'.handler else Rests(p, f, c', k + 1, window) && c'.service.Some?
    ensures StepOk(p, f, c, AckEvent(p.start + Off(Plan(p, f), k + 1), window), false)
  {
    hide Plan, Off, At;
    var ps := Plan(p, f);
    AtIsOpen(p, f, c, m);
    assert IsBoundary(p, f, p.start + Off(ps, k + 1));
    NotBelow(p, f, c, m, k + 1);
    WireLength(ps);
    OffsetsIncrease(ps, k + 1, |ps|);
    ClosesWhenAllAcknowledged(p, f, c, m, k + 1, window);
    AckMoves(p, f, c, m, k + 1, window);
    AckSetsWindow(c, p.start + Off(ps, k + 1), window);
    hide Ack;
    if k + 1 < |ps| {
      AtIsOpen(p, f, Ack(c, p.start + Off(ps, k + 1), window), m.(acked := k + 1));
    }
  }

  lemma AckSetsWindow(c: Conn, inack: nat, window: nat)
    ensures Ack(c, inack, window).cwnd == window
    ensures Ack(c, inack, window).handler ==> (Ack(c, inack, window).service == None <==> c.service == None)
  {
    hide Prune;
  }

  lemma TwoThenRest(p: Params, f: nat, c: Conn, e1: Event, e2: Event, rest: seq<Event>)
    requires Sane(p) && CutOk(p, f) && e1.SendEvent? && e2.AckEvent?
    requires CutKept(p, f, c, e1.al)
    ensures var (c1, g) := Step(p, c, e1);
            var (c2, es) := (Step(p, c1, e2).0, [e1, e2] + rest);
            && (StepOk(p, f, c1, e2, false) && RunOk(p, f, c2, rest, false) ==> RunOk(p, f, c, es, false))
            && (RunKeepsCut(p, f, c2, rest) ==> RunKeepsCut(p, f, c, es))
            && After(p, c, es) == After(p, c2, rest)
            && Sent(p, c, es) == (if g == None then [] else [g.value]) + Sent(p, c2, rest)
  {
    hide Send, Ack, CutKept, IsBoundary;
    var es := [e1, e2] + rest;
    assert es[1..] == [e2] + rest && es[1..][1..] == rest;
    var (c1, g) := Step(p, c, e1);
    assert Step(p, c1, e2).1 == None;
    hide Step;
    assert Sent(p, c1, es[1..]) == [] + Sent(p, Step(p, c1, e2).0, rest);
  }

  /** The pieces from k on. */
  ghost predicate RestOfPlan(p: Params, f: nat, k: nat, sent: seq<Segment>)
    requires Sane(p) && CutOk(p, f)
  {
    k + |sent| == |Plan(p, f)| && forall i :: 0 <= i < |sent| ==> IsPiece(p.start, Plan(p, f), k + i, sent[i])
  }

  lemma OneMoreInFront(p: Params, f: nat, k: nat, g: Segment, sent: seq<Segment>)
    requires Sane(p) && CutOk(p, f) && IsPiece(p.start, Plan(p, f), k, g) && RestOfPlan(p, f, k + 1, sent)
    ensures RestOfPlan(p, f, k, [g] + sent)
  {
    hide Plan, IsPiece;
    forall i | 0 <= i < |[g] + sent| ensures IsPiece(p.start, Plan(p, f), k + i, ([g] + sent)[i]) {
      if i > 0 { assert IsPiece(p.start, Plan(p, f), k + 1 + (i - 1), sent[i - 1]); }
    }
  }

  /** Send, acknowledge, and so on to the end. */
  lemma {:induction false} Finishes(p: Params, f: nat, c: Conn, k: nat, window: nat) returns (es: seq<Event>)
    requires Sane(p) && CutOk(p, f) && Rests(p, f, c, k, window) && k < |Plan(p, f)| && p.mss <= window < 65536
    requires k == 0 ==> CutsAs(p, f, 0, LimitNow(p, c))
    ensures RunOk(p, f, c, es, false) && RunKeepsCut(p, f, c, es)
    ensures !After(p, c, es).handler && RestOfPlan(p, f, k, Sent(p, c, es))
    ensures es != [] && es[0].SendEvent? && Step(p, c, es[0]).1.Some?
    decreases |Plan(p, f)| - k
  {
    hide Plan, At, Rests, CutsAs, Send, Ack, IsPiece, CutKept, StepOk, RestOfPlan, RunOk, RunKeepsCut, After, Sent;
    var m' := SendsNext(p, f, c, k, window);
    var send, ack := SendEvent(AllSucceed()), AckEvent(p.start + Off(Plan(p, f), k + 1), window);
    var (c1, g) := Send(p, c, AllSucceed());
    AckNext(p, f, c1, m', k, window);
    var c2 := Ack(c1, ack.inack, window);
    var rest := [];
    if k + 1 < |Plan(p, f)| {
      rest := Finishes(p, f, c2, k + 1, window);
    } else {
      NothingLeft(p, f, c2);
    }
    TwoThenRest(p, f, c, send, ack, rest);
    OneMoreInFront(p, f, k, g.value, Sent(p, c2, rest));
    es := [send, ack] + rest;
  }

  lemma NothingLeft(p: Params, f: nat, c: Conn)
    requires Sane(p) && CutOk(p, f)
    ensures RunOk(p, f, c, [], false) && RunKeepsCut(p, f, c, []) && After(p, c, []) == c
    ensures Sent(p, c, []) == [] && RestOfPlan(p, f, |Plan(p, f)|, [])
  {
  }

  // ----- from any state -----

  /** A duplicate acknowledgement takes the connection back to the oldest segment that is not acknowledged. */
  lemma RollsBack(p: Params, f: nat, c: Conn, window: nat) returns (k: nat)
    requires Sane(p) && CutOk(p, f) && Inv(p, f, c) && c.handler && window < 65536
    ensures k < |Plan(p, f)| && c.next - c.inflight == p.start + Off(Plan(p, f), k)
    ensures var e := AckEvent(p.start + Off(Plan(p, f), k), window);
            && StepOk(p, f, c, e, false) && Rests(p, f, Ack(c, e.inack, window), k, window)
            && LimitNow(p, Ack(c, e.inack, window)) == LimitNow(p, c)
  {
    hide Plan, Off, At;
    if Fresh(p, c) {
      k := 0;
      NothingBeforeFirst(Plan(p, f), 0);
      assert IsBoundary(p, f, p.start + Off(Plan(p, f), 0));
      assert Ack(c, p.start, window) == c.(cwnd := window);
    } else {
      var m: Marks :| At(p.start, Plan(p, f), c, m) && m.acked < |Plan(p, f)|;
      k := m.acked;
      AtIsOpen(p, f, c, m);
      DuplicateAck(p, f, c, m, window);
      AckSetsWindow(c, p.start + Off(Plan(p, f), k), window);
    }
  }

  lemma DuplicateAck(p: Params, f: nat, c: Conn, m: Marks, window: nat)
    requires Sane(p) && CutOk(p, f) && At(p.start, Plan(p, f), c, m) && m.acked < |Plan(p, f)| && window < 65536
    ensures var e := AckEvent(p.start + Off(Plan(p, f), m.acked), window);
            var c' := Ack(c, e.inack, window);
            StepOk(p, f, c, e, false) && c'.handler && Rests(p, f, c', m.acked, window)
  {
    hide Plan, Off, At;
    var inack := p.start + Off(Plan(p, f), m.acked);
    AtIsOpen(p, f, c, m);
    assert IsBoundary(p, f, inack);
    NotBelow(p, f, c, m, m.acked);
    WireLength(Plan(p, f));
    OffsetsIncrease(Plan(p, f), m.acked, |Plan(p, f)|);
    ClosesWhenAllAcknowledged(p, f, c, m, m.acked, window);
    AckMoves(p, f, c, m, m.acked, window);
    AckSetsWindow(c, inack, window);
    hide Ack;
    AtIsOpen(p, f, Ack(c, inack, window), m.(next := m.acked));
  }

  lemma AckThenRest(p: Params, f: nat, c: Conn, e: Event, rest: seq<Event>)
    requires Sane(p) && CutOk(p, f) && e.AckEvent? && StepOk(p, f, c, e, false)
    ensures var c' := Ack(c, e.inack, e.cwnd);
            && (RunOk(p, f, c', rest, false) ==> RunOk(p, f, c, [e] + rest, false))
            && (RunKeepsCut(p, f, c', rest) ==> RunKeepsCut(p, f, c, [e] + rest))
            && After(p, c, [e] + rest) == After(p, c', rest) && Sent(p, c, [e] + rest) == Sent(p, c', rest)
  {
    hide Ack, CutKept, IsBoundary, Send;
    assert ([e] + rest)[1..] == rest;
    assert Step(p, c, e) == (Ack(c, e.inack, e.cwnd), None);
    hide Step;
  }

  /** A client that already holds the first j pieces ends with all of them. */
  lemma {:induction false} ReceivesRest(p: Params, f: nat, k: nat, j: nat, sent: seq<Segment>)
    requires Sane(p) && CutOk(p, f) && RestOfPlan(p, f, k, sent) && k <= j <= |Plan(p, f)|
    requires Off(Plan(p, f), j) <= |Wire(Plan(p, f))|
    ensures ReceiveAll(p.start, Wire(Plan(p, f))[..Off(Plan(p, f), j)], sent) == Wire(Plan(p, f))
    decreases |sent|
  {
    hide Plan, Wire, Off, Payload, Bytes;
    var ps := Plan(p, f);
    WireLength(ps);
    if sent != [] {
      OffStep(ps, k);
      assert IsPiece(p.start, ps, k + 0, sent[0]);
      var got := Wire(ps)[..Off(ps, j)];
      var rest := sent[1..];
      forall i | 0 <= i < |rest| ensures IsPiece(p.start, ps, k + 1 + i, rest[i]) { assert IsPiece(p.start, ps, k + (i + 1), sent[i + 1]); }
      if k == j {
        TakesPiece(p.start, ps, k, sent[0]);
        OffsetsIncrease(ps, k + 1, |ps|);
        ReceivesRest(p, f, k + 1, k + 1, rest);
      } else {
        OffsetsIncrease(ps, k, j);
        assert Receive(p.start, got, sent[0]) == got;
        ReceivesRest(p, f, k + 1, j, rest);
      }
    } else {
      assert Wire(ps)[..|Wire(ps)|] == Wire(ps);
    }
  }

  lemma TakesPiece(start: nat, ps: seq<Piece>, k: nat, g: Segment)
    requires IsPiece(start, ps, k, g)
    ensures Off(ps, k) <= Off(ps, k + 1) <= |Wire(ps)|
    ensures Receive(start, Wire(ps)[..Off(ps, k)], g) == Wire(ps)[..Off(ps, k + 1)]
  {
    hide Wire, Off, Payload;
    WireSlice(ps, k);
    OffStep(ps, k);
    WireLength(ps);
    OffsetsIncrease(ps, k + 1, |ps|);
    PayloadLength(ps[k].header, ps[k].content);
    assert Wire(ps)[..Off(ps, k)] + Bytes(ps[k]) == Wire(ps)[..Off(ps, k + 1)];
  }

  lemma FinishOpen(p: Params, f: nat, c: Conn, window: nat) returns (es: seq<Event>, k: nat)
    requires Sane(p) && CutOk(p, f) && Inv(p, f, c) && p.mss <= window < 65536 && c.handler && CutsAgain(p, f, c)
    ensures RunOk(p, f, c, es, false) && RunKeepsCut(p, f, c, es) && !After(p, c, es).handler
    ensures k < |Plan(p, f)| && c.next - c.inflight == p.start + Off(Plan(p, f), k) && RestOfPlan(p, f, k, Sent(p, c, es))
  {
    hide Inv, At, Rests, CutsAs, Ack, StepOk, RestOfPlan, RunOk, RunKeepsCut, After, Sent, Off, Plan, LimitNow;
    k := RollsBack(p, f, c, window);
    var e := AckEvent(p.start + Off(Plan(p, f), k), window);
    if k == 0 { NothingBeforeFirst(Plan(p, f), 0); }
    var rest := Finishes(p, f, Ack(c, e.inack, window), k, window);
    AckThenRest(p, f, c, e, rest);
    es := [e] + rest;
  }

  lemma PlanDecodes(p: Params, f: nat)
    requires Sane(p) && CutOk(p, f)
    ensures Decode(Wire(Plan(p, f))) == Some(p.body)
  {
    hide Pieces, Wire, Decode;
    ResponseDecodes(p.body, f, Later(p));
  }

  /** From every state a run can be in, there is a continuation that resends what is not acknowledged and ends the
      response: the handler is closed, and a client that holds whatever pieces it acknowledged, or more, ends up
      with the whole response and decodes the body. */
  lemma CanFinish(p: Params, f: nat, c: Conn, window: nat) returns (es: seq<Event>)
    requires Sane(p) && CutOk(p, f) && Inv(p, f, c) && p.mss <= window < 65536
    requires c.handler ==> CutsAgain(p, f, c)
    ensures RunOk(p, f, c, es, false) && RunKeepsCut(p, f, c, es) && !After(p, c, es).handler
    ensures c.handler ==> forall j :: 0 <= j <= |Plan(p, f)| && c.next - c.inflight <= p.start + Off(Plan(p, f), j) <= p.start + |Wire(Plan(p, f))| ==>
              ReceiveAll(p.start, Wire(Plan(p, f))[..Off(Plan(p, f), j)], Sent(p, c, es)) == Wire(Plan(p, f))
    ensures Decode(Wire(Plan(p, f))) == Some(p.body)
  {
    hide Inv, At, Plan, Wire, Off, Decode, ReceiveAll, Sent, After, RunOk, RunKeepsCut, RestOfPlan, CutsAgain;
    PlanDecodes(p, f);
    es := [];
    if c.handler {
      var k;
      es, k := FinishOpen(p, f, c, window);
      AllReceive(p, f, k, c.next - c.inflight, Sent(p, c, es));
    } else {
      NothingLeft(p, f, c);
    }
  }

  lemma AllReceive(p: Params, f: nat, k: nat, base: int, sent: seq<Segment>)
    requires Sane(p) && CutOk(p, f) && k <= |Plan(p, f)| && RestOfPlan(p, f, k, sent) && base == p.start + Off(Plan(p, f), k)
    ensures forall j :: 0 <= j <= |Plan(p, f)| && base <= p.start + Off(Plan(p, f), j) <= p.start + |Wire(Plan(p, f))| ==>
              ReceiveAll(p.start, Wire(Plan(p, f))[..Off(Plan(p, f), j)], sent) == Wire(Plan(p, f))
  {
    hide Plan, Wire, Off, ReceiveAll, RestOfPlan;
    forall j | 0 <= j <= |Plan(p, f)| && base <= p.start + Off(Plan(p, f), j) <= p.start + |Wire(Plan(p, f))|
      ensures ReceiveAll(p.start, Wire(Plan(p, f))[..Off(Plan(p, f), j)], sent) == Wire(Plan(p, f))
    {
      if j < k { OffsetsIncrease(Plan(p, f), j, k); }
      ReceivesRest(p, f, k, j, sent);
    }
  }

  lemma {:induction false} RunKeepsInv(p: Params, f: nat, c: Conn, es: seq<Event>)
    requires Sane(p) && CutOk(p, f) && Inv(p, f, c) && RunOk(p, f, c, es, false) && RunKeepsCut(p, f, c, es)
    ensures Inv(p, f, After(p, c, es))
    decreases |es|
  {
    hide Inv, Step, StepOk, Plan, CutKept;
    if es != [] {
      StepKeeps(p, f, c, es[0]);
      RunKeepsInv(p, f, Step(p, c, es[0]).0, es[1..]);
    }
  }

  lemma UniformCutsAgain(p: Params, f: nat, c: Conn)
    requires Sane(p) && CutOk(p, f) && Uniform(p)
    ensures CutsAgain(p, f, c)
  {
  }

  /** Progress where replay is transparent: however a run went, losses, duplicates and failed allocations included,
      it can be continued to the end, and a client that acknowledged no more than it holds then has the body. */
  lemma EveryRunCanFinish(p: Params, c: Conn, es: seq<Event>, window: nat) returns (more: seq<Event>)
    requires Sane(p) && Uniform(p) && Acceptable(p, c, es, false) && p.mss <= window < 65536
    ensures var (ps, d) := (Plan(p, FirstCut(p, c, es)), After(p, c, es));
            && RunOk(p, FirstCut(p, c, es), d, more, false) && !After(p, d, more).handler
            && (d.handler ==> forall j :: 0 <= j <= |ps| && d.next - d.inflight <= p.start + Off(ps, j) <= p.start + |Wire(ps)| ==>
                  Decode(ReceiveAll(p.start, Wire(ps)[..Off(ps, j)], Sent(p, d, more))) == Some(p.body))
  {
    hide Plan, Wire, Off, Decode, Uniform, RunOk, RunKeepsCut, FirstCut, After, Sent, ReceiveAll, CutsAgain;
    var f := FirstCut(p, c, es);
    UniformRunKeepsCut(p, f, c, es);
    assert Inv(p, f, c);
    hide Inv;
    RunKeepsInv(p, f, c, es);
    UniformCutsAgain(p, f, After(p, c, es));
    more := CanFinish(p, f, After(p, c, es), window);
  }

  /** Under any two limits, every response can be downloaded without a loss: a run from the start whose segments,
      taken in order, decode to the body, and that closes the handler. */
  lemma LossFreeDownload(p: Params, c: Conn) returns (es: seq<Event>)
    requires Sane(p) && Fresh(p, c) && p.mss <= c.cwnd
    ensures Acceptable(p, c, es, false) && FirstCut(p, c, es) == First(p) && !After(p, c, es).handler
    ensures Decode(ReceiveAll(p.start, "", Sent(p, c, es))) == Some(p.body)
  {
    hide Pieces, At, Wire, Decode, RunOk, RunKeepsCut, FirstCut, After, Sent, ReceiveAll, Off, Step, IsPiece;
    var f := First(p);
    assert CutsAs(p, f, 0, LimitNow(p, c));
    es := Finishes(p, f, c, 0, c.cwnd);
    CutOfRun(p, c, es);
    var sent := Sent(p, c, es);
    forall i | 0 <= i < |sent| ensures IsPiece(p.start, Plan(p, f), i, sent[i]) { assert IsPiece(p.start, Plan(p, f), 0 + i, sent[i]); }
    ClientDecodes(p, f, sent);
  }
}
