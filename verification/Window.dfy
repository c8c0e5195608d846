/** When a generated response sends: exactly when there is something left and the window has room for a segment. */
module Window {
  import opened Handlers
  import opened Options
  import opened Http
  import opened Response
  import opened Replay
  import opened ReplayRuns
  import opened InOrder

  /** The allocations that segment k needs: none for the empty chunk, a buffer for data sent again, and for new
      data also the record of its context, with a stack once the handler has one. */
  predicate Granted(al: Allocs, k: nat, data: bool, again: bool) {
    data ==> al.buffer && (!again ==> al.record && al.context && (k > 0 ==> al.stack))
  }

  lemma GenerateIff(p: Params, f: nat, c: Conn, m: Marks, max: nat, al: Allocs)
    requires Sane(p) && CutOk(p, f) && At(p.start, Plan(p, f), c, m) && Able(p, c)
    ensures m.next < |Plan(p, f)| && c.service.Some?
    ensures Generate(p, c, c.service.value, max, al).1.Some? <==>
              Granted(al, m.next, m.next < DataCount(Plan(p, f)), m.next < m.sent)
  {
    Situation(p, f, c, m);
    hide Pieces, Entries, Off, Resume, HeaderAt, Pos;
    ContextInBody(p, f, m.next);
    ContextInBody(p, f, m.ctx);
    if m.next == m.sent { NewIsCurrent(p, f, c, m); }
  }

  /** Before a first transmission of data the coroutine stands where that segment starts. */
  lemma NewIsCurrent(p: Params, f: nat, c: Conn, m: Marks)
    requires Sane(p) && CutOk(p, f) && At(p.start, Plan(p, f), c, m) && m.next == m.sent
    ensures m.ctx == m.next
  {
    hide Plan, Entries, ContextAt, HeaderAt, Off;
  }

  lemma ContextInBody(p: Params, f: nat, k: nat)
    requires Sane(p) && CutOk(p, f)
    ensures k < |Plan(p, f)| ==> ContextAt(Plan(p, f), k).pos <= |p.body|
    ensures DataCount(Plan(p, f)) <= k <= |Plan(p, f)| ==> ContextAt(Plan(p, f), k).status == Terminated
    ensures k < DataCount(Plan(p, f)) ==> ContextAt(Plan(p, f), k).status == if k == 0 then Ready else Active
  {
    hide Pieces;
    if k < |Plan(p, f)| { PieceFacts(p.body, f, Later(p), k); }
  }

  lemma EndOfPlan(p: Params, f: nat, c: Conn, m: Marks)
    requires Sane(p) && CutOk(p, f) && At(p.start, Plan(p, f), c, m)
    ensures c.handler && c.service.Some? && m.next <= m.sent <= |Plan(p, f)|
    ensures c.next == c.final <==> m.next == |Plan(p, f)|
  {
    hide Plan, Entries, ContextAt, HeaderAt;
    OffsetsIncrease(Plan(p, f), m.next, |Plan(p, f)|);
  }

  /** From every state of the invariant: a call of `smews_send` emits a segment if and only if one is left, the window
      has room for a full segment besides what is in flight, and the allocations it needs are granted. */
  lemma SendsIff(p: Params, f: nat, c: Conn, m: Marks, al: Allocs)
    requires Sane(p) && CutOk(p, f) && At(p.start, Plan(p, f), c, m)
    ensures Send(p, c, al).1.Some? <==>
              && m.next < |Plan(p, f)| && c.inflight + p.mss <= c.cwnd
              && al.prepare && Granted(al, m.next, m.next < DataCount(Plan(p, f)), m.next < m.sent)
  {
    EndOfPlan(p, f, c, m);
    hide Plan, Generate, At, DataCount, Granted;
    if Able(p, c) { GenerateIff(p, f, c, m, Later(p), al); }
  }

  /** Before the service exists: its first segment is always one of data. */
  lemma FirstSendIff(p: Params, c: Conn, al: Allocs)
    requires Sane(p) && Fresh(p, c)
    ensures Send(p, c, al).1.Some? <==>
              p.mss <= c.cwnd && al.service && al.prepare && al.buffer && al.record && al.context
  {
    OpenedIsAt(p, Later(p), c);
    hide Plan, Generate, At;
    if Able(p, c) {
      OpenedIsAble(p, c);
      GenerateIff(p, Later(p), Opened(c), Marks(0, 0, 0, 0), First(p), al);
      DataFirst(Plan(p, Later(p)));
    }
  }

  lemma DataFirst(ps: seq<Piece>)
    requires ps != []
    ensures DataCount(ps) > 0
  {
  }

  // ----- what is sent -----

  /** Every segment but the last of the data is full: the first one to the room besides the largest header, the others
      to the room besides a chunk's frame, or to the output buffer if that is smaller. */
  lemma SegmentsAreFull(p: Params, k: nat)
    requires Sane(p) && k < |Plan(p, First(p))|
    ensures var (ps, room) := (Plan(p, First(p)), p.mss - p.mss % p.chunkSize);
            var full := Min(p.bufferSize, if k == 0 then room - 80 else room - 8);
            var at := Pos(ps, k);
            && at <= |p.body| && ps[k].content == p.body[at..Min(at + full, |p.body|)]
            && (k + 1 < |ps| ==> at < |p.body|)
            && (k == 0 ==> ps[k].header == if |p.body| <= full then HeaderStandard else HeaderChunks)
            && (k > 0 ==> ps[k].header == HeaderNone)
  {
    PieceFacts(p.body, First(p), Later(p), k);
    PosZero(Plan(p, First(p)));
    FirstHeader(p.body, First(p), Later(p));
    hide Pieces, Pos;
  }

  lemma FirstHeader(body: string, f: nat, m: nat)
    requires f > 0 && m > 0
    ensures Pieces(body, f, m)[0].header == if |body| <= f then HeaderStandard else HeaderChunks
  {
  }

  // ----- filling the window -----

  function Sends(j: nat): (es: seq<Event>)
    ensures |es| == j && forall i :: 0 <= i < j ==> es[i] == SendEvent(AllSucceed())
  {
    if j == 0 then [] else [SendEvent(AllSucceed())] + Sends(j - 1)
  }

  /** The first k pieces are in flight and nothing is acknowledged. */
  ghost predicate InFlight(p: Params, c: Conn, k: nat, window: nat)
    requires Sane(p)
  {
    c.cwnd == window &&
    if k == 0 then Fresh(p, c) else At(p.start, Plan(p, First(p)), c, Marks(0, k, k, k))
  }

  /** One more call: the next piece if the window has room for a segment, otherwise nothing at all. */
  lemma OneMore(p: Params, c: Conn, k: nat, window: nat)
    requires Sane(p) && InFlight(p, c, k, window) && k <= |Plan(p, First(p))|
    ensures var (ps, (c', g)) := (Plan(p, First(p)), Send(p, c, AllSucceed()));
            if k < |ps| && Off(ps, k) + p.mss <= window
            then g.Some? && IsPiece(p.start, ps, k, g.value) && InFlight(p, c', k + 1, window)
            else g == None && c' == c
  {
    var f, al := First(p), AllSucceed();
    var ps := Plan(p, f);
    NothingBeforeFirst(ps, 0);
    SendLeavesWindow(p, c, al);
    hide Plan, Off, At, IsPiece, Send, CutsAs, Granted, DataCount;
    if k == 0 {
      PlanHasFirst(p, f);
      FirstSendIff(p, c, al);
      assert CutKept(p, f, c, al) by { FirstKeepsCut(p, c, al); }
      var m' := SendOpens(p, f, c, al);
      if Send(p, c, al).1.Some? { AtWithin(p, f, Send(p, c, al).0, m'); }
    } else {
      var m := Marks(0, k, k, k);
      AtWithin(p, f, c, m);
      EndOfPlan(p, f, c, m);
      SendsIff(p, f, c, m, al);
      AllGranted(k, k < DataCount(ps), false);
      NextIsStart(p, f, c, m);
      assert CutKept(p, f, c, al);
      var m' := SendMoves(p, f, c, m, al);
      AtWithin(p, f, Send(p, c, al).0, m');
    }
    if !(k < |ps| && Off(ps, k) + p.mss <= window) { IdleSend(p, c, al); }
  }

  lemma IdleSend(p: Params, c: Conn, al: Allocs)
    requires Sane(p) && (c.next == c.final || c.inflight + p.mss > c.cwnd)
    ensures Send(p, c, al) == (c, None)
  {
  }

  lemma FirstKeepsCut(p: Params, c: Conn, al: Allocs)
    requires Sane(p) && Fresh(p, c)
    ensures CutKept(p, First(p), c, al)
  {
    hide Send;
  }

  lemma AllGranted(k: nat, data: bool, again: bool)
    ensures Granted(AllSucceed(), k, data, again) && AllSucceed().prepare
  {
  }

  lemma SendLeavesWindow(p: Params, c: Conn, al: Allocs)
    requires Sane(p)
    ensures Send(p, c, al).0.cwnd == c.cwnd
  {
    hide Select, Resume;
  }

  lemma AtWithin(p: Params, f: nat, c: Conn, m: Marks)
    requires Sane(p) && CutOk(p, f) && At(p.start, Plan(p, f), c, m)
    ensures m.acked <= m.next <= m.ctx <= m.sent <= |Plan(p, f)| && (m.next == m.sent ==> m.ctx == m.next)
    ensures c.inflight == Off(Plan(p, f), m.next) - Off(Plan(p, f), m.acked) && c.service.Some?
  {
    hide Plan, Entries, ContextAt, HeaderAt, Off;
  }

  lemma PlanHasFirst(p: Params, f: nat)
    requires Sane(p) && CutOk(p, f)
    ensures |Plan(p, f)| > 0
  {
    hide Pieces;
  }

  lemma SendsStep(j: nat)
    requires j > 0
    ensures Sends(j)[0] == SendEvent(AllSucceed()) && Sends(j)[1..] == Sends(j - 1)
  {
  }

  lemma {:induction false} FillsFrom(p: Params, c: Conn, k: nat, j: nat, window: nat)
    requires Sane(p) && InFlight(p, c, k, window) && k + j <= |Plan(p, First(p))|
    requires forall i :: k <= i < k + j ==> Off(Plan(p, First(p)), i) + p.mss <= window
    ensures |Sent(p, c, Sends(j))| == j && InFlight(p, After(p, c, Sends(j)), k + j, window)
    ensures forall i :: 0 <= i < j ==> IsPiece(p.start, Plan(p, First(p)), k + i, Sent(p, c, Sends(j))[i])
    decreases j
  {
    hide Plan, Off, InFlight, IsPiece, Send;
    if j > 0 {
      OneMore(p, c, k, window);
      SendsStep(j);
      var (c', g) := Send(p, c, AllSucceed());
      hide Sends;
      FillsFrom(p, c', k + 1, j - 1, window);
      assert Sent(p, c, Sends(j)) == [g.value] + Sent(p, c', Sends(j - 1));
      forall i | 0 <= i < j ensures IsPiece(p.start, Plan(p, First(p)), k + i, Sent(p, c, Sends(j))[i]) {
        if i > 0 { assert IsPiece(p.start, Plan(p, First(p)), k + 1 + (i - 1), Sent(p, c', Sends(j - 1))[i - 1]); }
      }
    }
  }

  /** A connection fills the client's window without waiting for an acknowledgement: as long as a full segment still fits
      besides what is in flight, the next piece goes out; after that, calls change nothing. */
  lemma FillsWindow(p: Params, c: Conn, j: nat)
    requires Sane(p) && Fresh(p, c) && j <= |Plan(p, First(p))|
    requires forall i :: 0 <= i < j ==> Off(Plan(p, First(p)), i) + p.mss <= c.cwnd
    ensures var (ps, sent, d) := (Plan(p, First(p)), Sent(p, c, Sends(j)), After(p, c, Sends(j)));
            && |sent| == j && (forall i :: 0 <= i < j ==> IsPiece(p.start, ps, i, sent[i]))
            && (j == |ps| || Off(ps, j) + p.mss > c.cwnd ==> Send(p, d, AllSucceed()) == (d, None))
  {
    hide Plan, Off, IsPiece, Send, Sent, After;
    FillsFrom(p, c, 0, j, c.cwnd);
    OneMore(p, After(p, c, Sends(j)), j, c.cwnd);
    var sent := Sent(p, c, Sends(j));
    forall i | 0 <= i < j ensures IsPiece(p.start, Plan(p, First(p)), i, sent[i]) {
      assert IsPiece(p.start, Plan(p, First(p)), 0 + i, sent[i]);
    }
  }
}
