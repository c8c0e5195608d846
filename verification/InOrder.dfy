/** Runs in which nothing is sent twice: the segments are those of the response, in order, under any set-up. */
module InOrder {
  import opened Handlers
  import opened Options
  import opened Http
  import opened HttpClient
  import opened Response
  import opened Replay
  import opened ReplayRuns

  /** No timer and no duplicate acknowledgement takes the connection back. */
  predicate GoesOn(p: Params, c: Conn, es: seq<Event>)
    requires p.chunkSize > 0 && MaxOut(p) > 80
    decreases |es|
  {
    es != [] ==> var c' := Step(p, c, es[0]).0; c.next <= c'.next && GoesOn(p, c', es[1..])
  }

  /** The first k pieces were sent, once each. */
  ghost predicate Sending(p: Params, f: nat, c: Conn, k: nat)
    requires Sane(p) && CutOk(p, f)
  {
    if !c.handler then k == |Plan(p, f)| && c.final == c.next
    else if c.service == None then Fresh(p, c) && k == 0
    else exists m: Marks :: At(p.start, Plan(p, f), c, m) && m.acked < |Plan(p, f)| && m.next == m.sent == k
  }

  /** The limit of the first segment is still to be settled, or settled as f. */
  predicate CutSettled(p: Params, f: nat, c: Conn, es: seq<Event>)
    requires p.chunkSize > 0 && MaxOut(p) > 80
  {
    if c.service == None then c.handler ==> f == FirstCut(p, c, es)
    else c.next == p.start ==> f == Later(p)
  }

  lemma SettledKeepsCut(p: Params, f: nat, c: Conn, es: seq<Event>)
    requires Sane(p) && CutOk(p, f) && es != [] && es[0].SendEvent? && CutSettled(p, f, c, es)
    ensures CutKept(p, f, c, es[0].al)
  {
    if !c.handler { ClosedSendsNothing(p, c, es[0].al); }
    hide Send;
  }

  lemma SendInOrder(p: Params, f: nat, c: Conn, al: Allocs, k: nat)
    requires Sane(p) && CutOk(p, f) && Sending(p, f, c, k) && CutKept(p, f, c, al)
    ensures var (c', g) := Send(p, c, al);
            Sending(p, f, c', if g == None then k else k + 1) && (g.Some? ==> IsPiece(p.start, Plan(p, f), k, g.value))
  {
    hide Plan, Send, At, IsPiece, CutKept;
    if !c.handler {
      ClosedSendsNothing(p, c, al);
    } else if c.service == None {
      var m' := SendOpens(p, f, c, al);
      if Send(p, c, al) != (c, None) { AtIsOpen(p, f, Send(p, c, al).0, m'); }
    } else {
      var m: Marks :| At(p.start, Plan(p, f), c, m) && m.acked < |Plan(p, f)| && m.next == m.sent == k;
      var m' := SendMoves(p, f, c, m, al);
      AtIsOpen(p, f, Send(p, c, al).0, m');
    }
  }

  lemma AtIsOpen(p: Params, f: nat, c: Conn, m: Marks)
    requires Sane(p) && CutOk(p, f) && At(p.start, Plan(p, f), c, m)
    ensures c.handler && c.service.Some?
    ensures m.acked <= m.next <= m.sent <= |Plan(p, f)| && c.next == p.start + Off(Plan(p, f), m.next)
    ensures m.sent == |Plan(p, f)| ==> c.final == p.start + Off(Plan(p, f), |Plan(p, f)|)
    ensures c.inflight == Off(Plan(p, f), m.next) - Off(Plan(p, f), m.acked)
  {
  }

  lemma AckInOrder(p: Params, f: nat, c: Conn, inack: nat, cwnd: nat, k: nat)
    requires Sane(p) && CutOk(p, f) && Sending(p, f, c, k) && StepOk(p, f, c, AckEvent(inack, cwnd), false)
    requires c.next <= Ack(c, inack, cwnd).next
    ensures Sending(p, f, Ack(c, inack, cwnd), k)
  {
    hide Plan, At, Off, Prune;
    if c.handler {
      if c.service == None {
        assert Ack(c, inack, cwnd) == c.(cwnd := cwnd);
      } else {
        var m: Marks :| At(p.start, Plan(p, f), c, m) && m.acked < |Plan(p, f)| && m.next == m.sent == k;
        var j :| 0 <= j <= |Plan(p, f)| && inack == p.start + Off(Plan(p, f), j);
        AtIsOpen(p, f, c, m);
        NotBelow(p, f, c, m, j);
        AckMoves(p, f, c, m, j, cwnd);
        AckLeavesSome(p, f, c, m, j, cwnd);
        OffsetsIncrease(Plan(p, f), m.acked, m.next);
        AckClosing(p, f, c, m, j, cwnd);
      }
    }
  }

  lemma AckClosing(p: Params, f: nat, c: Conn, m: Marks, j: nat, cwnd: nat)
    requires Sane(p) && CutOk(p, f) && At(p.start, Plan(p, f), c, m) && m.acked <= j <= |Plan(p, f)| && m.next == m.sent
    ensures var c' := Ack(c, p.start + Off(Plan(p, f), j), cwnd);
            if c'.handler then c'.service.Some? else m.sent == |Plan(p, f)| && c'.final == c'.next
  {
    hide Plan, Entries, ContextAt, HeaderAt, Off, Prune;
    var ps := Plan(p, f);
    AtIsOpen(p, f, c, m);
    OffsetsIncrease(ps, m.acked, m.next);
    if j <= m.next {
      OffsetsIncrease(ps, j, m.next);
      OffsetsIncrease(ps, m.acked, j);
    } else {
      OffsetsIncrease(ps, m.next, j);
    }
  }

  lemma TimeoutInOrder(p: Params, f: nat, c: Conn, k: nat)
    requires Sane(p) && CutOk(p, f) && Sending(p, f, c, k) && c.next <= Timeout(c).next
    ensures Timeout(c) == c
  {
    hide Plan, At, Off;
    if c.handler && c.service.Some? {
      var m: Marks :| At(p.start, Plan(p, f), c, m) && m.acked < |Plan(p, f)| && m.next == m.sent == k;
      AtIsOpen(p, f, c, m);
    }
  }

  lemma StepInOrder(p: Params, f: nat, c: Conn, es: seq<Event>, k: nat)
    requires Sane(p) && CutOk(p, f) && es != [] && Sending(p, f, c, k) && CutSettled(p, f, c, es) && p.start <= c.next
    requires StepOk(p, f, c, es[0], false) && c.next <= Step(p, c, es[0]).0.next
    ensures var (c', g) := Step(p, c, es[0]);
            && Sending(p, f, c', if g == None then k else k + 1) && (g.Some? ==> IsPiece(p.start, Plan(p, f), k, g.value))
            && CutSettled(p, f, c', es[1..])
  {
    hide Plan, At, Send, Ack, Timeout, Sending, IsPiece, StepOk;
    var e := es[0];
    if e.SendEvent? {
      hide CutSettled;
      SettledKeepsCut(p, f, c, es);
      SendInOrder(p, f, c, e.al, k);
    } else if e.AckEvent? {
      hide CutSettled;
      AckInOrder(p, f, c, e.inack, e.cwnd, k);
    } else {
      TimeoutInOrder(p, f, c, k);
    }
    StaysSettled(p, f, c, es);
  }

  lemma StaysSettled(p: Params, f: nat, c: Conn, es: seq<Event>)
    requires Sane(p) && CutOk(p, f) && es != [] && CutSettled(p, f, c, es) && p.start <= c.next <= Step(p, c, es[0]).0.next
    ensures CutSettled(p, f, Step(p, c, es[0]).0, es[1..])
  {
    hide Prune, Select, Resume;
  }

  lemma {:induction false} OrderFrom(p: Params, f: nat, c: Conn, es: seq<Event>, k: nat)
    requires Sane(p) && CutOk(p, f) && Sending(p, f, c, k) && CutSettled(p, f, c, es) && p.start <= c.next
    requires RunOk(p, f, c, es, false) && GoesOn(p, c, es)
    ensures forall i :: 0 <= i < |Sent(p, c, es)| ==> IsPiece(p.start, Plan(p, f), k + i, Sent(p, c, es)[i])
    ensures Sending(p, f, After(p, c, es), k + |Sent(p, c, es)|)
    decreases |es|
  {
    hide Plan, Step, Sending, IsPiece, StepOk, CutSettled;
    if es != [] {
      StepInOrder(p, f, c, es, k);
      var (c', g) := Step(p, c, es[0]);
      OrderFrom(p, f, c', es[1..], if g == None then k else k + 1);
    }
  }

  /** A client that gets consecutive pieces appends them all. */
  lemma {:induction false} ReceivesInOrder(start: nat, ps: seq<Piece>, k: nat, gs: seq<Segment>)
    requires k + |gs| <= |ps| && forall i :: 0 <= i < |gs| ==> IsPiece(start, ps, k + i, gs[i])
    requires Off(ps, k + |gs|) <= |Wire(ps)| && Off(ps, k) <= |Wire(ps)|
    ensures ReceiveAll(start, Wire(ps)[..Off(ps, k)], gs) == Wire(ps)[..Off(ps, k + |gs|)]
    decreases |gs|
  {
    hide Wire, Off, Payload;
    if gs != [] {
      WireSlice(ps, k);
      OffStep(ps, k);
      WireLength(ps);
      OffsetsIncrease(ps, k + 1, |ps|);
      PayloadLength(ps[k].header, ps[k].content);
      assert IsPiece(start, ps, k + 0, gs[0]);
      assert Wire(ps)[..Off(ps, k)] + Bytes(ps[k]) == Wire(ps)[..Off(ps, k + 1)];
      forall i | 0 <= i < |gs[1..]| ensures IsPiece(start, ps, k + 1 + i, gs[1..][i]) { assert IsPiece(start, ps, k + (i + 1), gs[i + 1]); }
      ReceivesInOrder(start, ps, k + 1, gs[1..]);
    }
  }

  /** The segments are the first pieces of the response, in order. */
  ghost predicate InPlace(p: Params, f: nat, sent: seq<Segment>)
    requires Sane(p) && CutOk(p, f)
  {
    |sent| <= |Plan(p, f)| && forall i :: 0 <= i < |sent| ==> IsPiece(p.start, Plan(p, f), i, sent[i])
  }

  lemma ClientHolds(start: nat, ps: seq<Piece>, sent: seq<Segment>)
    requires |sent| <= |ps| && forall i :: 0 <= i < |sent| ==> IsPiece(start, ps, i, sent[i])
    ensures ReceiveAll(start, "", sent) <= Wire(ps)
    ensures |sent| == |ps| ==> ReceiveAll(start, "", sent) == Wire(ps)
  {
    hide Wire, Off, ReceiveAll, IsPiece;
    WireLength(ps);
    NothingBeforeFirst(ps, 0);
    OffsetsIncrease(ps, |sent|, |ps|);
    forall i | 0 <= i < |sent| ensures IsPiece(start, ps, 0 + i, sent[i]) { assert IsPiece(start, ps, i, sent[i]); }
    ReceivesInOrder(start, ps, 0, sent);
    assert Wire(ps)[..0] == "";
  }

  lemma ClientDecodes(p: Params, f: nat, sent: seq<Segment>)
    requires Sane(p) && CutOk(p, f) && InPlace(p, f, sent)
    ensures ReceiveAll(p.start, "", sent) <= Wire(Plan(p, f))
    ensures |sent| == |Plan(p, f)| ==> Decode(ReceiveAll(p.start, "", sent)) == Some(p.body)
  {
    hide Pieces, Wire, Off, Decode, ReceiveAll, IsPiece;
    ClientHolds(p.start, Plan(p, f), sent);
    ResponseDecodes(p.body, f, Later(p));
  }

  lemma OrderedRun(p: Params, f: nat, c: Conn, es: seq<Event>)
    requires Sane(p) && Acceptable(p, c, es, false) && GoesOn(p, c, es) && f == FirstCut(p, c, es)
    ensures InPlace(p, f, Sent(p, c, es)) && Sending(p, f, After(p, c, es), |Sent(p, c, es)|)
  {
    hide Plan, IsPiece, FirstCut, RunOk, GoesOn, After, Sent;
    OrderFrom(p, f, c, es, 0);
    var sent := Sent(p, c, es);
    forall i | 0 <= i < |sent| ensures IsPiece(p.start, Plan(p, f), i, sent[i]) { assert IsPiece(p.start, Plan(p, f), 0 + i, sent[i]); }
    hide Sending;
    SentAtMost(p, f, After(p, c, es), |sent|);
  }

  /** Whatever the limits and whichever allocations fail: as long as nothing is sent again, segment i is piece i of the
      response, the first piece cut at its own limit or, if its first attempt failed once the service existed, at
      the common one. The response is declared finished once they are all sent, and a client that has them
      decodes what the handler wrote. */
  lemma InOrderDelivers(p: Params, c: Conn, es: seq<Event>)
    requires Sane(p) && Acceptable(p, c, es, false) && GoesOn(p, c, es)
    ensures var (ps, sent) := (Plan(p, FirstCut(p, c, es)), Sent(p, c, es));
            && InPlace(p, FirstCut(p, c, es), sent)
            && ReceiveAll(p.start, "", sent) <= Wire(ps)
            && (After(p, c, es).final == After(p, c, es).next <==> |sent| == |ps|)
            && (|sent| == |ps| ==> Decode(ReceiveAll(p.start, "", sent)) == Some(p.body))
  {
    hide Plan, Wire, FirstCut, Acceptable, GoesOn, ReceiveAll, Decode, After, Sent, InPlace, Sending;
    var f := FirstCut(p, c, es);
    OrderedRun(p, f, c, es);
    SentAtMost(p, f, After(p, c, es), |Sent(p, c, es)|);
    ClientDecodes(p, f, Sent(p, c, es));
  }

  lemma SentAtMost(p: Params, f: nat, c: Conn, k: nat)
    requires Sane(p) && CutOk(p, f) && Sending(p, f, c, k)
    ensures k <= |Plan(p, f)|
    ensures c.final == c.next <==> k == |Plan(p, f)|
  {
    hide Plan, At, Off;
    if c.handler && c.service.Some? {
      var m: Marks :| At(p.start, Plan(p, f), c, m) && m.acked < |Plan(p, f)| && m.next == m.sent == k;
      AtIsOpen(p, f, c, m);
      if k < |Plan(p, f)| { NotAtEnd(p, f, c, m); }
    }
  }

  lemma NotAtEnd(p: Params, f: nat, c: Conn, m: Marks)
    requires Sane(p) && CutOk(p, f) && At(p.start, Plan(p, f), c, m) && m.sent < |Plan(p, f)|
    ensures c.final < c.next
  {
  }
}
