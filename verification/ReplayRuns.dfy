/** Whole runs of the generated-response protocol: every segment ever sent is a slice of one byte stream. */
module ReplayRuns {
  import opened Handlers
  import opened Options
  import opened Http
  import opened HttpClient
  import opened Response
  import opened Replay

  /** One step of a run. */
  datatype Event = SendEvent(al: Allocs) | AckEvent(inack: nat, cwnd: nat) | TimeoutEvent

  function Step(p: Params, c: Conn, e: Event): (Conn, Option<Segment>)
    requires p.chunkSize > 0 && MaxOut(p) > 80
  {
    match e
    case SendEvent(al) => Send(p, c, al)
    case AckEvent(inack, cwnd) => (Ack(c, inack, cwnd), None)
    case TimeoutEvent => (Timeout(c), None)
  }

  /** The client acknowledges whole segments. */
  ghost predicate IsBoundary(p: Params, f: nat, inack: nat)
    requires Sane(p) && CutOk(p, f)
  {
    exists k :: 0 <= k <= |Plan(p, f)| && inack == p.start + Off(Plan(p, f), k)
  }

  /** Acknowledgements arrive at segment boundaries; unless `anyOrder`, not below one already accepted. */
  ghost predicate StepOk(p: Params, f: nat, c: Conn, e: Event, anyOrder: bool)
    requires Sane(p) && CutOk(p, f)
  {
    e.AckEvent? ==> IsBoundary(p, f, e.inack) && e.cwnd < 65536 && (anyOrder || c.next <= c.inflight + e.inack)
  }

  /** The segments a run sends, in order. */
  function Sent(p: Params, c: Conn, es: seq<Event>): seq<Segment>
    requires p.chunkSize > 0 && MaxOut(p) > 80
    decreases |es|
  {
    if es == [] then [] else
      var (c', g) := Step(p, c, es[0]);
      (if g == None then [] else [g.value]) + Sent(p, c', es[1..])
  }

  /** Where it leaves the connection. */
  function After(p: Params, c: Conn, es: seq<Event>): Conn
    requires p.chunkSize > 0 && MaxOut(p) > 80
    decreases |es|
  {
    if es == [] then c else After(p, Step(p, c, es[0]).0, es[1..])
  }

  ghost predicate RunOk(p: Params, f: nat, c: Conn, es: seq<Event>, anyOrder: bool)
    requires Sane(p) && CutOk(p, f)
    decreases |es|
  {
    es != [] ==> StepOk(p, f, c, es[0], anyOrder) && RunOk(p, f, Step(p, c, es[0]).0, es[1..], anyOrder)
  }

  // ----- the invariant of a run -----

  /** Not opened yet, somewhere in the plan with something left to acknowledge, or finished. */
  ghost predicate Inv(p: Params, f: nat, c: Conn)
    requires Sane(p) && CutOk(p, f)
  {
    !c.handler || Fresh(p, c) || exists m: Marks :: At(p.start, Plan(p, f), c, m) && m.acked < |Plan(p, f)|
  }

  lemma OpenedIsAt(p: Params, f: nat, c: Conn)
    requires Sane(p) && CutOk(p, f) && Fresh(p, c)
    ensures At(p.start, Plan(p, f), Opened(c), Marks(0, 0, 0, 0))
  {
    hide Pieces;
  }

  /** The limit the next generated segment is cut at. */
  function LimitNow(p: Params, c: Conn): nat
    requires p.chunkSize > 0 && MaxOut(p) > 80
  {
    if c.service == None then First(p) else Later(p)
  }

  /** If this send emits the first segment, it cuts it where the plan does. */
  ghost predicate CutKept(p: Params, f: nat, c: Conn, al: Allocs)
    requires p.chunkSize > 0 && MaxOut(p) > 80
  {
    c.next == p.start && Send(p, c, al).1.Some? ==> CutsAs(p, f, 0, LimitNow(p, c))
  }

  /** Under equal limits, or for a body that fits the first segment, it always does. */
  lemma UniformKeepsCut(p: Params, f: nat, c: Conn, al: Allocs)
    requires Sane(p) && CutOk(p, f) && Uniform(p)
    ensures CutKept(p, f, c, al)
  {
    hide Send;
  }

  lemma UniformPlan(p: Params, f: nat)
    requires Sane(p) && CutOk(p, f) && Uniform(p)
    ensures Plan(p, f) == Plan(p, Later(p))
  {
    if |p.body| <= First(p) {
      OnePiece(p.body, f, Later(p));
      OnePiece(p.body, Later(p), Later(p));
    }
  }

  /** A generation that fails does so under any limit. */
  lemma FailureIgnoresLimit(p: Params, c: Conn, s: Service, max: nat, other: nat, al: Allocs)
    requires Generate(p, c, s, max, al).1 == None
    ensures Generate(p, c, s, other, al) == Generate(p, c, s, max, al)
  {
    hide Select, Resume;
  }

  lemma GenerateMoves(p: Params, f: nat, c: Conn, m: Marks, max: nat, al: Allocs) returns (m': Marks)
    requires Sane(p) && CutOk(p, f) && At(p.start, Plan(p, f), c, m) && Able(p, c)
    requires m.next > 0 ==> max == Later(p)
    requires m.next == 0 && Generate(p, c, c.service.value, max, al).1.Some? ==> CutsAs(p, f, 0, max)
    ensures var (c', g) := Generate(p, c, c.service.value, max, al);
            At(p.start, Plan(p, f), c', m') && Advances(p, f, m, m', g)
  {
    AtHasService(p, f, c, m);
    hide Plan, Generate, At, Advances;
    if Generate(p, c, c.service.value, max, al).1 == None {
      var other := if m.next == 0 then f else Later(p);
      FailureIgnoresLimit(p, c, c.service.value, max, other, al);
      m' := GenerateStep(p, f, c, m, other, al);
    } else {
      m' := GenerateStep(p, f, c, m, max, al);
    }
  }

  lemma NextIsStart(p: Params, f: nat, c: Conn, m: Marks)
    requires Sane(p) && CutOk(p, f) && At(p.start, Plan(p, f), c, m)
    ensures m.next == 0 <==> c.next == p.start
  {
    hide Plan, Entries, ContextAt, HeaderAt;
    if m.next > 0 { OffsetsIncrease(Plan(p, f), 0, m.next); }
  }

  /** A send from a connection with a service. */
  lemma SendMoves(p: Params, f: nat, c: Conn, m: Marks, al: Allocs) returns (m': Marks)
    requires Sane(p) && CutOk(p, f) && At(p.start, Plan(p, f), c, m) && CutKept(p, f, c, al)
    ensures var (c', g) := Send(p, c, al); At(p.start, Plan(p, f), c', m') && Advances(p, f, m, m', g)
  {
    hide Plan, Generate, At, IsPiece, CutsAs;
    m' := m;
    AtHasService(p, f, c, m);
    if Able(p, c) && al.prepare {
      NextIsStart(p, f, c, m);
      m' := GenerateMoves(p, f, c, m, Later(p), al);
    }
  }

  /** The send that creates the service, or fails to. */
  lemma SendOpens(p: Params, f: nat, c: Conn, al: Allocs) returns (m': Marks)
    requires Sane(p) && CutOk(p, f) && Fresh(p, c) && CutKept(p, f, c, al)
    ensures var (c', g) := Send(p, c, al);
            (c' == c && g == None) || (At(p.start, Plan(p, f), c', m') && Advances(p, f, Marks(0, 0, 0, 0), m', g))
  {
    hide Plan, Generate, At, IsPiece, Opened, CutsAs;
    m' := Marks(0, 0, 0, 0);
    if Able(p, c) && al.service {
      OpenedIsAt(p, f, c);
      if al.prepare {
        OpenedIsAble(p, c);
        m' := GenerateMoves(p, f, Opened(c), Marks(0, 0, 0, 0), First(p), al);
      }
    }
  }

  lemma SendKeeps(p: Params, f: nat, c: Conn, al: Allocs)
    requires Sane(p) && CutOk(p, f) && Inv(p, f, c) && CutKept(p, f, c, al)
    ensures var (c', g) := Send(p, c, al);
            Inv(p, f, c') && (g.Some? ==> exists k :: 0 <= k < |Plan(p, f)| && IsPiece(p.start, Plan(p, f), k, g.value))
  {
    hide Plan, Send, At, IsPiece, CutKept;
    if !c.handler {
      ClosedSendsNothing(p, c, al);
    } else if Fresh(p, c) {
      var m' := SendOpens(p, f, c, al);
    } else {
      var m: Marks :| At(p.start, Plan(p, f), c, m) && m.acked < |Plan(p, f)|;
      var m' := SendMoves(p, f, c, m, al);
    }
  }

  lemma ClosedSendsNothing(p: Params, c: Conn, al: Allocs)
    requires p.chunkSize > 0 && MaxOut(p) > 80 && !c.handler
    ensures Send(p, c, al) == (c, None)
  {
  }

  lemma OpenedIsAble(p: Params, c: Conn)
    requires Sane(p) && Fresh(p, c) && Able(p, c)
    ensures Able(p, Opened(c)) && Opened(c).service.Some?
  {
  }

  lemma AtHasService(p: Params, f: nat, c: Conn, m: Marks)
    requires Sane(p) && CutOk(p, f) && At(p.start, Plan(p, f), c, m)
    ensures c.service.Some?
  {
  }

  /** The server is done exactly when the whole response is acknowledged. */
  lemma ClosesWhenAllAcknowledged(p: Params, f: nat, c: Conn, m: Marks, k: nat, cwnd: nat)
    requires Sane(p) && CutOk(p, f) && At(p.start, Plan(p, f), c, m) && m.acked <= k <= |Plan(p, f)| && k <= m.next
    ensures var inack := p.start + Off(Plan(p, f), k);
            !Ack(c, inack, cwnd).handler <==> inack == p.start + |Wire(Plan(p, f))|
  {
    hide Pieces, Entries, ContextAt, HeaderAt, Wire, Off, Prune;
    var ps := Plan(p, f);
    WireLength(ps);
    OffsetsIncrease(ps, k, m.next);
    OffsetsIncrease(ps, m.next, |ps|);
    OffsetsIncrease(ps, k, |ps|);
    OffsetsIncrease(ps, m.acked, k);
  }

  /** An accepted acknowledgement moves the oldest piece kept, and nothing else the plan depends on. */
  lemma AckKeeps(p: Params, f: nat, c: Conn, inack: nat, cwnd: nat)
    requires Sane(p) && CutOk(p, f) && Inv(p, f, c) && StepOk(p, f, c, AckEvent(inack, cwnd), false)
    ensures Inv(p, f, Ack(c, inack, cwnd))
  {
    hide Plan, At, Off, Prune;
    if c.handler {
      if Fresh(p, c) {
        assert Ack(c, inack, cwnd) == c.(cwnd := cwnd);
      } else {
        var m: Marks :| At(p.start, Plan(p, f), c, m) && m.acked < |Plan(p, f)|;
        var k :| 0 <= k <= |Plan(p, f)| && inack == p.start + Off(Plan(p, f), k);
        NotBelow(p, f, c, m, k);
        AckMoves(p, f, c, m, k, cwnd);
        AckLeavesSome(p, f, c, m, k, cwnd);
      }
    }
  }

  /** An acknowledgement of the last piece closes the response. */
  lemma AckLeavesSome(p: Params, f: nat, c: Conn, m: Marks, k: nat, cwnd: nat)
    requires Sane(p) && CutOk(p, f) && At(p.start, Plan(p, f), c, m) && m.acked <= k <= |Plan(p, f)|
    ensures Ack(c, p.start + Off(Plan(p, f), k), cwnd).handler && k <= m.next ==> k < |Plan(p, f)|
  {
    hide Plan, At, Off, Wire, Ack;
    WireLength(Plan(p, f));
    if k <= m.next { ClosesWhenAllAcknowledged(p, f, c, m, k, cwnd); }
  }

  lemma NotBelow(p: Params, f: nat, c: Conn, m: Marks, k: nat)
    requires Sane(p) && CutOk(p, f) && At(p.start, Plan(p, f), c, m) && k <= |Plan(p, f)|
    ensures c.next <= c.inflight + (p.start + Off(Plan(p, f), k)) <==> m.acked <= k
  {
    hide Plan, Entries, ContextAt, HeaderAt;
    if k < m.acked { OffsetsIncrease(Plan(p, f), k, m.acked); } else { OffsetsIncrease(Plan(p, f), m.acked, k); }
  }

  /** What an acknowledgement of piece k does to the connection, field by field. */
  lemma AckFields(p: Params, f: nat, c: Conn, m: Marks, k: nat, cwnd: nat)
    requires Sane(p) && CutOk(p, f) && At(p.start, Plan(p, f), c, m) && k <= |Plan(p, f)| && m.acked <= k
    ensures var c' := Ack(c, p.start + Off(Plan(p, f), k), cwnd);
            c'.handler ==>
              if k == m.acked then c' == c.(next := p.start + Off(Plan(p, f), k), inflight := 0, cwnd := cwnd, service := c'.service)
              else if k <= m.next then
                c' == c.(inflight := c'.inflight, cwnd := cwnd, service := c'.service) && c'.inflight + Off(Plan(p, f), k) == Off(Plan(p, f), m.next)
              else c' == c.(cwnd := cwnd, service := c'.service)
    ensures var c' := Ack(c, p.start + Off(Plan(p, f), k), cwnd);
            c'.handler ==> c'.service == Some(c.service.value.(inFlight :=
              if k <= m.next then Prune(c.service.value.inFlight, p.start + Off(Plan(p, f), k)) else c.service.value.inFlight))
  {
    hide Pieces, Entries, ContextAt, HeaderAt, Prune, ServiceAt, Off;
    var ps := Plan(p, f);
    assert m.acked <= m.next <= |ps| by { assert ServiceAt(p.start, ps, c.service.value, m); MarksInOrder(p.start, ps, c.service.value, m); }
    OffsetsIncrease(ps, m.acked, k);
    OffsetsIncrease(ps, m.acked, m.next);
    if k <= m.next { OffsetsIncrease(ps, k, m.next); } else { OffsetsIncrease(ps, m.next, k); }
  }

  lemma MarksInOrder(start: nat, ps: seq<Piece>, s: Service, m: Marks)
    requires ps != [] && ServiceAt(start, ps, s, m)
    ensures m.acked <= m.next <= m.ctx <= m.sent <= |ps|
  {
  }

  lemma AckMoves(p: Params, f: nat, c: Conn, m: Marks, k: nat, cwnd: nat)
    requires Sane(p) && CutOk(p, f) && At(p.start, Plan(p, f), c, m) && k <= |Plan(p, f)| && m.acked <= k && cwnd < 65536
    ensures var c' := Ack(c, p.start + Off(Plan(p, f), k), cwnd);
            c'.handler ==> At(p.start, Plan(p, f), c', if k == m.acked then m.(next := k) else if k <= m.next then m.(acked := k) else m)
  {
    hide Pieces, Entries, ContextAt, HeaderAt, Prune, Off;
    var ps := Plan(p, f);
    MarksInOrder(p.start, ps, c.service.value, m);
    AckFields(p, f, c, m, k, cwnd);
    hide Ack;
    PruneEntries(p.start, ps, m.acked, Min(m.sent, DataCount(ps)), k);
    if k <= m.next { OffsetsIncrease(ps, k, m.next); }
    OffsetsIncrease(ps, m.acked, k);
  }

  lemma TimeoutKeeps(p: Params, f: nat, c: Conn)
    requires Sane(p) && CutOk(p, f) && Inv(p, f, c)
    ensures Inv(p, f, Timeout(c))
  {
    if c.handler && !Fresh(p, c) {
      var m: Marks :| At(p.start, Plan(p, f), c, m) && m.acked < |Plan(p, f)|;
      hide Pieces, Entries, ContextAt, HeaderAt;
      OffsetsIncrease(Plan(p, f), m.acked, m.next);
      assert At(p.start, Plan(p, f), Timeout(c), m.(next := m.acked));
    }
  }

  // ----- the in-flight list -----

  /** Whatever the set-up, the acknowledgements and the allocations, every step keeps the in-flight list strictly
      decreasing in sequence number, so that `clean_service` cuts exactly the acknowledged entries. */
  lemma StepKeepsList(p: Params, c: Conn, e: Event)
    requires p.chunkSize > 0 && MaxOut(p) > 80 && ListsOk(c)
    ensures ListsOk(Step(p, c, e).0)
  {
    hide Send, Ack;
    match e
    case SendEvent(al) => SendKeepsList(p, c, al);
    case AckEvent(inack, cwnd) => AckKeepsList(c, inack, cwnd);
    case TimeoutEvent =>
  }

  // ----- replay is transparent -----

  /** The segment carries exactly the bytes of the stream at its sequence number. */
  ghost predicate Carries(stream: string, start: nat, g: Segment) {
    var bytes := Payload(g.header, g.content);
    start <= g.seqno && g.seqno - start + |bytes| <= |stream| && stream[g.seqno - start..g.seqno - start + |bytes|] == bytes
  }

  lemma PieceCarries(p: Params, f: nat, k: nat, g: Segment)
    requires Sane(p) && CutOk(p, f) && IsPiece(p.start, Plan(p, f), k, g)
    ensures Carries(Wire(Plan(p, f)), p.start, g)
  {
    hide Plan, Wire, Payload;
    WireSlice(Plan(p, f), k);
    PayloadLength(g.header, g.content);
  }

  /** Every send of the run that emits the first segment cuts it where the plan does. */
  ghost predicate RunKeepsCut(p: Params, f: nat, c: Conn, es: seq<Event>)
    requires p.chunkSize > 0 && MaxOut(p) > 80
    decreases |es|
  {
    es != [] ==> (es[0].SendEvent? ==> CutKept(p, f, c, es[0].al)) && RunKeepsCut(p, f, Step(p, c, es[0]).0, es[1..])
  }

  lemma {:induction false} UniformRunKeepsCut(p: Params, f: nat, c: Conn, es: seq<Event>)
    requires Sane(p) && CutOk(p, f) && Uniform(p)
    ensures RunKeepsCut(p, f, c, es)
    decreases |es|
  {
    hide Step, CutKept, Uniform;
    if es != [] {
      if es[0].SendEvent? { UniformKeepsCut(p, f, c, es[0].al); }
      UniformRunKeepsCut(p, f, Step(p, c, es[0]).0, es[1..]);
    }
  }

  lemma StepKeeps(p: Params, f: nat, c: Conn, e: Event)
    requires Sane(p) && CutOk(p, f) && Inv(p, f, c) && StepOk(p, f, c, e, false) && (e.SendEvent? ==> CutKept(p, f, c, e.al))
    ensures var (c', g) := Step(p, c, e); Inv(p, f, c') && (g.Some? ==> Carries(Wire(Plan(p, f)), p.start, g.value))
  {
    hide Inv, Send, Ack, Timeout, Carries, Plan, CutKept;
    match e
    case SendEvent(al) =>
      SendKeeps(p, f, c, al);
      var g := Send(p, c, al).1;
      if g.Some? {
        var k :| 0 <= k < |Plan(p, f)| && IsPiece(p.start, Plan(p, f), k, g.value);
        PieceCarries(p, f, k, g.value);
      }
    case AckEvent(inack, cwnd) => AckKeeps(p, f, c, inack, cwnd);
    case TimeoutEvent => TimeoutKeeps(p, f, c);
  }

  /** In every run of sends, acknowledgements, duplicate acknowledgements, timeouts and failed allocations that cuts
      its first segment one way, every segment carries the bytes of one stream. */
  lemma {:induction false} RunCarries(p: Params, f: nat, c: Conn, es: seq<Event>)
    requires Sane(p) && CutOk(p, f) && Inv(p, f, c) && RunOk(p, f, c, es, false) && RunKeepsCut(p, f, c, es)
    ensures forall i :: 0 <= i < |Sent(p, c, es)| ==> Carries(Wire(Plan(p, f)), p.start, Sent(p, c, es)[i])
    decreases |es|
  {
    hide Inv, Step, StepOk, Carries, Plan, CutKept, Wire;
    if es != [] {
      StepKeeps(p, f, c, es[0]);
      RunCarries(p, f, Step(p, c, es[0]).0, es[1..]);
    }
  }

  // ----- how the first segment was cut -----

  /** The limit under which a run that starts fresh emits its first segment. */
  function FirstCut(p: Params, c: Conn, es: seq<Event>): (f: nat)
    requires p.chunkSize > 0 && MaxOut(p) > 80
    ensures CutOk(p, f)
    decreases |es|
  {
    if es == [] || c.service.Some? then Later(p)
    else if Step(p, c, es[0]).1.Some? then First(p)
    else FirstCut(p, Step(p, c, es[0]).0, es[1..])
  }

  /** A run whose first step sends uses the first segment's own limit. */
  lemma {:induction false} CutOfRun(p: Params, c: Conn, es: seq<Event>)
    requires p.chunkSize > 0 && MaxOut(p) > 80 && c.service == None && es != [] && Step(p, c, es[0]).1.Some?
    ensures FirstCut(p, c, es) == First(p)
  {
    hide Step;
  }

  /** The client acknowledges the segments as they were cut when they were first sent. */
  ghost predicate Acceptable(p: Params, c: Conn, es: seq<Event>, anyOrder: bool)
    requires Sane(p)
  {
    Fresh(p, c) && RunOk(p, FirstCut(p, c, es), c, es, anyOrder)
  }

  ghost predicate RunIsFaithful(p: Params, stream: string, anyOrder: bool, c: Conn, es: seq<Event>)
    requires Sane(p)
  {
    Acceptable(p, c, es, anyOrder) ==>
      forall i :: 0 <= i < |Sent(p, c, es)| ==> Carries(stream, p.start, Sent(p, c, es)[i])
  }

  ghost predicate Faithful(p: Params, stream: string, anyOrder: bool)
    requires Sane(p)
  {
    forall c, es :: RunIsFaithful(p, stream, anyOrder, c, es)
  }

  /** One stream explains every segment of every run. */
  ghost predicate Transparent(p: Params, anyOrder: bool)
    requires Sane(p)
  {
    exists stream :: Faithful(p, stream, anyOrder)
  }

  function AllSucceed(): Allocs { Allocs(true, true, true, true, true, true) }

  function Start(p: Params): Conn
    requires p.start > 0
  {
    Conn(p.start, p.start - 1, 0, 65535, true, None)
  }

  /** What the first segment becomes when it is generated with room for `max` bytes. */
  function Opening(p: Params, max: nat): Segment {
    Segment(p.start, if |p.body| <= max then HeaderStandard else HeaderChunks, p.body[..Min(max, |p.body|)])
  }

  /** Sending, losing and sending again the first segment cuts it at two different sizes. */
  lemma FirstSegmentTwice(p: Params)
    requires Sane(p)
    ensures Sent(p, Start(p), [SendEvent(AllSucceed()), TimeoutEvent, SendEvent(AllSucceed())])
              == [Opening(p, First(p)), Opening(p, Later(p))]
  {
    var c0, al := Start(p), AllSucceed();
    var o := Opened(c0);
    var (text, ctx) := Resume(p.body, Context(0, Ready), First(p));
    var size := |text| + HeadersSize(Opening(p, First(p)).header);
    assert size < 65536;
    var e := Entry(p.start, HeaderStandard, Context(0, Ready));
    var next := p.start + size;
    var final := if |p.body| <= First(p) then next else p.start - 1;
    var c1 := Conn(next, final, size, 65535, true, Some(Service(next, ctx, [e], Opening(p, First(p)).header)));
    assert text == Opening(p, First(p)).content && [e] + [] == [e];
    assert Generate(p, o, o.service.value, First(p), al) == (c1, Some(Opening(p, First(p))));
    assert Step(p, c0, SendEvent(al)) == (c1, Some(Opening(p, First(p))));
    var c2 := c1.(next := p.start, inflight := 0);
    assert Step(p, c1, TimeoutEvent) == (c2, None);
    assert Select([e], p.start) == Some(e);
    var g := Step(p, c2, SendEvent(al)).1;
    assert g == Some(Opening(p, Later(p)));
    var es := [SendEvent(al), TimeoutEvent, SendEvent(al)];
    assert es[1..] == [TimeoutEvent, SendEvent(al)] && es[1..][1..] == [SendEvent(al)] && es[1..][1..][1..] == [];
    hide Step;
    assert Sent(p, c2, [SendEvent(al)]) == [Opening(p, Later(p))];
    assert Sent(p, c1, es[1..]) == [Opening(p, Later(p))];
  }

  /** No stream carries the first segment cut at two different sizes. */
  lemma OpeningsConflict(p: Params, stream: string)
    requires Sane(p) && !Uniform(p)
    ensures !(Carries(stream, p.start, Opening(p, First(p))) && Carries(stream, p.start, Opening(p, Later(p))))
  {
    hide Payload;
    var a, b := Opening(p, First(p)), Opening(p, Later(p));
    var i := PayloadsDiffer(a.content, b.header, b.content);
    StreamByte(stream, p.start, a, i);
    StreamByte(stream, p.start, b, i);
    hide Carries;
  }

  /** Byte i of a segment that the stream carries. */
  lemma StreamByte(stream: string, start: nat, g: Segment, i: nat)
    requires start <= g.seqno && i < |Payload(g.header, g.content)|
    ensures Carries(stream, start, g) ==> g.seqno - start + i < |stream| && stream[g.seqno - start + i] == Payload(g.header, g.content)[i]
  {
    hide Payload;
    SliceByte(stream, g.seqno - start, Payload(g.header, g.content), i);
  }

  lemma SliceByte(stream: string, o: nat, x: string, i: nat)
    requires i < |x|
    ensures o + |x| <= |stream| && stream[o..o + |x|] == x ==> stream[o + i] == x[i]
  {
    if o + |x| <= |stream| { assert stream[o..o + |x|][i] == stream[o + i]; }
  }

  lemma {:induction false} DifferAt(d: string, e: string) returns (j: nat)
    requires |d| == |e| && d != e
    ensures j < |d| && d[j] != e[j]
    decreases |d|
  {
    if d[0] != e[0] {
      j := 0;
    } else {
      assert d == [d[0]] + d[1..] && e == [e[0]] + e[1..];
      j := DifferAt(d[1..], e[1..]);
      j := j + 1;
    }
  }

  /** Two payloads of different kind, or with first chunks of different size, differ in a byte they both have. */
  lemma PayloadsDiffer(a: string, h: ServiceHeader, b: string) returns (i: nat)
    requires |a| < |b| < 65536 && h != HeaderNone
    ensures var x, y := Payload(HeaderChunks, a), Payload(h, b); i < |x| && i < |y| && x[i] != y[i]
  {
    if h == HeaderStandard {
      HeadBytes(a, b);
      i := 25;
    } else {
      ChunkHead(a);
      ChunkHead(b);
      ChunkSizeReads(|a|, "");
      ChunkSizeReads(|b|, "");
      hide Payload, Digits, CHUNKED;
      var d, e := Digits(|a|, 16, 4), Digits(|b|, 16, 4);
      assert Value(d, 16) != Value(e, 16);
      hide Value;
      var j := DifferAt(d, e);
      i := 72 + j;
    }
  }

  lemma HeadBytes(a: string, b: string)
    ensures var x, y := Payload(HeaderChunks, a), Payload(HeaderStandard, b);
            |x| > 25 && |y| > 25 && x[25] == 'T' && y[25] == 'L'
  {
    hide Chunk, Digits;
    assert "Content-Length:"[8] == 'L' && "Content-Type: text/plain\r\n"[8] == 'T';
    assert STANDARD[25] == 'L' && CHUNKED[25] == 'T';
  }

  lemma ChunkHead(a: string)
    requires |a| < 65536
    ensures var x, d := Payload(HeaderChunks, a), Digits(|a|, 16, 4);
            |x| >= 76 && |d| == 4 && forall j {:trigger d[j]} :: 0 <= j < 4 ==> x[72 + j] == d[j]
  {
    HeaderLengths();
    hide Digits;
    var d := Digits(|a|, 16, 4);
    assert Payload(HeaderChunks, a) == CHUNKED + (d + (CRLF + a + CRLF));
  }

  /** While acknowledgements do not go back, replay is transparent exactly if the first segment is always cut at the
      same size: either the output buffer leaves room for the largest header in every segment, or the whole body
      fits the first one. */
  lemma TransparentIffUniform(p: Params)
    requires Sane(p)
    ensures Transparent(p, false) <==> Uniform(p)
    ensures var room := p.mss - p.mss % p.chunkSize - 80; Transparent(p, false) <==> p.bufferSize <= room || |p.body| <= room
  {
    if Uniform(p) {
      var stream := Wire(Plan(p, Later(p)));
      forall c, es ensures RunIsFaithful(p, stream, false, c, es) {
        hide Plan, Wire, Carries, Uniform;
        if Acceptable(p, c, es, false) {
          var f := FirstCut(p, c, es);
          UniformPlan(p, f);
          UniformRunKeepsCut(p, f, c, es);
          RunCarries(p, f, c, es);
        }
      }
      assert Faithful(p, stream, false);
    } else if Transparent(p, false) {
      var stream :| Faithful(p, stream, false);
      TwoOpenings(p, stream, false);
    }
  }

  /** Two different limits defeat every stream, whatever is allowed of acknowledgements. */
  lemma TwoOpenings(p: Params, stream: string, anyOrder: bool)
    requires Sane(p) && !Uniform(p)
    ensures !Faithful(p, stream, anyOrder)
  {
    if Faithful(p, stream, anyOrder) {
      var es := [SendEvent(AllSucceed()), TimeoutEvent, SendEvent(AllSucceed())];
      assert RunIsFaithful(p, stream, anyOrder, Start(p), es);
      FirstSegmentTwice(p);
      RunWithoutAcks(p, FirstCut(p, Start(p), es), Start(p), es, anyOrder);
      var g := Sent(p, Start(p), es);
      assert Carries(stream, p.start, g[0]) && Carries(stream, p.start, g[1]);
      OpeningsConflict(p, stream);
    }
  }

  lemma {:induction false} RunWithoutAcks(p: Params, f: nat, c: Conn, es: seq<Event>, anyOrder: bool)
    requires Sane(p) && CutOk(p, f) && forall i :: 0 <= i < |es| ==> !es[i].AckEvent?
    ensures RunOk(p, f, c, es, anyOrder)
    decreases |es|
  {
    hide Step;
    if es != [] { RunWithoutAcks(p, f, Step(p, c, es[0]).0, es[1..], anyOrder); }
  }

  // ----- the client -----

  /** A client that takes the segment it is waiting for and drops all others. */
  function Receive(start: nat, got: string, g: Segment): string {
    if g.seqno == start + |got| then got + Payload(g.header, g.content) else got
  }

  function ReceiveAll(start: nat, got: string, gs: seq<Segment>): string
    decreases |gs|
  {
    if gs == [] then got else ReceiveAll(start, Receive(start, got, gs[0]), gs[1..])
  }

  /** Whatever the network loses, repeats or reorders, the client holds a prefix of the stream. */
  lemma {:induction false} ClientHoldsPrefix(start: nat, stream: string, got: string, gs: seq<Segment>)
    requires got <= stream && forall i :: 0 <= i < |gs| ==> Carries(stream, start, gs[i])
    ensures ReceiveAll(start, got, gs) <= stream
    decreases |gs|
  {
    if gs != [] { ClientHoldsPrefix(start, stream, Receive(start, got, gs[0]), gs[1..]); }
  }

  /** End to end: from any segments of a run that cuts its first segment one way, in any order and number, the client
      assembles a prefix of the response; once it has the length of the response, decoding it gives exactly what the
      handler wrote. */
  lemma ClientGetsBody(p: Params, f: nat, c: Conn, es: seq<Event>, delivered: seq<Segment>)
    requires Sane(p) && CutOk(p, f) && Fresh(p, c) && RunOk(p, f, c, es, false) && RunKeepsCut(p, f, c, es)
    requires forall i :: 0 <= i < |delivered| ==> delivered[i] in Sent(p, c, es)
    ensures var got := ReceiveAll(p.start, "", delivered);
            && got <= Wire(Plan(p, f))
            && (|got| == |Wire(Plan(p, f))| ==> Decode(got) == Some(p.body))
  {
    hide Carries, Wire, Decode, Sent, ReceiveAll, RunOk, RunKeepsCut;
    RunCarries(p, f, c, es);
    ClientHoldsPrefix(p.start, Wire(Plan(p, f)), "", delivered);
    ResponseDecodes(p.body, f, Later(p));
    var got := ReceiveAll(p.start, "", delivered);
    assert |got| == |Wire(Plan(p, f))| ==> got == Wire(Plan(p, f));
  }
}
