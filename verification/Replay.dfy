/** Sending a generated response with go-back-N by replaying the coroutine (core/output.c, core/coroutines.c,
    core/service.c, core/smews.c and the acknowledgement handling of core/input.c), as a step machine over values. */
module Replay {
  import opened Handlers
  import opened Options
  import opened Http
  import opened Response

  /** One connection's constants: what the handler writes, the first sequence number of the response,
      the negotiated mss, the checksum chunk size and OUTPUT_BUFFER_SIZE. */
  datatype Params = Params(body: string, start: nat, mss: nat, chunkSize: nat, bufferSize: nat)

  /** `MAX_OUT_SIZE(mss)`. */
  function MaxOut(p: Params): nat
    requires p.chunkSize > 0
  {
    p.mss - p.mss % p.chunkSize
  }

  /** Room for data besides the largest header, a 12-bit mss, a 16-bit buffer size, no zero sequence number. */
  ghost predicate Sane(p: Params) {
    && p.chunkSize > 0 && MaxOut(p) > 80 && p.mss < 4096 && 0 < p.bufferSize < 65536 && p.start > 0
  }

  /** `max_bytes` when the service is created by this very call, and in every other case. */
  function First(p: Params): nat
    requires p.chunkSize > 0 && MaxOut(p) > 80
  {
    Min(p.bufferSize, MaxOut(p) - HeadersSize(HeaderChunks))
  }

  function Later(p: Params): nat
    requires p.chunkSize > 0 && MaxOut(p) > 80
  {
    Min(p.bufferSize, MaxOut(p) - HeadersSize(HeaderNone))
  }

  /** `cr_status`, and how many bytes the handler has written at this point of its execution. */
  datatype Context = Context(pos: nat, status: Status)

  /** `struct in_flight_infos_t`: the context from before the segment at `seqno` was generated. */
  datatype Entry = Entry(seqno: nat, header: ServiceHeader, context: Context)

  /** `struct generator_service_t`. */
  datatype Service = Service(currSeq: nat, context: Context, inFlight: seq<Entry>, header: ServiceHeader)

  /** The fields of `struct http_connection` the protocol uses; `handler` says whether `output_handler` is set. */
  datatype Conn = Conn(next: nat, final: nat, inflight: nat, cwnd: nat, handler: bool, service: Option<Service>)

  /** A segment put on the network. */
  datatype Segment = Segment(seqno: nat, header: ServiceHeader, content: string)

  /** Which of the allocations of one `smews_send` would succeed. */
  datatype Allocs = Allocs(service: bool, prepare: bool, buffer: bool, record: bool, context: bool, stack: bool)

  /** Running the coroutine: `out_c` stores up to `max` bytes and yields at the next one; a handler
      with nothing more to write returns instead. */
  function Resume(body: string, ctx: Context, max: nat): (string, Context)
    requires ctx.pos <= |body|
  {
    var e := Min(ctx.pos + max, |body|);
    (body[ctx.pos..e], Context(e, if |body| - ctx.pos <= max then Terminated else Active))
  }

  /** `if_select`. */
  function Select(inFlight: seq<Entry>, seqno: nat): Option<Entry> {
    if inFlight == [] then None
    else if inFlight[0].seqno == seqno then Some(inFlight[0])
    else Select(inFlight[1..], seqno)
  }

  /** `clean_service`: keep the entries from the front as long as they are not below the acknowledgement. */
  function Prune(inFlight: seq<Entry>, inack: nat): seq<Entry> {
    if inFlight == [] || inFlight[0].seqno < inack then [] else [inFlight[0]] + Prune(inFlight[1..], inack)
  }

  /** The header kind actually sent. */
  function FinalHeader(h: ServiceHeader, ended: bool): ServiceHeader {
    match h
    case HeaderStandard => if ended then HeaderStandard else HeaderChunks
    case HeaderChunks => HeaderNone
    case HeaderNone => HeaderNone
  }

  /** `smews_send_packet` and the updates after it. */
  function Transmit(c: Conn, s: Service, h: ServiceHeader, content: string, retransmit: bool): (Conn, Option<Segment>) {
    var size := |content| + HeadersSize(h);
    var next := c.next + size;
    (c.(next := next,
        inflight := (c.inflight + size) % 65536,
        final := if h == HeaderStandard || content == "" then next else c.final,
        service := Some(if retransmit then s else s.(currSeq := next, header := h))),
     Some(Segment(c.next, h, content)))
  }

  /** The generator case of `smews_send` once the coroutine is in the shared stack. */
  function Generate(p: Params, c: Conn, s: Service, max: nat, al: Allocs): (Conn, Option<Segment>) {
    var retransmit := c.next != s.currSeq;
    var found := if retransmit then Select(s.inFlight, c.next) else None;
    var ctx := if found.Some? then found.value.context else s.context;
    var h := if !retransmit then s.header else if found.Some? then found.value.header else HeaderNone;
    var s1 := s.(context := ctx);
    if ctx.status == Terminated then Transmit(c, s1, FinalHeader(h, true), "", retransmit)
    else if !al.buffer || ctx.pos > |p.body| then (c.(service := Some(s1)), None)
    else if !retransmit && (!al.record || !al.context || (ctx.status == Active && !al.stack)) then (c.(service := Some(s1)), None)
    else
      var (content, ctx') := Resume(p.body, ctx, max);
      var s2 := s1.(context := ctx', inFlight := if retransmit then s1.inFlight else [Entry(c.next, h, ctx)] + s1.inFlight);
      Transmit(c, s2, FinalHeader(h, ctx'.status == Terminated), content, retransmit)
  }

  /** `able_to_send` for an established connection. */
  predicate Able(p: Params, c: Conn) {
    c.handler && c.next != c.final && c.inflight + p.mss <= c.cwnd
  }

  function Before(seqno: nat): nat { if seqno == 0 then 0xFFFF_FFFF else seqno - 1 }

  /** A connection whose service was just created. */
  function Opened(c: Conn): Conn {
    c.(service := Some(Service(c.next, Context(0, Ready), [], HeaderStandard)), final := Before(c.next))
  }

  /** One call of `smews_send` that selects this connection. */
  function Send(p: Params, c: Conn, al: Allocs): (Conn, Option<Segment>)
    requires p.chunkSize > 0 && MaxOut(p) > 80
  {
    if !Able(p, c) then (c, None)
    else if c.service == None then
      if !al.service then (c, None)
      else if !al.prepare then (Opened(c), None)
      else Generate(p, Opened(c), Opened(c).service.value, First(p), al)
    else if !al.prepare then (c, None)
    else Generate(p, c, c.service.value, Later(p), al)
  }

  /** A valid segment from the client: duplicate-ack test, ack management, window, end of the response. */
  function Ack(c: Conn, inack: nat, cwnd: nat): Conn {
    var next := if c.next == c.inflight + inack then inack else c.next;
    var acked := inack != 0 && inack <= next;
    var inflight := if acked then (next - inack) % 65536 else c.inflight;
    var service := if acked && c.service.Some? then Some(c.service.value.(inFlight := Prune(c.service.value.inFlight, inack)))
                   else c.service;
    var c' := c.(next := next, inflight := inflight, cwnd := cwnd, service := service);
    if c.handler && inflight == 0 && next == c.final then c'.(handler := false, service := None) else c'
  }

  /** 32-bit subtraction. */
  function Back(next: nat, amount: nat): nat {
    if amount <= next then next - amount else (next - amount) % 0x1_0000_0000
  }

  /** `smews_retransmit` once the timer has expired. */
  function Timeout(c: Conn): Conn {
    if c.handler && c.inflight > 0 then c.(next := Back(c.next, c.inflight), inflight := 0) else c
  }

  /** Sequence numbers go back in 32 bits. */
  lemma BackIn32Bits(next: nat, amount: nat)
    requires next < 0x1_0000_0000 && amount < 0x1_0000_0000
    ensures Before(next) < 0x1_0000_0000 && (Before(next) + 1) % 0x1_0000_0000 == next
    ensures Back(next, amount) < 0x1_0000_0000 && (Back(next, amount) + amount) % 0x1_0000_0000 == next
  {
  }

  /** Whatever state the connection is in: an acknowledgement of nothing, or of what was not sent, changes the window
      alone; any other one moves the window base to itself, up to the 16 bits of `inflight`, and not the next
      sequence number, unless it repeats the base, to which everything then goes back. */
  lemma AckMovesBase(c: Conn, inack: nat, cwnd: nat)
    requires c.inflight <= c.next && !(c.inflight == 0 && c.next == c.final)
    ensures var c' := Ack(c, inack, cwnd);
            if inack == c.next - c.inflight then
              c'.handler ==> c'.next == inack && (inack > 0 ==> c'.inflight == 0) && c'.cwnd == cwnd
            else if inack == 0 || inack > c.next then c' == c.(cwnd := cwnd)
            else c'.next == c.next && c'.inflight < 65536 && (c'.next - c'.inflight - inack) % 65536 == 0 && c'.cwnd == cwnd
                 && c'.final == c.final
  {
    hide Prune;
  }

  // ----- the invariant -----

  /** The first segment is cut at one limit or the other. */
  predicate CutOk(p: Params, f: nat)
    requires p.chunkSize > 0 && MaxOut(p) > 80
  {
    f == First(p) || f == Later(p)
  }

  /** Everything the server sends for the first time is a piece of one fixed list. */
  function Plan(p: Params, f: nat): (ps: seq<Piece>)
    requires Sane(p) && CutOk(p, f)
    ensures ps != []
  {
    Pieces(p.body, f, Later(p))
  }

  /** Generating piece k with room for `max` bytes cuts it where the plan does. */
  predicate CutsAs(p: Params, f: nat, k: nat, max: nat)
    requires p.chunkSize > 0 && MaxOut(p) > 80
  {
    if k > 0 then max == Later(p) else max == f || (|p.body| <= max && |p.body| <= f)
  }

  /** The context before piece i. */
  function ContextAt(ps: seq<Piece>, i: nat): Context
    requires ps != [] && i <= |ps|
  {
    Context(Pos(ps, i), if i >= DataCount(ps) then Terminated else if i == 0 then Ready else Active)
  }

  /** The service header before piece i. */
  function HeaderAt(ps: seq<Piece>, i: nat): ServiceHeader
    requires ps != []
  {
    if i == 0 then HeaderStandard else if i == 1 then ps[0].header else HeaderNone
  }

  function EntryAt(start: nat, ps: seq<Piece>, i: nat): Entry
    requires ps != [] && i <= |ps|
  {
    Entry(start + Off(ps, i), HeaderAt(ps, i), ContextAt(ps, i))
  }

  /** The entries of pieces lo..hi-1, latest first. */
  function Entries(start: nat, ps: seq<Piece>, lo: nat, hi: nat): seq<Entry>
    requires ps != [] && hi <= |ps|
  {
    if lo >= hi then [] else [EntryAt(start, ps, hi - 1)] + Entries(start, ps, lo, hi - 1)
  }

  /** Where a run stands, counted in pieces: acknowledged, next to send, position of the coroutine, sent at least once. */
  datatype Marks = Marks(acked: nat, next: nat, ctx: nat, sent: nat)

  /** The service agrees with the marks: a context is kept for every piece the handler ran for, from the
      last acknowledgement up to the newest; the coroutine is never behind the piece to send next. */
  ghost predicate ServiceAt(start: nat, ps: seq<Piece>, s: Service, m: Marks)
    requires ps != []
  {
    && m.acked <= m.next <= m.ctx <= m.sent <= |ps|
    && s.currSeq == start + Off(ps, m.sent)
    && s.context == ContextAt(ps, m.ctx)
    && s.header == HeaderAt(ps, m.sent)
    && s.inFlight == Entries(start, ps, m.acked, Min(m.sent, DataCount(ps)))
  }

  ghost predicate At(start: nat, ps: seq<Piece>, c: Conn, m: Marks)
    requires ps != []
  {
    && c.handler && c.service.Some? && ServiceAt(start, ps, c.service.value, m)
    && c.next == start + Off(ps, m.next)
    && c.inflight == Off(ps, m.next) - Off(ps, m.acked) && c.inflight < 65536 && c.cwnd < 65536
    && c.final == if m.sent < |ps| then start - 1 else start + Off(ps, |ps|)
  }

  /** Before the first send. */
  ghost predicate Fresh(p: Params, c: Conn) {
    c.handler && c.service == None && c.next == p.start && c.inflight == 0 && c.final == p.start - 1 && c.cwnd < 65536
  }

  /** A retransmitted first segment is cut where it was cut the first time. */
  predicate Uniform(p: Params)
    requires p.chunkSize > 0 && MaxOut(p) > 80
  {
    First(p) == Later(p) || |p.body| <= First(p)
  }

  // ----- the in-flight list -----

  /** `if_select` finds exactly the pieces the list has a context for. */
  lemma {:induction false} SelectEntry(start: nat, ps: seq<Piece>, lo: nat, hi: nat, i: nat)
    requires ps != [] && hi <= |ps| && lo <= i <= |ps|
    ensures Select(Entries(start, ps, lo, hi), start + Off(ps, i)) == if i < hi then Some(EntryAt(start, ps, i)) else None
    decreases hi
  {
    hide Off;
    if lo < hi {
      var e := Entries(start, ps, lo, hi - 1);
      assert ([EntryAt(start, ps, hi - 1)] + e)[1..] == e;
      if i < hi - 1 { OffsetsIncrease(ps, i, hi - 1); } else if i >= hi { OffsetsIncrease(ps, hi - 1, i); }
      if i != hi - 1 { SelectEntry(start, ps, lo, hi - 1, i); }
    }
  }

  /** `clean_service` keeps exactly the entries from the acknowledged piece on, in order. */
  lemma {:induction false} PruneEntries(start: nat, ps: seq<Piece>, lo: nat, hi: nat, k: nat)
    requires ps != [] && hi <= |ps| && k <= |ps|
    ensures Prune(Entries(start, ps, lo, hi), start + Off(ps, k)) == Entries(start, ps, if lo < k then k else lo, hi)
    decreases hi
  {
    hide Off;
    if lo < hi {
      var e := Entries(start, ps, lo, hi - 1);
      assert ([EntryAt(start, ps, hi - 1)] + e)[1..] == e;
      if k < hi {
        OffsetsIncrease(ps, k, hi - 1);
        PruneEntries(start, ps, lo, hi - 1, k);
      } else {
        OffsetsIncrease(ps, hi - 1, k);
      }
    }
  }

  /** The list is strictly decreasing in sequence number. */
  ghost predicate Descending(inFlight: seq<Entry>) {
    forall i, j :: 0 <= i < j < |inFlight| ==> inFlight[i].seqno > inFlight[j].seqno
  }

  /** The list of a service in any state: strictly decreasing, and below what was sent. */
  ghost predicate ListOk(s: Service) {
    Descending(s.inFlight) && forall i :: 0 <= i < |s.inFlight| ==> s.inFlight[i].seqno < s.currSeq
  }

  ghost predicate ListsOk(c: Conn) { c.service.Some? ==> ListOk(c.service.value) }

  /** Whatever the set-up, a push keeps the list strictly decreasing. */
  lemma SendKeepsList(p: Params, c: Conn, al: Allocs)
    requires p.chunkSize > 0 && MaxOut(p) > 80 && ListsOk(c)
    ensures ListsOk(Send(p, c, al).0)
  {
    hide Resume, Select, MaxOut;
    if Able(p, c) {
      if c.service.Some? { GenerateKeepsList(p, c, c.service.value, Later(p), al); }
      else { GenerateKeepsList(p, Opened(c), Opened(c).service.value, First(p), al); }
    }
  }

  lemma GenerateKeepsList(p: Params, c: Conn, s: Service, max: nat, al: Allocs)
    requires ListOk(s)
    ensures ListsOk(Generate(p, c, s, max, al).0)
  {
    hide Resume, Select;
  }

  lemma {:induction false} PruneIsPrefix(inFlight: seq<Entry>, inack: nat)
    ensures Prune(inFlight, inack) <= inFlight
  {
    if inFlight != [] && inFlight[0].seqno >= inack {
      PruneIsPrefix(inFlight[1..], inack);
      assert inFlight == [inFlight[0]] + inFlight[1..];
    }
  }

  lemma AckKeepsList(c: Conn, inack: nat, cwnd: nat)
    requires ListsOk(c)
    ensures ListsOk(Ack(c, inack, cwnd))
  {
    hide Prune;
    if c.service.Some? { PruneIsPrefix(c.service.value.inFlight, inack); }
  }

  /** On any descending list, `clean_service` keeps exactly the entries not below the acknowledgement. */
  lemma {:induction false} PruneIsFilter(inFlight: seq<Entry>, inack: nat)
    requires Descending(inFlight)
    ensures var kept := Prune(inFlight, inack);
            && kept <= inFlight
            && forall i :: 0 <= i < |inFlight| ==> (i < |kept| <==> inFlight[i].seqno >= inack)
  {
    if inFlight != [] && inFlight[0].seqno >= inack {
      PruneIsFilter(inFlight[1..], inack);
      assert inFlight == [inFlight[0]] + inFlight[1..];
      var kept := Prune(inFlight[1..], inack);
      assert forall i :: 1 <= i < |inFlight| ==> inFlight[i] == inFlight[1..][i - 1];
    }
  }

  // ----- one run of the coroutine -----

  /** Resuming the context from before piece k generates piece k and leaves the context before piece k + 1. */
  lemma ResumeGivesPiece(body: string, f: nat, m: nat, k: nat, max: nat)
    requires f > 0 && m > 0
    requires var ps := Pieces(body, f, m); k < DataCount(ps) && (max == Limit(f, m, k) || (k == 0 && |body| <= max && |body| <= f))
    ensures var ps := Pieces(body, f, m);
            && ContextAt(ps, k).pos <= |body| && ContextAt(ps, k).status != Terminated
            && Resume(body, ContextAt(ps, k), max) == (ps[k].content, ContextAt(ps, k + 1))
  {
    hide Pieces;
    PieceFacts(body, f, m, k);
    if |body| <= f { OnePiece(body, f, m); }
  }

  lemma OnePiece(body: string, f: nat, m: nat)
    requires f > 0 && m > 0 && |body| <= f
    ensures Pieces(body, f, m) == [Piece(HeaderStandard, body)]
    ensures Pos(Pieces(body, f, m), 0) == 0 && Pos(Pieces(body, f, m), 1) == |body|
  {
  }

  /** The header selection sends every piece with the header kind of the plan. */
  lemma HeaderIsPlanned(body: string, f: nat, m: nat, k: nat)
    requires f > 0 && m > 0 && k < |Pieces(body, f, m)|
    ensures var ps := Pieces(body, f, m);
            && FinalHeader(HeaderAt(ps, k), k + 1 >= DataCount(ps)) == ps[k].header
            && HeaderAt(ps, k + 1) == ps[k].header
            && (k >= DataCount(ps) ==> ps[k] == Piece(HeaderNone, "") && k + 1 == |ps| && HeaderAt(ps, k) == HeaderNone)
            && (k < DataCount(ps) && ps[k].content == "" ==> ps[k].header == HeaderStandard)
            && (ps[k].header == HeaderStandard ==> k + 1 == |ps|)
  {
    hide Pieces;
    PieceFacts(body, f, m, k);
    PieceFacts(body, f, m, 0);
    if |Pieces(body, f, m)| > 1 {
      PieceFacts(body, f, m, 1);
      OneEmptyChunk(body, f, m, k);
      PiecesAreManyOrOne(body, f, m);
    }
  }

  lemma PiecesAreManyOrOne(body: string, f: nat, m: nat)
    requires f > 0 && m > 0
    ensures |Pieces(body, f, m)| == 1 || |Pieces(body, f, m)| > 2
  {
    if |body| > f { PieceAfterFirst(body, f, m, 1); }
  }

  /** No segment but the first can be longer than the mss allows; the first one by its larger header. */
  lemma SegmentSize(p: Params, f: nat, k: nat)
    requires Sane(p) && CutOk(p, f) && k < |Plan(p, f)|
    ensures Size(Plan(p, f)[k]) <= p.mss + if k == 0 then 80 else 0
  {
    hide Pieces;
    PieceFacts(p.body, f, Later(p), k);
  }

  // ----- what every step keeps -----

  /** The segment is piece k at its place. */
  ghost predicate IsPiece(start: nat, ps: seq<Piece>, k: nat, g: Segment) {
    k < |ps| && g == Segment(start + Off(ps, k), ps[k].header, ps[k].content)
  }

  /** Transmitting piece m.next moves the marks on. */
  lemma TransmitStep(p: Params, f: nat, c: Conn, s: Service, m: Marks, m': Marks)
    requires Sane(p) && CutOk(p, f)
    requires var ps := Plan(p, f);
             && m.acked <= m.next < |ps| && m.next <= m.sent <= |ps| && c.handler
             && c.next == p.start + Off(ps, m.next) && c.inflight == Off(ps, m.next) - Off(ps, m.acked)
             && c.inflight + p.mss <= c.cwnd < 65536
             && c.final == (if m.sent < |ps| then p.start - 1 else p.start + Off(ps, |ps|))
             && m' == Marks(m.acked, m.next + 1, m'.ctx, if m.next == m.sent then m.sent + 1 else m.sent)
             && m'.next <= m'.ctx <= m'.sent
             && s.context == ContextAt(ps, m'.ctx)
             && s.inFlight == Entries(p.start, ps, m.acked, Min(m'.sent, DataCount(ps)))
             && (m.next < m.sent ==> s.currSeq == p.start + Off(ps, m.sent) && s.header == HeaderAt(ps, m.sent))
    ensures var (ps, k) := (Plan(p, f), m.next);
            var (c', g) := Transmit(c, s, ps[k].header, ps[k].content, m.next < m.sent);
            && At(p.start, ps, c', m') && g.Some? && IsPiece(p.start, ps, k, g.value)
  {
    hide Pieces, Entries, ContextAt, Off;
    OffStep(Plan(p, f), m.next);
    SegmentSize(p, f, m.next);
    NothingBeforeFirst(Plan(p, f), m.acked);
    HeaderIsPlanned(p.body, f, Later(p), m.next);
    OffsetsIncrease(Plan(p, f), m.acked, m.next);
  }

  lemma NothingBeforeFirst(ps: seq<Piece>, k: nat)
    ensures Off(ps, 0) == 0
    ensures k <= |ps| ==> Off(ps, k) >= 0
  {
  }

  /** Why a connection is about to send: which piece, and whether it was sent before. */
  lemma Situation(p: Params, f: nat, c: Conn, m: Marks)
    requires Sane(p) && CutOk(p, f) && At(p.start, Plan(p, f), c, m) && Able(p, c)
    ensures m.next < |Plan(p, f)|
    ensures c.next != c.service.value.currSeq <==> m.next < m.sent
    ensures Select(c.service.value.inFlight, c.next) ==
              if m.next < Min(m.sent, DataCount(Plan(p, f))) then Some(EntryAt(p.start, Plan(p, f), m.next)) else None
  {
    hide Pieces, ContextAt, HeaderAt, Entries;
    var ps := Plan(p, f);
    OffsetsIncrease(ps, m.next, m.sent);
    OffsetsIncrease(ps, m.sent, |ps|);
    SelectEntry(p.start, ps, m.acked, Min(m.sent, DataCount(ps)), m.next);
  }

  /** A send of the empty last chunk: no allocation, no run of the coroutine. */
  lemma SendsEmptyChunk(p: Params, f: nat, c: Conn, m: Marks, max: nat, al: Allocs) returns (m': Marks)
    requires Sane(p) && CutOk(p, f) && At(p.start, Plan(p, f), c, m) && Able(p, c) && m.next >= DataCount(Plan(p, f))
    ensures var (c', g) := Generate(p, c, c.service.value, max, al);
            && At(p.start, Plan(p, f), c', m')
            && m.next < |Plan(p, f)| && g.Some? && IsPiece(p.start, Plan(p, f), m.next, g.value)
            && m' == Marks(m.acked, m.next + 1, m'.ctx, if m.next == m.sent then m.sent + 1 else m.sent)
  {
    hide Pieces, Select;
    var ps, s := Plan(p, f), c.service.value;
    Situation(p, f, c, m);
    HeaderIsPlanned(p.body, f, Later(p), m.next);
    m' := Marks(m.acked, m.next + 1, if m.ctx > m.next then m.ctx else m.next + 1, if m.next == m.sent then m.sent + 1 else m.sent);
    assert ContextAt(ps, m'.ctx) == ContextAt(ps, m.ctx) by { PastTheEnd(p.body, f, Later(p), m.ctx, m'.ctx); }
    hide Entries;
    TransmitStep(p, f, c, s, m, m');
    assert Generate(p, c, s, max, al) == Transmit(c, s, ps[m.next].header, ps[m.next].content, m.next < m.sent);
    hide Transmit, At;
  }

  lemma PastTheEnd(body: string, f: nat, m: nat, i: nat, j: nat)
    requires f > 0 && m > 0 && DataCount(Pieces(body, f, m)) <= i <= |Pieces(body, f, m)| && DataCount(Pieces(body, f, m)) <= j <= |Pieces(body, f, m)|
    ensures ContextAt(Pieces(body, f, m), i) == ContextAt(Pieces(body, f, m), j)
  {
    hide Pieces;
    var ps := Pieces(body, f, m);
    if |ps| > 1 { OneEmptyChunk(body, f, m, |ps| - 1); }
  }

  /** The first transmission of a data segment: a context is backed up, then the coroutine runs. */
  lemma SendsNew(p: Params, f: nat, c: Conn, m: Marks, max: nat, al: Allocs) returns (m': Marks)
    requires Sane(p) && CutOk(p, f) && At(p.start, Plan(p, f), c, m) && Able(p, c)
    requires m.next == m.sent && m.next < DataCount(Plan(p, f))
    requires CutsAs(p, f, m.next, max)
    ensures var (c', g) := Generate(p, c, c.service.value, max, al);
            && At(p.start, Plan(p, f), c', m')
            && if g == None then m' == m
               else m.next < |Plan(p, f)| && IsPiece(p.start, Plan(p, f), m.next, g.value)
                    && m' == Marks(m.acked, m.next + 1, m.next + 1, m.sent + 1)
  {
    hide Pieces, Select, Resume, Entries, ContextAt, HeaderAt;
    var ps, s, k := Plan(p, f), c.service.value, m.next;
    Situation(p, f, c, m);
    HeaderIsPlanned(p.body, f, Later(p), k);
    ResumeGivesPiece(p.body, f, Later(p), k, max);
    EntriesGrow(p.start, ps, m.acked, k);
    ContextEnds(ps, k);
    m' := m;
    if al.buffer && al.record && al.context && (s.context.status == Active ==> al.stack) {
      m' := Marks(m.acked, k + 1, k + 1, m.sent + 1);
      var s2 := s.(context := ContextAt(ps, k + 1), inFlight := [EntryAt(p.start, ps, k)] + s.inFlight);
      TransmitStep(p, f, c, s2, m, m');
      assert Generate(p, c, s, max, al) == Transmit(c, s2, ps[k].header, ps[k].content, false);
      hide Transmit, At;
    }
  }

  lemma EntriesGrow(start: nat, ps: seq<Piece>, lo: nat, hi: nat)
    requires ps != [] && lo <= hi < |ps|
    ensures Entries(start, ps, lo, hi + 1) == [EntryAt(start, ps, hi)] + Entries(start, ps, lo, hi)
  {
  }

  lemma ContextEnds(ps: seq<Piece>, k: nat)
    requires ps != [] && k < |ps|
    ensures ContextAt(ps, k + 1).status == Terminated <==> k + 1 >= DataCount(ps)
    ensures ContextAt(ps, k).status == Terminated <==> k >= DataCount(ps)
  {
  }

  /** A retransmission of a data segment: its context is restored and the coroutine runs again. */
  lemma SendsAgain(p: Params, f: nat, c: Conn, m: Marks, max: nat, al: Allocs) returns (m': Marks)
    requires Sane(p) && CutOk(p, f) && At(p.start, Plan(p, f), c, m) && Able(p, c)
    requires m.next < m.sent && m.next < DataCount(Plan(p, f)) && CutsAs(p, f, m.next, max)
    ensures var (c', g) := Generate(p, c, c.service.value, max, al);
            && At(p.start, Plan(p, f), c', m')
            && if g == None then m' == m.(ctx := m.next)
               else m.next < |Plan(p, f)| && IsPiece(p.start, Plan(p, f), m.next, g.value)
                    && m' == Marks(m.acked, m.next + 1, m.next + 1, m.sent)
  {
    hide Pieces, Select, Resume;
    var ps, s, k := Plan(p, f), c.service.value, m.next;
    Situation(p, f, c, m);
    HeaderIsPlanned(p.body, f, Later(p), k);
    ResumeGivesPiece(p.body, f, Later(p), k, max);
    m' := m.(ctx := k);
    ContextEnds(ps, k);
    if al.buffer {
      m' := Marks(m.acked, k + 1, k + 1, m.sent);
      var s2 := s.(context := ContextAt(ps, k + 1));
      TransmitStep(p, f, c, s2, m, m');
      hide ContextAt, Entries;
      assert Generate(p, c, s, max, al) == Transmit(c, s2, ps[k].header, ps[k].content, true);
      hide Transmit, At;
    }
  }

  /** What a call of `smews_send` does to the marks. */
  ghost predicate Advances(p: Params, f: nat, m: Marks, m': Marks, g: Option<Segment>)
    requires Sane(p) && CutOk(p, f)
  {
    if g == None then m' == m.(ctx := m'.ctx)
    else
      && m.next < |Plan(p, f)| && IsPiece(p.start, Plan(p, f), m.next, g.value)
      && m' == Marks(m.acked, m.next + 1, m'.ctx, if m.next == m.sent then m.sent + 1 else m.sent)
  }

  /** The send step: whatever allocations fail, the invariant survives; and a segment that is sent is the
      piece due, whether it is sent for the first time or again. */
  lemma GenerateStep(p: Params, f: nat, c: Conn, m: Marks, max: nat, al: Allocs) returns (m': Marks)
    requires Sane(p) && CutOk(p, f) && At(p.start, Plan(p, f), c, m) && Able(p, c)
    requires CutsAs(p, f, m.next, max)
    ensures var (c', g) := Generate(p, c, c.service.value, max, al);
            At(p.start, Plan(p, f), c', m') && Advances(p, f, m, m', g)
  {
    hide Generate, Plan, IsPiece;
    assert m.next <= m.sent;
    if m.next >= DataCount(Plan(p, f)) { m' := SendsEmptyChunk(p, f, c, m, max, al); }
    else if m.next == m.sent { m' := SendsNew(p, f, c, m, max, al); }
    else { m' := SendsAgain(p, f, c, m, max, al); }
  }
}
