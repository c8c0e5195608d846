/** Which responses never exceed the negotiated mss, and with it the client's window. */
module SegmentSizes {
  import opened Handlers
  import opened Options
  import opened Http
  import opened Response
  import opened Replay
  import opened ReplayRuns

  function SegmentLength(g: Segment): nat { |g.content| + HeadersSize(g.header) }

  /** A first segment sent again is cut at the common limit but still carries a first segment's header: the larger
      cut and the larger header have to fit together, unless no such segment can be. */
  predicate FitsMss(p: Params)
    requires p.chunkSize > 0 && MaxOut(p) > 80
  {
    if |p.body| <= Later(p) then |p.body| <= First(p) || |p.body| + HeadersSize(HeaderStandard) <= p.mss
    else Later(p) + HeadersSize(HeaderChunks) <= p.mss
  }

  /** Whatever state the service is in: this is the size of what it generates. */
  lemma GenerateFits(p: Params, c: Conn, s: Service, max: nat, al: Allocs)
    requires Sane(p) && FitsMss(p)
    requires max == Later(p) || (max == First(p) && s.header == HeaderStandard && s.currSeq == c.next)
    ensures var g := Generate(p, c, s, max, al).1; g.Some? ==> SegmentLength(g.value) <= p.mss
  {
    hide Select;
  }

  /** From any state of the connection at all, a segment fits the mss, and sending it stays within the window. */
  lemma SendFits(p: Params, c: Conn, al: Allocs)
    requires Sane(p) && FitsMss(p)
    ensures var (c', g) := Send(p, c, al);
            g.Some? ==> SegmentLength(g.value) <= p.mss && c.inflight + SegmentLength(g.value) <= c.cwnd && c'.cwnd == c.cwnd
  {
    hide Generate;
    if Able(p, c) {
      if c.service.Some? { GenerateFits(p, c, c.service.value, Later(p), al); SendKeepsWindow(p, c, c.service.value, Later(p), al); }
      else { GenerateFits(p, Opened(c), Opened(c).service.value, First(p), al); SendKeepsWindow(p, Opened(c), Opened(c).service.value, First(p), al); }
    }
  }

  lemma SendKeepsWindow(p: Params, c: Conn, s: Service, max: nat, al: Allocs)
    ensures Generate(p, c, s, max, al).0.cwnd == c.cwnd
  {
    hide Select, Resume;
  }

  lemma {:induction false} RunFits(p: Params, c: Conn, es: seq<Event>)
    requires Sane(p) && FitsMss(p)
    ensures forall i :: 0 <= i < |Sent(p, c, es)| ==> SegmentLength(Sent(p, c, es)[i]) <= p.mss
    decreases |es|
  {
    hide Send, FitsMss, SegmentLength;
    if es != [] {
      if es[0].SendEvent? { SendFits(p, c, es[0].al); }
      RunFits(p, Step(p, c, es[0]).0, es[1..]);
    }
  }

  ghost predicate RunIsSmall(p: Params, c: Conn, es: seq<Event>)
    requires p.chunkSize > 0 && MaxOut(p) > 80
  {
    Fresh(p, c) ==> forall i :: 0 <= i < |Sent(p, c, es)| ==> SegmentLength(Sent(p, c, es)[i]) <= p.mss
  }

  /** Every segment of every run, whatever acknowledgements, timers and allocations do, fits the mss exactly if the
      first segment also fits when it is cut the second way. */
  lemma SegmentsFitMssIff(p: Params)
    requires Sane(p)
    ensures (forall c, es :: RunIsSmall(p, c, es)) <==> FitsMss(p)
    ensures var room := p.mss - p.mss % p.chunkSize;
            FitsMss(p) <==>
              if |p.body| <= p.bufferSize && |p.body| <= room - 8
              then |p.body| <= room - 80 || |p.body| + 68 <= p.mss
              else p.bufferSize + 80 <= p.mss || room - 8 + 80 <= p.mss
  {
    hide Sent;
    if FitsMss(p) {
      forall c, es ensures RunIsSmall(p, c, es) { RunFits(p, c, es); }
    } else {
      var es := [SendEvent(AllSucceed()), TimeoutEvent, SendEvent(AllSucceed())];
      FirstSegmentTwice(p);
      assert SegmentLength(Sent(p, Start(p), es)[1]) > p.mss;
      assert !RunIsSmall(p, Start(p), es);
    }
  }
}
