/** When a static file sends, and that it fills the client's window without waiting. */
module FileWindow {
  import opened OnesComplement
  import opened StaticFile

  /** The largest number of bytes in a segment: the mss without its part below the checksum chunk. */
  function Full(s: Setup): int
    requires s.chunk > 0
  {
    s.mss - s.mss % s.chunk
  }

  /** From every state of the invariant: a send emits the next bytes of the file, as many as fit a segment, if and only
      if bytes are left and the window has room for a full segment besides what is in flight. Otherwise
      nothing changes. */
  lemma SendsIff(s: Setup, w: World)
    requires SetupOk(s) && Inv(s, w)
    ensures var (c, at) := (w.conn, w.conn.next - s.start);
            var n := if |s.file| - at > Full(s) then Full(s) else |s.file| - at;
            Step(s, w, Send) ==
              if c.open && 0 <= at < |s.file| && c.inflight + s.mss <= c.cwnd
              then w.(conn := c.(next := c.next + n, inflight := c.inflight + n),
                      sent := w.sent + {Segment(c.next, s.file[at..at + n])})
              else w
  {
    PlaceInFile(s, w.conn);
    if Able(s, w.conn) { SendIsSafe(s, w.conn); }
    hide SegmentOk, OnBoundary, ConnOk;
  }

  lemma PlaceInFile(s: Setup, c: Conn)
    requires SetupOk(s) && ConnOk(s, c)
    ensures 0 <= c.next - s.start <= |s.file| && 0 <= c.inflight && c.cwnd < 65536
    ensures 0 < Full(s) <= s.mss
  {
    MaxOutIsChunks(s);
  }

  // ----- filling the window -----

  /** Where segment i starts. */
  function Place(s: Setup, i: nat): int
    requires s.chunk > 0
  {
    if i == 0 then 0 else Place(s, i - 1) + Full(s)
  }

  function Sends(j: nat): (es: seq<Event>)
    ensures |es| == j && forall i :: 0 <= i < j ==> es[i] == Send
  {
    seq(j, _ => Send)
  }

  /** Segment i of the file. */
  function Slice(s: Setup, i: nat): Segment
    requires SetupOk(s) && 0 <= Place(s, i) < |s.file|
  {
    var at := Place(s, i);
    Segment(s.start + at, s.file[at..if |s.file| - at > Full(s) then at + Full(s) else |s.file|])
  }

  /** The first k segments of the file. */
  function FirstSlices(s: Setup, k: nat): set<Segment>
    requires SetupOk(s)
  {
    if k == 0 then {}
    else FirstSlices(s, k - 1) + (if 0 <= Place(s, k - 1) < |s.file| then {Slice(s, k - 1)} else {})
  }

  /** The first k segments are in flight, and nothing else ever was. */
  ghost predicate InFlight(s: Setup, w: World, k: nat, window: int)
    requires SetupOk(s)
  {
    && Inv(s, w) && w.conn.open && w.conn.cwnd == window
    && w.conn.next == s.start + w.conn.inflight
    && w.conn.inflight == (if Place(s, k) < |s.file| then Place(s, k) else |s.file|)
    && w.sent == FirstSlices(s, k)
  }

  lemma {:induction false} Grows(s: Setup, i: nat, k: nat)
    requires SetupOk(s) && i <= k
    ensures 0 <= Place(s, i) <= Place(s, k)
    decreases k
  {
    MaxOutIsChunks(s);
    if i < k { Grows(s, i, k - 1); } else if k > 0 { Grows(s, k - 1, k - 1); }
  }

  lemma PlaceStep(s: Setup, k: nat)
    requires s.chunk > 0
    ensures Place(s, k + 1) == Place(s, k) + Full(s)
  {
  }

  lemma SliceIs(s: Setup, k: nat)
    requires SetupOk(s) && 0 <= Place(s, k) < |s.file|
    ensures var (at, left) := (Place(s, k), |s.file| - Place(s, k));
            0 < Full(s) && Slice(s, k) == Segment(s.start + at, s.file[at..at + if left > Full(s) then Full(s) else left])
  {
    MaxOutIsChunks(s);
  }

  lemma OneMoreSlice(s: Setup, k: nat)
    requires SetupOk(s) && 0 <= Place(s, k) < |s.file|
    ensures FirstSlices(s, k + 1) == FirstSlices(s, k) + {Slice(s, k)}
  {
    hide Slice, Place;
  }

  lemma OneMore(s: Setup, w: World, k: nat, window: int)
    requires SetupOk(s) && InFlight(s, w, k, window) && Place(s, k) < |s.file| && Place(s, k) + s.mss <= window
    ensures InFlight(s, Step(s, w, Send), k + 1, window)
  {
    hide Inv, Step, Slice, Place, FirstSlices, Full;
    Grows(s, k, k);
    SendsIff(s, w);
    StepKeeps(s, w, Send);
    PlaceStep(s, k);
    SliceIs(s, k);
    OneMoreSlice(s, k);
  }

  lemma {:induction false} FillsFrom(s: Setup, w: World, k: nat, j: nat, window: int)
    requires SetupOk(s) && InFlight(s, w, k, window)
    requires forall i :: k <= i < k + j ==> Place(s, i) < |s.file| && Place(s, i) + s.mss <= window
    ensures InFlight(s, Run(s, w, Sends(j)), k + j, window)
    decreases j
  {
    hide InFlight, Step;
    if j > 0 {
      OneMore(s, w, k, window);
      assert Sends(j)[1..] == Sends(j - 1);
      FillsFrom(s, Step(s, w, Send), k + 1, j - 1, window);
    }
  }

  /** Without waiting for an acknowledgement the file's segments go out one after the other, each at its place, as long
      as a full segment still fits the window besides what is in flight; after that, sends change nothing. */
  lemma FillsWindow(s: Setup, window: int, j: nat)
    requires SetupOk(s) && 0 <= window < 65536
    requires forall i :: 0 <= i < j ==> Place(s, i) < |s.file| && Place(s, i) + s.mss <= window
    ensures var w := Run(s, Initial(s, window), Sends(j));
            && w.sent == FirstSlices(s, j)
            && (Place(s, j) >= |s.file| || Place(s, j) + s.mss > window ==> Step(s, w, Send) == w)
  {
    hide Run, Step;
    InitialHolds(s, window);
    FillsFrom(s, Initial(s, window), 0, j, window);
    SendsIff(s, Run(s, Initial(s, window), Sends(j)));
  }
}
