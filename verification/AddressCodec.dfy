/** The IPv6 zero-run codec of core/connections.c: one run of zero bytes is cut out of a 16-byte address. */
module AddressCodec {

  type Bytes = seq<int>

  ghost predicate ZeroIn(full: Bytes, from: int, to: int)
    requires 0 <= from <= to <= |full|
  {
    forall i :: from <= i < to ==> full[i] == 0
  }

  // ----- choosing the window -----

  datatype Scan = Scan(currIndex: int, currNb: int, maxIndex: int, maxNb: int)

  /** The four counters after `i` bytes. A run that does not beat the longest one so far leaves its count
      standing, and the next run adds to it. */
  function ScanTo(full: Bytes, i: nat): (s: Scan)
    requires i <= |full|
    ensures 0 <= s.currNb && 0 <= s.currIndex && s.currIndex + s.currNb <= i
    ensures 0 <= s.maxNb && 0 <= s.maxIndex && (if i == 0 then s.maxIndex + s.maxNb == 0 else s.maxIndex + s.maxNb < i)
  {
    if i == 0 then Scan(0, 0, 0, 0)
    else
      var s := ScanTo(full, i - 1);
      if full[i - 1] == 0 then
        s.(currIndex := if s.currNb == 0 then i - 1 else s.currIndex, currNb := s.currNb + 1)
      else if s.currNb > s.maxNb then Scan(s.currIndex, 0, s.currIndex, s.currNb)
      else s
  }

  /** The window of an address: its first byte and its length, each of which fits a nibble. */
  function WindowStart(full: Bytes): (n: int)
    requires |full| == 16
    ensures 0 <= n < 16
  {
    ScanTo(full, 16).maxIndex
  }

  function WindowLength(full: Bytes): (n: int)
    requires |full| == 16
    ensures 0 <= n < 16 && WindowStart(full) + n < 16
  {
    ScanTo(full, 16).maxNb
  }

  function Zeros(n: nat): (z: Bytes)
    ensures |z| == n && forall i :: 0 <= i < n ==> z[i] == 0
  {
    seq(n, _ => 0)
  }

  /** The address without its window, filled up with zeros. */
  function Squeezed(full: Bytes): (c: Bytes)
    requires |full| == 16
    ensures |c| == 16
  {
    full[..WindowStart(full)] + full[WindowStart(full) + WindowLength(full)..] + Zeros(WindowLength(full))
  }

  function Indexes(full: Bytes): (n: int)
    requires |full| == 16
    ensures 0 <= n < 256 && n / 16 == WindowStart(full) && n % 16 == WindowLength(full)
  {
    16 * WindowStart(full) + WindowLength(full)
  }

  /** Only the bytes outside the window are read. */
  function Expanded(comp: Bytes, indexes: int): (f: Bytes)
    requires 0 <= indexes < 256 && indexes / 16 + indexes % 16 <= 16 && 16 - indexes % 16 <= |comp|
    ensures |f| == 16
  {
    var start, zeros := indexes / 16, indexes % 16;
    comp[..start] + Zeros(zeros) + comp[start..16 - zeros]
  }

  // ----- the code -----

  /** `compress_ip`. */
  method CompressIp(full: array<int>, comp: array<int>) returns (indexes: int)
    requires full.Length == 16 && comp.Length == 16 && full != comp
    modifies comp
    ensures comp[..] == Squeezed(full[..]) && indexes == Indexes(full[..])
  {
    ghost var f := full[..];
    var currIndex, maxIndex, currNb, maxNb := 0, 0, 0, 0;
    for i := 0 to 16
      invariant f == full[..] && ScanTo(f, i) == Scan(currIndex, currNb, maxIndex, maxNb)
      invariant forall k :: 0 <= k < i ==> comp[k] == 0
    {
      assert f[..][i] == full[i];
      comp[i] := 0;
      if full[i] == 0 {
        if currNb == 0 { currIndex := i; }
        currNb := currNb + 1;
      } else if currNb > maxNb {
        maxNb := currNb;
        maxIndex := currIndex;
        currNb := 0;
      }
    }
    assert maxIndex == WindowStart(f) && maxNb == WindowLength(f);
    hide ScanTo;
    for i := 0 to maxIndex
      invariant f == full[..]
      invariant forall k :: 0 <= k < 16 ==> comp[k] == if k < i then f[k] else 0
    {
      assert f[i] == full[i];
      comp[i] := full[i];
    }
    for i := maxIndex to 16 - maxNb
      invariant f == full[..]
      invariant forall k :: 0 <= k < maxIndex ==> comp[k] == f[k]
      invariant forall k :: maxIndex <= k < i ==> comp[k] == f[k + maxNb]
      invariant forall k :: i <= k < 16 ==> comp[k] == 0
    {
      assert f[i + maxNb] == full[i + maxNb];
      comp[i] := full[i + maxNb];
    }
    assert comp[..] == Squeezed(f);
    indexes := maxIndex * 16 + maxNb;
  }

  /** `decompress_ip`. */
  method DecompressIp(comp: array<int>, full: array<int>, indexes: int)
    requires full.Length == 16 && comp != full && 16 - indexes % 16 <= comp.Length
    requires 0 <= indexes < 256 && indexes / 16 + indexes % 16 <= 16
    modifies full
    ensures full[..] == Expanded(comp[..], indexes)
  {
    var start, zeros := indexes / 16, indexes % 16;
    ghost var c := comp[..];
    var i := 0;
    while i < start
      invariant 0 <= i <= start && c == comp[..]
      invariant forall k :: 0 <= k < i ==> full[k] == c[k]
    {
      assert c[i] == comp[i];
      full[i] := comp[i];
      i := i + 1;
    }
    while i < start + zeros
      invariant start <= i <= start + zeros && c == comp[..]
      invariant forall k :: 0 <= k < start ==> full[k] == c[k]
      invariant forall k :: start <= k < i ==> full[k] == 0
    {
      full[i] := 0;
      i := i + 1;
    }
    while i < 16
      invariant start + zeros <= i <= 16 && c == comp[..]
      invariant forall k :: 0 <= k < start ==> full[k] == c[k]
      invariant forall k :: start <= k < start + zeros ==> full[k] == 0
      invariant forall k :: start + zeros <= k < i ==> full[k] == c[k - zeros]
    {
      assert c[i - zeros] == comp[i - zeros];
      full[i] := comp[i - zeros];
      i := i + 1;
    }
    assert full[..] == Expanded(c, indexes);
  }

  // ----- when the round trip is the identity -----

  /** What comes back is the address with its window cleared, even from the stored form, which keeps only the
      bytes outside the window. */
  lemma ComesBackCleared(full: Bytes, stored: Bytes)
    requires |full| == 16
    requires 16 - WindowLength(full) <= |stored|
    requires stored[..16 - WindowLength(full)] == Squeezed(full)[..16 - WindowLength(full)]
    ensures Expanded(stored, Indexes(full))
              == full[..WindowStart(full)] + Zeros(WindowLength(full)) + full[WindowStart(full) + WindowLength(full)..]
  {
    var a, n := WindowStart(full), WindowLength(full);
    var s := Squeezed(full);
    assert s[..16 - n] == full[..a] + full[a + n..];
    assert stored[..a] == s[..16 - n][..a] == full[..a];
    assert stored[a..16 - n] == s[..16 - n][a..] == full[a + n..];
  }

  /** The codec is the identity exactly on the addresses whose chosen window holds nothing but zeros. */
  lemma RoundTripIffWindowIsZero(full: Bytes)
    requires |full| == 16
    ensures (Expanded(Squeezed(full), Indexes(full)) == full) <==>
            ZeroIn(full, WindowStart(full), WindowStart(full) + WindowLength(full))
  {
    var a, n := WindowStart(full), WindowLength(full);
    ComesBackCleared(full, Squeezed(full));
    var back := full[..a] + Zeros(n) + full[a + n..];
    assert forall i :: a <= i < a + n ==> back[i] == 0;
    if ZeroIn(full, a, a + n) { assert back == full; }
  }

  // ----- the same, in terms of the runs of zeros -----

  /** The lengths of the runs of zeros that end before byte i, and of the one that is still open there. */
  datatype Runs = Runs(closed: seq<nat>, open: nat)

  function RunsTo(full: Bytes, i: nat): Runs
    requires i <= |full|
  {
    if i == 0 then Runs([], 0)
    else
      var r := RunsTo(full, i - 1);
      if full[i - 1] == 0 then r.(open := r.open + 1)
      else if r.open > 0 then Runs(r.closed + [r.open], 0)
      else r
  }

  /** Run lengths in groups, each closed as soon as its sum beats that of the last one: this sum, sum and number of
      runs of the group still open, number of runs of the last closed group. */
  datatype Groups = Groups(best: nat, sum: nat, size: nat, lastSize: nat)

  function Grouped(lengths: seq<nat>): Groups {
    if lengths == [] then Groups(0, 0, 0, 0)
    else
      var g, sum := Grouped(lengths[..|lengths| - 1]), Grouped(lengths[..|lengths| - 1]).sum + lengths[|lengths| - 1];
      if sum > g.best then Groups(sum, 0, 0, g.size + 1) else g.(sum := sum, size := g.size + 1)
  }

  /** The counters hold the group in progress and the last one closed. */
  ghost predicate ScansGroups(full: Bytes, i: nat)
    requires i <= |full|
  {
    var s, r := ScanTo(full, i), RunsTo(full, i);
    var g := Grouped(r.closed);
    && s.maxNb == g.best && s.currNb == g.sum + r.open && g.sum <= g.best && r.open <= i
    && (g.size == 0 <==> g.sum == 0)
    && (g.lastSize <= 1 <==> ZeroIn(full, s.maxIndex, s.maxIndex + s.maxNb))
    && ZeroIn(full, i - r.open, i)
    && (g.size == 0 && r.open > 0 ==> s.currIndex == i - r.open)
    && (g.size > 0 ==> exists k :: s.currIndex <= k <= s.currIndex + g.sum && k < i && full[k] != 0)
  }

  lemma GroupedAppend(lengths: seq<nat>, n: nat)
    ensures var g := Grouped(lengths);
            Grouped(lengths + [n]) ==
              if g.sum + n > g.best then Groups(g.sum + n, 0, 0, g.size + 1) else g.(sum := g.sum + n, size := g.size + 1)
  {
    assert (lengths + [n])[..|lengths|] == lengths;
  }

  lemma {:induction false} ScanIsGrouping(full: Bytes, i: nat)
    requires i <= |full|
    ensures ScansGroups(full, i)
  {
    if i > 0 {
      ScanIsGrouping(full, i - 1);
      OneByte(full, i - 1);
      if full[i - 1] == 0 { ZeroSeen(full, i); } else { NonZeroSeen(full, i); }
    }
  }

  lemma ZeroSeen(full: Bytes, i: nat)
    requires 0 < i <= |full| && ScansGroups(full, i - 1) && full[i - 1] == 0
    ensures ScansGroups(full, i)
  {
    OneByte(full, i - 1);
    assert RunsTo(full, i) == RunsTo(full, i - 1).(open := RunsTo(full, i - 1).open + 1);
    hide ScanTo, RunsTo, Grouped;
  }

  lemma NonZeroSeen(full: Bytes, i: nat)
    requires 0 < i <= |full| && ScansGroups(full, i - 1) && full[i - 1] != 0
    ensures ScansGroups(full, i)
  {
    OneByte(full, i - 1);
    var r, s := RunsTo(full, i - 1), ScanTo(full, i - 1);
    var g := Grouped(r.closed);
    assert RunsTo(full, i) == if r.open > 0 then Runs(r.closed + [r.open], 0) else r;
    GroupedAppend(r.closed, r.open);
    hide ScanTo, RunsTo, Grouped;
  }

  /** In terms of the address: the codec is the identity exactly if the last of the groups its closed runs of zeros
      fall into is a single run. A run that ends the address belongs to no group. */
  lemma RoundTripIffLastGroupIsOneRun(full: Bytes)
    requires |full| == 16
    ensures (Expanded(Squeezed(full), Indexes(full)) == full) <==> Grouped(RunsTo(full, 16).closed).lastSize <= 1
  {
    hide Expanded, Squeezed, Indexes, ScanTo, RunsTo, Grouped;
    ScanIsGrouping(full, 16);
    RoundTripIffWindowIsZero(full);
  }

  // ----- addresses it is right for -----

  /** A whole run of zeros with a non-zero byte after it. */
  ghost predicate ClosedRun(full: Bytes, from: int, to: int) {
    && 0 <= from < to < |full| && ZeroIn(full, from, to) && full[to] != 0
    && (from == 0 || full[from - 1] != 0)
  }

  /** Each closed run is longer than every closed run before it. */
  ghost predicate RunsGrow(full: Bytes) {
    forall a, b, c, d :: ClosedRun(full, a, b) && ClosedRun(full, c, d) && b <= c ==> b - a < d - c
  }

  lemma {:induction false} ScanOfGrowingRuns(full: Bytes, i: nat)
    requires i <= |full| && RunsGrow(full)
    ensures var s := ScanTo(full, i);
            && (s.maxNb > 0 ==> ClosedRun(full, s.maxIndex, s.maxIndex + s.maxNb))
            && (s.currNb > 0 ==> s.currIndex + s.currNb == i && ZeroIn(full, s.currIndex, i)
                                 && (s.currIndex == 0 || full[s.currIndex - 1] != 0))
            && (s.currNb == 0 ==> i == 0 || full[i - 1] != 0)
  {
    if i > 0 {
      ScanOfGrowingRuns(full, i - 1);
      var s := ScanTo(full, i - 1);
      if full[i - 1] != 0 && s.currNb > 0 {
        assert ClosedRun(full, s.currIndex, i - 1);
        if s.maxNb > 0 {
          assert s.maxIndex + s.maxNb <= s.currIndex;
        }
      }
    }
  }

  /** In particular the address comes back when it has one closed run, or runs that grow. */
  lemma GrowingRunsComeBack(full: Bytes)
    requires |full| == 16 && RunsGrow(full)
    ensures Expanded(Squeezed(full), Indexes(full)) == full
  {
    ScanOfGrowingRuns(full, 16);
    RoundTripIffWindowIsZero(full);
  }

  lemma OneByte(full: Bytes, i: nat)
    requires i < |full|
    ensures var s := ScanTo(full, i);
            ScanTo(full, i + 1) == if full[i] == 0 then Scan(if s.currNb == 0 then i else s.currIndex, s.currNb + 1, s.maxIndex, s.maxNb)
                                   else if s.currNb > s.maxNb then Scan(s.currIndex, 0, s.currIndex, s.currNb)
                                   else s
  {
  }

  lemma {:induction false} NoMoreZeros(full: Bytes, i: nat, j: nat)
    requires i <= j <= |full| && ScanTo(full, i).currNb == 0 && forall k :: i <= k < j ==> full[k] != 0
    ensures ScanTo(full, j) == ScanTo(full, i)
  {
    if i < j {
      NoMoreZeros(full, i, j - 1);
      OneByte(full, j - 1);
    }
  }

  /** A run of one and a run of two after a run of two count as three, from the start of the first: every address
      that begins like this comes back with its seventh byte lost. */
  lemma ShortRunsAddUp(full: Bytes)
    requires |full| == 16 && forall i :: 0 <= i < 16 ==> (full[i] == 0 <==> i in {2, 3, 5, 7, 8})
    ensures WindowStart(full) == 5 && WindowLength(full) == 3
    ensures Expanded(Squeezed(full), Indexes(full)) == full[6 := 0] != full
  {
    ScanOfBegin(full);
    NoMoreZeros(full, 10, 16);
    hide ScanTo;
    ComesBackCleared(full, Squeezed(full));
    assert full[..5] + Zeros(3) + full[8..] == full[6 := 0];
    assert full[6 := 0][6] != full[6];
  }

  lemma ScanOfBegin(full: Bytes)
    requires |full| == 16 && forall i :: 0 <= i < 16 ==> (full[i] == 0 <==> i in {2, 3, 5, 7, 8})
    ensures ScanTo(full, 10) == Scan(5, 0, 5, 3)
  {
    assert ScanTo(full, 0) == Scan(0, 0, 0, 0);
    hide ScanTo;
    OneByte(full, 0); OneByte(full, 1); OneByte(full, 2); OneByte(full, 3); OneByte(full, 4);
    assert ScanTo(full, 5) == Scan(2, 0, 2, 2);
    OneByte(full, 5); OneByte(full, 6); OneByte(full, 7); OneByte(full, 8); OneByte(full, 9);
  }
}
