/** Checksums of static files: folded chunk by chunk when the site is built (tools/GenApps.py), summed over the
    chunks of a segment when it is sent (core/output.c). */
module FileChecksum {
  import opened OnesComplement
  import opened TcpChecksum

  const TWO_32 := 0x1_0000_0000

  /** Where chunk `k` of `n` bytes begins. */
  function Cut(n: nat, size: nat, k: nat): (c: nat)
    ensures c <= n
  {
    if k * size < n then k * size else n
  }

  function Chunks(n: nat, size: nat): nat
    requires size > 0
  {
    n / size + if n % size != 0 then 1 else 0
  }

  ghost predicate ChunkSize(size: nat) { 0 < size && size % 2 == 0 }

  lemma {:induction false} CutMoves(n: nat, size: nat, k: nat)
    ensures Cut(n, size, k) <= Cut(n, size, k + 1) <= Cut(n, size, k) + size
    ensures Cut(n, size, k) < n ==> Cut(n, size, k) == k * size
  {
    assert (k + 1) * size == k * size + size;
  }

  lemma EvenTimes(k: nat, size: nat)
    requires size % 2 == 0
    ensures (k * size) % 2 == 0
  {
    assert k * size == 2 * (k * (size / 2)) by {
      assert size == 2 * (size / 2);
    }
  }

  lemma Quotient(q: nat, r: nat, size: nat)
    requires r < size
    ensures (q * size + r) / size == q && (q * size + r) % size == r
  {
    var x := q * size + r;
    assert x == (x / size) * size + x % size;
    var d := x / size - q;
    assert d * size == r - x % size;
    Multiples(d, size);
  }

  lemma Multiples(d: int, size: nat)
    ensures d >= 1 ==> d * size >= size
    ensures d <= -1 ==> d * size + size <= 0
  {
  }

  /** The build step closes a chunk exactly at its last byte or at the last byte of the file. */
  lemma ClosesAtCut(i: nat, n: nat, size: nat, k: nat)
    requires k * size <= i < (k + 1) * size && i < n && size > 0
    ensures (i % size == size - 1 || i == n - 1) <==> i + 1 == Cut(n, size, k + 1)
    ensures i % size == size - 1 || i == n - 1 ==> i + 1 == n || ((k + 1) * size <= i + 1 < (k + 1 + 1) * size)
    ensures !(i % size == size - 1 || i == n - 1) ==> i + 1 < n && i + 1 < (k + 1) * size
  {
    assert (k + 1) * size == k * size + size && (k + 1 + 1) * size == k * size + size + size;
    Quotient(k, i - k * size, size);
  }

  lemma ChunksAtEnd(i: nat, size: nat, k: nat)
    requires k * size <= i < (k + 1) * size && size > 0
    ensures Chunks(i + 1, size) == k + 1
  {
    assert (k + 1) * size == k * size + size;
    if i + 1 == (k + 1) * size {
      Quotient(k + 1, 0, size);
    } else {
      Quotient(k, i + 1 - k * size, size);
    }
  }

  lemma {:induction false} SumBound(b: Bytes)
    requires AreBytes(b)
    ensures 0 <= Sum(b, false) <= 65535 * ((|b| + 1) / 2)
    decreases |b|
  {
    if |b| >= 2 {
      assert Sum(b, false) == 256 * b[0] + Sum(b[1..], true);
      assert b[1..][1..] == b[2..];
      assert Sum(b[1..], true) == b[1] + Sum(b[2..], false);
      SumBound(b[2..]);
    } else if |b| == 1 {
      assert b[1..] == [];
      assert Sum(b[1..], true) == 0;
    }
  }

  lemma SumOne(b: Bytes, odd: bool)
    requires |b| == 1
    ensures Sum(b, odd) == Weight(odd) * b[0]
  {
    assert b[1..] == [];
  }

  /** One more byte at the end of a run that starts at an even position. */
  lemma SumNext(d: Bytes, from: nat, i: nat)
    requires from <= i < |d| && from % 2 == 0
    ensures Sum(d[from..i + 1], false) == Sum(d[from..i], false) + Weight(i % 2 == 1) * d[i]
  {
    assert d[from..i + 1] == d[from..i] + [d[i]];
    SumSplit(d[from..i], [d[i]], false);
    SumOne([d[i]], i % 2 == 1);
    hide Sum;
  }

  // ----- tools/GenApps.py -----

  /** The build step's end-around carry: it goes on while one of the bits 16 to 31 is set. */
  function FoldLoop(n: nat): nat {
    if (n / 65536) % 65536 == 0 then n else FoldLoop(n % 65536 + n / 65536)
  }

  lemma FoldStep(n: nat)
    ensures FoldLoop(n) == if (n / 65536) % 65536 == 0 then n else FoldLoop(n % 65536 + n / 65536)
  {
  }

  method FoldLow(n: nat) returns (r: nat)
    ensures r == FoldLoop(n)
  {
    hide FoldLoop;
    r := n;
    while (r / 65536) % 65536 != 0
      invariant FoldLoop(r) == FoldLoop(n)
      decreases r
    {
      FoldStep(r);
      r := r % 65536 + r / 65536;
    }
    FoldStep(r);
  }

  /** Below 2^32 it folds completely. */
  lemma {:induction false} FoldsBelow(n: nat)
    requires n < TWO_32
    ensures FoldLoop(n) == Norm(n)
  {
    HighHalf(n);
    if n >= 65536 {
      hide Norm;
      var m := n % 65536 + n / 65536;
      SameByShift(m, n, n / 65536);
      FoldsBelow(m);
    } else {
      NormOfSmall(n);
    }
  }

  lemma HighHalf(n: nat)
    requires n < TWO_32
    ensures (n / 65536) % 65536 == n / 65536 && n == 65536 * (n / 65536) + n % 65536
    ensures n / 65536 == 0 <==> n < 65536
  {
  }

  lemma NormOfSmall(n: nat)
    requires n < 65536
    ensures Norm(n) == n
  {
  }

  /** The sum of chunk `k` of a file. */
  ghost function ChunkValue(data: Bytes, size: nat, k: nat): (s: nat)
    requires AreBytes(data)
    ensures Cut(|data|, size, k) <= Cut(|data|, size, k + 1)
    ensures s == Sum(data[Cut(|data|, size, k)..Cut(|data|, size, k + 1)], false)
  {
    CutMoves(|data|, size, k);
    SumBound(data[Cut(|data|, size, k)..Cut(|data|, size, k + 1)]);
    Sum(data[Cut(|data|, size, k)..Cut(|data|, size, k + 1)], false)
  }

  ghost predicate ChunksAreFolded(data: Bytes, size: nat, chk: seq<int>)
    requires AreBytes(data)
  {
    forall k :: 0 <= k < |chk| ==> chk[k] == FoldLoop(ChunkValue(data, size, k))
  }

  /** `chkSumList`: the folded sum of every chunk, for every file and every even chunk size. */
  method ChunkSums(data: Bytes, size: nat) returns (chkSumList: seq<int>)
    requires AreBytes(data) && ChunkSize(size)
    ensures |chkSumList| == Chunks(|data|, size)
    ensures ChunksAreFolded(data, size, chkSumList)
  {
    hide Sum, FoldLoop, ChunkValue;
    var chkSum: nat := 0;
    chkSumList := [];
    assert Chunks(0, size) == 0 by { Quotient(0, 0, size); }
    NoSum(data, 0);
    for i := 0 to |data|
      invariant i == |data| ==> |chkSumList| == Chunks(|data|, size)
      invariant i < |data| ==> |chkSumList| * size <= i < (|chkSumList| + 1) * size
      invariant i < |data| ==> chkSum == Sum(data[|chkSumList| * size..i], false)
      invariant ChunksAreFolded(data, size, chkSumList)
    {
      ghost var k := |chkSumList|;
      EvenTimes(k, size);
      SumNext(data, k * size, i);
      if i % 2 == 0 { chkSum := chkSum + data[i] * 256; } else { chkSum := chkSum + data[i]; }
      ClosesAtCut(i, |data|, size, k);
      if i % size == size - 1 || i == |data| - 1 {
        assert Cut(|data|, size, k) == k * size;
        assert (k + 1) * size == k * size + size;
        assert chkSum == ChunkValue(data, size, k);
        chkSum := FoldLow(chkSum);
        chkSumList := chkSumList + [chkSum];
        chkSum := 0;
        ChunksAtEnd(i, size, k);
        NoSum(data, i + 1);
        if i + 1 < |data| {
          assert i + 1 == (k + 1) * size;
        }
      }
    }
  }

  lemma NoSum(d: Bytes, i: nat)
    requires i <= |d|
    ensures Sum(d[i..i], false) == 0
  {
  }

  /** What the server needs of the table. */
  ghost predicate ChunksAreSummed(data: Bytes, size: nat, chk: seq<int>)
    requires AreBytes(data)
  {
    forall k :: 0 <= k < |chk| ==> chk[k] == Norm(ChunkValue(data, size, k))
  }

  ghost predicate FoldsInto(data: Bytes, size: nat, k: nat)
    requires AreBytes(data)
  {
    FoldLoop(ChunkValue(data, size, k)) == Norm(ChunkValue(data, size, k))
  }

  /** Every chunk of every file is stored as the one's-complement number of its sum. */
  ghost predicate AlwaysFolds(size: nat) {
    forall data: Bytes, k: nat :: AreBytes(data) ==> FoldsInto(data, size, k)
  }

  lemma ChunkFolds(data: Bytes, size: nat, k: nat)
    requires AreBytes(data) && size <= 131074
    ensures FoldsInto(data, size, k)
  {
    CutMoves(|data|, size, k);
    SumBound(data[Cut(|data|, size, k)..Cut(|data|, size, k + 1)]);
    hide Sum, FoldLoop, Norm, Cut, ChunkValue;
    FoldsBelow(ChunkValue(data, size, k));
  }

  /** n words 0xFFFF. */
  function FullWords(n: nat): (b: Bytes)
    ensures |b| == 2 * n && AreBytes(b)
  {
    if n == 0 then [] else [255, 255] + FullWords(n - 1)
  }

  lemma {:induction false} FullWordsSum(n: nat)
    ensures Sum(FullWords(n), false) == 65535 * n
  {
    if n > 0 {
      var b := FullWords(n);
      FullWordsSum(n - 1);
      assert b[1..][1..] == FullWords(n - 1);
      assert Sum(b, false) == 256 * 255 + Sum(b[1..], true);
      assert Sum(b[1..], true) == 255 + Sum(b[1..][1..], false);
    }
  }

  lemma WordsAndOne(n: nat)
    ensures var d := FullWords(n) + [0, 1]; AreBytes(d) && |d| == 2 * n + 2 && Sum(d, false) == 65535 * n + 1
  {
    FullWordsSum(n);
    SmallWord();
    hide FullWords, Sum;
    SumSplit(FullWords(n), [0, 1], false);
  }

  /** 65537 words 0xFFFF and a word 1. */
  function Overflowing(): Bytes { FullWords(65537) + [0, 1] }

  lemma OverflowingSum()
    ensures AreBytes(Overflowing()) && |Overflowing()| == 131076 && Sum(Overflowing(), false) == TWO_32
  {
    hide FullWords, Sum;
    WordsAndOne(65537);
  }

  lemma SmallWord()
    ensures Sum([0, 1], false) == 1
  {
    assert [0, 1][1..] == [1] && [1][1..] == [];
  }

  lemma OverflowingStays(size: nat)
    requires size >= 131076
    ensures AreBytes(Overflowing()) && !FoldsInto(Overflowing(), size, 0)
  {
    OverflowingSum();
    hide Overflowing, Sum;
    var d := Overflowing();
    assert Cut(|d|, size, 0) == 0 && Cut(|d|, size, 1) == |d|;
    assert d[0..|d|] == d;
    assert ChunkValue(d, size, 0) == TWO_32;
  }

  /** The bits the folding loop looks at are enough exactly for chunks of at most 131074 bytes; for powers of two,
      of at most 131072. */
  lemma FoldsIffSmall(size: nat)
    requires ChunkSize(size)
    ensures AlwaysFolds(size) <==> size <= 131074
  {
    if size <= 131074 {
      forall data: Bytes, k: nat | AreBytes(data) ensures FoldsInto(data, size, k) {
        ChunkFolds(data, size, k);
      }
    } else {
      OverflowingStays(size);
    }
  }

  /** So the table is what the server needs. */
  lemma TableIsSummed(data: Bytes, size: nat, chk: seq<int>)
    requires AreBytes(data) && ChunkSize(size) && size <= 131074 && ChunksAreFolded(data, size, chk)
    ensures ChunksAreSummed(data, size, chk)
  {
    forall k | 0 <= k < |chk| ensures chk[k] == Norm(ChunkValue(data, size, k)) {
      ChunkFolds(data, size, k);
    }
  }

  // ----- core/output.c -----

  /** A segment of a file: it starts on a chunk and ends on one or at the end of the file. */
  ghost predicate Aligned(data: Bytes, size: nat, index: nat, length: nat)
    requires size > 0
  {
    && index % size == 0
    && index + length <= |data|
    && (length % size == 0 || index + length == |data|)
  }

  lemma SegmentIsChunks(n: nat, size: nat, index: nat, length: nat)
    requires size > 0 && index % size == 0 && index + length <= n
    requires length % size == 0 || index + length == n
    ensures var q := index / size;
            && q + Chunks(length, size) <= Chunks(n, size)
            && (length > 0 ==> Cut(n, size, q) == index)
            && Cut(n, size, q + Chunks(length, size)) == index + length
            && (length == 0 ==> Chunks(length, size) == 0)
  {
    var q, m, r := index / size, length / size, length % size;
    assert index == q * size;
    assert length == m * size + r;
    assert Chunks(length, size) == m + if r == 0 then 0 else 1;
    if length == 0 { Quotient(0, 0, size); }
    SegmentEnds(n, size, q, m, r);
    hide Chunks;
  }

  lemma SegmentEnds(n: nat, size: nat, q: nat, m: nat, r: nat)
    requires r < size && q * size + m * size + r <= n && (r == 0 || q * size + m * size + r == n)
    ensures q + m + (if r == 0 then 0 else 1) <= Chunks(n, size)
    ensures Cut(n, size, q + m + (if r == 0 then 0 else 1)) == q * size + m * size + r
  {
    assert (q + m) * size == q * size + m * size;
    assert (q + m + 1) * size == (q + m) * size + size;
    if r != 0 {
      Quotient(q + m, r, size);
    } else {
      MonotoneChunks(n, size, q + m);
    }
  }

  lemma MonotoneChunks(n: nat, size: nat, k: nat)
    requires size > 0 && k * size <= n
    ensures k <= Chunks(n, size)
  {
    var d := n / size;
    assert n == d * size + n % size;
    assert (k - d) * size == k * size - d * size;
    Multiples(k - d, size);
  }

  lemma ChunksBound(length: nat, size: nat)
    requires size >= 2 && length < 65536
    ensures Chunks(length, size) <= 32768
  {
    assert length == (length / size) * size + length % size;
    assert (length / size) * size >= (length / size) * 2;
  }

  /** Two adjacent runs, the second at an even position. */
  lemma SumOfRuns(d: Bytes, from: nat, a: nat, b: nat)
    requires from <= a <= b <= |d| && (a - from) % 2 == 0
    ensures Sum(d[from..b], false) == Sum(d[from..a], false) + Sum(d[a..b], false)
  {
    assert d[from..b] == d[from..a] + d[a..b];
    SumSplit(d[from..a], d[a..b], false);
  }

  lemma EvenCut(n: nat, size: nat, k: nat)
    requires size % 2 == 0 && Cut(n, size, k) < n
    ensures Cut(n, size, k) % 2 == 0
  {
    EvenTimes(k, size);
  }

  /** `type_file`: the words of the table over the blocks of the segment, added in 32 bits. For every aligned
      segment nothing is lost, and the total is the one's-complement sum of the segment's bytes. */
  method SumBlocks(ghost data: Bytes, chk: seq<int>, size: nat, index: nat, length: nat) returns (sum: nat)
    requires AreBytes(data) && ChunkSize(size) && Aligned(data, size, index, length) && length < 65536
    requires |chk| == Chunks(|data|, size) && ChunksAreSummed(data, size, chk)
    ensures sum < TWO_32 && Sum(data[index..index + length], false) >= 0
    ensures Same(sum, Sum(data[index..index + length], false))
  {
    SegmentIsChunks(|data|, size, index, length);
    ChunksBound(length, size);
    EvenTimes(index / size, size);
    NoSum(data, index);
    hide Sum, Norm, Same, Cut;
    sum := SumWords(data, chk, size, index, index / size, Chunks(length, size));
    hide Chunks;
    SameRefl(0);
  }

  /** The loop itself: `count` words from word `first` on. */
  method SumWords(ghost data: Bytes, chk: seq<int>, ghost size: nat, ghost index: nat, first: nat, count: nat)
    returns (sum: nat)
    requires AreBytes(data) && ChunkSize(size) && |chk| == Chunks(|data|, size) && ChunksAreSummed(data, size, chk)
    requires first + count <= |chk| && count <= 32768 && index % 2 == 0
    requires count > 0 ==> Cut(|data|, size, first) == index
    ensures sum < TWO_32 && (count == 0 ==> sum == 0)
    ensures count > 0 ==> index <= Cut(|data|, size, first + count)
    ensures count > 0 ==> var s := Sum(data[index..Cut(|data|, size, first + count)], false); s >= 0 && Same(sum, s)
  {
    hide Sum, Norm, Same, Cut, Chunks, ChunkSize, AreBytes, ChunksAreSummed;
    sum := 0;
    ghost var total: nat := 0;
    SameRefl(0);
    if count > 0 { NoSum(data, index); }
    for i := 0 to count
      invariant sum <= i * 65535 && Same(sum, total)
      invariant count > 0 ==> index <= Cut(|data|, size, first + i)
      invariant count > 0 ==> total == Sum(data[index..Cut(|data|, size, first + i)], false)
      invariant count == 0 ==> sum == 0
    {
      ghost var s := NextChunk(data, chk, size, index, first + i);
      SameRefl(sum + chk[first + i]);
      AccumulateSame(sum + chk[first + i], sum, total, chk[first + i], s);
      sum := (sum + chk[first + i]) % TWO_32;
      total := total + s;
    }
  }

  lemma EntryIs(data: Bytes, chk: seq<int>, size: nat, k: nat)
    requires AreBytes(data) && ChunksAreSummed(data, size, chk) && k < |chk|
    ensures 0 <= chk[k] < 65536 && Same(chk[k], ChunkValue(data, size, k))
  {
    hide ChunkValue;
    NormIsSame(ChunkValue(data, size, k));
  }

  /** What one table entry stands for. */
  lemma NextChunk(data: Bytes, chk: seq<int>, size: nat, index: nat, k: nat) returns (s: nat)
    requires AreBytes(data) && ChunkSize(size) && |chk| == Chunks(|data|, size) && ChunksAreSummed(data, size, chk) && k < |chk|
    requires index <= Cut(|data|, size, k) && index % 2 == 0
    ensures 0 <= chk[k] < 65536 && Same(chk[k], s)
    ensures Cut(|data|, size, k) <= Cut(|data|, size, k + 1)
    ensures Sum(data[index..Cut(|data|, size, k + 1)], false) == Sum(data[index..Cut(|data|, size, k)], false) + s
  {
    hide Sum, Norm, Same, Cut, ChunkValue, ChunksAreSummed;
    InsideFile(|data|, size, k);
    EvenCut(|data|, size, k);
    s := ChunkValue(data, size, k);
    EntryIs(data, chk, size, k);
    hide Chunks;
    SumOfRuns(data, index, Cut(|data|, size, k), Cut(|data|, size, k + 1));
  }

  lemma InsideFile(n: nat, size: nat, k: nat)
    requires size > 0 && k < Chunks(n, size)
    ensures Cut(n, size, k) < n
  {
    var d := n / size;
    assert n == d * size + n % size;
    assert (k - d) * size == k * size - d * size;
    Multiples(k - d, size);
  }

  function Be32(n: nat): (b: Bytes)
    requires n < TWO_32
    ensures |b| == 4 && AreBytes(b)
  {
    [n / 65536 / 256, n / 65536 % 256, n % 65536 / 256, n % 65536 % 256]
  }

  lemma TwoBytes(n: nat)
    ensures n == 256 * (n / 256) + n % 256
  {
  }

  lemma Be32IsSame(n: nat)
    requires n < TWO_32
    ensures Sum(Be32(n), false) >= 0 && Same(Sum(Be32(n), false), n)
  {
    SumOfFour(Be32(n));
    var high, low := n / 65536, n % 65536;
    TwoBytes(high);
    TwoBytes(low);
    hide Be32, Sum, Norm;
    SameByShift(high + low, n, high);
  }

  /** The checksum field of a file segment: for every file, every even chunk size and every aligned segment it is
      the RFC 1071 checksum of pseudo header, TCP header and the segment's bytes. */
  method FileSegmentChecksum(h: Header, ghost data: Bytes, chk: seq<int>, size: nat, index: nat, length: nat)
    returns (checksum: int)
    requires HeaderOk(h) && AreBytes(data) && ChunkSize(size) && Aligned(data, size, index, length)
    requires length + TCP_HEADER_SIZE < 65536
    requires |chk| == Chunks(|data|, size) && ChunksAreSummed(data, size, chk)
    ensures var bytes := Covered(h, data[index..index + length]); Words(bytes) >= 0 && checksum == Rfc1071(bytes)
  {
    ghost var payload := data[index..index + length];
    ghost var bytes := Covered(h, payload);
    CoveredSum(h, payload);
    SumIsWords(bytes);
    hide Norm, Same, Sum, Covered, Words, Fold, Be32, Chunks, ChunksAreSummed, FixedSum;
    var c, total := AddHeader(h, length);
    ghost var v := c.Value();
    var sum := SumBlocks(data, chk, size, index, length);
    Be32IsSame(sum);
    c.Add32(Be32(sum));
    AccumulateSame(c.Value(), v, total, Sum(Be32(sum), false), sum);
    SameTrans(c.Value(), total, sum, Sum(payload, false));
    checksum := Finish(c, total + Sum(payload, false));
  }

  lemma SameTrans(a: nat, total: nat, x: nat, y: nat)
    requires Same(a, total + x) && Same(x, y)
    ensures Same(a, total + y)
  {
    SameAdd(x, y, total);
  }
}
