/** The allocator of core/memory.c: first fit over one array, with the free list inside the free words. */
module Memory {
  import opened Options
  import opened FreeList

  /** Bytes to 32-bit words, in 16-bit arithmetic. */
  function Units(size: nat): nat {
    (if size % 4 > 0 then (size + 4) % 65536 else size % 65536) / 4
  }

  /** The rounding is the ceiling up to 65532 bytes; above, it wraps to nothing. */
  lemma UnitsIsCeiling(size: nat)
    requires size < 65536
    ensures Units(size) == if size <= 65532 then (size + 3) / 4 else 0
  {
  }

  // ----- header updates on the words -----

  /** What `mem_alloc` writes when it takes k words from block j. */
  function TakeHeaders(words: seq<Word>, blocks: seq<Block>, n: nat, j: nat, k: nat): seq<Word>
    requires j < |blocks| && Chained(words, blocks, n) && Canonical(blocks, n) && 0 < k <= blocks[j].size
  {
    assert Linked(words, blocks, n, j);
    var here := words[blocks[j].start];
    var step := if here.size == k then here.toNext else k;
    var w := if j == 0 then words else
      assert Linked(words, blocks, n, j - 1);
      var prev := words[blocks[j - 1].start];
      words[blocks[j - 1].start := prev.(toNext := prev.toNext + step)];
    if here.size == k then w
    else w[blocks[j].start + k := Word(here.size - k, here.toNext - k)]
  }

  lemma TakeHeadersChained(words: seq<Word>, blocks: seq<Block>, n: nat, j: nat, k: nat)
    requires j < |blocks| && Chained(words, blocks, n) && Canonical(blocks, n) && 0 < k <= blocks[j].size
    ensures Chained(TakeHeaders(words, blocks, n, j, k), Take(blocks, j, k), n)
  {
    assert Linked(words, blocks, n, j);
    if blocks[j].size == k { TakesWhole(words, blocks, n, j, k); } else { TakesPart(words, blocks, n, j, k); }
  }

  /** The block goes: only the link over it changes. */
  lemma TakesWhole(words: seq<Word>, blocks: seq<Block>, n: nat, j: nat, k: nat)
    requires j < |blocks| && Chained(words, blocks, n) && Canonical(blocks, n) && 0 < k == blocks[j].size
    ensures Chained(TakeHeaders(words, blocks, n, j, k), Take(blocks, j, k), n)
  {
    var w, t := TakeHeaders(words, blocks, n, j, k), Take(blocks, j, k);
    assert Linked(words, blocks, n, j);
    forall h | 0 <= h < |t| ensures Linked(w, t, n, h) {
      assert Linked(words, blocks, n, if h >= j then h + 1 else h) && t[h] == blocks[if h >= j then h + 1 else h];
    }
  }

  /** The block starts later: its header moves, and the link to it changes. */
  lemma TakesPart(words: seq<Word>, blocks: seq<Block>, n: nat, j: nat, k: nat)
    requires j < |blocks| && Chained(words, blocks, n) && Canonical(blocks, n) && 0 < k < blocks[j].size
    ensures Chained(TakeHeaders(words, blocks, n, j, k), Take(blocks, j, k), n)
  {
    var w, t := TakeHeaders(words, blocks, n, j, k), Take(blocks, j, k);
    assert Linked(words, blocks, n, j);
    forall h | 0 <= h < |t| ensures Linked(w, t, n, h) {
      if h != j { assert Linked(words, blocks, n, h) && t[h] == blocks[h]; }
    }
  }

  /** `chain_free_blocs` on two neighbouring headers. */
  function ChainHeaders(words: seq<Word>, b1: nat, b2: nat): seq<Word>
    requires b1 <= b2 < |words|
  {
    if b1 + words[b1].size == b2
    then words[b1 := Word(words[b1].size + words[b2].size, words[b2].toNext + words[b1].size)]
    else words[b1 := Word(words[b1].size, b2 - b1)]
  }

  /** Chaining block b to block c, which is linked to `end`, leaves the one or two blocks `Join` says, linked to each
      other and to `end`; no other word changes. */
  lemma ChainJoins(words: seq<Word>, b: Block, c: Block, end: nat)
    requires 0 < b.size && End(b) <= c.start < |words| && words[b.start].size == b.size && Linked(words, [c], end, 0)
    ensures var w, t := ChainHeaders(words, b.start, c.start), Join(b, c);
            && |w| == |words| && (forall h :: 0 <= h < |t| ==> Linked(w, t, end, h))
            && (forall i :: 0 <= i < |w| && i != b.start ==> w[i] == words[i])
  {
    var t := Join(b, c);
    assert Start([c], 1, end) == end;
    assert Start(t, |t|, end) == end;
    if |t| == 2 { assert Start(t, 1, end) == c.start; }
  }

  /** The first half of `mem_free`: write the header of b, chain it to block j. */
  function GiveNextHeaders(words: seq<Word>, blocks: seq<Block>, n: nat, j: nat, b: Block): seq<Word>
    requires FitsGap(blocks, n, j, b) && Chained(words, blocks, n)
  {
    var w := words[b.start := Word(b.size, Start(blocks, j, n) - b.start)];
    if j < |blocks| then ChainHeaders(w, b.start, blocks[j].start) else w
  }

  /** All of `mem_free`: chain the block before, too. */
  function GiveHeaders(words: seq<Word>, blocks: seq<Block>, n: nat, j: nat, b: Block): seq<Word>
    requires FitsGap(blocks, n, j, b) && Chained(words, blocks, n)
  {
    var w := GiveNextHeaders(words, blocks, n, j, b);
    if j > 0 then ChainHeaders(w, blocks[j - 1].start, b.start) else w
  }

  /** A block that keeps its header and its successor stays linked. */
  lemma StaysLinked(words: seq<Word>, blocks: seq<Block>, h: nat, w: seq<Word>, t: seq<Block>, h': nat, n: nat)
    requires h < |blocks| && h' < |t| && t[h'] == blocks[h] && Start(t, h' + 1, n) == Start(blocks, h + 1, n)
    requires Linked(words, blocks, n, h) && |w| == |words| && w[blocks[h].start] == words[blocks[h].start]
    ensures Linked(w, t, n, h')
  {
  }

  /** All headers are right but possibly the one of block e. */
  ghost predicate ChainedBut(w: seq<Word>, t: seq<Block>, n: nat, e: int) {
    && |w| == n + 1 && w[n] == Word(0, 0)
    && (forall h {:trigger Linked(w, t, n, h)} :: 0 <= h < |t| && h != e ==> Linked(w, t, n, h))
  }

  lemma GapStarts(blocks: seq<Block>, n: nat, j: nat, b: Block, h: nat)
    requires FitsGap(blocks, n, j, b) && h < |blocks|
    ensures blocks[h].start != b.start && blocks[h].start < n && b.start < n
  {
  }

  lemma GiveTouching(words: seq<Word>, blocks: seq<Block>, n: nat, j: nat, b: Block)
    requires FitsGap(blocks, n, j, b) && Chained(words, blocks, n) && j < |blocks| && End(b) == blocks[j].start
    ensures ChainedBut(GiveNextHeaders(words, blocks, n, j, b), JoinNext(blocks, j, b), n, j - 1)
    ensures forall i :: 0 <= i <= n && i != b.start ==> GiveNextHeaders(words, blocks, n, j, b)[i] == words[i]
  {
    var w, t := GiveNextHeaders(words, blocks, n, j, b), blocks[j := Block(b.start, b.size + blocks[j].size)];
    TouchingHeader(words, blocks, n, j, b);
    GapStarts(blocks, n, j, b, j);
    hide JoinNext, GiveNextHeaders, Canonical;
    forall h | 0 <= h < |t| && h != j - 1 ensures Linked(w, t, n, h) {
      assert Linked(words, blocks, n, h);
      if h != j {
        GapStarts(blocks, n, j, b, h);
        StaysLinked(words, blocks, h, w, t, h, n);
      }
    }
  }

  lemma TouchingHeader(words: seq<Word>, blocks: seq<Block>, n: nat, j: nat, b: Block)
    requires FitsGap(blocks, n, j, b) && Chained(words, blocks, n) && j < |blocks| && End(b) == blocks[j].start
    ensures JoinNext(blocks, j, b) == blocks[j := Block(b.start, b.size + blocks[j].size)]
    ensures Start(blocks, j + 1, n) >= b.start
    ensures GiveNextHeaders(words, blocks, n, j, b) == words[b.start := Word(b.size + blocks[j].size, Start(blocks, j + 1, n) - b.start)]
  {
    assert Linked(words, blocks, n, j);
  }

  lemma GiveApart(words: seq<Word>, blocks: seq<Block>, n: nat, j: nat, b: Block)
    requires FitsGap(blocks, n, j, b) && Chained(words, blocks, n) && (j < |blocks| ==> End(b) != blocks[j].start)
    ensures ChainedBut(GiveNextHeaders(words, blocks, n, j, b), JoinNext(blocks, j, b), n, j - 1)
    ensures forall i :: 0 <= i <= n && i != b.start ==> GiveNextHeaders(words, blocks, n, j, b)[i] == words[i]
  {
    hide Canonical;
    var w, t := words[b.start := Word(b.size, Start(blocks, j, n) - b.start)], blocks[..j] + [b] + blocks[j..];
    assert JoinNext(blocks, j, b) == t;
    if j < |blocks| { GapStarts(blocks, n, j, b, j); }
    assert GiveNextHeaders(words, blocks, n, j, b) == w;
    hide JoinNext, GiveNextHeaders;
    forall h | 0 <= h < |t| && h != j - 1 ensures Linked(w, t, n, h) {
      if h < j {
        assert Linked(words, blocks, n, h);
        GapStarts(blocks, n, j, b, h);
        StaysLinked(words, blocks, h, w, t, h, n);
      } else if h > j {
        assert Linked(words, blocks, n, h - 1);
        GapStarts(blocks, n, j, b, h - 1);
        StaysLinked(words, blocks, h - 1, w, t, h, n);
      }
    }
  }

  /** After the first half every header is right but the one of the block before. */
  lemma GiveNextChained(words: seq<Word>, blocks: seq<Block>, n: nat, j: nat, b: Block)
    requires FitsGap(blocks, n, j, b) && Chained(words, blocks, n)
    ensures var w, t := GiveNextHeaders(words, blocks, n, j, b), JoinNext(blocks, j, b);
            && ChainedBut(w, t, n, j - 1) && j < |t| && t[j].start == b.start
            && (j > 0 ==> t[j - 1] == blocks[j - 1] && w[blocks[j - 1].start] == words[blocks[j - 1].start])
  {
    hide Linked, Chained;
    if j > 0 { GapStarts(blocks, n, j, b, j - 1); }
    if j < |blocks| && End(b) == blocks[j].start { GiveTouching(words, blocks, n, j, b); }
    else { GiveApart(words, blocks, n, j, b); }
    hide GiveNextHeaders, Canonical;
  }

  lemma NearStarts(t: seq<Block>, n: nat, j: nat, h: nat, i: nat)
    requires NearlyCanonical(t, n, j) && h < |t| && i < |t| && h != i
    ensures t[h].start != t[i].start && t[h].start < n && (h < i ==> t[h].start < t[i].start)
  {
    if h < i { assert End(t[h]) <= t[i].start; } else { assert End(t[i]) <= t[h].start; }
  }

  lemma JoinedAt(t: seq<Block>, j: nat, h: nat)
    requires 0 < j < |t| && End(t[j - 1]) == t[j].start && h <= |t| - 1
    ensures var t' := JoinPrev(t, j);
            && |t'| == |t| - 1 && t'[j - 1] == Block(t[j - 1].start, t[j - 1].size + t[j].size)
            && (h < |t'| && h != j - 1 ==> t'[h] == t[if h < j then h else h + 1])
            && (forall n :: Start(t', h, n) == Start(t, if h < j then h else h + 1, n))
  {
  }

  lemma TouchLink(w: seq<Word>, t: seq<Block>, n: nat, j: nat, h: nat)
    requires 0 < j < |t| && ChainedBut(w, t, n, j - 1) && NearlyCanonical(t, n, j)
    requires w[t[j - 1].start].size == t[j - 1].size && End(t[j - 1]) == t[j].start && h < |t| - 1
    ensures t[j - 1].start <= t[j].start < |w| && |JoinPrev(t, j)| == |t| - 1
    ensures Linked(ChainHeaders(w, t[j - 1].start, t[j].start), JoinPrev(t, j), n, h)
  {
    hide NearlyCanonical, JoinPrev;
    NearStarts(t, n, j, j - 1, j);
    assert Linked(w, t, n, j);
    JoinedAt(t, j, h);
    JoinedAt(t, j, h + 1);
    var x := if h < j then h else h + 1;
    if h != j - 1 {
      assert Linked(w, t, n, x);
      NearStarts(t, n, j, x, j - 1);
    }
  }

  lemma ChainTouching(w: seq<Word>, t: seq<Block>, n: nat, j: nat)
    requires 0 < j < |t| && ChainedBut(w, t, n, j - 1) && NearlyCanonical(t, n, j)
    requires w[t[j - 1].start].size == t[j - 1].size && End(t[j - 1]) == t[j].start
    ensures t[j - 1].start <= t[j].start < |w|
    ensures Chained(ChainHeaders(w, t[j - 1].start, t[j].start), JoinPrev(t, j), n)
  {
    hide NearlyCanonical, JoinPrev, Linked;
    TouchLink(w, t, n, j, 0);
    var w', t' := ChainHeaders(w, t[j - 1].start, t[j].start), JoinPrev(t, j);
    forall h | 0 <= h < |t'| ensures Linked(w', t', n, h) { TouchLink(w, t, n, j, h); }
    NearStarts(t, n, j, j - 1, j);
  }

  lemma ChainApart(w: seq<Word>, t: seq<Block>, n: nat, j: nat)
    requires 0 < j < |t| && ChainedBut(w, t, n, j - 1) && NearlyCanonical(t, n, j)
    requires w[t[j - 1].start].size == t[j - 1].size && End(t[j - 1]) != t[j].start
    ensures Chained(ChainHeaders(w, t[j - 1].start, t[j].start), JoinPrev(t, j), n)
  {
    hide NearlyCanonical;
    NearStarts(t, n, j, j - 1, j);
    assert Linked(w, t, n, j);
    var w' := ChainHeaders(w, t[j - 1].start, t[j].start);
    assert JoinPrev(t, j) == t;
    assert w' == w[t[j - 1].start := Word(t[j - 1].size, t[j].start - t[j - 1].start)];
    assert Linked(w', t, n, j - 1);
    hide JoinPrev, ChainHeaders, Linked;
    forall h | 0 <= h < |t| ensures Linked(w', t, n, h) {
      if h != j - 1 {
        assert Linked(w, t, n, h);
        NearStarts(t, n, j, h, j - 1);
        StaysLinked(w, t, h, w', t, h, n);
      }
    }
  }

  lemma GiveHeadersChained(words: seq<Word>, blocks: seq<Block>, n: nat, j: nat, b: Block)
    requires FitsGap(blocks, n, j, b) && Chained(words, blocks, n)
    ensures Chained(GiveHeaders(words, blocks, n, j, b), Give(blocks, j, b), n)
  {
    hide NearlyCanonical, JoinNext, JoinPrev, ChainHeaders, GiveNextHeaders;
    GiveNextChained(words, blocks, n, j, b);
    JoinNextIsNearlyCanonical(blocks, n, j, b);
    var w, t := GiveNextHeaders(words, blocks, n, j, b), JoinNext(blocks, j, b);
    if j > 0 {
      assert Linked(words, blocks, n, j - 1);
      if End(t[j - 1]) == t[j].start { ChainTouching(w, t, n, j); } else { ChainApart(w, t, n, j); }
    } else {
      assert JoinPrev(t, 0) == t by { FirstStays(t); }
    }
  }

  lemma FirstStays(t: seq<Block>)
    requires t != []
    ensures JoinPrev(t, 0) == t
  {
  }

  // ----- live blocks -----

  /** Free words and live blocks partition the n words of the buffer. `live` maps the first word
      of every block handed out and not yet freed to its number of words. */
  ghost predicate Partition(blocks: seq<Block>, live: map<nat, nat>, n: nat) {
    && (forall p :: p in live ==> live[p] > 0 && p + live[p] <= n)
    && (forall p, q :: p in live && q in live && p < q ==> p + live[p] <= q)
    && (forall p, i :: p in live && p <= i < p + live[p] ==> !IsFree(blocks, i))
    && (forall i :: 0 <= i < n && !IsFree(blocks, i) ==> IsLive(live, i))
  }

  ghost predicate IsLive(live: map<nat, nat>, i: int) {
    exists p :: p in live && p <= i < p + live[p]
  }

  /** Somewhere k contiguous words are free. */
  ghost predicate HasRun(blocks: seq<Block>, k: nat) {
    exists i: nat :: FreeRun(blocks, i, k)
  }

  /** p is the lowest word where k contiguous words are free. */
  ghost predicate FirstRun(blocks: seq<Block>, p: nat, k: nat) {
    FreeRun(blocks, p, k) && forall i: nat :: FreeRun(blocks, i, k) ==> p <= i
  }

  lemma FirstFit(blocks: seq<Block>, n: nat, j: nat, k: nat)
    requires Canonical(blocks, n) && k > 0 && j <= |blocks|
    requires forall h :: 0 <= h < j ==> blocks[h].size < k
    ensures j < |blocks| && blocks[j].size >= k ==> FirstRun(blocks, blocks[j].start, k)
    ensures j == |blocks| ==> !HasRun(blocks, k)
  {
    forall i: nat | FreeRun(blocks, i, k) ensures j < |blocks| && blocks[j].start <= i {
      var h := RunInOneBlock(blocks, n, i, k);
    }
    if j < |blocks| && blocks[j].size >= k {
      forall i | blocks[j].start <= i < blocks[j].start + k ensures IsFree(blocks, i) { assert Contains(blocks[j], i); }
    }
  }

  lemma PartitionAfterTake(blocks: seq<Block>, live: map<nat, nat>, n: nat, j: nat, k: nat)
    requires Canonical(blocks, n) && Partition(blocks, live, n) && j < |blocks| && 0 < k <= blocks[j].size
    ensures Partition(Take(blocks, j, k), live[blocks[j].start := k], n)
    ensures blocks[j].start !in live
    ensures forall i :: IsFree(Take(blocks, j, k), i) <==> IsFree(blocks, i) && !(blocks[j].start <= i < blocks[j].start + k)
  {
    var p, t, live' := blocks[j].start, Take(blocks, j, k), live[blocks[j].start := k];
    forall i ensures IsFree(t, i) <==> IsFree(blocks, i) && !(p <= i < p + k) { TakeWords(blocks, n, j, k, i); }
    hide Take;
    forall i | p <= i < p + k ensures IsFree(blocks, i) { assert Contains(blocks[j], i); }
    assert IsFree(blocks, p);
    forall i | 0 <= i < n && !IsFree(t, i) ensures IsLive(live', i) {
      if p <= i < p + k { assert p in live'; }
      else { var q :| q in live && q <= i < q + live[q]; assert q in live'; }
    }
    forall q | q in live && q != p ensures if q < p then q + live[q] <= p else p + k <= q {
      assert !IsFree(blocks, q) && IsFree(blocks, p);
    }
    hide IsFree, Canonical;
  }

  lemma PartitionAfterGive(blocks: seq<Block>, live: map<nat, nat>, n: nat, j: nat, p: nat)
    requires Partition(blocks, live, n) && p in live && FitsGap(blocks, n, j, Block(p, live[p]))
    ensures Partition(Give(blocks, j, Block(p, live[p])), live - {p}, n)
    ensures forall i :: IsFree(Give(blocks, j, Block(p, live[p])), i) <==> IsFree(blocks, i) || p <= i < p + live[p]
  {
    var b := Block(p, live[p]);
    var t, live' := Give(blocks, j, b), live - {p};
    forall i ensures IsFree(t, i) <==> IsFree(blocks, i) || p <= i < p + live[p] {
      GiveWords(blocks, n, j, b, i);
    }
    hide Give, IsFree, Canonical;
    forall i | 0 <= i < n && !IsFree(t, i) ensures IsLive(live', i) {
      var q :| q in live && q <= i < q + live[q];
      assert q in live';
    }
  }

  /** A live block lies in one gap of the free list: the one the walk of `mem_free` stops at. */
  lemma LiveFitsGap(blocks: seq<Block>, live: map<nat, nat>, n: nat, j: nat, p: nat)
    requires Canonical(blocks, n) && Partition(blocks, live, n) && p in live && j <= |blocks|
    requires forall h :: 0 <= h < j ==> blocks[h].start < p
    requires j < |blocks| ==> p <= blocks[j].start
    ensures FitsGap(blocks, n, j, Block(p, live[p]))
  {
    if j > 0 && p < End(blocks[j - 1]) { assert Contains(blocks[j - 1], p); assert IsFree(blocks, p); }
    if j < |blocks| && blocks[j].start < p + live[p] {
      assert Contains(blocks[j], blocks[j].start);
      assert IsFree(blocks, blocks[j].start);
    }
  }

  /** The first free block after a free. */
  lemma GiveStart(blocks: seq<Block>, n: nat, j: nat, b: Block)
    requires FitsGap(blocks, n, j, b)
    ensures Start(Give(blocks, j, b), 0, n) == if j == 0 then b.start else Start(blocks, 0, n)
  {
    var t := JoinNext(blocks, j, b);
    assert t[j].start == b.start;
    assert j > 0 ==> t[0] == blocks[0];
  }

  lemma LargestRun(blocks: seq<Block>, n: nat, max: nat, best: nat, k: nat)
    requires Canonical(blocks, n) && k > 0
    requires forall h :: 0 <= h < |blocks| ==> blocks[h].size <= max
    requires max > 0 ==> best < |blocks| && blocks[best].size == max
    ensures k <= max <==> HasRun(blocks, k)
  {
    if k <= max {
      var i := blocks[best].start;
      forall h | i <= h < i + k ensures IsFree(blocks, h) { assert Contains(blocks[best], h); }
      assert FreeRun(blocks, i, k);
    }
    if HasRun(blocks, k) {
      var i: nat :| FreeRun(blocks, i, k);
      var j := RunInOneBlock(blocks, n, i, k);
    }
  }

  /** `mem_free` writes into the freed block and into the free block before it only. */
  lemma GiveHeadersFrame(words: seq<Word>, blocks: seq<Block>, n: nat, j: nat, b: Block)
    requires FitsGap(blocks, n, j, b) && Chained(words, blocks, n)
    ensures var w := GiveHeaders(words, blocks, n, j, b);
            |w| == |words| && forall i :: 0 <= i <= n && !IsFree(blocks, i) && !Contains(b, i) ==> w[i] == words[i]
  {
    if j > 0 {
      assert Contains(blocks[j - 1], blocks[j - 1].start);
      assert IsFree(blocks, blocks[j - 1].start);
    }
    assert Contains(b, b.start);
    hide Canonical, Chained;
  }

  lemma TakeHeadersFrame(words: seq<Word>, blocks: seq<Block>, n: nat, j: nat, k: nat)
    requires j < |blocks| && Chained(words, blocks, n) && Canonical(blocks, n) && 0 < k <= blocks[j].size
    ensures var w := TakeHeaders(words, blocks, n, j, k);
            |w| == |words| && forall i :: 0 <= i <= n && !IsFree(blocks, i) ==> w[i] == words[i]
  {
    assert Linked(words, blocks, n, j);
    if j > 0 {
      assert Contains(blocks[j - 1], blocks[j - 1].start);
      assert IsFree(blocks, blocks[j - 1].start);
    }
    if k < blocks[j].size {
      assert Contains(blocks[j], blocks[j].start + k);
      assert IsFree(blocks, blocks[j].start + k);
    }
  }

  class Heap {
    /** `ALLOC_SIZE / 4`: the number of words besides the sentinel. */
    const n: nat
    /** `alloc_buffer`. */
    const words: array<Word>
    /** `first_free`, as a word index. */
    var firstFree: nat
    ghost var blocks: seq<Block>
    ghost var live: map<nat, nat>

    ghost predicate Valid()
      reads this, words
    {
      && 0 < n < 65536 && words.Length == n + 1
      && Canonical(blocks, n) && Chained(words[..], blocks, n)
      && firstFree == Start(blocks, 0, n)
      && Partition(blocks, live, n)
    }

    /** `mem_reset` on a zeroed buffer. */
    constructor (n: nat)
      requires 0 < n < 65536
      ensures Valid() && this.n == n && blocks == [Block(0, n)] && live == map[] && fresh(words)
    {
      this.n := n;
      words := new Word[n + 1](_ => Word(0, 0));
      firstFree, blocks, live := 0, [Block(0, n)], map[];
      new;
      words[0] := Word(n, n);
      assert Linked(words[..], blocks, n, 0);
      forall i | 0 <= i < n ensures IsFree(blocks, i) { assert Contains(blocks[0], i); }
    }

    /** The walk of `mem_alloc`: the first block of at least k words, and the block before it. */
    method FindFit(k: nat) returns (prev: Option<nat>, curr: nat, ghost j: nat)
      requires Valid()
      ensures j <= |blocks| && curr == Start(blocks, j, n) && words[curr].size == if j < |blocks| then blocks[j].size else 0
      ensures k == 0 ==> j == 0
      ensures prev == if j == 0 then None else Some(blocks[j - 1].start)
      ensures forall h :: 0 <= h < j ==> blocks[h].size < k
      ensures j < |blocks| ==> blocks[j].size >= k
    {
      prev, curr, j := None, firstFree, 0;
      while words[curr].size != 0 && words[curr].size < k
        invariant j <= |blocks| && curr == Start(blocks, j, n) <= n
        invariant prev == if j == 0 then None else Some(blocks[j - 1].start)
        invariant forall h :: 0 <= h < j ==> blocks[h].size < k
        invariant k == 0 ==> j == 0
        decreases |blocks| - j
      {
        assert j < |blocks|;
        assert Linked(words[..], blocks, n, j);
        prev, curr, j := Some(curr), curr + words[curr].toNext, j + 1;
      }
      if j < |blocks| { assert Linked(words[..], blocks, n, j); }
    }

    /** The header updates of `mem_alloc` once a block is found. A request of no words stops at the first
        block, or at the sentinel, and rewrites it as it was. */
    method TakeFrom(prev: Option<nat>, curr: nat, k: nat, ghost j: nat)
      requires Valid() && if k == 0 then j == 0 else j < |blocks| && k <= blocks[j].size
      requires curr == Start(blocks, j, n) && prev == if j == 0 then None else Some(blocks[j - 1].start)
      modifies this`firstFree, words
      ensures k == 0 ==> words[..] == old(words[..]) && firstFree == old(firstFree)
      ensures k > 0 ==> words[..] == TakeHeaders(old(words[..]), blocks, n, j, k)
      ensures k > 0 ==> firstFree == Start(Take(blocks, j, k), 0, n)
    {
      if j < |blocks| { assert Linked(words[..], blocks, n, j); }
      if j > 0 { assert Linked(words[..], blocks, n, j - 1); }
      hide Partition;
      if words[curr].size == k {
        if prev == None { firstFree := curr + words[curr].toNext; }
        else { words[prev.value] := words[prev.value].(toNext := words[prev.value].toNext + words[curr].toNext); }
      } else {
        var next := curr + k;
        if prev == None { firstFree := next; }
        else { words[prev.value] := words[prev.value].(toNext := words[prev.value].toNext + k); }
        words[next] := Word(words[curr].size - k, words[curr].toNext - k);
      }
    }

    /** `mem_alloc`. A request of k words succeeds exactly if k contiguous free words exist, and then takes
        the lowest such run. No word of a live block is written. */
    method Alloc(size: nat) returns (p: Option<nat>)
      requires Valid() && size < 65536
      modifies this, words
      ensures Valid()
      ensures var k := Units(size);
              if k == 0 || p == None then
                && firstFree == old(firstFree) && blocks == old(blocks) && live == old(live) && words[..] == old(words[..])
                && if k == 0 then p == Some(firstFree) else !HasRun(blocks, k)
              else
                && FirstRun(old(blocks), p.value, k) && p.value !in old(live) && live == old(live)[p.value := k]
                && (forall i :: IsFree(blocks, i) <==> IsFree(old(blocks), i) && !(p.value <= i < p.value + k))
      ensures forall i :: 0 <= i <= n && !IsFree(old(blocks), i) ==> words[i] == old(words[i])
    {
      var k := Units(size);
      hide Units, TakeHeaders, Partition, IsFree, FreeRun, HasRun, Take, Chained;
      var prev, curr, j := FindFit(k);
      if k > 0 { FirstFit(blocks, n, j, k); }
      if words[curr].size < k { return None; }
      p := Some(curr);
      ghost var w0 := words[..];
      TakeFrom(prev, curr, k, j);
      if k == 0 { return; }
      TakeHeadersChained(w0, blocks, n, j, k);
      TakeHeadersFrame(w0, blocks, n, j, k);
      TakeIsCanonical(blocks, n, j, k);
      PartitionAfterTake(blocks, live, n, j, k);
      blocks, live := Take(blocks, j, k), live[curr := k];
    }

    /** `chain_free_blocs`. */
    method ChainFreeBlocs(b1: nat, b2: nat)
      requires b1 <= b2 < words.Length
      modifies words
      ensures words[..] == ChainHeaders(old(words[..]), b1, b2)
    {
      if b1 + words[b1].size == b2 {
        words[b1] := words[b1].(toNext := words[b2].toNext + words[b1].size);
        words[b1] := words[b1].(size := words[b1].size + words[b2].size);
      } else {
        words[b1] := words[b1].(toNext := b2 - b1);
      }
    }

    /** The walk of `mem_free`: the free blocks around word p. */
    method FindGap(p: nat) returns (prev: Option<nat>, curr: nat, ghost j: nat)
      requires Valid() && p < n
      ensures j <= |blocks| && curr == Start(blocks, j, n) && curr >= p
      ensures prev == if j == 0 then None else Some(blocks[j - 1].start)
      ensures forall h :: 0 <= h < j ==> blocks[h].start < p
    {
      prev, curr, j := None, firstFree, 0;
      while curr < p
        invariant j <= |blocks| && curr == Start(blocks, j, n) <= n
        invariant prev == if j == 0 then None else Some(blocks[j - 1].start)
        invariant forall h :: 0 <= h < j ==> blocks[h].start < p
        decreases |blocks| - j
      {
        assert j < |blocks|;
        assert Linked(words[..], blocks, n, j);
        prev, curr, j := Some(curr), curr + words[curr].toNext, j + 1;
      }
    }

    /** The header updates of `mem_free` once the gap is found. */
    method GiveTo(prev: Option<nat>, curr: nat, p: nat, k: nat, ghost j: nat)
      requires Valid() && FitsGap(blocks, n, j, Block(p, k))
      requires curr == Start(blocks, j, n) && prev == if j == 0 then None else Some(blocks[j - 1].start)
      modifies this`firstFree, words
      ensures words[..] == GiveHeaders(old(words[..]), blocks, n, j, Block(p, k))
      ensures firstFree == if j == 0 then p else old(firstFree)
    {
      ghost var w0 := words[..];
      if j < |blocks| { assert Linked(words[..], blocks, n, j); GapStarts(blocks, n, j, Block(p, k), j); }
      hide Partition, Canonical, Linked;
      words[p] := Word(k, curr - p);
      assert words[curr].size == w0[curr].size;
      if words[curr].size != 0 { ChainFreeBlocs(p, curr); }
      assert words[..] == GiveNextHeaders(w0, blocks, n, j, Block(p, k));
      if prev != None { ChainFreeBlocs(prev.value, p); } else { firstFree := p; }
    }

    /** The list after the block at p is given back, with the proof that everything about the heap survives. */
    ghost method Forget(p: nat, k: nat, j: nat, w0: seq<Word>)
      requires 0 < n < 65536 && words.Length == n + 1 && j <= |blocks|
      requires Canonical(blocks, n) && Chained(w0, blocks, n) && Partition(blocks, live, n)
      requires p in live && live[p] == k && FitsGap(blocks, n, j, Block(p, k))
      requires words[..] == GiveHeaders(w0, blocks, n, j, Block(p, k))
      requires firstFree == if j == 0 then p else Start(blocks, 0, n)
      modifies this`blocks, this`live
      ensures Valid() && live == old(live) - {p}
      ensures forall i :: IsFree(blocks, i) <==> IsFree(old(blocks), i) || p <= i < p + k
    {
      hide GiveHeaders, Partition, Give, Chained, IsFree, FitsGap, Canonical;
      var b := Block(p, k);
      GiveHeadersChained(w0, blocks, n, j, b);
      GiveIsCanonical(blocks, n, j, b);
      GiveStart(blocks, n, j, b);
      PartitionAfterGive(blocks, live, n, j, p);
      blocks, live := Give(blocks, j, b), live - {p};
    }

    /** `mem_free` of a block handed out for a request of the same number of words: its words become free,
        all other blocks stay as they are, and no word outside the free ones is written. */
    method Free(ptr: Option<nat>, size: nat)
      requires Valid() && size < 65536
      requires ptr != None && size != 0 ==> ptr.value in live && live[ptr.value] == Units(size)
      modifies this, words
      ensures Valid()
      ensures if ptr == None || size == 0 then
                firstFree == old(firstFree) && blocks == old(blocks) && live == old(live) && words[..] == old(words[..])
              else
                && live == old(live) - {ptr.value}
                && (forall i :: IsFree(blocks, i) <==> IsFree(old(blocks), i) || ptr.value <= i < ptr.value + Units(size))
      ensures forall i :: 0 <= i <= n && !IsFree(blocks, i) ==> words[i] == old(words[i])
    {
      if ptr == None || size == 0 { return; }
      var p, k := ptr.value, Units(size);
      assert p < n;
      hide Units, GiveHeaders, Partition, Give, Chained, IsFree, FitsGap, Canonical;
      var prev, curr, j := FindGap(p);
      LiveFitsGap(blocks, live, n, j, p);
      ghost var w0 := words[..];
      GiveTo(prev, curr, p, k, j);
      GiveHeadersFrame(w0, blocks, n, j, Block(p, k));
      Forget(p, k, j, w0);
    }

    /** `get_free_mem`: four bytes for every free word. */
    method GetFreeMem() returns (bytes: nat)
      requires Valid()
      ensures bytes == 4 * |FreeWords(blocks, n)|
    {
      var sum, curr := 0, firstFree;
      ghost var j := 0;
      assert blocks != [] ==> Linked(words[..], blocks, n, 0);
      while words[curr].toNext != 0
        invariant 0 <= j <= |blocks| && curr == Start(blocks, j, n) <= n
        invariant words[curr].toNext == 0 <==> j == |blocks|
        invariant sum == Total(blocks[..j])
        decreases |blocks| - j
      {
        assert j < |blocks|;
        assert Linked(words[..], blocks, n, j) && (j + 1 < |blocks| ==> Linked(words[..], blocks, n, j + 1));
        assert blocks[..j + 1][..j] == blocks[..j];
        sum, curr, j := sum + words[curr].size, curr + words[curr].toNext, j + 1;
      }
      assert blocks[..j] == blocks;
      TotalCountsFreeWords(blocks, n);
      bytes := sum * 4;
    }

    /** `get_max_free_mem`: the largest request that would succeed, in bytes. */
    method GetMaxFreeMem() returns (bytes: nat)
      requires Valid()
      ensures bytes % 4 == 0
      ensures forall k: nat :: k > 0 ==> (k <= bytes / 4 <==> HasRun(blocks, k))
    {
      var max, curr := 0, firstFree;
      ghost var j, best := 0, 0;
      assert blocks != [] ==> Linked(words[..], blocks, n, 0);
      while words[curr].toNext != 0
        invariant 0 <= j <= |blocks| && curr == Start(blocks, j, n) <= n
        invariant words[curr].toNext == 0 <==> j == |blocks|
        invariant forall h :: 0 <= h < j ==> blocks[h].size <= max
        invariant max > 0 ==> 0 <= best < j && blocks[best].size == max
        decreases |blocks| - j
      {
        assert j < |blocks|;
        assert Linked(words[..], blocks, n, j) && (j + 1 < |blocks| ==> Linked(words[..], blocks, n, j + 1));
        if words[curr].size > max { max, best := words[curr].size, j; }
        curr, j := curr + words[curr].toNext, j + 1;
      }
      bytes := max * 4;
      forall k: nat | k > 0 ensures k <= max <==> HasRun(blocks, k) {
        LargestRun(blocks, n, max, best, k);
      }
    }

    /** An allocation followed by its free restores the free list, headers included. */
    method AllocThenFree(size: nat)
      requires Valid() && 0 < size <= 65532
      modifies this, words
      ensures Valid() && blocks == old(blocks) && live == old(live) && firstFree == old(firstFree)
      ensures Chained(words[..], old(blocks), n)
    {
      ghost var before := blocks;
      UnitsIsCeiling(size);
      var p := Alloc(size);
      Free(p, size);
      CanonicalIsUnique(blocks, before, n);
    }
  }

  /** With nothing live the free list is the one `mem_reset` sets up. */
  lemma NothingLiveIsReset(blocks: seq<Block>, n: nat)
    requires n > 0 && Canonical(blocks, n) && Partition(blocks, map[], n)
    ensures blocks == [Block(0, n)]
  {
    var whole := [Block(0, n)];
    forall i ensures IsFree(blocks, i) <==> IsFree(whole, i) {
      FreeInOne(Block(0, n), i);
      assert 0 <= i < n ==> IsFree(blocks, i) || IsLive(map[], i);
    }
    CanonicalIsUnique(blocks, whole, n);
  }

  lemma FreeOrLive(blocks: seq<Block>, live: map<nat, nat>, n: nat, i: int)
    requires Canonical(blocks, n) && Partition(blocks, live, n)
    ensures 0 <= i < n ==> (IsFree(blocks, i) <==> !IsLive(live, i))
  {
  }

  /** Free words plus live words are all the words, whatever was allocated and freed before. */
  lemma WordsAreConserved(blocks: seq<Block>, live: map<nat, nat>, n: nat)
    requires Canonical(blocks, n) && Partition(blocks, live, n)
    ensures Total(blocks) + |set i | 0 <= i < n && IsLive(live, i)| == n
  {
    hide Canonical, Partition, IsFree, IsLive;
    TotalCountsFreeWords(blocks, n);
    var f, l := FreeWords(blocks, n), set i | 0 <= i < n && IsLive(live, i);
    WordsCount(Block(0, n));
    WordsOf(Block(0, n));
    forall i ensures i in Words(Block(0, n)) <==> i in f + l { FreeOrLive(blocks, live, n, i); }
    assert Words(Block(0, n)) == f + l;
    forall i ensures !(i in f && i in l) { FreeOrLive(blocks, live, n, i); }
    assert f !! l;
  }
}
