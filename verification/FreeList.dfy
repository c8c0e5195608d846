/** The free list of core/memory.c as a list of blocks, and what such a list says about the words of the buffer. */
module FreeList {

  /** A free block: `size` words from word `start` on. */
  datatype Block = Block(start: nat, size: nat)

  /** One 32-bit word read as a free-block header: its two 16-bit halves. */
  datatype Word = Word(size: nat, toNext: nat)

  function End(b: Block): nat { b.start + b.size }

  /** Where block j starts; the sentinel word n ends the list. */
  function Start(blocks: seq<Block>, j: nat, n: nat): nat {
    if j < |blocks| then blocks[j].start else n
  }

  /** Strictly increasing, in bounds, without empty blocks and coalesced: adjacent blocks do not touch. */
  ghost predicate Canonical(blocks: seq<Block>, n: nat) {
    && (forall j :: 0 <= j < |blocks| ==> blocks[j].size > 0 && End(blocks[j]) <= n)
    && (forall i, j :: 0 <= i < j < |blocks| ==> End(blocks[i]) < blocks[j].start)
  }

  /** The header of block j: its size and the distance to the next block. */
  ghost predicate Linked(words: seq<Word>, blocks: seq<Block>, n: nat, j: nat)
    requires j < |blocks|
  {
    && blocks[j].start < n < |words| && blocks[j].start <= Start(blocks, j + 1, n)
    && words[blocks[j].start] == Word(blocks[j].size, Start(blocks, j + 1, n) - blocks[j].start)
  }

  /** The headers in memory chain the blocks by relative links, up to the sentinel. */
  ghost predicate Chained(words: seq<Word>, blocks: seq<Block>, n: nat) {
    && |words| == n + 1 && words[n] == Word(0, 0)
    && (forall j {:trigger Linked(words, blocks, n, j)} :: 0 <= j < |blocks| ==> Linked(words, blocks, n, j))
  }

  ghost predicate Contains(b: Block, i: int) { b.start <= i < End(b) }

  ghost predicate IsFree(blocks: seq<Block>, i: int) {
    exists j :: 0 <= j < |blocks| && Contains(blocks[j], i)
  }

  /** k contiguous free words from i on. */
  ghost predicate FreeRun(blocks: seq<Block>, i: int, k: nat) {
    forall h :: i <= h < i + k ==> IsFree(blocks, h)
  }

  // ----- canonical form -----

  /** The word after a block is not free. */
  lemma GapAfter(blocks: seq<Block>, n: nat, j: nat)
    requires Canonical(blocks, n) && j < |blocks|
    ensures !IsFree(blocks, End(blocks[j]))
  {
  }

  lemma RunStaysInBlock(blocks: seq<Block>, n: nat, i: int, k: nat, j: nat)
    requires Canonical(blocks, n) && k > 0 && FreeRun(blocks, i, k)
    requires j < |blocks| && Contains(blocks[j], i)
    ensures i + k <= End(blocks[j])
  {
    GapAfter(blocks, n, j);
  }

  /** A free run lies inside one block: coalescing left no seam in it. */
  lemma RunInOneBlock(blocks: seq<Block>, n: nat, i: int, k: nat) returns (j: nat)
    requires Canonical(blocks, n) && k > 0 && FreeRun(blocks, i, k)
    ensures j < |blocks| && blocks[j].start <= i && i + k <= End(blocks[j])
  {
    assert IsFree(blocks, i);
    j :| 0 <= j < |blocks| && Contains(blocks[j], i);
    RunStaysInBlock(blocks, n, i, k, j);
  }

  ghost predicate SameWords(a: seq<Block>, b: seq<Block>) {
    forall i :: IsFree(a, i) <==> IsFree(b, i)
  }

  lemma FirstBlock(a: seq<Block>, b: seq<Block>, n: nat)
    requires Canonical(a, n) && Canonical(b, n) && SameWords(a, b) && a != []
    ensures b != [] && a[0].start >= b[0].start
  {
    assert Contains(a[0], a[0].start);
    assert IsFree(a, a[0].start) && IsFree(b, a[0].start);
    var j :| 0 <= j < |b| && Contains(b[j], a[0].start);
  }

  lemma FirstEnd(a: seq<Block>, b: seq<Block>, n: nat)
    requires Canonical(a, n) && Canonical(b, n) && SameWords(a, b) && a != [] && b != []
    requires a[0].start == b[0].start
    ensures End(a[0]) <= End(b[0])
  {
    GapAfter(b, n, 0);
    assert End(b[0]) < End(a[0]) ==> Contains(a[0], End(b[0]));
  }

  lemma DropFirst(a: seq<Block>, n: nat, i: int)
    requires Canonical(a, n) && a != []
    ensures Canonical(a[1..], n)
    ensures IsFree(a[1..], i) <==> IsFree(a, i) && !Contains(a[0], i)
  {
    if IsFree(a[1..], i) {
      var j :| 0 <= j < |a[1..]| && Contains(a[1..][j], i);
      assert Contains(a[j + 1], i);
    }
    if IsFree(a, i) && !Contains(a[0], i) {
      var j :| 0 <= j < |a| && Contains(a[j], i);
      assert Contains(a[1..][j - 1], i);
    }
  }

  /** The free list is a function of the set of free words. */
  lemma {:induction false} CanonicalIsUnique(a: seq<Block>, b: seq<Block>, n: nat)
    requires Canonical(a, n) && Canonical(b, n) && SameWords(a, b)
    ensures a == b
    decreases |a|
  {
    if a == [] {
      if b != [] { FirstBlock(b, a, n); }
    } else {
      FirstBlock(a, b, n);
      FirstBlock(b, a, n);
      FirstEnd(a, b, n);
      FirstEnd(b, a, n);
      assert a[0] == b[0];
      forall i ensures IsFree(a[1..], i) <==> IsFree(b[1..], i) {
        DropFirst(a, n, i);
        DropFirst(b, n, i);
      }
      DropFirst(a, n, 0);
      DropFirst(b, n, 0);
      CanonicalIsUnique(a[1..], b[1..], n);
    }
  }

  // ----- lists in pieces -----

  lemma FreeInConcat(a: seq<Block>, b: seq<Block>, i: int)
    ensures IsFree(a + b, i) <==> IsFree(a, i) || IsFree(b, i)
  {
    var t := a + b;
    if IsFree(a, i) { var j :| 0 <= j < |a| && Contains(a[j], i); assert Contains(t[j], i); }
    if IsFree(b, i) { var j :| 0 <= j < |b| && Contains(b[j], i); assert Contains(t[|a| + j], i); }
    if IsFree(t, i) {
      var j :| 0 <= j < |t| && Contains(t[j], i);
      if j < |a| { assert Contains(a[j], i); } else { assert Contains(b[j - |a|], i); }
    }
  }

  lemma FreeInThree(a: seq<Block>, b: seq<Block>, c: seq<Block>, i: int)
    ensures IsFree(a + b + c, i) <==> IsFree(a, i) || IsFree(b, i) || IsFree(c, i)
  {
    FreeInConcat(a, b, i);
    FreeInConcat(a + b, c, i);
  }

  lemma FreeInOne(b: Block, i: int)
    ensures IsFree([b], i) <==> Contains(b, i)
  {
    assert [b][0] == b;
  }

  lemma FreeInTwo(b: Block, c: Block, i: int)
    ensures IsFree([b, c], i) <==> Contains(b, i) || Contains(c, i)
  {
    assert [b, c] == [b] + [c];
    FreeInConcat([b], [c], i);
    FreeInOne(b, i);
    FreeInOne(c, i);
  }

  // ----- taking k words from the front of block j -----

  function Shrunk(b: Block, k: nat): seq<Block>
    requires k <= b.size
  {
    if b.size == k then [] else [Block(b.start + k, b.size - k)]
  }

  function Take(blocks: seq<Block>, j: nat, k: nat): seq<Block>
    requires j < |blocks| && k <= blocks[j].size
  {
    blocks[..j] + Shrunk(blocks[j], k) + blocks[j + 1..]
  }

  lemma TakeIsCanonical(blocks: seq<Block>, n: nat, j: nat, k: nat)
    requires Canonical(blocks, n) && j < |blocks| && k <= blocks[j].size
    ensures Canonical(Take(blocks, j, k), n)
  {
  }

  lemma TakeWords(blocks: seq<Block>, n: nat, j: nat, k: nat, i: int)
    requires Canonical(blocks, n) && j < |blocks| && k <= blocks[j].size
    ensures var p := blocks[j].start; IsFree(Take(blocks, j, k), i) <==> IsFree(blocks, i) && !(p <= i < p + k)
  {
    var a, b, c := blocks[..j], blocks[j], blocks[j + 1..];
    assert blocks == a + [b] + c;
    FreeInThree(a, [b], c, i);
    FreeInThree(a, Shrunk(b, k), c, i);
    FreeInOne(b, i);
    if b.size != k { FreeInOne(Block(b.start + k, b.size - k), i); }
  }

  // ----- giving block b back between blocks j-1 and j -----

  /** `chain_free_blocs` on two neighbours: one block if they touch, else both. */
  function Join(b: Block, c: Block): seq<Block> {
    if End(b) == c.start then [Block(b.start, b.size + c.size)] else [b, c]
  }

  /** Block b put before block j, merged with it if the two touch. */
  function JoinNext(blocks: seq<Block>, j: nat, b: Block): seq<Block>
    requires j <= |blocks|
  {
    if j < |blocks| then blocks[..j] + Join(b, blocks[j]) + blocks[j + 1..] else blocks + [b]
  }

  /** Block j merged with the block before, if the two touch. */
  function JoinPrev(blocks: seq<Block>, j: nat): seq<Block>
    requires j < |blocks|
  {
    if j > 0 then blocks[..j - 1] + Join(blocks[j - 1], blocks[j]) + blocks[j + 1..] else blocks
  }

  function Give(blocks: seq<Block>, j: nat, b: Block): seq<Block>
    requires j <= |blocks|
  {
    JoinPrev(JoinNext(blocks, j, b), j)
  }

  /** Block b lies in the gap before block j. */
  ghost predicate FitsGap(blocks: seq<Block>, n: nat, j: nat, b: Block) {
    && Canonical(blocks, n) && j <= |blocks| && b.size > 0 && End(b) <= n
    && (j > 0 ==> End(blocks[j - 1]) <= b.start)
    && (j < |blocks| ==> End(b) <= blocks[j].start)
  }

  lemma JoinWords(b: Block, c: Block, i: int)
    ensures IsFree(Join(b, c), i) <==> Contains(b, i) || Contains(c, i)
  {
    if End(b) == c.start { FreeInOne(Block(b.start, b.size + c.size), i); } else { FreeInTwo(b, c, i); }
  }

  lemma JoinNextWords(blocks: seq<Block>, j: nat, b: Block, i: int)
    requires j <= |blocks|
    ensures IsFree(JoinNext(blocks, j, b), i) <==> IsFree(blocks, i) || Contains(b, i)
  {
    if j < |blocks| {
      var a, c := blocks[..j], blocks[j + 1..];
      assert blocks == a + [blocks[j]] + c;
      FreeInThree(a, [blocks[j]], c, i);
      FreeInThree(a, Join(b, blocks[j]), c, i);
      JoinWords(b, blocks[j], i);
      FreeInOne(blocks[j], i);
    } else {
      FreeInConcat(blocks, [b], i);
      FreeInOne(b, i);
    }
  }

  lemma JoinPrevWords(blocks: seq<Block>, j: nat, i: int)
    requires j < |blocks|
    ensures IsFree(JoinPrev(blocks, j), i) <==> IsFree(blocks, i)
  {
    if j > 0 {
      var a, c := blocks[..j - 1], blocks[j + 1..];
      assert blocks == a + [blocks[j - 1], blocks[j]] + c;
      FreeInThree(a, [blocks[j - 1], blocks[j]], c, i);
      FreeInThree(a, Join(blocks[j - 1], blocks[j]), c, i);
      FreeInTwo(blocks[j - 1], blocks[j], i);
      JoinWords(blocks[j - 1], blocks[j], i);
    }
  }

  /** Canonical, except that block j may touch the block before it. */
  ghost predicate NearlyCanonical(blocks: seq<Block>, n: nat, j: nat) {
    && (forall h :: 0 <= h < |blocks| ==> blocks[h].size > 0 && End(blocks[h]) <= n)
    && (forall h, i :: 0 <= h < i < |blocks| ==> End(blocks[h]) <= blocks[i].start)
    && (forall h, i :: 0 <= h < i < |blocks| && !(h + 1 == j == i) ==> End(blocks[h]) < blocks[i].start)
  }

  lemma MergedIsNearlyCanonical(blocks: seq<Block>, n: nat, j: nat, b: Block)
    requires FitsGap(blocks, n, j, b) && j < |blocks| && End(b) == blocks[j].start
    ensures NearlyCanonical(blocks[j := Block(b.start, b.size + blocks[j].size)], n, j)
  {
  }

  /** Element h of `blocks` with b inserted at j. */
  function Inserted(blocks: seq<Block>, j: nat, b: Block, h: nat): Block
    requires j <= |blocks| && h <= |blocks|
  {
    if h < j then blocks[h] else if h == j then b else blocks[h - 1]
  }

  lemma InsertedInOrder(blocks: seq<Block>, n: nat, j: nat, b: Block, h: nat, i: nat)
    requires FitsGap(blocks, n, j, b) && (j < |blocks| ==> End(b) < blocks[j].start)
    requires h < i <= |blocks|
    ensures var x, y := Inserted(blocks, j, b, h), Inserted(blocks, j, b, i);
            && End(x) <= y.start && (!(h + 1 == j == i) ==> End(x) < y.start)
  {
  }

  lemma InsertedIsNearlyCanonical(blocks: seq<Block>, n: nat, j: nat, b: Block)
    requires FitsGap(blocks, n, j, b) && (j < |blocks| ==> End(b) < blocks[j].start)
    ensures NearlyCanonical(blocks[..j] + [b] + blocks[j..], n, j)
  {
    var t := blocks[..j] + [b] + blocks[j..];
    forall h | 0 <= h < |t| ensures t[h] == Inserted(blocks, j, b, h) && t[h].size > 0 && End(t[h]) <= n {
    }
    forall h, i | 0 <= h < i < |t|
      ensures End(t[h]) <= t[i].start && (!(h + 1 == j == i) ==> End(t[h]) < t[i].start)
    {
      assert t[h] == Inserted(blocks, j, b, h) && t[i] == Inserted(blocks, j, b, i);
      InsertedInOrder(blocks, n, j, b, h, i);
    }
  }

  lemma JoinNextIsNearlyCanonical(blocks: seq<Block>, n: nat, j: nat, b: Block)
    requires FitsGap(blocks, n, j, b)
    ensures j < |JoinNext(blocks, j, b)| && NearlyCanonical(JoinNext(blocks, j, b), n, j)
  {
    hide NearlyCanonical, Canonical;
    if j < |blocks| && End(b) == blocks[j].start {
      MergedIsNearlyCanonical(blocks, n, j, b);
      assert JoinNext(blocks, j, b) == blocks[j := Block(b.start, b.size + blocks[j].size)];
    } else {
      InsertedIsNearlyCanonical(blocks, n, j, b);
      assert JoinNext(blocks, j, b) == blocks[..j] + [b] + blocks[j..];
    }
  }

  /** Merging blocks j-1 and j drops one element. */
  lemma MergeBack(blocks: seq<Block>, n: nat, j: nat)
    requires 0 < j < |blocks| && NearlyCanonical(blocks, n, j) && End(blocks[j - 1]) == blocks[j].start
    ensures Canonical(blocks[..j - 1] + [Block(blocks[j - 1].start, blocks[j - 1].size + blocks[j].size)] + blocks[j + 1..], n)
  {
    var m := Block(blocks[j - 1].start, blocks[j - 1].size + blocks[j].size);
    var t := blocks[..j - 1] + [m] + blocks[j + 1..];
    forall h, i | 0 <= h < i < |t| ensures End(t[h]) < t[i].start {
      var x, y := if h < j then h else h + 1, if i < j then i else i + 1;
      if h == j - 1 { assert End(t[h]) == End(blocks[j]); } else { assert t[h] == blocks[x]; }
      assert t[i].start == blocks[y].start;
    }
  }

  lemma JoinPrevIsCanonical(blocks: seq<Block>, n: nat, j: nat)
    requires j < |blocks| && NearlyCanonical(blocks, n, j)
    ensures Canonical(JoinPrev(blocks, j), n)
  {
    hide Canonical, NearlyCanonical;
    if j > 0 && End(blocks[j - 1]) == blocks[j].start {
      MergeBack(blocks, n, j);
    } else {
      NotTouching(blocks, n, j);
      assert JoinPrev(blocks, j) == blocks;
    }
  }

  lemma NotTouching(blocks: seq<Block>, n: nat, j: nat)
    requires j < |blocks| && NearlyCanonical(blocks, n, j) && (j > 0 ==> End(blocks[j - 1]) != blocks[j].start)
    ensures Canonical(blocks, n)
  {
  }

  lemma GiveIsCanonical(blocks: seq<Block>, n: nat, j: nat, b: Block)
    requires FitsGap(blocks, n, j, b)
    ensures Canonical(Give(blocks, j, b), n)
  {
    JoinNextIsNearlyCanonical(blocks, n, j, b);
    JoinPrevIsCanonical(JoinNext(blocks, j, b), n, j);
  }

  lemma GiveWords(blocks: seq<Block>, n: nat, j: nat, b: Block, i: int)
    requires FitsGap(blocks, n, j, b)
    ensures IsFree(Give(blocks, j, b), i) <==> IsFree(blocks, i) || Contains(b, i)
  {
    JoinNextWords(blocks, j, b, i);
    JoinPrevWords(JoinNext(blocks, j, b), j, i);
  }

  /** Giving two blocks back ends in the same list in either order. */
  lemma GivesCommute(blocks: seq<Block>, n: nat, b: Block, c: Block, jb: nat, jc: nat, jb': nat, jc': nat)
    requires FitsGap(blocks, n, jb, b) && FitsGap(Give(blocks, jb, b), n, jc', c)
    requires FitsGap(blocks, n, jc, c) && FitsGap(Give(blocks, jc, c), n, jb', b)
    ensures Give(Give(blocks, jb, b), jc', c) == Give(Give(blocks, jc, c), jb', b)
  {
    hide Give, Canonical, IsFree;
    var one, two := Give(Give(blocks, jb, b), jc', c), Give(Give(blocks, jc, c), jb', b);
    forall i ensures IsFree(one, i) <==> IsFree(two, i) {
      GiveWords(blocks, n, jb, b, i);
      GiveWords(Give(blocks, jb, b), n, jc', c, i);
      GiveWords(blocks, n, jc, c, i);
      GiveWords(Give(blocks, jc, c), n, jb', b, i);
    }
    GiveIsCanonical(Give(blocks, jb, b), n, jc', c);
    GiveIsCanonical(Give(blocks, jc, c), n, jb', b);
    CanonicalIsUnique(one, two, n);
  }

  // ----- counting -----

  function Total(blocks: seq<Block>): nat {
    if blocks == [] then 0 else Total(blocks[..|blocks| - 1]) + blocks[|blocks| - 1].size
  }

  ghost function FreeWords(blocks: seq<Block>, n: nat): set<int> {
    set i | 0 <= i < n && IsFree(blocks, i)
  }

  ghost function Words(b: Block): set<int> {
    set i | b.start <= i < End(b) && Contains(b, i)
  }

  lemma {:induction false} WordsCount(b: Block)
    ensures |Words(b)| == b.size
    decreases b.size
  {
    if b.size == 0 {
      assert Words(b) == {};
    } else {
      var c := b.(size := b.size - 1);
      WordsCount(c);
      forall i ensures i in Words(b) <==> i in Words(c) + {End(c)} { assert Contains(b, i) <==> Contains(c, i) || i == End(c); }
      assert Words(b) == Words(c) + {End(c)};
    }
  }

  lemma WordsOf(b: Block)
    ensures forall i :: i in Words(b) <==> Contains(b, i)
    ensures forall i :: Contains(b, i) ==> 0 <= i < End(b)
  {
  }

  lemma LastIsApart(blocks: seq<Block>, n: nat)
    requires Canonical(blocks, n) && blocks != []
    ensures var last := blocks[|blocks| - 1];
            forall i :: Contains(last, i) ==> !IsFree(blocks[..|blocks| - 1], i)
  {
  }

  lemma SplitLast(blocks: seq<Block>, n: nat)
    requires Canonical(blocks, n) && blocks != []
    ensures var init, last := blocks[..|blocks| - 1], blocks[|blocks| - 1];
            && Canonical(init, n)
            && FreeWords(blocks, n) == FreeWords(init, n) + Words(last) && FreeWords(init, n) !! Words(last)
  {
    var init, last := blocks[..|blocks| - 1], blocks[|blocks| - 1];
    assert blocks == init + [last];
    LastIsApart(blocks, n);
    WordsOf(last);
    hide IsFree, Contains, Canonical;
    forall i ensures IsFree(blocks, i) <==> IsFree(init, i) || Contains(last, i) {
      FreeInConcat(init, [last], i);
      FreeInOne(last, i);
    }
    assert End(last) <= n by { LastInBounds(blocks, n); }
    assert FreeWords(blocks, n) == FreeWords(init, n) + Words(last);
  }

  lemma LastInBounds(blocks: seq<Block>, n: nat)
    requires Canonical(blocks, n) && blocks != []
    ensures End(blocks[|blocks| - 1]) <= n
  {
  }

  /** The sizes in the list add up to the number of free words. */
  lemma {:induction false} TotalCountsFreeWords(blocks: seq<Block>, n: nat)
    requires Canonical(blocks, n)
    ensures Total(blocks) == |FreeWords(blocks, n)|
    decreases |blocks|
  {
    hide Canonical;
    if blocks == [] {
      assert FreeWords(blocks, n) == {};
    } else {
      hide FreeWords, Words;
      SplitLast(blocks, n);
      TotalCountsFreeWords(blocks[..|blocks| - 1], n);
      WordsCount(blocks[|blocks| - 1]);
    }
  }
}
