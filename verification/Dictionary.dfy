/** Compiling a symbol list and walking the result is looking the symbol up in the list. */
module Dictionaries {
  import opened Symbols
  import opened Trie
  import opened Ternary
  import opened Walker

  /** Symbols the blob format can carry: printable text, references below 128. */
  ghost predicate Encodable(d: Dictionary) {
    forall k :: k in d ==> Printable(k) && d[k] < 128
  }

  // ----- siblings and their search tree -----

  /** A prefix of a symbol is a symbol itself or has continuations. */
  lemma NotStuck(t: Trie, p: Symbol, d: Dictionary)
    requires Holds(t, p, d) && IsPrefixIn(p, d)
    ensures t.final || t.childs != []
  {
    hide SiblingsHold;
    if !t.final {
      var k :| k in d && p <= k;
      assert p != k;
      assert k == p + k[|p|..];
      assert |k| > |p|;
      assert Branches(t, k[|p|]);
    }
  }

  lemma SlicesHold(s: seq<Trie>, p: Symbol, d: Dictionary, mid: nat)
    requires SiblingsHold(s, p, d) && mid < |s|
    ensures SiblingsHold(s[..mid], p, d) && SiblingsHold(s[mid + 1..], p, d)
    ensures |s[mid].str| == 1 && IsPrefixIn(p + s[mid].str, d) && Holds(s[mid], p + s[mid].str, d)
  {
    hide Holds;
    assert Holds(s[mid], p + s[mid].str, d);
    forall i | 0 <= i < |s[..mid]| ensures Holds(s[..mid][i], p + s[..mid][i].str, d) && IsPrefixIn(p + s[..mid][i].str, d) {
      assert Holds(s[i], p + s[i].str, d);
    }
    var r := s[mid + 1..];
    forall i | 0 <= i < |r| ensures Holds(r[i], p + r[i].str, d) && IsPrefixIn(p + r[i].str, d) {
      assert Holds(s[mid + 1 + i], p + s[mid + 1 + i].str, d);
    }
  }

  /** `toTernaryTree` never makes a `>` child without a `<` child, nor a node that leads nowhere. */
  lemma {:induction false} SiblingsWellFormed(s: seq<Trie>, p: Symbol, d: Dictionary)
    requires Encodable(d) && SiblingsHold(s, p, d)
    ensures WellFormed(FromSiblings(s))
  {
    hide Holds;
    if s != [] {
      var mid := |s| / 2;
      var m := s[mid];
      assert m in s;
      SlicesHold(s, p, d, mid);
      SiblingsWellFormed(s[..mid], p, d);
      SiblingsWellFormed(s[mid + 1..], p, d);
      NotStuck(m, p + m.str, d);
      HoldsExpands(m, p + m.str, d);
      SiblingsWellFormed(m.childs, p + m.str, d);
      var k :| k in d && p + m.str <= k;
      assert k[|p|] == m.str[0] && Printable(k);
    }
  }

  lemma HoldsExpands(t: Trie, p: Symbol, d: Dictionary)
    requires Holds(t, p, d)
    ensures SiblingsHold(t.childs, p, d) && (t.final <==> p in d) && (t.final ==> t.ref == d[p])
  {
  }

  lemma SiblingRoot(s: seq<Trie>, c: int)
    requires s != [] && WellFormed(FromSiblings(s))
    ensures var t, mid := FromSiblings(s), |s| / 2;
            && t.Node? && t.str == s[mid].str && t.eq == FromSiblings(s[mid].childs)
            && t.final == s[mid].final && t.ref == s[mid].ref && |t.str| == 1
            && WellFormed(FromSiblings(s[..mid])) && WellFormed(FromSiblings(s[mid + 1..]))
            && Locate(t, c) == if c == t.str[0] then t
                               else if c < t.str[0] then Locate(FromSiblings(s[..mid]), c)
                               else Locate(FromSiblings(s[mid + 1..]), c)
  {
  }

  /** Sibling i of `s` is the one for character c (none if i is the length), and `n` is its ternary node. */
  ghost predicate Finds(s: seq<Trie>, c: int, i: nat, n: Tern) {
    if i >= |s| then i == |s| && n == Nil && forall j :: 0 <= j < |s| ==> s[j].str != [c]
    else s[i].str == [c] && n.Node? && n.final == s[i].final && n.ref == s[i].ref && n.eq == FromSiblings(s[i].childs)
  }

  lemma FindsLeft(s: seq<Trie>, mid: nat, c: int, i: nat, n: Tern)
    requires Ascending(s) && mid < |s| && c < s[mid].str[0] && Finds(s[..mid], c, i, n)
    ensures Finds(s, c, if i == mid then |s| else i, n)
  {
    assert forall j :: mid <= j < |s| ==> s[j].str != [c];
    assert forall j :: 0 <= j < mid ==> s[j] == s[..mid][j];
  }

  lemma FindsRight(s: seq<Trie>, mid: nat, c: int, i: nat, n: Tern)
    requires Ascending(s) && mid < |s| && c > s[mid].str[0] && Finds(s[mid + 1..], c, i, n)
    ensures Finds(s, c, i + mid + 1, n)
  {
    assert forall j :: 0 <= j <= mid ==> s[j].str != [c];
    assert forall j :: mid < j < |s| ==> s[j] == s[mid + 1..][j - mid - 1];
  }

  /** The three ways the search goes at the middle sibling. */
  lemma GoesLeft(s: seq<Trie>, c: int, i: nat)
    requires s != [] && Ascending(s) && WellFormed(FromSiblings(s)) && WellFormed(FromSiblings(s[..|s| / 2]))
    requires c < s[|s| / 2].str[0] && Finds(s[..|s| / 2], c, i, Locate(FromSiblings(s[..|s| / 2]), c))
    ensures Finds(s, c, if i == |s| / 2 then |s| else i, Locate(FromSiblings(s), c))
  {
    hide FromSiblings, WellFormed, Locate, Finds, Ascending;
    SiblingRoot(s, c);
    FindsLeft(s, |s| / 2, c, i, Locate(FromSiblings(s), c));
  }

  lemma GoesRight(s: seq<Trie>, c: int, i: nat)
    requires s != [] && Ascending(s) && WellFormed(FromSiblings(s)) && WellFormed(FromSiblings(s[|s| / 2 + 1..]))
    requires c > s[|s| / 2].str[0] && Finds(s[|s| / 2 + 1..], c, i, Locate(FromSiblings(s[|s| / 2 + 1..]), c))
    ensures Finds(s, c, i + |s| / 2 + 1, Locate(FromSiblings(s), c))
  {
    hide FromSiblings, WellFormed, Locate, Finds, Ascending;
    SiblingRoot(s, c);
    FindsRight(s, |s| / 2, c, i, Locate(FromSiblings(s), c));
  }

  lemma StaysHere(s: seq<Trie>, c: int)
    requires s != [] && Ascending(s) && WellFormed(FromSiblings(s)) && c == s[|s| / 2].str[0]
    ensures Finds(s, c, |s| / 2, Locate(FromSiblings(s), c))
  {
    hide FromSiblings, WellFormed, Locate, Finds, Ascending;
    SiblingRoot(s, c);
    assert s[|s| / 2].str == [c];
    FindsHere(s, c, |s| / 2, FromSiblings(s));
  }

  lemma NothingFound(c: int)
    ensures Finds([], c, 0, Locate(FromSiblings([]), c))
  {
  }

  /** The search tree of a list of siblings finds exactly the siblings of the list. */
  lemma {:induction false} LocateSibling(s: seq<Trie>, c: int) returns (i: nat)
    requires Ascending(s) && WellFormed(FromSiblings(s))
    ensures Finds(s, c, i, Locate(FromSiblings(s), c))
    decreases |s|
  {
    hide FromSiblings, WellFormed, Locate, Finds, Ascending;
    if s == [] {
      i := 0;
      NothingFound(c);
    } else {
      var mid := |s| / 2;
      SiblingParts(s);
      if c < s[mid].str[0] {
        i := LocateSibling(s[..mid], c);
        GoesLeft(s, c, i);
        if i == mid { i := |s|; }
      } else if c > s[mid].str[0] {
        i := LocateSibling(s[mid + 1..], c);
        GoesRight(s, c, i);
        i := i + mid + 1;
      } else {
        StaysHere(s, c);
        i := mid;
      }
    }
  }

  lemma SiblingParts(s: seq<Trie>)
    requires s != [] && Ascending(s) && WellFormed(FromSiblings(s))
    ensures var mid := |s| / 2;
            && Ascending(s[..mid]) && Ascending(s[mid + 1..]) && |s[mid].str| == 1
            && WellFormed(FromSiblings(s[..mid])) && WellFormed(FromSiblings(s[mid + 1..]))
  {
    AscendingSlices(s, |s| / 2);
  }

  lemma AscendingSlices(s: seq<Trie>, mid: nat)
    requires Ascending(s) && mid < |s|
    ensures Ascending(s[..mid]) && Ascending(s[mid + 1..]) && |s[mid].str| == 1
  {
  }

  lemma FindsHere(s: seq<Trie>, c: int, i: nat, n: Tern)
    requires i < |s| && s[i].str == [c] && n.Node? && n.final == s[i].final && n.ref == s[i].ref && n.eq == FromSiblings(s[i].childs)
    ensures Finds(s, c, i, n)
  {
  }

  /** Looking up does not leave the tree, so what holds of every node holds of the node found. */
  lemma {:induction false} LocateKeeps(t: Tern, c: int)
    requires WellFormed(t) && Fits(t) && Steppable(t)
    ensures var n := Locate(t, c);
            n.Node? ==> WellFormed(n) && Fits(n.eq) && Steppable(n.eq) && (n.final && n.eq != Nil ==> n.lt == Nil && n.gt == Nil)
  {
    hide Blob;
    if t.Node? && c != t.str[0] {
      if c < t.str[0] { LocateKeeps(t.lt, c); } else { LocateKeeps(t.gt, c); }
    }
  }

  // ----- the walk, in terms of the trie -----

  /** The walk stands on trie node `t`. */
  ghost predicate Reached(mem: seq<int>, pos: nat, t: Trie) {
    var eq := FromSiblings(t.childs);
    && Fits(eq) && Steppable(eq)
    && if t.final then pos < |mem| && mem[pos] == 128 + t.ref && (eq != Nil ==> Sits(mem, pos + 1, Blob(eq)))
       else eq != Nil && Sits(mem, pos, Blob(eq))
  }

  /** What byte the walk stands on: the reference of a complete symbol, or a plain character. */
  lemma ReachedByte(mem: seq<int>, pos: nat, t: Trie, p: Symbol, d: Dictionary)
    requires Encodable(d) && Holds(t, p, d) && Reached(mem, pos, t)
    ensures pos < |mem|
    ensures if p in d then mem[pos] == 128 + d[p] else 32 <= mem[pos] < 128
  {
    HoldsExpands(t, p, d);
    SiblingsWellFormed(t.childs, p, d);
    if !t.final { FirstByte(mem, pos, FromSiblings(t.childs)); }
  }

  /** One character moves the walk to the child for it; with no such child it is refused. */
  lemma FeedFollowsTrie(mem: seq<int>, pos: nat, t: Trie, p: Symbol, d: Dictionary, c: int) returns (i: nat)
    requires Encodable(d) && Holds(t, p, d) && Reached(mem, pos, t) && t.childs != []
    ensures i <= |t.childs|
    ensures if i == |t.childs| then Feed(mem, pos, c) == NotFound && !Branches(t, c)
            else
              && t.childs[i].str == [c] && Holds(t.childs[i], p + [c], d)
              && Feed(mem, pos, c).At? && Reached(mem, Feed(mem, pos, c).pos, t.childs[i])
  {
    hide Blob, WalkChar, Fits, Steppable, WellFormed, Sits, Holds;
    ReachedByte(mem, pos, t, p, d);
    var eq := FromSiblings(t.childs);
    var start := if t.final then pos + 1 else pos;
    HoldsExpands(t, p, d);
    SiblingsWellFormed(t.childs, p, d);
    WalkFollowsTree(mem, start, eq, c);
    i := LocateSibling(t.childs, c);
    LocateKeeps(eq, c);
    assert Feed(mem, pos, c) == WalkChar(mem, start, c);
    if i < |t.childs| {
      SlicesHold(t.childs, p, d, i);
      NotStuck(t.childs[i], p + t.childs[i].str, d);
    }
  }

  /** Along any prefix of a symbol the walk reaches the trie node of that prefix. */
  lemma {:induction false} RunFollowsTrie(mem: seq<int>, pos: nat, t: Trie, p: Symbol, d: Dictionary, w: Symbol)
    returns (pos': nat, t': Trie)
    requires Encodable(d) && Holds(t, p, d) && Reached(mem, pos, t)
    requires IsPrefixIn(p + w, d)
    ensures Run(mem, pos, w) == At(pos') && Holds(t', p + w, d) && Reached(mem, pos', t')
    decreases |w|
  {
    hide Reached, Feed, SiblingsHold;
    if w == [] {
      assert p + w == p;
      return pos, t;
    }
    var k :| k in d && p + w <= k;
    assert k[|p|] == w[0] && p <= k;
    assert Branches(t, k[|p|]);
    hide Holds;
    var i := FeedFollowsTrie(mem, pos, t, p, d, w[0]);
    assert (p + [w[0]]) + w[1..] == p + w;
    pos', t' := RunFollowsTrie(mem, Feed(mem, pos, w[0]).pos, t.childs[i], p + [w[0]], d, w[1..]);
  }

  lemma {:induction false} RunAppend(mem: seq<int>, pos: nat, v: Symbol, w: Symbol)
    ensures Run(mem, pos, v + w) == var r := Run(mem, pos, v); if r.At? then Run(mem, r.pos, w) else r
    decreases |v|
  {
    hide Feed;
    if v == [] {
      assert v + w == w;
    } else {
      assert (v + w)[1..] == v[1..] + w;
      if Feed(mem, pos, v[0]).At? { RunAppend(mem, Feed(mem, pos, v[0]).pos, v[1..], w); }
    }
  }

  /** A blob in memory: the plain ternary blob of a trie holding `d`, with whatever bytes after it. */
  ghost predicate Compiled(mem: seq<int>, t: Trie, d: Dictionary) {
    && Encodable(d) && d != map[] && Holds(t, [], d) && t.str == []
    && Fits(ToTernary(t)) && Steppable(ToTernary(t))
    && Sits(mem, 0, Blob(ToTernary(t)))
  }

  lemma StartReached(mem: seq<int>, t: Trie, d: Dictionary)
    requires Compiled(mem, t, d)
    ensures Reached(mem, 0, t) && t.childs != [] && !t.final
  {
    assert t.childs != [] by {
      var k :| k in d;
      assert [] <= k;
      assert IsPrefixIn([], d);
      NotStuck(t, [], d);
    }
    hide Blob;
    ChainBlob([], FromSiblings(t.childs), t.ref);
    BlobOf(ToTernary(t));
    ChainEncode(Blob(FromSiblings(t.childs)));
  }

  /** After any prefix of a symbol the walk stands in the blob: on byte 128 + i after exactly the
      i-th symbol of the original order, on a plain character after anything else. */
  lemma WalkAcceptsPrefixes(mem: seq<int>, t: Trie, d: Dictionary, w: Symbol)
    requires Compiled(mem, t, d) && IsPrefixIn(w, d)
    ensures var r := Run(mem, 0, w);
            && r.At? && r.pos < |mem|
            && if w in d then mem[r.pos] == 128 + d[w] else 32 <= mem[r.pos] < 128
  {
    hide Reached, Blob, Run;
    StartReached(mem, t, d);
    assert [] + w == w;
    var pos', t' := RunFollowsTrie(mem, 0, t, [], d, w);
    ReachedByte(mem, pos', t', w, d);
  }

  /** The first character that leaves the set is refused, and nothing after it matters. */
  lemma WalkRefusesOthers(mem: seq<int>, t: Trie, d: Dictionary, v: Symbol, c: int, rest: Symbol)
    requires Compiled(mem, t, d)
    requires IsPrefixIn(v, d) && v !in d && !IsPrefixIn(v + [c], d)
    ensures Run(mem, 0, v + [c] + rest) == NotFound
  {
    hide Reached, Blob, Feed, Holds, Run;
    StartReached(mem, t, d);
    assert [] + v == v;
    var pos', t' := RunFollowsTrie(mem, 0, t, [], d, v);
    HoldsExpands(t', v, d);
    NotStuck(t', v, d);
    var i := FeedFollowsTrie(mem, pos', t', v, d, c);
    if i < |t'.childs| { assert false; }
    RunAppend(mem, 0, v, [c] + rest);
    assert v + ([c] + rest) == v + [c] + rest;
    RunRefused(mem, pos', c, rest);
  }

  lemma RunRefused(mem: seq<int>, pos: nat, c: int, rest: Symbol)
    requires Feed(mem, pos, c) == NotFound
    ensures Run(mem, pos, [c] + rest) == NotFound
  {
    hide Feed;
    assert ([c] + rest)[0] == c;
  }

  /** A text that is no prefix of a symbol has a longest prefix that is. */
  lemma {:induction false} LeavingPoint(d: Dictionary, w: Symbol, m: nat) returns (i: nat)
    requires m <= |w| && IsPrefixIn(w[..m], d) && !IsPrefixIn(w, d)
    ensures i < |w| && IsPrefixIn(w[..i], d) && !IsPrefixIn(w[..i + 1], d)
    decreases |w| - m
  {
    hide IsPrefixIn;
    assert w[..|w|] == w;
    if IsPrefixIn(w[..m + 1], d) {
      i := LeavingPoint(d, w, m + 1);
    } else {
      i := m;
    }
  }

  /** What a received text selects: the handler whose reference the walk stands on, if any. */
  function Selected(mem: seq<int>, w: Symbol): int {
    var r := Run(mem, 0, w);
    if r.At? && r.pos < |mem| && mem[r.pos] >= 128 then mem[r.pos] - 128 else -1
  }

  /** Walking the blob is looking the text up in the list, for every text that does not go on
      after a complete symbol. */
  lemma WalkIsLookup(mem: seq<int>, t: Trie, d: Dictionary, w: Symbol)
    requires Compiled(mem, t, d)
    requires forall i :: 0 <= i < |w| ==> w[..i] !in d
    ensures Selected(mem, w) == if w in d then d[w] as int else -1
  {
    hide Compiled, Run;
    if IsPrefixIn(w, d) {
      WalkAcceptsPrefixes(mem, t, d, w);
    } else {
      StartIsPrefix(mem, t, d);
      assert w[..0] == [];
      var i := LeavingPoint(d, w, 0);
      assert w[..i] + [w[i]] == w[..i + 1];
      assert w[..i] + [w[i]] + w[i + 1..] == w;
      WalkRefusesOthers(mem, t, d, w[..i], w[i], w[i + 1..]);
      MemberIsPrefix(w, d);
    }
  }

  lemma MemberIsPrefix(w: Symbol, d: Dictionary)
    ensures w in d ==> IsPrefixIn(w, d)
  {
    assert w <= w;
  }

  lemma StartIsPrefix(mem: seq<int>, t: Trie, d: Dictionary)
    requires Compiled(mem, t, d)
    ensures IsPrefixIn([], d)
  {
    var k :| k in d;
    assert [] <= k;
  }

  // ----- the compiler -----

  /** The symbol list as a dictionary: symbol -> position in the list as the application gave it. */
  ghost predicate Numbers(d: Dictionary, symbols: seq<Symbol>) {
    && (forall k :: k in d <==> k in symbols)
    && (forall i :: 0 <= i < |symbols| ==> d[symbols[i]] == i)
  }

  /** `sortedSymbols.index(symbol)`. */
  method IndexOf(sorted: seq<Symbol>, s: Symbol) returns (k: nat)
    requires s in sorted
    ensures k < |sorted| && sorted[k] == s
  {
    k := 0;
    while sorted[k] != s
      invariant 0 <= k < |sorted| && s in sorted[k..]
      decreases |sorted| - k
    {
      assert sorted[k..] == [sorted[k]] + sorted[k + 1..];
      k := k + 1;
    }
  }

  /** `genBlobTree`: number the sorted symbols by their original position, build the trie, compact it,
      make it ternary, compact that, and write the bytes. */
  method GenBlobTree(symbols: seq<Symbol>, sorted: seq<Symbol>) returns (blob: seq<int>, t: Trie, ghost d: Dictionary)
    requires Sorted(sorted) && multiset(sorted) == multiset(symbols)
    requires forall i :: 0 <= i < |symbols| ==> symbols[i] != []
    ensures blob == Blob(ToTernary(t)) && t.str == [] && Holds(t, [], d) && Numbers(d, symbols)
  {
    Distinct(symbols, sorted);
    var indexMap: seq<nat> := seq(|sorted|, _ => 0);
    for i := 0 to |symbols|
      invariant |indexMap| == |sorted|
      invariant forall j, k :: 0 <= j < i && 0 <= k < |sorted| && sorted[k] == symbols[j] ==> indexMap[k] == j
    {
      assert symbols[i] in sorted;
      var k := IndexOf(sorted, symbols[i]);
      indexMap := indexMap[k := i];
    }
    forall i | 0 <= i < |sorted| ensures sorted[i] != [] { assert sorted[i] in symbols; }
    var cells := BuildTree(sorted, indexMap);
    t := Unfold(cells, 0);
    d := Numbered(sorted, indexMap, |sorted|);
    assert sorted[..|sorted|] == sorted;
    forall i | 0 <= i < |symbols| ensures d[symbols[i]] == i {
      assert symbols[i] in sorted;
      var k :| 0 <= k < |sorted| && sorted[k] == symbols[i];
    }
    blob := Emit(t);
  }

  /** The part after `buildTree`, as the source orders it. */
  function Emit(t: Trie): (blob: seq<int>)
    ensures blob == Blob(ToTernary(t))
  {
    CompactionIsNeutral(t);
    Blob(CompactTernary(ToTernary(CompactTree(t, 0))))
  }

  /** A list whose sorted form is strictly increasing has no repetition, and the same members. */
  lemma Distinct(symbols: seq<Symbol>, sorted: seq<Symbol>)
    requires Sorted(sorted) && multiset(sorted) == multiset(symbols)
    ensures forall k :: k in symbols <==> k in sorted
    ensures forall i, j :: 0 <= i < j < |symbols| ==> symbols[i] != symbols[j]
    ensures forall i, j :: 0 <= i < j < |sorted| ==> sorted[i] != sorted[j]
    ensures |symbols| == |sorted|
  {
    forall k ensures k in symbols <==> k in sorted {
      assert k in multiset(symbols) <==> k in multiset(sorted);
    }
    forall i, j | 0 <= i < j < |sorted| ensures sorted[i] != sorted[j] { LessIsIrreflexive(sorted[i]); }
    assert |symbols| == |multiset(symbols)| == |multiset(sorted)| == |sorted|;
    forall i, j | 0 <= i < j < |symbols| ensures symbols[i] != symbols[j] {
      if symbols[i] == symbols[j] {
        CountTwice(symbols, i, j);
        CountOnce(sorted, symbols[i]);
      }
    }
  }

  lemma CountTwice(s: seq<Symbol>, i: nat, j: nat)
    requires i < j < |s| && s[i] == s[j]
    ensures multiset(s)[s[i]] >= 2
  {
    assert s == s[..j] + [s[j]] + s[j + 1..];
    assert s[i] in s[..j];
  }

  lemma {:induction false} CountOnce(s: seq<Symbol>, k: Symbol)
    requires forall i, j :: 0 <= i < j < |s| ==> s[i] != s[j]
    ensures multiset(s)[k] <= 1
  {
    if s != [] {
      CountOnce(s[1..], k);
      assert s == [s[0]] + s[1..];
      if s[0] == k { assert k !in s[1..]; }
    }
  }

  // ----- when the side conditions hold -----

  /** With no symbol a prefix of another, the step over a reference byte is never followed by a match. */
  lemma {:induction false} PrefixFreeIsSteppable(s: seq<Trie>, p: Symbol, d: Dictionary)
    requires SiblingsHold(s, p, d)
    requires forall j, k :: j in d && k in d && j <= k ==> j == k
    ensures Steppable(FromSiblings(s))
  {
    hide Holds;
    if s != [] {
      var mid := |s| / 2;
      var m := s[mid];
      assert m in s;
      SlicesHold(s, p, d, mid);
      PrefixFreeIsSteppable(s[..mid], p, d);
      PrefixFreeIsSteppable(s[mid + 1..], p, d);
      HoldsExpands(m, p + m.str, d);
      PrefixFreeIsSteppable(m.childs, p + m.str, d);
      if m.final && m.childs != [] {
        SlicesHold(m.childs, p + m.str, d, 0);
        assert false;
      }
    }
  }

  /** A blob of at most 256 bytes has no jump the walker's byte offsets cannot make. */
  lemma {:induction false} SmallBlobFits(t: Tern)
    requires WellFormed(t) && |Blob(t)| <= 256
    ensures Fits(t)
  {
    hide Blob, Links;
    if t.Node? {
      BlobOf(t);
      LinksAre(Blob(t.lt), Blob(t.eq), Blob(t.gt), Count(t));
      SmallBlobFits(t.lt);
      SmallBlobFits(t.eq);
      SmallBlobFits(t.gt);
    }
  }

  /** End to end: compile any prefix-free list of at most 128 printable symbols whose jumps fit the walker's byte
      offsets, put the blob in memory, and walk it: the reference found is the symbol's list position. */
  lemma ServedFromList(symbols: seq<Symbol>, mem: seq<int>, blob: seq<int>, t: Trie, d: Dictionary, w: Symbol)
    requires 0 < |symbols| <= 128 && PrefixFree(symbols) && (forall i :: 0 <= i < |symbols| ==> Printable(symbols[i]))
    requires blob == Blob(ToTernary(t)) && t.str == [] && Holds(t, [], d) && Numbers(d, symbols)
    requires Fits(ToTernary(t)) && Sits(mem, 0, blob)
    requires forall i :: 0 <= i < |w| ==> w[..i] !in symbols
    ensures w in symbols ==> 0 <= Selected(mem, w) < |symbols| && symbols[Selected(mem, w)] == w
    ensures w !in symbols ==> Selected(mem, w) == -1
  {
    hide Blob, Holds, Run;
    HoldsExpands(t, [], d);
    forall k | k in d ensures Printable(k) && d[k] < 128 { var i :| 0 <= i < |symbols| && symbols[i] == k; }
    assert symbols[0] in d;
    forall j, k | j in d && k in d && j <= k ensures j == k {
      var i :| 0 <= i < |symbols| && symbols[i] == j;
      var h :| 0 <= h < |symbols| && symbols[h] == k;
    }
    SiblingsWellFormed(t.childs, [], d);
    PrefixFreeIsSteppable(t.childs, [], d);
    assert Steppable(ToTernary(t)) by { RootConditions(t); }
    WalkIsLookup(mem, t, d, w);
    if w in symbols { var i :| 0 <= i < |symbols| && symbols[i] == w; }
  }

  lemma RootConditions(t: Trie)
    ensures Steppable(FromSiblings(t.childs)) && !t.final ==> Steppable(ToTernary(t))
  {
  }

  // ----- the search tree is balanced -----

  /** How many nodes the walk compares a character with among siblings. */
  function Comparisons(t: Tern, c: int): nat
    requires WellFormed(t)
  {
    if t == Nil then 0 else
      1 + if c == t.str[0] then 0 else if c < t.str[0] then Comparisons(t.lt, c) else Comparisons(t.gt, c)
  }

  function Pow2(n: nat): nat { if n == 0 then 1 else 2 * Pow2(n - 1) }

  lemma ComparisonsAtRoot(s: seq<Trie>, c: int)
    requires s != [] && WellFormed(FromSiblings(s))
    ensures var mid := |s| / 2;
            && |s[mid].str| == 1 && WellFormed(FromSiblings(s[..mid])) && WellFormed(FromSiblings(s[mid + 1..]))
            && Comparisons(FromSiblings(s), c) ==
                 1 + if c == s[mid].str[0] then 0
                     else if c < s[mid].str[0] then Comparisons(FromSiblings(s[..mid]), c)
                     else Comparisons(FromSiblings(s[mid + 1..]), c)
  {
  }

  /** Among k siblings a character costs at most floor(log2 k) + 1 comparisons. */
  lemma {:induction false} SearchIsLogarithmic(s: seq<Trie>, c: int)
    requires s != [] && WellFormed(FromSiblings(s))
    ensures var n := Comparisons(FromSiblings(s), c); n >= 1 && Pow2(n - 1) <= |s|
  {
    hide WellFormed, FromSiblings, Comparisons;
    ComparisonsAtRoot(s, c);
    var mid := |s| / 2;
    if c < s[mid].str[0] {
      if mid > 0 { SearchIsLogarithmic(s[..mid], c); } else { NoComparisons(s[..mid], c); }
    } else if c > s[mid].str[0] {
      if mid + 1 < |s| { SearchIsLogarithmic(s[mid + 1..], c); } else { NoComparisons(s[mid + 1..], c); }
    }
  }

  lemma NoComparisons(s: seq<Trie>, c: int)
    requires s == []
    ensures WellFormed(FromSiblings(s)) && Comparisons(FromSiblings(s), c) == 0
  {
  }

  /** The siblings of a search tree from left to right. */
  function InOrder(t: Tern): seq<Symbol> {
    if t == Nil then [] else InOrder(t.lt) + [t.str] + InOrder(t.gt)
  }

  /** `toTernaryTree` keeps the order of siblings. */
  lemma {:induction false} OrderIsKept(s: seq<Trie>)
    ensures |InOrder(FromSiblings(s))| == |s|
    ensures forall i :: 0 <= i < |s| ==> InOrder(FromSiblings(s))[i] == s[i].str
    decreases |s|
  {
    if s != [] {
      var mid := |s| / 2;
      InOrderStep(s);
      hide FromSiblings, InOrder;
      OrderIsKept(s[..mid]);
      OrderIsKept(s[mid + 1..]);
      JoinedTexts(s, mid, InOrder(FromSiblings(s[..mid])), InOrder(FromSiblings(s[mid + 1..])));
    }
  }

  lemma InOrderStep(s: seq<Trie>)
    requires s != []
    ensures var mid := |s| / 2;
            InOrder(FromSiblings(s)) == InOrder(FromSiblings(s[..mid])) + [s[mid].str] + InOrder(FromSiblings(s[mid + 1..]))
  {
  }

  lemma JoinedTexts(s: seq<Trie>, mid: nat, a: seq<Symbol>, b: seq<Symbol>)
    requires mid < |s| && |a| == mid && |b| == |s| - mid - 1
    requires forall i :: 0 <= i < |a| ==> a[i] == s[..mid][i].str
    requires forall i :: 0 <= i < |b| ==> b[i] == s[mid + 1..][i].str
    ensures forall i :: 0 <= i < |s| ==> (a + [s[mid].str] + b)[i] == s[i].str
  {
  }
}
