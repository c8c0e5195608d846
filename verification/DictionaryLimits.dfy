/** Where the side conditions of the dictionary end: compiled lists that do not fit, and texts that go on. */
module DictionaryLimits {
  import opened Symbols
  import opened Trie
  import opened Ternary
  import opened Walker
  import opened Dictionaries

  // ----- a numbered list has one blob -----

  /** The same trie, but for references of nodes that are not final, which nothing reads. */
  ghost predicate Alike(t: Trie, u: Trie)
    decreases t, 0
  {
    && t.str == u.str && t.final == u.final && (t.final ==> t.ref == u.ref)
    && AllAlike(t.childs, u.childs)
  }

  ghost predicate AllAlike(s: seq<Trie>, r: seq<Trie>)
    decreases s, 1
  {
    |s| == |r| && forall i :: 0 <= i < |s| ==> Alike(s[i], r[i])
  }

  /** Every character of one list of siblings is one of the other. */
  lemma SameCharacter(s: seq<Trie>, u: Trie, p: Symbol, d: Dictionary, i: nat) returns (j: nat)
    requires SiblingsHold(s, p, d) && Holds(u, p, d) && i < |s|
    ensures j < |u.childs| && u.childs[j].str == s[i].str
  {
    hide Holds, Ascending;
    assert Holds(s[i], p + s[i].str, d);
    CharacterOf(s, i) by { assert Ascending(s); }
    var c := s[i].str[0];
    var k :| k in d && p + s[i].str <= k;
    assert p <= k && p != k && k[|p|] == c;
    BranchOf(u, p, d, k);
    j :| 0 <= j < |u.childs| && u.childs[j].str == [c];
  }

  lemma CharacterOf(s: seq<Trie>, i: nat)
    requires Ascending(s) && i < |s|
    ensures s[i].str == [s[i].str[0]]
  {
  }

  lemma BranchOf(u: Trie, p: Symbol, d: Dictionary, k: Symbol)
    requires Holds(u, p, d) && k in d && p <= k && p != k
    ensures |k| > |p| && Branches(u, k[|p|])
  {
    assert k == p + k[|p|..];
    assert |k| > |p|;
    assert Branches(u, k[|p|]);
  }

  ghost predicate HasText(s: seq<Trie>, text: Symbol) { exists j :: 0 <= j < |s| && s[j].str == text }

  ghost predicate Covers(s: seq<Trie>, r: seq<Trie>) { forall i :: 0 <= i < |s| ==> HasText(r, s[i].str) }

  /** The text of place n of one list stands at place n or later in the other, if all before agrees. */
  lemma StandsLater(s: seq<Trie>, r: seq<Trie>, n: nat) returns (j: nat)
    requires Ascending(s) && Covers(s, r) && n < |s|
    requires n <= |r| && forall i :: 0 <= i < n ==> s[i].str == r[i].str
    ensures n <= j < |r| && r[j].str == s[n].str
  {
    assert forall i :: 0 <= i < n ==> s[i].str != s[n].str;
    assert HasText(r, s[n].str);
    j :| 0 <= j < |r| && r[j].str == s[n].str;
  }

  lemma SameText(s: seq<Trie>, r: seq<Trie>, n: nat, i: nat, j: nat)
    requires Ascending(s) && Ascending(r) && n <= i < |s| && n <= j < |r|
    requires r[j].str == s[n].str && s[i].str == r[n].str
    ensures s[n].str == r[n].str
  {
    CharacterOf(s, n);
    CharacterOf(r, n);
    assert r[n].str[0] <= r[j].str[0] && s[n].str[0] <= s[i].str[0];
  }

  /** Two strictly ascending lists with the same characters have the same length and characters in place. */
  lemma {:induction false} SameAscending(s: seq<Trie>, r: seq<Trie>, n: nat)
    requires Ascending(s) && Ascending(r) && Covers(s, r) && Covers(r, s)
    ensures n <= |s| || n <= |r| ==> n <= |s| && n <= |r| && forall i :: 0 <= i < n ==> s[i].str == r[i].str
    decreases n
  {
    hide Ascending, Covers;
    if n > 0 && (n <= |s| || n <= |r|) {
      SameAscending(s, r, n - 1);
      if n <= |s| { var j := StandsLater(s, r, n - 1); }
      if n <= |r| { var i := StandsLater(r, s, n - 1); }
      var j := StandsLater(s, r, n - 1);
      var i := StandsLater(r, s, n - 1);
      SameText(s, r, n - 1, i, j);
    }
  }

  /** Below a prefix the trie of a dictionary is determined. */
  lemma {:induction false} TrieIsDetermined(t: Trie, u: Trie, p: Symbol, d: Dictionary)
    requires Holds(t, p, d) && Holds(u, p, d) && t.str == u.str
    ensures Alike(t, u)
    decreases t
  {
    var s, r := t.childs, u.childs;
    hide Holds, Alike;
    HoldsExpands(t, p, d);
    HoldsExpands(u, p, d);
    forall i | 0 <= i < |s| ensures HasText(r, s[i].str) {
      var j := SameCharacter(s, u, p, d, i);
    }
    forall i | 0 <= i < |r| ensures HasText(s, r[i].str) {
      var j := SameCharacter(r, t, p, d, i);
    }
    SameAscending(s, r, |s|);
    SameAscending(s, r, |r|);
    forall i | 0 <= i < |s| ensures Alike(s[i], r[i]) {
      assert Holds(s[i], p + s[i].str, d) && Holds(r[i], p + r[i].str, d);
      TrieIsDetermined(s[i], r[i], p + s[i].str, d);
    }
    AlikeIs(t, u);
  }

  lemma AlikeIs(t: Trie, u: Trie)
    requires t.str == u.str && t.final == u.final && (t.final ==> t.ref == u.ref) && |t.childs| == |u.childs|
    requires forall i :: 0 <= i < |t.childs| ==> Alike(t.childs[i], u.childs[i])
    ensures Alike(t, u)
  {
  }

  /** Every recorded offset fits the byte it is written in. */
  predicate OffsetsFit(t: Tern) {
    t.Node? ==>
      && (forall i :: 0 <= i < |Links(Blob(t.lt), Blob(t.eq), Blob(t.gt))| ==> Links(Blob(t.lt), Blob(t.eq), Blob(t.gt))[i] < 256)
      && OffsetsFit(t.lt) && OffsetsFit(t.eq) && OffsetsFit(t.gt)
  }

  lemma AlikeSlices(s: seq<Trie>, r: seq<Trie>, mid: nat)
    requires AllAlike(s, r) && mid < |s|
    ensures AllAlike(s[..mid], r[..mid]) && AllAlike(s[mid + 1..], r[mid + 1..]) && AllAlike(s[mid].childs, r[mid].childs)
    ensures s[mid].str == r[mid].str && s[mid].final == r[mid].final && (s[mid].final ==> s[mid].ref == r[mid].ref)
  {
    assert Alike(s[mid], r[mid]);
  }

  /** The bytes and offsets of a node depend on its text, its mark and those of its children. */
  lemma SameNode(m: Tern, n: Tern)
    requires m.Node? && n.Node? && m.str == n.str && m.final == n.final && (m.final ==> m.ref == n.ref)
    requires SameTree(m.lt, n.lt) && SameTree(m.eq, n.eq) && SameTree(m.gt, n.gt)
    ensures SameTree(m, n)
  {
    hide Blob;
    BlobOf(m);
    BlobOf(n);
    hide Encode, Links;
  }

  ghost predicate SameTree(m: Tern, n: Tern) {
    Blob(m) == Blob(n) && Fits(m) == Fits(n) && OffsetsFit(m) == OffsetsFit(n)
  }

  /** Alike tries have the same bytes and the same offsets. */
  lemma {:induction false} AlikeBlobs(s: seq<Trie>, r: seq<Trie>)
    requires AllAlike(s, r)
    ensures SameTree(FromSiblings(s), FromSiblings(r))
    decreases s
  {
    hide Blob, Fits, OffsetsFit, SameTree, AllAlike, Alike;
    if s != [] {
      var mid := |s| / 2;
      SameLength(s, r);
      AlikeSlices(s, r, mid);
      assert s[mid] in s;
      AlikeBlobs(s[..mid], r[..mid]);
      AlikeBlobs(s[mid].childs, r[mid].childs);
      AlikeBlobs(s[mid + 1..], r[mid + 1..]);
      SameNode(FromSiblings(s), FromSiblings(r));
    } else {
      SameLength(s, r);
      SameNil();
    }
  }

  lemma SameNil()
    ensures SameTree(Nil, Nil)
  {
  }

  lemma SameLength(s: seq<Trie>, r: seq<Trie>)
    requires AllAlike(s, r)
    ensures |s| == |r|
  {
  }

  /** What is compiled from a numbered list does not depend on which trie holds it. */
  lemma BlobIsDetermined(t: Trie, u: Trie, d: Dictionary)
    requires Holds(t, [], d) && Holds(u, [], d) && t.str == u.str == []
    ensures SameTree(ToTernary(t), ToTernary(u))
  {
    hide Blob, Fits, OffsetsFit, SameTree, AllAlike;
    TrieIsDetermined(t, u, [], d);
    RootAlike(t, u);
    AlikeBlobs(t.childs, u.childs);
    SameNil();
    SameNode(ToTernary(t), ToTernary(u));
  }

  lemma RootAlike(t: Trie, u: Trie)
    requires Alike(t, u)
    ensures AllAlike(t.childs, u.childs) && t.final == u.final && (t.final ==> t.ref == u.ref)
  {
  }

  // ----- offsets that fit one by one but not together -----

  function Xs(n: nat): Symbol { seq(n, _ => 120) }

  /** `x` n + 1 times, then a reference. */
  function Tail(n: nat, ref: nat): Trie {
    if n == 0 then Trie([120], [], true, ref) else Trie([120], [Tail(n - 1, ref)], false, 0)
  }

  /** Two long symbols and a short one. */
  function CrowdedList(n: nat): seq<Symbol> { [[97] + Xs(n + 1), [98] + Xs(n + 1), [99]] }

  function CrowdedTrie(n: nat): Trie {
    Trie([], [Trie([97], [Tail(n, 0)], false, 0), Trie([98], [Tail(n, 1)], false, 0), Trie([99], [], true, 2)], false, 0)
  }

  /** `s` is the one symbol of `d` that starts with `p`. */
  ghost predicate OnlyOne(d: Dictionary, p: Symbol, s: Symbol) {
    s in d && p <= s && forall k :: k in d && p <= k ==> k == s
  }

  lemma OnlyOneGoesOn(d: Dictionary, p: Symbol, s: Symbol)
    requires OnlyOne(d, p, s) && |p| < |s|
    ensures p !in d && OnlyOne(d, p + [s[|p|]], s) && IsPrefixIn(p + [s[|p|]], d)
    ensures forall k :: k in d && p <= k && p != k ==> k[|p|] == s[|p|]
  {
    assert p <= p;
    assert p + [s[|p|]] <= s;
    forall k | k in d && p + [s[|p|]] <= k ensures k == s { assert p <= k; }
  }

  lemma SingleHolds(t: Trie, child: Trie, p: Symbol, d: Dictionary, s: Symbol)
    requires OnlyOne(d, p, s) && |p| < |s| && t.childs == [child] && !t.final
    requires child.str == [s[|p|]] && Holds(child, p + child.str, d)
    ensures Holds(t, p, d)
  {
    OnlyOneGoesOn(d, p, s);
    hide OnlyOne;
    assert SiblingsHold(t.childs, p, d);
    assert t.childs[0].str == [s[|p|]];
    assert Branches(t, s[|p|]);
  }

  lemma {:induction false} TailHolds(n: nat, ref: nat, p: Symbol, d: Dictionary)
    requires OnlyOne(d, p, p + Xs(n)) && d[p + Xs(n)] == ref
    ensures Holds(Tail(n, ref), p, d)
    decreases n
  {
    var s := p + Xs(n);
    if n == 0 {
      assert s == p;
      assert forall k :: k in d && p <= k ==> k == p;
      assert SiblingsHold([], p, d);
    } else {
      OnlyOneGoesOn(d, p, s);
      assert p + [120] + Xs(n - 1) == s;
      hide Holds, OnlyOne;
      TailHolds(n - 1, ref, p + [120], d);
      assert Tail(n - 1, ref).str == [120];
      SingleHolds(Tail(n, ref), Tail(n - 1, ref), p, d, s);
    }
  }

  lemma CrowdedSymbols(n: nat, d: Dictionary)
    requires Numbers(d, CrowdedList(n))
    ensures var l := CrowdedList(n);
            && d == map[l[0] := 0, l[1] := 1, l[2] := 2] && PrefixFree(l)
            && (forall i :: 0 <= i < 3 ==> Printable(l[i]))
            && OnlyOne(d, [97], l[0]) && OnlyOne(d, [98], l[1]) && OnlyOne(d, [99], l[2])
  {
    var l := CrowdedList(n);
    assert l[0][0] == 97 && l[1][0] == 98 && l[2][0] == 99;
    forall k ensures k in d <==> k == l[0] || k == l[1] || k == l[2] {}
    assert d[l[0]] == 0 && d[l[1]] == 1 && d[l[2]] == 2;
  }

  /** A symbol of one letter and n + 1 times `x` makes this branch. */
  lemma ArmHolds(n: nat, c: int, ref: nat, d: Dictionary)
    requires OnlyOne(d, [c], [c] + Xs(n + 1)) && d[[c] + Xs(n + 1)] == ref
    ensures Holds(Trie([c], [Tail(n, ref)], false, 0), [c], d)
  {
    var s := [c] + Xs(n + 1);
    OnlyOneGoesOn(d, [c], s);
    assert [c] + [s[1]] + Xs(n) == s;
    hide OnlyOne, Holds;
    TailHolds(n, ref, [c] + [s[1]], d);
    assert Tail(n, ref).str == [s[1]];
    SingleHolds(Trie([c], [Tail(n, ref)], false, 0), Tail(n, ref), [c], d, s);
  }

  lemma LeafHolds(t: Trie, p: Symbol, d: Dictionary)
    requires OnlyOne(d, p, p) && t.final && t.ref == d[p] && t.childs == []
    ensures Holds(t, p, d)
  {
    assert SiblingsHold([], p, d);
  }

  /** The trie of the list. */
  lemma CrowdedHolds(n: nat, d: Dictionary)
    requires Numbers(d, CrowdedList(n))
    ensures Holds(CrowdedTrie(n), [], d)
  {
    CrowdedSymbols(n, d);
    ArmHolds(n, 97, 0, d);
    ArmHolds(n, 98, 1, d);
    LeafHolds(Trie([99], [], true, 2), [99], d);
    hide OnlyOne, Numbers;
    var t, l := CrowdedTrie(n), CrowdedList(n);
    assert l[0][0] == 97 && l[1][0] == 98 && l[2][0] == 99;
    ThreeHold(t, d, l);
  }

  /** `u` holds what starts like `s`. */
  ghost predicate Arm(u: Trie, s: Symbol, d: Dictionary) {
    Holds(u, u.str, d) && |s| > 0 && u.str == [s[0]]
  }

  lemma ThreeHold(t: Trie, d: Dictionary, l: seq<Symbol>)
    requires t.str == [] && !t.final && |t.childs| == 3 && |l| == 3 && Ascending(t.childs)
    requires forall i :: 0 <= i < 3 ==> Arm(t.childs[i], l[i], d)
    requires forall k :: k in d <==> k == l[0] || k == l[1] || k == l[2]
    ensures Holds(t, [], d)
  {
    hide Ascending;
    var s, p: Symbol := t.childs, [];
    forall i | 0 <= i < |s|
      ensures IsPrefixIn(p + s[i].str, d) && Holds(s[i], p + s[i].str, d)
    {
      assert Arm(s[i], l[i], d);
      assert p + s[i].str == s[i].str;
      var k := l[i];
      assert k == l[0] || k == l[1] || k == l[2];
      assert k in d && [k[0]] <= k;
    }
    assert SiblingsHold(s, p, d);
    forall k | k in d && [] <= k && [] != k ensures Branches(t, k[0]) {
      var i := if k == l[0] then 0 else if k == l[1] then 1 else 2;
      assert Arm(t.childs[i], l[i], d);
    }
    assert [] !in d;
  }

  // ----- its bytes -----

  function Chain(n: nat, ref: nat): Tern {
    if n == 0 then Node([120], Nil, Nil, Nil, true, ref) else Node([120], Nil, Chain(n - 1, ref), Nil, false, 0)
  }

  lemma OneSibling(t: Trie)
    ensures FromSiblings([t]) == Node(t.str, Nil, FromSiblings(t.childs), Nil, t.final, t.ref)
  {
    assert [t][..0] == [] && [t][1..] == [];
  }

  lemma {:induction false} TailIsChain(n: nat, ref: nat)
    ensures FromSiblings([Tail(n, ref)]) == Chain(n, ref)
  {
    OneSibling(Tail(n, ref));
    if n > 0 {
      hide FromSiblings;
      TailIsChain(n - 1, ref);
    }
  }

  /** The siblings `a`, `b` and `c` as a search tree. */
  function Crowded(n: nat): Tern {
    Node([98], Node([97], Nil, Chain(n, 0), Nil, false, 0), Chain(n, 1), Node([99], Nil, Nil, Nil, true, 2), false, 0)
  }

  lemma CrowdedIsTree(n: nat)
    ensures FromSiblings(CrowdedTrie(n).childs) == Crowded(n)
  {
    var s := CrowdedTrie(n).childs;
    TailIsChain(n, 0);
    TailIsChain(n, 1);
    OneSibling(s[0]);
    OneSibling(s[2]);
    assert |s| / 2 == 1 && s[..1] == [s[0]] && s[2..] == [s[2]];
    hide Tail, Chain;
    assert FromSiblings([]) == Nil;
  }

  lemma {:induction false} ChainBytes(n: nat, ref: nat)
    ensures var b := Blob(Chain(n, ref));
            |b| == n + 3 && (forall i :: 0 <= i <= n ==> b[i] == 120)
    ensures Chain(n, ref).Node? && OffsetsFit(Chain(n, ref))
  {
    hide Blob;
    if n > 0 {
      ChainBytes(n - 1, ref);
      ChainBlob([120], Chain(n - 1, ref), 0);
      var b := Blob(Chain(n - 1, ref));
      assert Blob(Chain(n, ref)) == [120] + b;
      assert forall i :: 1 <= i <= n ==> ([120] + b)[i] == b[i - 1];
      assert Links([], b, []) == [];
      OffsetsOfNil();
    } else {
      BlobOf(Chain(0, ref));
      OffsetsOfNil();
      assert Links([], [], []) == [0];
    }
  }

  lemma OffsetsOfNil()
    ensures Blob(Nil) == [] && OffsetsFit(Nil)
  {
  }

  /** Where the bytes of a node with three children and no reference stand. */
  lemma ThreeChildren(k: int, lt: seq<int>, eq: seq<int>, gt: seq<int>)
    requires lt != [] && eq != [] && gt != []
    ensures [k] + Encode([], lt, eq, gt) == [k, 7, |lt|, |eq|] + lt + eq + gt
    ensures Links(lt, eq, gt) == [7, |lt|, |eq|]
  {
  }

  lemma LeafOffsets(c: int, ref: nat)
    ensures var t := Node([c], Nil, Nil, Nil, true, ref); OffsetsFit(t) && |Blob(t)| == 3
  {
    OffsetsOfNil();
    assert Links([], [], []) == [0];
    BlobOf(Node([c], Nil, Nil, Nil, true, ref));
  }

  lemma ArmOffsets(c: int, eq: Tern)
    requires eq != Nil && OffsetsFit(eq)
    ensures var t := Node([c], Nil, eq, Nil, false, 0); OffsetsFit(t) && Blob(t) == [c] + Blob(eq)
  {
    hide Blob;
    OffsetsOfNil();
    ChainBlob([c], eq, 0);
    assert Links([], Blob(eq), []) == [];
  }

  lemma CrowdedBytes(n: nat)
    ensures var t, b := Crowded(n), Blob(Crowded(n));
            && |Blob(t.lt)| == n + 4 && |Blob(t.eq)| == n + 3 && |Blob(t.gt)| == 3
            && |b| > n + 6 && b[0] == 98 && b[1] == 7 && b[2] == n + 4 && b[3] == n + 3
            && (forall i :: 5 <= i <= 5 + n ==> b[i] == 120)
            && (n < 252 ==> OffsetsFit(t))
  {
    hide Blob, Chain, Encode, Links;
    var t, b := Crowded(n), Blob(Crowded(n));
    ChainBytes(n, 0);
    ChainBytes(n, 1);
    ArmOffsets(97, Chain(n, 0));
    LeafOffsets(99, 2);
    BlobOf(t);
    var lt, eq, gt := Blob(t.lt), Blob(t.eq), Blob(t.gt);
    ThreeChildren(98, lt, eq, gt);
    assert b == [98, 7, |lt|, |eq|] + lt + eq + gt;
    forall i | 5 <= i <= 5 + n ensures b[i] == 120 {
      assert b[i] == lt[i - 4] == Blob(Chain(n, 0))[i - 5];
    }
  }

  lemma CrowdedOffset(n: nat)
    requires 130 <= n <= 249
    ensures HasBit(7, 1) && HasBit(7, 2) && HasBit(7, 4) && Children(7) == 3
    ensures ToByte(ToByte(3 + (n + 4)) + (n + 3)) == 2 * n - 246
  {
  }

  lemma CrowdedJump(b: seq<int>, n: nat)
    requires 130 <= n <= 249
    requires |b| > n + 6 && b[0] == 98 && b[1] == 7 && b[2] == n + 4 && b[3] == n + 3
    requires forall i :: 5 <= i <= 5 + n ==> b[i] == 120
    ensures WalkChar(b, 0, 99) == NotFound
  {
    var p := 2 * n - 245;
    assert b[p] == 120 && b[p + 1] == 120;
    assert WalkChar(b, p, 99) == NotFound;
    CrowdedOffset(n);
    hide HasBit, Children, ToByte;
    assert WalkChar(b, 0, 99) == WalkChar(b, p, 99);
  }

  lemma CrowdedRoot(n: nat)
    requires 130 <= n <= 249
    ensures var t := ToTernary(CrowdedTrie(n));
            && Blob(t) == Blob(Crowded(n)) && OffsetsFit(t) && !Fits(t)
  {
    assert CrowdedTrie(n).str == [] && !CrowdedTrie(n).final && Crowded(n).Node?;
    hide Blob, Crowded, CrowdedTrie, FromSiblings;
    CrowdedIsTree(n);
    CrowdedBytes(n);
    RootOf(CrowdedTrie(n), Crowded(n));
  }

  lemma RootOf(t: Trie, eq: Tern)
    requires eq == FromSiblings(t.childs) && eq != Nil && t.str == [] && !t.final
    ensures Blob(ToTernary(t)) == Blob(eq) && OffsetsFit(ToTernary(t)) == OffsetsFit(eq) && Fits(ToTernary(t)) == Fits(eq)
  {
    hide Blob, FromSiblings;
    OffsetsOfNil();
    ChainBlob([], eq, t.ref);
    assert Links([], Blob(eq), []) == [];
    assert [] + Blob(eq) == Blob(eq);
  }

  lemma SelectsNothing(b: seq<int>, c: int)
    requires |b| > 0 && b[0] < 128 && WalkChar(b, 0, c) == NotFound
    ensures Selected(b, [c]) == -1
  {
    hide WalkChar;
    assert [c][1..] == [];
  }

  /** Offsets that each fit a byte are not enough, because the walker adds them in a byte as well. Compile the list
      of `a` and `b`, each followed by n + 1 times `x`, and `c`: whatever trie holds it, all recorded offsets are
      below 256, yet the jump to `c` lands inside the first symbol, and `c` is not found. */
  lemma OffsetSumsOverflow(n: nat, blob: seq<int>, t: Trie, d: Dictionary)
    requires 130 <= n <= 249
    requires blob == Blob(ToTernary(t)) && t.str == [] && Holds(t, [], d) && Numbers(d, CrowdedList(n))
    ensures PrefixFree(CrowdedList(n)) && forall i :: 0 <= i < |CrowdedList(n)| ==> Printable(CrowdedList(n)[i])
    ensures OffsetsFit(ToTernary(t)) && !Fits(ToTernary(t))
    ensures CrowdedList(n)[2] == [99] && Selected(blob, [99]) == -1
  {
    CrowdedSymbols(n, d);
    CrowdedHolds(n, d);
    assert CrowdedTrie(n).str == [];
    hide Blob, Holds, Crowded, CrowdedTrie, WalkChar, Fits, OffsetsFit, Numbers, OnlyOne, FromSiblings;
    BlobIsDetermined(t, CrowdedTrie(n), d);
    CrowdedRoot(n);
    CrowdedBytes(n);
    CrowdedJump(Blob(Crowded(n)), n);
    SelectsNothing(Blob(Crowded(n)), 99);
  }

  // ----- texts that go on after a complete symbol -----

  /** `ab`, `b` and `c`. */
  function ShortList(): seq<Symbol> { [[97, 98], [98], [99]] }

  function ShortTrie(): Trie {
    Trie([], [Trie([97], [Trie([98], [], true, 0)], false, 0), Trie([98], [], true, 1), Trie([99], [], true, 2)], false, 0)
  }

  lemma ShortSymbols(d: Dictionary)
    requires Numbers(d, ShortList())
    ensures var l := ShortList();
            && d == map[l[0] := 0, l[1] := 1, l[2] := 2] && PrefixFree(l)
            && OnlyOne(d, [97], l[0]) && OnlyOne(d, l[0], l[0]) && OnlyOne(d, l[1], l[1]) && OnlyOne(d, l[2], l[2])
  {
    var l := ShortList();
    assert l[0][0] == 97 && l[1][0] == 98 && l[2][0] == 99;
    forall k ensures k in d <==> k == l[0] || k == l[1] || k == l[2] {}
    assert d[l[0]] == 0 && d[l[1]] == 1 && d[l[2]] == 2;
  }

  lemma ShortHolds(d: Dictionary)
    requires Numbers(d, ShortList())
    ensures Holds(ShortTrie(), [], d)
  {
    ShortSymbols(d);
    var t, l := ShortTrie(), ShortList();
    var leaf := Trie([98], [], true, 0);
    assert l[0] == [97] + leaf.str && l[0][1] == 98;
    LeafHolds(leaf, l[0], d);
    SingleHolds(t.childs[0], leaf, [97], d, l[0]);
    LeafHolds(t.childs[1], [98], d);
    LeafHolds(t.childs[2], [99], d);
    hide OnlyOne, Numbers, Holds;
    ThreeHold(t, d, l);
  }

  function ShortTree(): Tern {
    Node([98], Node([97], Nil, Node([98], Nil, Nil, Nil, true, 0), Nil, false, 0), Nil, Node([99], Nil, Nil, Nil, true, 2), true, 1)
  }

  lemma ShortIsTree()
    ensures FromSiblings(ShortTrie().childs) == ShortTree()
  {
    var s := ShortTrie().childs;
    OneSibling(Trie([98], [], true, 0));
    OneSibling(s[0]);
    OneSibling(s[2]);
    assert |s| / 2 == 1 && s[..1] == [s[0]] && s[2..] == [s[2]];
    assert FromSiblings([]) == Nil;
  }

  lemma ShortBytes()
    ensures Blob(ShortTree()) == [98, 129, 5, 4, 97, 98, 128, 0, 99, 130, 0]
  {
    var l := Node([98], Nil, Nil, Nil, true, 0);
    var r := Node([99], Nil, Nil, Nil, true, 2);
    var a := Node([97], Nil, l, Nil, false, 0);
    assert Blob(l) == [98, 128, 0];
    assert Blob(r) == [99, 130, 0];
    assert Blob(a) == [97, 98, 128, 0] by { ChainBlob([97], l, 0); }
    BlobOf(ShortTree());
  }

  lemma ShortWalk()
    ensures Selected([98, 129, 5, 4, 97, 98, 128, 0, 99, 130, 0], [98, 97, 98]) == 0
  {
    var b := [98, 129, 5, 4, 97, 98, 128, 0, 99, 130, 0];
    assert b[0] == 98 && b[1] == 129 && b[2] == 5 && b[3] == 4 && b[4] == 97 && b[5] == 98 && b[6] == 128;
    assert WalkChar(b, 0, 98) == At(1);
    assert WalkChar(b, 5, 98) == At(6);
    assert WalkChar(b, 4, 97) == At(5);
    assert Children(4) == 1 && !HasBit(4, 2) && HasBit(4, 4) && !HasBit(4, 1) && ToByte(1) == 1;
    assert WalkChar(b, 2, 97) == WalkChar(b, 4, 97);
    hide WalkChar;
    var w := [98, 97, 98];
    assert w[1..] == [97, 98] && [97, 98][1..] == [98] && [98][1..] == [];
    assert Run(b, 5, [98]) == Run(b, 6, []) == At(6);
    assert Run(b, 1, [97, 98]) == Run(b, 5, [98]);
    assert Run(b, 0, w) == Run(b, 1, [97, 98]);
  }

  /** A text that goes on after a complete symbol is outside the lookup law: compile `ab`, `b` and `c`, and `bab`
      walks from the end of `b` into `ab` and selects it. */
  lemma LongerTextsCanMisroute(blob: seq<int>, t: Trie, d: Dictionary)
    requires blob == Blob(ToTernary(t)) && t.str == [] && Holds(t, [], d) && Numbers(d, ShortList())
    ensures PrefixFree(ShortList()) && [98, 97, 98] !in ShortList() && ShortList()[0] == [97, 98]
    ensures Selected(blob, [98, 97, 98]) == 0
  {
    ShortSymbols(d);
    ShortHolds(d);
    assert ShortTrie().str == [] && !ShortTrie().final && ShortTree().Node?;
    hide Blob, Holds, ShortTrie, ShortTree, Fits, OffsetsFit, Numbers, OnlyOne, FromSiblings, Selected, PrefixFree;
    BlobIsDetermined(t, ShortTrie(), d);
    ShortIsTree();
    RootOf(ShortTrie(), ShortTree());
    ShortBytes();
    ShortWalk();
  }
}
