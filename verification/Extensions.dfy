/** Texts that go on after a complete symbol: when the walk refuses them. */
module Extensions {
  import opened Symbols
  import opened Trie
  import opened Ternary
  import opened Walker
  import opened Dictionaries

  /** The node of a text in a search tree of siblings. */
  function NodeOf(t: Tern, w: Symbol): Tern
    requires WellFormed(t) && w != []
    decreases |w|
  {
    var n := Locate(t, w[0]);
    if n == Nil || |w| == 1 then n else
      LocatedWell(t, w[0]);
      NodeOf(n.eq, w[1..])
  }

  lemma {:induction false} LocatedWell(t: Tern, c: int)
    requires WellFormed(t)
    ensures WellFormed(Locate(t, c)) && (Locate(t, c).Node? ==> WellFormed(Locate(t, c).eq) && Locate(t, c).str == [c])
  {
    if t.Node? && c < t.str[0] { LocatedWell(t.lt, c); }
    if t.Node? && c > t.str[0] { LocatedWell(t.gt, c); }
  }

  /** Every symbol has its node: final, and without an `=` child exactly if nothing extends the symbol. */
  lemma {:induction false} NodeOfSymbol(t: Trie, p: Symbol, d: Dictionary, w: Symbol)
    requires Encodable(d) && Holds(t, p, d) && p + w in d && w != []
    ensures WellFormed(FromSiblings(t.childs))
    ensures var n := NodeOf(FromSiblings(t.childs), w);
            n.Node? && n.final && n.ref == d[p + w] && (n.eq == Nil <==> forall k :: k in d && p + w <= k ==> k == p + w)
    decreases |w|
  {
    hide WellFormed, FromSiblings, Locate, Holds;
    HoldsExpands(t, p, d);
    SiblingsWellFormed(t.childs, p, d);
    var i := LocateSibling(t.childs, w[0]);
    assert Branches(t, w[0]) by { BranchesTo(t, p, d, w); }
    var n := Locate(FromSiblings(t.childs), w[0]);
    assert i < |t.childs| && n.Node?;
    LocatedWell(FromSiblings(t.childs), w[0]);
    SlicesHold(t.childs, p, d, i);
    assert (p + [w[0]]) + w[1..] == p + w;
    if |w| > 1 {
      NodeOfSymbol(t.childs[i], p + [w[0]], d, w[1..]);
    } else {
      assert w == [w[0]];
      HoldsExpands(t.childs[i], p + w, d);
      LeafIffLast(t.childs[i], p + w, d);
    }
  }

  lemma BranchesTo(t: Trie, p: Symbol, d: Dictionary, w: Symbol)
    requires Holds(t, p, d) && p + w in d && w != []
    ensures Branches(t, w[0])
  {
    hide SiblingsHold;
    var k := p + w;
    assert p <= k && p != k && k[|p|] == w[0];
    assert Branches(t, k[|p|]);
  }

  lemma LeafIffLast(t: Trie, p: Symbol, d: Dictionary)
    requires Holds(t, p, d)
    ensures FromSiblings(t.childs) == Nil <==> forall k :: k in d && p <= k ==> k == p
  {
    hide Holds;
    HoldsExpands(t, p, d);
    if t.childs != [] {
      SlicesHold(t.childs, p, d, 0);
      var k :| k in d && p + t.childs[0].str <= k;
      assert p <= k && |k| > |p|;
    } else {
      forall k | k in d && p <= k ensures k == p {
        if k != p {
          assert k == p + k[|p|..];
          BranchesTo(t, p, d, k[|p|..]);
        }
      }
    }
  }

  /** What comes at position e is a node's text, unless the blob ends there. */
  predicate TextAt(mem: seq<int>, e: nat, end: nat) {
    e == end || (e < |mem| && 32 <= mem[e] < 128)
  }

  /** The search tree `t` stands at `pos`, and text or the end of the blob after it. */
  ghost predicate Placed(mem: seq<int>, pos: nat, t: Tern, end: nat) {
    WellFormed(t) && Sits(mem, pos, Blob(t)) && TextAt(mem, pos + |Blob(t)|, end)
  }

  /** So do its children, wherever they are. */
  lemma ChildrenPlaced(mem: seq<int>, pos: nat, t: Tern, end: nat)
    requires t.Node? && Placed(mem, pos, t, end)
    ensures var l := |Links(Blob(t.lt), Blob(t.eq), Blob(t.gt))|;
            var f := LinkPos(pos, t) + l;
            && Placed(mem, f, t.lt, end) && Placed(mem, f + |Blob(t.lt)|, t.eq, end)
            && Placed(mem, f + |Blob(t.lt)| + |Blob(t.eq)|, t.gt, end)
  {
    hide Blob, Links, Sits, WellFormed;
    NodeText(t);
    ChildrenWell(t);
    NodeParts(mem, pos, t);
    BlobOf(t);
    var lt, eq, gt := Blob(t.lt), Blob(t.eq), Blob(t.gt);
    var f := LinkPos(pos, t) + |Links(lt, eq, gt)|;
    assert pos + |Blob(t)| == f + |lt| + |eq| + |gt|;
    if t.gt != Nil { FirstByte(mem, f + |lt| + |eq|, t.gt); }
    if t.eq != Nil { FirstByte(mem, f + |lt|, t.eq); }
  }

  lemma ChildrenWell(t: Tern)
    requires t.Node? && WellFormed(t)
    ensures WellFormed(t.lt) && WellFormed(t.eq) && WellFormed(t.gt)
  {
  }

  /** The number of link bytes is what the walker counts. */
  lemma LinksLength(t: Tern)
    requires t.Node? && WellFormed(t)
    ensures var l := |Links(Blob(t.lt), Blob(t.eq), Blob(t.gt))|;
            l == if t.lt == Nil && t.gt == Nil && t.eq != Nil then 0 else if Count(t) == 0 then 1 else Count(t)
  {
    hide Blob, Links;
    LinksAre(Blob(t.lt), Blob(t.eq), Blob(t.gt), Count(t));
  }

  /** The walk for one character stops right behind the text of the sibling found. */
  lemma {:induction false} StopsAtNode(mem: seq<int>, pos: nat, t: Tern, c: int, end: nat) returns (q: nat)
    requires t.Node? && Fits(t) && Placed(mem, pos, t, end) && Locate(t, c).Node?
    ensures Placed(mem, q, Locate(t, c), end)
    ensures WalkChar(mem, pos, c) == WalkChar(mem, q, c)
    decreases t
  {
    hide Blob, WalkChar, Ready, Fits, WellFormed, Sits, Locate, Links;
    q := pos;
    LocateStep(t, c);
    if c != t.str[0] {
      FitsStep(t);
      NodeReady(mem, pos, t);
      ChildrenPlaced(mem, pos, t, end);
      LinksLength(t);
      if c < t.str[0] {
        WalkLess(mem, pos, t, c);
        q := StopsAtNode(mem, LinkPos(pos, t) + Count(t), t.lt, c, end);
      } else {
        WalkMore(mem, pos, t, c);
        q := StopsAtNode(mem, LinkPos(pos, t) + Count(t) + |Blob(t.lt)| + |Blob(t.eq)|, t.gt, c, end);
      }
    }
  }

  /** Where the matched character leaves the walk: on the reference byte, or else on the `=` child. */
  lemma HitStops(mem: seq<int>, q: nat, n: Tern, end: nat)
    requires n.Node? && Fits(n) && Placed(mem, q, n, end)
    ensures WalkChar(mem, q, n.str[0]) == At(if n.final then q + 1 else LinkPos(q, n) + |Links(Blob(n.lt), Blob(n.eq), Blob(n.gt))| + |Blob(n.lt)|)
    ensures n.final ==> q + 1 < |mem| && mem[q + 1] >= 128
    ensures !n.final ==> n.eq != Nil
  {
    hide Blob, Flags, HasBit, Children, ToByte, Fits, WellFormed, Sits, Links;
    NodeReady(mem, q, n);
    LinksLength(n);
    if n.lt != Nil || n.gt != Nil { assert mem[LinkPos(q, n)] < 8; }
  }

  lemma SkipReference(mem: seq<int>, pos: nat, w: Symbol)
    requires pos + 1 < |mem| && mem[pos] >= 128 && mem[pos + 1] < 128 && w != []
    ensures Run(mem, pos, w) == Run(mem, pos + 1, w)
  {
    hide WalkChar;
  }

  lemma RunOne(mem: seq<int>, pos: nat, w: Symbol)
    requires pos < |mem| && mem[pos] < 128 && w != []
    ensures Run(mem, pos, w) == var r := WalkChar(mem, pos, w[0]); if r.At? then Run(mem, r.pos, w[1..]) else r
  {
    hide WalkChar;
  }

  /** The walk for a whole text stops right behind the text of its node. */
  lemma {:induction false} RunStopsAtNode(mem: seq<int>, pos: nat, t: Tern, w: Symbol, end: nat) returns (q: nat)
    requires t.Node? && Fits(t) && Steppable(t) && Placed(mem, pos, t, end) && w != [] && NodeOf(t, w).Node? && NodeOf(t, w).final
    ensures Placed(mem, q, NodeOf(t, w), end)
    ensures Run(mem, pos, w) == At(q + 1)
    decreases |w|
  {
    hide Blob, WalkChar, Fits, WellFormed, Sits, Locate, Links, Steppable, Placed, Run;
    assert WellFormed(t) && Sits(mem, pos, Blob(t)) by { PlacedSits(mem, pos, t, end); }
    FirstByte(mem, pos, t);
    LocatedWell(t, w[0]);
    LocateKeeps(t, w[0]);
    LocateFits(t, w[0]);
    var n := Locate(t, w[0]);
    q := StopsAtNode(mem, pos, t, w[0], end);
    HitStops(mem, q, n, end);
    RunOne(mem, pos, w);
    if |w| > 1 {
      ChildrenPlaced(mem, q, n, end);
      LinksLength(n);
      var e := LinkPos(q, n) + |Links(Blob(n.lt), Blob(n.eq), Blob(n.gt))| + |Blob(n.lt)|;
      assert NodeOf(n.eq, w[1..]) == NodeOf(t, w);
      if n.eq.Node? {
        PlacedSits(mem, e, n.eq, end);
        FirstByte(mem, e, n.eq);
        if n.final { SkipReference(mem, q + 1, w[1..]); }
        q := RunStopsAtNode(mem, e, n.eq, w[1..], end);
      } else {
        LocateNothing(w[1]);
      }
    } else {
      assert w[1..] == [];
      RunNothing(mem, q + 1);
    }
  }

  lemma PlacedSits(mem: seq<int>, pos: nat, t: Tern, end: nat)
    requires Placed(mem, pos, t, end)
    ensures WellFormed(t) && Sits(mem, pos, Blob(t))
  {
    hide Blob, Sits, WellFormed;
  }

  lemma RunNothing(mem: seq<int>, pos: nat)
    ensures Run(mem, pos, []) == At(pos)
  {
  }

  lemma LocateNothing(c: int)
    ensures WellFormed(Nil) && Locate(Nil, c) == Nil
  {
  }

  lemma {:induction false} LocateFits(t: Tern, c: int)
    requires WellFormed(t) && Fits(t)
    ensures Fits(Locate(t, c))
  {
    hide Blob;
    if t.Node? && c != t.str[0] {
      if c < t.str[0] { LocateFits(t.lt, c); } else { LocateFits(t.gt, c); }
    }
  }

  // ----- the refusal -----

  lemma FlagIsNoCharacter(mem: seq<int>, pos: nat, c: int)
    requires pos + 2 < |mem| && mem[pos] >= 128 && 0 <= mem[pos + 1] < 2 && 32 <= mem[pos + 2] < 128 && c >= 32
    ensures Feed(mem, pos, c) == NotFound
  {
  }

  /** Behind a node without `=` and `>` children: its flags, 0 or 1, and then text. */
  lemma BehindLeaf(mem: seq<int>, q: nat, n: Tern, end: nat)
    requires n.Node? && n.final && n.eq == Nil && n.gt == Nil && Placed(mem, q, n, end)
    requires end < |mem| && 32 <= mem[end] < 128
    ensures q + 3 < |mem| && mem[q + 1] >= 128 && 0 <= mem[q + 2] < 2 && 32 <= mem[q + 3] < 128
  {
    hide Blob, Links, Sits, WellFormed;
    NodeText(n);
    NodeParts(mem, q, n);
    ChildrenPlaced(mem, q, n, end);
    LinksLength(n);
    var lt := Blob(n.lt);
    assert Links(lt, [], []) == [if lt == [] then 0 else 1] by { OneLink(lt); }
    assert mem[LinkPos(q, n) + 0] == Links(lt, [], [])[0];
    BlobOf(n);
    if n.lt != Nil { ChildrenWell(n); FirstByte(mem, q + 3, n.lt); }
  }

  lemma OneLink(lt: seq<int>)
    ensures Links(lt, [], []) == [if lt == [] then 0 else 1]
  {
  }

  /** The symbol's node has a `>` child. */
  ghost predicate HasGreater(t: Trie, v: Symbol) {
    v != [] && WellFormed(FromSiblings(t.childs)) &&
    var n := NodeOf(FromSiblings(t.childs), v); n.Node? && n.gt != Nil
  }

  /** A symbol that no other extends and whose node has no `>` child: the walker takes the node's flag byte, 0 or 1,
      for a character and the text behind it for its flags, and refuses whatever printable character comes next
      (of those that reach the walk at all: on a reference byte the server itself takes the space, `?`, `&`, `=`). */
  lemma ExtensionIsRefused(mem: seq<int>, t: Trie, d: Dictionary, v: Symbol, c: int, rest: Symbol)
    requires Compiled(mem, t, d) && v in d && c >= 32
    requires forall k :: k in d && v <= k ==> k == v
    requires !HasGreater(t, v)
    requires var end := |Blob(ToTernary(t))|; end < |mem| && 32 <= mem[end] < 128
    ensures Run(mem, 0, v + [c] + rest) == NotFound
  {
    hide Feed, Run, Blob, Sits, Fits, Steppable, WellFormed, FromSiblings, NodeOf, Placed;
    var s, end := FromSiblings(t.childs), |Blob(ToTernary(t))|;
    assert Printable(v);
    assert [] + v == v;
    NodeOfSymbol(t, [], d, v);
    RootPlaced(mem, t, d);
    var q := RunStopsAtNode(mem, 0, s, v, end);
    BehindLeaf(mem, q, NodeOf(s, v), end);
    FlagIsNoCharacter(mem, q + 1, c);
    RunAppend(mem, 0, v, [c] + rest);
    assert v + ([c] + rest) == v + [c] + rest;
    RunRefused(mem, q + 1, c, rest);
  }

  lemma RootPlaced(mem: seq<int>, t: Trie, d: Dictionary)
    requires Compiled(mem, t, d)
    ensures var s := FromSiblings(t.childs);
            s.Node? && Fits(s) && Steppable(s) && Placed(mem, 0, s, |Blob(ToTernary(t))|)
  {
    hide Blob, Sits;
    StartReached(mem, t, d);
    HoldsExpands(t, [], d);
    SiblingsWellFormed(t.childs, [], d);
    ChainBlob([], FromSiblings(t.childs), t.ref);
    BlobOf(ToTernary(t));
    ChainEncode(Blob(FromSiblings(t.childs)));
  }
}
