/** The server's walk over a dictionary blob, one received character at a time (core/input.c). */
module Walker {
  import opened Symbols
  import opened Ternary

  /** Where a character leads: to a position of the blob, to the 404 handler, or past the memory modelled. */
  datatype Outcome = At(pos: nat) | NotFound | Overrun

  predicate HasBit(flags: int, bit: int)
    requires bit > 0
  {
    (flags / bit) % 2 == 1
  }

  /** Number of children announced by a flag byte. */
  function Children(flags: int): nat {
    (flags / 4) % 2 + (flags / 2) % 2 + flags % 2
  }

  function ToByte(n: int): nat { n % 256 }

  /** The `do { ... } while(1)` loop for one character; the three offsets are `unsigned char`. */
  function WalkChar(mem: seq<int>, pos: nat, c: int): Outcome
    decreases |mem| - pos
  {
    if pos + 1 >= |mem| then Overrun else
      var current := mem[pos];
      var p := if c != current && mem[pos + 1] >= 128 then pos + 2 else pos + 1;
      if p >= |mem| then Overrun else
        var flags := mem[p];
        if flags >= 32 then (if c == current then At(p) else NotFound)
        else
          var inf := Children(flags);
          if p + 1 >= |mem| && HasBit(flags, 2) then Overrun else
            var eq := ToByte(inf + if HasBit(flags, 2) then mem[p + 1] else 0);
            if c == current then (if HasBit(flags, 2) then At(p + eq) else NotFound)
            else if c < current then (if HasBit(flags, 1) then WalkChar(mem, p + inf, c) else NotFound)
            else if !HasBit(flags, 4) then NotFound
            else if p + inf - 1 >= |mem| then Overrun
            else
              var sup := ToByte(eq + if HasBit(flags, 1) || HasBit(flags, 2) then mem[p + inf - 1] else 0);
              WalkChar(mem, p + sup, c)
  }

  /** The loop itself, moving `blob` forward until the character is matched or refused. */
  method WalkByte(mem: seq<int>, start: nat, c: int) returns (r: Outcome)
    ensures r == WalkChar(mem, start, c)
  {
    hide HasBit, Children, ToByte;
    var blob := start;
    while true
      invariant WalkChar(mem, start, c) == WalkChar(mem, blob, c)
      decreases |mem| - blob
    {
      if blob + 1 >= |mem| { return Overrun; }
      var current := mem[blob];
      blob := blob + 1;
      if c != current && mem[blob] >= 128 { blob := blob + 1; }
      if blob >= |mem| { return Overrun; }
      var next := mem[blob];
      var offsetInf, offsetEq := 0, 0;
      if next < 32 {
        offsetInf := Children(next);
        if HasBit(next, 2) && blob + 1 >= |mem| { return Overrun; }
        offsetEq := ToByte(offsetInf + if HasBit(next, 2) then mem[blob + 1] else 0);
      }
      if c == current {
        if next < 32 {
          if HasBit(next, 2) { blob := blob + offsetEq; } else { return NotFound; }
        }
        return At(blob);
      } else if c < current {
        if next < 32 && HasBit(next, 1) { blob := blob + offsetInf; } else { return NotFound; }
      } else {
        if next < 32 && HasBit(next, 4) {
          if blob + offsetInf - 1 >= |mem| { return Overrun; }
          var offsetSup := ToByte(offsetEq + if HasBit(next, 1) || HasBit(next, 2) then mem[blob + offsetInf - 1] else 0);
          blob := blob + offsetSup;
        } else {
          return NotFound;
        }
      }
    }
  }

  /** One received character: standing on a reference byte, the server first steps over it. */
  function Feed(mem: seq<int>, pos: nat, c: int): Outcome {
    if pos >= |mem| then Overrun
    else WalkChar(mem, if mem[pos] >= 128 then pos + 1 else pos, c)
  }

  /** The walk over a whole text. */
  function Run(mem: seq<int>, pos: nat, w: Symbol): Outcome
    decreases |w|
  {
    if w == [] then At(pos) else
      var r := Feed(mem, pos, w[0]);
      if r.At? then Run(mem, r.pos, w[1..]) else r
  }

  method Walk(mem: seq<int>, w: Symbol) returns (r: Outcome)
    ensures r == Run(mem, 0, w)
  {
    r := At(0);
    assert w[0..] == w;
    for x := 0 to |w|
      invariant Run(mem, 0, w) == if r.At? then Run(mem, r.pos, w[x..]) else r
    {
      if r.At? {
        assert w[x..][0] == w[x] && w[x..][1..] == w[x + 1..];
        var pos := r.pos;
        if pos >= |mem| {
          r := Overrun;
        } else {
          r := WalkByte(mem, if mem[pos] >= 128 then pos + 1 else pos, w[x]);
        }
      }
    }
  }

  // ----- the layout of a blob in memory -----

  /** The bytes `b` stand in memory at `pos`. */
  ghost predicate Sits(mem: seq<int>, pos: nat, b: seq<int>) {
    pos + |b| <= |mem| && mem[pos..pos + |b|] == b
  }

  lemma SitsSplit(mem: seq<int>, pos: nat, a: seq<int>, b: seq<int>)
    requires Sits(mem, pos, a + b)
    ensures Sits(mem, pos, a) && Sits(mem, pos + |a|, b)
  {
    var m := mem[pos..pos + |a + b|];
    assert a == m[..|a|] && b == m[|a|..];
  }

  /** What the compiler can produce: one printable character per node, no `>` without `<`,
      an `=` child or a reference in every node, references below 128. */
  ghost predicate WellFormed(t: Tern) {
    t.Node? ==>
      && |t.str| == 1 && 32 <= t.str[0] < 128
      && (t.gt != Nil ==> t.lt != Nil)
      && (t.final || t.eq != Nil)
      && (t.final ==> t.ref < 128)
      && WellFormed(t.lt) && WellFormed(t.eq) && WellFormed(t.gt)
  }

  /** The jumps of one node, number of links included, fit the walker's `unsigned char` offsets. */
  predicate JumpsFit(lt: nat, eq: nat, gt: nat) {
    && (lt > 0 && eq > 0 ==> (if gt > 0 then 3 else 2) + lt < 256)
    && (gt > 0 ==> (if eq > 0 then 3 else 2) + lt + eq < 256)
  }

  /** How far behind its flag byte the walker looks for the `=` and `>` children of a node with children of these
      sizes: it adds in a byte. */
  function EqJump(lt: nat, eq: nat, gt: nat): nat {
    ToByte((if lt > 0 then 1 else 0) + (if eq > 0 then 1 else 0) + (if gt > 0 then 1 else 0) + if eq > 0 then lt else 0)
  }

  function GtJump(lt: nat, eq: nat, gt: nat): nat {
    ToByte(EqJump(lt, eq, gt) + if eq > 0 then eq else lt)
  }

  /** Both jumps go where the compiler put the children if and only if they fit. */
  lemma JumpsAreRightIffFit(lt: nat, eq: nat, gt: nat)
    requires gt > 0 ==> lt > 0
    ensures var n := (if lt > 0 then 1 else 0) + (if eq > 0 then 1 else 0) + (if gt > 0 then 1 else 0);
            JumpsFit(lt, eq, gt) <==>
            (lt > 0 && eq > 0 ==> EqJump(lt, eq, gt) == n + lt) && (gt > 0 ==> GtJump(lt, eq, gt) == n + lt + eq)
  {
  }

  predicate Fits(t: Tern) {
    t.Node? ==> JumpsFit(|Blob(t.lt)|, |Blob(t.eq)|, |Blob(t.gt)|) && Fits(t.lt) && Fits(t.eq) && Fits(t.gt)
  }

  /** A symbol that others extend stands on a node without `<` and `>`: the step over its reference
      byte then lands on its `=` child. */
  predicate Steppable(t: Tern) {
    t.Node? ==>
      && (t.final && t.eq != Nil ==> t.lt == Nil && t.gt == Nil)
      && Steppable(t.lt) && Steppable(t.eq) && Steppable(t.gt)
  }

  /** The sibling for character c in a search tree. */
  function Locate(t: Tern, c: int): Tern
    requires WellFormed(t)
  {
    if t == Nil then Nil
    else if c == t.str[0] then t
    else if c < t.str[0] then Locate(t.lt, c)
    else Locate(t.gt, c)
  }

  lemma LocateStep(t: Tern, c: int)
    requires t.Node? && WellFormed(t)
    ensures |t.str| == 1 && WellFormed(t.lt) && WellFormed(t.gt)
    ensures Locate(t, c) == if c == t.str[0] then t else if c < t.str[0] then Locate(t.lt, c) else Locate(t.gt, c)
    ensures Locate(Nil, c) == Nil
  {
  }

  lemma FitsStep(t: Tern)
    requires t.Node? && Fits(t)
    ensures Fits(t.lt) && Fits(t.gt)
  {
    hide Blob;
  }

  /** After node `t` the walk stands on its reference byte, or else on its `=` child. */
  ghost predicate Stands(mem: seq<int>, pos: nat, t: Tern)
    requires t.Node?
  {
    if t.final then
      && pos < |mem| && mem[pos] == 128 + t.ref
      && (t.eq != Nil && t.lt == Nil && t.gt == Nil ==> Sits(mem, pos + 1, Blob(t.eq)))
    else Sits(mem, pos, Blob(t.eq))
  }

  /** The parts of an encoded node, one after the other. */
  lemma EncodeLayout(mem: seq<int>, pos: nat, mark: seq<int>, lt: seq<int>, eq: seq<int>, gt: seq<int>)
    requires Sits(mem, pos, Encode(mark, lt, eq, gt))
    ensures var l := Links(lt, eq, gt);
            var f := pos + |mark| + |l|;
            && Sits(mem, pos, mark) && Sits(mem, pos + |mark|, l)
            && Sits(mem, f, lt) && Sits(mem, f + |lt|, eq) && Sits(mem, f + |lt| + |eq|, gt)
  {
    var l := Links(lt, eq, gt);
    hide Links;
    SitsSplit(mem, pos, mark + l + lt + eq, gt);
    SitsSplit(mem, pos, mark + l + lt, eq);
    SitsSplit(mem, pos, mark + l, lt);
    SitsSplit(mem, pos, mark, l);
  }

  /** Where node `t` keeps its links, and how many children it has. */
  function LinkPos(pos: nat, t: Tern): nat
    requires t.Node?
  {
    pos + 1 + if t.final then 1 else 0
  }

  function Count(t: Tern): nat
    requires t.Node?
  {
    (if t.lt == Nil then 0 else 1) + (if t.eq == Nil then 0 else 1) + (if t.gt == Nil then 0 else 1)
  }

  lemma LinksAre(lt: seq<int>, eq: seq<int>, gt: seq<int>, n: nat)
    requires n == Bit(lt) + Bit(eq) + Bit(gt)
    requires gt != [] ==> lt != []
    ensures var l := Links(lt, eq, gt);
            if lt == [] && gt == [] && eq != [] then l == []
            else
              && |l| == (if n == 0 then 1 else n) && l[0] == Flags(lt, eq, gt)
              && (n >= 2 ==> l[1] == |lt|) && (n == 3 ==> l[2] == |eq|)
  {
  }

  /** What the walker reads around node `t`. */
  ghost predicate Layout(mem: seq<int>, pos: nat, t: Tern)
    requires t.Node? && t.str != []
  {
    var lt, eq, gt := Blob(t.lt), Blob(t.eq), Blob(t.gt);
    var f, n := LinkPos(pos, t), Count(t);
    && pos < |mem| && mem[pos] == t.str[0]
    && (t.final ==> pos + 1 < |mem| && mem[pos + 1] == 128 + t.ref)
    && if t.lt == Nil && t.gt == Nil && t.eq != Nil then Sits(mem, f, eq)
       else
         && f < |mem| && f + n <= |mem| && mem[f] == Flags(lt, eq, gt)
         && (n >= 2 ==> mem[f + 1] == |lt|)
         && (n == 3 ==> mem[f + 2] == |eq|)
         && (n >= 1 ==> Sits(mem, f + n, lt) && Sits(mem, f + n + |lt|, eq) && Sits(mem, f + n + |lt| + |eq|, gt))
  }

  /** What stands in memory piece by piece can be read byte by byte. */
  lemma ReadsAt(mem: seq<int>, pos: nat, b: seq<int>)
    requires Sits(mem, pos, b)
    ensures pos + |b| <= |mem| && forall i :: 0 <= i < |b| ==> mem[pos + i] == b[i]
  {
    forall i | 0 <= i < |b| ensures mem[pos + i] == b[i] {
      assert mem[pos + i] == mem[pos..pos + |b|][i];
    }
  }

  /** The parts of a node's blob in memory. */
  lemma NodeParts(mem: seq<int>, pos: nat, t: Tern)
    requires t.Node? && WellFormed(t) && Sits(mem, pos, Blob(t)) && |t.str| == 1
    ensures var lt, eq, gt := Blob(t.lt), Blob(t.eq), Blob(t.gt);
            var l, f := Links(lt, eq, gt), LinkPos(pos, t);
            && pos < |mem| && mem[pos] == t.str[0]
            && (t.final ==> pos + 1 < |mem| && mem[pos + 1] == 128 + t.ref)
            && f + |l| <= |mem| && (forall i :: 0 <= i < |l| ==> mem[f + i] == l[i])
            && Sits(mem, f + |l|, lt) && Sits(mem, f + |l| + |lt|, eq) && Sits(mem, f + |l| + |lt| + |eq|, gt)
  {
    hide Blob, Encode, Links, Sits, WellFormed;
    BlobOf(t);
    var lt, eq, gt := Blob(t.lt), Blob(t.eq), Blob(t.gt);
    assert |Mark(t)| == if t.final then 1 else 0;
    SitsSplit(mem, pos, t.str, Encode(Mark(t), lt, eq, gt));
    EncodeLayout(mem, pos + 1, Mark(t), lt, eq, gt);
    ReadsAt(mem, pos, t.str);
    assert mem[pos + 0] == t.str[0];
    ReadsAt(mem, pos + 1, Mark(t));
    assert t.final ==> mem[pos + 1 + 0] == Mark(t)[0];
    ReadsAt(mem, LinkPos(pos, t), Links(lt, eq, gt));
  }

  lemma NodeLayout(mem: seq<int>, pos: nat, t: Tern)
    requires t.Node? && WellFormed(t) && Sits(mem, pos, Blob(t))
    ensures Layout(mem, pos, t)
  {
    hide Blob, Links, Flags, Sits, WellFormed, LinkPos;
    NodeText(t);
    NodeParts(mem, pos, t);
    var lt, eq, gt := Blob(t.lt), Blob(t.eq), Blob(t.gt);
    LinksAre(lt, eq, gt, Count(t));
    var l, f := Links(lt, eq, gt), LinkPos(pos, t);
    if t.lt == Nil && t.gt == Nil && t.eq != Nil {
      assert |l| == 0 && |lt| == 0;
      assert Sits(mem, f, eq);
    } else {
      assert mem[f + 0] == l[0];
      assert Count(t) >= 2 ==> mem[f + 1] == l[1];
      assert Count(t) == 3 ==> mem[f + 2] == l[2];
    }
  }

  lemma NodeText(t: Tern)
    requires t.Node? && WellFormed(t)
    ensures |t.str| == 1 && (t.gt != Nil ==> t.lt != Nil)
  {
  }

  // ----- one character -----

  lemma FlagBits(lt: seq<int>, eq: seq<int>, gt: seq<int>)
    ensures var f := Flags(lt, eq, gt);
            && 0 <= f < 8 && Children(f) == Bit(lt) + Bit(eq) + Bit(gt)
            && (HasBit(f, 1) <==> lt != []) && (HasBit(f, 2) <==> eq != []) && (HasBit(f, 4) <==> gt != [])
  {
    ThreeBits(Bit(lt), Bit(eq), Bit(gt));
    hide HasBit, Children;
  }

  lemma ThreeBits(a: int, b: int, c: int)
    requires 0 <= a < 2 && 0 <= b < 2 && 0 <= c < 2
    ensures var f := a + 2 * b + 4 * c;
            && Children(f) == a + b + c
            && (HasBit(f, 1) <==> a == 1) && (HasBit(f, 2) <==> b == 1) && (HasBit(f, 4) <==> c == 1)
  {
  }

  lemma ByteFits(n: nat)
    requires n < 256
    ensures ToByte(n) == n
  {
  }

  lemma FirstByte(mem: seq<int>, pos: nat, t: Tern)
    requires t.Node? && WellFormed(t) && Sits(mem, pos, Blob(t))
    ensures pos < |mem| && 32 <= mem[pos] < 128
  {
    BlobOf(t);
    assert mem[pos] == mem[pos..pos + |Blob(t)|][0];
  }

  /** Whether its jumps fit or not, this is where the walker goes from a node with a `<` child. */
  lemma WalkerEqJump(mem: seq<int>, pos: nat, t: Tern)
    requires t.Node? && WellFormed(t) && Sits(mem, pos, Blob(t)) && t.lt != Nil && t.eq != Nil && !t.final
    ensures WalkChar(mem, pos, t.str[0]) == At(LinkPos(pos, t) + EqJump(|Blob(t.lt)|, |Blob(t.eq)|, |Blob(t.gt)|))
  {
    hide Blob, Flags, HasBit, Children, ToByte, WellFormed, Sits;
    NodeText(t);
    NodeLayout(mem, pos, t);
    FlagBits(Blob(t.lt), Blob(t.eq), Blob(t.gt));
  }

  lemma WalkerGtJump(mem: seq<int>, pos: nat, t: Tern, c: int)
    requires t.Node? && WellFormed(t) && Sits(mem, pos, Blob(t)) && t.gt != Nil && c > t.str[0]
    ensures var jump := GtJump(|Blob(t.lt)|, |Blob(t.eq)|, |Blob(t.gt)|);
            WalkChar(mem, pos, c) == WalkChar(mem, LinkPos(pos, t) + jump, c)
  {
    hide Blob, Flags, HasBit, Children, ToByte, WellFormed, Sits;
    NodeText(t);
    NodeLayout(mem, pos, t);
    FlagBits(Blob(t.lt), Blob(t.eq), Blob(t.gt));
  }

  /** The facts about node `t` at `pos` that its three outcomes share. */
  ghost predicate Ready(mem: seq<int>, pos: nat, t: Tern) {
    && t.Node? && WellFormed(t) && Fits(t) && Layout(mem, pos, t)
    && var lt, eq, gt := Blob(t.lt), Blob(t.eq), Blob(t.gt);
       var f, n, flags := LinkPos(pos, t), Count(t), Flags(lt, eq, gt);
       && 0 <= flags < 8 && Children(flags) == n && pos + 1 < |mem| && f < |mem|
       && (HasBit(flags, 1) <==> t.lt != Nil) && (HasBit(flags, 2) <==> t.eq != Nil) && (HasBit(flags, 4) <==> t.gt != Nil)
       && (t.lt == Nil && t.gt == Nil && t.eq != Nil ==> 32 <= mem[f] < 128)
       && (t.lt != Nil && t.eq != Nil ==> ToByte(n + |lt|) == n + |lt|)
       && (t.gt != Nil ==> ToByte(n + |lt| + |eq|) == n + |lt| + |eq|)
       && ToByte(n) == n
       && (t.gt != Nil ==> t.lt != Nil) && (t.final || t.eq != Nil)
  }

  lemma NodeShape(t: Tern)
    requires t.Node? && WellFormed(t) && Fits(t)
    ensures |t.str| == 1 && WellFormed(t.eq) && (t.gt != Nil ==> t.lt != Nil) && (t.final || t.eq != Nil)
    ensures JumpsFit(|Blob(t.lt)|, |Blob(t.eq)|, |Blob(t.gt)|)
  {
    hide Blob;
  }

  lemma NodeReady(mem: seq<int>, pos: nat, t: Tern)
    requires t.Node? && WellFormed(t) && Fits(t) && Sits(mem, pos, Blob(t))
    ensures Ready(mem, pos, t)
  {
    hide Blob, Flags, HasBit, Children, ToByte, WellFormed, Fits, Sits;
    NodeShape(t);
    NodeLayout(mem, pos, t);
    var lt, eq, gt := Blob(t.lt), Blob(t.eq), Blob(t.gt);
    FlagBits(lt, eq, gt);
    ByteFits(Count(t));
    if t.lt == Nil && t.gt == Nil && t.eq != Nil { FirstByte(mem, LinkPos(pos, t), t.eq); }
    if t.lt != Nil && t.eq != Nil { ByteFits(Count(t) + |lt|); }
    if t.gt != Nil { ByteFits(Count(t) + |lt| + |eq|); }
  }

  lemma WalkHit(mem: seq<int>, pos: nat, t: Tern)
    requires Ready(mem, pos, t)
    ensures var r := WalkChar(mem, pos, t.str[0]); r.At? && Stands(mem, r.pos, t)
  {
    hide Blob, Flags, HasBit, Children, ToByte, Fits, WellFormed;
    if t.lt != Nil || t.gt != Nil { assert mem[LinkPos(pos, t)] < 8; }
  }

  lemma WalkLess(mem: seq<int>, pos: nat, t: Tern, c: int)
    requires Ready(mem, pos, t) && c < t.str[0]
    ensures if t.lt == Nil then WalkChar(mem, pos, c) == NotFound
            else
              var p := LinkPos(pos, t) + Count(t);
              Sits(mem, p, Blob(t.lt)) && WalkChar(mem, pos, c) == WalkChar(mem, p, c)
  {
    hide Blob, Flags, HasBit, Children, ToByte, Fits, WellFormed;
  }

  lemma WalkMore(mem: seq<int>, pos: nat, t: Tern, c: int)
    requires Ready(mem, pos, t) && c > t.str[0]
    ensures if t.gt == Nil then WalkChar(mem, pos, c) == NotFound
            else
              var p := LinkPos(pos, t) + Count(t) + |Blob(t.lt)| + |Blob(t.eq)|;
              Sits(mem, p, Blob(t.gt)) && WalkChar(mem, pos, c) == WalkChar(mem, p, c)
  {
    hide Blob, Flags, HasBit, Children, ToByte, Fits, WellFormed;
  }

  /** The offsets the compiler recorded lead the walker exactly where the search tree leads. */
  lemma {:induction false} WalkFollowsTree(mem: seq<int>, pos: nat, t: Tern, c: int)
    requires t.Node? && WellFormed(t) && Fits(t) && Sits(mem, pos, Blob(t))
    ensures var n, r := Locate(t, c), WalkChar(mem, pos, c);
            if n == Nil then r == NotFound else r.At? && Stands(mem, r.pos, n)
    decreases t
  {
    hide Blob, WalkChar, Layout, Stands, Locate, Ready, Fits, WellFormed, Sits;
    LocateStep(t, c);
    FitsStep(t);
    NodeReady(mem, pos, t);
    if c == t.str[0] {
      WalkHit(mem, pos, t);
    } else if c < t.str[0] {
      WalkLess(mem, pos, t, c);
      if t.lt != Nil { WalkFollowsTree(mem, LinkPos(pos, t) + Count(t), t.lt, c); }
    } else {
      WalkMore(mem, pos, t, c);
      if t.gt != Nil { WalkFollowsTree(mem, LinkPos(pos, t) + Count(t) + |Blob(t.lt)| + |Blob(t.eq)|, t.gt, c); }
    }
  }
}
