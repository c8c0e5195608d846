/** The byte format of a compiled dictionary, as a reader with every value spelled out: it recovers the search tree. */
module BlobFormat {
  import opened Options
  import opened Symbols
  import opened Trie
  import opened Ternary
  import opened Walker
  import opened Dictionaries
  import opened Extensions

  predicate Bit1(flags: int) { flags == 1 || flags == 3 || flags == 5 || flags == 7 }
  predicate Bit2(flags: int) { flags == 2 || flags == 3 || flags == 6 || flags == 7 }
  predicate Bit4(flags: int) { 4 <= flags <= 7 }

  /** A node at `pos` and where the bytes go on after it: its character; 128 plus the reference if it has one; then,
      unless another character follows at once, the flags 1, 2 and 4 for a `<`, an `=` and a `>` child, with
      the sizes of all children that another one follows; then the children. */
  function Read(b: seq<int>, pos: nat): (r: Option<(Tern, nat)>)
    ensures r.Some? ==> pos < r.value.1 <= |b|
    decreases |b| - pos, 0
  {
    if pos >= |b| then None
    else
      var final := pos + 1 < |b| && b[pos + 1] >= 128;
      var at := pos + if final then 2 else 1;
      var ref: nat := if final then b[pos + 1] - 128 else 0;
      if at >= |b| then None
      else if b[at] >= 32 then
        match Read(b, at)
        case None => None
        case Some((eq, end)) => Some((Node([b[pos]], Nil, eq, Nil, final, ref), end))
      else
        var f := b[at];
        var sizes := (if Bit1(f) && (Bit2(f) || Bit4(f)) then 1 else 0) + (if Bit2(f) && Bit4(f) then 1 else 0);
        match ReadIf(b, at + 1 + sizes, Bit1(f))
        case None => None
        case Some((lt, p1)) =>
          match ReadIf(b, p1, Bit2(f))
          case None => None
          case Some((eq, p2)) =>
            match ReadIf(b, p2, Bit4(f))
            case None => None
            case Some((gt, p3)) =>
              if (Bit1(f) && sizes > 0 && b[at + 1] != p1 - (at + 1 + sizes)) || (Bit2(f) && Bit4(f) && b[at + sizes] != p2 - p1) then None
              else Some((Node([b[pos]], lt, eq, gt, final, ref), p3))
  }

  /** A child that is there, or `Nil`. */
  function ReadIf(b: seq<int>, pos: nat, there: bool): (r: Option<(Tern, nat)>)
    ensures r.Some? ==> pos <= r.value.1 <= |b|
    decreases |b| - pos, 1
  {
    if pos > |b| then None else if there then Read(b, pos) else Some((Nil, pos))
  }

  /** A tree as the bytes show it: a node that is not final has no reference. */
  function Bare(t: Tern): Tern {
    match t
    case Nil => Nil
    case Node(str, lt, eq, gt, final, ref) => Node(str, Bare(lt), Bare(eq), Bare(gt), final, if final then ref else 0)
  }

  lemma ReadsChild(b: seq<int>, pos: nat, t: Tern)
    requires t.Node? ==> Read(b, pos) == Some((Bare(t), pos + |Blob(t)|))
    requires pos <= |b|
    ensures ReadIf(b, pos, t != Nil) == Some((Bare(t), pos + |Blob(t)|))
  {
    hide Read, Blob;
    if t == Nil { NoBytes(); }
  }

  lemma NoBytes()
    ensures Blob(Nil) == [] && Bare(Nil) == Nil
  {
  }

  lemma FlagValues(lt: seq<int>, eq: seq<int>, gt: seq<int>)
    ensures var f := Flags(lt, eq, gt);
            0 <= f < 8 && (Bit1(f) <==> lt != []) && (Bit2(f) <==> eq != []) && (Bit4(f) <==> gt != [])
  {
  }

  /** The link bytes, by value. */
  lemma LinkBytes(lt: seq<int>, eq: seq<int>, gt: seq<int>)
    requires !(lt == [] && gt == [] && eq != [])
    ensures var l := Links(lt, eq, gt);
            var sizes := (if lt != [] && (eq != [] || gt != []) then 1 else 0) + (if eq != [] && gt != [] then 1 else 0);
            && |l| == 1 + sizes && l[0] == Flags(lt, eq, gt)
            && (lt != [] && (eq != [] || gt != []) ==> l[1] == |lt|)
            && (eq != [] && gt != [] ==> l[sizes] == |eq|)
  {
  }

  /** Read back from the bytes of a search tree: exactly that tree, and where it ends. */
  lemma {:induction false} ReadsBack(b: seq<int>, pos: nat, t: Tern)
    requires t.Node? && WellFormed(t) && Sits(b, pos, Blob(t))
    ensures Read(b, pos) == Some((Bare(t), pos + |Blob(t)|))
    decreases t
  {
    hide Blob, Links, Flags, Sits, WellFormed, Read, ReadIf, Encode;
    NodeText(t);
    NodeParts(b, pos, t);
    BlobOf(t);
    var lt, eq, gt := Blob(t.lt), Blob(t.eq), Blob(t.gt);
    var l, f := Links(lt, eq, gt), LinkPos(pos, t);
    Children(t);
    assert pos + |Blob(t)| == f + |l| + |lt| + |eq| + |gt| by { EncodeSize(Mark(t), lt, eq, gt); }
    if t.lt != Nil { ReadsBack(b, f + |l|, t.lt); }
    if t.eq != Nil { ReadsBack(b, f + |l| + |lt|, t.eq); FirstByte(b, f + |l| + |lt|, t.eq); }
    if t.gt != Nil { ReadsBack(b, f + |l| + |lt| + |eq|, t.gt); }
    ReadsChild(b, f + |l|, t.lt);
    ReadsChild(b, f + |l| + |lt|, t.eq);
    ReadsChild(b, f + |l| + |lt| + |eq|, t.gt);
    if t.lt == Nil && t.gt == Nil && t.eq != Nil {
      LinksAre(lt, eq, gt, 1);
      ReadChain(b, pos, t);
    } else {
      LinkBytes(lt, eq, gt);
      FlagValues(lt, eq, gt);
      ReadNode(b, pos, t);
    }
  }

  lemma Children(t: Tern)
    requires t.Node? && WellFormed(t)
    ensures WellFormed(t.lt) && WellFormed(t.eq) && WellFormed(t.gt)
    ensures (Blob(t.lt) == [] <==> t.lt == Nil) && (Blob(t.eq) == [] <==> t.eq == Nil) && (Blob(t.gt) == [] <==> t.gt == Nil)
  {
    hide Encode;
  }

  lemma EncodeSize(mark: seq<int>, lt: seq<int>, eq: seq<int>, gt: seq<int>)
    ensures |Encode(mark, lt, eq, gt)| == |mark| + |Links(lt, eq, gt)| + |lt| + |eq| + |gt|
  {
    hide Links;
  }

  /** A node whose only child follows its text. */
  lemma ReadChain(b: seq<int>, pos: nat, t: Tern)
    requires t.Node? && |t.str| == 1 && t.lt == Nil && t.gt == Nil && t.eq != Nil
    requires pos < |b| && b[pos] == t.str[0] && LinkPos(pos, t) < |b| && 32 <= b[LinkPos(pos, t)] < 128
    requires t.final ==> b[pos + 1] == 128 + t.ref
    requires Read(b, LinkPos(pos, t)) == Some((Bare(t.eq), LinkPos(pos, t) + |Blob(t.eq)|))
    ensures Read(b, pos) == Some((Bare(t), LinkPos(pos, t) + |Blob(t.eq)|))
  {
    hide Blob, ReadIf;
    assert [b[pos]] == t.str;
  }

  lemma ReadNode(b: seq<int>, pos: nat, t: Tern)
    requires t.Node? && |t.str| == 1 && !(t.lt == Nil && t.gt == Nil && t.eq != Nil)
    requires var lt, eq, gt := Blob(t.lt), Blob(t.eq), Blob(t.gt);
             var l, f, g := Links(lt, eq, gt), LinkPos(pos, t), Flags(lt, eq, gt);
             var sizes := (if t.lt != Nil && (t.eq != Nil || t.gt != Nil) then 1 else 0) + (if t.eq != Nil && t.gt != Nil then 1 else 0);
             && pos < |b| && b[pos] == t.str[0] && (t.final ==> pos + 1 < |b| && b[pos + 1] == 128 + t.ref)
             && f + |l| <= |b| && (forall i :: 0 <= i < |l| ==> b[f + i] == l[i])
             && |l| == 1 + sizes && l[0] == g && 0 <= g < 8
             && (t.lt != Nil && (t.eq != Nil || t.gt != Nil) ==> l[1] == |lt|) && (t.eq != Nil && t.gt != Nil ==> l[sizes] == |eq|)
             && (Bit1(g) <==> t.lt != Nil) && (Bit2(g) <==> t.eq != Nil) && (Bit4(g) <==> t.gt != Nil)
             && ReadIf(b, f + |l|, t.lt != Nil) == Some((Bare(t.lt), f + |l| + |lt|))
             && ReadIf(b, f + |l| + |lt|, t.eq != Nil) == Some((Bare(t.eq), f + |l| + |lt| + |eq|))
             && ReadIf(b, f + |l| + |lt| + |eq|, t.gt != Nil) == Some((Bare(t.gt), f + |l| + |lt| + |eq| + |gt|))
    ensures var lt, eq, gt := Blob(t.lt), Blob(t.eq), Blob(t.gt);
            Read(b, pos) == Some((Bare(t), LinkPos(pos, t) + |Links(lt, eq, gt)| + |lt| + |eq| + |gt|))
  {
    hide Blob, Links, Flags, ReadIf, Bit1, Bit2, Bit4;
    assert [b[pos]] == t.str;
    var f := LinkPos(pos, t);
    var l := Links(Blob(t.lt), Blob(t.eq), Blob(t.gt));
    assert b[f + 0] == l[0];
    assert |l| >= 2 ==> b[f + 1] == l[1];
    assert |l| >= 1 && b[f + (|l| - 1)] == l[|l| - 1];
  }

  /** A compiled dictionary reads back as the search tree of its symbols. */
  lemma DictionaryReadsBack(mem: seq<int>, t: Trie, d: Dictionary)
    requires Compiled(mem, t, d)
    ensures Read(mem, 0) == Some((Bare(FromSiblings(t.childs)), |Blob(ToTernary(t))|))
  {
    hide Blob, Sits, Fits, Steppable, Read;
    RootPlaced(mem, t, d);
    PlacedSits(mem, 0, FromSiblings(t.childs), |Blob(ToTernary(t))|);
    ReadsBack(mem, 0, FromSiblings(t.childs));
    ChainBlob([], FromSiblings(t.childs), t.ref);
    RootIsNotFinal(mem, t, d);
  }

  lemma RootIsNotFinal(mem: seq<int>, t: Trie, d: Dictionary)
    requires Compiled(mem, t, d)
    ensures |Blob(ToTernary(t))| == |Blob(FromSiblings(t.childs))|
  {
    hide Sits;
    StartReached(mem, t, d);
    hide Blob;
    ChainBlob([], FromSiblings(t.childs), t.ref);
    assert [] + Blob(FromSiblings(t.childs)) == Blob(FromSiblings(t.childs));
  }
}
