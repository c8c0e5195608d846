/** From trie to ternary search tree to byte blob: the second half of tools/GenBlob.py. */
module Ternary {
  import opened Symbols
  import opened Trie

  /** A ternary node; `Nil` stands for a key absent from the Python `childs` dictionary. */
  datatype Tern = Nil | Node(str: Symbol, lt: Tern, eq: Tern, gt: Tern, final: bool, ref: nat)

  /** `toTernaryTree` on a list of siblings: the middle one becomes the root of a search tree. */
  function FromSiblings(s: seq<Trie>): Tern {
    if s == [] then Nil else
      var mid := |s| / 2;
      assert s[mid] in s;
      Node(s[mid].str, FromSiblings(s[..mid]), FromSiblings(s[mid].childs), FromSiblings(s[mid + 1..]),
           s[mid].final, s[mid].ref)
  }

  /** `toTernaryTree(tree)`: the root has no siblings. */
  function ToTernary(t: Trie): Tern {
    Node(t.str, Nil, FromSiblings(t.childs), Nil, t.final, t.ref)
  }

  function Bit(blob: seq<int>): int { if blob == [] then 0 else 1 }

  /** The three presence bits: 1 for `<`, 2 for `=`, 4 for `>`. A child is absent exactly when its blob is empty. */
  function Flags(lt: seq<int>, eq: seq<int>, gt: seq<int>): int {
    Bit(lt) + 2 * Bit(eq) + 4 * Bit(gt)
  }

  /** The flag byte, then one offset per child but the first: the size of the child before it.
      A node whose only child is `=` has neither. */
  function Links(lt: seq<int>, eq: seq<int>, gt: seq<int>): seq<int> {
    if Flags(lt, eq, gt) == 2 then [] else
      [Flags(lt, eq, gt)]
      + (if lt != [] && (eq != [] || gt != []) then [|lt|] else [])
      + (if eq != [] && gt != [] then [|eq|] else [])
  }

  /** All of a node's blob after its text: the reference, the links, then the children. */
  function Encode(mark: seq<int>, lt: seq<int>, eq: seq<int>, gt: seq<int>): seq<int> {
    mark + Links(lt, eq, gt) + lt + eq + gt
  }

  function Mark(t: Tern): seq<int>
    requires t.Node?
  {
    if t.final then [128 + t.ref] else []
  }

  /** `BLOBRec`. */
  function Blob(t: Tern): (r: seq<int>)
    ensures r == [] <==> t == Nil
  {
    if t == Nil then [] else t.str + Encode(Mark(t), Blob(t.lt), Blob(t.eq), Blob(t.gt))
  }

  // ----- compaction -----

  /** A node swallows its only child. */
  function Merge(t: Trie, child: Trie): Trie {
    Trie(t.str + child.str, child.childs, child.final, if child.final then child.ref else t.ref)
  }

  function CompactAll(s: seq<Trie>, brothers: nat): (r: seq<Trie>)
    ensures |r| == |s| && forall i :: 0 <= i < |s| ==> r[i] == CompactTree(s[i], brothers)
  {
    if s == [] then [] else [CompactTree(s[0], brothers)] + CompactAll(s[1..], brothers)
  }

  /** `compactTreeRec`: children first, then an only child without siblings is merged. */
  function CompactTree(t: Trie, brothers: nat): Trie {
    var childs := CompactAll(t.childs, if |t.childs| > 0 then |t.childs| - 1 else 0);
    if brothers == 0 && !t.final && |childs| == 1 then Merge(t, childs[0]) else t.(childs := childs)
  }

  /** `compactTernaryTree`: a non-final node whose only child is `=` swallows it. */
  function CompactTernary(t: Tern): Tern {
    match t
    case Nil => Nil
    case Node(str, lt, eq, gt, final, ref) =>
      var lt', eq', gt' := CompactTernary(lt), CompactTernary(eq), CompactTernary(gt);
      if !final && lt == Nil && gt == Nil && eq' != Nil
      then Node(str + eq'.str, eq'.lt, eq'.eq, eq'.gt, eq'.final, if eq'.final then eq'.ref else ref)
      else Node(str, lt', eq', gt', final, ref)
  }

  lemma {:induction false} CompactTernaryNil(t: Tern)
    ensures CompactTernary(t) == Nil <==> t == Nil
  {
  }

  lemma ChainEncode(eq: seq<int>)
    requires eq != []
    ensures Encode([], [], eq, []) == eq
  {
  }

  /** A non-final node whose only child is `=` is its text followed by that child's blob. */
  lemma ChainBlob(str: Symbol, eq: Tern, ref: nat)
    requires eq != Nil
    ensures Blob(Node(str, Nil, eq, Nil, false, ref)) == str + Blob(eq)
  {
    ChainEncode(Blob(eq));
  }

  /** Writing a node together with the child it swallowed gives the same bytes as writing both. */
  lemma Swallow(str: Symbol, ref: nat, e: Tern)
    requires e.Node?
    ensures Blob(Node(str + e.str, e.lt, e.eq, e.gt, e.final, if e.final then e.ref else ref)) == str + Blob(e)
  {
    hide Encode, Blob;
    var m := Node(str + e.str, e.lt, e.eq, e.gt, e.final, if e.final then e.ref else ref);
    BlobOf(m);
    BlobOf(e);
    Associative(str, e.str, Encode(Mark(e), Blob(e.lt), Blob(e.eq), Blob(e.gt)));
  }

  lemma Associative(a: seq<int>, b: seq<int>, c: seq<int>)
    ensures (a + b) + c == a + (b + c)
  {
  }

  lemma BlobOf(t: Tern)
    requires t.Node?
    ensures Blob(t) == t.str + Encode(Mark(t), Blob(t.lt), Blob(t.eq), Blob(t.gt))
  {
    hide Encode;
  }

  /** Ternary compaction does not change a byte of the blob. */
  lemma {:induction false} CompactTernaryIsNeutral(t: Tern)
    ensures Blob(CompactTernary(t)) == Blob(t)
  {
    hide Encode, Blob;
    if t.Node? {
      CompactTernaryIsNeutral(t.lt);
      CompactTernaryIsNeutral(t.eq);
      CompactTernaryIsNeutral(t.gt);
      CompactTernaryNil(t.eq);
      var e := CompactTernary(t.eq);
      if !t.final && t.lt == Nil && t.gt == Nil && e != Nil {
        ChainBlob(t.str, t.eq, t.ref);
        Swallow(t.str, t.ref, e);
      } else {
        BlobOf(t);
        BlobOf(CompactTernary(t));
      }
    }
  }

  /** Merging an only child into its parent writes the same bytes as keeping both. */
  lemma MergeIsNeutral(t: Trie, child: Trie)
    requires !t.final
    ensures Blob(ToTernary(Merge(t, child))) == t.str + Blob(FromSiblings([child]))
  {
    hide Encode, Blob;
    assert [child][..0] == [] && [child][1..] == [];
    Swallow(t.str, t.ref, FromSiblings([child]));
  }

  /** Trie compaction does not change the blob of a list of siblings either. */
  lemma {:induction false} CompactAllIsNeutral(s: seq<Trie>, brothers: nat)
    requires brothers == 0 ==> |s| <= 1
    ensures Blob(FromSiblings(CompactAll(s, brothers))) == Blob(FromSiblings(s))
  {
    hide Encode, CompactTree, Blob;
    if s != [] {
      var mid := |s| / 2;
      var c := CompactAll(s, brothers);
      assert s[mid] in s;
      CompactAllSlices(s, mid, brothers);
      CompactAllIsNeutral(s[..mid], brothers);
      CompactAllIsNeutral(s[mid + 1..], brothers);
      CompactTreeIsNeutral(s[mid], brothers);
      if brothers == 0 {
        assert FromSiblings(s) == ToTernary(s[0]) && FromSiblings(c) == ToTernary(c[0]);
      } else {
        BlobOf(FromSiblings(c));
        BlobOf(FromSiblings(s));
      }
    }
  }

  lemma CompactAllSlices(s: seq<Trie>, mid: nat, brothers: nat)
    requires mid < |s|
    ensures CompactAll(s, brothers)[..mid] == CompactAll(s[..mid], brothers)
    ensures CompactAll(s, brothers)[mid + 1..] == CompactAll(s[mid + 1..], brothers)
  {
    hide CompactTree;
  }

  /** A lone node keeps its blob; a node with brothers keeps its text, its mark and its children's blob. */
  lemma {:induction false} CompactTreeIsNeutral(t: Trie, brothers: nat)
    ensures Blob(ToTernary(CompactTree(t, brothers))) == Blob(ToTernary(t))
    ensures brothers > 0 ==> CompactTree(t, brothers) == t.(childs := CompactTree(t, brothers).childs)
    ensures brothers > 0 ==> Blob(FromSiblings(CompactTree(t, brothers).childs)) == Blob(FromSiblings(t.childs))
  {
    hide Encode, CompactAll, CompactTree, FromSiblings, Blob, Merge;
    var childs := CompactedChilds(t);
    CompactTreeShape(t, brothers);
    CompactAllIsNeutral(t.childs, if |t.childs| > 0 then |t.childs| - 1 else 0);
    if brothers == 0 && !t.final && |childs| == 1 {
      MergeIsNeutral(t, childs[0]);
      assert childs == [childs[0]];
      ChainBlob(t.str, FromSiblings(t.childs), t.ref);
    } else {
      BlobOf(ToTernary(t));
      BlobOf(ToTernary(t.(childs := childs)));
    }
  }

  /** The children after their own compaction. */
  function CompactedChilds(t: Trie): (r: seq<Trie>)
    ensures |r| == |t.childs|
  {
    CompactAll(t.childs, if |t.childs| > 0 then |t.childs| - 1 else 0)
  }

  lemma CompactTreeShape(t: Trie, brothers: nat)
    ensures var childs := CompactedChilds(t);
            CompactTree(t, brothers) == if brothers == 0 && !t.final && |childs| == 1 then Merge(t, childs[0]) else t.(childs := childs)
    ensures t.childs != [] ==> FromSiblings(t.childs) != Nil
  {
    hide CompactAll, Merge;
  }

  /** The blob `genBlobTree` writes, compactions included, is the blob of the plain ternary tree. */
  lemma CompactionIsNeutral(t: Trie)
    ensures Blob(CompactTernary(ToTernary(CompactTree(t, 0)))) == Blob(ToTernary(t))
  {
    hide *;
    CompactTernaryIsNeutral(ToTernary(CompactTree(t, 0)));
    CompactTreeIsNeutral(t, 0);
  }
}
