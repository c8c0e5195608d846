/** The symbol trie of tools/GenBlob.py and the loop that builds it. */
module Trie {
  import opened Symbols

  /** A trie node: `str` is the text on the edge into it (one character until compaction). */
  datatype Trie = Trie(str: Symbol, childs: seq<Trie>, final: bool, ref: nat)

  /** A Python node dictionary; `childs` holds references into the store, so a list of
      children can be extended in place while other nodes refer to its owner. */
  datatype Cell = Cell(str: Symbol, childs: seq<nat>, final: bool, ref: nat)

  /** The numbered dictionary: symbol -> index in the order the caller gave. */
  type Dictionary = map<Symbol, nat>

  ghost predicate IsPrefixIn(p: Symbol, d: Dictionary) {
    exists k :: k in d && p <= k
  }

  /** One character per sibling, in ascending order. */
  ghost predicate Ascending(s: seq<Trie>) {
    && (forall i :: 0 <= i < |s| ==> |s[i].str| == 1)
    && (forall i, j :: 0 <= i < j < |s| ==> s[i].str[0] < s[j].str[0])
  }

  ghost predicate Branches(t: Trie, c: int) {
    exists i :: 0 <= i < |t.childs| && t.childs[i].str == [c]
  }

  /** What it means for `s` to be the siblings that continue the prefix `p` in `d`. */
  ghost predicate SiblingsHold(s: seq<Trie>, p: Symbol, d: Dictionary)
    decreases s, 1
  {
    && Ascending(s)
    && (forall i {:trigger Holds(s[i], p + s[i].str, d)} :: 0 <= i < |s| ==>
          IsPrefixIn(p + s[i].str, d) && Holds(s[i], p + s[i].str, d))
  }

  /** What it means for `t` to be the subtrie of `d` below the prefix `p`: it is final exactly if `p`
      is a symbol, then with its index; its children continue `p`; and no continuation is missing. */
  ghost predicate Holds(t: Trie, p: Symbol, d: Dictionary)
    decreases t, 0
  {
    && (t.final <==> p in d)
    && (t.final ==> t.ref == d[p])
    && SiblingsHold(t.childs, p, d)
    && (forall k {:trigger Branches(t, k[|p|])} :: k in d && p <= k && p != k ==> Branches(t, k[|p|]))
  }

  /** References point forward, so following them terminates. */
  ghost predicate Forward(cells: seq<Cell>) {
    forall n, i :: 0 <= n < |cells| && 0 <= i < |cells[n].childs| ==> n < cells[n].childs[i] < |cells|
  }

  /** The tree a reference stands for. */
  function Unfold(cells: seq<Cell>, n: nat): (t: Trie)
    requires Forward(cells) && n < |cells|
    ensures |t.childs| == |cells[n].childs|
    ensures t.str == cells[n].str && t.final == cells[n].final && t.ref == cells[n].ref
    ensures forall i :: 0 <= i < |t.childs| ==> t.childs[i] == Unfold(cells, cells[n].childs[i])
    decreases |cells| - n
  {
    Trie(cells[n].str,
         seq(|cells[n].childs|, i requires 0 <= i < |cells[n].childs| => Unfold(cells, cells[n].childs[i])),
         cells[n].final, cells[n].ref)
  }

  /** The character on the edge into a cell (the root has none). */
  function Char(cell: Cell): int {
    if cell.str == [] then -1 else cell.str[0]
  }

  /** The children of cell n extend its word by one character each, in ascending order. */
  ghost predicate CellOk(cells: seq<Cell>, words: seq<Symbol>, n: nat)
    requires Forward(cells) && |words| == |cells| && n < |cells|
  {
    && (forall i :: 0 <= i < |cells[n].childs| ==>
          |cells[cells[n].childs[i]].str| == 1 && words[cells[n].childs[i]] == words[n] + cells[cells[n].childs[i]].str)
    && (forall i, j :: 0 <= i < j < |cells[n].childs| ==>
          Char(cells[cells[n].childs[i]]) < Char(cells[cells[n].childs[j]]))
  }

  /** `words[n]` is the text spelled from the root to cell n; no two cells spell the same text. */
  ghost predicate Store(cells: seq<Cell>, words: seq<Symbol>) {
    && |words| == |cells| > 0 && Forward(cells)
    && words[0] == [] && cells[0].str == []
    && (forall m, n :: 0 <= m < n < |cells| ==> words[m] != words[n])
    && (forall n {:trigger CellOk(cells, words, n)} :: 0 <= n < |cells| ==> CellOk(cells, words, n))
  }

  /** Cell n has a child for character c. */
  ghost predicate HasChild(cells: seq<Cell>, n: nat, c: int)
    requires Forward(cells) && n < |cells|
  {
    exists i :: 0 <= i < |cells[n].childs| && cells[cells[n].childs[i]].str == [c]
  }

  /** If the word of cell n is a proper prefix of `k`, cell n has a child for the next character of `k`. */
  ghost predicate LeadsTo(cells: seq<Cell>, words: seq<Symbol>, n: nat, k: Symbol)
    requires Forward(cells) && |words| == |cells| && n < |cells|
  {
    words[n] <= k && words[n] != k ==> HasChild(cells, n, k[|words[n]|])
  }

  ghost predicate Covers(cells: seq<Cell>, words: seq<Symbol>, k: Symbol)
    requires Forward(cells) && |words| == |cells|
  {
    forall n {:trigger LeadsTo(cells, words, n, k)} :: 0 <= n < |cells| ==> LeadsTo(cells, words, n, k)
  }

  ghost predicate CoversAll(cells: seq<Cell>, words: seq<Symbol>, d: Dictionary)
    requires Forward(cells) && |words| == |cells|
  {
    forall k {:trigger Covers(cells, words, k)} :: k in d ==> Covers(cells, words, k)
  }

  /** Exactly the cells that spell a symbol are final, and they carry its index. */
  ghost predicate Marked(cells: seq<Cell>, words: seq<Symbol>, d: Dictionary)
    requires |words| == |cells|
  {
    forall n :: 0 <= n < |cells| ==>
      (cells[n].final <==> words[n] in d) && (cells[n].final ==> cells[n].ref == d[words[n]])
  }

  /** While a symbol is entered: every cell spells a prefix of `d` or of `s`, the part laid out so far. */
  ghost predicate Needed(words: seq<Symbol>, d: Dictionary, s: Symbol) {
    forall n {:trigger IsPrefixIn(words[n], d)} :: 0 <= n < |words| ==> IsPrefixIn(words[n], d) || words[n] <= s
  }

  ghost predicate Entering(cells: seq<Cell>, words: seq<Symbol>, d: Dictionary, s: Symbol) {
    && Store(cells, words)
    && Marked(cells, words, d)
    && Needed(words, d, s)
    && CoversAll(cells, words, d)
    && Covers(cells, words, s)
  }

  lemma {:induction false} BuiltHolds(cells: seq<Cell>, words: seq<Symbol>, d: Dictionary, n: nat)
    requires Entering(cells, words, d, []) && n < |cells|
    ensures Holds(Unfold(cells, n), words[n], d)
    decreases |cells| - n
  {
    var t := Unfold(cells, n);
    assert CellOk(cells, words, n);
    forall i | 0 <= i < |t.childs|
      ensures IsPrefixIn(words[n] + t.childs[i].str, d) && Holds(t.childs[i], words[n] + t.childs[i].str, d)
    {
      var m := cells[n].childs[i];
      assert words[m] == words[n] + t.childs[i].str;
      assert IsPrefixIn(words[m], d);
      BuiltHolds(cells, words, d, m);
    }
    forall k | k in d && words[n] <= k && words[n] != k ensures Branches(t, k[|words[n]|]) {
      assert Covers(cells, words, k) && LeadsTo(cells, words, n, k);
      var i :| 0 <= i < |cells[n].childs| && cells[cells[n].childs[i]].str == [k[|words[n]|]];
      assert t.childs[i].str == [k[|words[n]|]];
    }
    forall i, j | 0 <= i < j < |t.childs| ensures t.childs[i].str[0] < t.childs[j].str[0] {
      assert Char(cells[cells[n].childs[i]]) < Char(cells[cells[n].childs[j]]);
    }
  }

  /** The dictionary made of the first n sorted symbols and their original indexes. */
  ghost function Numbered(symbols: seq<Symbol>, indexMap: seq<nat>, n: nat): (d: Dictionary)
    requires n <= |symbols| == |indexMap| && Sorted(symbols)
    ensures forall k :: k in d <==> k in symbols[..n]
    ensures forall i :: 0 <= i < n ==> symbols[i] in d && d[symbols[i]] == indexMap[i]
  {
    if n == 0 then map[] else
      assert symbols[..n] == symbols[..n - 1] + [symbols[n - 1]];
      assert forall i :: 0 <= i < n - 1 ==> symbols[i] != symbols[n - 1] by {
        LessIsIrreflexive(symbols[n - 1]);
      }
      Numbered(symbols, indexMap, n - 1)[symbols[n - 1] := indexMap[n - 1]]
  }

  /** `childSet.append(newNode)` on the child list owned by `owner`. */
  function Append(cells: seq<Cell>, owner: nat, c: int): (r: seq<Cell>)
    requires owner < |cells|
    ensures |r| == |cells| + 1 && r[|cells|] == Cell([c], [], false, 0)
    ensures r[owner] == cells[owner].(childs := cells[owner].childs + [|cells|])
    ensures forall n :: 0 <= n < |cells| && n != owner ==> r[n] == cells[n]
    ensures Forward(cells) ==> Forward(r)
  {
    cells[owner := cells[owner].(childs := cells[owner].childs + [|cells|])] + [Cell([c], [], false, 0)]
  }

  lemma AppendKeepsStore(cells: seq<Cell>, words: seq<Symbol>, owner: nat, c: int)
    requires Store(cells, words) && owner < |cells|
    requires words[owner] + [c] !in words
    requires forall i :: 0 <= i < |cells[owner].childs| ==> Char(cells[cells[owner].childs[i]]) < c
    ensures Store(Append(cells, owner, c), words + [words[owner] + [c]])
  {
    var cells', words' := Append(cells, owner, c), words + [words[owner] + [c]];
    forall n | 0 <= n < |cells'| ensures CellOk(cells', words', n) {
      if n < |cells| { assert CellOk(cells, words, n); }
    }
  }

  lemma AppendKeepsChildren(cells: seq<Cell>, owner: nat, c: int, n: nat, e: int)
    requires Forward(cells) && owner < |cells| && n < |cells|
    ensures HasChild(cells, n, e) ==> HasChild(Append(cells, owner, c), n, e)
    ensures HasChild(Append(cells, owner, c), owner, c)
  {
    var cells' := Append(cells, owner, c);
    assert cells'[cells'[owner].childs[|cells[owner].childs|]].str == [c];
    if HasChild(cells, n, e) {
      var i :| 0 <= i < |cells[n].childs| && cells[cells[n].childs[i]].str == [e];
      assert cells'[n].childs[i] == cells[n].childs[i];
      assert cells'[cells'[n].childs[i]].str == [e];
    }
  }

  /** The symbol `s` is being entered, i characters are laid out, `owner` is the cell they lead to. */
  ghost predicate Midway(cells: seq<Cell>, words: seq<Symbol>, d: Dictionary, s: Symbol, i: nat, owner: nat) {
    && i <= |s| && Entering(cells, words, d, s[..i])
    && owner < |cells| && words[owner] == s[..i]
    && forall k :: k in d ==> Less(k, s)
  }

  lemma PrefixStep(s: Symbol, i: nat, k: Symbol)
    requires i < |s|
    ensures s[..i] + [s[i]] == s[..i + 1]
    ensures s[..i + 1] <= k <==> s[..i] <= k && i < |k| && k[i] == s[i]
    ensures k <= s[..i + 1] <==> k <= s[..i] || k == s[..i + 1]
  {
    if s[..i + 1] <= k { assert k[..i + 1] == s[..i + 1]; assert k[..i] == s[..i + 1][..i]; }
    if k <= s[..i + 1] && |k| <= i { assert k == s[..i + 1][..|k|] == s[..i][..|k|]; }
    if k <= s[..i] { assert k == s[..i][..|k|] == s[..i + 1][..|k|]; }
  }

  /** If the current cell has no child for the next character, no symbol entered so far goes on that way. */
  lemma NoChildMeansNew(cells: seq<Cell>, words: seq<Symbol>, d: Dictionary, s: Symbol, i: nat, owner: nat)
    requires Midway(cells, words, d, s, i, owner) && i < |s| && !HasChild(cells, owner, s[i])
    ensures !IsPrefixIn(s[..i + 1], d) && s[..i + 1] !in words
  {
    forall k | k in d ensures !(s[..i + 1] <= k) {
      PrefixStep(s, i, k);
      assert Covers(cells, words, k) && LeadsTo(cells, words, owner, k);
    }
    forall n | 0 <= n < |words| ensures words[n] != s[..i + 1] {
      assert IsPrefixIn(words[n], d) || words[n] <= s[..i];
    }
  }

  /** Sorting keeps child lists sorted: the new character is larger than every sibling. */
  lemma NewCharacterIsLargest(cells: seq<Cell>, words: seq<Symbol>, d: Dictionary, s: Symbol, i: nat, owner: nat)
    requires Midway(cells, words, d, s, i, owner) && i < |s| && !HasChild(cells, owner, s[i])
    ensures forall j :: 0 <= j < |cells[owner].childs| ==> Char(cells[cells[owner].childs[j]]) < s[i]
  {
    assert CellOk(cells, words, owner);
    forall j | 0 <= j < |cells[owner].childs| ensures Char(cells[cells[owner].childs[j]]) < s[i] {
      var m := cells[owner].childs[j];
      assert IsPrefixIn(words[m], d);
      var k :| k in d && words[m] <= k;
      assert k[..i + 1] == words[m] && s[..i] == k[..i] && s[..i] <= s;
      LessAfterPrefix(s[..i], k, s);
    }
  }

  lemma AppendKeepsCovers(cells: seq<Cell>, words: seq<Symbol>, owner: nat, c: int, k: Symbol)
    requires Store(cells, words) && owner < |cells| && Covers(cells, words, k)
    requires !(words[owner] + [c] <= k) || words[owner] + [c] == k
    ensures Covers(Append(cells, owner, c), words + [words[owner] + [c]], k)
  {
    var cells', words' := Append(cells, owner, c), words + [words[owner] + [c]];
    forall n | 0 <= n < |cells'| ensures LeadsTo(cells', words', n, k) {
      if n < |cells| && words[n] <= k && words[n] != k {
        assert LeadsTo(cells, words, n, k);
        AppendKeepsChildren(cells, owner, c, n, k[|words[n]|]);
      }
    }
  }

  lemma AppendReaches(cells: seq<Cell>, words: seq<Symbol>, d: Dictionary, s: Symbol, i: nat, owner: nat)
    requires Midway(cells, words, d, s, i, owner) && i < |s|
    ensures s[..i] + [s[i]] == s[..i + 1]
    ensures Covers(Append(cells, owner, s[i]), words + [s[..i + 1]], s[..i + 1])
  {
    var cells', words', k := Append(cells, owner, s[i]), words + [s[..i + 1]], s[..i + 1];
    PrefixStep(s, i, k);
    forall n | 0 <= n < |cells'| ensures LeadsTo(cells', words', n, k) {
      if n < |cells| && words[n] <= k && words[n] != k {
        PrefixStep(s, i, words[n]);
        assert LeadsTo(cells, words, n, s[..i]);
        AppendKeepsChildren(cells, owner, s[i], n, k[|words[n]|]);
      }
    }
  }

  lemma NeededGrows(words: seq<Symbol>, d: Dictionary, s: Symbol, i: nat)
    requires i < |s| && Needed(words, d, s[..i])
    ensures Needed(words, d, s[..i + 1]) && Needed(words + [s[..i + 1]], d, s[..i + 1])
  {
    var words' := words + [s[..i + 1]];
    forall n | 0 <= n < |words'| ensures IsPrefixIn(words'[n], d) || words'[n] <= s[..i + 1] {
      if n < |words| {
        PrefixStep(s, i, words[n]);
        assert IsPrefixIn(words[n], d) || words[n] <= s[..i];
      }
    }
    forall n | 0 <= n < |words| ensures IsPrefixIn(words[n], d) || words[n] <= s[..i + 1] {
      assert words'[n] == words[n];
    }
  }

  lemma AppendKeepsMidway(cells: seq<Cell>, words: seq<Symbol>, d: Dictionary, s: Symbol, i: nat, owner: nat)
    requires Midway(cells, words, d, s, i, owner) && i < |s| && !HasChild(cells, owner, s[i])
    ensures Midway(Append(cells, owner, s[i]), words + [s[..i + 1]], d, s, i + 1, |cells|)
    ensures !IsPrefixIn(s[..i + 1], d)
  {
    var cells', words' := Append(cells, owner, s[i]), words + [s[..i + 1]];
    NoChildMeansNew(cells, words, d, s, i, owner);
    NewCharacterIsLargest(cells, words, d, s, i, owner);
    AppendReaches(cells, words, d, s, i, owner);
    AppendKeepsStore(cells, words, owner, s[i]);
    assert s[..i + 1] !in d by { if s[..i + 1] in d { assert IsPrefixIn(s[..i + 1], d); } }
    assert Marked(cells', words', d);
    NeededGrows(words, d, s, i);
    forall k | k in d ensures Covers(cells', words', k) {
      assert Covers(cells, words, k);
      AppendKeepsCovers(cells, words, owner, s[i], k);
    }
  }

  /** Moving into an existing child lays out one more character of the symbol. */
  lemma DescendKeepsMidway(cells: seq<Cell>, words: seq<Symbol>, d: Dictionary, s: Symbol, i: nat, owner: nat, j: nat)
    requires Midway(cells, words, d, s, i, owner) && i < |s|
    requires j < |cells[owner].childs| && cells[cells[owner].childs[j]].str == [s[i]]
    ensures Midway(cells, words, d, s, i + 1, cells[owner].childs[j])
    ensures IsPrefixIn(s[..i + 1], d)
  {
    var m, k := cells[owner].childs[j], s[..i + 1];
    assert CellOk(cells, words, owner);
    PrefixStep(s, i, k);
    assert words[m] == k;
    assert IsPrefixIn(words[m], d);
    NeededGrows(words, d, s, i);
    forall n | 0 <= n < |cells| ensures LeadsTo(cells, words, n, k) {
      if words[n] <= k && words[n] != k {
        PrefixStep(s, i, words[n]);
        assert LeadsTo(cells, words, n, s[..i]);
        if words[n] == s[..i] { assert n == owner && HasChild(cells, n, s[i]); }
      }
    }
  }

  lemma PrefixAfterUpdate(p: Symbol, d: Dictionary, s: Symbol, ref: nat)
    requires IsPrefixIn(p, d) || p <= s
    ensures IsPrefixIn(p, d[s := ref])
  {
    if p <= s { assert s in d[s := ref]; }
    else { var k :| k in d && p <= k; assert k in d[s := ref]; }
  }

  /** Marking the freshly created last cell of `s` final enters `s` in the dictionary. */
  lemma MarkEnters(cells: seq<Cell>, words: seq<Symbol>, d: Dictionary, s: Symbol, n: nat, ref: nat)
    requires Midway(cells, words, d, s, |s|, n)
    ensures Entering(cells[n := cells[n].(final := true, ref := ref)], words, d[s := ref], [])
  {
    hide IsPrefixIn;
    assert s[..|s|] == s;
    var cells', d' := cells[n := cells[n].(final := true, ref := ref)], d[s := ref];
    forall m | 0 <= m < |cells'| ensures IsPrefixIn(words[m], d') || words[m] <= [] {
      assert IsPrefixIn(words[m], d) || words[m] <= s;
      PrefixAfterUpdate(words[m], d, s, ref);
    }
    forall m | 0 <= m < |cells'| ensures CellOk(cells', words, m) {
      assert CellOk(cells, words, m);
    }
    forall k | k in d' || k == [] ensures Covers(cells', words, k) {
      forall m | 0 <= m < |cells'| ensures LeadsTo(cells', words, m, k) {
        if words[m] <= k && words[m] != k {
          assert Covers(cells, words, k) && LeadsTo(cells, words, m, k);
          var i :| 0 <= i < |cells[m].childs| && cells[cells[m].childs[i]].str == [k[|words[m]|]];
          assert cells'[cells'[m].childs[i]].str == [k[|words[m]|]];
        }
      }
    }
  }

  /** Sorting is what makes the last cell of every symbol a new one. */
  lemma NotYetEntered(symbols: seq<Symbol>, indexMap: seq<nat>, k: nat)
    requires |symbols| == |indexMap| && Sorted(symbols) && k < |symbols|
    ensures !IsPrefixIn(symbols[k], Numbered(symbols, indexMap, k))
  {
    forall key | key in Numbered(symbols, indexMap, k) ensures !(symbols[k] <= key) {
      var i :| 0 <= i < k && symbols[i] == key;
      if symbols[k] <= key { PrefixComesFirst(symbols[k], key); }
    }
  }

  lemma StartSymbol(cells: seq<Cell>, words: seq<Symbol>, symbols: seq<Symbol>, indexMap: seq<nat>, k: nat)
    requires |symbols| == |indexMap| && Sorted(symbols) && k < |symbols|
    requires Entering(cells, words, Numbered(symbols, indexMap, k), [])
    ensures Midway(cells, words, Numbered(symbols, indexMap, k), symbols[k], 0, 0)
  {
    assert symbols[k][..0] == [];
  }

  /** `for node in childSet: if node['string'] == char`: the position of the child for c, or the length. */
  method FindChild(cells: seq<Cell>, owner: nat, c: int) returns (j: nat)
    requires Forward(cells) && owner < |cells|
    ensures j <= |cells[owner].childs|
    ensures j < |cells[owner].childs| <==> HasChild(cells, owner, c)
    ensures j < |cells[owner].childs| ==> cells[cells[owner].childs[j]].str == [c]
  {
    j := 0;
    while j < |cells[owner].childs| && cells[cells[owner].childs[j]].str != [c]
      invariant 0 <= j <= |cells[owner].childs|
      invariant forall h :: 0 <= h < j ==> cells[cells[owner].childs[h]].str != [c]
    {
      j := j + 1;
    }
  }

  /** Lays out one symbol. `owner` is the cell whose child list the source calls `childSet`;
      `newNode` is the last cell created, and the one the source marks final. */
  method EnterSymbol(cells0: seq<Cell>, ghost words0: seq<Symbol>, newNode0: nat, s: Symbol, ghost d: Dictionary)
    returns (cells: seq<Cell>, ghost words: seq<Symbol>, newNode: nat)
    requires Midway(cells0, words0, d, s, 0, 0) && newNode0 < |cells0|
    ensures newNode < |cells|
    ensures Entering(cells, words, d, s)
    ensures s != [] && !IsPrefixIn(s, d) ==> Midway(cells, words, d, s, |s|, newNode)
  {
    cells, words, newNode := cells0, words0, newNode0;
    var owner: nat := 0;
    for i := 0 to |s|
      invariant Midway(cells, words, d, s, i, owner) && newNode < |cells|
      invariant i > 0 ==> IsPrefixIn(s[..i], d) || newNode == owner
    {
      var j := FindChild(cells, owner, s[i]);
      if j < |cells[owner].childs| {
        DescendKeepsMidway(cells, words, d, s, i, owner, j);
        owner := cells[owner].childs[j];
      } else {
        AppendKeepsMidway(cells, words, d, s, i, owner);
        newNode := |cells|;
        cells, words := Append(cells, owner, s[i]), words + [s[..i + 1]];
        owner := newNode;
      }
    }
    assert s[..|s|] == s;
  }

  lemma EmptyStore(cells: seq<Cell>, words: seq<Symbol>)
    requires cells == [Cell([], [], false, 0)] && words == [[]]
    ensures Entering(cells, words, map[], [])
  {
  }

  lemma NumberedGrows(symbols: seq<Symbol>, indexMap: seq<nat>, k: nat)
    requires |symbols| == |indexMap| && Sorted(symbols) && k < |symbols|
    ensures Numbered(symbols, indexMap, k + 1) == Numbered(symbols, indexMap, k)[symbols[k] := indexMap[k]]
  {
  }

  lemma RootStays(cells: seq<Cell>, words: seq<Symbol>, d: Dictionary)
    requires Entering(cells, words, d, [])
    ensures Forward(cells) && |cells| == |words| > 0 && cells[0].str == [] && words[0] == []
  {
  }

  /** The whole trie: enter every symbol, then mark `newNode` with the symbol's original index. */
  method BuildTree(symbols: seq<Symbol>, indexMap: seq<nat>) returns (cells: seq<Cell>)
    requires |symbols| == |indexMap| && Sorted(symbols)
    requires forall k :: 0 <= k < |symbols| ==> symbols[k] != []
    ensures Forward(cells) && |cells| > 0 && cells[0].str == []
    ensures Holds(Unfold(cells, 0), [], Numbered(symbols, indexMap, |symbols|))
  {
    cells := [Cell([], [], false, 0)];
    ghost var words: seq<Symbol> := [[]];
    var newNode: nat := 0;
    EmptyStore(cells, words);
    assert Numbered(symbols, indexMap, 0) == map[];
    hide Entering, Holds, Midway, Numbered;
    for k := 0 to |symbols|
      invariant Entering(cells, words, Numbered(symbols, indexMap, k), []) && newNode < |cells|
      invariant |cells| > 0 && cells[0].str == [] && |words| > 0 && words[0] == []
    {
      ghost var d := Numbered(symbols, indexMap, k);
      StartSymbol(cells, words, symbols, indexMap, k);
      cells, words, newNode := EnterSymbol(cells, words, newNode, symbols[k], d);
      NotYetEntered(symbols, indexMap, k);
      MarkEnters(cells, words, d, symbols[k], newNode, indexMap[k]);
      cells := cells[newNode := cells[newNode].(final := true, ref := indexMap[k])];
      NumberedGrows(symbols, indexMap, k);
      RootStays(cells, words, Numbered(symbols, indexMap, k + 1));
    }
    RootStays(cells, words, Numbered(symbols, indexMap, |symbols|));
    BuiltHolds(cells, words, Numbered(symbols, indexMap, |symbols|), 0);
  }
}
