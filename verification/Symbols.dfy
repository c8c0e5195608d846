/** Symbols: the strings a dictionary is made of, ordered as Python orders `str`. */
module Symbols {

  /** A string, as the sequence of its byte values. */
  type Symbol = seq<int>

  /** Strict lexicographic order: what `list.sort` sorts by. */
  predicate Less(a: Symbol, b: Symbol) {
    if b == [] then false
    else if a == [] then true
    else a[0] < b[0] || (a[0] == b[0] && Less(a[1..], b[1..]))
  }

  /** Strictly increasing, hence also without repetition. */
  ghost predicate Sorted(symbols: seq<Symbol>) {
    forall i, j :: 0 <= i < j < |symbols| ==> Less(symbols[i], symbols[j])
  }

  /** What the dictionary compiler accepts: non-empty strings over bytes 32..127. */
  predicate Printable(s: Symbol) {
    s != [] && forall i :: 0 <= i < |s| ==> 32 <= s[i] < 128
  }

  ghost predicate PrefixFree(symbols: seq<Symbol>) {
    forall i, j :: 0 <= i < |symbols| && 0 <= j < |symbols| && symbols[i] <= symbols[j] ==> i == j
  }

  lemma {:induction false} LessIsIrreflexive(a: Symbol)
    ensures !Less(a, a)
  {
    if a != [] { LessIsIrreflexive(a[1..]); }
  }

  /** A later symbol is never a prefix of an earlier one. */
  lemma {:induction false} PrefixComesFirst(a: Symbol, b: Symbol)
    requires a <= b
    ensures !Less(b, a)
  {
    if a != [] { PrefixComesFirst(a[1..], b[1..]); }
  }

  /** After a common prefix the next characters are ordered. */
  lemma {:induction false} LessAfterPrefix(p: Symbol, a: Symbol, b: Symbol)
    requires p <= a && p <= b && |p| < |a| && |p| < |b|
    requires Less(a, b)
    ensures a[|p|] <= b[|p|]
  {
    if p != [] { LessAfterPrefix(p[1..], a[1..], b[1..]); }
  }

  /** The order by its meaning: a proper prefix comes first, otherwise the first different character decides. */
  lemma {:induction false} LessIff(a: Symbol, b: Symbol)
    ensures Less(a, b) <==> (a <= b && a != b) || exists i :: 0 <= i < |a| && i < |b| && a[..i] == b[..i] && a[i] < b[i]
  {
    if a != [] && b != [] {
      LessIff(a[1..], b[1..]);
      var x, y := a[1..], b[1..];
      assert a == [a[0]] + x && b == [b[0]] + y;
      if a[0] == b[0] {
        assert a <= b <==> x <= y;
        if i :| 0 <= i < |x| && i < |y| && x[..i] == y[..i] && x[i] < y[i] {
          assert a[..i + 1] == [a[0]] + x[..i] && b[..i + 1] == [b[0]] + y[..i];
          assert a[i + 1] < b[i + 1];
        }
        if i :| 0 <= i < |a| && i < |b| && a[..i] == b[..i] && a[i] < b[i] {
          assert i > 0;
          assert x[..i - 1] == a[..i][1..] && y[..i - 1] == b[..i][1..];
          assert x[i - 1] < y[i - 1];
        }
      } else {
        assert a[..0] == b[..0];
        assert !(a <= b);
        forall i | 0 < i < |a| && i < |b| ensures a[..i] != b[..i] { FirstDiffers(a, b, i); }
      }
    }
  }

  lemma FirstDiffers(a: Symbol, b: Symbol, i: nat)
    requires 0 < i <= |a| && i <= |b| && a[0] != b[0]
    ensures a[..i] != b[..i]
  {
    assert a[..i][0] == a[0] && b[..i][0] == b[0];
  }

  lemma {:induction false} LessIsTotal(a: Symbol, b: Symbol)
    ensures Less(a, b) || a == b || Less(b, a)
  {
    if a != [] && b != [] {
      LessIsTotal(a[1..], b[1..]);
      assert a == [a[0]] + a[1..] && b == [b[0]] + b[1..];
    }
  }

  lemma {:induction false} LessIsTransitive(a: Symbol, b: Symbol, c: Symbol)
    requires Less(a, b) && Less(b, c)
    ensures Less(a, c)
  {
    if a != [] && a[0] == b[0] == c[0] { LessIsTransitive(a[1..], b[1..], c[1..]); }
  }

  /** Where a new symbol goes in a sorted list. */
  function Insert(s: Symbol, symbols: seq<Symbol>): (r: seq<Symbol>)
    ensures multiset(r) == multiset(symbols) + multiset{s}
  {
    if symbols == [] || Less(s, symbols[0]) then
      assert multiset([s] + symbols) == multiset(symbols) + multiset{s};
      [s] + symbols
    else
      assert symbols == [symbols[0]] + symbols[1..];
      [symbols[0]] + Insert(s, symbols[1..])
  }

  lemma {:induction false} InsertSorts(s: Symbol, symbols: seq<Symbol>)
    requires Sorted(symbols) && s !in symbols
    ensures Sorted(Insert(s, symbols))
  {
    if symbols != [] {
      LessIsTotal(s, symbols[0]);
      if Less(s, symbols[0]) {
        forall i | 1 <= i < |symbols| ensures Less(s, symbols[i]) { LessIsTransitive(s, symbols[0], symbols[i]); }
      } else {
        var rest := Insert(s, symbols[1..]);
        InsertSorts(s, symbols[1..]);
        forall x | x in rest ensures Less(symbols[0], x) {
          assert x in multiset(rest);
          if x != s {
            var i :| 0 <= i < |symbols[1..]| && symbols[1..][i] == x;
            assert Less(symbols[0], symbols[i + 1]);
          }
        }
      }
    }
  }

  /** Every list without duplicates has a sorted form, so the compiler's precondition can always be met. */
  lemma {:induction false} CanBeSorted(symbols: seq<Symbol>) returns (sorted: seq<Symbol>)
    requires forall i, j :: 0 <= i < j < |symbols| ==> symbols[i] != symbols[j]
    ensures Sorted(sorted) && multiset(sorted) == multiset(symbols)
  {
    if symbols == [] {
      sorted := [];
    } else {
      var rest := CanBeSorted(symbols[1..]);
      assert symbols == [symbols[0]] + symbols[1..];
      assert symbols[0] !in multiset(symbols[1..]);
      assert symbols[0] in rest <==> symbols[0] in multiset(rest);
      InsertSorts(symbols[0], rest);
      sorted := Insert(symbols[0], rest);
    }
  }
}
