/** Exactly which texts the address parser accepts, and what each of them means. */
module AddressGrammar {
  import opened Options
  import opened Http
  import opened AddressText

  // ----- groups and the gap -----

  /** The text of groups with an optional `::` before the group at `fill`. */
  function TextOf(sc: Scanned): string
    requires sc.fill.Some? ==> sc.fill.value <= |sc.items|
  {
    match sc.fill
    case None => Join(':', sc.items)
    case Some(f) => Join(':', sc.items[..f]) + "::" + Join(':', sc.items[f..])
  }

  ghost predicate AllPlain(items: seq<string>) { forall i :: 0 <= i < |items| ==> Plain(items[i]) }

  ghost predicate Writes(s: string, sc: Scanned) {
    AllPlain(sc.items) && (sc.fill.Some? ==> sc.fill.value <= |sc.items|) && s == TextOf(sc)
  }

  lemma FirstGroup(text: string)
    requires text != "" && !("::" <= text)
    ensures var pos := Find(text, ':');
            && (pos == -1 ==> Plain(text) && Join(':', [text]) == text)
            && (pos > 0 ==> Plain(text[..pos]) && text == text[..pos] + ":" + text[pos + 1..])
  {
    var pos := Find(text, ':');
    if pos > 0 { assert text == text[..pos] + [text[pos]] + text[pos + 1..]; }
  }

  lemma JoinMore(g: string, items: seq<string>)
    requires items != []
    ensures Join(':', [g] + items) == g + ":" + Join(':', items)
  {
    assert ([g] + items)[1..] == items;
  }

  lemma NoGroups()
    ensures Join(':', []) == ""
  {
  }

  /** After the gap only groups can follow. */
  lemma {:induction false} ScanFilled(text: string, items: seq<string>, k: nat, sc: Scanned)
    requires Scan(text, items, Some(k)) == Some(sc)
    ensures sc.fill == Some(k) && items <= sc.items
    ensures AllPlain(sc.items[|items|..]) && text == Join(':', sc.items[|items|..])
    decreases |text|
  {
    hide Find, Join, Plain;
    if text == "" {
      NoGroups();
      assert sc.items[|items|..] == [];
    } else {
      FirstGroup(text);
      var pos := Find(text, ':');
      if pos == -1 {
        assert sc.items[|items|..] == [text];
      } else {
        var g, rest := text[..pos], text[pos + 1..];
        if "::" <= text[pos..] { GapTwice(text[pos..], items + [g], k); }
        ScanFilled(rest, items + [g], k, sc);
        OneMoreGroup(sc.items, items, g, rest);
      }
    }
  }

  lemma GapTwice(text: string, items: seq<string>, k: nat)
    requires "::" <= text
    ensures Scan(text, items, Some(k)) == None
  {
  }

  lemma OneMoreGroup(all: seq<string>, items: seq<string>, g: string, rest: string)
    requires items + [g] <= all && Plain(g) && AllPlain(all[|items| + 1..]) && rest == Join(':', all[|items| + 1..]) && rest != ""
    ensures AllPlain(all[|items|..]) && Join(':', all[|items|..]) == g + ":" + rest
  {
    hide Plain;
    var more := all[|items| + 1..];
    if more == [] { NoGroups(); }
    assert all[|items|] == (items + [g])[|items|] == g;
    assert all[|items|..] == [g] + more;
    JoinMore(g, more);
  }

  /** A text that was split is the text of what it was split into. */
  lemma {:induction false} ScanOpen(text: string, items: seq<string>, sc: Scanned)
    requires Scan(text, items, None) == Some(sc)
    ensures items <= sc.items && AllPlain(sc.items[|items|..])
    ensures sc.fill.Some? ==> |items| <= sc.fill.value <= |sc.items|
    ensures text == match sc.fill
                    case None => Join(':', sc.items[|items|..])
                    case Some(f) => Join(':', sc.items[|items|..f]) + "::" + Join(':', sc.items[f..])
    decreases |text|
  {
    hide Find, Join, Plain, Scan;
    NoGroups();
    if text == "" {
      ScanEnds(items);
      assert sc.items[|items|..] == [];
    } else if "::" <= text {
      GapHere(text, items);
      ScanFilled(text[2..], items, |items|, sc);
      assert sc.items[|items|..|items|] == [] && text == "" + "::" + text[2..];
    } else {
      FirstGroup(text);
      ScanCases(text, items);
      var pos := Find(text, ':');
      if pos == -1 {
        assert sc.items[|items|..] == [text];
      } else {
        var g := text[..pos];
        if "::" <= text[pos..] {
          ScanFilled(text[pos + 2..], items + [g], |items| + 1, sc);
          GapAfter(text, pos, sc.items, items);
        } else {
          ScanOpen(text[pos + 1..], items + [g], sc);
          GroupBefore(text, pos, sc, items);
        }
      }
    }
  }

  lemma ScanEnds(items: seq<string>)
    ensures Scan("", items, None) == Some(Scanned(items, None))
  {
  }

  /** The ways the split goes on. */
  lemma ScanCases(text: string, items: seq<string>)
    requires text != "" && !("::" <= text)
    ensures var pos := Find(text, ':');
            && (pos == 0 ==> Scan(text, items, None) == None)
            && (pos == -1 ==> Scan(text, items, None) == Some(Scanned(items + [text], None)))
            && (pos > 0 && "::" <= text[pos..] ==>
                 && pos + 1 < |text|
                 && Scan(text, items, None) == Scan(text[pos + 2..], items + [text[..pos]], Some(|items| + 1)))
            && (pos > 0 && !("::" <= text[pos..]) ==>
                 && Scan(text, items, None) == (if pos + 1 == |text| then None else Scan(text[pos + 1..], items + [text[..pos]], None))
                 && (pos + 1 < |text| ==> text[pos + 1] != ':'))
  {
    hide Find;
    var pos := Find(text, ':');
    if pos > 0 {
      if "::" <= text[pos..] {
        GapHere(text[pos..], items + [text[..pos]]);
        assert text[pos..][2..] == text[pos + 2..];
      } else if pos + 1 < |text| {
        ColonsAt(text, pos);
      }
    }
  }

  lemma ColonsAt(text: string, pos: nat)
    requires pos + 1 < |text|
    ensures "::" <= text[pos..] <==> text[pos] == ':' && text[pos + 1] == ':'
  {
    assert text[pos..][..2] == [text[pos], text[pos + 1]];
  }

  lemma GapHere(text: string, items: seq<string>)
    requires "::" <= text
    ensures Scan(text, items, None) == Scan(text[2..], items, Some(|items|))
  {
  }

  lemma GapAfter(text: string, pos: nat, all: seq<string>, items: seq<string>)
    requires pos + 1 < |text| && "::" <= text[pos..] && Plain(text[..pos]) && items + [text[..pos]] <= all
    requires AllPlain(all[|items| + 1..]) && text[pos + 2..] == Join(':', all[|items| + 1..])
    ensures AllPlain(all[|items|..]) && text == Join(':', all[|items|..|items| + 1]) + "::" + Join(':', all[|items| + 1..])
  {
    hide Plain;
    var g := text[..pos];
    assert all[|items|] == (items + [g])[|items|] == g;
    assert all[|items|..|items| + 1] == [g];
    assert all[|items|..] == [g] + all[|items| + 1..];
    assert text[pos..][..2] == "::";
    assert text == g + "::" + text[pos + 2..];
    assert Join(':', [g]) == g;
  }

  lemma JoinIsOpen(items: seq<string>)
    requires AllPlain(items) && items != []
    ensures Join(':', items) != "" && Join(':', items)[0] != ':'
  {
    JoinStarts(items);
  }

  lemma GapFirst(x: seq<string>, y: string)
    requires x == []
    ensures (Join(':', x) + "::" + y)[0] == ':'
  {
  }

  lemma GroupBefore(text: string, pos: nat, sc: Scanned, items: seq<string>)
    requires 0 < pos < |text| - 1 && text[pos + 1] != ':' && Plain(text[..pos]) && text == text[..pos] + ":" + text[pos + 1..]
    requires items + [text[..pos]] <= sc.items && AllPlain(sc.items[|items| + 1..])
    requires sc.fill.Some? ==> |items| + 1 <= sc.fill.value <= |sc.items|
    requires text[pos + 1..] == match sc.fill
                                case None => Join(':', sc.items[|items| + 1..])
                                case Some(f) => Join(':', sc.items[|items| + 1..f]) + "::" + Join(':', sc.items[f..])
    ensures AllPlain(sc.items[|items|..])
    ensures text == match sc.fill
                    case None => Join(':', sc.items[|items|..])
                    case Some(f) => Join(':', sc.items[|items|..f]) + "::" + Join(':', sc.items[f..])
  {
    hide Plain, Join;
    var g, all := text[..pos], sc.items;
    NoGroups();
    assert all[|items|] == (items + [g])[|items|] == g;
    assert all[|items|..] == [g] + all[|items| + 1..];
    match sc.fill
    case None => JoinMore(g, all[|items| + 1..]);
    case Some(f) =>
      var x, y := all[|items| + 1..f], Join(':', all[f..]);
      if x == [] {
        GapFirst(x, y);
        assert false;
      }
      assert all[|items|..f] == [g] + x;
      JoinMore(g, x);
      assert g + ":" + (Join(':', x) + "::" + y) == g + ":" + Join(':', x) + "::" + y;
  }

  /** Splitting and writing are inverse to each other, on all texts and all lists of groups. */
  lemma ScanIff(s: string, sc: Scanned)
    ensures Scan(s, [], None) == Some(sc) <==> Writes(s, sc)
  {
    hide Scan, Join, Plain;
    if Scan(s, [], None) == Some(sc) {
      ScanOpen(s, [], sc);
      assert sc.items[0..] == sc.items;
      assert sc.fill.Some? ==> sc.items[0..sc.fill.value] == sc.items[..sc.fill.value];
    }
    if Writes(s, sc) {
      match sc.fill
      case None =>
        ScanGroups(sc.items, [], None);
        assert [] + sc.items == sc.items;
      case Some(f) =>
        var a, b := sc.items[..f], sc.items[f..];
        ScanUpToGap(a, Join(':', b), []);
        ScanGroups(b, a, Some(f));
        assert [] + a == a && a + b == sc.items;
    }
  }

  // ----- what the groups mean -----

  ghost predicate AreInts(items: seq<string>, h: seq<int>, base: nat) {
    |items| == |h| && forall i :: 0 <= i < |items| ==> ParseInt(items[i], base) == Some(h[i])
  }

  /** The 16-bit groups the texts stand for; a dotted text at the end stands for two. */
  ghost predicate Stand(items: seq<string>, h: seq<int>) {
    if items != [] && '.' in items[|items| - 1] then
      var n := |items| - 1;
      && |h| == n + 2 && AreInts(items[..n], h[..n], 16)
      && ParseDotted(items[n]) == Some(h[n] * 65536 + h[n + 1])
    else AreInts(items, h, 16)
  }

  /** The eight groups of a split text: all of them, or those before the gap, at least one zero, and those after it. */
  ghost predicate Means(sc: Scanned, h: seq<int>)
    requires sc.fill.Some? ==> sc.fill.value <= |sc.items|
  {
    |h| == 8 && InRange(h, 65536) &&
    match sc.fill
    case None => Stand(sc.items, h)
    case Some(f) =>
      f < 8 && AreInts(sc.items[..f], h[..f], 16)
      && exists k :: f < k <= 8 && (forall i :: f <= i < k ==> h[i] == 0) && Stand(sc.items[f..], h[k..])
  }

  // ----- numbers -----

  lemma {:induction false} CombineIs(items: seq<string>, h: seq<int>, base: nat, unit: nat)
    requires AreInts(items, h, base)
    ensures Combine(items, base, unit) == if InRange(h, unit) then Some(Number(h, unit)) else None
    decreases |items|
  {
    hide ParseInt;
    if items != [] {
      var n := |items| - 1;
      assert AreInts(items[..n], h[..n], base);
      CombineIs(items[..n], h[..n], base, unit);
      assert InRange(h, unit) <==> InRange(h[..n], unit) && 0 <= h[n] < unit by {
        if InRange(h[..n], unit) && 0 <= h[n] < unit {
          forall i | 0 <= i < |h| ensures 0 <= h[i] < unit { if i < n { assert h[..n][i] == h[i]; } }
        }
      }
    }
  }

  /** Only texts that are numbers can be combined. */
  lemma {:induction false} CombineNeeds(items: seq<string>, base: nat, unit: nat) returns (h: seq<int>)
    requires Combine(items, base, unit).Some?
    ensures AreInts(items, h, base)
    decreases |items|
  {
    hide ParseInt;
    h := [];
    if items != [] {
      var n := |items| - 1;
      h := CombineNeeds(items[..n], base, unit);
      h := h + [ParseInt(items[n], base).value];
      forall i | 0 <= i < |items| ensures ParseInt(items[i], base) == Some(h[i]) { if i < n { assert items[..n][i] == items[i]; } }
    }
  }

  /** Combining succeeds exactly on texts of numbers in range, and gives the number they make up. */
  lemma CombineIff(items: seq<string>, base: nat, unit: nat, v: int)
    ensures Combine(items, base, unit) == Some(v) <==> exists h :: AreInts(items, h, base) && InRange(h, unit) && v == Number(h, unit)
  {
    hide Combine, AreInts, InRange, Number;
    if Combine(items, base, unit) == Some(v) {
      var h := CombineNeeds(items, base, unit);
      CombineIs(items, h, base, unit);
      assert AreInts(items, h, base) && InRange(h, unit) && v == Number(h, unit);
    }
    if h :| AreInts(items, h, base) && InRange(h, unit) && v == Number(h, unit) {
      CombineIs(items, h, base, unit);
    }
  }

  // ----- the dotted tail -----

  lemma {:induction false} NumberBound(h: seq<int>, unit: nat)
    requires InRange(h, unit) && unit > 0
    ensures 0 <= Number(h, unit) < Power(unit, |h|)
    decreases |h|
  {
    if h != [] {
      var n := |h| - 1;
      NumberBound(h[..n], unit);
      var a := Number(h[..n], unit);
      assert Number(h, unit) == a * unit + h[n];
      PowerStep(unit, n + 1);
      hide Power, Number;
      Digit(unit, a, h[n], Power(unit, n));
    }
  }

  lemma Digit(unit: nat, a: nat, x: nat, p: nat)
    requires x < unit && a < p
    ensures a * unit + x < unit * p
  {
    Times(unit, a + 1, p);
  }

  lemma Times(a: nat, x: nat, y: nat)
    requires x <= y
    ensures a * x <= a * y
  {
  }

  lemma DottedRange(s: string)
    ensures ParseDotted(s).Some? ==> 0 <= ParseDotted(s).value < 0x1_0000_0000
  {
    var bytes := Split(s, '.');
    var r := Combine(bytes, 10, BYTE);
    if ParseDotted(s).Some? {
      var h := CombineNeeds(bytes, 10, BYTE);
      CombineIs(bytes, h, 10, BYTE);
      NumberBound(h, BYTE);
      SmallPowers();
      hide Split, Combine, Power, Number;
      assert 0 <= r.value < Power(BYTE, |bytes|) && |bytes| <= 4;
    }
  }

  lemma SmallPowers()
    ensures Power(256, 0) == 1 && Power(256, 1) == 256 && Power(256, 2) == 0x1_0000 && Power(256, 3) == 0x100_0000 && Power(256, 4) == 0x1_0000_0000
  {
  }

  lemma {:induction false} JoinOfSplit(s: string, c: char)
    ensures Split(s, c) != [] && Join(c, Split(s, c)) == s && forall i :: 0 <= i < |Split(s, c)| ==> c !in Split(s, c)[i]
    decreases |s|
  {
    hide Find;
    var k := Find(s, c);
    if k != -1 {
      JoinOfSplit(s[k + 1..], c);
      assert s == s[..k] + [c] + s[k + 1..];
      assert ([s[..k]] + Split(s[k + 1..], c))[1..] == Split(s[k + 1..], c);
    }
  }

  function Zeros(n: nat): (z: seq<int>)
    ensures |z| == n && forall i :: 0 <= i < n ==> z[i] == 0
  {
    if n == 0 then [] else Zeros(n - 1) + [0]
  }

  /** Missing bytes at the end are zero. */
  lemma {:induction false} ScaledIs(h: seq<int>, v: nat, k: nat)
    requires v == Number(h, 256)
    ensures Scaled(v, k) == Number(h + Zeros(k), 256)
    decreases k
  {
    if k == 0 {
      assert h + Zeros(0) == h;
    } else {
      NumberOfMore(h, 256, 0);
      ScaledIs(h + [0], v * 256, k - 1);
      assert (h + [0]) + Zeros(k - 1) == h + Zeros(k) by { ZerosFront(k); }
    }
  }

  lemma {:induction false} ZerosFront(k: nat)
    requires k > 0
    ensures Zeros(k) == [0] + Zeros(k - 1)
  {
  }

  function FourBytes(h: seq<int>): seq<int> { if |h| <= 4 then h + Zeros(4 - |h|) else h }

  /** The bytes of a dotted address, of which the last ones may be missing, written as decimal numbers below 256. */
  ghost predicate WritesBytes(s: string, items: seq<string>, h: seq<int>) {
    && 1 <= |items| <= 4 && s == Join('.', items) && AreInts(items, h, 10) && InRange(h, 256)
  }

  lemma DottedNeeds(s: string, v: int) returns (items: seq<string>, h: seq<int>)
    requires ParseDotted(s) == Some(v)
    ensures WritesBytes(s, items, h) && v == Number(FourBytes(h), 256)
  {
    items := Split(s, '.');
    JoinOfSplit(s, '.');
    h := CombineNeeds(items, 10, BYTE);
    CombineIs(items, h, 10, BYTE);
    ScaledIs(h, Number(h, 256), 4 - |h|);
    hide Split, Combine, Join, Scaled, Number, ParseInt;
  }

  lemma SplitsBack(items: seq<string>, h: seq<int>)
    requires items != [] && AreInts(items, h, 10)
    ensures Split(Join('.', items), '.') == items
  {
    hide ParseInt;
    forall i | 0 <= i < |items| ensures '.' !in items[i] { assert ParseInt(items[i], 10) == Some(h[i]); DigitsAreNoSeparators(items[i], 10); }
    SplitOfJoin(items, '.');
  }

  lemma DottedTakes(s: string, items: seq<string>, h: seq<int>)
    requires WritesBytes(s, items, h) && |s| != 32
    ensures ParseDotted(s) == Some(Number(FourBytes(h), 256))
  {
    hide Split, Combine, Join, Scaled, Number, ParseInt, AreInts, InRange, Power;
    SplitsBack(items, h);
    CombineIs(items, h, 10, BYTE);
    NumberBound(h, 256);
    SameLength10(items, h);
    ScaledIs(h, Number(h, 256), 4 - |h|);
    NoHexInFront(items, h);
  }

  lemma SameLength10(items: seq<string>, h: seq<int>)
    requires AreInts(items, h, 10)
    ensures |items| == |h|
  {
  }

  lemma NoHexInFront(items: seq<string>, h: seq<int>)
    requires items != [] && AreInts(items, h, 10)
    ensures !("0x" <= Join('.', items))
  {
    var g := items[0];
    assert ParseInt(g, 10) == Some(h[0]);
    assert !IsDigit('x', 10);
    var s := Join('.', items);
    assert s[0] == g[0];
    if |g| > 1 { assert s[1] == g[1]; } else if |s| > 1 { assert s[1] == '.'; }
    hide Value;
  }

  /** The dotted branch accepts exactly these texts, except for the length that other code takes for something else. */
  lemma DottedIff(s: string, v: int)
    ensures ParseDotted(s) == Some(v) <==>
              |s| != 32 && exists items, h :: WritesBytes(s, items, h) && v == Number(FourBytes(h), 256)
  {
    hide WritesBytes, Number;
    if ParseDotted(s) == Some(v) {
      var items, h := DottedNeeds(s, v);
      assert WritesBytes(s, items, h);
    }
    if |s| != 32 && exists items, h :: WritesBytes(s, items, h) && v == Number(FourBytes(h), 256) {
      var items, h :| WritesBytes(s, items, h) && v == Number(FourBytes(h), 256);
      DottedTakes(s, items, h);
    }
  }

  /** The groups with the dotted tail written as two of them. */
  function Undotted(items: seq<string>, v: nat): seq<string> {
    if items != [] && '.' in items[|items| - 1]
    then items[..|items| - 1] + [Digits(v / 65536, 16, 4), Digits(v % 65536, 16, 4)]
    else items
  }

  lemma TwoGroups(v: nat)
    requires v < 0x1_0000_0000
    ensures ParseInt(Digits(v / 65536, 16, 4), 16) == Some(v / 65536) && ParseInt(Digits(v % 65536, 16, 4), 16) == Some(v % 65536)
  {
    FullRoundTrip(v / 65536);
    FullRoundTrip(v % 65536);
  }

  lemma HalvesAreUnique(v: nat, a: int, b: int)
    requires 0 <= a < 65536 && 0 <= b < 65536
    ensures v == a * 65536 + b <==> a == v / 65536 && b == v % 65536
  {
  }

  lemma StandIff(items: seq<string>, v: nat, h: seq<int>)
    requires InRange(h, 65536) && v < 0x1_0000_0000
    requires items != [] && '.' in items[|items| - 1] ==> ParseDotted(items[|items| - 1]) == Some(v)
    ensures Stand(items, h) <==> AreInts(Undotted(items, v), h, 16)
  {
    hide ParseInt, ParseDotted, Digits;
    if items != [] && '.' in items[|items| - 1] && |h| == |items| + 1 {
      var n := |items| - 1;
      var e := Undotted(items, v);
      TwoGroups(v);
      HalvesAreUnique(v, h[n], h[n + 1]);
      assert e[..n] == items[..n] && e[n] == Digits(v / 65536, 16, 4) && e[n + 1] == Digits(v % 65536, 16, 4);
      assert AreInts(e, h, 16) <==> AreInts(items[..n], h[..n], 16) && h[n] == v / 65536 && h[n + 1] == v % 65536 by {
        if AreInts(items[..n], h[..n], 16) && h[n] == v / 65536 && h[n + 1] == v % 65536 {
          forall i | 0 <= i < |e| ensures ParseInt(e[i], 16) == Some(h[i]) { if i < n { assert items[..n][i] == e[i] && h[..n][i] == h[i]; } }
        }
        if AreInts(e, h, 16) {
          forall i | 0 <= i < n ensures ParseInt(items[..n][i], 16) == Some(h[..n][i]) { assert e[i] == items[i]; }
        }
      }
    }
  }

  /** A group with a dot is no number. */
  lemma NoDots(items: seq<string>, h: seq<int>, i: nat)
    requires AreInts(items, h, 16) && i < |items|
    ensures '.' !in items[i]
  {
    DigitsAreNoSeparators(items[i], 16);
  }

  // ----- the whole text -----

  ghost predicate ZeroFrom(h: seq<int>, f: int, k: int) {
    0 <= f <= k <= |h| && forall i :: f <= i < k ==> h[i] == 0
  }

  lemma {:induction false} ZerosAreInts(n: nat, h: seq<int>)
    requires |h| == n
    ensures AreInts(ZeroGroups(n), h, 16) <==> ZeroFrom(h, 0, n)
  {
    ZeroIsGroup();
    hide ParseInt;
    var z := ZeroGroups(n);
    if AreInts(z, h, 16) { forall i | 0 <= i < n ensures h[i] == 0 { assert ParseInt(z[i], 16) == Some(h[i]); } }
  }

  lemma IntsBefore(a: seq<string>, b: seq<string>, h: seq<int>)
    requires |h| == |a| + |b| && AreInts(a + b, h, 16)
    ensures AreInts(a, h[..|a|], 16) && AreInts(b, h[|a|..], 16)
  {
    hide ParseInt;
    forall i | 0 <= i < |a| ensures ParseInt(a[i], 16) == Some(h[..|a|][i]) { assert (a + b)[i] == a[i]; }
    forall i | 0 <= i < |b| ensures ParseInt(b[i], 16) == Some(h[|a|..][i]) { assert (a + b)[|a| + i] == b[i]; }
  }

  lemma IntsTogether(a: seq<string>, b: seq<string>, h: seq<int>)
    requires |h| == |a| + |b| && AreInts(a, h[..|a|], 16) && AreInts(b, h[|a|..], 16)
    ensures AreInts(a + b, h, 16)
  {
    hide ParseInt;
    forall i | 0 <= i < |a + b| ensures ParseInt((a + b)[i], 16) == Some(h[i]) {
      if i < |a| { assert ParseInt(a[i], 16) == Some(h[..|a|][i]); } else { assert ParseInt(b[i - |a|], 16) == Some(h[|a|..][i - |a|]); }
    }
  }

  lemma IntsSplit(a: seq<string>, z: seq<string>, b: seq<string>, h: seq<int>)
    requires |h| == |a| + |z| + |b|
    ensures AreInts(a + z + b, h, 16) <==>
              AreInts(a, h[..|a|], 16) && AreInts(z, h[|a|..|a| + |z|], 16) && AreInts(b, h[|a| + |z|..], 16)
  {
    hide AreInts;
    var n, k := |a|, |a| + |z|;
    assert h[..k][..n] == h[..n] && h[..k][n..] == h[n..k];
    if AreInts(a + z + b, h, 16) {
      IntsBefore(a + z, b, h);
      IntsBefore(a, z, h[..k]);
    }
    if AreInts(a, h[..n], 16) && AreInts(z, h[n..k], 16) && AreInts(b, h[k..], 16) {
      IntsTogether(a, z, h[..k]);
      IntsTogether(a + z, b, h);
    }
  }

  ghost predicate Dotted(items: seq<string>) { items != [] && '.' in items[|items| - 1] }

  lemma SplitUndotted(items: seq<string>, v: nat, f: nat)
    requires f <= |items| && (Dotted(items) ==> f < |items|)
    ensures var e := Undotted(items, v); f <= |e| && e[..f] == items[..f] && e[f..] == Undotted(items[f..], v)
  {
    hide Digits;
  }

  lemma SliceInRange(h: seq<int>, k: nat)
    requires InRange(h, 65536) && k <= |h|
    ensures InRange(h[k..], 65536)
  {
  }

  ghost predicate Leaves(h: seq<int>, f: nat, k: int, items: seq<string>) {
    f < k <= |h| && ZeroFrom(h, f, k) && Stand(items, h[k..])
  }

  lemma LeavesIs(h: seq<int>, f: nat, k: int, items: seq<string>)
    ensures Leaves(h, f, k, items) <==> f < k <= |h| && ZeroFrom(h, f, k) && Stand(items, h[k..])
  {
    hide Stand;
  }

  lemma TailStands(items: seq<string>, v: nat, f: nat, h: seq<int>)
    requires f <= |items| && (Dotted(items) ==> f < |items| && ParseDotted(items[|items| - 1]) == Some(v)) && v < 0x1_0000_0000
    requires InRange(h, 65536)
    ensures f <= |Undotted(items, v)| && (Stand(items[f..], h) <==> AreInts(Undotted(items, v)[f..], h, 16))
  {
    SplitUndotted(items, v, f);
    hide AreInts, Stand, ParseDotted, Undotted, InRange;
    StandIff(items[f..], v, h);
  }

  /** The eight texts are numbers exactly if those before the gap, in the gap and after it are. */
  lemma EightInts(items: seq<string>, f: nat, v: nat, h: seq<int>)
    requires f <= |items| && (Dotted(items) ==> f < |items| && ParseDotted(items[|items| - 1]) == Some(v)) && v < 0x1_0000_0000
    requires |h| == 8 && InRange(h, 65536)
    ensures var e := Undotted(items, v); var k := f + 8 - |e|;
            && f <= |e|
            && (|e| < 8 ==> k <= 8 && (AreInts(e[..f] + ZeroGroups(8 - |e|) + e[f..], h, 16)
                              <==> AreInts(items[..f], h[..f], 16) && Leaves(h, f, k, items[f..])))
  {
    var e := Undotted(items, v);
    SplitUndotted(items, v, f);
    hide AreInts, Stand, ParseDotted, Undotted, InRange, ZeroGroups, Leaves, Dotted, ZeroFrom;
    if |e| < 8 {
      var k := f + 8 - |e|;
      IntsSplit(e[..f], ZeroGroups(8 - |e|), e[f..], h);
      ZerosAreInts(8 - |e|, h[f..k]);
      SliceInRange(h, k);
      TailStands(items, v, f, h[k..]);
      SliceZeros(h, f, k);
      LeavesIs(h, f, k, items[f..]);
    }
  }

  /** The gap stands for exactly as many zero groups as are missing. */
  lemma GapIff(items: seq<string>, f: nat, v: nat, h: seq<int>)
    requires f <= |items| && (Dotted(items) ==> f < |items| && ParseDotted(items[|items| - 1]) == Some(v)) && v < 0x1_0000_0000
    requires |h| == 8 && InRange(h, 65536)
    ensures var e := Undotted(items, v);
            && f <= |e|
            && ((f < 8 && AreInts(items[..f], h[..f], 16) && exists k :: Leaves(h, f, k, items[f..]))
                <==> (|e| < 8 && AreInts(e[..f] + ZeroGroups(8 - |e|) + e[f..], h, 16)))
  {
    var e := Undotted(items, v);
    SplitUndotted(items, v, f);
    EightInts(items, f, v, h);
    forall k | Leaves(h, f, k, items[f..]) ensures |e| < 8 && k == f + 8 - |e| { GapLength(items, f, v, h, k); }
    hide AreInts, Stand, ParseDotted, Undotted, InRange, Leaves;
  }

  lemma GapLength(items: seq<string>, f: nat, v: nat, h: seq<int>, k: int)
    requires f <= |items| && (Dotted(items) ==> f < |items| && ParseDotted(items[|items| - 1]) == Some(v)) && v < 0x1_0000_0000
    requires |h| == 8 && InRange(h, 65536) && Leaves(h, f, k, items[f..])
    ensures |Undotted(items, v)| < 8 && k == f + 8 - |Undotted(items, v)|
  {
    SplitUndotted(items, v, f);
    hide AreInts, Stand, ParseDotted, Undotted, InRange;
    SliceInRange(h, k);
    StandIff(items[f..], v, h[k..]);
    SameLength(Undotted(items, v)[f..], h[k..]);
  }

  lemma SliceZeros(h: seq<int>, f: nat, k: nat)
    requires f <= k <= |h|
    ensures ZeroFrom(h, f, k) <==> ZeroFrom(h[f..k], 0, k - f)
  {
    if forall i :: 0 <= i < k - f ==> h[f..k][i] == 0 {
      forall i | f <= i < k ensures h[i] == 0 { assert h[f..k][i - f] == h[i]; }
    }
  }

  lemma SameLength(items: seq<string>, h: seq<int>)
    requires AreInts(items, h, 16)
    ensures |items| == |h|
  {
  }

  lemma MeansGap(sc: Scanned, h: seq<int>)
    requires sc.fill.Some? && sc.fill.value <= |sc.items| && |h| == 8 && InRange(h, 65536)
    ensures var f := sc.fill.value;
            Means(sc, h) <==> f < 8 && AreInts(sc.items[..f], h[..f], 16) && exists k :: Leaves(h, f, k, sc.items[f..])
  {
    hide AreInts, Stand;
    var f := sc.fill.value;
    if Means(sc, h) {
      var k :| f < k <= 8 && (forall i :: f <= i < k ==> h[i] == 0) && Stand(sc.items[f..], h[k..]);
      assert Leaves(h, f, k, sc.items[f..]);
    }
    if k :| f < 8 && Leaves(h, f, k, sc.items[f..]) {
      assert f < k <= 8 && Stand(sc.items[f..], h[k..]);
    }
  }

  /** Nothing a dotted text that is no address, or one before the gap, can mean. */
  lemma NoMeaning(sc: Scanned, h: seq<int>)
    requires sc.fill.Some? ==> sc.fill.value <= |sc.items|
    requires Dotted(sc.items)
    requires ParseDotted(sc.items[|sc.items| - 1]) == None || sc.fill == Some(|sc.items|)
    ensures !Means(sc, h)
  {
    hide ParseInt, ParseDotted;
    var n := |sc.items|;
    if sc.fill == Some(n) {
      assert sc.items[..n] == sc.items;
      if Means(sc, h) { NoDots(sc.items[..n], h[..n], n - 1); }
    } else if sc.fill.Some? {
      assert sc.items[sc.fill.value..][n - 1 - sc.fill.value] == sc.items[n - 1];
    }
  }

  /** The items that are combined in the end, if there are eight of them. */
  lemma FinishOf(sc: Scanned, v: nat)
    requires sc.fill.Some? ==> sc.fill.value <= |sc.items|
    requires Dotted(sc.items) ==> ParseDotted(sc.items[|sc.items| - 1]) == Some(v) && (sc.fill.Some? ==> sc.fill.value < |sc.items|)
    ensures var e := Undotted(sc.items, v);
            Finish(sc) == match sc.fill
                          case None => if |e| != 8 then None else Combine(e, 16, HEXTET)
                          case Some(f) => if f > |e| || |e| >= 8 then None else Combine(e[..f] + ZeroGroups(8 - |e|) + e[f..], 16, HEXTET)
  {
    hide ParseDotted, Combine, Digits;
  }

  lemma FinishIff(sc: Scanned, value: int)
    requires sc.fill.Some? ==> sc.fill.value <= |sc.items|
    ensures Finish(sc) == Some(value) <==> exists h :: Means(sc, h) && value == Number(h, 65536)
  {
    var n := |sc.items|;
    var bad := Dotted(sc.items) && (ParseDotted(sc.items[n - 1]) == None || sc.fill == Some(n));
    if bad {
      assert Finish(sc) == None by { NoFinish(sc); }
      hide Means;
      forall h ensures !Means(sc, h) { NoMeaning(sc, h); }
    } else {
      var v: nat := if Dotted(sc.items) then ParseDotted(sc.items[n - 1]).value else 0;
      if Dotted(sc.items) { DottedRange(sc.items[n - 1]); }
      if sc.fill == None { FinishWhole(sc, v, value); } else { FinishGap(sc, v, value); }
    }
  }

  lemma FinishWhole(sc: Scanned, v: nat, value: int)
    requires sc.fill == None && v < 0x1_0000_0000
    requires Dotted(sc.items) ==> ParseDotted(sc.items[|sc.items| - 1]) == Some(v)
    ensures Finish(sc) == Some(value) <==> exists h :: Means(sc, h) && value == Number(h, 65536)
  {
    FinishOf(sc, v);
    hide Finish, Combine, Number, Undotted, ParseDotted, AreInts, InRange;
    var e := Undotted(sc.items, v);
    CombineIff(e, 16, HEXTET, value);
    forall h | |h| == 8 && InRange(h, 65536) ensures Means(sc, h) <==> AreInts(e, h, 16) { StandIff(sc.items, v, h); }
    hide Means, Stand;
    OneOrOther(sc, e, value);
  }

  lemma FinishGap(sc: Scanned, v: nat, value: int)
    requires sc.fill.Some? && sc.fill.value <= |sc.items| && v < 0x1_0000_0000
    requires Dotted(sc.items) ==> ParseDotted(sc.items[|sc.items| - 1]) == Some(v) && sc.fill.value < |sc.items|
    ensures Finish(sc) == Some(value) <==> exists h :: Means(sc, h) && value == Number(h, 65536)
  {
    hide Finish, Combine, Number, Undotted, ParseDotted, AreInts, InRange, Means, Stand, Leaves, ZeroGroups, Dotted;
    FinishOf(sc, v);
    var f, e := sc.fill.value, Undotted(sc.items, v);
    SplitUndotted(sc.items, v, f);
    if |e| < 8 {
      var all := e[..f] + ZeroGroups(8 - |e|) + e[f..];
      forall h | |h| == 8 && InRange(h, 65536) ensures Means(sc, h) <==> AreInts(all, h, 16) { MeansAll(sc, v, h); }
      CombineIff(all, 16, HEXTET, value);
      OneOrOther(sc, all, value);
      EightItems(e, f);
    } else {
      forall h ensures !Means(sc, h) {
        if Means(sc, h) {
          MeansEight(sc, h);
          MeansAll(sc, v, h);
        }
      }
    }
  }

  lemma EightItems(e: seq<string>, f: nat)
    requires f <= |e| < 8
    ensures |e[..f] + ZeroGroups(8 - |e|) + e[f..]| == 8
  {
  }

  lemma MeansAll(sc: Scanned, v: nat, h: seq<int>)
    requires sc.fill.Some? && sc.fill.value <= |sc.items| && v < 0x1_0000_0000
    requires Dotted(sc.items) ==> ParseDotted(sc.items[|sc.items| - 1]) == Some(v) && sc.fill.value < |sc.items|
    requires |h| == 8 && InRange(h, 65536)
    ensures var e, f := Undotted(sc.items, v), sc.fill.value;
            f <= |e| && (Means(sc, h) <==> |e| < 8 && AreInts(e[..f] + ZeroGroups(8 - |e|) + e[f..], h, 16))
  {
    hide Undotted, ParseDotted, AreInts, InRange, Means, Stand, Leaves, ZeroGroups;
    MeansGap(sc, h);
    GapIff(sc.items, sc.fill.value, v, h);
  }

  lemma NoFinish(sc: Scanned)
    requires Dotted(sc.items) && (ParseDotted(sc.items[|sc.items| - 1]) == None || sc.fill == Some(|sc.items|))
    ensures Finish(sc) == None
  {
    hide ParseDotted;
  }

  lemma MeansEight(sc: Scanned, h: seq<int>)
    requires (sc.fill.Some? ==> sc.fill.value <= |sc.items|) && Means(sc, h)
    ensures |h| == 8 && InRange(h, 65536)
  {
  }

  lemma OneOrOther(sc: Scanned, all: seq<string>, value: int)
    requires sc.fill.Some? ==> sc.fill.value <= |sc.items|
    requires forall h :: |h| == 8 && InRange(h, 65536) ==> (Means(sc, h) <==> AreInts(all, h, 16))
    ensures (exists h :: Means(sc, h) && value == Number(h, 65536))
              <==> (|all| == 8 && exists h :: AreInts(all, h, 16) && InRange(h, 65536) && value == Number(h, 65536))
  {
    hide Means, AreInts, InRange, Number;
    if h :| Means(sc, h) && value == Number(h, 65536) {
      MeansEight(sc, h);
      SameLength(all, h);
    }
    if |all| == 8 && exists h :: AreInts(all, h, 16) && InRange(h, 65536) && value == Number(h, 65536) {
      var h :| AreInts(all, h, 16) && InRange(h, 65536) && value == Number(h, 65536);
      SameLength(all, h);
      assert Means(sc, h);
    }
  }

  /** The parser accepts exactly the texts of eight groups: hexadecimal numbers below 65536 between colons, of which
      one `::` may stand for one or more zeros, and the last two may be written as a dotted address; and it returns
      the number these groups make up. */
  lemma ParseIff(s: string, value: int)
    ensures Parse(s) == Some(value) <==> exists sc, h :: Writes(s, sc) && Means(sc, h) && value == Number(h, 65536)
  {
    hide Scan, Finish, Means, Number;
    if Parse(s) == Some(value) {
      var sc := Scan(s, [], None).value;
      ScanIff(s, sc);
      FinishIff(sc, value);
      var h :| Means(sc, h) && value == Number(h, 65536);
      assert Writes(s, sc);
    }
    if sc, h :| Writes(s, sc) && Means(sc, h) && value == Number(h, 65536) {
      ScanIff(s, sc);
      FinishIff(sc, value);
    }
  }
}
