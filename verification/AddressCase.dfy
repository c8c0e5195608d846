/** The parser does not tell upper-case digits from lower-case ones. */
module AddressCase {
  import opened Options
  import opened Http
  import opened AddressText

  function Lower(c: char): char { if 'A' <= c <= 'Z' then (c as int + 32) as char else c }

  function Lowered(s: string): (t: string)
    ensures |t| == |s| && forall i :: 0 <= i < |s| ==> t[i] == Lower(s[i])
  {
    seq(|s|, i requires 0 <= i < |s| => Lower(s[i]))
  }

  function AllLowered(items: seq<string>): (t: seq<string>)
    ensures |t| == |items| && forall i :: 0 <= i < |items| ==> t[i] == Lowered(items[i])
  {
    seq(|items|, i requires 0 <= i < |items| => Lowered(items[i]))
  }

  lemma SameDigit(c: char)
    ensures DigitValue(Lower(c)) == DigitValue(c)
  {
  }

  lemma {:induction false} SameValue(s: string, base: nat)
    ensures Value(Lowered(s), base) == Value(s, base)
  {
    if s != "" {
      SameDigit(s[|s| - 1]);
      assert Lowered(s)[..|s| - 1] == Lowered(s[..|s| - 1]);
      SameValue(s[..|s| - 1], base);
    }
  }

  lemma SameInt(s: string, base: nat)
    ensures ParseInt(Lowered(s), base) == ParseInt(s, base)
  {
    hide DigitValue, Lower;
    forall i | 0 <= i < |s| ensures IsDigit(Lowered(s)[i], base) <==> IsDigit(s[i], base) { SameDigit(s[i]); }
    SameValue(s, base);
    hide Value, IsDigit;
    if forall i :: 0 <= i < |s| ==> IsDigit(s[i], base) {
      assert forall i :: 0 <= i < |s| ==> IsDigit(Lowered(s)[i], base);
    }
    assert |Lowered(s)| == |s|;
  }

  /** The separators are no letters. */
  lemma {:induction false} SameFind(s: string, c: char)
    requires c == ':' || c == '.'
    ensures Find(Lowered(s), c) == Find(s, c)
  {
    if s != "" {
      assert Lowered(s)[0] == c <==> s[0] == c;
      assert Lowered(s)[1..] == Lowered(s[1..]);
      SameFind(s[1..], c);
    }
  }

  lemma {:induction false} SameSplit(s: string, c: char)
    requires c == ':' || c == '.'
    ensures Split(Lowered(s), c) == AllLowered(Split(s, c))
    decreases |s|
  {
    hide Find, Lowered, AllLowered, Split;
    SameFind(s, c);
    SplitStep(s, c);
    SplitStep(Lowered(s), c);
    var k := Find(s, c);
    if k != -1 {
      LoweredSlices(s, k);
      SameSplit(s[k + 1..], c);
      AllLoweredFront(s[..k], Split(s[k + 1..], c));
    } else {
      AllLoweredOne(s);
    }
  }

  lemma SplitStep(s: string, c: char)
    ensures var k := Find(s, c); Split(s, c) == if k == -1 then [s] else [s[..k]] + Split(s[k + 1..], c)
  {
    hide Find;
  }

  lemma AllLoweredOne(s: string)
    ensures AllLowered([s]) == [Lowered(s)]
  {
    hide Lowered;
  }

  lemma LoweredSlices(s: string, k: nat)
    requires k < |s|
    ensures Lowered(s)[..k] == Lowered(s[..k]) && Lowered(s)[k + 1..] == Lowered(s[k + 1..])
  {
    hide Lower;
  }

  lemma AllLoweredFront(s: string, items: seq<string>)
    ensures AllLowered([s] + items) == [Lowered(s)] + AllLowered(items)
  {
    hide Lowered;
  }

  lemma {:induction false} SameCombine(items: seq<string>, base: nat, unit: nat)
    ensures Combine(AllLowered(items), base, unit) == Combine(items, base, unit)
    decreases |items|
  {
    hide ParseInt;
    if items != [] {
      var n := |items| - 1;
      assert AllLowered(items)[..n] == AllLowered(items[..n]);
      SameCombine(items[..n], base, unit);
      SameInt(items[n], base);
    }
  }

  /** A text with `0x` or `0X` in front is no dotted address either way. */
  lemma SameDotted(s: string)
    ensures ParseDotted(Lowered(s)) == ParseDotted(s)
  {
    hide Split, Combine, Scaled, Lowered, AllLowered;
    SameSplit(s, '.');
    SameCombine(Split(s, '.'), 10, BYTE);
    if "0x" <= Lowered(s) { NoHex(s); }
    HexPrefix(s);
    assert |Lowered(s)| == |s| && |AllLowered(Split(s, '.'))| == |Split(s, '.')|;
  }

  lemma HexPrefix(s: string)
    ensures "0x" <= s ==> "0x" <= Lowered(s)
  {
    if "0x" <= s {
      assert s[0] == '0' && s[1] == 'x';
      assert Lowered(s)[0] == '0' && Lowered(s)[1] == 'x';
    }
  }

  lemma FirstOfSplit(s: string, c: char)
    ensures |Split(s, c)| > 0 && Split(s, c)[0] == if Find(s, c) == -1 then s else s[..Find(s, c)]
  {
    hide Find;
  }

  lemma NotDecimal(s: string)
    requires |s| > 1 && (s[1] == 'x' || s[1] == 'X')
    ensures ParseInt(s, 10) == None
  {
    assert !IsDigit(s[1], 10);
    hide Value;
  }

  lemma NoHex(s: string)
    requires "0x" <= Lowered(s)
    ensures Combine(Split(s, '.'), 10, BYTE) == None
  {
    hide Split, ParseInt, Combine, Find;
    var k := Find(s, '.');
    assert Lowered(s)[0] == '0' && Lowered(s)[1] == 'x';
    assert s[0] == '0' && (s[1] == 'x' || s[1] == 'X');
    FirstOfSplit(s, '.');
    var first := Split(s, '.')[0];
    assert |first| > 1 && first[1] == s[1];
    NotDecimal(first);
    FirstFails(Split(s, '.'), 10, BYTE);
  }

  lemma {:induction false} FirstFails(items: seq<string>, base: nat, unit: nat)
    requires items != [] && ParseInt(items[0], base) == None
    ensures Combine(items, base, unit) == None
    decreases |items|
  {
    hide ParseInt;
    if |items| > 1 { FirstFails(items[..|items| - 1], base, unit); }
  }

  function LoweredScan(r: Option<Scanned>): Option<Scanned> {
    match r
    case None => None
    case Some(sc) => Some(sc.(items := AllLowered(sc.items)))
  }

  lemma AllLoweredMore(items: seq<string>, s: string)
    ensures AllLowered(items + [s]) == AllLowered(items) + [Lowered(s)]
  {
  }

  lemma SameColons(text: string)
    ensures "::" <= Lowered(text) <==> "::" <= text
  {
    if |text| >= 2 {
      assert Lowered(text)[..2] == "::" <==> text[..2] == "::" by {
        assert Lowered(text)[0] == ':' <==> text[0] == ':';
        assert Lowered(text)[1] == ':' <==> text[1] == ':';
      }
    }
  }

  lemma {:induction false} SameScan(text: string, items: seq<string>, fill: Option<nat>)
    ensures Scan(Lowered(text), AllLowered(items), fill) == LoweredScan(Scan(text, items, fill))
    decreases |text|
  {
    hide Find;
    SameColons(text);
    if text == "" {
    } else if "::" <= text {
      assert Lowered(text)[2..] == Lowered(text[2..]);
      if fill == None { SameScan(text[2..], items, Some(|items|)); }
    } else {
      SameFind(text, ':');
      var pos := Find(text, ':');
      if pos == -1 {
        AllLoweredMore(items, text);
      } else if pos > 0 {
        assert Lowered(text)[pos..] == Lowered(text[pos..]) && Lowered(text)[pos + 1..] == Lowered(text[pos + 1..]);
        assert Lowered(text)[..pos] == Lowered(text[..pos]);
        SameColons(text[pos..]);
        AllLoweredMore(items, text[..pos]);
        var rest := if "::" <= text[pos..] then text[pos..] else text[pos + 1..];
        if rest != "" { SameScan(rest, items + [text[..pos]], fill); }
      }
    }
  }

  lemma SameDot(s: string)
    ensures '.' in Lowered(s) <==> '.' in s
  {
    SameFind(s, '.');
  }

  /** Printed digits are lower-case already. */
  lemma {:induction false} DigitsAreLower(n: nat, base: nat, width: nat)
    requires 2 <= base <= 16
    ensures Lowered(Digits(n, base, width)) == Digits(n, base, width)
    decreases width
  {
    hide DigitChar, Lower;
    if width > 0 {
      DigitsAreLower(n / base, base, width - 1);
      DigitIsLower(n % base);
      LoweredMore(Digits(n / base, base, width - 1), DigitChar(n % base));
    }
  }

  lemma DigitIsLower(d: nat)
    requires d < 16
    ensures Lower(DigitChar(d)) == DigitChar(d)
  {
  }

  lemma LoweredMore(s: string, c: char)
    ensures Lowered(s + [c]) == Lowered(s) + [Lower(c)]
  {
    hide Lower;
  }

  lemma SameWithoutDotted(sc: Scanned)
    ensures WithoutDotted(sc.(items := AllLowered(sc.items))) == LoweredScan(WithoutDotted(sc))
  {
    var n := |sc.items|;
    if n > 0 {
      SameDot(sc.items[n - 1]);
      SameDotted(sc.items[n - 1]);
      hide ParseDotted, Digits, Lowered;
      var v := ParseDotted(sc.items[n - 1]);
      if v.Some? {
        var a, b := Digits(v.value / 65536, 16, 4), Digits(v.value % 65536, 16, 4);
        DigitsAreLower(v.value / 65536, 16, 4);
        DigitsAreLower(v.value % 65536, 16, 4);
        assert AllLowered(sc.items[..n - 1] + [a, b]) == AllLowered(sc.items)[..n - 1] + [a, b];
      }
    }
  }

  lemma SameFilled(sc: Scanned)
    ensures Filled(sc.(items := AllLowered(sc.items)))
              == match Filled(sc) case None => None case Some(items) => Some(AllLowered(items))
  {
    hide Lowered;
    if sc.fill.Some? && |sc.items| < 8 {
      var k, z := sc.fill.value, ZeroGroups(8 - |sc.items|);
      assert Lowered("0") == "0" by { ZeroIsLower(); }
      assert AllLowered(z) == z;
      assert AllLowered(UpTo(sc.items, k)) == UpTo(AllLowered(sc.items), k);
      assert AllLowered(From(sc.items, k)) == From(AllLowered(sc.items), k);
      assert AllLowered(UpTo(sc.items, k) + z + From(sc.items, k))
               == UpTo(AllLowered(sc.items), k) + z + From(AllLowered(sc.items), k);
    }
  }

  lemma ZeroIsLower()
    ensures Lowered("0") == "0"
  {
  }

  lemma SameFinish(sc: Scanned)
    ensures Finish(sc.(items := AllLowered(sc.items))) == Finish(sc)
  {
    hide WithoutDotted, Filled, Combine;
    SameWithoutDotted(sc);
    var plain := WithoutDotted(sc);
    if plain.Some? {
      SameFilled(plain.value);
      var items := Filled(plain.value);
      if items.Some? { SameCombine(items.value, 16, HEXTET); }
    }
  }

  /** Every text parses as its lower-case form does, errors included. */
  lemma CaseDoesNotMatter(s: string)
    ensures Parse(Lowered(s)) == Parse(s)
  {
    hide Scan, Finish, Lowered;
    SameScan(s, [], None);
    assert AllLowered([]) == [];
    var sc := Scan(s, [], None);
    if sc.Some? { SameFinish(sc.value); }
  }
}
