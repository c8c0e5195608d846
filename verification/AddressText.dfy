/** Printing and parsing IPv6 addresses as the build tools do (tools/IPy.py). A raised `ValueError` is `None`. */
module AddressText {
  import opened Options
  import opened Http

  /** The parts of an address: eight of 16 bits, or four bytes. */
  const HEXTET := 65536
  const BYTE := 256

  ghost predicate InRange(h: seq<int>, unit: nat) { forall i :: 0 <= i < |h| ==> 0 <= h[i] < unit }

  /** The last `n` parts of a number, most significant first. */
  function Parts(ip: nat, unit: nat, n: nat): (h: seq<int>)
    requires unit > 0
    ensures |h| == n && InRange(h, unit)
    decreases n
  {
    if n == 0 then [] else Parts(ip / unit, unit, n - 1) + [ip % unit]
  }

  function Number(h: seq<int>, unit: nat): int
    decreases |h|
  {
    if h == [] then 0 else Number(h[..|h| - 1], unit) * unit + h[|h| - 1]
  }

  lemma NumberOfMore(h: seq<int>, unit: nat, x: int)
    ensures Number(h + [x], unit) == Number(h, unit) * unit + x
  {
    assert (h + [x])[..|h|] == h;
  }

  lemma {:induction false} NumberOfParts(ip: nat, unit: nat, n: nat)
    requires unit > 0 && ip < Power(unit, n)
    ensures Number(Parts(ip, unit, n), unit) == ip
    decreases n
  {
    if n > 0 {
      DivisionBound(ip, unit, Power(unit, n - 1));
      NumberOfParts(ip / unit, unit, n - 1);
      NumberOfMore(Parts(ip / unit, unit, n - 1), unit, ip % unit);
      QuotientRest(ip, unit);
    }
  }

  const TWO_32 := 0x1_0000_0000
  const TWO_128 := 0x1_0000_0000_0000_0000_0000_0000_0000_0000

  lemma AddressRange()
    ensures Power(HEXTET, 8) == TWO_128 && Power(BYTE, 4) == TWO_32
  {
    assert Power(65536, 2) == 0x1_0000_0000;
    assert Power(65536, 4) == 0x1_0000_0000_0000_0000;
    assert Power(65536, 6) == 0x1_0000_0000_0000_0000_0000_0000;
    assert Power(256, 2) == 0x1_0000;
  }

  // ----- numbers as text -----

  /** `hex(n)[2:]` and `str(n)`: no leading zeros. */
  function Shortest(n: nat, base: nat): (s: string)
    requires 2 <= base <= 16
    ensures |s| > 0
  {
    if n < base then [DigitChar(n)] else Shortest(n / base, base) + [DigitChar(n % base)]
  }

  /** `int(s, base)` on texts of digits. */
  function ParseInt(s: string, base: nat): Option<int> {
    if s != "" && forall i :: 0 <= i < |s| ==> IsDigit(s[i], base) then Some(Value(s, base)) else None
  }

  lemma ParseMore(s: string, d: nat, base: nat)
    requires d < base <= 16 && ParseInt(s, base).Some?
    ensures ParseInt(s + [DigitChar(d)], base) == Some(ParseInt(s, base).value * base + d)
  {
    DigitRoundTrip(d);
    hide DigitChar, DigitValue;
    ValueOfLast(s, DigitChar(d), base);
    hide Value;
  }

  lemma ParseDigit(d: nat, base: nat)
    requires d < base <= 16
    ensures ParseInt([DigitChar(d)], base) == Some(d)
  {
    DigitRoundTrip(d);
    ValueOfLast("", DigitChar(d), base);
    assert "" + [DigitChar(d)] == [DigitChar(d)];
  }

  lemma {:induction false} ShortestRoundTrip(n: nat, base: nat)
    requires 2 <= base <= 16
    ensures ParseInt(Shortest(n, base), base) == Some(n)
  {
    hide ParseInt, DigitChar;
    if n < base {
      ParseDigit(n, base);
    } else {
      ShortestRoundTrip(n / base, base);
      ParseMore(Shortest(n / base, base), n % base, base);
      QuotientRest(n, base);
    }
  }

  lemma FullRoundTrip(n: nat)
    requires n < 65536
    ensures |Digits(n, 16, 4)| == 4 && ParseInt(Digits(n, 16, 4), 16) == Some(n)
  {
    assert Power(16, 2) == 256;
    assert Power(16, 4) == 65536;
    DigitsRoundTrip(n, 16, 4);
  }

  /** A group as printed or parsed: digits only, so neither separator occurs in it. */
  ghost predicate IsGroup(s: string, n: int, base: nat) {
    ParseInt(s, base) == Some(n) && ':' !in s && '.' !in s
  }

  lemma DigitsAreNoSeparators(s: string, base: nat)
    requires base <= 16 && ParseInt(s, base) != None
    ensures ':' !in s && '.' !in s
  {
  }

  // ----- joining and splitting -----

  /** `':'.join(items)` and `'.'.join(items)`. */
  function Join(sep: char, items: seq<string>): string
    decreases |items|
  {
    if items == [] then "" else if |items| == 1 then items[0] else items[0] + [sep] + Join(sep, items[1..])
  }

  /** `find`: the first place of the character, or -1. */
  function Find(s: string, c: char): (k: int)
    ensures -1 <= k < |s| && (k == -1 ==> c !in s) && (k >= 0 ==> s[k] == c && c !in s[..k])
  {
    if s == "" then -1 else if s[0] == c then 0 else
      var k := Find(s[1..], c);
      assert s == [s[0]] + s[1..];
      if k == -1 then -1 else
        assert s[..k + 1] == [s[0]] + s[1..][..k];
        k + 1
  }

  /** `split`. */
  function Split(s: string, c: char): seq<string>
    decreases |s|
  {
    var k := Find(s, c);
    if k == -1 then [s] else [s[..k]] + Split(s[k + 1..], c)
  }

  lemma {:induction false} FindAfter(a: string, c: char, b: string)
    requires c !in a
    ensures Find(a + [c] + b, c) == |a|
    decreases |a|
  {
    if a == "" {
      assert (a + [c] + b)[0] == c;
    } else {
      assert (a + [c] + b)[1..] == a[1..] + [c] + b;
      assert a[0] in a;
      FindAfter(a[1..], c, b);
    }
  }

  lemma {:induction false} SplitOfJoin(items: seq<string>, c: char)
    requires items != [] && forall i :: 0 <= i < |items| ==> c !in items[i]
    ensures Split(Join(c, items), c) == items
    decreases |items|
  {
    if |items| > 1 {
      FindAfter(items[0], c, Join(c, items[1..]));
      var s := Join(c, items);
      assert s[..|items[0]|] == items[0] && s[|items[0]| + 1..] == Join(c, items[1..]);
      SplitOfJoin(items[1..], c);
    } else {
      assert items == [items[0]];
    }
  }

  /** The parts as they are printed. */
  function Groups(h: seq<int>, full: bool, base: nat): (g: seq<string>)
    requires 2 <= base <= 16 && forall i :: 0 <= i < |h| ==> 0 <= h[i]
    ensures |g| == |h|
    ensures forall i :: 0 <= i < |h| ==> g[i] == if full then Digits(h[i], base, 4) else Shortest(h[i], base)
  {
    seq(|h|, i requires 0 <= i < |h| => if full then Digits(h[i], base, 4) else Shortest(h[i], base))
  }

  ghost predicate AreGroups(g: seq<string>, h: seq<int>, base: nat) {
    |g| == |h| && forall i :: 0 <= i < |g| ==> IsGroup(g[i], h[i], base)
  }

  lemma PrintedGroups(h: seq<int>, full: bool, base: nat)
    requires 2 <= base <= 16 && InRange(h, HEXTET) && (full ==> base == 16)
    ensures AreGroups(Groups(h, full, base), h, base)
  {
    forall i | 0 <= i < |h|
      ensures IsGroup(Groups(h, full, base)[i], h[i], base)
    {
      if full { FullRoundTrip(h[i]); }
      ShortestRoundTrip(h[i], base);
      DigitsAreNoSeparators(Groups(h, full, base)[i], base);
    }
  }

  // ----- the parser -----

  datatype Scanned = Scanned(items: seq<string>, fill: Option<nat>)

  /** The splitting loop: the groups, and where `::` stood among them. */
  function Scan(text: string, items: seq<string>, fill: Option<nat>): Option<Scanned>
    decreases |text|
  {
    if text == "" then Some(Scanned(items, fill))
    else if "::" <= text then
      if fill.Some? then None else Scan(text[2..], items, Some(|items|))
    else
      var pos := Find(text, ':');
      if pos == 0 then None
      else if pos == -1 then Some(Scanned(items + [text], fill))
      else
        var rest := if "::" <= text[pos..] then text[pos..] else text[pos + 1..];
        if rest == "" then None else Scan(rest, items + [text[..pos]], fill)
  }

  /** `value = (value << 16) + item` over hexadecimal texts, and the same with bytes over decimal ones, each with its
      range check. */
  function Combine(items: seq<string>, base: nat, unit: nat): (r: Option<int>)
    ensures r.Some? ==> r.value >= 0
    decreases |items|
  {
    if items == [] then Some(0)
    else
      match Combine(items[..|items| - 1], base, unit)
      case None => None
      case Some(value) =>
        match ParseInt(items[|items| - 1], base)
        case None => None
        case Some(item) => if 0 <= item < unit then Some(value * unit + item) else None
  }

  /** The dotted branch of `parseAddress`, which the caller reaches only with a '.' and no ':' in the text. A text
      of 32 characters or with `0x` in front goes to other branches, where the '.' is an error. */
  function ParseDotted(s: string): (r: Option<int>)
    ensures r.Some? ==> r.value >= 0
  {
    if "0x" <= s || |s| == 32 then None
    else
      var bytes := Split(s, '.');
      if |bytes| > 4 then None
      else
        match Combine(bytes, 10, BYTE)
        case None => None
        case Some(v) => Some(Scaled(v, 4 - |bytes|))
  }

  /** A number followed by k zero bytes. */
  function Scaled(v: nat, k: nat): nat
    decreases k
  {
    if k == 0 then v else Scaled(v * BYTE, k - 1)
  }

  /** A dotted tail becomes two groups. */
  function WithoutDotted(sc: Scanned): Option<Scanned> {
    var n := |sc.items|;
    if n == 0 || '.' !in sc.items[n - 1] then Some(sc)
    else if sc.fill.Some? && sc.fill.value > n - 1 then None
    else
      match ParseDotted(sc.items[n - 1])
      case None => None
      case Some(v) =>
        Some(sc.(items := sc.items[..n - 1] + [Digits(v / 65536, 16, 4), Digits(v % 65536, 16, 4)]))
  }

  /** Python's `s[:n]` and `s[n:]`. */
  function UpTo(s: seq<string>, n: nat): seq<string> { if n <= |s| then s[..n] else s }

  function From(s: seq<string>, n: nat): seq<string> { if n <= |s| then s[n..] else [] }

  /** `::` stands for as many zero groups as are missing, at least one. */
  function Filled(sc: Scanned): Option<seq<string>> {
    if sc.fill == None then Some(sc.items)
    else if 8 - |sc.items| <= 0 then None
    else Some(UpTo(sc.items, sc.fill.value) + ZeroGroups(8 - |sc.items|) + From(sc.items, sc.fill.value))
  }

  function ZeroGroups(n: nat): (z: seq<string>)
    ensures |z| == n && forall i :: 0 <= i < n ==> z[i] == "0"
  {
    seq(n, _ => "0")
  }

  function Finish(sc: Scanned): Option<int> {
    match WithoutDotted(sc)
    case None => None
    case Some(plain) =>
      match Filled(plain)
      case None => None
      case Some(items) => if |items| != 8 then None else Combine(items, 16, HEXTET)
  }

  function Parse(ipstr: string): Option<int> {
    match Scan(ipstr, [], None)
    case None => None
    case Some(sc) => Finish(sc)
  }

  // ----- what the parser makes of printed groups -----

  lemma {:induction false} CombineGroups(g: seq<string>, h: seq<int>, base: nat, unit: nat)
    requires AreGroups(g, h, base) && InRange(h, unit)
    ensures Combine(g, base, unit) == Some(Number(h, unit))
    decreases |g|
  {
    if g != [] {
      CombineGroups(g[..|g| - 1], h[..|h| - 1], base, unit);
      assert IsGroup(g[|g| - 1], h[|h| - 1], base);
    }
  }

  ghost predicate Plain(s: string) { s != "" && ':' !in s }

  /** A last group. */
  lemma ScanLast(s: string, items: seq<string>, fill: Option<nat>)
    requires Plain(s)
    ensures Scan(s, items, fill) == Some(Scanned(items + [s], fill))
  {
    assert s[0] in s;
    assert Find(s, ':') == -1;
  }

  /** One group with a colon after it. */
  lemma ScanOne(s: string, rest: string, items: seq<string>, fill: Option<nat>)
    requires Plain(s) && ":" <= rest && |rest| > 1
    ensures Scan(s + rest, items, fill) == Scan(if "::" <= rest then rest else rest[1..], items + [s], fill)
  {
    var text := s + rest;
    assert text[0] == s[0] && s[0] in s;
    assert rest == [':'] + rest[1..];
    assert text == s + [':'] + rest[1..];
    FindAfter(s, ':', rest[1..]);
    assert text[..|s|] == s && text[|s|..] == rest && text[|s| + 1..] == rest[1..];
    hide Find;
  }

  lemma ScanNext(s: string, rest: string, items: seq<string>, fill: Option<nat>)
    requires Plain(s) && rest != "" && rest[0] != ':'
    ensures Scan(s + ":" + rest, items, fill) == Scan(rest, items + [s], fill)
  {
    assert s + ":" + rest == s + (":" + rest);
    ScanOne(s, ":" + rest, items, fill);
    assert (":" + rest)[1..] == rest;
    hide Scan;
  }

  lemma ScanColons(rest: string, items: seq<string>)
    ensures Scan("::" + rest, items, None) == Scan(rest, items, Some(|items|))
  {
    assert ("::" + rest)[2..] == rest;
  }

  lemma JoinStarts(g: seq<string>)
    requires g != [] && Plain(g[0])
    ensures Join(':', g) != "" && Join(':', g)[0] != ':'
  {
    assert g[0][0] in g[0];
  }

  lemma AssocGroups(items: seq<string>, g: seq<string>)
    requires g != []
    ensures items + [g[0]] + g[1..] == items + g && (|g| == 1 ==> items + [g[0]] == items + g)
  {
  }

  /** Groups followed by nothing. */
  lemma {:induction false} ScanGroups(g: seq<string>, items: seq<string>, fill: Option<nat>)
    requires forall i :: 0 <= i < |g| ==> Plain(g[i])
    ensures Scan(Join(':', g), items, fill) == Some(Scanned(items + g, fill))
    decreases |g|
  {
    if g == [] {
      assert items + g == items;
    } else {
      hide Scan, Plain;
      AssocGroups(items, g);
      if |g| == 1 {
        ScanLast(g[0], items, fill);
      } else {
        JoinStarts(g[1..]);
        ScanNext(g[0], Join(':', g[1..]), items, fill);
        ScanGroups(g[1..], items + [g[0]], fill);
      }
    }
  }

  /** Groups followed by `::` and whatever comes next. */
  lemma {:induction false} ScanUpToGap(g: seq<string>, rest: string, items: seq<string>)
    requires forall i :: 0 <= i < |g| ==> Plain(g[i])
    ensures Scan(Join(':', g) + "::" + rest, items, None) == Scan(rest, items + g, Some(|items| + |g|))
    decreases |g|
  {
    hide Scan, Plain;
    if g == [] {
      assert "" + "::" + rest == "::" + rest;
      ScanColons(rest, items);
      assert items + g == items;
    } else {
      AssocGroups(items, g);
      if |g| == 1 {
        assert g[0] + "::" + rest == g[0] + ("::" + rest);
        ScanOne(g[0], "::" + rest, items, None);
        ScanColons(rest, items + [g[0]]);
      } else {
        var more := Join(':', g[1..]) + "::" + rest;
        JoinStarts(g[1..]);
        assert more[0] == Join(':', g[1..])[0];
        assert Join(':', g) + "::" + rest == g[0] + ":" + more;
        ScanNext(g[0], more, items, None);
        ScanUpToGap(g[1..], rest, items + [g[0]]);
      }
    }
  }

  lemma GroupsArePlain(g: seq<string>, h: seq<int>)
    requires AreGroups(g, h, 16)
    ensures forall i :: 0 <= i < |g| ==> Plain(g[i]) && '.' !in g[i]
  {
    forall i | 0 <= i < |g|
      ensures Plain(g[i]) && '.' !in g[i]
    {
      assert IsGroup(g[i], h[i], 16);
    }
  }

  /** Eight groups, however they are written, parse to the address. */
  lemma EightGroupsParse(g: seq<string>, h: seq<int>)
    requires AreGroups(g, h, 16) && InRange(h, HEXTET) && |h| == 8
    ensures Parse(Join(':', g)) == Some(Number(h, HEXTET))
  {
    GroupsArePlain(g, h);
    ScanGroups(g, [], None);
    assert [] + g == g;
    CombineGroups(g, h, 16, HEXTET);
  }

  lemma ZeroIsGroup()
    ensures IsGroup("0", 0, 16)
  {
    ShortestRoundTrip(0, 16);
    assert Shortest(0, 16) == "0";
  }

  /** With a run of zero groups left out, wherever it stands. */
  lemma GapParses(a: seq<string>, b: seq<string>, h: seq<int>, pos: nat, len: nat)
    requires |h| == 8 && InRange(h, HEXTET) && pos + len <= 8 && len > 0
    requires forall i :: pos <= i < pos + len ==> h[i] == 0
    requires AreGroups(a, h[..pos], 16) && AreGroups(b, h[pos + len..], 16)
    ensures Parse(Join(':', a) + "::" + Join(':', b)) == Some(Number(h, HEXTET))
  {
    hide Scan, Join, Combine, Number, IsGroup, Plain, Parse, Finish;
    GroupsArePlain(a, h[..pos]);
    GroupsArePlain(b, h[pos + len..]);
    assert |a| == pos && |b| == 8 - pos - len;
    GapScans(a, b);
    FinishFills(a, b, len);
    FilledGroups(a, b, h, pos, len);
    hide AreGroups;
    assert |h| == 8;
    CombineGroups(a + ZeroGroups(len) + b, h, 16, HEXTET);
  }

  lemma GapScans(a: seq<string>, b: seq<string>)
    requires forall i :: 0 <= i < |a| ==> Plain(a[i])
    requires forall i :: 0 <= i < |b| ==> Plain(b[i])
    ensures Parse(Join(':', a) + "::" + Join(':', b)) == Finish(Scanned(a + b, Some(|a|)))
  {
    hide Scan, Join, Plain, Finish;
    ScanUpToGap(a, Join(':', b), []);
    assert [] + a == a;
    ScanGroups(b, a, Some(|a|));
  }

  /** The gap is filled with as many zero groups as are missing. */
  lemma FinishFills(a: seq<string>, b: seq<string>, len: nat)
    requires |a| + len + |b| == 8 && len > 0
    requires forall i :: 0 <= i < |a| ==> '.' !in a[i]
    requires forall i :: 0 <= i < |b| ==> '.' !in b[i]
    ensures Finish(Scanned(a + b, Some(|a|))) == Combine(a + ZeroGroups(len) + b, 16, HEXTET)
  {
    hide Combine, WithoutDotted, Filled;
    NothingDotted(a, b);
    FillsGap(a, b, len);
  }

  lemma NothingDotted(a: seq<string>, b: seq<string>)
    requires forall i :: 0 <= i < |a| ==> '.' !in a[i]
    requires forall i :: 0 <= i < |b| ==> '.' !in b[i]
    ensures var sc := Scanned(a + b, Some(|a|)); WithoutDotted(sc) == Some(sc)
  {
    hide ParseDotted, Digits;
  }

  lemma FillsGap(a: seq<string>, b: seq<string>, len: nat)
    requires |a| + len + |b| == 8 && len > 0
    ensures Filled(Scanned(a + b, Some(|a|))) == Some(a + ZeroGroups(len) + b)
  {
    assert (a + b)[..|a|] == a && (a + b)[|a|..] == b;
  }

  lemma FilledGroups(a: seq<string>, b: seq<string>, h: seq<int>, pos: nat, len: nat)
    requires |h| == 8 && pos + len <= 8
    requires forall i :: pos <= i < pos + len ==> h[i] == 0
    requires AreGroups(a, h[..pos], 16) && AreGroups(b, h[pos + len..], 16)
    ensures AreGroups(a + ZeroGroups(len) + b, h, 16)
  {
    ZeroIsGroup();
    var all := a + ZeroGroups(len) + b;
    forall i | 0 <= i < 8
      ensures IsGroup(all[i], h[i], 16)
    {
      if i < pos {
        assert IsGroup(a[i], h[..pos][i], 16);
      } else if i >= pos + len {
        assert all[i] == b[i - pos - len];
        assert IsGroup(b[i - pos - len], h[pos + len..][i - pos - len], 16);
      }
    }
  }

  // ----- the dotted form -----

  lemma {:induction false} JoinAlphabet(sep: char, g: seq<string>, c: char)
    requires c != sep && forall i :: 0 <= i < |g| ==> c !in g[i]
    ensures c !in Join(sep, g)
    decreases |g|
  {
    if |g| > 1 { JoinAlphabet(sep, g[1..], c); }
  }

  lemma {:induction false} JoinLength(sep: char, g: seq<string>, most: nat)
    requires forall i :: 0 <= i < |g| ==> |g[i]| <= most
    ensures |Join(sep, g)| <= |g| * (most + 1)
    decreases |g|
  {
    if |g| > 1 { JoinLength(sep, g[1..], most); }
  }

  lemma ShortestByte(b: nat)
    requires b < 256
    ensures |Shortest(b, 10)| <= 3
  {
    if b >= 10 {
      assert Shortest(b, 10) == Shortest(b / 10, 10) + [DigitChar(b % 10)];
      assert b / 10 >= 10 ==> Shortest(b / 10, 10) == Shortest(b / 10 / 10, 10) + [DigitChar(b / 10 % 10)];
    }
  }

  lemma DecimalHasNoX(s: string, n: int)
    requires IsGroup(s, n, 10)
    ensures 'x' !in s
  {
  }

  function Dotted(ip: nat): string
  {
    Join('.', Groups(Parts(ip, BYTE, 4), false, 10))
  }

  ghost predicate IsDecimalByte(s: string) { '.' !in s && 'x' !in s && ':' !in s && |s| <= 3 }

  lemma DottedGroups(ip: nat)
    ensures var g := Groups(Parts(ip, BYTE, 4), false, 10);
            AreGroups(g, Parts(ip, BYTE, 4), 10) && forall i :: 0 <= i < 4 ==> IsDecimalByte(g[i])
  {
    var h := Parts(ip, BYTE, 4);
    var g := Groups(h, false, 10);
    PrintedGroups(h, false, 10);
    forall i | 0 <= i < 4
      ensures IsDecimalByte(g[i])
    {
      assert IsGroup(g[i], h[i], 10);
      DecimalHasNoX(g[i], h[i]);
      ShortestByte(h[i]);
    }
  }

  lemma DottedText(g: seq<string>)
    requires |g| == 4 && forall i :: 0 <= i < 4 ==> IsDecimalByte(g[i])
    ensures var s := Join('.', g);
            !("0x" <= s) && |s| <= 16 && '.' in s && Plain(s) && Split(s, '.') == g
  {
    hide Join, Split;
    assert forall i :: 0 <= i < 4 ==> IsDecimalByte(g[i]);
    JoinAlphabet('.', g, 'x');
    JoinAlphabet('.', g, ':');
    JoinLength('.', g, 3);
    SplitOfJoin(g, '.');
    DottedShape(g);
    NoHexPrefix(Join('.', g));
  }

  lemma NoHexPrefix(s: string)
    requires 'x' !in s
    ensures !("0x" <= s)
  {
    assert |s| >= 2 ==> s[1] in s;
  }

  lemma DottedParses(ip: nat)
    requires ip < TWO_32
    ensures ParseDotted(Dotted(ip)) == Some(ip) && '.' in Dotted(ip) && Plain(Dotted(ip))
  {
    hide Combine, Shortest, Power, Split, Join, Groups, Parts, Number, AreGroups, IsDecimalByte;
    DottedGroups(ip);
    AddressRange();
    DottedText(Groups(Parts(ip, BYTE, 4), false, 10));
    CombineGroups(Groups(Parts(ip, BYTE, 4), false, 10), Parts(ip, BYTE, 4), 10, BYTE);
    NumberOfParts(ip, BYTE, 4);
    assert Scaled(ip, 0) == ip;
  }

  lemma DottedShape(g: seq<string>)
    requires |g| == 4
    ensures '.' in Join('.', g) && Join('.', g) != ""
  {
    assert Join('.', g) == g[0] + ['.'] + Join('.', g[1..]);
    assert Join('.', g)[|g[0]|] == '.';
  }

  // ----- the IPv4-mapped form -----

  lemma MappedScan(d: string)
    requires Plain(d)
    ensures Scan("::ffff:" + d, [], None) == Some(Scanned(["ffff", d], Some(0)))
  {
    hide Scan;
    assert "::ffff:" + d == "::" + ("ffff" + ":" + d);
    ScanColons("ffff" + ":" + d, []);
    assert d[0] in d;
    ScanNext("ffff", d, [], Some(0));
    ScanLast(d, ["ffff"], Some(0));
    assert [] + ["ffff"] == ["ffff"] && ["ffff"] + [d] == ["ffff", d];
  }

  function Mapped(v: nat): seq<int> { [0, 0, 0, 0, 0, 0xffff, v / 65536, v % 65536] }

  lemma FfffIsGroup()
    ensures IsGroup("ffff", 0xffff, 16)
  {
    assert DigitChar(15) == 'f';
    hide ParseInt, DigitChar;
    ParseDigit(15, 16);
    ParseMore("f", 15, 16);
    ParseMore("ff", 15, 16);
    ParseMore("fff", 15, 16);
    assert "f" + ['f'] == "ff" && "ff" + ['f'] == "fff" && "fff" + ['f'] == "ffff";
  }

  lemma MappedGroups(v: nat)
    requires v < TWO_32
    ensures AreGroups(ZeroGroups(5) + ["ffff", Digits(v / 65536, 16, 4), Digits(v % 65536, 16, 4)], Mapped(v), 16)
  {
    ZeroIsGroup();
    FfffIsGroup();
    FullRoundTrip(v / 65536);
    FullRoundTrip(v % 65536);
    DigitsAreNoSeparators(Digits(v / 65536, 16, 4), 16);
    DigitsAreNoSeparators(Digits(v % 65536, 16, 4), 16);
    hide ParseInt, Digits;
    var g := ZeroGroups(5) + ["ffff", Digits(v / 65536, 16, 4), Digits(v % 65536, 16, 4)];
    forall i | 0 <= i < 8
      ensures IsGroup(g[i], Mapped(v)[i], 16)
    {
      if i < 5 { assert g[i] == "0"; }
    }
  }

  lemma MappedNumber(v: nat)
    requires v < TWO_32
    ensures Number(Mapped(v), HEXTET) == 0xffff * TWO_32 + v && InRange(Mapped(v), HEXTET)
  {
    assert Mapped(v) == [] + [0] + [0] + [0] + [0] + [0] + [0xffff] + [v / 65536] + [v % 65536];
    hide Number, Mapped;
    NumberOfNone();
    NumberOfMore([], HEXTET, 0);
    NumberOfMore([] + [0], HEXTET, 0);
    NumberOfMore([] + [0] + [0], HEXTET, 0);
    NumberOfMore([] + [0] + [0] + [0], HEXTET, 0);
    NumberOfMore([] + [0] + [0] + [0] + [0], HEXTET, 0);
    NumberOfMore([] + [0] + [0] + [0] + [0] + [0], HEXTET, 0xffff);
    NumberOfMore([] + [0] + [0] + [0] + [0] + [0] + [0xffff], HEXTET, v / 65536);
    NumberOfMore([] + [0] + [0] + [0] + [0] + [0] + [0xffff] + [v / 65536], HEXTET, v % 65536);
  }

  lemma NumberOfNone()
    ensures Number([], HEXTET) == 0
  {
  }

  /** The mapped form of an IPv4 address. */
  lemma MappedParses(v: nat)
    requires v < TWO_32
    ensures Parse("::ffff:" + Dotted(v)) == Some(0xffff * TWO_32 + v)
  {
    hide Scan, Plain, ParseDotted, Dotted, AreGroups, Combine, Mapped, Digits;
    DottedParses(v);
    MappedScan(Dotted(v));
    MappedFinish(Dotted(v), v);
  }

  lemma MappedFinish(d: string, v: nat)
    requires v < TWO_32 && '.' in d && ParseDotted(d) == Some(v)
    ensures Finish(Scanned(["ffff", d], Some(0))) == Some(0xffff * TWO_32 + v)
  {
    hide ParseDotted, AreGroups, Combine, Mapped, Digits;
    var sc := Scanned(["ffff", d], Some(0));
    var items := ["ffff", Digits(v / 65536, 16, 4), Digits(v % 65536, 16, 4)];
    assert sc.items[..1] + [Digits(v / 65536, 16, 4), Digits(v % 65536, 16, 4)] == items;
    assert WithoutDotted(sc) == Some(Scanned(items, Some(0)));
    var all := ZeroGroups(5) + items;
    assert items[..0] + ZeroGroups(5) + items[0..] == all;
    assert Filled(Scanned(items, Some(0))) == Some(all);
    MappedGroups(v);
    MappedNumber(v);
    CombineGroups(all, Mapped(v), 16, HEXTET);
  }
}
