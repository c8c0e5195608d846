/** The loops of tools/IPy.py that print an address, and the one that parses it. */
module AddressPrinter {
  import opened Options
  import opened Http
  import opened AddressText

  // ----- intToIp -----

  /** The texts with a separator after each, and with one before each. */
  function Trailed(g: seq<string>): string
    decreases |g|
  {
    if g == [] then "" else g[0] + "." + Trailed(g[1..])
  }

  function Led(g: seq<string>): string
    decreases |g|
  {
    if g == [] then "" else ":" + g[0] + Led(g[1..])
  }

  lemma {:induction false} TrailedIsJoin(g: seq<string>)
    requires g != []
    ensures Trailed(g) == Join('.', g) + "."
    decreases |g|
  {
    if |g| == 1 {
      assert g[0] + "." + "" == g[0] + ".";
    } else {
      TrailedIsJoin(g[1..]);
      assert g[0] + "." + (Join('.', g[1..]) + ".") == g[0] + ['.'] + Join('.', g[1..]) + ".";
    }
  }

  lemma {:induction false} LedIsJoin(g: seq<string>)
    requires g != []
    ensures Led(g) == ":" + Join(':', g)
    decreases |g|
  {
    if |g| == 1 {
      assert ":" + g[0] + "" == ":" + g[0];
    } else {
      LedIsJoin(g[1..]);
      assert ":" + g[0] + (":" + Join(':', g[1..])) == ":" + (g[0] + [':'] + Join(':', g[1..]));
    }
  }

  lemma OneMoreGroup(h: nat, unit: nat, n: nat, full: bool, base: nat, done: seq<string>)
    requires unit > 0 && n > 0 && 2 <= base <= 16
    ensures Groups(Parts(h, unit, n), full, base) + done
              == Groups(Parts(h / unit, unit, n - 1), full, base)
                 + ([if full then Digits(h % unit, base, 4) else Shortest(h % unit, base)] + done)
  {
    hide Shortest, Digits;
    assert Parts(h, unit, n) == Parts(h / unit, unit, n - 1) + [h % unit];
  }

  lemma NoGroups(h: nat, unit: nat, full: bool, base: nat, done: seq<string>)
    requires unit > 0 && 2 <= base <= 16
    ensures Groups(Parts(h, unit, 0), full, base) + done == done
  {
  }

  /** `intToIp(ip, 4)`. */
  method IntToIp4(ip: nat) returns (ret: string)
    requires ip < TWO_32
    ensures ret == Dotted(ip)
  {
    hide Shortest, Groups, Parts;
    ret := "";
    var rest: nat := ip;
    ghost var done: seq<string>, all := [], Groups(Parts(ip, BYTE, 4), false, 10);
    assert all + done == all;
    for l := 0 to 4
      invariant |done| == l && ret == Trailed(done)
      invariant Groups(Parts(rest, BYTE, 4 - l), false, 10) + done == all
    {
      OneMoreGroup(rest, BYTE, 4 - l, false, 10, done);
      ghost var next := [Shortest(rest % BYTE, 10)] + done;
      assert next[1..] == done;
      ret := Shortest(rest % BYTE, 10) + "." + ret;
      done := next;
      rest := rest / BYTE;
    }
    NoGroups(rest, BYTE, false, 10, done);
    TrailedIsJoin(done);
    ret := ret[..|ret| - 1];
  }

  function Shift(n: nat, x: nat): nat { if x == 0 then n else Shift(n, x - 1) / 16 }

  lemma {:induction false} ShiftFirst(n: nat, x: nat)
    requires x > 0
    ensures Shift(n, x) == Shift(n / 16, x - 1)
  {
    if x > 1 { ShiftFirst(n, x - 1); }
  }

  function Zeros(w: nat): (z: string)
    ensures |z| == w && forall i :: 0 <= i < w ==> z[i] == '0'
  {
    seq(w, _ => '0')
  }

  lemma {:induction false} ShiftOfZero(x: nat)
    ensures Shift(0, x) == 0
  {
    if x > 0 { ShiftOfZero(x - 1); }
  }

  /** The padded hexadecimal text, read from its end. */
  lemma {:induction false} PaddedDigit(n: nat, w: nat, x: nat)
    requires x < w
    ensures var l := Zeros(w) + Shortest(n, 16); l[|l| - 1 - x] == DigitChar(Shift(n, x) % 16)
    decreases x
  {
    var l := Zeros(w) + Shortest(n, 16);
    if x > 0 {
      ShiftFirst(n, x);
      if n < 16 {
        ShiftOfZero(x - 1);
        assert l[|l| - 1 - x] == '0';
      } else {
        PaddedDigit(n / 16, w, x - 1);
        var k := Zeros(w) + Shortest(n / 16, 16);
        assert Shortest(n, 16) == Shortest(n / 16, 16) + [DigitChar(n % 16)];
        assert l == k + [DigitChar(n % 16)];
      }
    }
  }

  /** `h` without its last `r` hexadecimal digits, for the few values of `r` that occur. */
  function Upper(h: nat, r: nat): nat
    requires r < 4
  {
    if r == 0 then h else if r == 1 then h / 16 else if r == 2 then h / 256 else h / 4096
  }

  lemma UpperNext(h: nat, r: nat)
    requires r < 4
    ensures Upper(h, r) / 16 == if r == 3 then h / 65536 else Upper(h, r + 1)
  {
  }

  lemma {:induction false} DigitsFront(h: nat, r: nat)
    requires r < 4
    ensures Digits(h, 16, r + 1) == [DigitChar(Upper(h, r) % 16)] + Digits(h, 16, r)
    decreases r
  {
    hide DigitChar;
    assert Digits(h, 16, r + 1) == Digits(h / 16, 16, r) + [DigitChar(h % 16)];
    if r == 0 {
      assert Digits(h / 16, 16, 0) == "" && Digits(h, 16, 0) == "";
    } else {
      DigitsFront(h / 16, r - 1);
      assert Upper(h / 16, r - 1) == Upper(h, r);
      assert Digits(h, 16, r) == Digits(h / 16, 16, r - 1) + [DigitChar(h % 16)];
    }
  }

  lemma UpperOfRest(h: nat, r: nat)
    requires r < 4
    ensures Upper(h % 65536, r) % 16 == Upper(h, r) % 16
  {
    var a, b := h / 65536, h % 65536;
    assert h == 65536 * a + b;
    if r == 0 {
      SixteensAdd(4096 * a, b);
    } else if r == 1 {
      assert h / 16 == 4096 * a + b / 16;
      SixteensAdd(256 * a, b / 16);
    } else if r == 2 {
      assert h / 256 == 256 * a + b / 256;
      SixteensAdd(16 * a, b / 256);
    } else {
      assert h / 4096 == 16 * a + b / 4096;
      SixteensAdd(a, b / 4096);
    }
  }

  lemma SixteensAdd(k: nat, y: nat)
    ensures (16 * k + y) % 16 == y % 16
  {
  }

  lemma {:induction false} DigitsOfRest(h: nat, r: nat)
    requires r <= 4
    ensures Digits(h, 16, r) == Digits(h % 65536, 16, r)
    decreases r
  {
    if r > 0 {
      DigitsOfRest(h, r - 1);
      hide Digits;
      DigitsFront(h, r - 1);
      DigitsFront(h % 65536, r - 1);
      UpperOfRest(h, r - 1);
    }
  }

  lemma DigitsOfNone(h: nat)
    ensures Digits(h, 16, 0) == ""
  {
  }

  /** The four digits of a group are complete. */
  lemma GroupComplete(h: nat, n: nat, done: seq<string>, ret: string)
    requires n > 0 && ret == Digits(h, 16, 4) + Led(done)
    ensures var next := [Digits(h % 65536, 16, 4)] + done;
            ":" + ret == Digits(h / 65536, 16, 0) + Led(next)
            && Groups(Parts(h, HEXTET, n), true, 16) + done == Groups(Parts(h / 65536, HEXTET, n - 1), true, 16) + next
  {
    hide Groups, Parts, Digits;
    DigitsOfRest(h, 4);
    DigitsOfNone(h / 65536);
    OneMoreGroup(h, HEXTET, n, true, 16, done);
    var next := [Digits(h % 65536, 16, 4)] + done;
    assert next[1..] == done;
    assert Led(next) == ":" + Digits(h, 16, 4) + Led(done);
  }

  function FullText(ip: nat): string { Join(':', Groups(Parts(ip, HEXTET, 8), true, 16)) }

  /** The next digit from the right goes in front of those written. */
  lemma OneDigit(ip: nat, x: nat, h: nat, r: nat, led: string)
    requires ip < TWO_128 && x < 32 && r < 4 && Shift(ip, x) == Upper(h, r)
    ensures var l := Zeros(32) + Shortest(ip, 16);
            [l[|l| - (x + 1)]] + (Digits(h, 16, r) + led) == Digits(h, 16, r + 1) + led
    ensures Shift(ip, x + 1) == Upper(h, r) / 16
  {
    hide Shortest, Digits, DigitChar, Upper;
    PaddedDigit(ip, 32, x);
    DigitsFront(h, r);
  }

  /** After x digits: r of the group in progress, and the finished groups with their colons. */
  ghost predicate Written(ip: nat, x: nat, ret: string, h: nat, r: nat, done: seq<string>) {
    && r < 4 && x == 4 * |done| + r && |done| <= 8
    && ret == Digits(h, 16, r) + Led(done)
    && Groups(Parts(h, HEXTET, 8 - |done|), true, 16) + done == Groups(Parts(ip, HEXTET, 8), true, 16)
    && Shift(ip, x) == Upper(h, r)
  }

  lemma NothingWritten(ip: nat)
    ensures Written(ip, 0, "", ip, 0, [])
  {
    hide Groups, Parts, Digits;
    DigitsOfNone(ip);
    LedOfNone();
    UpperOfAll(ip);
    var all := Groups(Parts(ip, HEXTET, 8), true, 16);
    assert all + [] == all;
  }

  lemma DigitWritten(ip: nat, x: nat, ret: string, h: nat, r: nat, done: seq<string>)
    requires ip < TWO_128 && x < 32 && Written(ip, x, ret, h, r, done)
    ensures var l := Zeros(32) + Shortest(ip, 16);
            var now := [l[|l| - (x + 1)]] + ret;
            && (r < 3 ==> Written(ip, x + 1, now, h, r + 1, done))
            && (r == 3 ==> Written(ip, x + 1, ":" + now, h / 65536, 0, [Digits(h % 65536, 16, 4)] + done))
  {
    hide Shortest, Groups, Parts, Digits, DigitChar, Upper, Led;
    OneDigit(ip, x, h, r, Led(done));
    UpperNext(h, r);
    var l := Zeros(32) + Shortest(ip, 16);
    if r == 3 {
      GroupComplete(h, 8 - |done|, done, [l[|l| - (x + 1)]] + ret);
      UpperOfAll(h / 65536);
      DigitsOfNone(h / 65536);
    }
  }

  lemma AllWritten(ip: nat, ret: string, h: nat, r: nat, done: seq<string>)
    requires ip < TWO_128 && Written(ip, 32, ret, h, r, done)
    ensures |ret| > 0 && ret[1..] == FullText(ip)
  {
    hide Groups, Parts, Digits, Led;
    DigitsOfNone(h);
    NoGroups(h, HEXTET, true, 16, done);
    LedIsJoin(done);
  }

  /** `intToIp(ip, 6)`: digit by digit from the end of the padded text, a colon after every fourth. */
  method IntToIp6(ip: nat) returns (ret: string)
    requires ip < TWO_128
    ensures ret == FullText(ip)
  {
    hide Shortest, Groups, Parts, Digits, DigitChar, Upper, Led, Written, Shift, FullText;
    var l := Zeros(32) + Shortest(ip, 16);
    ret := "";
    ghost var done: seq<string>, h: nat, r: nat := [], ip, 0;
    NothingWritten(ip);
    for x := 0 to 32
      invariant Written(ip, x, ret, h, r, done) && r == x % 4
    {
      DigitWritten(ip, x, ret, h, r, done);
      ret := [l[|l| - (x + 1)]] + ret;
      if (x + 1) % 4 == 0 {
        ret := ":" + ret;
        done, h, r := [Digits(h % 65536, 16, 4)] + done, h / 65536, 0;
      } else {
        r := r + 1;
      }
    }
    AllWritten(ip, ret, h, r, done);
    ret := ret[1..];
  }

  lemma LedOfNone()
    ensures Led([]) == ""
  {
  }

  lemma UpperOfAll(h: nat)
    ensures Upper(h, 0) == h
  {
  }

  /** `intToIp`; `None` is its `ValueError`. */
  method IntToIp(ip: int, version: int) returns (r: Option<string>)
    ensures version == 4 ==> r == if 0 <= ip < TWO_32 then Some(Dotted(ip)) else None
    ensures version == 6 ==> r == if 0 <= ip < TWO_128 then Some(FullText(ip)) else None
    ensures version != 4 && version != 6 ==> r == None
  {
    hide Dotted, FullText;
    if ip < 0 { return None; }
    var ret := "";
    if version == 4 {
      if ip >= TWO_32 { return None; }
      ret := IntToIp4(ip);
    } else if version == 6 {
      if ip >= TWO_128 { return None; }
      ret := IntToIp6(ip);
    } else {
      return None;
    }
    r := Some(ret);
  }

  // ----- strFullsize, strNormal, strCompressed -----

  lemma AddressNumber(ip: nat)
    requires ip < TWO_128
    ensures Number(Parts(ip, HEXTET, 8), HEXTET) == ip
  {
    AddressRange();
    NumberOfParts(ip, HEXTET, 8);
  }

  /** The full text parses back to the address, for all 2^128 of them. */
  lemma FullTextParses(ip: nat)
    requires ip < TWO_128
    ensures Parse(FullText(ip)) == Some(ip)
  {
    hide Groups, Parts;
    PrintedGroups(Parts(ip, HEXTET, 8), true, 16);
    EightGroupsParse(Groups(Parts(ip, HEXTET, 8), true, 16), Parts(ip, HEXTET, 8));
    AddressNumber(ip);
  }

  ghost predicate LowerCase(s: string) { forall i :: 0 <= i < |s| ==> exists d :: 0 <= d < 16 && s[i] == "0123456789abcdef"[d] }

  lemma {:induction false} DigitsAreLowerCase(n: nat, base: nat, width: nat)
    requires 2 <= base <= 16
    ensures LowerCase(Digits(n, base, width))
    decreases width
  {
    if width > 0 {
      DigitTable(n % base);
      DigitsAreLowerCase(n / base, base, width - 1);
    }
  }

  /** Lower-case digits without leading zeros. */
  lemma {:induction false} ShortestShape(n: nat)
    ensures LowerCase(Shortest(n, 16)) && (|Shortest(n, 16)| > 1 ==> Shortest(n, 16)[0] != '0')
    ensures n > 0 ==> Shortest(n, 16)[0] != '0'
  {
    DigitTable(n % 16);
    if n >= 16 { ShortestShape(n / 16); }
  }

  /** The full text: eight groups of four lower-case digits. */
  lemma FullShape(ip: nat)
    requires ip < TWO_128
    ensures var g := Split(FullText(ip), ':');
            |g| == 8 && forall i :: 0 <= i < 8 ==> |g[i]| == 4 && LowerCase(g[i])
  {
    hide Parts, Split, Join, LowerCase;
    var h := Parts(ip, HEXTET, 8);
    var g := Groups(h, true, 16);
    PrintedGroups(h, true, 16);
    assert forall i :: 0 <= i < 8 ==> IsGroup(g[i], h[i], 16);
    SplitOfJoin(g, ':');
    forall i | 0 <= i < 8 ensures |g[i]| == 4 && LowerCase(g[i]) { DigitsAreLowerCase(h[i], 16, 4); }
  }

  /** The groups of the short forms: lower-case digits without leading zeros. */
  lemma NormalShape(ip: nat, i: nat)
    requires ip < TWO_128 && i < 8
    ensures var g := Groups(Parts(ip, HEXTET, 8), false, 16)[i]; LowerCase(g) && (|g| > 1 ==> g[0] != '0')
  {
    hide Parts, LowerCase;
    ShortestShape(Parts(ip, HEXTET, 8)[i]);
  }

  /** `[int(x, 16) for x in self.strFullsize(0).split(':')]`. */
  method SplitHextets(ip: nat) returns (hextets: seq<int>)
    requires ip < TWO_128
    ensures hextets == Parts(ip, HEXTET, 8)
  {
    hide Groups, Parts, Split, ParseInt;
    var text := IntToIp6(ip);
    ghost var h := Parts(ip, HEXTET, 8);
    PrintedGroups(h, true, 16);
    assert forall i :: 0 <= i < 8 ==> IsGroup(Groups(h, true, 16)[i], h[i], 16);
    SplitOfJoin(Groups(h, true, 16), ':');
    var items := Split(text, ':');
    hextets := [];
    for i := 0 to |items|
      invariant hextets == h[..i]
    {
      assert IsGroup(items[i], h[i], 16);
      var x := ParseInt(items[i], 16);
      hextets := hextets + [x.value];
    }
  }

  /** `hex(x)[2:]` of every group. */
  method NormalGroups(ip: nat) returns (items: seq<string>)
    requires ip < TWO_128
    ensures items == Groups(Parts(ip, HEXTET, 8), false, 16)
  {
    hide Groups, Parts, Shortest;
    var hextets := SplitHextets(ip);
    items := [];
    for i := 0 to |hextets|
      invariant items == Groups(hextets, false, 16)[..i]
    {
      items := items + [Shortest(hextets[i], 16)];
    }
  }

  /** `strNormal`. */
  method StrNormal(ip: nat) returns (text: string)
    requires ip < TWO_128
    ensures text == Join(':', Groups(Parts(ip, HEXTET, 8), false, 16)) && Parse(text) == Some(ip)
  {
    hide Groups, Parts, Join;
    var items := NormalGroups(ip);
    text := Join(':', items);
    PrintedGroups(Parts(ip, HEXTET, 8), false, 16);
    EightGroupsParse(items, Parts(ip, HEXTET, 8));
    AddressNumber(ip);
  }

  /** `_countFollowingZeros`. */
  function CountFollowingZeros(l: seq<int>): (n: nat)
    ensures n <= |l| && (forall i :: 0 <= i < n ==> l[i] == 0) && (n < |l| ==> l[n] != 0)
    decreases |l|
  {
    if l == [] || l[0] != 0 then 0 else
      var n := CountFollowingZeros(l[1..]);
      assert forall i :: 1 <= i <= n ==> l[i] == l[1..][i - 1];
      assert n + 1 < |l| ==> l[n + 1] == l[1..][n];
      1 + n
  }

  /** The first of the longest runs of zeros: `len` of them from `pos` on. */
  ghost predicate LongestZeros(h: seq<int>, pos: nat, len: nat) {
    && pos + len <= |h| && pos < |h|
    && len == CountFollowingZeros(h[pos..])
    && (forall i :: 0 <= i < |h| ==> CountFollowingZeros(h[i..]) <= len)
    && (forall i :: 0 <= i < pos ==> CountFollowingZeros(h[i..]) < len)
  }

  method FindLongest(hextets: seq<int>) returns (pos: nat, len: nat)
    requires |hextets| == 8
    ensures LongestZeros(hextets, pos, len)
  {
    hide CountFollowingZeros;
    var followingzeros := [];
    for i := 0 to 8
      invariant |followingzeros| == i
      invariant forall k :: 0 <= k < i ==> followingzeros[k] == CountFollowingZeros(hextets[k..])
    {
      followingzeros := followingzeros + [CountFollowingZeros(hextets[i..])];
    }
    pos, len := 0, followingzeros[0];
    for i := 1 to 8
      invariant 0 <= pos < i && len == followingzeros[pos]
      invariant forall k :: 0 <= k < i ==> followingzeros[k] <= len
      invariant forall k :: 0 <= k < pos ==> followingzeros[k] < len
    {
      if followingzeros[i] > len { pos, len := i, followingzeros[i]; }
    }
  }

  lemma ZeroText(n: nat)
    ensures Shortest(n, 16) == "0" <==> n == 0
  {
    ShortestRoundTrip(n, 16);
    ShortestRoundTrip(0, 16);
    assert Shortest(0, 16) == "0";
  }

  lemma {:induction false} JoinAppend(a: seq<string>, b: seq<string>)
    requires a != [] && b != []
    ensures Join(':', a + b) == Join(':', a) + ":" + Join(':', b)
    decreases |a|
  {
    if |a| == 1 {
      assert (a + b)[1..] == b;
    } else {
      assert (a + b)[1..] == a[1..] + b;
      JoinAppend(a[1..], b);
      assert a[0] + [':'] + (Join(':', a[1..]) + ":" + Join(':', b)) == a[0] + [':'] + Join(':', a[1..]) + ":" + Join(':', b);
    }
  }

  /** The list with its empty entries joins to a text with one `::`. */
  lemma JoinMarked(a: seq<string>, b: seq<string>)
    ensures var marked := (if a == [] then [""] else []) + a + [""] + b + (if b == [] then [""] else []);
            Join(':', marked) == Join(':', a) + "::" + Join(':', b)
  {
    var back := [""] + b + (if b == [] then [""] else []);
    assert Join(':', back) == ":" + Join(':', b) by {
      if b == [] {
        assert back == ["", ""] && back[1..] == [""];
        assert "" + [':'] + "" == ":" + "";
      } else {
        assert back == [""] + b && back[1..] == b;
        assert "" + [':'] + Join(':', b) == ":" + Join(':', b);
      }
    }
    var front := (if a == [] then [""] else []) + a;
    assert Join(':', front) == Join(':', a) by {
      if a == [] { assert front == [""]; } else { assert front == a; }
    }
    JoinAppend(front, back);
    assert (if a == [] then [""] else []) + a + [""] + b + (if b == [] then [""] else []) == front + back;
    assert Join(':', a) + ":" + (":" + Join(':', b)) == Join(':', a) + "::" + Join(':', b);
  }

  /** The deletion loop. */
  method DeleteZeros(items: seq<string>, pos: nat, ghost len: nat) returns (hextets: seq<string>)
    requires pos + len <= |items| && forall i :: pos <= i < pos + len ==> items[i] == "0"
    requires pos + len < |items| ==> items[pos + len] != "0"
    ensures hextets == items[..pos] + items[pos + len..]
  {
    hextets := items;
    ghost var d := 0;
    while pos < |hextets| && hextets[pos] == "0"
      invariant d <= len && hextets == items[..pos] + items[pos + d..]
      invariant d < len ==> pos < |hextets| && hextets[pos] == "0"
      decreases |hextets|
    {
      assert hextets[pos] == items[pos + d];
      hextets := hextets[..pos] + hextets[pos + 1..];
      d := d + 1;
      assert d < len ==> hextets[pos] == items[pos + d];
    }
  }

  lemma ZerosToDelete(h: seq<int>, pos: nat, len: nat)
    requires LongestZeros(h, pos, len) && InRange(h, HEXTET)
    ensures var g := Groups(h, false, 16);
            (forall i :: pos <= i < pos + len ==> g[i] == "0") && (pos + len < |h| ==> g[pos + len] != "0")
  {
    hide Shortest;
    forall i | 0 <= i < |h|
      ensures Groups(h, false, 16)[i] == "0" <==> h[i] == 0
    {
      ZeroText(h[i]);
    }
    assert forall i :: pos <= i < pos + len ==> h[pos..][i - pos] == h[i];
    assert pos + len < |h| ==> h[pos..][len] == h[pos + len];
  }

  /** The empty entries that make the join write `::`. */
  method JoinAroundGap(groups: seq<string>, pos: nat) returns (text: string)
    requires pos <= |groups|
    ensures text == Join(':', groups[..pos]) + "::" + Join(':', groups[pos..])
  {
    hide Join;
    ghost var a, b := groups[..pos], groups[pos..];
    var hextets := groups[..pos] + [""] + groups[pos..];
    assert (pos + 1 >= |hextets|) == (b == []) && (pos == 0) == (a == []);
    if pos + 1 >= |hextets| { hextets := hextets + [""]; }
    assert hextets == a + [""] + b + (if b == [] then [""] else []);
    if pos == 0 { hextets := [""] + hextets; }
    assert hextets == (if a == [] then [""] else []) + a + [""] + b + (if b == [] then [""] else []);
    JoinMarked(a, b);
    text := Join(':', hextets);
  }

  /** The part of `strCompressed` that cuts the run out: deletion one by one, then the empty entries. */
  method CutZeros(items: seq<string>, ghost h: seq<int>, pos: nat, ghost len: nat) returns (text: string)
    requires |items| == |h| == 8 && InRange(h, HEXTET) && items == Groups(h, false, 16)
    requires LongestZeros(h, pos, len) && len > 1
    ensures text == Join(':', items[..pos]) + "::" + Join(':', items[pos + len..])
  {
    ZerosToDelete(h, pos, len);
    hide Join, Groups;
    var hextets := DeleteZeros(items, pos, len);
    assert hextets[..pos] == items[..pos] && hextets[pos..] == items[pos + len..];
    text := JoinAroundGap(hextets, pos);
  }

  lemma CutParses(ip: nat, pos: nat, len: nat)
    requires ip < TWO_128 && LongestZeros(Parts(ip, HEXTET, 8), pos, len) && len > 0
    ensures var g := Groups(Parts(ip, HEXTET, 8), false, 16);
            Parse(Join(':', g[..pos]) + "::" + Join(':', g[pos + len..])) == Some(ip)
  {
    hide Parts, Groups, Parse, Join, Number;
    var h := Parts(ip, HEXTET, 8);
    var g := Groups(h, false, 16);
    PrintedGroups(h, false, 16);
    hide IsGroup;
    forall i | 0 <= i < 8
      ensures IsGroup(g[i], h[i], 16)
    {
    }
    assert AreGroups(g[..pos], h[..pos], 16);
    assert AreGroups(g[pos + len..], h[pos + len..], 16);
    assert forall i :: pos <= i < pos + len ==> h[i] == h[pos..][i - pos];
    GapParses(g[..pos], g[pos + len..], h, pos, len);
    AddressNumber(ip);
  }

  /** `strCompressed`: for every address the text parses back to it, whether it is the mapped form, has its first
      longest run of two or more zero groups cut out, or has all eight groups. */
  method StrCompressed(ip: nat) returns (text: string, ghost pos: nat, ghost len: nat)
    requires ip < TWO_128
    ensures Parse(text) == Some(ip)
    ensures ip / TWO_32 == 0xffff ==> text == "::ffff:" + Dotted(ip % TWO_32)
    ensures ip / TWO_32 != 0xffff ==>
              var h := Parts(ip, HEXTET, 8);
              var g := Groups(h, false, 16);
              LongestZeros(h, pos, len)
              && text == if len > 1 then Join(':', g[..pos]) + "::" + Join(':', g[pos + len..]) else Join(':', g)
  {
    hide Groups, Parts, Parse, Dotted, Join, LongestZeros;
    pos, len := 0, 0;
    if ip / TWO_32 == 0xffff {
      var ipv4 := IntToIp4(ip % TWO_32);
      MappedParses(ip % TWO_32);
      text := "::ffff:" + ipv4;
      return;
    }
    var hextets := SplitHextets(ip);
    var compressionpos, most := FindLongest(hextets);
    pos, len := compressionpos, most;
    if most > 1 {
      var items := NormalGroups(ip);
      text := CutZeros(items, hextets, compressionpos, most);
      CutParses(ip, pos, len);
    } else {
      text := StrNormal(ip);
    }
  }

  // ----- _parseAddressIPv6 -----

  lemma {:induction false} CombineStops(items: seq<string>, i: nat, base: nat, unit: nat)
    requires i <= |items| && Combine(items[..i], base, unit) == None
    ensures Combine(items, base, unit) == None
    decreases |items|
  {
    if i == |items| {
      assert items[..i] == items;
    } else {
      assert items[..|items| - 1][..i] == items[..i];
      CombineStops(items[..|items| - 1], i, base, unit);
    }
  }

  /** The last loop. */
  method CombineItems(items: seq<string>) returns (r: Option<int>)
    ensures r == Combine(items, 16, HEXTET)
  {
    hide ParseInt;
    var value: nat := 0;
    for i := 0 to |items|
      invariant Combine(items[..i], 16, HEXTET) == Some(value)
    {
      assert items[..i + 1][..i] == items[..i];
      var item := ParseInt(items[i], 16);
      if item == None || !(0 <= item.value <= 0xFFFF) {
        CombineStops(items, i + 1, 16, HEXTET);
        return None;
      }
      value := value * HEXTET + item.value;
    }
    assert items[..|items|] == items;
    r := Some(value);
  }

  lemma ScanGap(text: string, items: seq<string>, fill: Option<nat>)
    requires "::" <= text
    ensures Scan(text, items, fill) == if fill.Some? then None else Scan(text[2..], items, Some(|items|))
  {
    hide Find;
  }

  lemma ScanGroup(text: string, items: seq<string>, fill: Option<nat>)
    requires text != "" && !("::" <= text)
    ensures var pos := Find(text, ':');
            Scan(text, items, fill) ==
              if pos == 0 then None
              else if pos == -1 then Some(Scanned(items + [text], fill))
              else
                var rest := if "::" <= text[pos..] then text[pos..] else text[pos + 1..];
                if rest == "" then None else Scan(rest, items + [text[..pos]], fill)
  {
    hide Find;
  }

  lemma ScanEnd(items: seq<string>, fill: Option<nat>)
    ensures Scan("", items, fill) == Some(Scanned(items, fill))
  {
  }

  /** The splitting loop. */
  method SplitText(ipstr: string) returns (r: Option<Scanned>)
    ensures r == Scan(ipstr, [], None)
  {
    hide Find, Scan;
    var items: seq<string> := [];
    var index: nat := 0;
    var fillPos: Option<nat> := None;
    assert ipstr[0..] == ipstr;
    while index < |ipstr|
      invariant index <= |ipstr|
      invariant Scan(ipstr, [], None) == Scan(ipstr[index..], items, fillPos)
    {
      var text := ipstr[index..];
      if "::" <= text {
        ScanGap(text, items, fillPos);
        if fillPos != None { return None; }
        fillPos := Some(|items|);
        assert text[2..] == ipstr[index + 2..];
        index := index + 2;
        continue;
      }
      ScanGroup(text, items, fillPos);
      var pos := Find(text, ':');
      if pos == 0 { return None; }
      if pos != -1 {
        assert text[pos..] == ipstr[index + pos..] && text[pos + 1..] == ipstr[index + pos + 1..];
        items := items + [text[..pos]];
        if "::" <= text[pos..] { index := index + pos; } else { index := index + pos + 1; }
        if index == |ipstr| { return None; }
      } else {
        return Some(Scanned(items + [text], fillPos));
      }
    }
    assert ipstr[index..] == "";
    ScanEnd(items, fillPos);
    r := Some(Scanned(items, fillPos));
  }

  /** `_parseAddressIPv6`. */
  method ParseAddressIPv6(ipstr: string) returns (r: Option<int>)
    ensures r == Parse(ipstr)
  {
    hide Combine, ParseDotted, Digits, ZeroGroups;
    var split := SplitText(ipstr);
    hide Scan;
    if split == None { return None; }
    var items, fillPos := split.value.items, split.value.fill;
    if |items| > 0 && '.' in items[|items| - 1] {
      if fillPos.Some? && !(fillPos.value <= |items| - 1) { return None; }
      var value := ParseDotted(items[|items| - 1]);
      if value == None { return None; }
      items := items[..|items| - 1] + [Digits(value.value / 65536, 16, 4), Digits(value.value % 65536, 16, 4)];
    }
    if fillPos != None {
      var diff := 8 - |items|;
      if diff <= 0 { return None; }
      items := UpTo(items, fillPos.value) + ZeroGroups(diff) + From(items, fillPos.value);
    }
    if |items| != 8 { return None; }
    r := CombineItems(items);
  }
}
