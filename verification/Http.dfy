/** The bytes of a generated HTTP response: headers and chunks as core/output.c emits them. */
module Http {
  import opened Options

  /** `enum service_header_e`. */
  datatype ServiceHeader = HeaderNone | HeaderStandard | HeaderChunks

  const CRLF: string := "\r\n"
  const STATUS: string := "HTTP/1.1 200 OK\r\n"
  const STANDARD: string := STATUS + "Content-Length:"
  const STANDARD_PART2: string := "\r\nContent-Type: text/plain\r\n\r\n"
  const CHUNKED: string := STATUS + "Content-Type: text/plain\r\n" + "Transfer-Encoding:chunked\r\n\r\n"

  const CONTENT_LENGTH_SIZE := 6
  const CHUNK_LENGTH_SIZE := 4

  /** `_service_headers_size`. */
  function HeadersSize(h: ServiceHeader): nat {
    match h
    case HeaderStandard => 32 + 30 + CONTENT_LENGTH_SIZE
    case HeaderChunks => 72 + CHUNK_LENGTH_SIZE + 4
    case HeaderNone => CHUNK_LENGTH_SIZE + 4
  }

  function DigitChar(d: nat): char
    requires d < 16
  {
    if d < 10 then '0' + d as char else 'a' + (d - 10) as char
  }

  /** `n` in the given base, on exactly `width` digits. */
  function Digits(n: nat, base: nat, width: nat): (s: string)
    requires 2 <= base <= 16
    ensures |s| == width
  {
    if width == 0 then "" else Digits(n / base, base, width - 1) + [DigitChar(n % base)]
  }

  /** The digit loops of `smews_send_packet`, from the last digit to the first. */
  method WriteDigits(n: nat, base: nat, width: nat) returns (buffer: string)
    requires 2 <= base <= 16
    ensures buffer == Digits(n, base, width)
  {
    hide Digits, DigitChar;
    buffer := "";
    var length: nat := n;
    var i := width;
    while i > 0
      invariant 0 <= i <= width && |buffer| == width - i
      invariant Digits(n, base, width) == Digits(length, base, i) + buffer
    {
      DigitsStep(length, base, i, buffer);
      i := i - 1;
      buffer := [DigitChar(length % base)] + buffer;
      length := length / base;
    }
  }

  lemma DigitsStep(n: nat, base: nat, width: nat, rest: string)
    requires 2 <= base <= 16 && width > 0
    ensures Digits(n, base, width) + rest == Digits(n / base, base, width - 1) + ([DigitChar(n % base)] + rest)
  {
    hide DigitChar;
    assert Digits(n, base, width) == Digits(n / base, base, width - 1) + [DigitChar(n % base)];
  }

  function Chunk(content: string): string {
    Digits(|content|, 16, CHUNK_LENGTH_SIZE) + CRLF + content + CRLF
  }

  /** The TCP payload of one generator segment. */
  function Payload(h: ServiceHeader, content: string): string {
    match h
    case HeaderStandard => STANDARD + Digits(|content|, 10, CONTENT_LENGTH_SIZE) + STANDARD_PART2 + content
    case HeaderChunks => CHUNKED + Chunk(content)
    case HeaderNone => Chunk(content)
  }

  lemma HeaderLengths()
    ensures |STANDARD| == 32 && |STANDARD_PART2| == 30 && |CHUNKED| == 72 && |CRLF| == 2
  {
  }

  /** The announced segment length is the number of bytes emitted. */
  lemma PayloadLength(h: ServiceHeader, content: string)
    ensures |Payload(h, content)| == |content| + HeadersSize(h)
  {
    HeaderLengths();
  }

  // ----- reading digits -----

  function DigitValue(c: char): int {
    if '0' <= c <= '9' then c as int - '0' as int
    else if 'a' <= c <= 'f' then c as int - 'a' as int + 10
    else if 'A' <= c <= 'F' then c as int - 'A' as int + 10
    else -1
  }

  /** The digits one by one: written in lower case, read in either. */
  lemma DigitTable(d: nat)
    requires d < 16
    ensures DigitChar(d) == "0123456789abcdef"[d]
    ensures DigitValue("0123456789abcdef"[d]) == d && DigitValue("0123456789ABCDEF"[d]) == d
  {
  }

  /** And no other character is one. */
  lemma NoOtherDigit(c: char)
    ensures var d := DigitValue(c); d == -1 || (0 <= d < 16 && (c == "0123456789abcdef"[d] || c == "0123456789ABCDEF"[d]))
  {
  }

  predicate IsDigit(c: char, base: nat) { 0 <= DigitValue(c) < base }

  /** How many digits the text starts with. */
  function DigitCount(s: string, base: nat): (n: nat)
    ensures n <= |s| && (forall i :: 0 <= i < n ==> IsDigit(s[i], base)) && (n < |s| ==> !IsDigit(s[n], base))
  {
    if s == "" || !IsDigit(s[0], base) then 0 else 1 + DigitCount(s[1..], base)
  }

  /** The number a text of digits stands for. */
  function Value(s: string, base: nat): int {
    if s == "" then 0 else Value(s[..|s| - 1], base) * base + DigitValue(s[|s| - 1])
  }

  lemma DigitRoundTrip(d: nat)
    requires d < 16
    ensures DigitValue(DigitChar(d)) == d
  {
  }

  function Power(base: nat, width: nat): nat { if width == 0 then 1 else base * Power(base, width - 1) }

  /** Written digits are digits, and read back as the number. */
  lemma {:induction false} DigitsRoundTrip(n: nat, base: nat, width: nat)
    requires 2 <= base <= 16 && n < Power(base, width)
    ensures Value(Digits(n, base, width), base) == n
    ensures forall i :: 0 <= i < width ==> IsDigit(Digits(n, base, width)[i], base)
    decreases width
  {
    hide DigitChar, DigitValue, IsDigit, Digits, Value, Power;
    if width == 0 {
      NoDigits(n, base);
    } else {
      PowerStep(base, width);
      DivisionBound(n, base, Power(base, width - 1));
      DigitsRoundTrip(n / base, base, width - 1);
      DigitsStep(n, base, width, "");
      NothingAfter(Digits(n, base, width), [DigitChar(n % base)]);
      QuotientRest(n, base);
      OneMoreDigit(Digits(n / base, base, width - 1), n / base, n % base, base);
    }
  }

  lemma {:induction false} PowerIsPositive(base: nat, width: nat)
    requires base > 0
    ensures Power(base, width) > 0
  {
    if width > 0 {
      PowerIsPositive(base, width - 1);
      Monotone(base, 1, Power(base, width - 1));
    }
  }

  lemma DivideTwice(n: nat, a: nat, b: nat)
    requires a > 0 && b > 0
    ensures a * b > 0 && n / a / b == n / (a * b)
  {
    PositiveProduct(a, b);
    QuotientRest(n, a);
    QuotientRest(n / a, b);
    FromParts(n, a, b, n / a / b, n / a % b, n % a);
  }

  lemma FromParts(n: nat, a: nat, b: nat, q: nat, t: nat, r: nat)
    requires a * b > 0 && t < b && r < a && n == (q * b + t) * a + r
    ensures n / (a * b) == q
  {
    Distribute(a, b, q, t);
    Monotone(a, t, b - 1);
    Quotient(n, a * b, q);
  }

  lemma Distribute(a: nat, b: nat, q: nat, t: nat)
    requires b > 0
    ensures (q * b + t) * a == (a * b) * q + a * t && a * (b - 1) == a * b - a
  {
  }

  lemma PositiveProduct(a: nat, b: nat)
    requires a > 0 && b > 0
    ensures a * b > 0
  {
  }

  lemma Quotient(n: nat, d: nat, q: nat)
    requires d > 0 && d * q <= n < d * q + d
    ensures n / d == q
  {
    var r := n / d;
    assert d * r <= n < d * r + d;
    Monotone(d, r + 1, q);
    Monotone(d, q + 1, r);
  }

  /** The most significant digit comes first: digit i is the one of weight base to the number of digits after it. */
  lemma {:induction false} DigitsAt(n: nat, base: nat, width: nat, i: nat)
    requires 2 <= base <= 16 && i < width
    ensures Power(base, width - 1 - i) > 0
    ensures Digits(n, base, width)[i] == "0123456789abcdef"[(n / Power(base, width - 1 - i)) % base]
    decreases width
  {
    PowerIsPositive(base, width - 1 - i);
    if i == width - 1 {
      DigitTable(n % base);
      assert Power(base, 0) == 1;
    } else {
      DigitsAt(n / base, base, width - 1, i);
      PowerStep(base, width - 1 - i);
      PowerIsPositive(base, width - 2 - i);
      DivideTwice(n, base, Power(base, width - 2 - i));
    }
  }

  lemma NoDigits(n: nat, base: nat)
    requires 2 <= base <= 16
    ensures Digits(n, base, 0) == "" && Value("", base) == 0 && Power(base, 0) == 1
  {
  }

  lemma PowerStep(base: nat, width: nat)
    requires width > 0
    ensures Power(base, width) == base * Power(base, width - 1)
  {
  }

  lemma OneMoreDigit(d: string, q: nat, r: nat, base: nat)
    requires r < base <= 16 && Value(d, base) == q && forall i :: 0 <= i < |d| ==> IsDigit(d[i], base)
    ensures Value(d + [DigitChar(r)], base) == q * base + r
    ensures forall i :: 0 <= i <= |d| ==> IsDigit((d + [DigitChar(r)])[i], base)
  {
    hide DigitChar, DigitValue, Value;
    ValueOfLast(d, DigitChar(r), base);
    DigitRoundTrip(r);
  }

  lemma NothingAfter(a: string, b: string)
    ensures a + "" == a && b + "" == b
  {
  }

  lemma QuotientRest(n: nat, base: nat)
    requires base > 0
    ensures n == n / base * base + n % base
  {
  }

  lemma ValueOfLast(s: string, c: char, base: nat)
    ensures Value(s + [c], base) == Value(s, base) * base + DigitValue(c)
  {
    assert (s + [c])[..|s|] == s;
  }

  lemma DivisionBound(n: nat, base: nat, p: nat)
    requires base > 0 && n < base * p
    ensures n / base < p
  {
    var q := n / base;
    assert base * q <= n;
    Monotone(base, p, q);
  }

  lemma Monotone(a: nat, x: nat, y: nat)
    ensures x <= y ==> a * x <= a * y
  {
  }

  /** The digits end where the text after them starts with a non-digit. */
  lemma {:induction false} DigitCountIs(d: string, rest: string, base: nat)
    requires forall i :: 0 <= i < |d| ==> IsDigit(d[i], base)
    requires rest == "" || !IsDigit(rest[0], base)
    ensures DigitCount(d + rest, base) == |d|
  {
    if d == "" {
      assert d + rest == rest;
    } else {
      assert (d + rest)[1..] == d[1..] + rest;
      DigitCountIs(d[1..], rest, base);
    }
  }

  lemma ChunkSizeReads(n: nat, rest: string)
    requires n < 65536
    ensures var s := Digits(n, 16, 4) + CRLF + rest;
            && DigitCount(s, 16) == 4 && s[..4] == Digits(n, 16, 4) && Value(s[..4], 16) == n
            && CRLF <= s[4..] && s[6..] == rest
  {
    assert Power(16, 4) == 65536;
    DigitsRoundTrip(n, 16, 4);
    var d := Digits(n, 16, 4);
    hide Digits, Value, DigitCount;
    assert d + CRLF + rest == d + (CRLF + rest);
    DigitCountIs(d, CRLF + rest, 16);
  }
}
