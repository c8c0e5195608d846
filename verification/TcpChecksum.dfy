/** The TCP checksum of a generated segment (core/output.c), assembled out of order from constants,
    digits fed backwards and a body summed beforehand. */
module TcpChecksum {
  import opened OnesComplement
  import opened Http

  /** A text as the bytes on the wire. */
  function Codes(s: string): (b: Bytes)
    ensures |b| == |s| && forall i :: 0 <= i < |s| ==> b[i] == s[i] as int
  {
    if s == "" then [] else [s[0] as int] + Codes(s[1..])
  }

  /** The sum of a text at even alignment. */
  function TextSum(s: string): int { Sum(Codes(s), false) }

  lemma TextSplit(a: string, b: string)
    requires |a| % 2 == 0
    ensures TextSum(a + b) == TextSum(a) + TextSum(b)
  {
    SumSplit(Codes(a), Codes(b), false);
    assert Codes(a + b) == Codes(a) + Codes(b);
  }

  function Two(a: char, b: char): int { 256 * (a as int) + b as int }

  lemma TwoMore(a: char, b: char, rest: string)
    ensures TextSum([a, b] + rest) == Two(a, b) + TextSum(rest)
  {
    var c := Codes([a, b] + rest);
    assert c[1..][1..] == Codes(rest);
    assert Sum(c, false) == 256 * c[0] + Sum(c[1..], true);
    assert Sum(c[1..], true) == c[1] + Sum(c[1..][1..], false);
  }

  lemma EightMore(s: string, rest: string)
    requires |s| == 8
    ensures TextSum(s + rest) == Two(s[0], s[1]) + Two(s[2], s[3]) + Two(s[4], s[5]) + Two(s[6], s[7]) + TextSum(rest)
  {
    hide TextSum;
    TwoMore(s[6], s[7], rest);
    TwoMore(s[4], s[5], [s[6], s[7]] + rest);
    TwoMore(s[2], s[3], [s[4], s[5]] + ([s[6], s[7]] + rest));
    TwoMore(s[0], s[1], [s[2], s[3]] + ([s[4], s[5]] + ([s[6], s[7]] + rest)));
    assert s + rest == [s[0], s[1]] + ([s[2], s[3]] + ([s[4], s[5]] + ([s[6], s[7]] + rest)));
  }

  // ----- the precomputed constants -----

  const BASIC_TCP_CHK := 0x1056
  const SERVICE_HTTP_HEADER_CHK := 0x1871
  const SERVICE_HTTP_HEADER_CHUNKED_CHK := 0x2876

  lemma Joined(a: string, b: string, c: string, d: string)
    requires |a| == |b| == |c| == 8 && |d| % 2 == 0
    ensures TextSum(a + b + c + d) == TextSum(a) + TextSum(b) + TextSum(c) + TextSum(d)
  {
    TextSplit(a + b + c, d);
    TextSplit(a + b, c);
    TextSplit(a, b);
  }

  lemma EmptySum()
    ensures TextSum("") == 0
  {
  }

  lemma EightIs(s: string)
    requires |s| == 8
    ensures TextSum(s) == Two(s[0], s[1]) + Two(s[2], s[3]) + Two(s[4], s[5]) + Two(s[6], s[7])
  {
    EightMore(s, "");
    EmptySum();
    assert s + "" == s;
  }

  lemma StandardSum()
    ensures TextSum(STANDARD) == 0x474B6
  {
    hide TextSum;
    var a, b, c, d := "HTTP/1.1", " 200 OK\r", "\nContent", "-Length:";
    EightIs(a); EightIs(b); EightIs(c); EightIs(d);
    assert TextSum(a) == 0xFA06 && TextSum(b) == 0xBBBE && TextSum(c) == 0x15C8A && TextSum(d) == 0x16268;
    Joined(a, b, c, d);
    assert STANDARD == a + b + c + d;
  }

  lemma StandardPart2Sum()
    ensures TextSum(STANDARD_PART2) == 0x4A3B2
  {
    hide TextSum;
    var a, b, c, d := "\r\nConten", "t-Type: ", "text/pla", "in\r\n\r\n";
    EightIs(a); EightIs(b); EightIs(c);
    TwoMore('i', 'n', "\r\n\r\n"); TwoMore('\r', '\n', "\r\n"); TwoMore('\r', '\n', "");
    EmptySum();
    assert ['i', 'n'] + "\r\n\r\n" == d && ['\r', '\n'] + "\r\n" == "\r\n\r\n" && ['\r', '\n'] + "" == "\r\n";
    assert TextSum(a) == 0x1245B && TextSum(b) == 0x1732B && TextSum(c) == 0x188AA && TextSum(d) == 0x8382;
    Joined(a, b, c, d);
    assert STANDARD_PART2 == a + b + c + d;
  }

  lemma ChunkedSum()
    ensures TextSum(CHUNKED) == 0xB286B
  {
    hide TextSum;
    var a, b, c, d, e := "HTTP/1.1", " 200 OK\r", "\nContent", "-Type: t", "ext/plai";
    var f, g, h, i := "n\r\nTrans", "fer-Enco", "ding:chu", "nked\r\n\r\n";
    EightIs(a); EightIs(b); EightIs(c); EightIs(d); EightIs(e);
    EightIs(f); EightIs(g); EightIs(h); EightIs(i);
    assert TextSum(a) == 0xFA06 && TextSum(b) == 0xBBBE && TextSum(c) == 0x15C8A && TextSum(d) == 0x12C72;
    assert TextSum(e) == 0x1AB7C && TextSum(f) == 0x15935 && TextSum(g) == 0x1816F && TextSum(h) == 0x175A8 && TextSum(i) == 0xEDE3;
    Joined(f, g, h, i);
    Joined(c, d, e, f + g + h + i);
    TextSplit(a + b, c + d + e + (f + g + h + i));
    TextSplit(a, b);
    assert CHUNKED == (a + b) + (c + d + e + (f + g + h + i)) by { ChunkedText(); }
  }

  lemma StatusText()
    ensures STATUS == "HTTP/1.1" + " 200 OK\r" + "\n"
  {
  }

  lemma TypeText()
    ensures "Content-Type: text/plain\r\n" == "Content" + "-Type: t" + "ext/plai" + "n\r\n"
  {
  }

  lemma EncodingText()
    ensures "Transfer-Encoding:chunked\r\n\r\n" == "Trans" + "fer-Enco" + "ding:chu" + "nked\r\n\r\n"
  {
  }

  lemma RegroupText(a: string, b: string, n: string, c: string, d: string, e: string, f: string, f': string,
                    g: string, h: string, i: string)
    ensures (a + b + n) + (c + d + e + f) + (f' + g + h + i)
              == (a + b) + ((n + c) + d + e + ((f + f') + g + h + i))
  {
  }

  lemma ChunkedText()
    ensures CHUNKED == ("HTTP/1.1" + " 200 OK\r") + ("\nContent" + "-Type: t" + "ext/plai" + ("n\r\nTrans" + "fer-Enco" + "ding:chu" + "nked\r\n\r\n"))
  {
    StatusText();
    TypeText();
    EncodingText();
    assert "\n" + "Content" == "\nContent" && "n\r\n" + "Trans" == "n\r\nTrans";
    hide STATUS;
    RegroupText("HTTP/1.1", " 200 OK\r", "\n", "Content", "-Type: t", "ext/plai", "n\r\n", "Trans", "fer-Enco", "ding:chu", "nked\r\n\r\n");
  }

  /** The constants in the source are the folded sums of the header texts they stand for. */
  lemma HeaderConstants(standard: nat, chunked: nat)
    requires standard == TextSum(STANDARD) + TextSum(STANDARD_PART2) && chunked == TextSum(CHUNKED)
    ensures Norm(standard) == SERVICE_HTTP_HEADER_CHK && Norm(chunked) == SERVICE_HTTP_HEADER_CHUNKED_CHK
  {
    hide TextSum, STANDARD, STANDARD_PART2, CHUNKED;
    StandardSum();
    StandardPart2Sum();
    ChunkedSum();
    assert Norm(0x474B6 + 0x4A3B2) == 0x1871 && Norm(0xB286B) == 0x2876;
  }

  // ----- the bytes a checksum covers -----

  /** What varies between segments: addresses, destination port, sequence numbers, flags. */
  datatype Header = Header(src: Bytes, dst: Bytes, port: int, seqno: Bytes, ack: Bytes, flags: int)

  ghost predicate HeaderOk(h: Header) {
    && |h.src| == |h.dst| == |h.seqno| == |h.ack| == 4
    && AreBytes(h.src) && AreBytes(h.dst) && AreBytes(h.seqno) && AreBytes(h.ack)
    && 0 <= h.port < 65536 && 0 <= h.flags < 256
  }

  function Be16(n: int): Bytes { [n / 256, n % 256] }

  const TCP_HEADER_SIZE := 20

  /** Pseudo header, TCP header with a zero checksum field, and payload, in the order they are emitted. */
  function Covered(h: Header, payload: Bytes): Bytes {
    h.src + h.dst + ([0, 6] + Be16(|payload| + TCP_HEADER_SIZE))
    + (Be16(0x0050) + Be16(h.port)) + h.seqno + h.ack
    + ([0x50, h.flags] + Be16(0x1000)) + (Be16(0) + Be16(0)) + payload
  }

  lemma FourSum(a: Bytes, b: Bytes)
    requires |a| == |b| == 2
    ensures Sum(a + b, false) == 256 * a[0] + a[1] + 256 * b[0] + b[1]
  {
    SumOfFour(a + b);
  }

  lemma SumOfPayload(a: Bytes, b: Bytes)
    requires |a| % 2 == 0
    ensures Sum(a + b, false) == Sum(a, false) + Sum(b, false)
  {
    SumSplit(a, b, false);
  }

  lemma SumOfFields(a: Bytes, b: Bytes, c: Bytes, d: Bytes, e: Bytes, f: Bytes, g: Bytes, h: Bytes, p: Bytes)
    requires |a| == |b| == |c| == |d| == |e| == |f| == |g| == |h| == 4
    ensures Sum(a + b + c + d + e + f + g + h + p, false) ==
              Sum(a, false) + Sum(b, false) + Sum(c, false) + Sum(d, false) + Sum(e, false)
              + Sum(f, false) + Sum(g, false) + Sum(h, false) + Sum(p, false)
  {
    hide Sum;
    SumOfPayload(a, b);
    SumOfPayload(a + b, c);
    SumOfPayload(a + b + c, d);
    SumOfPayload(a + b + c + d, e);
    SumOfPayload(a + b + c + d + e, f);
    SumOfPayload(a + b + c + d + e + f, g);
    SumOfPayload(a + b + c + d + e + f + g, h);
    SumOfPayload(a + b + c + d + e + f + g + h, p);
  }

  /** The sum over everything, as the sum of what the source adds. */
  lemma CoveredSum(h: Header, payload: Bytes)
    requires HeaderOk(h) && |payload| + TCP_HEADER_SIZE < 65536
    ensures Sum(Covered(h, payload), false) == FixedSum(h, |payload|) + Sum(payload, false)
  {
    hide Sum;
    var len, ports := [0, 6] + Be16(|payload| + TCP_HEADER_SIZE), Be16(0x0050) + Be16(h.port);
    var flags, zeros := [0x50, h.flags] + Be16(0x1000), Be16(0) + Be16(0);
    FourSum([0, 6], Be16(|payload| + TCP_HEADER_SIZE));
    FourSum(Be16(0x0050), Be16(h.port));
    FourSum([0x50, h.flags], Be16(0x1000));
    FourSum(Be16(0), Be16(0));
    SumOfFields(h.src, h.dst, len, ports, h.seqno, h.ack, flags, zeros, payload);
    assert Covered(h, payload) == h.src + h.dst + len + ports + h.seqno + h.ack + flags + zeros + payload;
    hide Covered, Be16;
  }

  // ----- the payload -----

  ghost predicate IsText(s: string) { forall i :: 0 <= i < |s| ==> s[i] as int < 256 }

  lemma SumFront(d: Bytes, i: nat, odd: bool)
    requires i < |d|
    ensures Sum(d[i..], odd) == Weight(odd) * d[i] + Sum(d[i + 1..], !odd)
  {
    assert d[i..][1..] == d[i + 1..];
  }

  /** What `Checksum.Add` does to a running total. */
  lemma Accumulate(after: nat, before: nat, total: nat, x: nat)
    requires Same(before, total) && Same(after, before + x)
    ensures Same(after, total + x)
  {
    SameAdd(before, total, x);
  }

  /** Digits between two zero bytes, fed from the last to the first, weigh as in the emitted text. */
  method AddDigits(c: Checksum, digits: string)
    requires c.Valid() && !c.odd && |digits| % 2 == 0 && IsText(digits)
    modifies c
    ensures c.Valid() && !c.odd && TextSum(digits) >= 0 && Same(c.Value(), old(c.Value()) + TextSum(digits))
  {
    hide Same, Sum, Codes;
    ghost var d, v := Codes(digits), c.Value();
    c.Add(0);
    var i := |digits|;
    ghost var total: nat := 0;
    assert Sum(d[i..], false) == 0 by { NoBytes(d[i..], false); }
    assert Same(c.Value(), v + total);
    while i > 0
      invariant 0 <= i <= |digits| && c.Valid() && c.odd == (i % 2 == 0)
      invariant total == Sum(d[i..], !c.odd) && Same(c.Value(), v + total)
    {
      i := i - 1;
      SumFront(d, i, c.odd);
      ghost var before := c.Value();
      c.Add(digits[i] as int);
      Accumulate(c.Value(), before, v + total, d[i] * Weight(!c.odd));
      total := total + d[i] * Weight(!c.odd);
    }
    assert d[0..] == d;
    ghost var before := c.Value();
    c.Add(0);
    Accumulate(c.Value(), before, v + total, 0);
  }

  lemma NoBytes(b: Bytes, odd: bool)
    ensures b == [] ==> Sum(b, odd) == 0 && Sum(b, !odd) == 0
  {
  }

  lemma CrlfSum(odd: bool)
    ensures Sum(Codes(CRLF), odd) == if odd then 0x0A0D else 0x0D0A
  {
    var c := Codes(CRLF);
    assert c == [13, 10];
    SumFront(c, 0, odd);
    SumFront(c, 1, !odd);
    assert c[0..] == c && c[2..] == [];
  }

  lemma TextIsCodes(a: string, b: string)
    ensures Codes(a + b) == Codes(a) + Codes(b)
  {
  }

  lemma CrlfLength()
    ensures |CRLF| == 2
  {
  }

  /** The sum of four texts in a row, the last one at whatever alignment the third leaves. */
  lemma SumOfTexts(a: string, b: string, c: string, d: string)
    requires |a| % 2 == 0 && |b| % 2 == 0
    ensures TextSum(a + b + c + d) == TextSum(a) + TextSum(b) + TextSum(c) + Sum(Codes(d), |c| % 2 == 1)
  {
    hide Sum;
    assert a + b + c + d == (a + b) + (c + d);
    TextSplit(a + b, c + d);
    TextSplit(a, b);
    TextIsCodes(c, d);
    SumSplit(Codes(c), Codes(d), false);
  }

  /** A chunk: its size digits, CRLF, the data, and CRLF at whatever alignment the data leaves. */
  lemma ChunkSum(content: string)
    requires |content| < 65536
    ensures TextSum(Chunk(content)) ==
              TextSum(Digits(|content|, 16, 4)) + 0x0D0A + TextSum(content) + if |content| % 2 == 1 then 0x0A0D else 0x0D0A
  {
    hide Digits;
    CrlfLength();
    CrlfSum(false);
    CrlfSum(true);
    hide CRLF, Sum;
    SumOfTexts(Digits(|content|, 16, 4), CRLF, content, CRLF);
  }

  lemma AccumulateSame(after: nat, before: nat, total: nat, x: nat, y: nat)
    requires Same(before, total) && Same(after, before + x) && Same(x, y)
    ensures Same(after, total + y)
  {
    SameAdd(before, total, x);
    SameAdd(x, y, total);
  }

  lemma {:induction false} DigitsAreText(n: nat, base: nat, width: nat)
    requires 2 <= base <= 16
    ensures IsText(Digits(n, base, width))
    decreases width
  {
    if width > 0 { DigitsAreText(n / base, base, width - 1); }
  }

  /** The checksum `out_c` keeps while the handler writes the body. */
  method BodyChecksum(content: string) returns (chk: nat)
    requires IsText(content)
    ensures TextSum(content) >= 0 && chk == Norm(TextSum(content))
  {
    hide Same, Norm, Sum, Codes;
    var c := new Checksum();
    ghost var d, total: nat := Codes(content), 0;
    assert Sum(d[..0], false) == 0 by { NoBytes(d[..0], false); }
    SameRefl(0);
    for i := 0 to |content|
      invariant c.Valid() && c.odd == (i % 2 == 1)
      invariant total == Sum(d[..i], false) && Same(c.Value(), total)
    {
      SumBack(d, i);
      ghost var before := c.Value();
      c.Add(content[i] as int);
      Accumulate(c.Value(), before, total, content[i] as int * Weight(i % 2 == 1));
      total := total + content[i] as int * Weight(i % 2 == 1);
    }
    assert d[..|content|] == d;
    ghost var v := c.Value();
    c.End();
    SameIsNorm(v, total);
    chk := 256 * c.high + c.low;
  }

  lemma SameRefl(a: nat)
    ensures Same(a, a)
  {
  }

  lemma SameIsNorm(a: nat, b: nat)
    requires Same(a, b)
    ensures Norm(a) == Norm(b)
  {
  }

  lemma SumBack(d: Bytes, i: nat)
    requires i < |d|
    ensures Sum(d[..i + 1], false) == Sum(d[..i], false) + Weight(i % 2 == 1) * d[i]
  {
    assert d[..i + 1] == d[..i] + [d[i]];
    SumSplit(d[..i], [d[i]], false);
    assert [d[i]][1..] == [];
  }

  /** What the generator part of `smews_send_packet` adds for the payload. */
  lemma PayloadSum(kind: ServiceHeader, content: string)
    requires |content| < 65536
    ensures TextSum(Payload(kind, content)) ==
              match kind
              case HeaderStandard =>
                TextSum(STANDARD) + TextSum(STANDARD_PART2) + TextSum(Digits(|content|, 10, 6)) + TextSum(content)
              case HeaderChunks => TextSum(CHUNKED) + TextSum(Chunk(content))
              case HeaderNone => TextSum(Chunk(content))
  {
    HeaderLengths();
    hide Sum, Digits, Chunk, STANDARD, STANDARD_PART2, CHUNKED, Codes;
    match kind
    case HeaderStandard =>
      SumOfTexts(STANDARD, Digits(|content|, 10, 6), STANDARD_PART2, content);
    case HeaderChunks => TextSplit(CHUNKED, Chunk(content));
    case HeaderNone =>
  }

  /** Pseudo header addresses and length come in around the TCP header's own fields. */
  method AddSource(src: Bytes, tcpLength: nat, seqno: Bytes) returns (c: Checksum, ghost total: nat)
    requires |src| == |seqno| == 4 && AreBytes(src) && AreBytes(seqno) && tcpLength < 65536
    ensures fresh(c) && c.Valid() && !c.odd && Same(c.Value(), total)
    ensures total == BASIC_TCP_CHK + Sum(src, false) + tcpLength + Sum(seqno, false)
  {
    hide Same, Norm, Sum;
    c := new Checksum.From(BASIC_TCP_CHK);
    total := BASIC_TCP_CHK;
    SameRefl(total);
    ghost var v := c.Value();
    c.Add32(src);
    Accumulate(c.Value(), v, total, Sum(src, false));
    total, v := total + Sum(src, false), c.Value();
    c.Add16(tcpLength);
    Accumulate(c.Value(), v, total, tcpLength);
    total, v := total + tcpLength, c.Value();
    c.Add32(seqno);
    Accumulate(c.Value(), v, total, Sum(seqno, false));
    total := total + Sum(seqno, false);
  }

  /** The fixed part: constants, addresses, lengths, ports and sequence numbers, in the source's order. */
  method AddHeader(h: Header, payloadLength: nat) returns (c: Checksum, ghost total: nat)
    requires HeaderOk(h) && payloadLength + TCP_HEADER_SIZE < 65536
    ensures fresh(c) && c.Valid() && !c.odd && Same(c.Value(), total) && total == FixedSum(h, payloadLength)
  {
    hide Same, Norm, Sum;
    c, total := AddSource(h.src, payloadLength + TCP_HEADER_SIZE, h.seqno);
    ghost var v := c.Value();
    c.Add(0x50);
    Accumulate(c.Value(), v, total, 256 * 0x50);
    total, v := total + 256 * 0x50, c.Value();
    c.Add(h.flags);
    Accumulate(c.Value(), v, total, h.flags);
    total, v := total + h.flags, c.Value();
    c.Add32(h.dst);
    Accumulate(c.Value(), v, total, Sum(h.dst, false));
    total, v := total + Sum(h.dst, false), c.Value();
    c.Add16(h.port);
    Accumulate(c.Value(), v, total, h.port);
    total, v := total + h.port, c.Value();
    c.Add32(h.ack);
    Accumulate(c.Value(), v, total, Sum(h.ack, false));
    total := total + Sum(h.ack, false);
  }

  /** The chunk part: size digits backwards, CRLF, and the CRLF after the data, byte-swapped after odd data. */
  method AddChunk(c: Checksum, length: nat)
    requires c.Valid() && !c.odd && length < 65536
    modifies c
    ensures c.Valid() && !c.odd && ChunkFrameSum(length) >= 0
    ensures Same(c.Value(), old(c.Value()) + ChunkFrameSum(length))
  {
    var digits := WriteDigits(length, 16, 4);
    DigitsAreText(length, 16, 4);
    hide Same, Norm, Sum, Digits, TextSum;
    ghost var v, t := c.Value(), c.Value();
    SameRefl(v);
    AddDigits(c, digits);
    t, v := t + TextSum(digits), c.Value();
    c.Add16(0x0D0A);
    Accumulate(c.Value(), v, t, 0x0D0A);
    t, v := t + 0x0D0A, c.Value();
    if length % 2 == 1 {
      c.Add16(0x0A0D);
      Accumulate(c.Value(), v, t, 0x0A0D);
    } else {
      c.Add16(0x0D0A);
      Accumulate(c.Value(), v, t, 0x0D0A);
    }
  }

  /** What the payload weighs besides the body: header texts, digits and line ends. */
  ghost function FrameSum(kind: ServiceHeader, length: nat): int {
    match kind
    case HeaderStandard => TextSum(STANDARD) + TextSum(STANDARD_PART2) + TextSum(Digits(length, 10, 6))
    case HeaderChunks => TextSum(CHUNKED) + ChunkFrameSum(length)
    case HeaderNone => ChunkFrameSum(length)
  }

  ghost function ChunkFrameSum(length: nat): int {
    TextSum(Digits(length, 16, 4)) + 0x0D0A + if length % 2 == 1 then 0x0A0D else 0x0D0A
  }

  lemma PayloadIsFrameAndBody(kind: ServiceHeader, content: string)
    requires |content| < 65536
    ensures TextSum(Payload(kind, content)) == FrameSum(kind, |content|) + TextSum(content)
  {
    hide TextSum, Digits, Chunk, Payload, STANDARD, STANDARD_PART2, CHUNKED;
    PayloadSum(kind, content);
    ChunkSum(content);
  }

  ghost function StandardTexts(): int { TextSum(STANDARD) + TextSum(STANDARD_PART2) }

  lemma StandardTextsSame()
    ensures StandardTexts() >= 0 && Same(SERVICE_HTTP_HEADER_CHK, StandardTexts())
  {
    hide TextSum, Same, Norm, STANDARD, STANDARD_PART2, CHUNKED;
    HeaderTextsAreNat();
    HeaderConstantsAreSame();
  }

  /** The standard header: its constant, and the Content-Length digits backwards. */
  method AddStandard(c: Checksum, length: nat)
    requires c.Valid() && !c.odd && length < 65536
    modifies c
    ensures c.Valid() && !c.odd && StandardTexts() >= 0 && TextSum(Digits(length, 10, 6)) >= 0
    ensures Same(c.Value(), old(c.Value()) + StandardTexts() + TextSum(Digits(length, 10, 6)))
  {
    hide StandardTexts, TextSum, Same;
    StandardTextsSame();
    var digits := WriteDigits(length, 10, CONTENT_LENGTH_SIZE);
    DigitsAreText(length, 10, CONTENT_LENGTH_SIZE);
    hide Digits, Norm;
    ghost var v, t := c.Value(), StandardTexts();
    SameRefl(v);
    c.Add16(SERVICE_HTTP_HEADER_CHK);
    AccumulateSame(c.Value(), v, v, SERVICE_HTTP_HEADER_CHK, t);
    ghost var u := c.Value();
    AddDigits(c, digits);
    Accumulate(c.Value(), u, v + t, TextSum(digits));
  }

  /** All the payload contributes besides the body. */
  method AddFrame(c: Checksum, kind: ServiceHeader, length: nat)
    requires c.Valid() && !c.odd && length < 65536
    modifies c
    ensures c.Valid() && !c.odd && FrameSum(kind, length) >= 0
    ensures Same(c.Value(), old(c.Value()) + FrameSum(kind, length))
  {
    hide Same, TextSum, Digits, STANDARD, STANDARD_PART2, CHUNKED, Norm, ChunkFrameSum;
    if kind == HeaderStandard {
      AddStandard(c, length);
      return;
    }
    ghost var v, t: nat := c.Value(), 0;
    SameRefl(v);
    if kind == HeaderChunks {
      HeaderTextsAreNat();
      HeaderConstantsAreSame();
      c.Add16(SERVICE_HTTP_HEADER_CHUNKED_CHK);
      t := TextSum(CHUNKED);
      AccumulateSame(c.Value(), v, v, SERVICE_HTTP_HEADER_CHUNKED_CHK, t);
    }
    ghost var u := c.Value();
    AddChunk(c, length);
    Accumulate(c.Value(), u, v + t, ChunkFrameSum(length));
  }

  /** What the fixed part weighs. */
  ghost function FixedSum(h: Header, payloadLength: nat): int {
    BASIC_TCP_CHK + Sum(h.src, false) + (payloadLength + TCP_HEADER_SIZE) + Sum(h.seqno, false)
    + (256 * 0x50 + h.flags) + Sum(h.dst, false) + h.port + Sum(h.ack, false)
  }

  /** `checksum_end` and the complement. */
  method Finish(c: Checksum, ghost total: nat) returns (chk: int)
    requires c.Valid() && Same(c.Value(), total)
    modifies c
    ensures chk == 65535 - Fold(total)
  {
    hide Same, Norm, Fold;
    ghost var v := c.Value();
    c.End();
    SameIsNorm(v, total);
    FoldIsNorm(total);
    chk := 65535 - (256 * c.high + c.low);
  }

  lemma SegmentTotal(h: Header, kind: ServiceHeader, content: string)
    requires HeaderOk(h) && |content| + HeadersSize(kind) + TCP_HEADER_SIZE < 65536
    ensures Words(Covered(h, Codes(Payload(kind, content))))
              == FixedSum(h, |content| + HeadersSize(kind)) + TextSum(content) + FrameSum(kind, |content|)
  {
    hide Covered, Payload, Words, FrameSum, Sum;
    PayloadLength(kind, content);
    CoveredSum(h, Codes(Payload(kind, content)));
    PayloadIsFrameAndBody(kind, content);
    SumIsWords(Covered(h, Codes(Payload(kind, content))));
  }

  /** The checksum field of a generator segment: for every header kind, every body and every length it is the
      RFC 1071 checksum of the bytes in the order they are emitted. */
  method SegmentChecksum(h: Header, kind: ServiceHeader, content: string, bodyChk: nat) returns (chk: int)
    requires HeaderOk(h) && IsText(content) && |content| + HeadersSize(kind) + TCP_HEADER_SIZE < 65536
    requires TextSum(content) >= 0 && bodyChk == Norm(TextSum(content))
    ensures var bytes := Covered(h, Codes(Payload(kind, content))); Words(bytes) >= 0 && chk == Rfc1071(bytes)
  {
    hide Norm, Same, TextSum, Covered, Payload, Words, Fold, FrameSum, FixedSum;
    SegmentTotal(h, kind, content);
    NormIsSame(TextSum(content));
    var c, total := AddHeader(h, |content| + HeadersSize(kind));
    ghost var v := c.Value();
    c.Add16(bodyChk);
    AccumulateSame(c.Value(), v, total, bodyChk, TextSum(content));
    ghost var u := c.Value();
    AddFrame(c, kind, |content|);
    Accumulate(c.Value(), u, total + TextSum(content), FrameSum(kind, |content|));
    chk := Finish(c, total + TextSum(content) + FrameSum(kind, |content|));
  }

  lemma HeaderTextsAreNat()
    ensures TextSum(STANDARD) + TextSum(STANDARD_PART2) >= 0 && TextSum(CHUNKED) >= 0
  {
    hide TextSum, STANDARD, STANDARD_PART2, CHUNKED;
    StandardSum();
    StandardPart2Sum();
    ChunkedSum();
  }

  lemma HeaderConstantsAreSame()
    requires TextSum(STANDARD) + TextSum(STANDARD_PART2) >= 0 && TextSum(CHUNKED) >= 0
    ensures Same(SERVICE_HTTP_HEADER_CHK, TextSum(STANDARD) + TextSum(STANDARD_PART2))
    ensures Same(SERVICE_HTTP_HEADER_CHUNKED_CHK, TextSum(CHUNKED))
  {
    hide TextSum, STANDARD, STANDARD_PART2, CHUNKED;
    HeaderConstants(TextSum(STANDARD) + TextSum(STANDARD_PART2), TextSum(CHUNKED));
  }
}
