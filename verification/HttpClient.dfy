/** A client that reads a response by the rules of RFC 9112, knowing nothing of how the server builds it: lines end
    at CRLF, the status line comes first, field names end at the colon, the head ends at the empty line, and the
    fields say where the body ends (sections 2 to 7.1). */
module HttpClient {
  import opened Options
  import opened Http

  datatype Field = Field(name: string, value: string)

  datatype Message = Message(status: string, fields: seq<Field>, body: string)

  // ----- the head -----

  /** The first place of the character, or the length. */
  function IndexOf(s: string, c: char): (n: nat)
    ensures n <= |s| && c !in s[..n] && (n < |s| ==> s[n] == c)
  {
    if s == "" || s[0] == c then 0 else
      var n := IndexOf(s[1..], c);
      assert s[..n + 1] == [s[0]] + s[1..][..n];
      n + 1
  }

  /** The first line and what follows its CRLF. */
  function Line(s: string): Option<(string, string)> {
    var n := IndexOf(s, '\r');
    if n + 1 < |s| && s[n + 1] == '\n' then Some((s[..n], s[n + 2..])) else None
  }

  predicate IsSpace(c: char) { c == ' ' || c == '\t' }

  function Trimmed(s: string): string
    decreases |s|
  {
    if s == "" then ""
    else if IsSpace(s[0]) then Trimmed(s[1..])
    else if IsSpace(s[|s| - 1]) then Trimmed(s[..|s| - 1])
    else s
  }

  function FieldOf(line: string): Option<Field> {
    var k := IndexOf(line, ':');
    if k == 0 || k == |line| || IsSpace(line[k - 1]) then None else Some(Field(line[..k], Trimmed(line[k + 1..])))
  }

  lemma LineIsShorter(s: string)
    ensures Line(s).Some? ==> |Line(s).value.1| < |s|
  {
  }

  /** The field lines up to the empty one, and what follows it. */
  function Fields(s: string): Option<(seq<Field>, string)>
    decreases |s|
  {
    LineIsShorter(s);
    match Line(s)
    case None => None
    case Some((line, rest)) =>
      if line == "" then Some(([], rest))
      else
        match (FieldOf(line), Fields(rest))
        case (Some(field), Some((fields, after))) => Some(([field] + fields, after))
        case _ => None
  }

  /** All values a field name has. */
  function Values(fields: seq<Field>, name: string): seq<string> {
    if fields == [] then []
    else (if fields[0].name == name then [fields[0].value] else []) + Values(fields[1..], name)
  }

  // ----- the body -----

  /** A chunked body: the data, and what follows the last chunk. */
  function DecodeChunks(s: string): (r: Option<(string, string)>)
    decreases |s|
  {
    var n := DigitCount(s, 16);
    if n == 0 || !("\r\n" <= s[n..]) then None
    else
      var size, rest := Value(s[..n], 16), s[n + 2..];
      if size == 0 then (if "\r\n" <= rest then Some(("", rest[2..])) else None)
      else if size < 0 || size > |rest| || !("\r\n" <= rest[size..]) then None
      else
        match DecodeChunks(rest[size + 2..])
        case None => None
        case Some((data, tail)) => Some((rest[..size] + data, tail))
  }

  /** Chunked if the fields say so, otherwise exactly as long as they say. */
  function Body(fields: seq<Field>, s: string): Option<string> {
    BodyBy(Values(fields, "Transfer-Encoding"), Values(fields, "Content-Length"), s)
  }

  function BodyBy(coding: seq<string>, length: seq<string>, s: string): Option<string> {
    if coding == ["chunked"] && length == [] then
      match DecodeChunks(s)
      case None => None
      case Some((data, tail)) => if tail == "" then Some(data) else None
    else if coding == [] && |length| == 1 then
      var digits := length[0];
      if digits != "" && DigitCount(digits, 10) == |digits| && |s| == Value(digits, 10) then Some(s) else None
    else None
  }

  /** One whole response. */
  function Read(s: string): Option<Message> {
    match Line(s)
    case None => None
    case Some((status, rest)) =>
      match Fields(rest)
      case None => None
      case Some((fields, after)) =>
        match Body(fields, after)
        case None => None
        case Some(body) => Some(Message(status, fields, body))
  }

  /** What a client that asked for a page takes from the response: only "200 OK" brings one. */
  function Decode(s: string): Option<string> {
    match Read(s)
    case None => None
    case Some(message) => if message.status == "HTTP/1.1 200 OK" then Some(message.body) else None
  }

  lemma DecodeOf(s: string, fields: seq<Field>, body: string)
    requires Read(s) == Some(Message("HTTP/1.1 200 OK", fields, body))
    ensures Decode(s) == Some(body)
  {
    hide Read;
  }

  // ----- reading what the server writes -----

  lemma {:induction false} IndexAfter(a: string, c: char, b: string)
    requires c !in a
    ensures IndexOf(a + [c] + b, c) == |a|
  {
    if a == "" {
      assert (a + [c] + b)[0] == c;
    } else {
      assert a[0] in a;
      assert (a + [c] + b)[1..] == a[1..] + [c] + b;
      IndexAfter(a[1..], c, b);
    }
  }

  lemma LineOf(line: string, rest: string)
    requires '\r' !in line
    ensures Line(line + "\r\n" + rest) == Some((line, rest))
  {
    var s := line + "\r\n" + rest;
    assert s == line + ['\r'] + (['\n'] + rest);
    IndexAfter(line, '\r', ['\n'] + rest);
    assert s[|line| + 1] == '\n' && s[..|line|] == line && s[|line| + 2..] == rest;
  }

  lemma NoMoreFields(rest: string)
    ensures Fields("\r\n" + rest) == Some(([], rest))
  {
    LineOf("", rest);
    assert "" + "\r\n" + rest == "\r\n" + rest;
  }

  lemma OneField(name: string, value: string, rest: string)
    requires name != "" && ':' !in name && '\r' !in name && '\r' !in value && !IsSpace(name[|name| - 1])
    requires Fields(rest).Some?
    ensures Fields(name + ":" + value + "\r\n" + rest)
              == Some(([Field(name, Trimmed(value))] + Fields(rest).value.0, Fields(rest).value.1))
  {
    var line := name + ":" + value;
    LineOf(line, rest);
    IndexAfter(name, ':', value);
    assert line == name + [':'] + value;
    assert line[..|name|] == name && line[|name| + 1..] == value;
    hide IndexOf, Trimmed;
  }

  /** Nothing to trim. */
  lemma TrimNothing(s: string)
    requires s != "" && !IsSpace(s[0]) && !IsSpace(s[|s| - 1])
    ensures Trimmed(s) == s && Trimmed(" " + s) == s
  {
    assert (" " + s)[1..] == s;
  }

  // ----- chunks -----

  /** A non-empty chunk decodes to its content, then what follows it decodes. */
  lemma ChunkDecodes(content: string, tail: string)
    requires 0 < |content| < 65536
    ensures DecodeChunks(Chunk(content) + tail) ==
              match DecodeChunks(tail)
              case None => None
              case Some((data, rest)) => Some((content + data, rest))
  {
    var after := content + CRLF + tail;
    var s := Chunk(content) + tail;
    ChunkSizeReads(|content|, after);
    assert s == Digits(|content|, 16, 4) + CRLF + after;
    hide Digits, Value, DigitCount;
    assert after[..|content|] == content;
    assert after[|content|..] == CRLF + tail && after[|content| + 2..] == tail;
    assert CRLF <= after[|content|..];
  }

  /** The empty chunk ends the body. */
  lemma LastChunkDecodes(tail: string)
    ensures DecodeChunks(Chunk("") + tail) == Some(("", tail))
  {
    var s := Chunk("") + tail;
    ChunkSizeReads(0, CRLF + tail);
    assert s == Digits(0, 16, 4) + CRLF + (CRLF + tail);
    hide Digits, Value, DigitCount;
    assert (CRLF + tail)[2..] == tail;
  }

  // ----- the two kinds of response -----

  function LengthFields(length: string): seq<Field> { [Field("Content-Length", length), Field("Content-Type", "text/plain")] }

  function ChunkedFields(): seq<Field> { [Field("Content-Type", "text/plain"), Field("Transfer-Encoding", "chunked")] }

  lemma LengthField(digits: string, rest: string)
    requires digits != "" && forall i :: 0 <= i < |digits| ==> IsDigit(digits[i], 10)
    requires Fields(rest).Some?
    ensures Fields("Content-Length:" + digits + "\r\n" + rest)
              == Some(([Field("Content-Length", digits)] + Fields(rest).value.0, Fields(rest).value.1))
  {
    assert "Content-Length" + ":" == "Content-Length:";
    DigitsAreClean(digits);
    TrimNothing(digits);
    hide Fields, Trimmed, IsDigit;
    OneField("Content-Length", digits, rest);
  }

  /** The head of a response with a length. */
  lemma StandardHead(digits: string, content: string)
    requires digits != "" && forall i :: 0 <= i < |digits| ==> IsDigit(digits[i], 10)
    ensures var s := STANDARD + digits + STANDARD_PART2 + content;
            exists rest :: Line(s) == Some(("HTTP/1.1 200 OK", rest)) && Fields(rest) == Some((LengthFields(digits), content))
  {
    hide Fields, Line, IsDigit, STANDARD, STANDARD_PART2;
    StandardText(digits, content);
    var rest := "Content-Type:" + " text/plain" + "\r\n" + ("\r\n" + content);
    var first := "Content-Length:" + digits + "\r\n" + rest;
    StatusIsLine();
    LineOf("HTTP/1.1 200 OK", first);
    TypeField(content);
    LengthField(digits, rest);
    assert [Field("Content-Length", digits)] + [Field("Content-Type", "text/plain")]
             == [Field("Content-Length", digits), Field("Content-Type", "text/plain")];
  }

  lemma StatusIsLine()
    ensures '\r' !in "HTTP/1.1 200 OK"
  {
  }

  lemma StandardText(digits: string, content: string)
    ensures STANDARD + digits + STANDARD_PART2 + content
              == "HTTP/1.1 200 OK" + "\r\n" + ("Content-Length:" + digits + "\r\n" + ("Content-Type:" + " text/plain" + "\r\n" + ("\r\n" + content)))
  {
    assert STANDARD == "HTTP/1.1 200 OK" + "\r\n" + "Content-Length:";
    assert STANDARD_PART2 == "\r\n" + "Content-Type:" + " text/plain" + "\r\n" + "\r\n";
    hide STANDARD, STANDARD_PART2;
    Regroup("HTTP/1.1 200 OK" + "\r\n", "Content-Length:", digits, "\r\n", "Content-Type:" + " text/plain" + "\r\n", "\r\n" + content);
    assert "\r\n" + "Content-Type:" + " text/plain" + "\r\n" + "\r\n" + content
             == "\r\n" + ("Content-Type:" + " text/plain" + "\r\n") + ("\r\n" + content);
    Regroup2(STANDARD, digits, STANDARD_PART2, content);
  }

  lemma Regroup(a: string, b: string, c: string, d: string, e: string, f: string)
    ensures (a + b) + (c + (d + e + f)) == a + (b + c + d + (e + f))
  {
  }

  lemma Regroup2(a: string, b: string, c: string, d: string)
    ensures a + b + c + d == a + (b + (c + d))
  {
  }

  lemma TypeField(rest: string)
    ensures Fields("Content-Type:" + " text/plain" + "\r\n" + ("\r\n" + rest)) == Some(([Field("Content-Type", "text/plain")], rest))
  {
    NoMoreFields(rest);
    TypeThen("\r\n" + rest);
    assert [Field("Content-Type", "text/plain")] + [] == [Field("Content-Type", "text/plain")];
  }

  lemma DigitsAreClean(s: string)
    requires forall i :: 0 <= i < |s| ==> IsDigit(s[i], 10)
    ensures '\r' !in s && (s != "" ==> !IsSpace(s[0]) && !IsSpace(s[|s| - 1]))
  {
  }

  lemma ValuesOfTwo(a: Field, b: Field, name: string)
    ensures Values([a, b], name) == (if a.name == name then [a.value] else []) + (if b.name == name then [b.value] else [])
  {
    assert [a, b][1..] == [b] && [b][1..] == [];
    assert Values([], name) == [];
    assert Values([b], name) == (if b.name == name then [b.value] else []) + Values([], name);
    assert Values([a, b], name) == (if a.name == name then [a.value] else []) + Values([b], name);
  }

  lemma LengthValues(length: string)
    ensures Values(LengthFields(length), "Transfer-Encoding") == [] && Values(LengthFields(length), "Content-Length") == [length]
  {
    assert |"Content-Type"| == 12 && |"Content-Length"| == 14 && |"Transfer-Encoding"| == 17;
    ValuesOfTwo(Field("Content-Length", length), Field("Content-Type", "text/plain"), "Transfer-Encoding");
    ValuesOfTwo(Field("Content-Length", length), Field("Content-Type", "text/plain"), "Content-Length");
    hide Values;
  }

  lemma ChunkedValues()
    ensures Values(ChunkedFields(), "Transfer-Encoding") == ["chunked"] && Values(ChunkedFields(), "Content-Length") == []
  {
    assert |"Content-Type"| == 12 && |"Content-Length"| == 14 && |"Transfer-Encoding"| == 17;
    ValuesOfTwo(Field("Content-Type", "text/plain"), Field("Transfer-Encoding", "chunked"), "Transfer-Encoding");
    ValuesOfTwo(Field("Content-Type", "text/plain"), Field("Transfer-Encoding", "chunked"), "Content-Length");
    hide Values;
  }

  /** With these fields the body is what follows the head, if it has the announced length. */
  lemma BodyOfLength(length: string, s: string)
    ensures Body(LengthFields(length), s) ==
              if length != "" && DigitCount(length, 10) == |length| && |s| == Value(length, 10) then Some(s) else None
  {
    hide Values, DecodeChunks, LengthFields, DigitCount, Value, BodyBy;
    LengthValues(length);
    ByLength(length, s);
  }

  lemma ByLength(length: string, s: string)
    ensures BodyBy([], [length], s) ==
              if length != "" && DigitCount(length, 10) == |length| && |s| == Value(length, 10) then Some(s) else None
  {
    hide DecodeChunks, DigitCount, Value;
    assert |["chunked"]| == 1 && [length][0] == length;
  }

  lemma BodyOfChunks(s: string)
    ensures Body(ChunkedFields(), s) ==
              match DecodeChunks(s)
              case None => None
              case Some((data, tail)) => if tail == "" then Some(data) else None
  {
    ChunkedValues();
    hide Values, DecodeChunks, ChunkedFields;
  }

  /** A response with a length reads as "200 OK" with these two fields, the length on six digits, and its content. */
  lemma StandardReads(content: string)
    requires |content| < 65536
    ensures var length := Digits(|content|, 10, 6);
            Read(Payload(HeaderStandard, content)) == Some(Message("HTTP/1.1 200 OK", LengthFields(length), content))
            && Value(length, 10) == |content|
  {
    hide *;
    var d := Digits(|content|, 10, 6);
    SixDigits(|content|);
    PayloadIs(content);
    LengthReads(d, content);
  }

  lemma LengthReads(digits: string, content: string)
    requires digits != "" && forall i :: 0 <= i < |digits| ==> IsDigit(digits[i], 10)
    requires DigitCount(digits, 10) == |digits| && Value(digits, 10) == |content|
    ensures Read(STANDARD + digits + STANDARD_PART2 + content) == Some(Message("HTTP/1.1 200 OK", LengthFields(digits), content))
  {
    hide Value, DigitCount, Fields, Line, Body, Read, IsDigit, STANDARD, STANDARD_PART2, LengthFields;
    StandardHead(digits, content);
    BodyOfLength(digits, content);
    ReadIs(STANDARD + digits + STANDARD_PART2 + content, "HTTP/1.1 200 OK", LengthFields(digits), content, content);
  }

  lemma PayloadIs(content: string)
    ensures Payload(HeaderStandard, content) == STANDARD + Digits(|content|, 10, 6) + STANDARD_PART2 + content
  {
    hide Digits, STANDARD, STANDARD_PART2, Chunk;
  }

  lemma ReadIs(s: string, status: string, fields: seq<Field>, after: string, body: string)
    requires exists rest :: Line(s) == Some((status, rest)) && Fields(rest) == Some((fields, after))
    requires Body(fields, after) == Some(body)
    ensures Read(s) == Some(Message(status, fields, body))
  {
    hide Line, Fields, Body;
  }

  lemma SixDigits(n: nat)
    requires n < 65536
    ensures var d := Digits(n, 10, 6);
            && |d| == 6 && Value(d, 10) == n && DigitCount(d, 10) == 6 && forall i :: 0 <= i < 6 ==> IsDigit(d[i], 10)
  {
    assert Power(10, 6) == 1000000;
    DigitsRoundTrip(n, 10, 6);
    var d := Digits(n, 10, 6);
    hide Digits, Value;
    DigitCountIs(d, "", 10);
    assert d + "" == d;
  }

  lemma EncodingField(rest: string)
    ensures Fields("Transfer-Encoding:" + "chunked" + "\r\n" + ("\r\n" + rest)) == Some(([Field("Transfer-Encoding", "chunked")], rest))
  {
    NoMoreFields(rest);
    assert "Transfer-Encoding" + ":" == "Transfer-Encoding:";
    TrimNothing("chunked");
    OneField("Transfer-Encoding", "chunked", "\r\n" + rest);
    assert [Field("Transfer-Encoding", "chunked")] + [] == [Field("Transfer-Encoding", "chunked")];
  }

  lemma TypeThen(rest: string)
    requires Fields(rest).Some?
    ensures Fields("Content-Type:" + " text/plain" + "\r\n" + rest)
              == Some(([Field("Content-Type", "text/plain")] + Fields(rest).value.0, Fields(rest).value.1))
  {
    TypeIsClean();
    hide Fields, Trimmed, IsSpace;
    OneField("Content-Type", " text/plain", rest);
  }

  lemma TypeIsClean()
    ensures "Content-Type" + ":" == "Content-Type:" && |"Content-Type"| == 12
    ensures ':' !in "Content-Type" && '\r' !in "Content-Type" && !IsSpace("Content-Type"[11])
    ensures '\r' !in " text/plain" && Trimmed(" text/plain") == "text/plain"
  {
    assert " " + "text/plain" == " text/plain";
    assert |"text/plain"| == 10 && "text/plain"[0] == 't' && "text/plain"[9] == 'n';
    TrimNothing("text/plain");
    hide Trimmed;
  }

  lemma ChunkedText(t: string)
    ensures CHUNKED + t == "HTTP/1.1 200 OK" + "\r\n" + ("Content-Type:" + " text/plain" + "\r\n"
                             + ("Transfer-Encoding:" + "chunked" + "\r\n" + ("\r\n" + t)))
  {
    assert STATUS == "HTTP/1.1 200 OK" + "\r\n";
    assert "Content-Type: text/plain\r\n" == "Content-Type:" + " text/plain" + "\r\n";
    assert "Transfer-Encoding:chunked\r\n\r\n" == "Transfer-Encoding:" + "chunked" + "\r\n" + "\r\n";
    hide STATUS;
    Regroup3(STATUS, "Content-Type:" + " text/plain" + "\r\n", "Transfer-Encoding:" + "chunked" + "\r\n", "\r\n", t);
  }

  lemma Regroup3(a: string, b: string, c: string, d: string, t: string)
    ensures a + b + (c + d) + t == a + (b + (c + (d + t)))
  {
  }

  /** A chunked response reads as "200 OK" with these two fields and the data of its chunks. */
  lemma ChunkedReads(t: string, data: string)
    requires DecodeChunks(t) == Some((data, ""))
    ensures Read(CHUNKED + t) == Some(Message("HTTP/1.1 200 OK", ChunkedFields(), data))
  {
    hide Fields, Line, Body, CHUNKED, DecodeChunks;
    ChunkedText(t);
    var rest := "Transfer-Encoding:" + "chunked" + "\r\n" + ("\r\n" + t);
    var first := "Content-Type:" + " text/plain" + "\r\n" + rest;
    StatusIsLine();
    LineOf("HTTP/1.1 200 OK", first);
    EncodingField(t);
    TypeThen(rest);
    assert [Field("Content-Type", "text/plain")] + [Field("Transfer-Encoding", "chunked")] == ChunkedFields();
    BodyOfChunks(t);
  }
}
