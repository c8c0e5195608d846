/** A generated response as the fixed list of segments the protocol has to deliver. */
module Response {
  import opened Options
  import opened Http
  import opened HttpClient

  /** One segment: the header kind it is sent with and the handler's bytes in it. */
  datatype Piece = Piece(header: ServiceHeader, content: string)

  function Min(a: nat, b: nat): nat { if a < b then a else b }

  function Bytes(p: Piece): string { Payload(p.header, p.content) }

  function Size(p: Piece): nat { |p.content| + HeadersSize(p.header) }

  /** Chunks of at most m bytes, then the empty chunk. */
  function TailPieces(rest: string, m: nat): (ps: seq<Piece>)
    requires m > 0
    ensures ps != []
    decreases |rest|
  {
    if rest == "" then [Piece(HeaderNone, "")]
    else
      var e := Min(m, |rest|);
      [Piece(HeaderNone, rest[..e])] + TailPieces(rest[e..], m)
  }

  /** The response to a handler that writes `body`, cut into a first segment of at most `first` content bytes and
      others of at most `m`. */
  function Pieces(body: string, first: nat, m: nat): (ps: seq<Piece>)
    requires first > 0 && m > 0
    ensures ps != []
  {
    if |body| <= first then [Piece(HeaderStandard, body)]
    else [Piece(HeaderChunks, body[..first])] + TailPieces(body[first..], m)
  }

  /** The size segment k is cut at. */
  function Limit(first: nat, m: nat, k: nat): nat { if k == 0 then first else m }

  /** The bytes on the wire. */
  function Wire(ps: seq<Piece>): string {
    if ps == [] then "" else Bytes(ps[0]) + Wire(ps[1..])
  }

  /** Wire offset of segment k. */
  function Off(ps: seq<Piece>, k: nat): nat
    requires k <= |ps|
  {
    if k == 0 then 0 else Off(ps, k - 1) + Size(ps[k - 1])
  }

  lemma OffStep(ps: seq<Piece>, k: nat)
    requires k < |ps|
    ensures Off(ps, k + 1) == Off(ps, k) + Size(ps[k])
  {
  }

  /** How many body bytes are in the first k segments. */
  function Pos(ps: seq<Piece>, k: nat): nat
    requires k <= |ps|
  {
    if k == 0 then 0 else Pos(ps, k - 1) + |ps[k - 1].content|
  }

  /** Number of segments the handler has to run for: all but the empty chunk. */
  function DataCount(ps: seq<Piece>): nat
    requires ps != []
  {
    if |ps| == 1 then 1 else |ps| - 1
  }

  lemma {:induction false} OffsetsIncrease(ps: seq<Piece>, i: nat, j: nat)
    requires i <= j <= |ps|
    ensures Off(ps, i) <= Off(ps, j)
    ensures i < j ==> Off(ps, i) < Off(ps, j)
    decreases j
  {
    if i < j { OffsetsIncrease(ps, i, j - 1); }
  }

  lemma {:induction false} PosAfterFirst(p: Piece, ps: seq<Piece>, k: nat)
    requires k <= |ps|
    ensures Pos([p] + ps, k + 1) == |p.content| + Pos(ps, k)
    ensures Off([p] + ps, k + 1) == Size(p) + Off(ps, k)
    decreases k
  {
    if k > 0 {
      PosAfterFirst(p, ps, k - 1);
      assert ([p] + ps)[k] == ps[k - 1];
    } else {
      assert ([p] + ps)[0] == p;
      assert Pos([p] + ps, 0) == 0 && Off([p] + ps, 0) == 0;
    }
  }

  /** Segment k, by position: it holds the body from its position on, as much as fits. */
  ghost predicate PieceIs(ps: seq<Piece>, body: string, m: nat, k: nat)
    requires k < |ps|
  {
    var q := Pos(ps, k);
    && q <= |body| && ps[k].content == body[q..Min(q + m, |body|)]
    && (k + 1 < |ps| ==> q < |body|) && (k + 1 == |ps| && |ps| > 1 ==> q == |body|)
    && (|body| - q <= m <==> k + 1 >= DataCount(ps))
  }

  lemma SliceOfSuffix(s: string, a: nat, x: nat, y: nat)
    requires x <= y && a + y <= |s|
    ensures s[a..][x..y] == s[a + x..a + y]
  {
  }

  lemma PosZero(ps: seq<Piece>)
    ensures Pos(ps, 0) == 0
  {
  }

  lemma {:induction false} TailPieceIs(rest: string, m: nat, k: nat)
    requires m > 0 && k < |TailPieces(rest, m)|
    ensures var ps, q := TailPieces(rest, m), Pos(TailPieces(rest, m), k);
            && ps[k].header == HeaderNone
            && q <= |rest| && ps[k].content == rest[q..Min(q + m, |rest|)]
            && (k + 1 < |ps| ==> q < |rest|) && (k + 1 == |ps| ==> q == |rest|)
            && (|rest| - q <= m <==> k + 2 >= |ps|)
    decreases |rest|
  {
    hide TailPieces, Pos;
    TailSteps(rest, m);
    PosZero(TailPieces(rest, m));
    if rest != "" {
      var e := Min(m, |rest|);
      var p, t := Piece(HeaderNone, rest[..e]), TailPieces(rest[e..], m);
      if k > 0 {
        TailPieceIs(rest[e..], m, k - 1);
        PosAfterFirst(p, t, k - 1);
        var q := Pos(t, k - 1);
        SliceOfSuffix(rest, e, q, Min(q + m, |rest| - e));
      } else {
        TailSteps(rest[e..], m);
      }
    }
  }

  lemma PieceAfterFirst(body: string, first: nat, m: nat, k: nat)
    requires 0 < m && 0 < first < |body| && 0 < k < |Pieces(body, first, m)|
    ensures PieceIs(Pieces(body, first, m), body, m, k) && Pieces(body, first, m)[k].header == HeaderNone
    ensures |Pieces(body, first, m)| > 2
  {
    hide TailPieces, Pos, PieceIs;
    var p, rest := Piece(HeaderChunks, body[..first]), body[first..];
    assert Pieces(body, first, m) == [p] + TailPieces(rest, m);
    hide Pieces;
    TailSteps(rest, m);
    ConsPieceIs(p, body, first, m, k);
  }

  /** Piece k behind a first piece. */
  lemma ConsPieceIs(p: Piece, body: string, first: nat, m: nat, k: nat)
    requires 0 < m && first < |body| && |p.content| == first && 0 < k <= |TailPieces(body[first..], m)|
    requires |TailPieces(body[first..], m)| > 1
    ensures var ps := [p] + TailPieces(body[first..], m); PieceIs(ps, body, m, k) && ps[k].header == HeaderNone
  {
    hide TailPieces, Pos, PieceIs;
    var rest := body[first..];
    var t := TailPieces(rest, m);
    TailPieceIs(rest, m, k - 1);
    PosAfterFirst(p, t, k - 1);
    var q := Pos(t, k - 1);
    SliceOfSuffix(body, first, q, Min(q + m, |rest|));
    PieceIsAt([p] + t, body, m, k);
  }

  lemma PieceIsAt(ps: seq<Piece>, body: string, m: nat, k: nat)
    requires 0 < k < |ps| && |ps| > 2
    requires var q := Pos(ps, k);
             && q <= |body| && ps[k].content == body[q..Min(q + m, |body|)]
             && (k + 1 < |ps| ==> q < |body|) && (k + 1 == |ps| ==> q == |body|)
             && (|body| - q <= m <==> k + 2 >= |ps|)
    ensures PieceIs(ps, body, m, k)
  {
    hide Pos;
  }

  /** Every segment of the response, its header kind included. */
  lemma PieceFacts(body: string, first: nat, m: nat, k: nat)
    requires first > 0 && m > 0 && k < |Pieces(body, first, m)|
    ensures var ps := Pieces(body, first, m);
            && PieceIs(ps, body, Limit(first, m, k), k)
            && ps[k].header == (if k > 0 then HeaderNone else if |ps| == 1 then HeaderStandard else HeaderChunks)
  {
    hide TailPieces, Pos;
    PosZero(Pieces(body, first, m));
    if |body| > first {
      PieceAfterFirst(body, first, m, 1);
      if k > 0 { PieceAfterFirst(body, first, m, k); }
    }
  }

  lemma BytesOf(content: string)
    ensures Bytes(Piece(HeaderNone, content)) == Chunk(content)
    ensures Bytes(Piece(HeaderChunks, content)) == CHUNKED + Chunk(content)
  {
    hide Chunk;
  }

  lemma TailSteps(rest: string, m: nat)
    requires m > 0
    ensures if rest == "" then TailPieces(rest, m) == [Piece(HeaderNone, "")]
            else var e := Min(m, |rest|); TailPieces(rest, m) == [Piece(HeaderNone, rest[..e])] + TailPieces(rest[e..], m)
  {
  }

  /** The chunked tail decodes to the rest of the body, with nothing left over. */
  lemma {:induction false} TailDecodes(rest: string, m: nat)
    requires 0 < m < 65536
    ensures DecodeChunks(Wire(TailPieces(rest, m))) == Some((rest, ""))
    decreases |rest|
  {
    hide DecodeChunks, Chunk, Bytes, TailPieces, Wire;
    TailSteps(rest, m);
    if rest == "" {
      LastChunkDecodes("");
      BytesOf("");
      WireFirst(Piece(HeaderNone, ""), []);
      WireEmpty();
      assert [Piece(HeaderNone, "")] + [] == [Piece(HeaderNone, "")];
    } else {
      var e := Min(m, |rest|);
      TailDecodes(rest[e..], m);
      BytesOf(rest[..e]);
      ChunkDecodes(rest[..e], Wire(TailPieces(rest[e..], m)));
      assert rest[..e] + rest[e..] == rest;
      WireFirst(Piece(HeaderNone, rest[..e]), TailPieces(rest[e..], m));
    }
  }

  lemma WireEmpty()
    ensures Wire([]) == ""
  {
  }

  lemma WireFirst(p: Piece, ps: seq<Piece>)
    ensures Wire([p] + ps) == Bytes(p) + Wire(ps)
  {
    assert ([p] + ps)[1..] == ps;
  }

  lemma PiecesAre(body: string, first: nat, m: nat)
    requires first > 0 && m > 0
    ensures Pieces(body, first, m) == if |body| <= first then [Piece(HeaderStandard, body)]
                                      else [Piece(HeaderChunks, body[..first])] + TailPieces(body[first..], m)
  {
    hide TailPieces;
  }

  lemma ShortReads(body: string)
    requires |body| < 65536
    ensures Read(Wire([Piece(HeaderStandard, body)])) == Some(Message("HTTP/1.1 200 OK", LengthFields(Digits(|body|, 10, 6)), body))
  {
    hide *;
    StandardReads(body);
    var p := Piece(HeaderStandard, body);
    WireFirst(p, []);
    WireEmpty();
    assert [p] + [] == [p];
    BytesArePayload(p);
    assert Wire([p]) == Bytes(p) + Wire([]) == Payload(HeaderStandard, body);
  }

  lemma BytesArePayload(p: Piece)
    ensures Bytes(p) == Payload(p.header, p.content) && Bytes(p) + "" == Bytes(p)
  {
    hide Payload;
  }

  lemma LongReads(begin: string, rest: string, m: nat)
    requires 0 < |begin| < 65536 && 0 < m < 65536
    ensures Read(Wire([Piece(HeaderChunks, begin)] + TailPieces(rest, m)))
              == Some(Message("HTTP/1.1 200 OK", ChunkedFields(), begin + rest))
  {
    hide *;
    var t := TailPieces(rest, m);
    TailDecodes(rest, m);
    ChunkDecodes(begin, Wire(t));
    WireFirst(Piece(HeaderChunks, begin), t);
    BytesOf(begin);
    ChunkedReads(Chunk(begin) + Wire(t), begin + rest);
    assert (CHUNKED + Chunk(begin)) + Wire(t) == CHUNKED + (Chunk(begin) + Wire(t));
  }

  /** The fields that tell the client where the body ends. */
  function FieldsOf(body: string, first: nat): seq<Field> {
    if |body| <= first then LengthFields(Digits(|body|, 10, 6)) else ChunkedFields()
  }

  /** What goes on the wire is one response in which a client finds exactly what the handler wrote: with its
      length if it fits one segment, else chunked and ended by one empty chunk. */
  lemma ResponseReads(body: string, first: nat, m: nat)
    requires 0 < first < 65536 && 0 < m < 65536
    ensures Read(Wire(Pieces(body, first, m))) == Some(Message("HTTP/1.1 200 OK", FieldsOf(body, first), body))
  {
    hide Read, LengthFields, ChunkedFields, Digits, Wire, Pieces, TailPieces;
    PiecesAre(body, first, m);
    if |body| <= first {
      ShortReads(body);
    } else {
      LongReads(body[..first], body[first..], m);
      assert body[..first] + body[first..] == body;
    }
  }

  lemma ResponseDecodes(body: string, first: nat, m: nat)
    requires 0 < first < 65536 && 0 < m < 65536
    ensures Decode(Wire(Pieces(body, first, m))) == Some(body)
  {
    hide *;
    ResponseReads(body, first, m);
    DecodeOf(Wire(Pieces(body, first, m)), FieldsOf(body, first), body);
  }

  /** Exactly one chunk of the response is empty, and it is the last. */
  lemma OneEmptyChunk(body: string, first: nat, m: nat, k: nat)
    requires first > 0 && m > 0 && k < |Pieces(body, first, m)| && |Pieces(body, first, m)| > 1
    ensures Pieces(body, first, m)[k].content == "" <==> k + 1 == |Pieces(body, first, m)|
  {
    PieceFacts(body, first, m, k);
  }

  lemma {:induction false} WireLength(ps: seq<Piece>)
    ensures |Wire(ps)| == Off(ps, |ps|)
    decreases |ps|
  {
    if ps != [] {
      WireLength(ps[1..]);
      PosAfterFirst(ps[0], ps[1..], |ps| - 1);
      assert [ps[0]] + ps[1..] == ps;
      PayloadLength(ps[0].header, ps[0].content);
    }
  }

  /** Segment k occupies its slot of the wire stream. */
  lemma {:induction false} WireSlice(ps: seq<Piece>, k: nat)
    requires k < |ps|
    ensures Off(ps, k) <= Off(ps, k + 1) <= |Wire(ps)|
    ensures Wire(ps)[Off(ps, k)..Off(ps, k + 1)] == Bytes(ps[k])
    decreases |ps|
  {
    hide Bytes, Wire, Off, Size;
    WireFirst(ps[0], ps[1..]);
    OffZero(ps);
    OffZero(ps[1..]);
    WireLength(ps);
    OffsetsIncrease(ps, k + 1, |ps|);
    OffsetsIncrease(ps, k, k + 1);
    BytesLength(ps[0]);
    assert [ps[0]] + ps[1..] == ps;
    PosAfterFirst(ps[0], ps[1..], k);
    if k > 0 {
      WireSlice(ps[1..], k - 1);
      PosAfterFirst(ps[0], ps[1..], k - 1);
      SliceBehind(Bytes(ps[0]), Wire(ps[1..]), Off(ps[1..], k - 1), Off(ps[1..], k));
    } else {
      SliceFront(Bytes(ps[0]), Wire(ps[1..]));
    }
  }

  lemma SliceBehind(x: string, y: string, a: nat, b: nat)
    requires a <= b <= |y|
    ensures (x + y)[|x| + a..|x| + b] == y[a..b]
  {
  }

  lemma SliceFront(x: string, y: string)
    ensures (x + y)[0..|x|] == x
  {
  }

  lemma OffZero(ps: seq<Piece>)
    ensures Off(ps, 0) == 0
  {
  }

  lemma BytesLength(p: Piece)
    ensures |Bytes(p)| == Size(p)
  {
    PayloadLength(p.header, p.content);
  }
}
