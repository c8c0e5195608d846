/** What the other end makes of a segment: the fields of RFC 793 (and of its pseudo header) at their places, and the
    check of the checksum field. */
module TcpPeer {
  import opened OnesComplement
  import opened TcpChecksum
  import opened Options

  function Word(b: Bytes, i: nat): int
    requires i + 1 < |b|
  {
    256 * b[i] + b[i + 1]
  }

  /** The bytes a checksum covers, field by field: addresses, protocol 6 and length of the pseudo header; then source port
      80, destination port, sequence and acknowledgement number, a header of five words and the flags, a window
      of 4096, no checksum yet, no urgent pointer; then the payload. */
  function Read(b: Bytes): Option<(Header, Bytes)> {
    if |b| < 32 then None
    else if b[8] != 0 || b[9] != 6 || Word(b, 10) != |b| - 12 then None
    else if Word(b, 12) != 80 || b[24] != 5 * 16 || Word(b, 26) != 4096 then None
    else if b[28] != 0 || b[29] != 0 || b[30] != 0 || b[31] != 0 then None
    else Some((Header(b[0..4], b[4..8], Word(b, 14), b[16..20], b[20..24], b[25]), b[32..]))
  }

  lemma Layout(a: Bytes, b: Bytes, c: Bytes, d: Bytes, e: Bytes, f: Bytes, g: Bytes, h: Bytes, p: Bytes)
    requires |a| == |b| == |c| == |d| == |e| == |f| == |g| == |h| == 4
    ensures var s := a + b + c + d + e + f + g + h + p;
            && |s| == 32 + |p| && s[0..4] == a && s[4..8] == b && s[16..20] == e && s[20..24] == f && s[32..] == p
            && s[8] == c[0] && s[9] == c[1] && s[10] == c[2] && s[11] == c[3]
            && s[12] == d[0] && s[13] == d[1] && s[14] == d[2] && s[15] == d[3]
            && s[24] == g[0] && s[25] == g[1] && s[26] == g[2] && s[27] == g[3]
            && s[28] == h[0] && s[29] == h[1] && s[30] == h[2] && s[31] == h[3]
  {
  }

  /** Every field is read back from the covered bytes. */
  lemma CoveredReads(h: Header, payload: Bytes)
    requires HeaderOk(h) && |payload| + 20 < 65536
    ensures Read(Covered(h, payload)) == Some((h, payload))
  {
    Layout(h.src, h.dst, [0, 6] + Be16(|payload| + TCP_HEADER_SIZE), Be16(0x0050) + Be16(h.port), h.seqno, h.ack,
           [0x50, h.flags] + Be16(0x1000), Be16(0) + Be16(0), payload);
    CoveredIs(h, payload);
    hide Covered;
  }

  lemma CoveredIs(h: Header, payload: Bytes)
    requires HeaderOk(h)
    ensures Covered(h, payload)
              == h.src + h.dst + ([0, 6] + Be16(|payload| + TCP_HEADER_SIZE)) + (Be16(0x0050) + Be16(h.port)) + h.seqno + h.ack
                 + ([0x50, h.flags] + Be16(0x1000)) + (Be16(0) + Be16(0)) + payload
  {
    hide Be16;
  }

  /** And nothing else reads so. */
  lemma ReadsCovered(b: Bytes)
    requires AreBytes(b) && |b| < 65536 && Read(b).Some?
    ensures var (h, payload) := Read(b).value; HeaderOk(h) && Covered(h, payload) == b
  {
    var (h, payload) := Read(b).value;
    Word16(b, 10); Word16(b, 12); Word16(b, 14); Word16(b, 26);
    var a, c, d := b[0..4], b[4..8], [0, 6] + Be16(|payload| + TCP_HEADER_SIZE);
    assert d == b[8..12] && Be16(0x0050) + Be16(h.port) == b[12..16];
    assert [0x50, h.flags] + Be16(0x1000) == b[24..28] && Be16(0) + Be16(0) == b[28..32];
    hide Be16;
    Cuts(b);
  }

  lemma Word16(b: Bytes, i: nat)
    requires AreBytes(b) && i + 1 < |b|
    ensures 0 <= Word(b, i) < 65536 && Be16(Word(b, i)) == [b[i], b[i + 1]]
  {
  }

  lemma Cuts(b: Bytes)
    requires |b| >= 32
    ensures b[0..4] + b[4..8] + b[8..12] + b[12..16] + b[16..20] + b[20..24] + b[24..28] + b[28..32] + b[32..] == b
  {
  }

  // ----- the checksum field -----

  /** The bytes with the checksum in its field, as they arrive. */
  function WithChecksum(b: Bytes, chk: int): Bytes
    requires |b| >= 32
  {
    b[..28] + [chk / 256, chk % 256] + b[30..]
  }

  /** RFC 1071: the folded sum over everything, the field included, has to be all ones. */
  predicate Accepts(b: Bytes)
  {
    Words(b) >= 0 && Fold(Words(b)) == 0xFFFF
  }

  lemma SumWithChecksum(b: Bytes, chk: int)
    requires |b| >= 32 && b[28] == b[29] == 0 && 0 <= chk < 65536
    ensures Words(WithChecksum(b, chk)) == Words(b) + chk
  {
    var x, y, z := b[..28], b[28..30], b[30..];
    assert b == x + (y + z) && WithChecksum(b, chk) == x + ([chk / 256, chk % 256] + z);
    SumIsWords(b);
    SumIsWords(WithChecksum(b, chk));
    SumSplit(x, y + z, false);
    SumSplit(x, [chk / 256, chk % 256] + z, false);
    SumSplit(y, z, false);
    SumSplit([chk / 256, chk % 256], z, false);
    TwoBytes(y);
    TwoBytes([chk / 256, chk % 256]);
    hide Sum, Words;
  }

  lemma TwoBytes(b: Bytes)
    requires |b| == 2
    ensures Sum(b, false) == 256 * b[0] + b[1]
  {
    assert b[1..][1..] == [];
    assert Sum(b[1..], true) == b[1] + Sum(b[1..][1..], false);
  }

  /** A segment is accepted with exactly the checksum the server sends; 0 and 0xFFFF are the same number. */
  lemma AcceptedIff(h: Header, payload: Bytes, chk: int)
    requires HeaderOk(h) && AreBytes(payload) && |payload| + 20 < 65536 && 0 <= chk < 65536
    ensures var b := Covered(h, payload);
            && |b| >= 32 && Words(b) >= 0
            && (Accepts(WithChecksum(b, chk)) <==> chk == Rfc1071(b) || (Rfc1071(b) == 0 && chk == 0xFFFF))
  {
    var b := Covered(h, payload);
    CoveredReads(h, payload);
    CoveredBytes(h, payload);
    hide Covered;
    SumWithChecksum(b, chk);
    Words12(b);
    var total: nat := Words(b);
    FoldIsNorm(total);
    FoldIsNorm(total + chk);
    hide Words, Fold;
    Complement(total, chk);
  }

  lemma CoveredBytes(h: Header, payload: Bytes)
    requires HeaderOk(h) && AreBytes(payload) && |payload| + 20 < 65536
    ensures AreBytes(Covered(h, payload))
  {
  }

  /** The protocol number alone makes the sum positive. */
  lemma Words12(b: Bytes)
    requires AreBytes(b) && |b| >= 10 && b[9] == 6
    ensures Words(b) > 0
  {
    SumIsWords(b);
    var x, y := b[..8], b[8..];
    assert b == x + y;
    SumSplit(x, y, false);
    SumNonNegative(x, false);
    SumNonNegative(y[2..], false);
    assert y[1..][1..] == y[2..] && y[0] >= 0 && y[1] == 6;
    assert Sum(y, false) == 256 * y[0] + Sum(y[1..], true);
    assert Sum(y[1..], true) == y[1] + Sum(y[1..][1..], false);
  }

  lemma Complement(total: nat, chk: nat)
    requires total > 0 && chk < 65536
    ensures Norm(total + chk) == 0xFFFF <==> chk == 65535 - Norm(total) || (Norm(total) == 65535 && chk == 65535)
  {
  }
}
