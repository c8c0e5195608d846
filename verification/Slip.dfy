/** SLIP framing (RFC 1055) as the host side does it: panManager/plugins/slip/slip.c. */
module Slip {
  import Rfc1055

  type Bytes = seq<int>

  const END := 0xC0
  const ESC := 0xDB
  const ESC_END := 0xDC
  const ESC_ESC := 0xDD

  // ----- sending -----

  function Escape(c: int): Bytes {
    if c == END then [ESC, ESC_END] else if c == ESC then [ESC, ESC_ESC] else [c]
  }

  function Escaped(p: Bytes): Bytes
    decreases |p|
  {
    if p == [] then [] else Escape(p[0]) + Escaped(p[1..])
  }

  function Encode(p: Bytes): Bytes { [END] + Escaped(p) + [END] }

  lemma {:induction false} EscapedSplit(a: Bytes, b: Bytes)
    ensures Escaped(a + b) == Escaped(a) + Escaped(b)
    decreases |a|
  {
    if a == [] {
      assert a + b == b;
    } else {
      assert (a + b)[1..] == a[1..] + b;
      EscapedSplit(a[1..], b);
      assert Escape(a[0]) + (Escaped(a[1..]) + Escaped(b)) == Escape(a[0]) + Escaped(a[1..]) + Escaped(b);
    }
  }

  lemma PeerByte(c: int, rest: Bytes, q: Bytes)
    ensures Rfc1055.Packets(Escape(c) + rest, false, q) == Rfc1055.Packets(rest, false, q + [c])
  {
    var s := Escape(c) + rest;
    if |Escape(c)| == 2 {
      assert s[1..][1..] == rest;
      assert Rfc1055.Packets(s, false, q) == Rfc1055.Packets(s[1..], true, q);
    } else {
      assert s[1..] == rest;
    }
  }

  lemma {:induction false} PeerBytes(p: Bytes, rest: Bytes, q: Bytes)
    ensures Rfc1055.Packets(Escaped(p) + rest, false, q) == Rfc1055.Packets(rest, false, q + p)
    decreases |p|
  {
    hide Escape, Rfc1055.Packets;
    if p == [] {
      assert Escaped(p) + rest == rest && q + p == q;
    } else {
      assert Escaped(p) + rest == Escape(p[0]) + (Escaped(p[1..]) + rest);
      PeerByte(p[0], Escaped(p[1..]) + rest, q);
      PeerBytes(p[1..], rest, q + [p[0]]);
      assert q + [p[0]] + p[1..] == q + p;
    }
  }

  lemma PeerEnd(rest: Bytes, q: Bytes)
    ensures Rfc1055.Packets([END] + rest, false, q) == (if q == [] then [] else [q]) + Rfc1055.Packets(rest, false, [])
  {
    assert ([END] + rest)[1..] == rest;
  }

  /** A receiver of RFC 1055 reads exactly the packet, or nothing if it is empty, whatever comes after. */
  lemma PeerReadsThen(p: Bytes, rest: Bytes)
    ensures Rfc1055.Packets(Encode(p) + rest, false, []) == (if p == [] then [] else [p]) + Rfc1055.Packets(rest, false, [])
  {
    assert Encode(p) + rest == [END] + (Escaped(p) + ([END] + rest));
    hide Encode, Rfc1055.Packets;
    PeerEnd(Escaped(p) + ([END] + rest), []);
    PeerBytes(p, [END] + rest, []);
    assert [] + p == p;
    PeerEnd(rest, p);
  }

  lemma PeerReads(p: Bytes)
    ensures Rfc1055.Packets(Encode(p), false, []) == if p == [] then [] else [p]
  {
    PeerReadsThen(p, []);
    assert Encode(p) + [] == Encode(p);
    assert Rfc1055.Packets([], false, []) == [];
  }

  /** `forward_to_slip`; `line` collects what `writeserial` puts on the serial line. */
  method ForwardToSlip(tbuffer: array<int>, size: nat) returns (line: Bytes)
    requires size <= tbuffer.Length
    ensures line == Encode(tbuffer[..size])
    ensures Rfc1055.Packets(line, false, []) == if size == 0 then [] else [tbuffer[..size]]
  {
    PeerReads(tbuffer[..size]);
    line := [END];
    for i := 0 to size
      invariant line == [END] + Escaped(tbuffer[..i])
    {
      EscapedSplit(tbuffer[..i], [tbuffer[i]]);
      assert tbuffer[..i + 1] == tbuffer[..i] + [tbuffer[i]];
      assert Escaped([tbuffer[i]]) == Escape(tbuffer[i]) by { assert [tbuffer[i]][1..] == []; }
      if tbuffer[i] == END {
        line := line + [ESC];
        line := line + [ESC_END];
      } else if tbuffer[i] == ESC {
        line := line + [ESC];
        line := line + [ESC_ESC];
      } else {
        line := line + [tbuffer[i]];
      }
    }
    line := line + [END];
  }

  // ----- receiving -----

  /** `slip_state`, the bytes before `scurr`, and the packets forwarded so far. */
  datatype Rx = Rx(escaped: bool, buf: Bytes, out: seq<Bytes>)

  function Store(mtu: nat, rx: Rx, c: int): Rx {
    if |rx.buf| < mtu then rx.(buf := rx.buf + [c]) else rx
  }

  /** One byte. An escape stays pending until one of the two escape codes takes it. */
  function Feed(mtu: nat, rx: Rx, c: int): Rx {
    if c == END then
      if rx.buf != [] then rx.(buf := [], out := rx.out + [rx.buf]) else rx
    else if c == ESC then rx.(escaped := true)
    else if c == ESC_END && rx.escaped then Store(mtu, rx.(escaped := false), END)
    else if c == ESC_ESC && rx.escaped then Store(mtu, rx.(escaped := false), ESC)
    else Store(mtu, rx, c)
  }

  function FeedAll(mtu: nat, rx: Rx, s: Bytes): Rx
    decreases |s|
  {
    if s == [] then rx else FeedAll(mtu, Feed(mtu, rx, s[0]), s[1..])
  }

  lemma {:induction false} FeedSplit(mtu: nat, rx: Rx, a: Bytes, b: Bytes)
    ensures FeedAll(mtu, rx, a + b) == FeedAll(mtu, FeedAll(mtu, rx, a), b)
    decreases |a|
  {
    if a == [] {
      assert a + b == b;
    } else {
      assert (a + b)[0] == a[0] && (a + b)[1..] == a[1..] + b;
      FeedSplit(mtu, Feed(mtu, rx, a[0]), a[1..], b);
    }
  }

  lemma FeedOne(mtu: nat, rx: Rx, c: int)
    ensures FeedAll(mtu, rx, [c]) == Feed(mtu, rx, c)
  {
    assert [c][1..] == [];
    assert FeedAll(mtu, Feed(mtu, rx, c), []) == Feed(mtu, rx, c);
  }

  lemma FeedTwo(mtu: nat, rx: Rx, c: int, d: int)
    ensures FeedAll(mtu, rx, [c, d]) == Feed(mtu, Feed(mtu, rx, c), d)
  {
    assert [c, d] == [c] + [d];
    FeedSplit(mtu, rx, [c], [d]);
    FeedOne(mtu, rx, c);
    FeedOne(mtu, Feed(mtu, rx, c), d);
  }

  function Fit(mtu: nat, p: Bytes): Bytes { if |p| <= mtu then p else p[..mtu] }

  /** An escaped byte is stored as itself. */
  lemma FeedEscape(mtu: nat, rx: Rx, c: int)
    requires !rx.escaped
    ensures FeedAll(mtu, rx, Escape(c)) == Store(mtu, rx, c)
  {
    if c == END { FeedTwo(mtu, rx, ESC, ESC_END); } else if c == ESC { FeedTwo(mtu, rx, ESC, ESC_ESC); } else { FeedOne(mtu, rx, c); }
  }

  lemma FitStep(mtu: nat, rx: Rx, p: Bytes)
    requires p != [] && |rx.buf| <= mtu
    ensures Fit(mtu, Store(mtu, rx, p[0]).buf + p[1..]) == Fit(mtu, rx.buf + p)
  {
    if |rx.buf| < mtu {
      assert rx.buf + p == rx.buf + [p[0]] + p[1..];
    } else {
      assert Fit(mtu, rx.buf + p) == rx.buf;
      assert Fit(mtu, rx.buf + p[1..]) == rx.buf;
    }
  }

  lemma {:induction false} FeedEscaped(mtu: nat, rx: Rx, p: Bytes)
    requires !rx.escaped && |rx.buf| <= mtu
    ensures FeedAll(mtu, rx, Escaped(p)) == rx.(buf := Fit(mtu, rx.buf + p))
    decreases |p|
  {
    hide Feed, Escape;
    if p == [] {
      assert rx.buf + p == rx.buf;
    } else {
      FeedSplit(mtu, rx, Escape(p[0]), Escaped(p[1..]));
      FeedEscape(mtu, rx, p[0]);
      FitStep(mtu, rx, p);
      FeedEscaped(mtu, Store(mtu, rx, p[0]), p[1..]);
    }
  }

  /** What an END does to the bytes collected so far. */
  function Flush(buf: Bytes): seq<Bytes> { if buf == [] then [] else [buf] }

  /** One encoded packet: whatever was pending goes out first, then the packet, cut at the buffer size; an empty
      packet leaves no trace. */
  lemma FeedPacket(mtu: nat, rx: Rx, p: Bytes)
    requires !rx.escaped && |rx.buf| <= mtu
    ensures FeedAll(mtu, rx, Encode(p)) == Rx(false, [], rx.out + Flush(rx.buf) + Flush(Fit(mtu, p)))
  {
    FeedSplit(mtu, rx, [END] + Escaped(p), [END]);
    FeedSplit(mtu, rx, [END], Escaped(p));
    FeedOne(mtu, rx, END);
    var cleared := Rx(false, [], rx.out + Flush(rx.buf));
    assert Feed(mtu, rx, END) == cleared;
    FeedEscaped(mtu, cleared, p);
    assert [] + p == p;
    var full := cleared.(buf := Fit(mtu, p));
    FeedOne(mtu, full, END);
  }

  function EncodeAll(ps: seq<Bytes>): Bytes
    decreases |ps|
  {
    if ps == [] then [] else Encode(ps[0]) + EncodeAll(ps[1..])
  }

  /** What arrives of a list of packets. */
  function Received(mtu: nat, ps: seq<Bytes>): seq<Bytes>
    decreases |ps|
  {
    if ps == [] then [] else Flush(Fit(mtu, ps[0])) + Received(mtu, ps[1..])
  }

  lemma AssocPackets(a: seq<Bytes>, b: seq<Bytes>, c: seq<Bytes>)
    ensures a + b + c == a + (b + c) && a + [] == a
  {
  }

  lemma {:induction false} FeedPackets(mtu: nat, out: seq<Bytes>, ps: seq<Bytes>)
    ensures FeedAll(mtu, Rx(false, [], out), EncodeAll(ps)) == Rx(false, [], out + Received(mtu, ps))
    decreases |ps|
  {
    hide Feed, Encode, Fit;
    if ps == [] {
      AssocPackets(out, [], []);
    } else {
      var rx, first := Rx(false, [], out), Flush(Fit(mtu, ps[0]));
      FeedSplit(mtu, rx, Encode(ps[0]), EncodeAll(ps[1..]));
      FeedPacket(mtu, rx, ps[0]);
      AssocPackets(out, [], []);
      FeedPackets(mtu, out + first, ps[1..]);
      AssocPackets(out, first, Received(mtu, ps[1..]));
    }
  }

  lemma {:induction false} ReceivedIsShorter(mtu: nat, ps: seq<Bytes>)
    ensures |Received(mtu, ps)| <= |ps|
    decreases |ps|
  {
    if ps != [] { ReceivedIsShorter(mtu, ps[1..]); }
  }

  lemma {:induction false} ReceivedIsAll(mtu: nat, ps: seq<Bytes>)
    ensures Received(mtu, ps) == ps <==> forall i :: 0 <= i < |ps| ==> 1 <= |ps[i]| <= mtu
    decreases |ps|
  {
    if ps != [] {
      ReceivedIsAll(mtu, ps[1..]);
      ReceivedIsShorter(mtu, ps[1..]);
      var first := Flush(Fit(mtu, ps[0]));
      assert forall i :: 1 <= i < |ps| ==> ps[i] == ps[1..][i - 1];
      if 1 <= |ps[0]| <= mtu {
        assert first == [ps[0]];
        assert ps == [ps[0]] + ps[1..];
        assert (first + Received(mtu, ps[1..]))[1..] == Received(mtu, ps[1..]);
      } else if |first| == 1 {
        assert Received(mtu, ps)[0] == first[0] != ps[0];
      }
    }
  }

  /** The round trip: a fresh reader forwards exactly the packets sent, in order, if and only if every one of them
      has 1 to `mtu` bytes. */
  lemma RoundTrip(mtu: nat, ps: seq<Bytes>)
    ensures FeedAll(mtu, Rx(false, [], []), EncodeAll(ps)) == Rx(false, [], Received(mtu, ps))
    ensures (FeedAll(mtu, Rx(false, [], []), EncodeAll(ps)).out == ps)
              <==> (forall i :: 0 <= i < |ps| ==> 1 <= |ps[i]| <= mtu)
  {
    FeedPackets(mtu, [], ps);
    assert [] + Received(mtu, ps) == Received(mtu, ps);
    ReceivedIsAll(mtu, ps);
  }

  /** And so does any list of packets, in order. */
  lemma {:induction false} PeerReadsAll(ps: seq<Bytes>)
    requires forall i :: 0 <= i < |ps| ==> ps[i] != []
    ensures Rfc1055.Packets(EncodeAll(ps), false, []) == ps
    decreases |ps|
  {
    hide Encode;
    if ps != [] {
      PeerReadsThen(ps[0], EncodeAll(ps[1..]));
      PeerReadsAll(ps[1..]);
      assert [ps[0]] + ps[1..] == ps;
    }
  }

  // ----- after noise -----

  predicate Special(c: int) { c == END || c == ESC || c == ESC_END || c == ESC_ESC }

  /** A pending escape is harmless to a packet whose first special byte is one that gets escaped itself. */
  predicate Harmless(p: Bytes)
    decreases |p|
  {
    p == [] || (if Special(p[0]) then p[0] == END || p[0] == ESC else Harmless(p[1..]))
  }

  lemma Assoc(a: Bytes, c: int, b: Bytes)
    ensures a + ([c] + b) == a + [c] + b
  {
  }

  lemma {:induction false} FeedPending(mtu: nat, rx: Rx, p: Bytes)
    requires rx.escaped && |rx.buf| + |p| <= mtu
    ensures Harmless(p) <==> FeedAll(mtu, rx, Escaped(p)).buf == rx.buf + p
    ensures |FeedAll(mtu, rx, Escaped(p)).buf| == |rx.buf| + |p| && FeedAll(mtu, rx, Escaped(p)).out == rx.out
    decreases |p|
  {
    if p != [] {
      var c := p[0];
      var clear := rx.(escaped := false);
      assert p == [c] + p[1..];
      Assoc(rx.buf, c, p[1..]);
      FeedSplit(mtu, rx, Escape(c), Escaped(p[1..]));
      if c == END || c == ESC {
        FeedTwo(mtu, rx, ESC, if c == END then ESC_END else ESC_ESC);
        FeedEscaped(mtu, clear.(buf := rx.buf + [c]), p[1..]);
      } else if Special(c) {
        FeedOne(mtu, rx, c);
        var wrong := if c == ESC_END then END else ESC;
        FeedEscaped(mtu, clear.(buf := rx.buf + [wrong]), p[1..]);
        assert (rx.buf + [wrong] + p[1..])[|rx.buf|] == wrong;
        assert (rx.buf + p)[|rx.buf|] == c;
      } else {
        FeedOne(mtu, rx, c);
        FeedPending(mtu, rx.(buf := rx.buf + [c]), p[1..]);
      }
    }
  }

  /** After any noise at all, the next packet still gets through exactly when no escape was left pending or the
      packet does not mind. */
  lemma NextPacketAfterNoise(mtu: nat, noise: Bytes, p: Bytes)
    requires 1 <= |p| <= mtu
    ensures var rx := FeedAll(mtu, Rx(false, [], []), noise);
            (FeedAll(mtu, rx, Encode(p)).out == rx.out + Flush(rx.buf) + [p]) <==> (!rx.escaped || Harmless(p))
  {
    BufferFits(mtu, Rx(false, [], []), noise);
    var rx := FeedAll(mtu, Rx(false, [], []), noise);
    if rx.escaped {
      FeedSplit(mtu, rx, [END] + Escaped(p), [END]);
      FeedSplit(mtu, rx, [END], Escaped(p));
      FeedOne(mtu, rx, END);
      var cleared := Rx(true, [], rx.out + Flush(rx.buf));
      assert Feed(mtu, rx, END) == cleared;
      FeedPending(mtu, cleared, p);
      assert [] + p == p;
      var full := FeedAll(mtu, cleared, Escaped(p));
      FeedOne(mtu, full, END);
      assert Feed(mtu, full, END).out == cleared.out + [full.buf];
      assert (cleared.out + [full.buf])[|cleared.out|] == full.buf;
      assert (cleared.out + [p])[|cleared.out|] == p;
    } else {
      FeedPacket(mtu, rx, p);
    }
  }

  lemma {:induction false} BufferFits(mtu: nat, rx: Rx, s: Bytes)
    requires |rx.buf| <= mtu
    ensures |FeedAll(mtu, rx, s).buf| <= mtu
    decreases |s|
  {
    if s != [] { BufferFits(mtu, Feed(mtu, rx, s[0]), s[1..]); }
  }

  // ----- the reader -----

  function Joined(pieces: seq<Bytes>): Bytes
    decreases |pieces|
  {
    if pieces == [] then [] else Joined(pieces[..|pieces| - 1]) + pieces[|pieces| - 1]
  }

  class Reader {
    /** `dbuffer`, one place per byte of the MTU; `count` is `scurr - dbuffer`. */
    const dbuffer: array<int>
    var escaped: bool
    var count: nat
    /** What was handed to `forward_to_tun`. */
    var forwarded: seq<Bytes>

    ghost predicate Valid()
      reads this
    {
      count <= dbuffer.Length
    }

    ghost function View(): Rx
      requires Valid()
      reads this, dbuffer
    {
      Rx(escaped, dbuffer[..count], forwarded)
    }

    constructor (mtu: nat)
      ensures Valid() && fresh(dbuffer) && dbuffer.Length == mtu && View() == Rx(false, [], [])
    {
      dbuffer := new int[mtu];
      escaped, count, forwarded := false, 0, [];
    }

    /** The body of the inner loop. */
    method TakeByte(byte: int)
      requires Valid()
      modifies this, dbuffer
      ensures Valid() && View() == Feed(dbuffer.Length, old(View()), byte)
    {
      var c, isChar, ended := byte, true, false;
      if c == END {
        if count != 0 { ended := true; }
        isChar := false;
      } else if c == ESC {
        escaped := true;
        isChar := false;
      } else if c == ESC_END {
        if escaped { escaped := false; c := END; }
      } else if c == ESC_ESC {
        if escaped { escaped := false; c := ESC; }
      }
      if isChar && count < dbuffer.Length {
        dbuffer[count] := c;
        count := count + 1;
      }
      if ended {
        forwarded := forwarded + [dbuffer[..count]];
        count := 0;
      }
    }

    /** `read_from_slip`: however the line was cut into reads, the state is that of the bytes in a row. */
    method ReadFromSlip(pieces: seq<Bytes>)
      requires Valid()
      modifies this, dbuffer
      ensures Valid() && View() == FeedAll(dbuffer.Length, old(View()), Joined(pieces))
    {
      ghost var start := View();
      for r := 0 to |pieces|
        invariant Valid() && View() == FeedAll(dbuffer.Length, start, Joined(pieces[..r]))
      {
        var tmpBuff := pieces[r];
        ghost var before := Joined(pieces[..r]);
        assert pieces[..r + 1][..r] == pieces[..r];
        assert before + tmpBuff[..0] == before;
        for i := 0 to |tmpBuff|
          invariant Valid() && View() == FeedAll(dbuffer.Length, start, before + tmpBuff[..i])
        {
          assert before + tmpBuff[..i + 1] == (before + tmpBuff[..i]) + [tmpBuff[i]];
          FeedSplit(dbuffer.Length, start, before + tmpBuff[..i], [tmpBuff[i]]);
          FeedOne(dbuffer.Length, View(), tmpBuff[i]);
          TakeByte(tmpBuff[i]);
        }
        assert tmpBuff[..|tmpBuff|] == tmpBuff;
      }
      assert pieces[..|pieces|] == pieces;
    }
  }
}
