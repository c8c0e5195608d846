/** The receiver of RFC 1055, page 5, byte values spelled out. */
module Rfc1055 {

  /** The packets on a line, given what was read before: after 219 the next byte stands for another one (220 for 192,
      221 for 219), 192 ends a packet, and empty packets are dropped. */
  function Packets(line: seq<int>, escaped: bool, p: seq<int>): (ps: seq<seq<int>>)
    decreases |line|
  {
    if line == [] then []
    else
      var c, rest := line[0], line[1..];
      if escaped then Packets(rest, false, p + [if c == 220 then 192 else if c == 221 then 219 else c])
      else if c == 192 then (if p == [] then [] else [p]) + Packets(rest, false, [])
      else if c == 219 then Packets(rest, true, p)
      else Packets(rest, false, p + [c])
  }
}
