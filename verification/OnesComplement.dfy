/** The incremental Internet checksum of core/checksum.inl, and RFC 1071, which it has to agree with. */
module OnesComplement {

  type Bytes = seq<int>

  ghost predicate AreBytes(b: Bytes) { forall i :: 0 <= i < |b| ==> 0 <= b[i] < 256 }

  // ----- RFC 1071, section 1 -----

  /** The sum of the big-endian 16-bit words, an odd last byte padded with zero. */
  function Words(b: Bytes): int {
    if |b| == 0 then 0
    else if |b| == 1 then 256 * b[0]
    else 256 * b[0] + b[1] + Words(b[2..])
  }

  /** End-around carry until the sum fits 16 bits. */
  function Fold(n: nat): nat {
    if n < 65536 then n else Fold(n % 65536 + n / 65536)
  }

  /** The Internet checksum: the complement of the folded sum. */
  function Rfc1071(b: Bytes): int
    requires Words(b) >= 0
  {
    65535 - Fold(Words(b))
  }

  /** The 16-bit representative of a one's-complement sum: zero only for zero. */
  function Norm(n: nat): nat {
    if n == 0 then 0 else if n % 65535 == 0 then 65535 else n % 65535
  }

  lemma {:induction false} FoldIsNorm(n: nat)
    ensures Fold(n) == Norm(n)
  {
    if n >= 65536 {
      var m := n % 65536 + n / 65536;
      assert n - m == 65535 * (n / 65536);
      SameResidue(m, n, n / 65536);
      FoldIsNorm(m);
    }
  }

  lemma SameResidue(a: nat, b: nat, k: nat)
    requires b == a + 65535 * k
    ensures a % 65535 == b % 65535
  {
  }

  /** Equal up to multiples of 65535, and zero together: the same one's-complement number. */
  ghost predicate Same(a: nat, b: nat) { Norm(a) == Norm(b) }

  lemma SameByShift(a: nat, b: nat, k: nat)
    requires b == a + 65535 * k && (a == 0 ==> b == 0)
    ensures Same(a, b)
  {
    SameResidue(a, b, k);
  }

  lemma {:induction false} ModAdd(a: nat, b: nat, n: nat)
    requires a % 65535 == b % 65535
    ensures (a + n) % 65535 == (b + n) % 65535
  {
    var x, y := a / 65535, b / 65535;
    assert a - b == 65535 * (x - y);
    if a >= b { SameResidue(b + n, a + n, x - y); } else { SameResidue(a + n, b + n, y - x); }
  }

  lemma SameMod(a: nat, b: nat)
    requires Same(a, b)
    ensures a % 65535 == b % 65535 && (a == 0 <==> b == 0)
  {
  }

  lemma SameFromMod(a: nat, b: nat)
    requires a % 65535 == b % 65535 && (a == 0 <==> b == 0)
    ensures Same(a, b)
  {
  }

  /** Adding the same amount on both sides. */
  lemma SameAdd(a: nat, b: nat, n: nat)
    requires Same(a, b)
    ensures Same(a + n, b + n)
  {
    SameMod(a, b);
    ModAdd(a, b, n);
    SameFromMod(a + n, b + n);
  }

  lemma NormIsSame(a: nat)
    ensures Same(Norm(a), a) && Norm(a) < 65536
  {
  }

  // ----- the weight of bytes by position -----

  function Weight(odd: bool): nat { if odd then 1 else 256 }

  /** The sum of bytes that start at an even or odd position. */
  function Sum(b: Bytes, odd: bool): int {
    if b == [] then 0 else Weight(odd) * b[0] + Sum(b[1..], !odd)
  }

  predicate OddAfter(odd: bool, n: nat) { if n % 2 == 0 then odd else !odd }

  lemma {:induction false} SumIsWords(b: Bytes)
    ensures Sum(b, false) == Words(b)
    decreases |b|
  {
    if |b| >= 2 {
      assert b[1..][1..] == b[2..];
      SumIsWords(b[2..]);
    } else if |b| == 1 {
      assert b[1..] == [];
    }
  }

  lemma {:induction false} SumNonNegative(b: Bytes, odd: bool)
    requires AreBytes(b)
    ensures Sum(b, odd) >= 0
  {
    if b != [] { SumNonNegative(b[1..], !odd); }
  }

  lemma {:induction false} SumSplit(a: Bytes, b: Bytes, odd: bool)
    ensures Sum(a + b, odd) == Sum(a, odd) + Sum(b, OddAfter(odd, |a|))
    decreases |a|
  {
    if a == [] {
      assert a + b == b;
    } else {
      assert (a + b)[1..] == a[1..] + b;
      SumSplit(a[1..], b, !odd);
    }
  }

  // ----- the incremental checksum -----

  class Checksum {
    /** `current_checksum[S0]`, `current_checksum[S1]`, `checksum_carry`, and `checksum_flip` at S1. */
    var high: nat
    var low: nat
    var carry: nat
    var odd: bool

    ghost predicate Valid()
      reads this
    {
      high < 256 && low < 256 && carry <= 2
    }

    /** The number the state stands for: the pending carry goes to the byte added next. */
    function Value(): nat
      reads this
    {
      256 * high + low + carry * Weight(odd)
    }

    /** `checksum_init`. */
    constructor ()
      ensures Valid() && Value() == 0 && !odd
    {
      high, low, carry, odd := 0, 0, 0, false;
    }

    /** `checksum_init` followed by a constant put in `current_checksum`. */
    constructor From(value: nat)
      requires value < 65536
      ensures Valid() && Value() == value && !odd
    {
      high, low, carry, odd := value / 256, value % 256, 0, false;
    }

    /** `checksum_add`. */
    method Add(val: int)
      requires Valid() && 0 <= val < 256
      modifies this
      ensures Valid() && odd == !old(odd)
      ensures Value() + (if old(odd) then 0 else 65535 * carry) == old(Value()) + val * Weight(old(odd))
      ensures Same(Value(), old(Value()) + val * Weight(old(odd)))
    {
      ghost var before := Value();
      if odd {
        var tmp := low + val + carry;
        low := tmp % 256;
        carry := tmp / 256;
      } else {
        var tmp := high + val + carry;
        high := tmp % 256;
        carry := tmp / 256;
      }
      odd := !odd;
      SameByShift(Value(), before + val * Weight(old(odd)), if old(odd) then 0 else carry);
    }

    /** `checksum_add16`, at even alignment. */
    method Add16(val: int)
      requires Valid() && !odd && 0 <= val < 65536
      modifies this
      ensures Valid() && !odd && Same(Value(), old(Value()) + val)
    {
      ghost var before := Value();
      var tmp := high + val / 256 + carry;
      high := tmp % 256;
      carry := tmp / 256;
      ghost var k := carry;
      tmp := low + val % 256 + carry;
      low := tmp % 256;
      carry := tmp / 256;
      SameByShift(Value(), before + val, k);
    }

    /** `checksum_add32`, at even alignment, the four bytes in network order. */
    method Add32(val: Bytes)
      requires Valid() && !odd && |val| == 4 && AreBytes(val)
      modifies this
      ensures Valid() && !odd && Sum(val, false) >= 0 && Same(Value(), old(Value()) + Sum(val, false))
    {
      ghost var before := Value();
      SumOfFour(val);
      var tmp := high + val[0] + val[2] + carry;
      high := tmp % 256;
      carry := tmp / 256;
      ghost var k := carry;
      tmp := low + val[1] + val[3] + carry;
      low := tmp % 256;
      carry := tmp / 256;
      SameByShift(Value(), before + Sum(val, false), k);
    }

    /** `checksum_end`: let the carry run out. The result is the folded sum itself. */
    method End()
      requires Valid()
      modifies this
      ensures Valid() && carry == 0 && Value() == Norm(old(Value())) == 256 * high + low
    {
      while carry != 0
        invariant Valid() && Same(Value(), old(Value()))
        decreases if carry == 0 then 0 else 1, Value(), if odd then 1 else 0
      {
        Add(0);
      }
      assert Norm(Value()) == Value();
    }
  }

  lemma SumOfFour(val: Bytes)
    requires |val| == 4
    ensures Sum(val, false) == 256 * (val[0] + val[2]) + val[1] + val[3]
  {
    assert val[1..][1..] == val[2..] && val[2..][1..] == val[3..] && val[3..][1..] == [];
    assert Sum(val[3..], true) == val[3];
    assert Sum(val[2..], false) == 256 * val[2] + val[3];
    assert Sum(val[1..], true) == val[1] + 256 * val[2] + val[3];
  }
}
