/** JavaScript's bitwise operators on the non-negative numbers the machine holds,
    written bit by bit over unbounded naturals. */
module Bits {

  import Arithmetic

  function Pow2(n: nat): (r: nat)
    ensures r >= 1
  {
    if n == 0 then 1 else 2 * Pow2(n - 1)
  }

  lemma Pow2Fifteen()
    ensures Pow2(15) == 32768
  {
    assert Pow2(5) == 32;
    assert Pow2(10) == 1024;
  }

  /** `a & b`: bit k of the result is set iff bit k is set in both. */
  function And(a: nat, b: nat): (r: nat)
    ensures r <= a && r <= b
  {
    if a == 0 || b == 0 then 0 else 2 * And(a / 2, b / 2) + (a % 2) * (b % 2)
  }

  /** `a | b`: bit k of the result is set iff bit k is set in either. */
  function Or(a: nat, b: nat): (r: nat)
    ensures a <= r && b <= r && r <= a + b
  {
    if a == 0 then b
    else if b == 0 then a
    else 2 * Or(a / 2, b / 2) + (if a % 2 == 1 || b % 2 == 1 then 1 else 0)
  }

  /** `~b & (2^width - 1)`: the low `width` bits of the complement of `b`.
      Two's complement wrap-around of `~` never reaches these bits. */
  function LowNot(b: nat, width: nat): (r: nat)
    ensures r < Pow2(width)
  {
    if width == 0 then 0 else 2 * LowNot(b / 2, width - 1) + (1 - b % 2)
  }

  /** `a | b` of two `width`-bit values is a `width`-bit value. */
  lemma {:induction false} OrBound(a: nat, b: nat, width: nat)
    requires a < Pow2(width) && b < Pow2(width)
    ensures Or(a, b) < Pow2(width)
  {
    if a != 0 && b != 0 {
      OrBound(a / 2, b / 2, width - 1);
    }
  }

  /** The low bits of the complement of `b` are the largest `width`-bit value minus
      the low bits of `b`. */
  lemma {:induction false} LowNotIsComplement(b: nat, width: nat)
    ensures LowNot(b, width) == Pow2(width) - 1 - b % Pow2(width)
  {
    if width > 0 {
      LowNotIsComplement(b / 2, width - 1);
      var p := Pow2(width - 1);
      // the low `width` bits of b are bit 0 plus twice the low `width - 1` bits of b / 2
      assert b % Pow2(width) == 2 * ((b / 2) % p) + b % 2 by {
        Arithmetic.DivModSplit(b, 2, p);
      }
    }
  }

  /** Complementing the low bits twice restores them. */
  lemma LowNotInvolutive(b: nat, width: nat)
    requires b < Pow2(width)
    ensures LowNot(LowNot(b, width), width) == b
  {
    var p := Pow2(width);
    var c := LowNot(b, width);
    LowNotIsComplement(b, width);
    Arithmetic.DivModUnique(b, p, 0, b);
    assert c == p - 1 - b;
    LowNotIsComplement(c, width);
    Arithmetic.DivModUnique(c, p, 0, c);
  }
}
