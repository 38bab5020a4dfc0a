/** The two rounding helpers both generator variants carry: `alignUp`
    (bit-mask rounding) and `roundUp` (ceiling of a quotient), and the proof
    that for powers of two they agree, so the disk-size cross-check never
    fires. */
module Align {

  function Pow2(k: nat): (r: nat)
    ensures r >= 1
  {
    if k == 0 then 1 else 2 * Pow2(k - 1)
  }

  /** Go's `x &^ m` (AND NOT) on two's-complement integers, for a
      non-negative mask, one bit at a time from the least significant.
      What it removes from x is `x & m`, which lies between 0 and the mask. */
  function AndNot(x: int, m: nat): (r: int)
    ensures 0 <= x - r <= m
    decreases m
  {
    if m == 0 then x
    else 2 * AndNot(x / 2, m / 2) + (if x % 2 == 1 && m % 2 == 0 then 1 else 0)
  }

  /** `alignUp(x, a) = (x + a - 1) &^ (a - 1)`. */
  function AlignUp(x: int, a: int): (r: int)
    requires a >= 1
    ensures x <= r < x + a
  {
    AndNot(x + a - 1, a - 1)
  }

  /** Ceiling of x / d, for the `math.Ceil` of an exact quotient. */
  function CeilDiv(x: int, d: int): (q: int)
    requires d > 0
    ensures (q - 1) * d < x <= q * d
  {
    if x % d == 0 then x / d else x / d + 1
  }

  /** `roundUp(value, nearest) = math.Ceil(value / nearest) * nearest`. */
  function RoundUp(value: int, nearest: int): (r: int)
    requires nearest > 0
    ensures r % nearest == 0
    ensures value <= r < value + nearest
  {
    MulMod(CeilDiv(value, nearest), nearest);
    CeilDiv(value, nearest) * nearest
  }

  lemma MulMod(q: int, d: int)
    requires d > 0
    ensures (q * d) % d == 0
  {
    DivModUnique(q * d, d, q, 0);
  }

  /** Quotient and remainder are unique. */
  lemma DivModUnique(y: int, d: int, t: int, rem: int)
    requires d > 0 && 0 <= rem < d
    requires y == d * t + rem
    ensures y / d == t && y % d == rem
  {
    var q, r := y / d, y % d;
    assert d * (q - t) == rem - r;
    MulSign(d, q - t);
  }

  lemma MulSign(d: int, z: int)
    requires d > 0
    ensures z >= 1 ==> d * z >= d
    ensures z <= -1 ==> d * z <= -d
  {
    if z >= 1 {
      assert d * z == d * (z - 1) + d;
    } else if z <= -1 {
      assert d * z == d * (z + 1) - d;
    }
  }

  /** Clearing the mask `2^k - 1` rounds down to a multiple of `2^k`. */
  lemma {:induction false} AndNotLowBits(y: int, k: nat)
    ensures AndNot(y, Pow2(k) - 1) == y - y % Pow2(k)
    decreases k
  {
    if k == 0 {
      assert y % 1 == 0 by { DivModUnique(y, 1, y, 0); }
    } else {
      var p := Pow2(k - 1);
      AndNotLowBits(y / 2, k - 1);
      AndNotStep(y, p, Pow2(k) - 1);
    }
  }

  /** One bit more: clearing the mask 2p - 1 from y is clearing p - 1 from
      y / 2 and dropping the lowest bit. */
  lemma AndNotStep(y: int, p: nat, m: nat)
    requires p >= 1 && m == 2 * p - 1
    requires AndNot(y / 2, p - 1) == y / 2 - (y / 2) % p
    ensures AndNot(y, m) == y - y % (2 * p)
  {
    OddMask(p, m);
    assert AndNot(y, m) == 2 * AndNot(y / 2, p - 1);
    RemainderHalves(y, p);
  }

  /** The mask 2p - 1 has its lowest bit set, and above it the mask p - 1. */
  lemma OddMask(p: nat, m: nat)
    requires p >= 1 && m == 2 * p - 1
    ensures m % 2 == 1 && m / 2 == p - 1
  {
    DivModUnique(m, 2, p - 1, 1);
  }

  /** The remainder modulo 2p, from the remainder of y / 2 modulo p and the
      lowest bit of y. */
  lemma RemainderHalves(y: int, p: nat)
    requires p >= 1
    ensures y - y % (2 * p) == 2 * (y / 2 - (y / 2) % p)
  {
    var q, r := y / 2, y % 2;
    var t, s := q / p, q % p;
    assert y == 2 * q + r;
    assert q == p * t + s;
    assert y == (2 * p) * t + (2 * s + r);
    DivModUnique(y, 2 * p, t, 2 * s + r);
  }

  /** Rounding `x + a - 1` down to a multiple of a is rounding x up. */
  lemma RoundDownShifted(x: int, a: int)
    requires a > 0
    ensures (x + a - 1) - (x + a - 1) % a == RoundUp(x, a)
  {
    var y := x + a - 1;
    var c := CeilDiv(x, a);
    // c * a is the multiple of a in (y - a, y], so it is y rounded down.
    assert (c - 1) * a < x <= c * a;
    assert c * a - a == (c - 1) * a;
    DivModUnique(y, a, c, y - a * c);
  }

  /** For a power of two, the bit-mask rounding and the ceiling rounding
      agree on every integer, and both give the least multiple not below x. */
  lemma AlignUpIsRoundUp(x: int, k: nat)
    ensures AlignUp(x, Pow2(k)) == RoundUp(x, Pow2(k))
    ensures AlignUp(x, Pow2(k)) % Pow2(k) == 0
    ensures x <= AlignUp(x, Pow2(k)) < x + Pow2(k)
  {
    var a := Pow2(k);
    var y := x + a - 1;
    assert AlignUp(x, a) == AndNot(y, a - 1);
    AndNotLowBits(y, k);
    RoundDownShifted(x, a);
    assert AlignUp(x, a) == RoundUp(x, a);
  }

  lemma AlignUp512(x: int)
    ensures AlignUp(x, 512) == RoundUp(x, 512)
    ensures AlignUp(x, 512) % 512 == 0
    ensures x <= AlignUp(x, 512) < x + 512
  {
    assert Pow2(9) == 512;
    AlignUpIsRoundUp(x, 9);
  }
}
