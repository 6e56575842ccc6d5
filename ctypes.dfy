/**
 * C machine arithmetic used by the composer: unsigned 32-bit wrap-around,
 * division rounding toward zero, the DIV_ROUND_UP and ALIGN macros, and the
 * optional-pointer wrapper; with the facts about products and quotients
 * the proofs rely on.
 */
module CTypes {

  const U32_LIMIT: int := 0x1_0000_0000

  /** uint32_t */
  type u32 = x: int | 0 <= x < U32_LIMIT

  datatype Option<T> = None | Some(value: T)

  /** Conversion of a mathematical integer to uint32_t (reduction modulo 2^32). */
  function Wrap32(x: int): u32
  {
    x % U32_LIMIT
  }

  /** The conversion is exact below 2^32, never increases a non-negative value, and keeps the residue modulo 2^32. */
  lemma Wrap32Facts(x: int)
    ensures 0 <= x < U32_LIMIT ==> Wrap32(x) == x
    ensures 0 <= x ==> Wrap32(x) <= x
    ensures (Wrap32(x) - x) % U32_LIMIT == 0
  {
  }

  /** uint32_t multiplication: never above the exact product, equal to it when it fits. */
  function Mul32(a: u32, b: u32): (r: u32)
    ensures r <= a * b
    ensures a * b < U32_LIMIT ==> r == a * b
  {
    var p := a * b;
    assert 0 <= p;
    Wrap32Facts(p);
    Wrap32(p)
  }

  function Add32(a: u32, b: u32): (r: u32)
    ensures a + b < U32_LIMIT ==> r == a + b
    ensures a + b >= U32_LIMIT ==> r == a + b - U32_LIMIT
  {
    Wrap32Facts(a + b);
    Wrap32(a + b)
  }

  function Sub32(a: u32, b: u32): (r: u32)
    ensures b <= a ==> r == a - b
    ensures a < b ==> r == a - b + U32_LIMIT
  {
    Wrap32Facts(a - b);
    Wrap32(a - b)
  }

  function Min(a: int, b: int): (r: int)
    ensures r <= a && r <= b && (r == a || r == b)
  {
    if a < b then a else b
  }

  function Max(a: int, b: int): (r: int)
    ensures r >= a && r >= b && (r == a || r == b)
  {
    if a > b then a else b
  }

  function Abs(a: int): (r: nat)
    ensures r == a || r == -a
  {
    if a < 0 then -a else a
  }

  /** C integer division on signed operands: the quotient is rounded toward zero. */
  function CDiv(a: int, b: int): (q: int)
    requires b != 0
    ensures b > 0 && a >= 0 ==> q == a / b
    ensures b > 0 && a < 0 ==> q == -((-a) / b)
  {
    var m := Abs(a) / Abs(b);
    if (a < 0) != (b < 0) then -m else m
  }

  /** DIV_ROUND_UP(n, d) on uint32_t operands: ((n) + (d) - 1) / (d), the sum wrapping. */
  function DivRoundUp32(n: u32, d: u32): (r: u32)
    requires d != 0
    ensures n + d - 1 < U32_LIMIT ==> r * d >= n && (r - 1) * d < n
  {
    var s := n + d - 1;
    if s < U32_LIMIT then
      assert Wrap32(s) == s;
      DivRoundUpBounds(n, d);
      Wrap32(s) / d
    else
      Wrap32(s) / d
  }

  /** x is m * d for some natural m. */
  ghost predicate IsMultipleOf(x: int, d: int)
  {
    exists m: nat :: x == m * d
  }

  /** x / d * d: the largest multiple of d at or below x (as uint32_t it cannot wrap, being at most x). */
  function RoundDown(x: nat, d: nat): (r: nat)
    requires d > 0
    ensures r <= x < r + d
    ensures IsMultipleOf(r, d)
  {
    var q := x / d;
    assert x == q * d + x % d;
    q * d
  }

  /** The exact quotient (n + d - 1) / d is the least q with q * d >= n. */
  lemma DivRoundUpBounds(n: nat, d: nat)
    requires d > 0
    ensures var q := (n + d - 1) / d; q * d >= n && (q - 1) * d < n
  {
    var q := (n + d - 1) / d;
    var m := (n + d - 1) % d;
    assert n + d - 1 == q * d + m;
    assert (q - 1) * d == q * d - d;
  }

  // ---- facts on products and quotients the solver does not find unaided ----

  lemma MulNonneg(x: nat, y: nat)
    ensures x * y >= 0
  {}

  /** The quotient of a by d is the q with q * d <= a < (q + 1) * d. */
  lemma QuotientBounds(a: nat, d: nat)
    requires d > 0
    ensures (a / d) * d <= a < (a / d + 1) * d
  {
    var q := a / d;
    assert a == d * q + a % d;
    assert (q + 1) * d == q * d + d;
  }

  lemma QuotientNoMore(a: nat, d: nat)
    requires d > 0
    ensures 0 <= a / d <= a
  {
    var q := a / d;
    MulNonneg(d - 1, q);
    assert d * q == (d - 1) * q + q;
  }

  lemma QuotientAtMost(a: nat, d: nat, c: nat)
    requires d > 0 && a <= c * d
    ensures a / d <= c
  {
    var q := a / d;
    QuotientBounds(a, d);
    if q > c {
      MulNonneg(q - c - 1, d);
    }
  }

  lemma QuotientBelow(a: nat, d: nat, c: nat)
    requires d > 0 && a < c * d
    ensures a / d < c
  {
    var q := a / d;
    QuotientBounds(a, d);
    if q >= c {
      MulNonneg(q - c, d);
    }
  }

  /** Dividing a multiple of d by d gives the factor back. */
  lemma QuotientOfMultiple(x: nat, d: nat)
    requires d > 0
    ensures (x * d) / d == x
  {
    QuotientBounds(x * d, d);
  }

  /** ALIGN(x, 32): the least multiple of 32 at or above x. */
  function Align32(x: int): (r: int)
    ensures r % 32 == 0 && x <= r < x + 32
  {
    ((x + 31) / 32) * 32
  }
}
