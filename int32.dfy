/** Two's-complement 32-bit integer arithmetic, the meaning of LLVM's `i32`
    instructions `add`, `sub`, `mul` and `sdiv`. */
module Int32 {
  import opened Wrappers

  const Modulus: int := 0x1_0000_0000
  const Min: int := -0x8000_0000
  const Max: int := 0x7FFF_FFFF

  predicate InRange(x: int) {
    Min <= x <= Max
  }

  /** The values an `i32` can hold. */
  type I32 = x: int | -0x8000_0000 <= x <= 0x7FFF_FFFF

  function Abs(x: int): int {
    if x < 0 then -x else x
  }

  /** Reduction of an integer to 32 bits: the unique `i32` congruent to `x`
      modulo 2^32 (the wrap-around of `add`, `sub` and `mul`). */
  function Wrap(x: int): (r: I32)
    ensures (x - r) % Modulus == 0
    ensures InRange(x) ==> r == x
  {
    var m := x % Modulus;
    if m <= Max then m else m - Modulus
  }

  /** The two ensures clauses of Wrap determine its result. */
  lemma WrapUnique(x: int, y: int)
    requires InRange(y) && (x - y) % Modulus == 0
    ensures Wrap(x) == y
  {
    var r := Wrap(x);
    var d := r - y;
    assert (x - y) - (x - r) == d;
    assert d % Modulus == 0 by {
      ModDifference(x - y, x - r);
    }
    assert -Modulus < d < Modulus;
  }

  lemma ModDifference(a: int, b: int)
    requires a % Modulus == 0 && b % Modulus == 0
    ensures (a - b) % Modulus == 0
  {
    var qa, qb := a / Modulus, b / Modulus;
    assert a == qa * Modulus;
    assert b == qb * Modulus;
    assert a - b == (qa - qb) * Modulus;
  }

  /** Signed division rounding toward zero (C's `/`, LLVM's `sdiv`): the
      remainder has the sign of the dividend and is smaller than the divisor. */
  function Quot(a: int, b: int): (q: int)
    requires b != 0
    ensures a >= 0 ==> 0 <= a - q * b < Abs(b)
    ensures a < 0 ==> -Abs(b) < a - q * b <= 0
    ensures Abs(q) * Abs(b) <= Abs(a)
  {
    var q0: int := Abs(a) / Abs(b);
    var p: int := q0 * Abs(b);
    NatDivision(Abs(a), Abs(b));
    var q: int := if (a < 0) == (b < 0) then q0 else -q0;
    SignedProduct(a, b, q0, q);
    assert q * b == (if a < 0 then -p else p);
    assert Abs(q) * Abs(b) == p;
    q
  }

  lemma NatDivision(n: nat, d: nat)
    requires d > 0
    ensures 0 <= n - (n / d) * d < d
  {
  }

  lemma SignedProduct(a: int, b: int, q0: int, q: int)
    requires b != 0 && q0 >= 0
    requires q == if (a < 0) == (b < 0) then q0 else -q0
    ensures q * b == if a < 0 then -(q0 * Abs(b)) else q0 * Abs(b)
    ensures Abs(q) * Abs(b) == q0 * Abs(b)
  {
    if b < 0 {
      assert q0 * b == -(q0 * Abs(b));
      assert -q0 * b == q0 * Abs(b);
    } else {
      assert -q0 * b == -(q0 * Abs(b));
    }
  }

  lemma MulMonotonic(x: nat, y: nat, z: nat)
    requires y <= z
    ensures x * y <= x * z
  {
    assert x * z - x * y == x * (z - y);
  }

  /** `sdiv` is defined exactly when the divisor is nonzero and the quotient
      is representable: only INT_MIN / -1 overflows. */
  predicate DivDefined(a: I32, b: I32) {
    b != 0 && !(a == Min && b == -1)
  }

  lemma QuotFits(a: I32, b: I32)
    requires b != 0
    ensures InRange(Quot(a, b)) <==> DivDefined(a, b)
  {
    var q := Quot(a, b);
    assert Abs(a) <= 0x8000_0000;
    if Abs(b) >= 2 {
      MulMonotonic(Abs(q), 2, Abs(b));
      assert Abs(q) <= 0x4000_0000;
    } else if b == 1 {
      QuotByOne(a, q);
    } else {
      QuotByMinusOne(a, q);
    }
  }

  lemma QuotByOne(a: int, q: int)
    requires q == Quot(a, 1)
    ensures q == a
  {
    assert q * 1 == q;
  }

  lemma QuotByMinusOne(a: int, q: int)
    requires q == Quot(a, -1)
    ensures q == -a
  {
    assert q * -1 == -q;
  }

  function Add(a: I32, b: I32): (r: I32)
    ensures (a + b - r) % Modulus == 0
  {
    Wrap(a + b)
  }

  function Sub(a: I32, b: I32): (r: I32)
    ensures (a - b - r) % Modulus == 0
  {
    Wrap(a - b)
  }

  function Mul(a: I32, b: I32): (r: I32)
    ensures (a * b - r) % Modulus == 0
  {
    Wrap(a * b)
  }

  /** `sdiv`: the truncated quotient, or None where LLVM leaves it undefined. */
  function Div(a: I32, b: I32): (r: Option<I32>)
    ensures r.Some? <==> DivDefined(a, b)
    ensures r.Some? ==> r.value == Quot(a, b)
  {
    if b == 0 || (a == Min && b == -1) then None
    else
      QuotFits(a, b);
      Some(Quot(a, b))
  }
}
