/** C++ division, powers of two, and division facts that the solver needs spelled out. */
module Numbers {

  type positive = n: nat | n > 0 witness 1

  /** C++ division rounds towards zero. */
  function Quotient(a: int, b: int): int
    requires b != 0
  {
    if a >= 0 then a / b else -(-a / b)
  }

  function Remainder(a: int, b: int): int
    requires b != 0
  {
    a - b * Quotient(a, b)
  }

  function Pow2(n: nat): (p: nat)
    ensures p > 0
  {
    if n == 0 then 1 else 2 * Pow2(n - 1)
  }

  /** Bit `i` of an integer in two's complement. */
  predicate Digit(n: int, i: nat)
    decreases i
  {
    if i == 0 then n % 2 == 1 else Digit(n / 2, i - 1)
  }

  /** The low `k` bits of two integers, combined bit by bit. */
  function Bitwise(op: (bool, bool) -> bool, a: int, b: int, k: nat): nat
    decreases k
  {
    if k == 0 then 0 else (if op(a % 2 == 1, b % 2 == 1) then 1 else 0) + 2 * Bitwise(op, a / 2, b / 2, k - 1)
  }

  lemma {:induction false} BitwiseDigit(op: (bool, bool) -> bool, a: int, b: int, k: nat, i: nat)
    requires i < k
    ensures Digit(Bitwise(op, a, b, k), i) <==> op(Digit(a, i), Digit(b, i))
    decreases k
  {
    if i > 0 {
      BitwiseDigit(op, a / 2, b / 2, k - 1, i - 1);
    }
  }

  /** Multiples of a higher power leave the low bits alone. */
  lemma {:induction false} DigitBelow(n: int, m: int, k: nat, i: nat)
    requires i < k
    ensures Digit(n + m * Pow2(k), i) <==> Digit(n, i)
    decreases k
  {
    var x := m * Pow2(k - 1);
    assert m * Pow2(k) == 2 * x;
    assert (n + 2 * x) / 2 == n / 2 + x;
    if i > 0 {
      DigitBelow(n / 2, m, k - 1, i - 1);
    }
  }

  lemma MulGrows(d: int, k: int)
    requires d > 0
    ensures k >= 1 ==> d * k >= d
    ensures k <= -1 ==> d * k <= -d
  {
  }

  lemma DivModUnique(a: int, d: int, q: int, r: int)
    requires d > 0 && a == d * q + r && 0 <= r < d
    ensures a / d == q && a % d == r
  {
    var k := a / d - q;
    assert d * k == r - a % d;
    MulGrows(d, k);
  }
}
