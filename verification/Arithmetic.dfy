/** PerformBinaryOperationOn over 32-bit C++ integers. */
module Arithmetic {
  import opened Bytecode
  import opened Numbers

  /** Throws: the source raises an Error. Undefined: C++ gives the operation no meaning. */
  datatype Checked<+T> = Value(value: T) | Throws | Undefined {
    predicate IsFailure() { !Value? }

    function PropagateFailure<U>(): Checked<U>
      requires IsFailure()
    {
      if Throws? then Throws else Undefined
    }

    function Extract(): T
      requires !IsFailure()
    {
      value
    }
  }

  /** Signed overflow is undefined. */
  function Exact(v: int): Checked<int32> {
    if -0x8000_0000 <= v < 0x8000_0000 then Value(v) else Undefined
  }

  /** The value of the low 32 bits of `v` in two's complement. */
  function Wrapped(v: int): int32 {
    var low := v % 0x1_0000_0000;
    if low < 0x8000_0000 then low else low - 0x1_0000_0000
  }

  function Truth(b: bool): Checked<int32> {
    Value(if b then 1 else 0)
  }

  /** An arithmetic operator and the compound assignment that uses it differ by 20. */
  function PerformBinaryOperationOn(operation: int, lhs: int32, rhs: int32): Checked<int32> {
    var arithmetic := if 20 <= operation <= 29 then operation - 20 else operation;
    match arithmetic
    case 0 => Exact(lhs + rhs)
    case 1 => Exact(lhs - rhs)
    case 2 => Exact(lhs * rhs)
    case 3 => if rhs == 0 then Value(lhs) else Exact(Quotient(lhs, rhs))
    case 4 =>
      if rhs == 0 then Value(lhs)
      else if lhs == -0x8000_0000 && rhs == -1 then Undefined
      else Exact(Remainder(lhs, rhs))
    case 5 => Value(Wrapped(Bitwise((x, y) => x && y, lhs, rhs, 32)))
    case 6 => Value(Wrapped(Bitwise((x, y) => x || y, lhs, rhs, 32)))
    case 7 => Value(Wrapped(Bitwise((x, y) => x != y, lhs, rhs, 32)))
    case 8 => if 0 <= rhs < 32 then Value(Wrapped(lhs * Pow2(rhs))) else Undefined
    case 9 => if 0 <= rhs < 32 then Exact(lhs / Pow2(rhs)) else Undefined
    case 40 => Truth(lhs == rhs)
    case 41 => Truth(lhs != rhs)
    case 42 => Truth(lhs <= rhs)
    case 43 => Truth(lhs < rhs)
    case 44 => Truth(lhs >= rhs)
    case 45 => Truth(lhs > rhs)
    case 60 => Truth(lhs != 0 && rhs != 0)
    case 61 => Truth(lhs != 0 || rhs != 0)
    case _ => Throws
  }

  function PerformUnaryOperationOn(operation: int, operand: int32): Checked<int32> {
    if operation == 1 then Exact(0 - operand) else Value(operand)
  }

  /** Division and remainder fit together, and the remainder has the sign of the dividend: this determines both. */
  lemma DivisionTruncates(lhs: int32, rhs: int32)
    requires rhs != 0 && !(lhs == -0x8000_0000 && rhs == -1)
    ensures PerformBinaryOperationOn(3, lhs, rhs).Value? && PerformBinaryOperationOn(4, lhs, rhs).Value?
    ensures var q := PerformBinaryOperationOn(3, lhs, rhs).value;
            var r := PerformBinaryOperationOn(4, lhs, rhs).value;
            lhs == rhs * q + r && (if rhs > 0 then -rhs < r < rhs else rhs < r < 0 - rhs) &&
            (lhs >= 0 ==> r >= 0) && (lhs <= 0 ==> r <= 0)
  {
    QuotientFacts(lhs, rhs);
  }

  lemma QuotientFacts(a: int, b: int)
    requires b != 0
    ensures var q := Quotient(a, b);
            var r := a - b * q;
            (if b > 0 then -b < r < b else b < r < -b) && (a >= 0 ==> r >= 0) && (a <= 0 ==> r <= 0) &&
            (if a >= 0 then -a <= q <= a else a <= q <= -a) && (b == -1 ==> q == -a)
  {
    var n := if a >= 0 then a else -a;
    EuclidFacts(n, b);
    var q := n / b;
    assert Quotient(a, b) == if a >= 0 then q else -q;
    assert b * (-q) == -(b * q);
  }

  lemma EuclidFacts(n: int, b: int)
    requires n >= 0 && b != 0
    ensures var q := n / b;
            var r := n - b * q;
            0 <= r <= n && r < (if b > 0 then b else -b) && -n <= q <= n && (b == -1 ==> q == -n)
  {
    var q := n / b;
    var r := n - b * q;
    assert r == n % b;
    if b > 0 {
      FactorsOf(b, q);
    } else {
      assert (-b) * (-q) == b * q;
      FactorsOf(-b, -q);
    }
  }

  /** A product above minus the first factor is at least as large as the second. */
  lemma FactorsOf(m: int, k: int)
    requires m > 0 && m * k > -m
    ensures 0 <= k <= m * k
  {
    if k < 0 {
      MulGrows(m, k);
    }
    if k > 0 {
      MulGrows(k, m);
      assert k * m == m * k;
    }
  }

  /** The operators come in pairs: each compound assignment computes like its operator, each comparison is the negation
      of another. */
  lemma OperatorPairs(k: int, lhs: int32, rhs: int32)
    ensures 0 <= k <= 9 ==> PerformBinaryOperationOn(20 + k, lhs, rhs) == PerformBinaryOperationOn(k, lhs, rhs)
    ensures PerformBinaryOperationOn(41, lhs, rhs) == Truth(PerformBinaryOperationOn(40, lhs, rhs) == Value(0))
    ensures PerformBinaryOperationOn(45, lhs, rhs) == Truth(PerformBinaryOperationOn(42, lhs, rhs) == Value(0))
    ensures PerformBinaryOperationOn(44, lhs, rhs) == Truth(PerformBinaryOperationOn(43, lhs, rhs) == Value(0))
    ensures PerformBinaryOperationOn(45, lhs, rhs) == PerformBinaryOperationOn(43, rhs, lhs)
  {
    hide Quotient, Pow2, Wrapped, Bitwise;
  }
}
