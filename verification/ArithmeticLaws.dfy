/** What each operator computes, by the laws that determine it. */
module ArithmeticLaws {
  import opened Bytecode
  import opened Numbers
  import opened Arithmetic

  const LEAST: int32 := -0x8000_0000
  const GREATEST: int32 := 0x7fff_ffff

  function Plus(a: int32, b: int32): Checked<int32> {
    PerformBinaryOperationOn(0, a, b)
  }

  function Minus(a: int32, b: int32): Checked<int32> {
    PerformBinaryOperationOn(1, a, b)
  }

  function Times(a: int32, b: int32): Checked<int32> {
    PerformBinaryOperationOn(2, a, b)
  }

  function DividedBy(a: int32, b: int32): Checked<int32> {
    PerformBinaryOperationOn(3, a, b)
  }

  // ------------------------------------------------------------------------------------------ addition, subtraction

  /** Addition is commutative, does nothing with 0, and goes to the next integer whenever an operand does; it has no
      result from where there is no next one, upwards or downwards. */
  lemma AdditionCounts(a: int32, b: int32)
    ensures Plus(a, b) == Plus(b, a) && Plus(a, 0) == Value(a)
    ensures a < GREATEST ==>
              (Plus(a, b).Value? && Plus(a + 1, b).Value? ==> Plus(a + 1, b).value == Plus(a, b).value + 1) &&
              (Plus(a, b).Value? && Plus(a + 1, b).Undefined? <==> Plus(a, b) == Value(GREATEST)) &&
              (Plus(a, b).Undefined? && Plus(a + 1, b).Value? <==> Plus(a + 1, b) == Value(LEAST))
    ensures !Plus(a, b).Throws?
  {
  }

  /** Subtraction undoes it, and has a result exactly where there is something to undo. */
  lemma SubtractionUndoes(a: int32, b: int32, c: int32)
    ensures Minus(c, b) == Value(a) <==> Plus(a, b) == Value(c)
    ensures !Minus(c, b).Throws?
  {
  }

  /** Changing the sign: the sum with the operand is 0; only the least integer has no counterpart. */
  lemma NegationCancels(a: int32, k: int)
    ensures PerformUnaryOperationOn(1, a).Value? ==> Plus(PerformUnaryOperationOn(1, a).value, a) == Value(0)
    ensures PerformUnaryOperationOn(1, a) == Undefined <==> a == LEAST
    ensures !PerformUnaryOperationOn(1, a).Throws? && (k != 1 ==> PerformUnaryOperationOn(k, a) == Value(a))
  {
  }

  // ------------------------------------------------------------------------------------------ multiplication

  /** Multiplication is repeated addition, in both directions. */
  lemma MultiplicationAdds(a: int32, b: int32)
    ensures Times(a, b) == Times(b, a) && Times(a, 0) == Value(0) && Times(a, 1) == Value(a)
    ensures b < GREATEST && Times(a, b).Value? ==> Plus(Times(a, b).value, a) == Times(a, b + 1)
    ensures b > LEAST && Times(a, b).Value? ==> Minus(Times(a, b).value, a) == Times(a, b - 1)
    ensures !Times(a, b).Throws?
  {
    assert a * (b + 1) == a * b + a && a * (b - 1) == a * b - a && a * b == b * a;
  }

  /** Once there is no product any more, there is none further away from 0. */
  lemma NoProductBehind(a: int32, b: int32)
    requires Times(a, b) == Undefined
    ensures 0 <= b < GREATEST ==> Times(a, b + 1) == Undefined
    ensures LEAST < b <= 0 ==> Times(a, b - 1) == Undefined
  {
    assert a * (b + 1) == a * b + a && a * (b - 1) == a * b - a;
    SignOfProduct(a, b);
  }

  lemma SignOfProduct(a: int, b: int)
    ensures (a >= 0 && b >= 0) || (a <= 0 && b <= 0) ==> a * b >= 0
    ensures (a >= 0 && b <= 0) || (a <= 0 && b >= 0) ==> a * b <= 0
  {
  }

  /** A divisor of 0 gives the dividend; the least integer has no quotient by -1, and no remainder. */
  lemma DivisionEdges(a: int32, b: int32)
    ensures DividedBy(a, 0) == PerformBinaryOperationOn(4, a, 0) == Value(a)
    ensures DividedBy(a, b) == Undefined <==> PerformBinaryOperationOn(4, a, b) == Undefined
    ensures DividedBy(a, b) == Undefined <==> a == LEAST && b == -1
    ensures !DividedBy(a, b).Throws? && !PerformBinaryOperationOn(4, a, b).Throws?
  {
    if b != 0 && !(a == LEAST && b == -1) {
      DivisionTruncates(a, b);
    }
  }

  // ------------------------------------------------------------------------------------------ bits

  lemma WrappedDigit(v: int, i: nat)
    requires i < 32
    ensures Digit(Wrapped(v), i) <==> Digit(v, i)
  {
    hide Digit;
    Pow2Of32();
    var m := WrappedBy(v);
    hide Wrapped, Pow2;
    DigitBelow(v, -m, 32, i);
  }

  lemma Pow2Of32()
    ensures Pow2(32) == 0x1_0000_0000
  {
    assert Pow2(4) == 2 * Pow2(3) == 16 by { assert Pow2(3) == 2 * Pow2(2); }
    assert Pow2(8) == 0x100 by { assert Pow2(8) == 2 * Pow2(7) && Pow2(6) == 2 * Pow2(5); }
    assert Pow2(16) == 0x1_0000 by {
      assert Pow2(12) == 0x1000 by { assert Pow2(12) == 2 * Pow2(11) && Pow2(10) == 2 * Pow2(9); }
      assert Pow2(16) == 2 * Pow2(15) && Pow2(14) == 2 * Pow2(13);
    }
    assert Pow2(24) == 0x100_0000 by {
      assert Pow2(20) == 0x10_0000 by { assert Pow2(20) == 2 * Pow2(19) && Pow2(18) == 2 * Pow2(17); }
      assert Pow2(24) == 2 * Pow2(23) && Pow2(22) == 2 * Pow2(21);
    }
    assert Pow2(28) == 0x1000_0000 by { assert Pow2(28) == 2 * Pow2(27) && Pow2(26) == 2 * Pow2(25); }
    assert Pow2(32) == 2 * Pow2(31) && Pow2(30) == 2 * Pow2(29);
  }

  /** Every bit of a conjunction, a disjunction and an exclusive disjunction, the sign among them. */
  lemma BitByBit(a: int32, b: int32, i: nat)
    requires i < 32
    ensures forall k | 5 <= k <= 7 :: PerformBinaryOperationOn(k, a, b).Value?
    ensures Digit(PerformBinaryOperationOn(5, a, b).value, i) <==> Digit(a, i) && Digit(b, i)
    ensures Digit(PerformBinaryOperationOn(6, a, b).value, i) <==> Digit(a, i) || Digit(b, i)
    ensures Digit(PerformBinaryOperationOn(7, a, b).value, i) <==> (Digit(a, i) <==> !Digit(b, i))
  {
    hide Wrapped, Digit, Bitwise;
    BitOf((x, y) => x && y, a, b, i);
    BitOf((x, y) => x || y, a, b, i);
    BitOf((x, y) => x != y, a, b, i);
  }

  lemma BitOf(op: (bool, bool) -> bool, a: int32, b: int32, i: nat)
    requires i < 32
    ensures Digit(Wrapped(Bitwise(op, a, b, 32)), i) <==> op(Digit(a, i), Digit(b, i))
  {
    WrappedDigit(Bitwise(op, a, b, 32), i);
    BitwiseDigit(op, a, b, 32, i);
  }

  lemma HalfOf(a: int) returns (h: int, r: int)
    ensures a == 2 * h + r && 0 <= r <= 1 && (Digit(a, 0) <==> r == 1)
    ensures forall i: nat :: Digit(a, i + 1) <==> Digit(h, i)
  {
    h, r := a / 2, a % 2;
  }

  /** Bits determine an integer. */
  lemma {:induction false} DigitsDetermine(a: int, b: int, k: nat)
    requires 0 - Pow2(k) <= 2 * a < Pow2(k) && 0 - Pow2(k) <= 2 * b < Pow2(k)
    requires forall i: nat | i < k :: Digit(a, i) <==> Digit(b, i)
    ensures a == b
    decreases k
  {
    assert k > 0 ==> Pow2(k) == 2 * Pow2(k - 1);
    assert k > 1 ==> Pow2(k - 1) == 2 * Pow2(k - 2);
    assert Pow2(0) == 1;
    hide Pow2, Digit;
    if k > 0 {
      var h, r := HalfOf(a);
      var g, s := HalfOf(b);
      assert Digit(a, 0) <==> Digit(b, 0);
      if k > 1 {
        forall i: nat | i < k - 1 ensures Digit(h, i) <==> Digit(g, i) {
          assert Digit(a, i + 1) <==> Digit(b, i + 1);
        }
        DigitsDetermine(h, g, k - 1);
      }
    }
  }

  // ------------------------------------------------------------------------------------------ shifts

  /** One place further to the left is twice as much, up to a multiple of 2 to the 32; one place further to the right is
      half of it, rounded down. */
  lemma ShiftsDoubleAndHalve(a: int32, k: int)
    ensures PerformBinaryOperationOn(8, a, 0) == PerformBinaryOperationOn(9, a, 0) == Value(a)
    ensures 0 <= k < 31 ==>
              PerformBinaryOperationOn(8, a, k).Value? && PerformBinaryOperationOn(8, a, k + 1).Value? &&
              (PerformBinaryOperationOn(8, a, k + 1).value - 2 * PerformBinaryOperationOn(8, a, k).value)
              % 0x1_0000_0000 == 0
    ensures 0 <= k < 31 ==>
              PerformBinaryOperationOn(9, a, k).Value? && PerformBinaryOperationOn(9, a, k + 1).Value? &&
              0 <= PerformBinaryOperationOn(9, a, k).value - 2 * PerformBinaryOperationOn(9, a, k + 1).value <= 1
  {
    ShiftedBy(a, 0);
    assert Pow2(0) == 1 && Wrapped(a) == a;
    if 0 <= k < 31 {
      ShiftedBy(a, k);
      ShiftedBy(a, k + 1);
      hide PerformBinaryOperationOn, Pow2, Wrapped;
      WrappedDoubles(a * Pow2(k));
      NextPower(a, k);
      DividedTwice(a, k);
    }
  }

  lemma ShiftedBy(a: int32, k: nat)
    requires k < 32
    ensures PerformBinaryOperationOn(8, a, k) == Value(Wrapped(a * Pow2(k)))
    ensures PerformBinaryOperationOn(9, a, k) == Value(a / Pow2(k))
  {
    hide Pow2, Wrapped;
    QuotientInRange(a, k);
  }

  /** There is no result for a negative count or one of 32 and more. */
  lemma ShiftsWithin(a: int32, k: int32)
    ensures PerformBinaryOperationOn(8, a, k) == Undefined <==> k < 0 || k >= 32
    ensures PerformBinaryOperationOn(9, a, k) == Undefined <==> k < 0 || k >= 32
  {
    hide Wrapped;
    if 0 <= k < 32 {
      QuotientInRange(a, k);
    }
  }

  lemma NextPower(a: int, k: nat)
    ensures a * Pow2(k + 1) == 2 * (a * Pow2(k))
  {
  }

  lemma WrappedDoubles(v: int)
    ensures (Wrapped(2 * v) - 2 * Wrapped(v)) % 0x1_0000_0000 == 0
  {
    hide Wrapped;
    var m := WrappedBy(v);
    var n := WrappedBy(2 * v);
    DivModUnique(Wrapped(2 * v) - 2 * Wrapped(v), 0x1_0000_0000, 2 * m - n, 0);
  }

  lemma WrappedBy(v: int) returns (m: int)
    ensures Wrapped(v) == v - m * 0x1_0000_0000
  {
    m := v / 0x1_0000_0000;
    if Wrapped(v) < 0 { m := m + 1; }
  }

  lemma DividedTwice(a: int, k: nat)
    ensures 0 <= a / Pow2(k) - 2 * (a / Pow2(k + 1)) <= 1
  {
    var (q, d) := (a / Pow2(k), Pow2(k));
    assert a == d * q + a % d;
    var h := q / 2;
    assert q == 2 * h + q % 2;
    assert a == 2 * d * h + (d * (q % 2) + a % d);
    DivModUnique(a, 2 * d, h, d * (q % 2) + a % d);
  }

  lemma QuotientInRange(a: int32, k: nat)
    ensures LEAST <= a / Pow2(k) <= GREATEST
  {
    hide Pow2;
    QuotientNearer(a, Pow2(k), a / Pow2(k), a % Pow2(k));
  }

  lemma QuotientNearer(a: int, d: int, q: int, r: int)
    requires d > 0 && a == d * q + r && 0 <= r < d
    ensures if a >= 0 then 0 <= q <= a else a <= q < 0
  {
    if q >= 0 {
      FactorAtLeast(q, d);
    } else {
      MulGrows(d, q);
      FactorAtLeast(-(q + 1), d);
      assert d * -(q + 1) == -(d * q) - d;
    }
  }

  lemma FactorAtLeast(q: int, d: int)
    requires d > 0 && q >= 0
    ensures d * q >= q
  {
  }

  // ------------------------------------------------------------------------------------------ comparisons, logic

  predicate Holds(k: int, a: int32, b: int32) {
    PerformBinaryOperationOn(k, a, b) == Value(1)
  }

  /** Comparisons are 0 or 1, and what they compare is the total order in which every integer is less than the next. */
  lemma ComparisonsOrder(k: int, a: int32, b: int32, c: int32)
    ensures 40 <= k <= 45 ==> Holds(k, a, b) || PerformBinaryOperationOn(k, a, b) == Value(0)
    ensures !Holds(43, a, a) && (a < GREATEST ==> Holds(43, a, a + 1))
    ensures Holds(43, a, b) && Holds(43, b, c) ==> Holds(43, a, c)
    ensures Holds(43, a, b) || Holds(43, b, a) || (a == b && Holds(40, a, b))
    ensures Holds(40, a, b) <==> !Holds(43, a, b) && !Holds(43, b, a)
    ensures Holds(41, a, b) <==> !Holds(40, a, b)
    ensures Holds(42, a, b) <==> Holds(43, a, b) || Holds(40, a, b)
    ensures Holds(44, a, b) <==> Holds(42, b, a)
    ensures Holds(45, a, b) <==> Holds(43, b, a)
  {
  }

  /** The logical operators see every operand but 0 as true. */
  lemma LogicOfTruth(k: int, a: int32, b: int32)
    ensures k == 60 || k == 61 ==> Holds(k, a, b) || PerformBinaryOperationOn(k, a, b) == Value(0)
    ensures Holds(60, a, b) <==> Holds(41, a, 0) && Holds(41, b, 0)
    ensures Holds(61, a, b) <==> Holds(41, a, 0) || Holds(41, b, 0)
  {
  }

  /** All other operators are refused, whatever the operands. */
  lemma UnknownIsRefused(k: int, a: int32, b: int32)
    ensures PerformBinaryOperationOn(k, a, b) == Throws <==>
            !(0 <= k <= 9 || 20 <= k <= 29 || 40 <= k <= 45 || k == 60 || k == 61)
  {
    hide Wrapped, Bitwise, Pow2, Quotient;
  }
}
