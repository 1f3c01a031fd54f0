/** What evaluation does step by step: the order of effects, the cells that are read and written, and what folds. */
module ExpressionLaws {
  import opened Bytes
  import opened Bytecode
  import opened Arithmetic
  import opened Expressions
  import opened Pieces

  // ------------------------------------------------------------------------------------------ the order of effects

  /** An operand with an effect: store = value. */
  function SetStore(value: int32): Expression {
    Binary(30, StoreRegister, IntConstant(value))
  }

  lemma StoreIsSet<M>(mem: Memory<M>, value: int32, m: Machine<M>)
    ensures Eval(mem, SetStore(value), m) == Ok(value, m.(storeRegister := value))
  {
    assert Eval(mem, IntConstant(value), m) == Ok(value, m);
  }

  /** The left operand is evaluated first: its assignment is seen on the right, and not the other way round. */
  lemma LeftBeforeRight<M>(mem: Memory<M>, k: int, value: int32, m: Machine<M>)
    requires !(20 <= k <= 30)
    ensures var after := m.(storeRegister := value);
            Eval(mem, Binary(k, SetStore(value), StoreRegister), m) ==
            Finish(PerformBinaryOperationOn(k, value, value), after) &&
            Eval(mem, Binary(k, StoreRegister, SetStore(value)), m) ==
            Finish(PerformBinaryOperationOn(k, m.storeRegister, value), after)
  {
    StoreIsSet(mem, value, m);
    hide PerformBinaryOperationOn;
  }

  /** An assignment works out its value first and then the location it goes to, which decides the cell. */
  lemma LocationBehindValue<M>(mem: Memory<M>, bank: int, address: int32, value: int32, m: Machine<M>)
    ensures var after := Eval(mem, Binary(30, MemoryReference(bank, SetStore(address)), SetStore(value)), m);
            var cells := mem.write(m.cells, bank, address, value);
            after == if cells.Some? then Ok(value, Machine(cells.value, address))
                     else Threw(m.(storeRegister := address))
  {
    StoreIsSet(mem, value, m);
    StoreIsSet(mem, address, m.(storeRegister := value));
  }

  /** A reference reads the cell that its location evaluates to, behind the effects of the location. */
  lemma LocationIsRead<M>(mem: Memory<M>, bank: int, address: int32, m: Machine<M>)
    ensures var after := m.(storeRegister := address);
            var cell := mem.read(m.cells, bank, address);
            Eval(mem, MemoryReference(bank, SetStore(address)), m) ==
            if cell.Some? then Ok(cell.value, after) else Threw(after)
  {
    StoreIsSet(mem, address, m);
  }

  /** A compound assignment works its location out twice: intX[store += 1] += b adds b to one cell and leaves the sum
      in the next. */
  lemma LocationTwice<M>(mem: Memory<M>, k: int, bank: int, b: int32, m: Machine<M>)
    requires 0 <= k <= 9 && m.storeRegister + 2 < 0x8000_0000
    requires mem.read(m.cells, bank, m.storeRegister + 1).Some?
    requires PerformBinaryOperationOn(k, mem.read(m.cells, bank, m.storeRegister + 1).value, b).Value?
    ensures var s := m.storeRegister;
            var result := PerformBinaryOperationOn(k, mem.read(m.cells, bank, s + 1).value, b).value;
            var cells := mem.write(m.cells, bank, s + 2, result);
            var target := MemoryReference(bank, Binary(20, StoreRegister, IntConstant(1)));
            Eval(mem, Binary(20 + k, target, IntConstant(b)), m) ==
            if cells.Some? then Ok(result, Machine(cells.value, s + 2)) else Threw(m.(storeRegister := s + 2))
  {
    var s := m.storeRegister;
    var next := Binary(20, StoreRegister, IntConstant(1));
    forall n: M, r: int32 | r + 1 < 0x8000_0000
      ensures Eval(mem, next, Machine(n, r)) == Ok(r + 1, Machine(n, r + 1))
    {
      assert PerformBinaryOperationOn(20, r, 1) == Value(r + 1);
    }
    var x := mem.read(m.cells, bank, s + 1).value;
    OperatorPairs(k, x, b);
    hide PerformBinaryOperationOn;
    assert Eval(mem, next, m) == Ok(s + 1, Machine(m.cells, s + 1));
    assert Eval(mem, next, Machine(m.cells, s + 1)) == Ok(s + 2, Machine(m.cells, s + 2));
  }

  /** What was done in front of an exception stays done. Texts, special parameters and lists of other than one
      parameter are no numbers. */
  lemma EffectsStay<M>(mem: Memory<M>, k: int, value: int32, e: Expression, m: Machine<M>)
    requires k != 30
    requires e.StringConstant? || e.Special? || (e.Complex? && |e.pieces| != 1)
    ensures Eval(mem, Binary(k, SetStore(value), e), m) == Threw(m.(storeRegister := value))
  {
    StoreIsSet(mem, value, m);
    hide PerformBinaryOperationOn;
  }

  lemma SinglePart<M>(mem: Memory<M>, e: Expression, m: Machine<M>)
    ensures Eval(mem, Complex([e]), m) == Eval(mem, e, m)
  {
    hide PerformBinaryOperationOn;
  }

  lemma PartThenRest<M>(mem: Memory<M>, e: Expression, rest: seq<Expression>, m: Machine<M>)
    requires ToPiece(mem, e, m).Ok? && ToPieces(mem, rest, ToPiece(mem, e, m).machine).Ok?
    ensures var first := ToPiece(mem, e, m);
            var others := ToPieces(mem, rest, first.machine);
            ToPieces(mem, [e] + rest, m) == Ok([first.value] + others.value, others.machine)
  {
    hide ToPiece;
    assert ([e] + rest)[0] == e && ([e] + rest)[1..] == rest;
  }

  /** The parameters of a list are evaluated from left to right and keep their places. */
  lemma PartsInOrder<M>(mem: Memory<M>, tag: byte, value: int32, m: Machine<M>)
    ensures var after := m.(storeRegister := value);
            ToPiece(mem, Complex([StoreRegister, SetStore(value), StoreRegister]), m) ==
            Ok(ComplexPiece([IntPiece(m.storeRegister), IntPiece(value), IntPiece(value)]), after) &&
            ToPiece(mem, Special(tag, [StoreRegister, SetStore(value), StoreRegister]), m) ==
            Ok(SpecialPiece(tag, [IntPiece(m.storeRegister), IntPiece(value), IntPiece(value)]), after)
  {
    StoreIsSet(mem, value, m);
    var (fetch, assign) := (StoreRegister, SetStore(value));
    var after := m.(storeRegister := value);
    assert ToPiece(mem, fetch, m) == Ok(IntPiece(m.storeRegister), m);
    assert ToPiece(mem, assign, m) == Ok(IntPiece(value), after);
    assert ToPiece(mem, fetch, after) == Ok(IntPiece(value), after);
    PartThenRest(mem, fetch, [], after);
    PartThenRest(mem, assign, [fetch] + [], m);
    PartThenRest(mem, fetch, [assign] + ([fetch] + []), m);
    assert [fetch, assign, fetch] == [fetch] + ([assign] + ([fetch] + []));
    var parts := [IntPiece(m.storeRegister), IntPiece(value), IntPiece(value)];
    assert parts == [IntPiece(m.storeRegister)] + ([IntPiece(value)] + ([IntPiece(value)] + []));
    assert ToPieces(mem, [fetch, assign, fetch], m) == Ok(parts, after);
  }

  predicate Assigns(e: Expression) {
    match e
    case MemoryReference(_, location) => Assigns(location)
    case Binary(operation, left, right) => 20 <= operation <= 30 || Assigns(left) || Assigns(right)
    case Unary(_, operand) => Assigns(operand)
    case SimpleAssign(_, _, _) => true
    case Complex(pieces) => exists p <- pieces :: Assigns(p)
    case _ => false
  }

  /** Without an assignment in it an expression changes nothing, whether it has a value or throws. */
  lemma {:induction false} OnlyAssignmentsChange<M>(mem: Memory<M>, e: Expression, m: Machine<M>)
    requires !Assigns(e)
    ensures Eval(mem, e, m).Undefined? || Eval(mem, e, m).machine == m
  {
    hide PerformBinaryOperationOn, PerformUnaryOperationOn;
    match e
    case MemoryReference(_, location) => OnlyAssignmentsChange(mem, location, m);
    case Binary(_, left, right) =>
      OnlyAssignmentsChange(mem, left, m);
      OnlyAssignmentsChange(mem, right, m);
    case Unary(_, operand) => OnlyAssignmentsChange(mem, operand, m);
    case Complex(pieces) =>
      if |pieces| == 1 {
        OnlyAssignmentsChange(mem, pieces[0], m);
      }
    case _ =>
  }

  // ------------------------------------------------------------------------------------------ what is folded

  /** Nothing is left to fold: no operator between constants, no constant location in a general reference, and no
      assignment of a constant to a fixed cell. */
  predicate Folded(e: Expression) {
    match e
    case MemoryReference(_, location) => !location.IntConstant? && Folded(location)
    case Binary(operation, left, right) =>
      Folded(left) && Folded(right) && !(left.IntConstant? && right.IntConstant?) &&
      !(operation == 30 && left.SimpleMemRef? && right.IntConstant?)
    case Unary(_, operand) => Folded(operand)
    case Complex(pieces) => forall p <- pieces :: Folded(p)
    case Special(_, pieces) => forall p <- pieces :: Folded(p)
    case _ => true
  }

  /** The factories leave a tree as it is if and only if there is nothing to fold in it, and what they build is of
      that kind. */
  lemma {:induction false} RebuildFolds(e: Expression)
    ensures Rebuild(e).Value? ==> Folded(Rebuild(e).value)
    ensures Rebuild(e) == Value(e) <==> Folded(e)
    decreases e, 1
  {
    hide PerformBinaryOperationOn;
    match e
    case MemoryReference(_, location) => RebuildFolds(location);
    case Binary(_, left, right) =>
      RebuildFolds(left);
      RebuildFolds(right);
    case Unary(_, operand) => RebuildFolds(operand);
    case Complex(pieces) => RebuildAllFolds(pieces);
    case Special(_, pieces) => RebuildAllFolds(pieces);
    case _ =>
  }

  lemma {:induction false} RebuildAllFolds(pieces: seq<Expression>)
    ensures RebuildAll(pieces).Value? ==> forall p <- RebuildAll(pieces).value :: Folded(p)
    ensures RebuildAll(pieces) == Value(pieces) <==> forall p <- pieces :: Folded(p)
    decreases pieces, 0
  {
    hide Rebuild, Folded;
    if pieces != [] {
      RebuildFolds(pieces[0]);
      RebuildAllFolds(pieces[1..]);
      assert pieces == [pieces[0]] + pieces[1..];
    }
  }
}
