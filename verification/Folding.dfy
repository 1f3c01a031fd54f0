/** Rebuilding a tree with the folding factories keeps its meaning, and when it can be done. */
module Folding {
  import opened Bytes
  import opened Bytecode
  import opened Arithmetic
  import opened Expressions

  // ------------------------------------------------------------------------------------------ values and effects

  /** Value, thrown error, memory and store register after an evaluation are those of the plain tree. */
  lemma {:induction false} RebuildKeepsEval<M>(mem: Memory<M>, e: Expression, m: Machine<M>)
    requires Rebuild(e).Value?
    ensures Eval(mem, Rebuild(e).value, m) == Eval(mem, e, m)
    decreases e, 1
  {
    hide PerformBinaryOperationOn;
    match e
    case MemoryReference(bank, location) => RebuildKeepsEval(mem, location, m);
    case Unary(operation, operand) => RebuildKeepsEval(mem, operand, m);
    case Complex(pieces) =>
      RebuildAllElements(pieces);
      if |pieces| == 1 { RebuildKeepsEval(mem, pieces[0], m); }
    case Binary(operation, left, right) =>
      if operation == 30 { RebuildKeepsAssignment(mem, left, right, m); }
      else { RebuildKeepsOperation(mem, operation, left, right, m); }
    case _ =>
  }

  lemma {:induction false} RebuildKeepsAssign<M>(mem: Memory<M>, e: Expression, v: int32, m: Machine<M>)
    requires Rebuild(e).Value?
    ensures Assign(mem, Rebuild(e).value, v, m) == Assign(mem, e, v, m)
    decreases e, 1
  {
    hide PerformBinaryOperationOn;
    match e
    case MemoryReference(bank, location) => RebuildKeepsEval(mem, location, m);
    case _ =>
  }

  lemma {:induction false} RebuildKeepsAssignment<M>(mem: Memory<M>, left: Expression, right: Expression, m: Machine<M>)
    requires Rebuild(Binary(30, left, right)).Value?
    ensures Eval(mem, Rebuild(Binary(30, left, right)).value, m) == Eval(mem, Binary(30, left, right), m)
    decreases Binary(30, left, right), 0
  {
    hide PerformBinaryOperationOn;
    var (l, r) := (Rebuild(left).value, Rebuild(right).value);
    if l.IntConstant? && r.IntConstant? {
      AssignmentNeverFolds(l, r);
    }
    RebuildKeepsEval(mem, right, m);
    var value := Eval(mem, right, m);
    if value.Ok? {
      RebuildKeepsAssign(mem, left, value.value, value.machine);
    }
  }

  lemma AssignmentNeverFolds(left: Expression, right: Expression)
    requires left.IntConstant? && right.IntConstant?
    ensures Create(30, left, right) == Throws
  {
  }

  lemma {:induction false} RebuildKeepsOperation<M>(
      mem: Memory<M>, operation: int, left: Expression, right: Expression, m: Machine<M>)
    requires operation != 30 && Rebuild(Binary(operation, left, right)).Value?
    ensures Eval(mem, Rebuild(Binary(operation, left, right)).value, m) == Eval(mem, Binary(operation, left, right), m)
    decreases Binary(operation, left, right), 0
  {
    hide PerformBinaryOperationOn;
    RebuildKeepsEval(mem, left, m);
    var l := Eval(mem, left, m);
    if l.Ok? {
      RebuildKeepsEval(mem, right, l.machine);
      var r := Eval(mem, right, l.machine);
      if r.Ok? {
        var v := PerformBinaryOperationOn(operation, l.value, r.value);
        if v.Value? {
          RebuildKeepsAssign(mem, left, v.value, r.machine);
        }
      }
    }
  }

  lemma {:induction false} RebuildAllElements(pieces: seq<Expression>)
    requires RebuildAll(pieces).Value?
    ensures |RebuildAll(pieces).value| == |pieces|
    ensures forall i :: 0 <= i < |pieces| ==> Rebuild(pieces[i]) == Value(RebuildAll(pieces).value[i])
  {
    hide Rebuild;
    if pieces != [] {
      RebuildAllElements(pieces[1..]);
      assert forall i :: 1 <= i < |pieces| ==> pieces[i] == pieces[1..][i - 1];
    }
  }

  // ------------------------------------------------------------------------------------------ serialised form

  lemma {:induction false} RebuildKeepsPiece<M>(mem: Memory<M>, e: Expression, m: Machine<M>)
    requires Rebuild(e).Value?
    ensures ToPiece(mem, Rebuild(e).value, m) == ToPiece(mem, e, m)
    decreases e, 1
  {
    hide PerformBinaryOperationOn;
    RebuildKeepsEval(mem, e, m);
    match e
    case MemoryReference(bank, location) => RebuildKeepsEval(mem, location, m);
    case Complex(pieces) => RebuildKeepsPieces(mem, pieces, m);
    case Special(tag, pieces) => RebuildKeepsPieces(mem, pieces, m);
    case _ =>
  }

  lemma {:induction false} RebuildKeepsPieces<M>(mem: Memory<M>, pieces: seq<Expression>, m: Machine<M>)
    requires RebuildAll(pieces).Value?
    ensures ToPieces(mem, RebuildAll(pieces).value, m) == ToPieces(mem, pieces, m)
    decreases pieces, 0
  {
    hide Rebuild, ToPiece;
    if pieces != [] {
      RebuildKeepsPiece(mem, pieces[0], m);
      var first := ToPiece(mem, pieces[0], m);
      if first.Ok? {
        RebuildKeepsPieces(mem, pieces[1..], first.machine);
      }
    }
  }

  // ------------------------------------------------------------------------------------------ when it can be done

  predicate ConstantsOnly(e: Expression) {
    e.IntConstant? || (e.Binary? && ConstantsOnly(e.left) && ConstantsOnly(e.right))
  }

  /** Every operator between constants is one that computes: it is no plain assignment, and evaluating it gives a
      value. */
  predicate FoldsCleanly<M>(mem: Memory<M>, e: Expression, m: Machine<M>) {
    match e
    case MemoryReference(_, location) => FoldsCleanly(mem, location, m)
    case Unary(_, operand) => FoldsCleanly(mem, operand, m)
    case Binary(operation, left, right) =>
      FoldsCleanly(mem, left, m) && FoldsCleanly(mem, right, m) &&
      (ConstantsOnly(e) ==> operation != 30 && Eval(mem, e, m).Ok?)
    case Complex(pieces) => forall p <- pieces :: FoldsCleanly(mem, p, m)
    case Special(_, pieces) => forall p <- pieces :: FoldsCleanly(mem, p, m)
    case _ => true
  }

  lemma {:induction false} FoldsToConstant(e: Expression)
    requires Rebuild(e).Value?
    ensures Rebuild(e).value.IntConstant? <==> ConstantsOnly(e)
  {
    hide PerformBinaryOperationOn;
    if e.Binary? {
      FoldsToConstant(e.left);
      FoldsToConstant(e.right);
    }
  }

  /** A tree without variables evaluates without effects. */
  lemma {:induction false} ConstantsLeaveMachine<M>(mem: Memory<M>, e: Expression, m: Machine<M>)
    requires ConstantsOnly(e)
    ensures Eval(mem, e, m).Ok? ==> Eval(mem, e, m).machine == m
  {
    hide PerformBinaryOperationOn;
    if e.Binary? {
      ConstantsLeaveMachine(mem, e.left, m);
      ConstantsLeaveMachine(mem, e.right, m);
    }
  }

  /** The factories fail on a tree if and only if some operator between constants is an assignment or has no value. */
  lemma {:induction false} RebuildSucceeds<M>(mem: Memory<M>, e: Expression, m: Machine<M>)
    ensures Rebuild(e).Value? <==> FoldsCleanly(mem, e, m)
    decreases e, 1
  {
    hide PerformBinaryOperationOn;
    match e
    case MemoryReference(_, location) => RebuildSucceeds(mem, location, m);
    case Unary(_, operand) => RebuildSucceeds(mem, operand, m);
    case Binary(_, left, right) =>
      RebuildSucceeds(mem, left, m);
      RebuildSucceeds(mem, right, m);
      if Rebuild(left).Value? && Rebuild(right).Value? {
        FoldsToConstant(left);
        FoldsToConstant(right);
        if ConstantsOnly(e) {
          ConstantFold(mem, e, m);
        }
      }
    case Complex(pieces) => RebuildAllSucceeds(mem, pieces, m);
    case Special(_, pieces) => RebuildAllSucceeds(mem, pieces, m);
    case _ =>
  }

  lemma ConstantFold<M>(mem: Memory<M>, e: Expression, m: Machine<M>)
    requires e.Binary? && ConstantsOnly(e)
    requires Rebuild(e.left).Value? && Rebuild(e.right).Value?
    requires Rebuild(e.left).value.IntConstant? && Rebuild(e.right).value.IntConstant?
    ensures Rebuild(e).Value? <==> e.operation != 30 && Eval(mem, e, m).Ok?
  {
    RebuildKeepsEval(mem, e.left, m);
    RebuildKeepsEval(mem, e.right, m);
    var (l, r) := (Rebuild(e.left).value.value, Rebuild(e.right).value.value);
    assert Eval(mem, e.left, m) == Ok(l, m) && Eval(mem, e.right, m) == Ok(r, m);
    assert Rebuild(e) == Create(e.operation, IntConstant(l), IntConstant(r));
    assert PerformBinaryOperationOn(30, l, r) == Throws;
    hide PerformBinaryOperationOn;
    AssignToConstants(mem, e.left);
  }

  lemma AssignToConstants<M>(mem: Memory<M>, e: Expression)
    requires ConstantsOnly(e)
    ensures forall v: int32, m: Machine<M> :: Assign(mem, e, v, m) == Ok(v, m)
  {
  }

  lemma {:induction false} RebuildAllSucceeds<M>(mem: Memory<M>, pieces: seq<Expression>, m: Machine<M>)
    ensures RebuildAll(pieces).Value? <==> forall p <- pieces :: FoldsCleanly(mem, p, m)
    decreases pieces, 0
  {
    hide Rebuild, FoldsCleanly;
    if pieces != [] {
      RebuildSucceeds(mem, pieces[0], m);
      RebuildAllSucceeds(mem, pieces[1..], m);
      assert pieces == [pieces[0]] + pieces[1..];
    }
  }

  /** An assignment to a constant: the plain tree evaluates, the factory refuses to build it. */
  lemma AssignmentToConstantIsRefused<M>(mem: Memory<M>, m: Machine<M>)
    ensures var e := Binary(30, IntConstant(1), IntConstant(2));
            Rebuild(e) == Throws && Eval(mem, e, m) == Ok(2, m)
  {
  }

  // ------------------------------------------------------------------------------------------ assignments

  /** A compound assignment is the assignment of the operation, errors and effects included. A target with a location
      that has effects works it out twice either way. */
  lemma CompoundIsAssignment<M>(mem: Memory<M>, k: int, target: Expression, e: Expression, m: Machine<M>)
    requires 0 <= k <= 9
    ensures Eval(mem, Binary(20 + k, target, e), m) == Eval(mem, Binary(30, target, Binary(k, target, e)), m)
  {
    forall l: int32, r: int32 ensures PerformBinaryOperationOn(20 + k, l, r) == PerformBinaryOperationOn(k, l, r) {
      OperatorPairs(k, l, r);
    }
    hide PerformBinaryOperationOn;
  }

  /** A memory in which a cell that was written reads back as written. */
  ghost predicate ReadsBack<M(!new)>(mem: Memory<M>) {
    forall cells: M, bank: int, address: int32, v: int32 ::
      mem.write(cells, bank, address, v).Some? ==>
        mem.read(mem.write(cells, bank, address, v).value, bank, address) == Some(v)
  }

  /** After a plain assignment to a fixed cell or to the store register, reading the target gives the assigned value. */
  lemma AssignmentIsRead<M(!new)>(mem: Memory<M>, target: Expression, e: Expression, m: Machine<M>)
    requires ReadsBack(mem) && (target.SimpleMemRef? || target.StoreRegister?)
    ensures var done := Eval(mem, Binary(30, target, e), m);
            done.Ok? ==> Eval(mem, e, m).Ok? && done.value == Eval(mem, e, m).value &&
                         Eval(mem, target, done.machine) == Ok(done.value, done.machine)
  {
    hide PerformBinaryOperationOn;
  }
}
