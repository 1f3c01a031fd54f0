/** The IExpression classes: evaluation, assignment, serialisation and the folding factories. */
module Expressions {
  import opened Bytes
  import opened Bytecode
  import opened Arithmetic
  import opened Pieces

  datatype Expression =
    | StoreRegister
    | IntConstant(value: int32)
    | StringConstant(text: seq<byte>)
    | MemoryReference(bank: int, location: Expression)
    | SimpleMemRef(bank: int, address: int32)
    | Binary(operation: int, left: Expression, right: Expression)
    | Unary(operation: int, operand: Expression)
    | SimpleAssign(bank: int, address: int32, rvalue: int32)
    | Complex(pieces: seq<Expression>)
    | Special(tag: int, pieces: seq<Expression>)

  predicate IsStringLocation(bank: int) {
    bank == 0x12 || bank == 0x0a || bank == 0x0c
  }

  // ------------------------------------------------------------------------------------------ machine

  /** The memory of a machine, however its banks are laid out; None stands for an access that throws. */
  datatype Memory<!M> = Memory(
    read: (M, int, int32) -> Option<int32>,
    write: (M, int, int32, int32) -> Option<M>,
    readString: (M, int, int32) -> Option<seq<byte>>)

  datatype Machine<M> = Machine(cells: M, storeRegister: int32)

  datatype Outcome<M, +V> =
    | Ok(value: V, machine: Machine<M>)
    | Threw(machine: Machine<M>)
    | Undefined
  {
    predicate IsFailure() { !Ok? }

    function PropagateFailure<U>(): Outcome<M, U>
      requires IsFailure()
    {
      if Threw? then Threw(machine) else Outcome.Undefined
    }

    function Extract(): (V, Machine<M>)
      requires !IsFailure()
    {
      (value, machine)
    }
  }

  function Finish<M, V>(result: Checked<V>, m: Machine<M>): Outcome<M, V> {
    match result
    case Value(v) => Ok(v, m)
    case Throws => Threw(m)
    case Undefined => Outcome.Undefined
  }

  function ReadCell<M>(mem: Memory<M>, bank: int, address: int32, m: Machine<M>): Outcome<M, int32> {
    match mem.read(m.cells, bank, address)
    case Some(v) => Ok(v, m)
    case None => Threw(m)
  }

  function ReadText<M>(mem: Memory<M>, bank: int, address: int32, m: Machine<M>): Outcome<M, seq<byte>> {
    match mem.readString(m.cells, bank, address)
    case Some(s) => Ok(s, m)
    case None => Threw(m)
  }

  function WriteCell<M>(mem: Memory<M>, bank: int, address: int32, v: int32, m: Machine<M>): Outcome<M, int32> {
    match mem.write(m.cells, bank, address, v)
    case Some(cells) => Ok(v, m.(cells := cells))
    case None => Threw(m)
  }

  // ------------------------------------------------------------------------------------------ evaluation

  /** GetIntegerValue. Operands are evaluated left before right. */
  function Eval<M>(mem: Memory<M>, e: Expression, m: Machine<M>): Outcome<M, int32>
    decreases e
  {
    match e
    case StoreRegister => Ok(m.storeRegister, m)
    case IntConstant(value) => Ok(value, m)
    case StringConstant(_) => Threw(m)
    case MemoryReference(bank, location) =>
      var (address, m1) :- Eval(mem, location, m);
      ReadCell(mem, bank, address, m1)
    case SimpleMemRef(bank, address) => ReadCell(mem, bank, address, m)
    case Binary(operation, left, right) =>
      if operation == 30 then
        var (v, m1) :- Eval(mem, right, m);
        Assign(mem, left, v, m1)
      else
        var (l, m1) :- Eval(mem, left, m);
        var (r, m2) :- Eval(mem, right, m1);
        var (v, m3) :- Finish(PerformBinaryOperationOn(operation, l, r), m2);
        if 20 <= operation < 30 then Assign(mem, left, v, m3) else Ok(v, m3)
    case Unary(operation, operand) =>
      var (v, m1) :- Eval(mem, operand, m);
      Finish(PerformUnaryOperationOn(operation, v), m1)
    case SimpleAssign(bank, address, rvalue) => WriteCell(mem, bank, address, rvalue, m)
    case Complex(pieces) => if |pieces| == 1 then Eval(mem, pieces[0], m) else Threw(m)
    case Special(_, _) => Threw(m)
  }

  /** SetIntegerValue, with the assigned value as result. Most classes ignore the request. A memory reference works
      its location out again. */
  function Assign<M>(mem: Memory<M>, e: Expression, v: int32, m: Machine<M>): Outcome<M, int32>
    decreases e
  {
    match e
    case StoreRegister => Ok(v, m.(storeRegister := v))
    case MemoryReference(bank, location) =>
      var (address, m1) :- Eval(mem, location, m);
      WriteCell(mem, bank, address, v, m1)
    case SimpleMemRef(bank, address) => WriteCell(mem, bank, address, v, m)
    case _ => Ok(v, m)
  }

  // ------------------------------------------------------------------------------------------ serialisation

  function IntResult<M>(outcome: Outcome<M, int32>): Outcome<M, Piece> {
    var (v, m) :- outcome;
    Ok(IntPiece(v), m)
  }

  function TextResult<M>(outcome: Outcome<M, seq<byte>>): Outcome<M, Piece> {
    var (s, m) :- outcome;
    Ok(StringPiece(s), m)
  }

  /** The parameter with every reference replaced by the value it has. */
  function ToPiece<M>(mem: Memory<M>, e: Expression, m: Machine<M>): Outcome<M, Piece>
    decreases e
  {
    match e
    case StringConstant(text) => Ok(StringPiece(text), m)
    case MemoryReference(bank, location) =>
      if IsStringLocation(bank) then
        var (address, m1) :- Eval(mem, location, m);
        TextResult(ReadText(mem, bank, address, m1))
      else IntResult(Eval(mem, e, m))
    case SimpleMemRef(bank, address) =>
      if IsStringLocation(bank) then TextResult(ReadText(mem, bank, address, m)) else IntResult(Eval(mem, e, m))
    case Complex(pieces) =>
      var (parts, m1) :- ToPieces(mem, pieces, m);
      Ok(ComplexPiece(parts), m1)
    case Special(tag, pieces) =>
      var (parts, m1) :- ToPieces(mem, pieces, m);
      Ok(SpecialPiece(tag % 0x100, parts), m1)
    case _ => IntResult(Eval(mem, e, m))
  }

  function ToPieces<M>(mem: Memory<M>, pieces: seq<Expression>, m: Machine<M>): Outcome<M, seq<Piece>>
    decreases pieces
  {
    if pieces == [] then Ok([], m)
    else
      var (part, m1) :- ToPiece(mem, pieces[0], m);
      var (parts, m2) :- ToPieces(mem, pieces[1..], m1);
      Ok([part] + parts, m2)
  }

  function Printed<M>(outcome: Outcome<M, Piece>): Outcome<M, seq<byte>> {
    match outcome
    case Ok(piece, m) => Ok(Print(piece), m)
    case Threw(m) => Threw(m)
    case Undefined => Outcome.Undefined
  }

  // ------------------------------------------------------------------------------------------ factories

  /** BinaryExpressionEx::Create. */
  function Create(operation: int, l: Expression, r: Expression): Checked<Expression> {
    if r.IntConstant? && l.IntConstant? then
      var value :- PerformBinaryOperationOn(operation, l.value, r.value);
      Value(IntConstant(value))
    else if r.IntConstant? && l.SimpleMemRef? && operation == 30 then
      Value(SimpleAssign(l.bank, l.address, r.value))
    else Value(Binary(operation, l, r))
  }

  function CreateMemoryReference(bank: int, location: Expression): Expression {
    if location.IntConstant? then SimpleMemRef(bank, location.value) else MemoryReference(bank, location)
  }

  /** The tree rebuilt bottom-up with the factories in place of the constructors. */
  function Rebuild(e: Expression): Checked<Expression>
    decreases e
  {
    match e
    case MemoryReference(bank, location) =>
      var l :- Rebuild(location);
      Value(CreateMemoryReference(bank, l))
    case Binary(operation, left, right) =>
      var l :- Rebuild(left);
      var r :- Rebuild(right);
      Create(operation, l, r)
    case Unary(operation, operand) =>
      var o :- Rebuild(operand);
      Value(Unary(operation, o))
    case Complex(pieces) =>
      var ps :- RebuildAll(pieces);
      Value(Complex(ps))
    case Special(tag, pieces) =>
      var ps :- RebuildAll(pieces);
      Value(Special(tag, ps))
    case _ => Value(e)
  }

  function RebuildAll(pieces: seq<Expression>): Checked<seq<Expression>>
    decreases pieces
  {
    if pieces == [] then Value([])
    else
      var p :- Rebuild(pieces[0]);
      var ps :- RebuildAll(pieces[1..]);
      Value([p] + ps)
  }

  // ------------------------------------------------------------------------------------------ strings in memory

  /** Three banks hold strings: strK, strM and strS. From them a parameter takes a text, from all others a number. */
  lemma StringBanks<M>(mem: Memory<M>, bank: int, address: int32, m: Machine<M>)
    requires mem.read(m.cells, bank, address).Some? && mem.readString(m.cells, bank, address).Some?
    ensures ToPiece(mem, SimpleMemRef(bank, address), m) ==
            if bank in {10, 12, 18} then Ok(StringPiece(mem.readString(m.cells, bank, address).value), m)
            else Ok(IntPiece(mem.read(m.cells, bank, address).value), m)
  {
  }
}
