/** The expressions of the bytecode grammar, printed, and where NextExpression finds their end. */
module BytecodeGrammar {
  import opened Bytes
  import opened Bytecode
  import opened Extents

  datatype Expr =
    | Const(value: int32)
    | StoreRegister
    | Cell(bank: byte, location: Expr)
    | Paren(inner: Expr)
    | Unary(op: byte, operand: Expr)
    | Binary(op: byte, left: Expr, right: Expr)

  /** 0xff would turn a bank into the tag of a constant. */
  predicate WellFormed(e: Expr) {
    match e
    case Const(_) => true
    case StoreRegister => true
    case Cell(bank, location) => bank != 0xff && WellFormed(location)
    case Paren(inner) => WellFormed(inner)
    case Unary(_, operand) => WellFormed(operand)
    case Binary(_, left, right) => WellFormed(left) && WellFormed(right)
  }

  /** The banks of all cells in an expression. */
  function Banks(e: Expr): set<byte> {
    match e
    case Const(_) => {}
    case StoreRegister => {}
    case Cell(bank, location) => {bank} + Banks(location)
    case Paren(inner) => Banks(inner)
    case Unary(_, operand) => Banks(operand)
    case Binary(_, left, right) => Banks(left) + Banks(right)
  }

  /** Nothing else is asked of an expression. */
  lemma {:induction false} WellFormedBanks(e: Expr)
    ensures WellFormed(e) <==> 255 !in Banks(e)
  {
    match e
    case Cell(_, location) => WellFormedBanks(location);
    case Paren(inner) => WellFormedBanks(inner);
    case Unary(_, operand) => WellFormedBanks(operand);
    case Binary(_, left, right) =>
      WellFormedBanks(left);
      WellFormedBanks(right);
    case _ =>
  }

  function Print(e: Expr): seq<byte> {
    match e
    case Const(value) => IntToBytecode(value)
    case StoreRegister => [DOLLAR, 0xc8]
    case Cell(bank, location) => [DOLLAR, bank, LBRACKET] + Print(location) + [RBRACKET]
    case Paren(inner) => [LPAREN] + Print(inner) + [RPAREN]
    case Unary(op, operand) => [BACKSLASH, op] + Print(operand)
    case Binary(op, left, right) => Print(left) + [BACKSLASH, op] + Print(right)
  }

  predicate EndsInStoreRegister(e: Expr) {
    match e
    case StoreRegister => true
    case Unary(_, operand) => EndsInStoreRegister(operand)
    case Binary(_, _, right) => EndsInStoreRegister(right)
    case _ => false
  }

  /** Would the bytes `rest` be taken for a continuation of `e`? An operator continues every expression, a bracket
      only the store register, whose two bytes then read as a bank. */
  predicate Continues(e: Expr, rest: seq<byte>) {
    At(rest, 0) == BACKSLASH || (At(rest, 0) == LBRACKET && EndsInStoreRegister(e))
  }

  // ------------------------------------------------------------------------------------------ the proof

  /** The chain of NextArithmatic after a term of known length. */
  lemma AfterTerm(src: seq<byte>, term: seq<byte>, rest: seq<byte>)
    requires src == term + rest && NextTerm(src) == |term|
    ensures NextArithmatic(src) ==
            if At(rest, 0) == BACKSLASH then |term| + 2 + NextArithmatic(Drop(rest, 2)) else |term|
  {
    hide NextTerm, NextExpression;
    DropConcat(term, rest, 0);
    DropConcat(term, rest, 2);
  }

  lemma AfterUnary(op: byte, src: seq<byte>)
    ensures NextArithmatic([BACKSLASH, op] + src) == 2 + NextArithmatic(src)
  {
    hide NextToken, NextExpression;
    var whole := [BACKSLASH, op] + src;
    assert Drop(whole, 2) == src;
    var t := NextTerm(src);
    assert NextTerm(whole) == 2 + t;
    AtDrop(whole, 2, t);
    DropDrop(whole, 2, t + 2);
  }

  /** What the scan makes of an expression printed as `text` in front of `rest`. */
  predicate ScansAs(text: seq<byte>, rest: seq<byte>, endsInStoreRegister: bool) {
    var len := NextArithmatic(text + rest);
    if At(rest, 0) == LBRACKET && endsInStoreRegister then len > |text|
    else if At(rest, 0) == BACKSLASH then len == |text| + 2 + NextArithmatic(Drop(rest, 2))
    else len == |text|
  }

  lemma {:induction false} PrintedArithmatic(e: Expr, rest: seq<byte>)
    requires WellFormed(e)
    ensures ScansAs(Print(e), rest, EndsInStoreRegister(e))
    decreases e
  {
    hide ScansAs;
    match e
    case Const(value) => PrintedConst(value, rest);
    case StoreRegister => PrintedStoreRegister(rest);
    case Cell(bank, location) =>
      PrintedArithmatic(location, [RBRACKET] + rest);
      PrintedCell(bank, Print(location), EndsInStoreRegister(location), rest);
    case Paren(inner) =>
      PrintedArithmatic(inner, [RPAREN] + rest);
      PrintedParen(Print(inner), EndsInStoreRegister(inner), rest);
    case Unary(op, operand) =>
      PrintedArithmatic(operand, rest);
      PrintedUnary(op, Print(operand), rest, EndsInStoreRegister(operand));
    case Binary(op, left, right) =>
      PrintedArithmatic(right, rest);
      PrintedArithmatic(left, [BACKSLASH, op] + (Print(right) + rest));
      PrintedBinary(Print(left), EndsInStoreRegister(left), op, Print(right), rest, EndsInStoreRegister(right));
  }

  lemma PrintedConst(value: int32, rest: seq<byte>)
    ensures ScansAs(IntToBytecode(value), rest, false)
  {
    hide NextArithmatic, NextExpression;
    AfterTerm(IntToBytecode(value) + rest, IntToBytecode(value), rest);
  }

  lemma PrintedStoreRegister(rest: seq<byte>)
    ensures ScansAs([DOLLAR, 0xc8], rest, true)
  {
    hide NextExpression;
    var src := [DOLLAR, 0xc8] + rest;
    if At(rest, 0) == LBRACKET {
      assert NextTerm(src) == NextToken(src) >= 4;
    } else {
      AfterTerm(src, [DOLLAR, 0xc8], rest);
    }
  }

  lemma PrintedCell(bank: byte, location: seq<byte>, store: bool, rest: seq<byte>)
    requires bank != 0xff
    requires ScansAs(location, [RBRACKET] + rest, store)
    ensures ScansAs([DOLLAR, bank, LBRACKET] + location + [RBRACKET], rest, false)
  {
    hide NextArithmatic, NextExpression;
    var cell := [DOLLAR, bank, LBRACKET] + location + [RBRACKET];
    assert Drop(cell + rest, 3) == location + ([RBRACKET] + rest);
    PrecedenceLayersKeepExtent(Drop(cell + rest, 3));
    AfterTerm(cell + rest, cell, rest);
  }

  lemma PrintedParen(inner: seq<byte>, store: bool, rest: seq<byte>)
    requires ScansAs(inner, [RPAREN] + rest, store)
    ensures ScansAs([LPAREN] + inner + [RPAREN], rest, false)
  {
    hide NextArithmatic, NextExpression;
    var paren := [LPAREN] + inner + [RPAREN];
    assert Drop(paren + rest, 1) == inner + ([RPAREN] + rest);
    PrecedenceLayersKeepExtent(Drop(paren + rest, 1));
    AfterTerm(paren + rest, paren, rest);
  }

  lemma PrintedUnary(op: byte, operand: seq<byte>, rest: seq<byte>, store: bool)
    requires ScansAs(operand, rest, store)
    ensures ScansAs([BACKSLASH, op] + operand, rest, store)
  {
    hide NextArithmatic;
    AfterUnary(op, operand + rest);
    assert [BACKSLASH, op] + operand + rest == [BACKSLASH, op] + (operand + rest);
  }

  lemma PrintedBinary(left: seq<byte>, leftStore: bool, op: byte, right: seq<byte>, rest: seq<byte>, store: bool)
    requires ScansAs(left, [BACKSLASH, op] + (right + rest), leftStore)
    requires ScansAs(right, rest, store)
    ensures ScansAs(left + [BACKSLASH, op] + right, rest, store)
  {
    hide NextArithmatic;
    var tail := [BACKSLASH, op] + (right + rest);
    assert Drop(tail, 2) == right + rest;
    assert left + [BACKSLASH, op] + right + rest == left + tail;
  }

  // ------------------------------------------------------------------------------------------ the theorem

  /** NextExpression finds the end of a printed expression exactly when what follows does not continue it. */
  lemma PrintedExpressionExtent(e: Expr, rest: seq<byte>)
    requires WellFormed(e)
    ensures NextExpression(Print(e) + rest) == |Print(e)| <==> !Continues(e, rest)
  {
    hide NextArithmatic, NextExpression;
    PrintedArithmatic(e, rest);
    PrecedenceLayersKeepExtent(Print(e) + rest);
  }
}
