/** Trees written to bytecode and parsed back: the parser builds what the folding factories build from the tree. */
module ParserRoundTrip {
  import opened Bytes
  import opened Sequences
  import opened Bytecode
  import opened Arithmetic
  import opened Extents
  import opened Expressions
  import opened Folding
  import opened Parser
  import U = UnquotedStrings
  import opened Pieces

  /** The operators that have a place in the expression grammar; the assignments have not. */
  predicate IsOperator(operation: int) {
    0 <= operation <= 9 || 40 <= operation <= 45 || operation == 60 || operation == 61
  }

  /** How tightly an operator binds. Terms are level 5. */
  function Level(operation: int): (l: nat)
    requires IsOperator(operation)
    ensures l <= 4
  {
    if operation == 61 then 0
    else if operation == 60 then 1
    else if operation >= 40 then 2
    else if operation <= 1 then 3
    else 4
  }

  /** The trees that have bytecode: no parameters, no strings, nothing already folded. */
  predicate Writable(e: Expression) {
    match e
    case StoreRegister => true
    case IntConstant(_) => true
    case MemoryReference(bank, location) => 0 <= bank < 0x100 && bank != 0xff && bank != 0xc8 && Writable(location)
    case Binary(operation, left, right) => IsOperator(operation) && Writable(left) && Writable(right)
    case Unary(operation, operand) => operation == 1 && Writable(operand)
    case _ => false
  }

  /** The level of what stands there without parentheses. */
  function OwnLevel(e: Expression): (l: nat)
    requires Writable(e)
    ensures l <= 5
  {
    if e.Binary? then Level(e.operation) else 5
  }

  /** The bytecode of a tree where something of level `l` or tighter has to stand, with parentheses where they are
      needed and wherever `wrap` asks for them. Operators of one level associate to the left. */
  function Write(e: Expression, l: nat, wrap: Expression -> bool): seq<byte>
    requires Writable(e) && l <= 5
    decreases e, 1
  {
    if OwnLevel(e) < l || wrap(e) then [LPAREN] + Bare(e, wrap) + [RPAREN] else Bare(e, wrap)
  }

  function Bare(e: Expression, wrap: Expression -> bool): seq<byte>
    requires Writable(e)
    decreases e, 0
  {
    match e
    case StoreRegister => [DOLLAR, 0xc8]
    case IntConstant(value) => IntToBytecode(value)
    case MemoryReference(bank, location) => [DOLLAR, bank, LBRACKET] + Write(location, 0, wrap) + [RBRACKET]
    case Binary(operation, left, right) =>
      Write(left, Level(operation), wrap) + ([BACKSLASH, operation] + Write(right, Level(operation) + 1, wrap))
    case Unary(_, operand) => [BACKSLASH, 1] + Write(operand, 5, wrap)
  }

  // ------------------------------------------------------------------------------------------ the levels of the parser

  function ParseLevel(l: nat, src: seq<byte>): Parse
    requires l <= 5
  {
    match l
    case 0 => GetExpressionBoolean(src)
    case 1 => GetConjunction(src)
    case 2 => GetExpressionCondition(src)
    case 3 => GetExpressionArithmatic(src)
    case 4 => GetProduct(src)
    case 5 => GetExpressionTerm(src)
  }

  function LoopLevel(l: nat, src: seq<byte>, tok: Expression): Parse
    requires l <= 4
  {
    match l
    case 0 => GetExpressionBooleanLoopOr(src, tok)
    case 1 => GetExpressionBooleanLoopAnd(src, tok)
    case 2 => GetExpressionConditionLoop(src, tok)
    case 3 => GetExpressionArithmaticLoop(src, tok)
    case 4 => GetExpressionArithmaticLoopHiPrec(src, tok)
  }

  /** Does an operator of the level stand there? */
  predicate OperatorAt(l: nat, src: seq<byte>) {
    At(src, 0) == BACKSLASH && IsOperator(At(src, 1)) && Level(At(src, 1)) == l
  }

  lemma LevelUnfold(l: nat, src: seq<byte>)
    requires l <= 4
    ensures var first := ParseLevel(l + 1, src);
            ParseLevel(l, src) ==
            if first.Failed? then Failed else Advance(first.len, LoopLevel(l, Drop(src, first.len), first.tree))
  {
    hide GetExpressionTerm, GetExpressionBooleanLoopOr, GetExpressionBooleanLoopAnd, GetExpressionConditionLoop,
         GetExpressionArithmaticLoop, GetExpressionArithmaticLoopHiPrec, Drop;
  }

  lemma LoopUnfold(l: nat, src: seq<byte>, tok: Expression)
    requires l <= 4
    ensures !OperatorAt(l, src) ==> LoopLevel(l, src, tok) == Parsed(tok, 0)
    ensures OperatorAt(l, src) ==>
              var rhs := ParseLevel(l + 1, Drop(src, 2));
              LoopLevel(l, src, tok) ==
              if rhs.Failed? then Failed
              else
                var piece := Create(At(src, 1), tok, rhs.tree);
                if piece.Value? then Advance(rhs.len + 2, LoopLevel(l, Drop(src, rhs.len + 2), piece.value)) else Failed
  {
    hide GetExpressionTerm, GetProduct, GetExpressionArithmatic, GetExpressionCondition, GetConjunction, Drop, Create;
  }

  /** Nothing behind binds tighter than level `l`. */
  predicate NoTighter(rest: seq<byte>, l: nat) {
    forall k: nat :: l < k <= 4 ==> !OperatorAt(k, rest)
  }

  /** What was parsed, and the loop of its level over the rest. */
  function Continue(l: nat, p: Parse, rest: seq<byte>): Parse
    requires l <= 5
  {
    if p.Failed? || l == 5 then p else Advance(p.len, LoopLevel(l, rest, p.tree))
  }

  /** In front of `rest`, `text` parses on level `l` to what the factories made, and the loop of the level goes on. */
  predicate ParsesTo(l: nat, text: seq<byte>, built: Checked<Expression>, rest: seq<byte>)
    requires l <= 5
  {
    ParseLevel(l, text + rest) == Continue(l, Built(built, |text|), rest)
  }

  lemma ContinueStops(l: nat, p: Parse, rest: seq<byte>)
    requires l <= 5 && (l <= 4 ==> !OperatorAt(l, rest))
    ensures Continue(l, p, rest) == p
  {
    hide LoopLevel;
    if p.Parsed? && l <= 4 { LoopUnfold(l, rest, p.tree); }
  }

  lemma ParsesAlone(l: nat, text: seq<byte>, built: Checked<Expression>, rest: seq<byte>)
    requires l <= 5 && ParsesTo(l, text, built, rest) && (l <= 4 ==> !OperatorAt(l, rest))
    ensures ParseLevel(l, text + rest) == Built(built, |text|)
  {
    hide ParseLevel, OperatorAt;
    ContinueStops(l, Built(built, |text|), rest);
  }

  /** What stands alone on a tighter level stands on a looser one. */
  lemma {:induction false} Climb(o: nat, l: nat, text: seq<byte>, built: Checked<Expression>, rest: seq<byte>)
    requires l <= o <= 5 && ParsesTo(o, text, built, rest) && NoTighter(rest, l)
    ensures ParsesTo(l, text, built, rest)
    decreases o
  {
    hide ParseLevel, LoopLevel, OperatorAt, Drop;
    if l < o {
      ParsesAlone(o, text, built, rest);
      LevelUnfold(o - 1, text + rest);
      DropFront(text, rest);
      Climb(o - 1, l, text, built, rest);
    }
  }

  // ------------------------------------------------------------------------------------------ round trip

  lemma {:induction false} ParseWrittenLevel(e: Expression, l: nat, wrap: Expression -> bool, rest: seq<byte>)
    requires Writable(e) && l <= 5 && NoTighter(rest, l)
    ensures ParsesTo(l, Write(e, l, wrap), Rebuild(e), rest)
    decreases e, 1
  {
    hide ParsesTo, OperatorAt, Bare, Rebuild, NoTighter;
    if OwnLevel(e) < l || wrap(e) {
      NoOperator([RPAREN] + rest);
      ParseBare(e, wrap, [RPAREN] + rest);
      Climb(OwnLevel(e), 0, Bare(e, wrap), Rebuild(e), [RPAREN] + rest);
      ParseWrittenParentheses(Bare(e, wrap), Rebuild(e), rest);
      Climb(5, l, [LPAREN] + Bare(e, wrap) + [RPAREN], Rebuild(e), rest);
    } else {
      NoTighterStill(rest, l, OwnLevel(e));
      ParseBare(e, wrap, rest);
      Climb(OwnLevel(e), l, Bare(e, wrap), Rebuild(e), rest);
    }
  }

  lemma NoTighterStill(rest: seq<byte>, l: nat, o: nat)
    requires NoTighter(rest, l) && l <= o
    ensures NoTighter(rest, o)
  {
  }

  lemma NoOperator(rest: seq<byte>)
    requires At(rest, 0) != BACKSLASH
    ensures forall l: nat :: NoTighter(rest, l) && !OperatorAt(l, rest)
  {
  }

  lemma DropFront(text: seq<byte>, rest: seq<byte>)
    ensures Drop(text + rest, |text|) == rest
  {
  }

  lemma {:induction false} ParseBare(e: Expression, wrap: Expression -> bool, rest: seq<byte>)
    requires Writable(e) && NoTighter(rest, OwnLevel(e))
    ensures ParsesTo(OwnLevel(e), Bare(e, wrap), Rebuild(e), rest)
    decreases e, 0
  {
    hide ParsesTo, Create, Write, NoTighter, IntToBytecode;
    match e
    case StoreRegister => ParseWrittenStore(rest);
    case IntConstant(value) => ParseWrittenConstant(value, rest);
    case MemoryReference(bank, location) =>
      NoOperator([RBRACKET] + rest);
      ParseWrittenLevel(location, 0, wrap, [RBRACKET] + rest);
      ParseWrittenCell(bank, Write(location, 0, wrap), Rebuild(location), rest);
    case Unary(_, operand) =>
      TermsAreTightest(rest);
      ParseWrittenLevel(operand, 5, wrap, rest);
      ParseWrittenUnary(Write(operand, 5, wrap), Rebuild(operand), rest);
    case Binary(operation, left, right) =>
      var o := Level(operation);
      var (l, r) := (Write(left, o, wrap), Write(right, o + 1, wrap));
      OperatorOfLevel(operation, r + rest);
      ParseWrittenLevel(left, o, wrap, [BACKSLASH, operation] + (r + rest));
      NoTighterStill(rest, o, o + 1);
      ParseWrittenLevel(right, o + 1, wrap, rest);
      ParseWrittenBinary(operation, l, Rebuild(left), r, Rebuild(right), rest);
  }

  lemma TermsAreTightest(rest: seq<byte>)
    ensures NoTighter(rest, 5)
  {
  }

  lemma LooserIsNoTighter(rest: seq<byte>, l: nat)
    requires NoTighter(rest, l)
    ensures NoTighter(rest, l + 1) && (l + 1 <= 4 ==> !OperatorAt(l + 1, rest))
  {
  }

  lemma OperatorOfLevel(operation: byte, rest: seq<byte>)
    requires IsOperator(operation)
    ensures var src := [BACKSLASH, operation] + rest;
            OperatorAt(Level(operation), src) && NoTighter(src, Level(operation)) && At(src, 1) == operation &&
            Drop(src, 2) == rest
  {
  }

  /** An operator behind its left operand: the loop of its level takes the right one and goes on. */
  lemma ParseWrittenBinary(
      operation: byte, l: seq<byte>, left: Checked<Expression>, r: seq<byte>, right: Checked<Expression>,
      rest: seq<byte>)
    requires IsOperator(operation) && NoTighter(rest, Level(operation))
    requires ParsesTo(Level(operation), l, left, [BACKSLASH, operation] + (r + rest))
    requires ParsesTo(Level(operation) + 1, r, right, rest)
    ensures ParsesTo(Level(operation), l + ([BACKSLASH, operation] + r), Applied(operation, left, right), rest)
  {
    hide ParseLevel, LoopLevel, OperatorAt, Create, Drop;
    var (o, behind) := (Level(operation), [BACKSLASH, operation] + (r + rest));
    Assoc(l, [BACKSLASH, operation] + r, rest);
    Assoc([BACKSLASH, operation], r, rest);
    if left.Value? {
      OperatorOfLevel(operation, r + rest);
      LoopUnfold(o, behind, left.value);
      LooserIsNoTighter(rest, o);
      ParsesAlone(o + 1, r, right, rest);
      DropDrop(behind, 2, |r|);
      DropFront(r, rest);
    }
  }

  function Applied(operation: int, left: Checked<Expression>, right: Checked<Expression>): Checked<Expression> {
    var l :- left;
    var r :- right;
    Create(operation, l, r)
  }

  lemma ParseWrittenStore(rest: seq<byte>)
    ensures ParsesTo(5, [DOLLAR, 0xc8], Value(StoreRegister), rest)
  {
    hide GetExpression, GetExpressionBoolean, Drop;
    var src := [DOLLAR, 0xc8] + rest;
    AtDrop(src, 1, 0);
    assert GetExpressionTerm(src) == Parsed(StoreRegister, 2);
  }

  lemma ParseWrittenConstant(value: int32, rest: seq<byte>)
    ensures ParsesTo(5, IntToBytecode(value), Value(IntConstant(value)), rest)
  {
    hide GetExpression, GetExpressionBoolean;
    var src := IntToBytecode(value) + rest;
    ReadBackI32(value, rest);
    assert Drop(Drop(src, 1), 1) == I32Bytes(value) + rest;
    AtDrop(src, 1, 0);
    assert GetExpressionTerm(src) == Parsed(IntConstant(value), 6);
  }

  lemma ParseWrittenUnary(text: seq<byte>, operand: Checked<Expression>, rest: seq<byte>)
    requires ParsesTo(5, text, operand, rest)
    ensures ParsesTo(5, [BACKSLASH, 1] + text, if operand.Value? then Value(Unary(1, operand.value)) else operand, rest)
  {
    hide GetExpressionToken, GetExpressionBoolean;
    assert Drop([BACKSLASH, 1] + text + rest, 2) == text + rest;
  }

  lemma ParseWrittenCell(bank: byte, text: seq<byte>, location: Checked<Expression>, rest: seq<byte>)
    requires bank != 0xff && bank != 0xc8 && ParsesTo(0, text, location, [RBRACKET] + rest)
    ensures ParsesTo(5, [DOLLAR, bank, LBRACKET] + text + [RBRACKET],
                     if location.Value? then Value(CreateMemoryReference(bank, location.value)) else location, rest)
  {
    hide GetExpressionTerm, GetExpressionBoolean;
    var src := [DOLLAR, bank, LBRACKET] + text + [RBRACKET] + rest;
    assert Drop(src, 3) == text + ([RBRACKET] + rest);
    assert At(src, 0) == DOLLAR && At(src, 1) == bank && At(src, 2) == LBRACKET && At(src, 3 + |text|) == RBRACKET;
    NoOperator([RBRACKET] + rest);
    ParsesAlone(0, text, location, [RBRACKET] + rest);
    BracketedTerm(src, |text|, location);
  }

  lemma BracketedTerm(src: seq<byte>, len: nat, location: Checked<Expression>)
    requires At(src, 0) == DOLLAR && At(src, 1) != 0xff && At(src, 1) != 0xc8 && At(src, 2) == LBRACKET
    requires At(src, 3 + len) == RBRACKET && GetExpressionBoolean(Drop(src, 3)) == Built(location, len)
    ensures GetExpressionTerm(src) ==
            if location.Value? then Parsed(CreateMemoryReference(At(src, 1), location.value), len + 4) else Failed
  {
    hide GetExpressionBoolean, CreateMemoryReference, Drop;
    var s := Drop(src, 1);
    AtDrop(src, 1, 0);
    AtDrop(src, 1, 1);
    AtDrop(src, 1, 2 + len);
    AtDrop(src, 3, len);
    DropDrop(src, 1, 2);
    assert GetExpression(Drop(s, 2)) == Built(location, len);
  }

  lemma ParseWrittenParentheses(text: seq<byte>, inner: Checked<Expression>, rest: seq<byte>)
    requires ParsesTo(0, text, inner, [RPAREN] + rest)
    ensures ParsesTo(5, [LPAREN] + text + [RPAREN], inner, rest)
  {
    hide GetExpressionBoolean, GetExpressionToken;
    var src := [LPAREN] + text + [RPAREN] + rest;
    NoOperator([RPAREN] + rest);
    ParsesAlone(0, text, inner, [RPAREN] + rest);
    assert Drop(src, 1) == text + ([RPAREN] + rest);
    assert At(src, 0) == LPAREN && At(src, 1 + |text|) == RPAREN;
  }

  /** Parsing the bytecode of a tree succeeds exactly when the tree can be folded, consumes the bytecode to its last
      byte, and gives a tree with the same value, errors and effects on every machine. This holds with only the
      parentheses that the grammar needs, and with any others. */
  lemma ParseWritten<M>(mem: Memory<M>, e: Expression, wrap: Expression -> bool, rest: seq<byte>, m: Machine<M>)
    requires Writable(e) && At(rest, 0) != BACKSLASH
    ensures var text := Write(e, 0, wrap);
            var parsed := GetExpression(text + rest);
            (parsed.Parsed? <==> FoldsCleanly(mem, e, m)) &&
            (parsed.Parsed? ==> parsed.len == |text| && Eval(mem, parsed.tree, m) == Eval(mem, e, m))
  {
    hide GetExpressionBoolean, Rebuild, Eval, LoopLevel, OperatorAt;
    NoOperator(rest);
    ParseWrittenLevel(e, 0, wrap, rest);
    ParsesAlone(0, Write(e, 0, wrap), Rebuild(e), rest);
    RebuildSucceeds(mem, e, m);
    if Rebuild(e).Value? {
      RebuildKeepsEval(mem, e, m);
    }
  }

  /** A unary plus in front changes nothing but the length, of anything and at every level. */
  lemma {:induction false} PlusInFront(l: nat, src: seq<byte>)
    requires l <= 5
    ensures ParseLevel(l, [0x5c, 0] + src) == Advance(2, ParseLevel(l, src))
    decreases 5 - l
  {
    hide GetExpressionBoolean, GetConjunction, GetExpressionCondition, GetExpressionArithmatic, GetProduct, Drop,
         LoopLevel;
    var text := [0x5c, 0] + src;
    DropConcat([0x5c, 0], src, 0);
    assert Drop(src, 0) == src by {
      DropNothing(src);
    }
    if l < 5 {
      hide ParseLevel;
      PlusInFront(l + 1, src);
      LevelUnfold(l, src);
      LevelUnfold(l, text);
      var first := ParseLevel(l + 1, src);
      if first.Parsed? {
        DropConcat([0x5c, 0], src, first.len);
      }
    }
  }

  lemma DropNothing(src: seq<byte>)
    ensures Drop(src, 0) == src
  {
  }

  /** What does not start with a dollar sign, a parenthesis or one of the two unary operators is no expression. */
  lemma {:induction false} NoTerm(l: nat, src: seq<byte>)
    requires l <= 5
    requires At(src, 0) != '$' as int && At(src, 0) != '(' as int
    requires At(src, 0) == '\\' as int ==> At(src, 1) > 1
    ensures ParseLevel(l, src) == Failed
    decreases 5 - l
  {
    hide GetExpressionBoolean, GetConjunction, GetExpressionCondition, GetExpressionArithmatic, GetProduct, Drop,
         LoopLevel;
    if l < 5 {
      hide ParseLevel;
      NoTerm(l + 1, src);
      LevelUnfold(l, src);
    }
  }

  /** Without a closing parenthesis nothing is a term. */
  lemma NotClosed(e: Expression, wrap: Expression -> bool, rest: seq<byte>)
    requires Writable(e) && At(rest, 0) != BACKSLASH && At(rest, 0) != 0x29
    ensures GetExpressionTerm([0x28] + Write(e, 0, wrap) + rest) == Failed
  {
    hide Rebuild, LoopLevel, OperatorAt, Write, Writable, GetExpressionTerm, GetExpressionBoolean;
    var text := Write(e, 0, wrap);
    NoOperator(rest);
    ParseWrittenLevel(e, 0, wrap, rest);
    ParsesAlone(0, text, Rebuild(e), rest);
    OpenParenthesis(text, Rebuild(e), rest);
  }

  lemma OpenParenthesis(text: seq<byte>, inner: Checked<Expression>, rest: seq<byte>)
    requires GetExpressionBoolean(text + rest) == Built(inner, |text|) && At(rest, 0) != 0x29
    ensures GetExpressionTerm([0x28] + text + rest) == Failed
  {
    hide GetExpressionBoolean;
    var src := [0x28] + text + rest;
    assert Drop(src, 1) == text + rest && At(src, 1 + |text|) == At(rest, 0);
  }

  /** Without a closing bracket nothing is a reference. */
  lemma NoBracket(e: Expression, wrap: Expression -> bool, bank: byte, rest: seq<byte>)
    requires Writable(e) && At(rest, 0) != BACKSLASH && At(rest, 0) != 0x5d && bank != 0xff && bank != 0xc8
    ensures GetExpressionTerm([0x24, bank, 0x5b] + Write(e, 0, wrap) + rest) == Failed
  {
    hide Rebuild, LoopLevel, OperatorAt, Write, Writable, GetExpressionTerm, GetExpressionBoolean;
    var text := Write(e, 0, wrap);
    NoOperator(rest);
    ParseWrittenLevel(e, 0, wrap, rest);
    ParsesAlone(0, text, Rebuild(e), rest);
    OpenBracket(bank, text, Rebuild(e), rest);
  }

  lemma OpenBracket(bank: byte, text: seq<byte>, location: Checked<Expression>, rest: seq<byte>)
    requires GetExpressionBoolean(text + rest) == Built(location, |text|) && At(rest, 0) != 0x5d
    requires bank != 0xff && bank != 0xc8
    ensures GetExpressionTerm([0x24, bank, 0x5b] + text + rest) == Failed
  {
    hide GetExpressionBoolean;
    var src := [0x24, bank, 0x5b] + text + rest;
    var s := Drop(src, 1);
    assert s == [bank, 0x5b] + text + rest;
    assert Drop(s, 2) == text + rest && At(s, 2 + |text|) == At(rest, 0);
    assert GetExpression(Drop(s, 2)) == Built(location, |text|);
    assert GetExpressionToken(s) == Failed;
  }

  predicate Nowhere(e: Expression) {
    false
  }

  /** With the parentheses that the grammar needs and no others, bytecode is parsed as the folded tree. */
  lemma ParsedAs(e: Expression, text: seq<byte>, tree: Expression, rest: seq<byte>)
    requires Writable(e) && At(rest, 0) != BACKSLASH
    requires Write(e, 0, Nowhere) == text && Rebuild(e) == Value(tree)
    ensures GetExpression(text + rest) == Parsed(tree, |text|)
  {
    hide GetExpressionBoolean, Rebuild, LoopLevel, OperatorAt, Write;
    NoOperator(rest);
    ParseWrittenLevel(e, 0, Nowhere, rest);
    ParsesAlone(0, text, Rebuild(e), rest);
  }

  lemma ConstantInBytes(l: nat)
    requires l <= 5
    ensures Write(IntConstant(1), l, Nowhere) == [0x24, 0xff, 1, 0, 0, 0]
    ensures Write(IntConstant(251), l, Nowhere) == [0x24, 0xff, 0xfb, 0, 0, 0]
    ensures Write(IntConstant(340), l, Nowhere) == [0x24, 0xff, 0x54, 1, 0, 0]
  {
  }

  /** 340 + intD[251] */
  lemma SumInBytes()
    ensures var sum := Binary(0, IntConstant(340), MemoryReference(3, IntConstant(251)));
            Write(sum, 0, Nowhere) ==
            [0x24, 0xff, 0x54, 1, 0, 0, 0x5c, 0, 0x24, 3, 0x5b, 0x24, 0xff, 0xfb, 0, 0, 0, 0x5d]
  {
    ConstantInBytes(0);
    ConstantInBytes(3);
    var cell := MemoryReference(3, IntConstant(251));
    assert Write(cell, 4, Nowhere) == Bare(cell, Nowhere) == [0x24, 3, 0x5b, 0x24, 0xff, 0xfb, 0, 0, 0, 0x5d];
  }

  function CellOfSum(): Expression {
    MemoryReference(3, Binary(0, IntConstant(340), MemoryReference(3, IntConstant(251))))
  }

  lemma WrittenCell(bank: byte, location: Expression, l: nat)
    requires l <= 5 && bank != 0xff && bank != 0xc8 && Writable(location)
    ensures Write(MemoryReference(bank, location), l, Nowhere) ==
            [0x24, bank, 0x5b] + Write(location, 0, Nowhere) + [0x5d]
  {
  }

  lemma CellInBytes()
    ensures Write(CellOfSum(), 2, Nowhere) ==
            [0x24, 3, 0x5b, 0x24, 0xff, 0x54, 1, 0, 0, 0x5c, 0, 0x24, 3, 0x5b, 0x24, 0xff, 0xfb, 0, 0, 0, 0x5d, 0x5d]
  {
    hide Write;
    SumInBytes();
    WrittenCell(3, CellOfSum().location, 2);
  }

  lemma WrittenComparison(l: Expression, r: Expression)
    requires Writable(l) && Writable(r)
    ensures Write(Binary(40, l, r), 0, Nowhere) == Write(l, 2, Nowhere) + ([0x5c, 0x28] + Write(r, 3, Nowhere))
  {
    var e := Binary(40, l, r);
    assert Write(e, 0, Nowhere) == Bare(e, Nowhere);
  }

  function FoldedCell(): Expression {
    MemoryReference(3, Binary(0, IntConstant(340), SimpleMemRef(3, 251)))
  }

  lemma CellFolds()
    ensures Rebuild(CellOfSum()) == Value(FoldedCell()) && Writable(CellOfSum())
  {
  }

  lemma ConditionText()
    ensures Write(Binary(40, CellOfSum(), IntConstant(1)), 0, Nowhere) ==
            [0x24, 3, 0x5b, 0x24, 0xff, 0x54, 1, 0, 0, 0x5c, 0, 0x24, 3, 0x5b, 0x24, 0xff, 0xfb, 0, 0, 0,
             0x5d, 0x5d, 0x5c, 0x28, 0x24, 0xff, 1, 0, 0, 0]
  {
    CellInBytes();
    CellFolds();
    ConstantInBytes(3);
    hide Write, CellOfSum;
    WrittenComparison(CellOfSum(), IntConstant(1));
  }

  lemma ConditionFolds()
    ensures Rebuild(Binary(40, CellOfSum(), IntConstant(1))) == Value(Binary(40, FoldedCell(), IntConstant(1)))
  {
    CellFolds();
    CellIsReference();
    hide CellOfSum, FoldedCell;
  }

  /** intD[340 + intD[251]] == 1, as bytes and as a tree. */
  lemma ConditionInBytes(rest: seq<byte>)
    requires At(rest, 0) != BACKSLASH
    ensures GetExpression([0x24, 3, 0x5b, 0x24, 0xff, 0x54, 1, 0, 0, 0x5c, 0,
                           0x24, 3, 0x5b, 0x24, 0xff, 0xfb, 0, 0, 0, 0x5d, 0x5d,
                           0x5c, 0x28, 0x24, 0xff, 1, 0, 0, 0] + rest) ==
            Parsed(Binary(40, FoldedCell(), IntConstant(1)), 30)
  {
    hide GetExpression, Write, CellOfSum, FoldedCell, Rebuild;
    CellFolds();
    ConditionText();
    ConditionFolds();
    var e := Binary(40, CellOfSum(), IntConstant(1));
    ParsedAs(e, Write(e, 0, Nowhere), Binary(40, FoldedCell(), IntConstant(1)), rest);
  }

  lemma CellIsReference()
    ensures FoldedCell().MemoryReference?
  {
  }

  // ------------------------------------------------------------------------------------------ strings

  /** boost::replace_all of an escaped quote by a quote. */
  function Unescape(text: seq<byte>): seq<byte> {
    if text == [] then []
    else if |text| >= 2 && text[0] == BACKSLASH && text[1] == QUOTE then [QUOTE] + Unescape(text[2..])
    else [text[0]] + Unescape(text[1..])
  }

  /** Is there an escaped quote in the text? */
  predicate HasEscapedQuote(text: seq<byte>) {
    exists i :: 0 <= i < |text| - 1 && text[i] == BACKSLASH && text[i + 1] == QUOTE
  }

  /** ExpressionParser::GetString. None: the end of the string is not found. */
  function GetString(src: seq<byte>): Option<(seq<byte>, nat)> {
    match StringExtent(src)
    case None => None
    case Some(len) =>
      var text := if At(src, 0) == QUOTE then Bytes.Between(src, 1, len - 1) else Bytes.Between(src, 0, len);
      Some((Unescape(text), len))
  }

  lemma {:induction false} UnescapeShortens(text: seq<byte>)
    ensures |Unescape(text)| <= |text|
    ensures |Unescape(text)| == |text| ==> Unescape(text) == text
    ensures HasEscapedQuote(text) <==> |Unescape(text)| < |text|
    decreases |text|
  {
    if text == [] {
    } else if |text| >= 2 && text[0] == BACKSLASH && text[1] == QUOTE {
      UnescapeShortens(text[2..]);
    } else {
      UnescapeShortens(text[1..]);
      EscapedQuoteBehind(text);
    }
  }

  lemma EscapedQuoteBehind(text: seq<byte>)
    requires text != [] && !(|text| >= 2 && text[0] == BACKSLASH && text[1] == QUOTE)
    ensures HasEscapedQuote(text) <==> HasEscapedQuote(text[1..])
  {
    var tail := text[1..];
    if i :| 0 <= i < |text| - 1 && text[i] == BACKSLASH && text[i + 1] == QUOTE {
      assert tail[i - 1] == BACKSLASH && tail[i] == QUOTE;
    }
    if i :| 0 <= i < |tail| - 1 && tail[i] == BACKSLASH && tail[i + 1] == QUOTE {
      assert text[i + 1] == BACKSLASH && text[i + 2] == QUOTE;
    }
  }

  /** A serialised string is read back to its last byte as the same text if and only if it is quotable and holds no
      escaped quote: the serialiser does not put back the backslashes that the parser takes away. */
  lemma StringReadBack(text: seq<byte>, rest: seq<byte>)
    ensures GetString(Quote(text) + rest) == Some((text, |Quote(text)|)) <==> Quotable(text) && !HasEscapedQuote(text)
  {
    hide StringExtent, Unescape, HasEscapedQuote;
    QuotedStringExtent(text, rest);
    UnescapeShortens(text);
    assert Bytes.Between(Quote(text) + rest, 1, |text| + 1) == text;
  }

  /** Every quote with a backslash in front. */
  function EscapeQuotes(text: seq<byte>): seq<byte> {
    if text == [] then []
    else (if text[0] == QUOTE then [BACKSLASH, QUOTE] else [text[0]]) + EscapeQuotes(text[1..])
  }

  lemma UnescapePair(rest: seq<byte>)
    ensures Unescape([BACKSLASH, QUOTE] + rest) == [QUOTE] + Unescape(rest)
  {
    assert ([BACKSLASH, QUOTE] + rest)[2..] == rest;
  }

  lemma UnescapeOther(b: byte, rest: seq<byte>)
    requires b != BACKSLASH || rest == [] || rest[0] != QUOTE
    ensures Unescape([b] + rest) == [b] + Unescape(rest)
  {
    assert ([b] + rest)[1..] == rest;
  }

  /** Escaped quotes are restored, in any text. */
  lemma {:induction false} UnescapeRestores(text: seq<byte>)
    ensures Unescape(EscapeQuotes(text)) == text
    decreases |text|
  {
    hide Unescape;
    if text == [] {
      assert Unescape([]) == [] by { UnescapeNothing(); }
    } else {
      UnescapeRestores(text[1..]);
      assert text == [text[0]] + text[1..];
      if text[0] == QUOTE {
        UnescapePair(EscapeQuotes(text[1..]));
      } else {
        UnescapeOther(text[0], EscapeQuotes(text[1..]));
      }
    }
  }

  lemma UnescapeNothing()
    ensures Unescape([]) == []
  {
  }

  /** What is replaced is every pair, wherever it stands, and nothing else. */
  lemma {:induction false} UnescapeSplits(a: seq<byte>, b: seq<byte>)
    ensures Unescape(a + [BACKSLASH, QUOTE] + b) == Unescape(a) + [QUOTE] + Unescape(b)
    ensures !HasEscapedQuote(a) ==> Unescape(a) == a
    decreases |a|
  {
    UnescapeShortens(a);
    hide Unescape, HasEscapedQuote;
    if a == [] {
      assert a + [BACKSLASH, QUOTE] + b == [BACKSLASH, QUOTE] + b;
      UnescapePair(b);
      UnescapeNothing();
    } else if |a| >= 2 && a[0] == BACKSLASH && a[1] == QUOTE {
      UnescapeSplits(a[2..], b);
      assert a == [BACKSLASH, QUOTE] + a[2..];
      UnescapePair(a[2..]);
      SplitFurther([BACKSLASH, QUOTE], a[2..], b);
      UnescapePair(a[2..] + [BACKSLASH, QUOTE] + b);
    } else {
      UnescapeSplits(a[1..], b);
      assert a == [a[0]] + a[1..];
      UnescapeOther(a[0], a[1..]);
      SplitFurther([a[0]], a[1..], b);
      UnescapeOther(a[0], a[1..] + [BACKSLASH, QUOTE] + b);
    }
  }

  lemma SplitFurther(first: seq<byte>, a: seq<byte>, b: seq<byte>)
    ensures first + a + [BACKSLASH, QUOTE] + b == first + (a + [BACKSLASH, QUOTE] + b)
  {
  }

  /** A quoted string with escaped quotes is read as the text without the backslashes. */
  lemma EscapedReadBack(text: seq<byte>, rest: seq<byte>)
    requires Quotable(EscapeQuotes(text))
    ensures GetString(Quote(EscapeQuotes(text)) + rest) == Some((text, |EscapeQuotes(text)| + 2))
  {
    hide StringExtent, Unescape, EscapeQuotes;
    var escaped := EscapeQuotes(text);
    QuotedStringExtent(escaped, rest);
    UnescapeRestores(text);
    assert Bytes.Between(Quote(escaped) + rest, 1, |escaped| + 1) == escaped;
  }

  /** A bare string is read from its first byte on, up to where the scanner finds its end. */
  lemma BareReadBack(segments: seq<U.Segment>, rest: seq<byte>)
    requires forall s <- segments :: U.Bare(s)
    requires !IsBareStringByte(At(rest, 0)) && !StartsWithPrint(rest, 0)
    requires At(U.Print(segments) + rest, 0) != QUOTE
    ensures var text := U.Print(segments);
            var n := if text != [] && text[|text| - 1] == LOWER_A && At(rest, 0) <= 1 then |text| - 1 else |text|;
            GetString(text + rest) == Some((Unescape(text[..n]), n))
  {
    hide StringExtent, Unescape, U.Print;
    U.UnquotedStringExtent(segments, rest);
    var text := U.Print(segments);
    assert Bytes.Between(text + rest, 0, |text|) == text[..|text|];
    if text != [] {
      assert Bytes.Between(text + rest, 0, |text| - 1) == text[..|text| - 1];
    }
  }
}
