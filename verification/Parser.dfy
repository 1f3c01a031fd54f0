/** The recursive descent parser that builds expressions from bytecode, and its agreement with the extents. */
module Parser {
  import opened Bytes
  import opened Bytecode
  import opened Arithmetic
  import opened Extents
  import opened Expressions

  /** `len` is how far the parser moved its pointer. */
  datatype Parse = Parsed(tree: Expression, len: nat) | Failed

  function Advance(n: nat, p: Parse): Parse {
    match p
    case Parsed(tree, len) => Parsed(tree, n + len)
    case Failed => Failed
  }

  function Built(e: Checked<Expression>, len: nat): Parse {
    if e.Value? then Parsed(e.value, len) else Failed
  }

  // ------------------------------------------------------------------------------------------ terms

  /** The pointer is behind the dollar sign. */
  function GetExpressionToken(src: seq<byte>): Parse
    decreases |src|, 0
  {
    if At(src, 0) == 0xff then Parsed(IntConstant(ReadI32(Drop(src, 1))), 5)
    else if At(src, 0) == 0xc8 then Parsed(StoreRegister, 1)
    else if At(src, 1) == LBRACKET then
      match GetExpression(Drop(src, 2))
      case Failed => Failed
      case Parsed(location, len) =>
        if At(src, 2 + len) != RBRACKET then Failed
        else Parsed(CreateMemoryReference(At(src, 0), location), len + 3)
    else Failed
  }

  function GetExpressionTerm(src: seq<byte>): Parse
    decreases |src|, 1
  {
    if At(src, 0) == DOLLAR then Advance(1, GetExpressionToken(Drop(src, 1)))
    else if At(src, 0) == BACKSLASH && At(src, 1) == 0 then Advance(2, GetExpressionTerm(Drop(src, 2)))
    else if At(src, 0) == BACKSLASH && At(src, 1) == 1 then
      match GetExpressionTerm(Drop(src, 2))
      case Failed => Failed
      case Parsed(operand, len) => Parsed(Unary(1, operand), len + 2)
    else if At(src, 0) == LPAREN then
      match GetExpressionBoolean(Drop(src, 1))
      case Failed => Failed
      case Parsed(inner, len) => if At(src, 1 + len) != RPAREN then Failed else Parsed(inner, len + 2)
    else Failed
  }

  // ------------------------------------------------------------------------------------------ operators

  predicate OperatorIn(src: seq<byte>, lo: byte, hi: byte) {
    At(src, 0) == BACKSLASH && lo <= At(src, 1) <= hi
  }

  function GetExpressionArithmaticLoopHiPrec(src: seq<byte>, tok: Expression): Parse
    decreases |src|, 2
  {
    if !OperatorIn(src, 0x02, 0x09) then Parsed(tok, 0)
    else
      match GetExpressionTerm(Drop(src, 2))
      case Failed => Failed
      case Parsed(rhs, len) =>
        match Create(At(src, 1), tok, rhs)
        case Value(piece) => Advance(len + 2, GetExpressionArithmaticLoopHiPrec(Drop(src, len + 2), piece))
        case _ => Failed
  }

  /** A term and the tighter operators behind it. */
  function GetProduct(src: seq<byte>): Parse
    decreases |src|, 3
  {
    match GetExpressionTerm(src)
    case Failed => Failed
    case Parsed(term, len) => Advance(len, GetExpressionArithmaticLoopHiPrec(Drop(src, len), term))
  }

  function GetExpressionArithmaticLoop(src: seq<byte>, tok: Expression): Parse
    decreases |src|, 4
  {
    if !OperatorIn(src, 0x00, 0x01) then Parsed(tok, 0)
    else
      match GetProduct(Drop(src, 2))
      case Failed => Failed
      case Parsed(rhs, len) =>
        match Create(At(src, 1), tok, rhs)
        case Value(piece) => Advance(len + 2, GetExpressionArithmaticLoop(Drop(src, len + 2), piece))
        case _ => Failed
  }

  function GetExpressionArithmatic(src: seq<byte>): Parse
    decreases |src|, 5
  {
    match GetProduct(src)
    case Failed => Failed
    case Parsed(term, len) => Advance(len, GetExpressionArithmaticLoop(Drop(src, len), term))
  }

  function GetExpressionConditionLoop(src: seq<byte>, tok: Expression): Parse
    decreases |src|, 6
  {
    if !OperatorIn(src, 0x28, 0x2d) then Parsed(tok, 0)
    else
      match GetExpressionArithmatic(Drop(src, 2))
      case Failed => Failed
      case Parsed(rhs, len) =>
        match Create(At(src, 1), tok, rhs)
        case Value(piece) => Advance(len + 2, GetExpressionConditionLoop(Drop(src, len + 2), piece))
        case _ => Failed
  }

  function GetExpressionCondition(src: seq<byte>): Parse
    decreases |src|, 7
  {
    match GetExpressionArithmatic(src)
    case Failed => Failed
    case Parsed(term, len) => Advance(len, GetExpressionConditionLoop(Drop(src, len), term))
  }

  function GetExpressionBooleanLoopAnd(src: seq<byte>, tok: Expression): Parse
    decreases |src|, 8
  {
    if !OperatorIn(src, 0x3c, 0x3c) then Parsed(tok, 0)
    else
      match GetExpressionCondition(Drop(src, 2))
      case Failed => Failed
      case Parsed(rhs, len) =>
        match Create(0x3c, tok, rhs)
        case Value(piece) => Advance(len + 2, GetExpressionBooleanLoopAnd(Drop(src, len + 2), piece))
        case _ => Failed
  }

  /** A condition and the conjuncts behind it. */
  function GetConjunction(src: seq<byte>): Parse
    decreases |src|, 9
  {
    match GetExpressionCondition(src)
    case Failed => Failed
    case Parsed(term, len) => Advance(len, GetExpressionBooleanLoopAnd(Drop(src, len), term))
  }

  function GetExpressionBooleanLoopOr(src: seq<byte>, tok: Expression): Parse
    decreases |src|, 10
  {
    if !OperatorIn(src, 0x3d, 0x3d) then Parsed(tok, 0)
    else
      match GetConjunction(Drop(src, 2))
      case Failed => Failed
      case Parsed(rhs, len) =>
        match Create(0x3d, tok, rhs)
        case Value(piece) => Advance(len + 2, GetExpressionBooleanLoopOr(Drop(src, len + 2), piece))
        case _ => Failed
  }

  function GetExpressionBoolean(src: seq<byte>): Parse
    decreases |src|, 11
  {
    match GetConjunction(src)
    case Failed => Failed
    case Parsed(term, len) => Advance(len, GetExpressionBooleanLoopOr(Drop(src, len), term))
  }

  function GetExpression(src: seq<byte>): Parse
    decreases |src|, 12
  {
    GetExpressionBoolean(src)
  }

  // ------------------------------------------------------------------------------------------ agreement

  /** `len` is behind a term of the chain of terms and operators that the scanner follows. */
  predicate OnChain(src: seq<byte>, len: nat)
    decreases |src|
  {
    var t := NextTerm(src);
    t == len || (At(src, t) == BACKSLASH && t + 2 <= len && OnChain(Drop(src, t + 2), len - t - 2))
  }

  /** The store register, behind unary operators or none. */
  predicate StoreTerm(src: seq<byte>, len: nat)
    decreases |src|
  {
    if At(src, 0) == BACKSLASH then len >= 2 && StoreTerm(Drop(src, 2), len - 2)
    else At(src, 0) == DOLLAR && At(src, 1) == 0xc8 && len == 2
  }

  /** The term of the chain that ends at `len` is a store register. */
  predicate StoreEnd(src: seq<byte>, len: nat)
    decreases |src|
  {
    var t := NextTerm(src);
    StoreTerm(src, len) ||
    (At(src, t) == BACKSLASH && t + 2 <= len && StoreEnd(Drop(src, t + 2), len - t - 2))
  }

  /** Is there a store register with a bracket behind it? The scanner takes its second byte for a bank. */
  predicate StoreBeforeBracket(src: seq<byte>, len: nat) {
    At(src, len) == LBRACKET && StoreEnd(src, len)
  }

  predicate Links(src: seq<byte>, len: nat) {
    StoreBeforeBracket(src, len) || OnChain(src, len)
  }

  lemma LinkTerm(src: seq<byte>)
    ensures Links(src, NextTerm(src))
  {
    hide NextTerm, StoreEnd;
  }

  lemma LinkUnary(src: seq<byte>, len: nat)
    requires At(src, 0) == BACKSLASH && Links(Drop(src, 2), len)
    ensures Links(src, len + 2)
  {
    hide NextToken, NextExpression, Drop;
    var t := NextTerm(Drop(src, 2));
    assert NextTerm(src) == 2 + t;
    hide NextTerm;
    AtDrop(src, 2, t);
    AtDrop(src, 2, len);
    DropDrop(src, 2, t + 2);
  }

  lemma {:induction false} Join(src: seq<byte>, n: nat, k: nat)
    requires Links(src, n) && At(src, n) == BACKSLASH && Links(Drop(src, n + 2), k)
    ensures Links(src, n + 2 + k)
    decreases |src|
  {
    hide NextTerm, Drop, StoreTerm;
    AtDrop(src, n + 2, k);
    var t := NextTerm(src);
    if t != n {
      AtDrop(src, t + 2, n - t - 2);
      AtDrop(src, t + 2, n - t + k);
      DropDrop(src, t + 2, n - t);
      Join(Drop(src, t + 2), n - t - 2, k);
    }
  }

  /** At the end of a term on its chain the scanner goes on if and only if an operator follows. */
  lemma {:induction false} ChainExtent(src: seq<byte>, len: nat)
    requires OnChain(src, len)
    ensures NextArithmatic(src) ==
            if At(src, len) == BACKSLASH then len + 2 + NextArithmatic(Drop(src, len + 2)) else len
    decreases |src|
  {
    hide NextTerm, Drop;
    var t := NextTerm(src);
    if t != len {
      AtDrop(src, t + 2, len - t - 2);
      DropDrop(src, t + 2, len - t);
      ChainExtent(Drop(src, t + 2), len - t - 2);
    }
  }

  lemma {:induction false} StoreTermGoesOn(src: seq<byte>, len: nat)
    requires At(src, len) == LBRACKET && StoreTerm(src, len)
    ensures NextTerm(src) > len
    decreases |src|
  {
    hide NextExpression, Drop;
    if At(src, 0) == BACKSLASH {
      AtDrop(src, 2, len - 2);
      StoreTermGoesOn(Drop(src, 2), len - 2);
    }
  }

  /** At a store register in front of a bracket it always does. */
  lemma {:induction false} StoreGoesOn(src: seq<byte>, len: nat)
    requires StoreBeforeBracket(src, len)
    ensures NextArithmatic(src) > len
    decreases |src|
  {
    hide NextTerm, Drop, StoreTerm;
    var t := NextTerm(src);
    if StoreTerm(src, len) {
      StoreTermGoesOn(src, len);
    } else {
      AtDrop(src, t + 2, len - t - 2);
      StoreGoesOn(Drop(src, t + 2), len - t - 2);
    }
  }

  lemma ClosedExtent(src: seq<byte>, len: nat)
    requires Links(src, len) && At(src, len) != LBRACKET && At(src, len) != BACKSLASH
    ensures NextExpression(src) == len
  {
    hide NextArithmatic, NextExpression, OnChain;
    ChainExtent(src, len);
    PrecedenceLayersKeepExtent(src);
  }

  lemma {:induction false} TokenLinks(src: seq<byte>)
    requires At(src, 0) == DOLLAR && GetExpressionToken(Drop(src, 1)).Parsed?
    ensures Links(src, 1 + GetExpressionToken(Drop(src, 1)).len)
    decreases |src|, 0
  {
    hide NextExpression, NextArithmatic, GetExpressionBoolean, Links, Drop;
    AtDrop(src, 1, 0);
    AtDrop(src, 1, 1);
    DropDrop(src, 1, 2);
    LinkTerm(src);
    if At(src, 1) == 0xc8 {
      if At(src, 2) == LBRACKET { StoreLinks(src); }
    } else if At(src, 1) != 0xff {
      var location := GetExpression(Drop(src, 3));
      AtDrop(src, 1, 2 + location.len);
      AtDrop(src, 3, location.len);
      BooleanLinks(Drop(src, 3));
      ClosedExtent(Drop(src, 3), location.len);
    }
  }

  lemma StoreLinks(src: seq<byte>)
    requires At(src, 0) == DOLLAR && At(src, 1) == 0xc8 && At(src, 2) == LBRACKET
    ensures Links(src, 2)
  {
    hide NextTerm;
  }

  lemma {:induction false} TermLinks(src: seq<byte>)
    requires GetExpressionTerm(src).Parsed?
    ensures Links(src, GetExpressionTerm(src).len)
    decreases |src|, 1
  {
    hide NextExpression, NextArithmatic, GetExpressionBoolean, GetExpressionToken, Links, Drop;
    if At(src, 0) == DOLLAR {
      TokenLinks(src);
    } else if At(src, 0) == BACKSLASH {
      TermLinks(Drop(src, 2));
      LinkUnary(src, GetExpressionTerm(Drop(src, 2)).len);
    } else {
      var inner := GetExpressionBoolean(Drop(src, 1));
      AtDrop(src, 1, inner.len);
      BooleanLinks(Drop(src, 1));
      ClosedExtent(Drop(src, 1), inner.len);
      LinkTerm(src);
    }
  }

  /** The operand behind an operator at `n`, then the rest of the loop from there. */
  lemma OperandLinks(src: seq<byte>, n: nat, operand: Parse)
    requires Links(src, n) && At(src, n) == BACKSLASH
    requires operand.Parsed? && Links(Drop(Drop(src, n), 2), operand.len)
    ensures Links(src, n + operand.len + 2)
    ensures Drop(Drop(src, n), operand.len + 2) == Drop(src, n + operand.len + 2)
  {
    hide Links, Drop;
    DropDrop(src, n, 2);
    DropDrop(src, n, operand.len + 2);
    Join(src, n, operand.len);
  }

  lemma {:induction false} HiPrecLinks(src: seq<byte>, n: nat, tok: Expression)
    requires Links(src, n) && GetExpressionArithmaticLoopHiPrec(Drop(src, n), tok).Parsed?
    ensures Links(src, n + GetExpressionArithmaticLoopHiPrec(Drop(src, n), tok).len)
    decreases |Drop(src, n)|, 2
  {
    hide Links, Drop, GetExpressionTerm, Create;
    var s := Drop(src, n);
    AtDrop(src, n, 0);
    if OperatorIn(s, 0x02, 0x09) {
      var rhs := GetExpressionTerm(Drop(s, 2));
      TermLinks(Drop(s, 2));
      OperandLinks(src, n, rhs);
      HiPrecLinks(src, n + rhs.len + 2, Create(At(s, 1), tok, rhs.tree).value);
    }
  }

  lemma {:induction false} ProductLinks(src: seq<byte>)
    requires GetProduct(src).Parsed?
    ensures Links(src, GetProduct(src).len)
    decreases |src|, 3
  {
    hide Links, GetExpressionTerm, GetExpressionArithmaticLoopHiPrec;
    var term := GetExpressionTerm(src);
    TermLinks(src);
    HiPrecLinks(src, term.len, term.tree);
  }

  lemma {:induction false} ArithmaticLoopLinks(src: seq<byte>, n: nat, tok: Expression)
    requires Links(src, n) && GetExpressionArithmaticLoop(Drop(src, n), tok).Parsed?
    ensures Links(src, n + GetExpressionArithmaticLoop(Drop(src, n), tok).len)
    decreases |Drop(src, n)|, 4
  {
    hide Links, Drop, GetProduct, Create;
    var s := Drop(src, n);
    AtDrop(src, n, 0);
    if OperatorIn(s, 0x00, 0x01) {
      var rhs := GetProduct(Drop(s, 2));
      ProductLinks(Drop(s, 2));
      OperandLinks(src, n, rhs);
      ArithmaticLoopLinks(src, n + rhs.len + 2, Create(At(s, 1), tok, rhs.tree).value);
    }
  }

  lemma {:induction false} ArithmaticLinks(src: seq<byte>)
    requires GetExpressionArithmatic(src).Parsed?
    ensures Links(src, GetExpressionArithmatic(src).len)
    decreases |src|, 5
  {
    hide Links, GetProduct, GetExpressionArithmaticLoop;
    var term := GetProduct(src);
    ProductLinks(src);
    ArithmaticLoopLinks(src, term.len, term.tree);
  }

  lemma {:induction false} ConditionLoopLinks(src: seq<byte>, n: nat, tok: Expression)
    requires Links(src, n) && GetExpressionConditionLoop(Drop(src, n), tok).Parsed?
    ensures Links(src, n + GetExpressionConditionLoop(Drop(src, n), tok).len)
    decreases |Drop(src, n)|, 6
  {
    hide Links, Drop, GetExpressionArithmatic, Create;
    var s := Drop(src, n);
    AtDrop(src, n, 0);
    if OperatorIn(s, 0x28, 0x2d) {
      var rhs := GetExpressionArithmatic(Drop(s, 2));
      ArithmaticLinks(Drop(s, 2));
      OperandLinks(src, n, rhs);
      ConditionLoopLinks(src, n + rhs.len + 2, Create(At(s, 1), tok, rhs.tree).value);
    }
  }

  lemma {:induction false} ConditionLinks(src: seq<byte>)
    requires GetExpressionCondition(src).Parsed?
    ensures Links(src, GetExpressionCondition(src).len)
    decreases |src|, 7
  {
    hide Links, GetExpressionArithmatic, GetExpressionConditionLoop;
    var term := GetExpressionArithmatic(src);
    ArithmaticLinks(src);
    ConditionLoopLinks(src, term.len, term.tree);
  }

  lemma {:induction false} AndLoopLinks(src: seq<byte>, n: nat, tok: Expression)
    requires Links(src, n) && GetExpressionBooleanLoopAnd(Drop(src, n), tok).Parsed?
    ensures Links(src, n + GetExpressionBooleanLoopAnd(Drop(src, n), tok).len)
    decreases |Drop(src, n)|, 8
  {
    hide Links, Drop, GetExpressionCondition, Create;
    var s := Drop(src, n);
    AtDrop(src, n, 0);
    if OperatorIn(s, 0x3c, 0x3c) {
      var rhs := GetExpressionCondition(Drop(s, 2));
      ConditionLinks(Drop(s, 2));
      OperandLinks(src, n, rhs);
      AndLoopLinks(src, n + rhs.len + 2, Create(0x3c, tok, rhs.tree).value);
    }
  }

  lemma {:induction false} ConjunctionLinks(src: seq<byte>)
    requires GetConjunction(src).Parsed?
    ensures Links(src, GetConjunction(src).len)
    decreases |src|, 9
  {
    hide Links, GetExpressionCondition, GetExpressionBooleanLoopAnd;
    var term := GetExpressionCondition(src);
    ConditionLinks(src);
    AndLoopLinks(src, term.len, term.tree);
  }

  lemma {:induction false} OrLoopLinks(src: seq<byte>, n: nat, tok: Expression)
    requires Links(src, n) && GetExpressionBooleanLoopOr(Drop(src, n), tok).Parsed?
    ensures Links(src, n + GetExpressionBooleanLoopOr(Drop(src, n), tok).len)
    decreases |Drop(src, n)|, 10
  {
    hide Links, Drop, GetConjunction, Create;
    var s := Drop(src, n);
    AtDrop(src, n, 0);
    if OperatorIn(s, 0x3d, 0x3d) {
      var rhs := GetConjunction(Drop(s, 2));
      ConjunctionLinks(Drop(s, 2));
      OperandLinks(src, n, rhs);
      OrLoopLinks(src, n + rhs.len + 2, Create(0x3d, tok, rhs.tree).value);
    }
  }

  lemma {:induction false} BooleanLinks(src: seq<byte>)
    requires GetExpressionBoolean(src).Parsed?
    ensures Links(src, GetExpressionBoolean(src).len)
    decreases |src|, 11
  {
    hide Links, GetConjunction, GetExpressionBooleanLoopOr;
    var term := GetConjunction(src);
    ConjunctionLinks(src);
    OrLoopLinks(src, term.len, term.tree);
  }

  /** Whatever bytecode the parser accepts, the scanner gives it the length the parser consumed if and only if no
      operator follows and it does not end in a store register with a bracket behind it. */
  lemma ParserAgreesWithExtent(src: seq<byte>)
    requires GetExpression(src).Parsed?
    ensures var len := GetExpression(src).len;
            NextExpression(src) == len <==> At(src, len) != BACKSLASH && !StoreBeforeBracket(src, len)
  {
    hide GetExpressionBoolean, NextExpression, NextArithmatic, OnChain, StoreBeforeBracket;
    var len := GetExpression(src).len;
    BooleanLinks(src);
    PrecedenceLayersKeepExtent(src);
    if StoreBeforeBracket(src, len) {
      StoreGoesOn(src, len);
    } else {
      ChainExtent(src, len);
    }
  }

  /** The shortest such bytecode: the parser stops behind the store register and the scanner goes on. */
  lemma StoreRegisterBeforeBracket()
    ensures var src := [DOLLAR, 0xc8, LBRACKET];
            GetExpression(src) == Parsed(StoreRegister, 2) && NextExpression(src) == 4
  {
    var src := [DOLLAR, 0xc8, LBRACKET];
    assert GetExpressionToken(Drop(src, 1)) == Parsed(StoreRegister, 1);
    TermAlone(src);
    NothingToScan(Drop(src, 3));
    PrecedenceLayersKeepExtent(src);
    assert NextTerm(src) == NextToken(src) == 4;
  }

  /** A term with no operator behind it is the whole expression. */
  lemma TermAlone(src: seq<byte>)
    requires GetExpressionTerm(src).Parsed? ==> At(src, GetExpressionTerm(src).len) != BACKSLASH
    ensures GetProduct(src) == GetExpressionArithmatic(src) == GetExpressionTerm(src)
    ensures GetExpressionCondition(src) == GetConjunction(src) == GetExpressionBoolean(src) == GetExpressionTerm(src)
  {
    hide GetExpressionTerm, Create, Drop;
    var term := GetExpressionTerm(src);
    if term.Parsed? {
      AtDrop(src, term.len, 0);
      var s := Drop(src, term.len);
      assert GetExpressionArithmaticLoopHiPrec(s, term.tree) == Parsed(term.tree, 0);
      assert GetExpressionArithmaticLoop(s, term.tree) == Parsed(term.tree, 0);
      assert GetExpressionConditionLoop(s, term.tree) == Parsed(term.tree, 0);
      assert GetExpressionBooleanLoopAnd(s, term.tree) == Parsed(term.tree, 0);
      assert GetExpressionBooleanLoopOr(s, term.tree) == Parsed(term.tree, 0);
    }
  }
}
