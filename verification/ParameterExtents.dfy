/** Expressions as parameters: in parentheses they look like a list at first, and operators may stand behind it. */
module ParameterExtents {
  import opened Bytes
  import opened Extents
  import Grammar = BytecodeGrammar
  import Parser
  import Pieces

  /** An operator in front: the scan of what follows it, and two. */
  lemma OperatorFirst(src: seq<byte>)
    requires At(src, 0) == BACKSLASH
    ensures NextArithmatic(src) == 2 + NextArithmatic(Drop(src, 2))
  {
    hide NextToken, NextExpression, Drop;
    var t := NextTerm(Drop(src, 2));
    assert NextTerm(src) == 2 + t;
    AtDrop(src, 2, t);
    DropDrop(src, 2, t + 2);
  }

  /** An expression in parentheses as a parameter is what it is as an expression, operators behind it included, if that
      holds of what the parentheses enclose. */
  lemma ParenthesesAsParameter(src: seq<byte>, n: nat)
    requires At(src, 0) == LPAREN && n > 0 && At(src, n + 1) == RPAREN
    requires DataExtent(Drop(src, 1)) == Some(n) && NextExpression(Drop(src, 1)) == n
    ensures DataExtent(src) == Some(NextExpression(src))
  {
    hide DataExtent, ListExtent, NextExpression, Drop;
    var inner := Drop(src, 1);
    AtDrop(src, 1, n);
    AtDrop(src, 1, 0);
    NotAtOnce(inner);
    ListExtentUnfold(inner);
    DropDrop(src, 1, n);
    AtDrop(src, n + 1, 0);
    ListExtentUnfold(Drop(src, n + 1));
    ListParameterExtent(src);
    assert NextTerm(src) == n + 2;
    PrecedenceLayersKeepExtent(src);
    if At(src, n + 2) == BACKSLASH {
      AtDrop(src, n + 2, 0);
      PrecedenceLayersKeepExtent(Drop(src, n + 2));
      OperatorFirst(Drop(src, n + 2));
      DropDrop(src, n + 2, 2);
    }
  }

  lemma NotAtOnce(src: seq<byte>)
    ensures At(src, 0) == RPAREN ==> NextExpression(src) == 0
  {
    PrecedenceLayersKeepExtent(src);
    assert At(src, 0) == RPAREN ==> NextTerm(src) == NextToken(src) == 0;
  }

  // ------------------------------------------------------------------------------------------ printed expressions

  /** What a printed expression begins with: an expression in parentheses, or neither a parenthesis nor anything that
      begins another parameter. */
  predicate BeginsWithParentheses(text: seq<byte>, inner: Grammar.Expr) {
    [LPAREN] + Grammar.Print(inner) + [RPAREN] <= text
  }

  lemma {:induction false} FirstOfPrint(e: Grammar.Expr) returns (inner: Option<Grammar.Expr>)
    requires Grammar.WellFormed(e)
    ensures inner.Some? ==> Grammar.WellFormed(inner.value) && inner.value < e
    ensures inner.Some? ==> BeginsWithParentheses(Grammar.Print(e), inner.value)
    ensures Grammar.Print(e) != [] && (inner.None? ==> Grammar.Print(e)[0] in {DOLLAR, BACKSLASH})
    decreases e
  {
    hide Grammar.Print, BeginsWithParentheses;
    PrintBegins(e);
    match e
    case Paren(sub) => inner := Some(sub);
    case Binary(op, left, right) =>
      inner := FirstOfPrint(left);
      if inner.Some? {
        Longer(Grammar.Print(left), [BACKSLASH, op] + Grammar.Print(right), inner.value);
      }
    case _ => inner := None;
  }

  lemma PrintBegins(e: Grammar.Expr)
    ensures match e
            case Paren(sub) => BeginsWithParentheses(Grammar.Print(e), sub) && Grammar.Print(e) != []
            case Binary(op, left, right) =>
              Grammar.Print(e) == Grammar.Print(left) + ([BACKSLASH, op] + Grammar.Print(right))
            case _ => Grammar.Print(e) != [] && Grammar.Print(e)[0] in {DOLLAR, BACKSLASH}
  {
  }

  lemma Longer(text: seq<byte>, more: seq<byte>, inner: Grammar.Expr)
    requires BeginsWithParentheses(text, inner)
    ensures BeginsWithParentheses(text + more, inner)
  {
  }

  /** A printed expression is as long for NextData as for NextExpression, whatever follows. */
  lemma {:induction false} PrintedParameter(e: Grammar.Expr, rest: seq<byte>)
    requires Grammar.WellFormed(e)
    ensures DataExtent(Grammar.Print(e) + rest) == Some(NextExpression(Grammar.Print(e) + rest))
    decreases e
  {
    hide DataExtent, NextExpression, Grammar.Print;
    var src := Grammar.Print(e) + rest;
    var inner := FirstOfPrint(e);
    match inner
    case None => SimpleParameterExtent(src);
    case Some(sub) =>
      Longer(Grammar.Print(e), rest, sub);
      var text := Grammar.Print(sub);
      var tail := src[|text| + 2..];
      assert src == [LPAREN] + text + [RPAREN] + tail;
      assert Drop(src, 1) == text + ([RPAREN] + tail);
      PrintedParameter(sub, [RPAREN] + tail);
      Grammar.PrintedExpressionExtent(sub, [RPAREN] + tail);
      NotNothing(sub);
      ParenthesesAsParameter(src, |text|);
  }

  lemma NotNothing(e: Grammar.Expr)
    requires Grammar.WellFormed(e)
    ensures |Grammar.Print(e)| > 0
  {
    var inner := FirstOfPrint(e);
  }

  /** NextData finds the end of a printed expression if and only if what follows does not continue it. */
  lemma PrintedParameterExtent(e: Grammar.Expr, rest: seq<byte>)
    requires Grammar.WellFormed(e)
    ensures DataExtent(Grammar.Print(e) + rest) == Some(|Grammar.Print(e)|) <==> !Grammar.Continues(e, rest)
  {
    hide DataExtent, NextExpression, Grammar.Print;
    PrintedParameter(e, rest);
    Grammar.PrintedExpressionExtent(e, rest);
  }

  // ------------------------------------------------------------------------------------------ accepted bytecode

  /** Whatever bytecode the parser accepts is as long for NextData as for NextExpression. */
  lemma {:induction false} AcceptedParameter(src: seq<byte>)
    requires Parser.GetExpression(src).Parsed?
    ensures DataExtent(src) == Some(NextExpression(src)) && NextExpression(src) > 0
    decreases |src|
  {
    hide DataExtent, NextExpression, Drop, Parser.GetExpression;
    AcceptedBegins(src);
    if At(src, 0) == LPAREN {
      var inner := Drop(src, 1);
      var len := Parser.GetExpression(inner).len;
      AcceptedParameter(inner);
      Parser.ParserAgreesWithExtent(inner);
      AtDrop(src, 1, len);
      ParenthesesAsParameter(src, len);
      PrecedenceLayersKeepExtent(src);
    } else {
      SimpleParameterExtent(src);
      PrecedenceLayersKeepExtent(src);
      OperatorOrToken(src);
    }
  }

  lemma OperatorOrToken(src: seq<byte>)
    requires At(src, 0) == DOLLAR || At(src, 0) == BACKSLASH
    ensures NextArithmatic(src) > 0
  {
    hide NextExpression;
    assert NextTerm(src) > 0;
  }

  /** What accepted bytecode begins with. */
  lemma AcceptedBegins(src: seq<byte>)
    requires Parser.GetExpression(src).Parsed?
    ensures At(src, 0) == DOLLAR || At(src, 0) == BACKSLASH || At(src, 0) == LPAREN
    ensures At(src, 0) == LPAREN ==>
              var inner := Drop(src, 1);
              |inner| < |src| && Parser.GetExpression(inner).Parsed? &&
              At(src, 1 + Parser.GetExpression(inner).len) == RPAREN
  {
    hide Drop;
    assert Parser.GetConjunction(src).Parsed?;
    assert Parser.GetExpressionCondition(src).Parsed?;
    assert Parser.GetExpressionArithmatic(src).Parsed?;
    assert Parser.GetProduct(src).Parsed?;
    assert Parser.GetExpressionTerm(src).Parsed?;
  }

  /** NextData finds the length that the parser consumes if and only if no operator follows and it does not end in a
      store register with a bracket behind it. */
  lemma ParserAgreesWithParameter(src: seq<byte>)
    requires Parser.GetExpression(src).Parsed?
    ensures var len := Parser.GetExpression(src).len;
            DataExtent(src) == Some(len) <==> At(src, len) != BACKSLASH && !Parser.StoreBeforeBracket(src, len)
  {
    hide DataExtent, NextExpression, Parser.GetExpression, Parser.StoreBeforeBracket;
    AcceptedParameter(src);
    Parser.ParserAgreesWithExtent(src);
  }

  // ------------------------------------------------------------------------------------------ a parameter

  /** 1280 - 720, in parentheses. */
  function Difference(): Grammar.Expr {
    Grammar.Paren(Grammar.Binary(1, Grammar.Const(1280), Grammar.Const(720)))
  }

  lemma DifferenceInBytes()
    ensures Grammar.Print(Difference()) == [0x28, 0x24, 0xff, 0, 5, 0, 0, 0x5c, 1, 0x24, 0xff, 0xd0, 2, 0, 0, 0x29]
  {
    assert Grammar.Print(Grammar.Const(1280)) == [0x24, 0xff, 0, 5, 0, 0];
    assert Grammar.Print(Grammar.Const(720)) == [0x24, 0xff, 0xd0, 2, 0, 0];
  }

  /** (1280 - 720) / 2: the operator behind the parenthesis belongs to the parameter. */
  lemma QuotientOfDifference(rest: seq<byte>)
    requires At(rest, 0) != BACKSLASH
    ensures var e := Grammar.Binary(3, Difference(), Grammar.Const(2));
            Grammar.Print(e) == [0x28, 0x24, 0xff, 0, 5, 0, 0, 0x5c, 1, 0x24, 0xff, 0xd0, 2, 0, 0, 0x29,
                                 0x5c, 3, 0x24, 0xff, 2, 0, 0, 0] &&
            DataExtent(Grammar.Print(e) + rest) == Some(24)
  {
    hide DataExtent;
    var e := Grammar.Binary(3, Difference(), Grammar.Const(2));
    assert Grammar.WellFormed(Difference());
    assert Grammar.Print(Grammar.Const(2)) == [0x24, 0xff, 2, 0, 0, 0];
    PrintedParameterExtent(e, rest);
    hide Difference;
    DifferenceInBytes();
  }

  /** A comma in front of a parameter is skipped, and so are a line feed and the line number behind it. */
  lemma SeparatorsAreSkipped(low: byte, high: byte, rest: seq<byte>)
    ensures DataExtent([',' as int] + rest) == Plus(1, DataExtent(rest))
    ensures DataExtent(['\n' as int, low, high] + rest) == Plus(3, DataExtent(rest))
  {
    hide DataExtent;
    SimpleParameterExtent([',' as int] + rest);
    SimpleParameterExtent(['\n' as int, low, high] + rest);
    assert Drop([',' as int] + rest, 1) == rest;
    assert Drop(['\n' as int, low, high] + rest, 3) == rest;
  }

  function Product(): Grammar.Expr {
    Grammar.Binary(2, Grammar.Const(41), Grammar.Const(397))
  }

  lemma ProductInBytes()
    ensures Grammar.Print(Product()) == [0x24, 0xff, 0x29, 0, 0, 0, 0x5c, 2, 0x24, 0xff, 0x8d, 1, 0, 0]
    ensures Grammar.Print(Grammar.Const(255)) == [0x24, 0xff, 0xff, 0, 0, 0]
    ensures Grammar.WellFormed(Product())
  {
    assert Grammar.Print(Grammar.Const(41)) == [0x24, 0xff, 0x29, 0, 0, 0];
    assert Grammar.Print(Grammar.Const(397)) == [0x24, 0xff, 0x8d, 1, 0, 0];
  }

  /** Two parameters in parentheses: 41 * 397 and 255. */
  lemma ListOfTwo(rest: seq<byte>)
    requires At(rest, 0) != BACKSLASH
    ensures DataExtent([0x28, 0x24, 0xff, 0x29, 0, 0, 0, 0x5c, 2, 0x24, 0xff, 0x8d, 1, 0, 0,
                        0x24, 0xff, 0xff, 0, 0, 0, 0x29] + rest) == Some(22)
  {
    hide DataExtent, NextExpression, Product, Grammar.Print;
    ProductInBytes();
    ListOfExpressions(Product(), Grammar.Const(255), rest);
    assert [LPAREN] + (Grammar.Print(Product()) + Grammar.Print(Grammar.Const(255))) + [RPAREN] ==
           [0x28, 0x24, 0xff, 0x29, 0, 0, 0, 0x5c, 2, 0x24, 0xff, 0x8d, 1, 0, 0, 0x24, 0xff, 0xff, 0, 0, 0, 0x29];
  }

  /** Two expressions in parentheses, with nothing between them. */
  lemma ListOfExpressions(a: Grammar.Expr, b: Grammar.Expr, rest: seq<byte>)
    requires Grammar.WellFormed(a) && Grammar.WellFormed(b) && At(rest, 0) != BACKSLASH
    requires !Grammar.Continues(a, Grammar.Print(b))
    ensures var list := Grammar.Print(a) + Grammar.Print(b);
            DataExtent([LPAREN] + list + [RPAREN] + rest) == Some(|list| + 2)
  {
    hide DataExtent, ListExtent, NextExpression, Grammar.Print, Grammar.WellFormed;
    var (first, last, end) := (Grammar.Print(a), Grammar.Print(b), [RPAREN] + rest);
    Begins(a);
    Begins(b);
    PrintedParameterExtent(b, end);
    Pieces.EmptyList(rest);
    Pieces.ListStep(last, false, end);
    PrintedParameterExtent(a, last + end);
    Pieces.ListStep(first, false, last + end);
    assert first + last + [RPAREN] + rest == first + (last + end);
    Pieces.ListAsParameter(first + last, rest);
  }

  lemma Begins(e: Grammar.Expr)
    requires Grammar.WellFormed(e)
    ensures Grammar.Print(e) != [] && Grammar.Print(e)[0] != RPAREN
  {
    hide Grammar.Print;
    var inner := FirstOfPrint(e);
  }

  /** The list behind two tags and a line number. */
  lemma TaggedList(rest: seq<byte>)
    requires At(rest, 0) != BACKSLASH
    ensures DataExtent([0x0a, 0x77, 2, 0x61, 0x37, 0x61, 0x10,
                        0x28, 0x24, 0xff, 0x29, 0, 0, 0, 0x5c, 2, 0x24, 0xff, 0x8d, 1, 0, 0,
                        0x24, 0xff, 0xff, 0, 0, 0, 0x29] + rest) == Some(29)
  {
    hide DataExtent;
    ListOfTwo(rest);
    var text := [0x28, 0x24, 0xff, 0x29, 0, 0, 0, 0x5c, 2, 0x24, 0xff, 0x8d, 1, 0, 0,
                 0x24, 0xff, 0xff, 0, 0, 0, 0x29] + rest;
    TagInFront(0x10, text);
    TagInFront(0x37, [0x61, 0x10] + text);
    var src := [0x61, 0x37] + ([0x61, 0x10] + text);
    SeparatorsAreSkipped(0x77, 2, src);
    assert src == [0x61, 0x37, 0x61, 0x10] + text;
    assert ['\n' as int, 0x77, 2] + src == [0x0a, 0x77, 2, 0x61, 0x37, 0x61, 0x10] + text;
    assert [0x0a, 0x77, 2, 0x61, 0x37, 0x61, 0x10] + text ==
           [0x0a, 0x77, 2, 0x61, 0x37, 0x61, 0x10,
            0x28, 0x24, 0xff, 0x29, 0, 0, 0, 0x5c, 2, 0x24, 0xff, 0x8d, 1, 0, 0,
            0x24, 0xff, 0xff, 0, 0, 0, 0x29] + rest;
  }

  lemma TagInFront(tag: byte, text: seq<byte>)
    ensures DataExtent([0x61, tag] + text) == Plus(2, DataExtent(text))
  {
    hide DataExtent;
    assert Drop([0x61, tag] + text, 2) == text;
    TagStep([0x61, tag] + text);
  }
}
