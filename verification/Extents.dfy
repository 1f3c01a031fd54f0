/** The functions of expression.cpp that find where an item of bytecode ends. A `src` is the bytecode from the
    pointer on; every result is a length, as in the source. */
module Extents {
  import opened Bytes

  const DOLLAR: byte := 0x24      // '$'
  const LPAREN: byte := 0x28      // '('
  const RPAREN: byte := 0x29      // ')'
  const LBRACKET: byte := 0x5b    // '['
  const RBRACKET: byte := 0x5d    // ']'
  const BACKSLASH: byte := 0x5c   // '\\'
  const QUOTE: byte := 0x22       // '"'
  const COMMA: byte := 0x2c       // ','
  const NEWLINE: byte := 0x0a     // '\n'
  const LOWER_A: byte := 0x61     // 'a'

  // ------------------------------------------------------------------------------------------ expressions

  function NextToken(src: seq<byte>): nat
    decreases |src|, 0
  {
    if At(src, 0) != DOLLAR then 0
    else if At(src, 1) == 0xff then 6
    else if At(src, 2) != LBRACKET then 2
    else 4 + NextExpression(Drop(src, 3))
  }

  function NextTerm(src: seq<byte>): nat
    decreases |src|, 1
  {
    if At(src, 0) == LPAREN then 2 + NextExpression(Drop(src, 1))
    else if At(src, 0) == BACKSLASH then 2 + NextTerm(Drop(src, 2))
    else NextToken(src)
  }

  function NextArithmatic(src: seq<byte>): nat
    decreases |src|, 2
  {
    var lhs := NextTerm(src);
    if At(src, lhs) == BACKSLASH then lhs + 2 + NextArithmatic(Drop(src, lhs + 2)) else lhs
  }

  function NextCondition(src: seq<byte>): nat
    decreases |src|, 3
  {
    var lhs := NextArithmatic(src);
    if At(src, lhs) == BACKSLASH && 0x28 <= At(src, lhs + 1) <= 0x2d
    then lhs + 2 + NextArithmatic(Drop(src, lhs + 2))
    else lhs
  }

  function NextAnd(src: seq<byte>): nat
    decreases |src|, 4
  {
    var lhs := NextCondition(src);
    if At(src, lhs) == BACKSLASH && At(src, lhs + 1) == 0x3c
    then lhs + 2 + NextAnd(Drop(src, lhs + 2))
    else lhs
  }

  function NextExpression(src: seq<byte>): nat
    decreases |src|, 5
  {
    var lhs := NextAnd(src);
    if At(src, lhs) == BACKSLASH && At(src, lhs + 1) == 0x3d
    then lhs + 2 + NextExpression(Drop(src, lhs + 2))
    else lhs
  }

  /** The arithmetic layer swallows every operator: it never stops in front of a backslash. */
  lemma {:induction false} ArithmaticStopsBeforeNoOperator(src: seq<byte>)
    ensures At(src, NextArithmatic(src)) != BACKSLASH
    decreases |src|
  {
    hide NextTerm, NextExpression, Drop;
    var lhs := NextTerm(src);
    if At(src, lhs) == BACKSLASH {
      ArithmaticStopsBeforeNoOperator(Drop(src, lhs + 2));
      AtDrop(src, lhs + 2, NextArithmatic(Drop(src, lhs + 2)));
    }
  }

  /** So the three precedence layers above it never change the extent. */
  lemma PrecedenceLayersKeepExtent(src: seq<byte>)
    ensures NextCondition(src) == NextArithmatic(src)
    ensures NextAnd(src) == NextArithmatic(src)
    ensures NextExpression(src) == NextArithmatic(src)
  {
    ArithmaticStopsBeforeNoOperator(src);
  }

  lemma NothingToScan(src: seq<byte>)
    ensures |src| == 0 ==> NextExpression(src) == 0
  {
    PrecedenceLayersKeepExtent(src);
    assert |src| == 0 ==> NextToken(src) == NextTerm(src) == 0;
  }

  // ------------------------------------------------------------------------------------------ strings

  predicate IsLeadByte(c: byte) {
    0x81 <= c <= 0x9f || 0xe0 <= c <= 0xef
  }

  /** How far the string scanner moves over a character that starts with `c`. */
  function CharWidth(c: byte): nat {
    if IsLeadByte(c) then 2 else 1
  }

  predicate IsUnescapedQuotationMark(src: seq<byte>, current: nat) {
    At(src, current) == QUOTE && (current == 0 || At(src, current - 1) != BACKSLASH)
  }

  /** Is there a "###PRINT(" at `i`? */
  predicate StartsWithPrint(src: seq<byte>, i: nat) {
    At(src, i) == 0x23 && At(src, i + 1) == 0x23 && At(src, i + 2) == 0x23 && At(src, i + 3) == 0x50 &&
    At(src, i + 4) == 0x52 && At(src, i + 5) == 0x49 && At(src, i + 6) == 0x4e && At(src, i + 7) == 0x54 &&
    At(src, i + 8) == LPAREN
  }

  /** The bytes an unquoted string may go on with. */
  predicate IsBareStringByte(c: byte) {
    IsLeadByte(c) || 0x61 <= c <= 0x7a || 0x41 <= c <= 0x5a || 0x30 <= c <= 0x39 ||
    c == 0x20 || c == 0x3f || c == 0x5f || c == QUOTE || c == BACKSLASH
  }

  datatype Step = Stop(len: Option<nat>) | Go(next: nat, quoted: bool)

  /** One round of the loop of NextString. */
  function StringStep(src: seq<byte>, end: nat, quoted: bool): (step: Step)
    ensures step.Go? ==> end < |src| && end < step.next
  {
    var width := CharWidth(At(src, end));
    if quoted then
      if IsUnescapedQuotationMark(src, end) then Stop(Some(end + 1))
      else if end >= |src| then Stop(None)
      else Go(end + width, true)
    else if StartsWithPrint(src, end) then Go(end + 10 + NextExpression(Drop(src, end + 9)), false)
    else if !IsBareStringByte(At(src, end)) then Stop(Some(end))
    else Go(end + width, IsUnescapedQuotationMark(src, end))
  }

  /** Where the loop of NextString leaves `end`. None: the scan is inside quotes with no input left, and the source
      would go on reading past its buffer for ever. */
  function StringScan(src: seq<byte>, end: nat, quoted: bool): Option<nat>
    decreases if end < |src| then |src| - end else 0
  {
    match StringStep(src, end, quoted)
    case Stop(len) => len
    case Go(next, nextQuoted) => StringScan(src, next, nextQuoted)
  }

  lemma StringScanUnfold(src: seq<byte>, end: nat, quoted: bool)
    ensures var step := StringStep(src, end, quoted);
            StringScan(src, end, quoted) == if step.Stop? then step.len else StringScan(src, step.next, step.quoted)
  {
  }

  /** The tag letter of a following special parameter is given back. */
  function WithoutTagLetter(src: seq<byte>, end: nat): nat {
    if end > 0 && At(src, end - 1) == LOWER_A && (At(src, end) == 0 || At(src, end) == 1) then end - 1 else end
  }

  function StringExtent(src: seq<byte>): Option<nat> {
    match StringScan(src, 0, false)
    case None => None
    case Some(end) => Some(WithoutTagLetter(src, end))
  }

  method NextString(src: seq<byte>) returns (len: Option<nat>)
    ensures len == StringExtent(src)
  {
    hide NextExpression, StringScan;
    ghost var result := StringScan(src, 0, false);
    var quoted := false;
    var end := 0;
    while true
      invariant quoted ==> end > 0
      invariant result == StringScan(src, end, quoted)
      decreases if end < |src| then |src| - end else 0
    {
      StringScanUnfold(src, end, quoted);
      if quoted {
        quoted := !IsUnescapedQuotationMark(src, end);
        if !quoted && At(src, end - 1) != BACKSLASH {
          end := end + 1;
          break;
        }
        if end >= |src| {
          return None;
        }
      } else {
        quoted := IsUnescapedQuotationMark(src, end);
        if StartsWithPrint(src, end) {
          end := end + 9;
          end := end + 1 + NextExpression(Drop(src, end));
          continue;
        }
        if !IsBareStringByte(At(src, end)) {
          break;
        }
      }
      end := end + CharWidth(At(src, end));
    }
    if end > 0 && At(src, end - 1) == LOWER_A && (At(src, end) == 0 || At(src, end) == 1) {
      end := end - 1;
    }
    len := Some(end);
  }

  // ------------------------------------------------------------------------------------------ parameters

  function Plus(n: nat, len: Option<nat>): Option<nat> {
    match len
    case None => None
    case Some(m) => Some(n + m)
  }

  predicate StartsString(src: seq<byte>) {
    var c := At(src, 0);
    IsLeadByte(c) || 0x41 <= c <= 0x5a || 0x30 <= c <= 0x39 || c == 0x20 || c == 0x3f || c == 0x5f || c == QUOTE ||
    (StartsWithPrint(src, 0) && At(src, 9) == 0)
  }

  /** The extent of one parameter. None: the source would not return. */
  function DataExtent(src: seq<byte>): (len: Option<nat>)
    ensures |src| == 0 ==> len == Some(0)
    decreases |src|, 0
  {
    var c := At(src, 0);
    if c == COMMA then Plus(1, DataExtent(Drop(src, 1)))
    else if c == NEWLINE then Plus(3, DataExtent(Drop(src, 3)))
    else if StartsString(src) then StringExtent(src)
    else if c == LOWER_A then
      var end := TagLength(src);
      if At(src, end) != LPAREN then Plus(end, DataExtent(Drop(src, end)))
      else WithTrailingOperators(src, Plus(end + 1, ListExtent(Drop(src, end + 1))))
    else if c == LPAREN then WithTrailingOperators(src, Plus(1, ListExtent(Drop(src, 1))))
    else NothingToScan(src); Some(NextExpression(src))
  }

  /** One tag is the letter 'a' and a byte; some parameters carry two. */
  function TagLength(src: seq<byte>): nat {
    if At(src, 2) == LOWER_A then 4 else 2
  }

  /** The extent of the parameters up to and with the closing parenthesis. A parameter of length zero in front of
      anything but the parenthesis keeps the loop of the source where it is for ever. */
  function ListExtent(src: seq<byte>): Option<nat>
    decreases |src|, 1
  {
    if At(src, 0) == RPAREN then Some(1)
    else
      match DataExtent(src)
      case None => None
      case Some(n) => if n == 0 then None else Plus(n, ListExtent(Drop(src, n)))
  }

  /** A parenthesised parameter may turn out to be the first operand of an expression. */
  function WithTrailingOperators(src: seq<byte>, len: Option<nat>): Option<nat> {
    match len
    case None => None
    case Some(end) => if At(src, end) == BACKSLASH then Some(end + NextExpression(Drop(src, end))) else Some(end)
  }

  lemma ListExtentUnfold(src: seq<byte>)
    ensures var item := DataExtent(src);
            ListExtent(src) ==
            if At(src, 0) == RPAREN then Some(1)
            else if item == None || item == Some(0) then None
            else Plus(item.value, ListExtent(Drop(src, item.value)))
  {
  }

  /** Where the list of a parenthesised or tagged parameter starts, if it has one. */
  function ListStart(src: seq<byte>): Option<nat> {
    if At(src, 0) == LPAREN then Some(1)
    else if At(src, 0) == LOWER_A && At(src, TagLength(src)) == LPAREN then Some(TagLength(src) + 1)
    else None
  }

  lemma ListParameterExtent(src: seq<byte>)
    requires ListStart(src).Some?
    ensures var start := ListStart(src).value;
            DataExtent(src) == WithTrailingOperators(src, Plus(start, ListExtent(Drop(src, start))))
  {
  }

  lemma SimpleParameterExtent(src: seq<byte>)
    ensures At(src, 0) == COMMA ==> DataExtent(src) == Plus(1, DataExtent(Drop(src, 1)))
    ensures At(src, 0) == NEWLINE ==> DataExtent(src) == Plus(3, DataExtent(Drop(src, 3)))
    ensures At(src, 0) != COMMA && At(src, 0) != NEWLINE && StartsString(src) ==> DataExtent(src) == StringExtent(src)
    ensures At(src, 0) == LOWER_A && ListStart(src).None? ==>
              DataExtent(src) == Plus(TagLength(src), DataExtent(Drop(src, TagLength(src))))
    ensures At(src, 0) !in {COMMA, NEWLINE, LOWER_A, LPAREN} && !StartsString(src) ==>
              DataExtent(src) == Some(NextExpression(src))
  {
  }

  /** Both branches behind a tag come to the same: the tags, then one parameter. */
  lemma TaggedExtent(src: seq<byte>)
    requires At(src, 0) == LOWER_A
    ensures DataExtent(src) == Plus(TagLength(src), DataExtent(Drop(src, TagLength(src))))
  {
    hide DataExtent, ListExtent, NextExpression, StringScan, Drop;
    var k := TagLength(src);
    SimpleParameterExtent(src);
    if At(src, k) == LPAREN {
      var body := Drop(src, k);
      AtDrop(src, k, 0);
      DropDrop(src, k, 1);
      ListParameterExtent(src);
      ListParameterExtent(body);
      var list := ListExtent(Drop(body, 1));
      if list.Some? {
        AtDrop(src, k, 1 + list.value);
        DropDrop(src, k, 1 + list.value);
      }
    }
  }

  /** However many tags there are: a tag, then a parameter. */
  lemma {:induction false} TagStep(src: seq<byte>)
    requires At(src, 0) == LOWER_A
    ensures DataExtent(src) == Plus(2, DataExtent(Drop(src, 2)))
    decreases |src|
  {
    hide DataExtent, Drop;
    TaggedExtent(src);
    if TagLength(src) == 4 {
      AtDrop(src, 2, 0);
      DropDrop(src, 2, 2);
      TagStep(Drop(src, 2));
    }
  }

  method NextData(src: seq<byte>) returns (len: Option<nat>)
    ensures len == DataExtent(src)
    decreases |src|
  {
    hide NextExpression, StringScan, ListExtent, DataExtent, Drop, StartsString;
    SimpleParameterExtent(src);
    var c := At(src, 0);
    if c == COMMA {
      var rest := NextData(Drop(src, 1));
      return Plus(1, rest);
    }
    if c == NEWLINE {
      var rest := NextData(Drop(src, 3));
      return Plus(3, rest);
    }
    if StartsString(src) {
      len := NextString(src);
      return;
    }
    if c != LOWER_A && c != LPAREN {
      return Some(NextExpression(src));
    }
    var end := 1;
    if c == LOWER_A {
      end := end + 1;
      if At(src, end) == LOWER_A {
        end := end + 2;
      }
      if At(src, end) != LPAREN {
        var rest := NextData(Drop(src, end));
        return Plus(end, rest);
      }
      end := end + 1;
    }
    assert ListStart(src) == Some(end);
    ListParameterExtent(src);
    ghost var result := Plus(end, ListExtent(Drop(src, end)));
    while At(src, end) != RPAREN
      invariant end >= 1
      invariant result == Plus(end, ListExtent(Drop(src, end)))
      decreases |src| - end
    {
      ListExtentUnfold(Drop(src, end));
      AtDrop(src, end, 0);
      var item := NextData(Drop(src, end));
      if item == None || item == Some(0) {
        return None;
      }
      DropDrop(src, end, item.value);
      end := end + item.value;
    }
    ListExtentUnfold(Drop(src, end));
    AtDrop(src, end, 0);
    end := end + 1;
    if At(src, end) == BACKSLASH {
      end := end + NextExpression(Drop(src, end));
    }
    len := Some(end);
  }
}
