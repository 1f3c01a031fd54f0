/** Evaluated parameters printed back to bytecode, and where NextString and NextData find their end. */
module Pieces {
  import opened Bytes
  import opened Sequences
  import opened Bytecode
  import opened Extents

  datatype Piece =
    | IntPiece(value: int32)
    | StringPiece(text: seq<byte>)
    | ComplexPiece(parts: seq<Piece>)
    | SpecialPiece(tag: byte, parts: seq<Piece>)

  function Quote(text: seq<byte>): seq<byte> {
    [QUOTE] + text + [QUOTE]
  }

  function Print(p: Piece): seq<byte>
    decreases p
  {
    match p
    case IntPiece(value) => IntToBytecode(value)
    case StringPiece(text) => Quote(text)
    case ComplexPiece(parts) => [LPAREN] + PrintWrapped(parts) + [RPAREN]
    case SpecialPiece(tag, parts) => [LOWER_A, tag] + PrintBody(parts)
  }

  /** Each part in parentheses of its own. */
  function PrintWrapped(parts: seq<Piece>): seq<byte>
    decreases parts, 0
  {
    if parts == [] then [] else [LPAREN] + Print(parts[0]) + [RPAREN] + PrintWrapped(parts[1..])
  }

  function PrintAll(parts: seq<Piece>): seq<byte>
    decreases parts, 0
  {
    if parts == [] then [] else Print(parts[0]) + PrintAll(parts[1..])
  }

  /** The parts of a special parameter; a single one goes without parentheses. */
  function PrintBody(parts: seq<Piece>): seq<byte>
    decreases parts, 1
  {
    if |parts| > 1 then [LPAREN] + PrintAll(parts) + [RPAREN] else PrintAll(parts)
  }

  // ------------------------------------------------------------------------------------------ strings

  /** Can `text` stand before a closing quote when `prev` is the byte in front of it? It must not hold an unescaped
      quote at a character boundary, end in half a character, or end in a backslash byte. */
  predicate QuotableAfter(text: seq<byte>, prev: byte) {
    if text == [] then prev != BACKSLASH
    else if text[0] == QUOTE && prev != BACKSLASH then false
    else if IsLeadByte(text[0]) then |text| >= 2 && QuotableAfter(text[2..], text[1])
    else QuotableAfter(text[1..], text[0])
  }

  predicate Quotable(text: seq<byte>) {
    QuotableAfter(text, QUOTE)
  }

  /** A scan that ends inside quotes ends behind a quotation mark. */
  lemma {:induction false} QuotedScanEndsAtQuote(src: seq<byte>, end: nat)
    ensures var len := StringScan(src, end, true);
            len.Some? ==> len.value > end && At(src, len.value - 1) == QUOTE
    decreases if end < |src| then |src| - end else 0
  {
    hide StringScan;
    StringScanUnfold(src, end, true);
    match StringStep(src, end, true)
    case Stop(_) =>
    case Go(next, _) => QuotedScanEndsAtQuote(src, next);
  }

  /** From inside the quotes the scan stops exactly at the closing one if and only if the text is quotable. */
  lemma {:induction false} QuotedTextScan(src: seq<byte>, end: nat, text: seq<byte>, rest: seq<byte>)
    requires 1 <= end <= |src| && src[end..] == text + [QUOTE] + rest
    ensures StringScan(src, end, true) == Some(end + |text| + 1) <==> QuotableAfter(text, src[end - 1])
    decreases |text|
  {
    hide StringScan, NextExpression;
    StringScanUnfold(src, end, true);
    assert src[end] == (text + [QUOTE] + rest)[0];
    var width := CharWidth(src[end]);
    if !IsUnescapedQuotationMark(src, end) {
      if text == [] || (IsLeadByte(text[0]) && |text| == 1) {
        QuotedScanEndsAtQuote(src, end + width);
      } else {
        assert src[end + width..] == src[end..][width..];
        assert (text + [QUOTE] + rest)[width..] == text[width..] + [QUOTE] + rest;
        assert src[end + width - 1] == src[end..][width - 1] == text[width - 1];
        QuotedTextScan(src, end + width, text[width..], rest);
      }
    }
  }

  /** NextString on a quoted string returns the length it was printed with exactly when the text is quotable. */
  lemma QuotedStringExtent(text: seq<byte>, rest: seq<byte>)
    ensures StringExtent(Quote(text) + rest) == Some(|Quote(text)|) <==> Quotable(text)
  {
    hide StringScan, NextExpression;
    var src := Quote(text) + rest;
    assert src[0] == QUOTE && src[1..] == text + [QUOTE] + rest;
    StringScanUnfold(src, 0, false);
    QuotedTextScan(src, 1, text, rest);
    QuotedScanEndsAtQuote(src, 1);
  }

  // ------------------------------------------------------------------------------------------ parameters

  /** All strings in the parameter are quotable. */
  predicate Scannable(p: Piece) {
    match p
    case IntPiece(_) => true
    case StringPiece(text) => Quotable(text)
    case ComplexPiece(parts) => forall part <- parts :: Scannable(part)
    case SpecialPiece(_, parts) => forall part <- parts :: Scannable(part)
  }

  /** Does nothing stand behind the last tag? */
  predicate EndsInTag(p: Piece) {
    p.SpecialPiece? && (p.parts == [] || (|p.parts| == 1 && EndsInTag(p.parts[0])))
  }

  /** What the scanner makes of a parameter printed as `text` in front of `rest`: a bare tag takes in what follows. */
  predicate ScansTo(text: seq<byte>, endsInTag: bool, rest: seq<byte>) {
    DataExtent(text + rest) == if endsInTag then Plus(|text|, DataExtent(rest)) else Some(|text|)
  }

  lemma FirstByte(p: Piece, rest: seq<byte>)
    ensures At(Print(p) + rest, 0) in {DOLLAR, QUOTE, LPAREN, LOWER_A}
  {
  }

  lemma IntExtent(value: int32, rest: seq<byte>)
    requires At(rest, 0) != BACKSLASH
    ensures DataExtent(IntToBytecode(value) + rest) == Some(6)
  {
    hide NextArithmatic, NextAnd, NextCondition, NextExpression, StringScan;
    var src := IntToBytecode(value) + rest;
    assert At(src, 0) == DOLLAR && At(src, 1) == 0xff && At(src, 6) == At(rest, 0);
    IntExpressionExtent(src);
    SimpleParameterExtent(src);
  }

  lemma IntExpressionExtent(src: seq<byte>)
    requires At(src, 0) == DOLLAR && At(src, 1) == 0xff && At(src, 6) != BACKSLASH
    ensures NextExpression(src) == 6
  {
    hide NextExpression;
    PrecedenceLayersKeepExtent(src);
    assert NextToken(src) == NextTerm(src) == 6;
  }

  /** A list that is scanned to its parenthesis is a parameter, if no operator follows. */
  lemma ListAsParameter(list: seq<byte>, rest: seq<byte>)
    requires ListExtent(list + [RPAREN] + rest) == Some(|list| + 1) && At(rest, 0) != BACKSLASH
    ensures DataExtent([LPAREN] + list + [RPAREN] + rest) == Some(|list| + 2)
  {
    hide DataExtent, ListExtent, NextExpression;
    var src := [LPAREN] + list + [RPAREN] + rest;
    assert Drop(src, 1) == list + [RPAREN] + rest;
    ListParameterExtent(src);
    assert At(src, |list| + 2) == At(rest, 0);
  }

  lemma ClosingIsNothing(rest: seq<byte>)
    requires At(rest, 0) == RPAREN
    ensures DataExtent(rest) == Some(0)
  {
    hide DataExtent, NextExpression, StringExtent;
    SimpleParameterExtent(rest);
    PrecedenceLayersKeepExtent(rest);
    assert NextTerm(rest) == NextToken(rest) == 0;
  }

  /** A list goes on behind its first parameter; that a bare tag takes in the next one makes no difference. */
  lemma ListStep(item: seq<byte>, endsInTag: bool, rest: seq<byte>)
    requires item != [] && item[0] != RPAREN && ScansTo(item, endsInTag, rest)
    ensures ListExtent(item + rest) == Plus(|item|, ListExtent(rest))
  {
    hide DataExtent, ListExtent;
    ListExtentUnfold(item + rest);
    ListExtentUnfold(rest);
    var next := DataExtent(rest);
    if At(rest, 0) == RPAREN {
      ClosingIsNothing(rest);
    }
    DropConcat(item, rest, 0);
    assert Drop(rest, 0) == rest;
    if next.Some? {
      DropConcat(item, rest, next.value);
    }
  }

  lemma EmptyList(rest: seq<byte>)
    ensures ListExtent([RPAREN] + rest) == Some(1)
  {
    hide DataExtent, ListExtent;
    ListExtentUnfold([RPAREN] + rest);
  }

  /** NextData finds the end of every serialised parameter in front of anything but an operator. Only behind a tag with
      nothing in it does it go on, to the end of the next parameter. */
  lemma {:induction false} PieceExtent(p: Piece, rest: seq<byte>)
    requires Scannable(p) && At(rest, 0) != BACKSLASH
    ensures ScansTo(Print(p), EndsInTag(p), rest)
    decreases p, 1
  {
    hide DataExtent, ListExtent, StringScan, NextExpression, PrintWrapped, PrintBody;
    match p
    case IntPiece(value) => IntExtent(value, rest);
    case StringPiece(text) =>
      QuotedStringExtent(text, rest);
      SimpleParameterExtent(Quote(text) + rest);
    case ComplexPiece(parts) =>
      WrappedExtent(parts, rest);
      ListAsParameter(PrintWrapped(parts), rest);
    case SpecialPiece(tag, parts) => SpecialExtent(tag, parts, rest);
  }

  lemma {:induction false} WrappedExtent(parts: seq<Piece>, rest: seq<byte>)
    requires forall part <- parts :: Scannable(part)
    ensures ListExtent(PrintWrapped(parts) + [RPAREN] + rest) == Some(|PrintWrapped(parts)| + 1)
    decreases parts, 0
  {
    hide DataExtent, ListExtent, Print, Scannable, ScansTo;
    if parts == [] {
      assert PrintWrapped(parts) + [RPAREN] + rest == [RPAREN] + rest;
      EmptyList(rest);
    } else {
      var text := Print(parts[0]);
      var others := PrintWrapped(parts[1..]);
      WrappedExtent(parts[1..], rest);
      var tail := others + [RPAREN] + rest;
      PieceExtent(parts[0], [RPAREN] + tail);
      FirstByte(parts[0], []);
      WrappedStep(text, EndsInTag(parts[0]), tail);
      assert PrintWrapped(parts) + [RPAREN] + rest == [LPAREN] + text + [RPAREN] + tail;
    }
  }

  lemma WrappedStep(text: seq<byte>, endsInTag: bool, tail: seq<byte>)
    requires text != [] && text[0] != RPAREN && ScansTo(text, endsInTag, [RPAREN] + tail)
    requires At(tail, 0) != BACKSLASH
    ensures ListExtent([LPAREN] + text + [RPAREN] + tail) == Plus(|text| + 2, ListExtent(tail))
  {
    hide DataExtent, ListExtent, ScansTo, Plus;
    WrappedItem(text, endsInTag, tail);
    ListStep([LPAREN] + text + [RPAREN], false, tail);
  }

  /** One parameter in parentheses. */
  lemma WrappedItem(text: seq<byte>, endsInTag: bool, tail: seq<byte>)
    requires text != [] && text[0] != RPAREN && ScansTo(text, endsInTag, [RPAREN] + tail)
    requires At(tail, 0) != BACKSLASH
    ensures ScansTo([LPAREN] + text + [RPAREN], false, tail)
  {
    hide DataExtent, ListExtent;
    ListStep(text, endsInTag, [RPAREN] + tail);
    EmptyList(tail);
    Assoc(text, [RPAREN], tail);
    ListAsParameter(text, tail);
  }

  lemma {:induction false} AllExtent(parts: seq<Piece>, rest: seq<byte>)
    requires forall part <- parts :: Scannable(part)
    ensures ListExtent(PrintAll(parts) + [RPAREN] + rest) == Some(|PrintAll(parts)| + 1)
    decreases parts, 0
  {
    hide DataExtent, ListExtent, Print, Scannable, ScansTo;
    if parts == [] {
      assert PrintAll(parts) + [RPAREN] + rest == [RPAREN] + rest;
      EmptyList(rest);
    } else {
      var text := Print(parts[0]);
      AllExtent(parts[1..], rest);
      var tail := PrintAll(parts[1..]) + [RPAREN] + rest;
      AllStartsWithPiece(parts[1..], rest);
      PieceExtent(parts[0], tail);
      FirstByte(parts[0], []);
      ListStep(text, EndsInTag(parts[0]), tail);
      assert PrintAll(parts) + [RPAREN] + rest == text + tail;
    }
  }

  lemma AllStartsWithPiece(parts: seq<Piece>, rest: seq<byte>)
    ensures At(PrintAll(parts) + [RPAREN] + rest, 0) in {DOLLAR, QUOTE, LPAREN, LOWER_A, RPAREN}
  {
    hide Print;
    if parts != [] {
      FirstByte(parts[0], PrintAll(parts[1..]) + [RPAREN] + rest);
      assert PrintAll(parts) + [RPAREN] + rest == Print(parts[0]) + (PrintAll(parts[1..]) + [RPAREN] + rest);
    }
  }

  lemma {:induction false} SpecialExtent(tag: byte, parts: seq<Piece>, rest: seq<byte>)
    requires At(rest, 0) != BACKSLASH
    requires forall part <- parts :: Scannable(part)
    ensures ScansTo([LOWER_A, tag] + PrintBody(parts), EndsInTag(SpecialPiece(tag, parts)), rest)
    decreases parts, 3
  {
    hide DataExtent, ListExtent, Print, Scannable, PrintAll;
    var src := [LOWER_A, tag] + PrintBody(parts) + rest;
    TagStep(src);
    assert Drop(src, 2) == PrintBody(parts) + rest;
    if |parts| > 1 {
      AllExtent(parts, rest);
      ListAsParameter(PrintAll(parts), rest);
    } else if parts == [] {
      NoParts();
      assert [] + rest == rest;
    } else {
      SinglePartBody(parts[0]);
      assert parts == [parts[0]];
      PieceExtent(parts[0], rest);
    }
  }

  lemma NoParts()
    ensures PrintAll([]) == PrintWrapped([]) == []
  {
  }

  lemma SinglePartBody(part: Piece)
    ensures PrintBody([part]) == Print(part)
  {
    hide Print;
    assert PrintAll([part][1..]) == [];
  }

  lemma TwoParts(one: Piece, two: Piece, tag: byte)
    ensures Print(ComplexPiece([one, two])) ==
            [LPAREN] + ([LPAREN] + Print(one) + [RPAREN] + ([LPAREN] + Print(two) + [RPAREN])) + [RPAREN]
    ensures Print(SpecialPiece(tag, [one, two])) ==
            [LOWER_A, tag] + ([LPAREN] + (Print(one) + Print(two)) + [RPAREN])
    ensures Print(SpecialPiece(tag, [two])) == [LOWER_A, tag] + Print(two)
  {
    assert Print(ComplexPiece([one, two])) == [LPAREN] + PrintWrapped([one, two]) + [RPAREN];
    assert Print(SpecialPiece(tag, [one, two])) == [LOWER_A, tag] + PrintBody([one, two]);
    assert Print(SpecialPiece(tag, [two])) == [LOWER_A, tag] + PrintBody([two]);
    assert [one, two][1..] == [two] && [two][1..] == [];
    NoParts();
    SinglePartBody(two);
    hide Print;
    assert PrintWrapped([two]) == [LPAREN] + Print(two) + [RPAREN];
    assert PrintAll([two]) == Print(two);
  }

  /** Several parameters in a list have parentheses of their own, several parts of a special parameter have one pair,
      and a single part has none. */
  lemma ListsInBytes()
    ensures var (one, two) := (IntPiece(1), StringPiece([0x41]));
            Print(ComplexPiece([one, two])) ==
            [0x28, 0x28, 0x24, 0xff, 1, 0, 0, 0, 0x29, 0x28, 0x22, 0x41, 0x22, 0x29, 0x29] &&
            Print(SpecialPiece(3, [one, two])) ==
            [0x61, 3, 0x28, 0x24, 0xff, 1, 0, 0, 0, 0x22, 0x41, 0x22, 0x29] &&
            Print(SpecialPiece(3, [two])) == [0x61, 3, 0x22, 0x41, 0x22]
  {
    var (one, two) := (IntPiece(1), StringPiece([0x41]));
    assert Print(one) == [0x24, 0xff, 1, 0, 0, 0] && Print(two) == [0x22, 0x41, 0x22];
    hide Print;
    TwoParts(one, two, 3);
  }

  /** All texts in a parameter, however deep. */
  function Texts(p: Piece): set<seq<byte>> {
    match p
    case IntPiece(_) => {}
    case StringPiece(text) => {text}
    case ComplexPiece(parts) => set part <- parts, text <- Texts(part) :: text
    case SpecialPiece(_, parts) => set part <- parts, text <- Texts(part) :: text
  }

  /** It is only the texts that may keep a parameter from being scanned. */
  lemma {:induction false} ScannableTexts(p: Piece)
    ensures Scannable(p) <==> forall text <- Texts(p) :: Quotable(text)
  {
    hide Quotable;
    match p
    case ComplexPiece(parts) =>
      forall part <- parts ensures Scannable(part) <==> forall text <- Texts(part) :: Quotable(text) {
        ScannableTexts(part);
      }
    case SpecialPiece(_, parts) =>
      forall part <- parts ensures Scannable(part) <==> forall text <- Texts(part) :: Quotable(text) {
        ScannableTexts(part);
      }
    case _ =>
  }
}
