/** Strings without quotes, with embedded ###PRINT(...) expressions, and where NextString finds their end. */
module UnquotedStrings {
  import opened Bytes
  import opened Sequences
  import opened Extents
  import G = BytecodeGrammar

  /** One byte that may stand in a bare string, a double-byte character, or an expression to be printed. */
  datatype Segment = Single(b: byte) | Double(lead: byte, trail: byte) | Embedded(e: G.Expr)

  predicate Bare(s: Segment) {
    match s
    case Single(b) => IsBareStringByte(b) && !IsLeadByte(b) && b != QUOTE
    case Double(lead, _) => IsLeadByte(lead)
    case Embedded(e) => G.WellFormed(e)
  }

  function PrintTag(): seq<byte> {
    [0x23, 0x23, 0x23, 0x50, 0x52, 0x49, 0x4e, 0x54, LPAREN]
  }

  function PrintSegment(s: Segment): seq<byte> {
    match s
    case Single(b) => [b]
    case Double(lead, trail) => [lead, trail]
    case Embedded(e) => PrintTag() + G.Print(e) + [RPAREN]
  }

  function Print(segments: seq<Segment>): seq<byte> {
    if segments == [] then [] else PrintSegment(segments[0]) + Print(segments[1..])
  }

  /** The scan of one segment goes on right behind it. */
  lemma SegmentStep(src: seq<byte>, i: nat, s: Segment, rest: seq<byte>)
    requires Bare(s) && i <= |src| && src[i..] == PrintSegment(s) + rest
    ensures StringStep(src, i, false) == Go(i + |PrintSegment(s)|, false)
  {
    hide NextExpression, G.Print, G.WellFormed;
    if s.Embedded? {
      EmbeddedStep(src, i, s.e, rest);
    } else {
      assert At(src, i) == src[i..][0] == PrintSegment(s)[0];
    }
  }

  lemma EmbeddedStep(src: seq<byte>, i: nat, e: G.Expr, rest: seq<byte>)
    requires G.WellFormed(e) && i <= |src| && src[i..] == PrintSegment(Embedded(e)) + rest
    ensures StringStep(src, i, false) == Go(i + |PrintSegment(Embedded(e))|, false)
  {
    hide NextExpression, G.Print, G.WellFormed;
    var text := G.Print(e);
    var tail := src[i..];
    TagAndTail(text, rest);
    TagAt(src, i);
    G.PrintedExpressionExtent(e, [RPAREN] + rest);
    assert Drop(src, i + 9) == tail[9..];
  }

  lemma TagAndTail(text: seq<byte>, rest: seq<byte>)
    ensures var src := PrintTag() + text + [RPAREN] + rest;
            src[..9] == PrintTag() && src[9..] == text + ([RPAREN] + rest)
  {
  }

  lemma TagAt(src: seq<byte>, i: nat)
    requires i + 9 <= |src| && src[i..][..9] == PrintTag()
    ensures StartsWithPrint(src, i)
  {
    var tag := PrintTag();
    assert forall k :: 0 <= k < 9 ==> src[i + k] == src[i..][..9][k];
    assert src[i] == tag[0] && src[i + 1] == tag[1] && src[i + 2] == tag[2] && src[i + 3] == tag[3];
    assert src[i + 4] == tag[4] && src[i + 5] == tag[5] && src[i + 6] == tag[6] && src[i + 7] == tag[7];
    assert src[i + 8] == tag[8];
  }

  lemma SplitText(src: seq<byte>, i: nat, segments: seq<Segment>, rest: seq<byte>)
    requires segments != [] && i <= |src| && src[i..] == Print(segments) + rest
    ensures var item := PrintSegment(segments[0]);
            var others := Print(segments[1..]);
            src[i..] == item + (others + rest) && i + |item| <= |src| && src[i + |item|..] == others + rest &&
            |Print(segments)| == |item| + |others|
  {
    hide PrintSegment;
    var item := PrintSegment(segments[0]);
    var others := Print(segments[1..]);
    Assoc(item, others, rest);
    assert src[i + |item|..] == src[i..][|item|..];
    assert (item + (others + rest))[|item|..] == others + rest;
  }

  lemma {:induction false} SegmentsScan(src: seq<byte>, i: nat, segments: seq<Segment>, rest: seq<byte>)
    requires (forall s <- segments :: Bare(s)) && i <= |src| && src[i..] == Print(segments) + rest
    requires !IsBareStringByte(At(rest, 0)) && !StartsWithPrint(rest, 0)
    ensures StringScan(src, i, false) == Some(i + |Print(segments)|)
    decreases |segments|
  {
    hide StringScan, StringStep, StartsWithPrint, IsBareStringByte, At, PrintSegment, Bare, Print;
    StringScanUnfold(src, i, false);
    if segments == [] {
      NothingLeft(src, i, rest);
      StopStep(src, i, rest);
    } else {
      SplitText(src, i, segments, rest);
      SegmentStep(src, i, segments[0], Print(segments[1..]) + rest);
      SegmentsScan(src, i + |PrintSegment(segments[0])|, segments[1..], rest);
    }
  }

  lemma NothingLeft(src: seq<byte>, i: nat, rest: seq<byte>)
    requires i <= |src| && src[i..] == Print([]) + rest
    ensures Drop(src, i) == rest && Print([]) == []
  {
  }

  lemma StopStep(src: seq<byte>, i: nat, rest: seq<byte>)
    requires Drop(src, i) == rest && !IsBareStringByte(At(rest, 0)) && !StartsWithPrint(rest, 0)
    ensures StringStep(src, i, false) == Stop(Some(i))
  {
    hide Drop, At, NextExpression;
    AtDrop(src, i, 0);
    AtDrop(src, i, 1);
    AtDrop(src, i, 2);
    AtDrop(src, i, 3);
    AtDrop(src, i, 4);
    AtDrop(src, i, 5);
    AtDrop(src, i, 6);
    AtDrop(src, i, 7);
    AtDrop(src, i, 8);
  }

  /** A bare string ends where its last character or embedded expression ends; only the tag letter of a special
      parameter that follows is not taken for one of its characters. */
  lemma UnquotedStringExtent(segments: seq<Segment>, rest: seq<byte>)
    requires forall s <- segments :: Bare(s)
    requires !IsBareStringByte(At(rest, 0)) && !StartsWithPrint(rest, 0)
    ensures var text := Print(segments);
            StringExtent(text + rest) ==
            Some(if text != [] && text[|text| - 1] == LOWER_A && At(rest, 0) <= 1 then |text| - 1 else |text|)
  {
    hide StringScan;
    var text := Print(segments);
    assert (text + rest)[0..] == text + rest;
    SegmentsScan(text + rest, 0, segments, rest);
    DropConcat(text, rest, 0);
    AtDrop(text + rest, |text|, 0);
    assert Drop(rest, 0) == rest;
  }

  // ------------------------------------------------------------------------------------------ parameters

  /** What NextData takes for the start of a string: of the bare bytes neither a small letter nor a backslash. */
  predicate OpensParameter(s: Segment) {
    match s
    case Single(b) => !(0x61 <= b <= 0x7a) && b != BACKSLASH
    case Double(_, _) => true
    case Embedded(_) => false
  }

  /** The first bytes of just these segments are taken for the start of a string. */
  lemma OpensString(s: Segment, rest: seq<byte>)
    requires Bare(s)
    ensures OpensParameter(s) <==> StartsString(PrintSegment(s) + rest)
  {
    hide G.Print;
    if s.Embedded? {
      ExpressionStarts(s.e);
      assert PrintSegment(s) == PrintTag() + G.Print(s.e) + [RPAREN];
      assert (PrintSegment(s) + rest)[9] == G.Print(s.e)[0] && (PrintSegment(s) + rest)[0] == 0x23;
    }
  }

  lemma FirstByte(segments: seq<Segment>, rest: seq<byte>)
    requires segments != []
    ensures At(Print(segments) + rest, 0) == PrintSegment(segments[0])[0]
  {
    hide G.Print;
  }

  /** As a parameter, a bare string that NextData takes for one ends where it ends. */
  lemma UnquotedParameterExtent(segments: seq<Segment>, rest: seq<byte>)
    requires segments != [] && OpensParameter(segments[0]) && forall s <- segments :: Bare(s)
    requires !IsBareStringByte(At(rest, 0)) && !StartsWithPrint(rest, 0)
    ensures var text := Print(segments);
            DataExtent(text + rest) ==
            Some(if text[|text| - 1] == LOWER_A && At(rest, 0) <= 1 then |text| - 1 else |text|)
  {
    hide StringExtent, DataExtent, NextExpression;
    UnquotedStringExtent(segments, rest);
    FirstByte(segments, rest);
    assert Bare(segments[0]);
    SimpleParameterExtent(Print(segments) + rest);
  }

  /** What the letter `a` opens is a tag and the parameter behind it, whatever that is. */
  lemma TagOpens(segments: seq<Segment>, rest: seq<byte>)
    requires segments != [] && segments[0] == Single(LOWER_A)
    ensures var src := Print(segments) + rest;
            DataExtent(src) == Plus(2, DataExtent(Drop(src, 2)))
  {
    hide DataExtent;
    FirstByte(segments, rest);
    TagStep(Print(segments) + rest);
  }

  /** A small letter but `a` opens nothing: NextData finds an empty parameter. */
  lemma SmallLetterIsMissed(segments: seq<Segment>, rest: seq<byte>)
    requires segments != [] && segments[0].Single? && LOWER_A < segments[0].b <= 0x7a
    ensures DataExtent(Print(segments) + rest) == Some(0)
  {
    hide StringExtent, DataExtent, NextExpression;
    FirstByte(segments, rest);
    NoExpression(Print(segments) + rest);
    SimpleParameterExtent(Print(segments) + rest);
  }

  /** A backslash opens an expression. */
  lemma BackslashOpensExpression(segments: seq<Segment>, rest: seq<byte>)
    requires segments != [] && segments[0] == Single(BACKSLASH)
    ensures var src := Print(segments) + rest;
            DataExtent(src) == Some(NextExpression(src)) && NextExpression(src) >= 2
  {
    hide StringExtent, DataExtent, NextExpression;
    var src := Print(segments) + rest;
    FirstByte(segments, rest);
    SimpleParameterExtent(src);
    PrecedenceLayersKeepExtent(src);
    assert NextArithmatic(src) >= NextTerm(src) >= 2;
  }

  /** Neither does an embedded expression: the source compares all that follows with the tag, not its
      start, and NextData finds an empty parameter. */
  lemma EmbeddedStartIsMissed(e: G.Expr, segments: seq<Segment>, rest: seq<byte>)
    ensures DataExtent(Print([Embedded(e)] + segments) + rest) == Some(0)
  {
    hide StringExtent, DataExtent, NextExpression, NextArithmatic, G.Print;
    var all := [Embedded(e)] + segments;
    var src := Print(all) + rest;
    assert all[1..] == segments;
    var text := G.Print(e);
    ExpressionStarts(e);
    assert Print(all) == PrintTag() + text + [RPAREN] + Print(segments);
    assert src[0] == 0x23 && src[9] == text[0];
    NoExpression(src);
    SimpleParameterExtent(src);
  }

  lemma ExpressionStarts(e: G.Expr)
    ensures G.Print(e) != [] && G.Print(e)[0] != 0
  {
  }

  lemma NoExpression(src: seq<byte>)
    requires At(src, 0) !in {DOLLAR, LPAREN, BACKSLASH}
    ensures NextExpression(src) == 0
  {
    hide NextExpression;
    PrecedenceLayersKeepExtent(src);
    assert NextTerm(src) == NextToken(src) == 0;
  }

  // ------------------------------------------------------------------------------------------ characters

  predicate IsNameCharacter(c: char) {
    'a' <= c <= 'z' || 'A' <= c <= 'Z' || '0' <= c <= '9' || c in {' ', '?', '_'}
  }

  /** What NextString makes of one character in front of a comma: it goes over a letter, a digit, one of four signs,
      or the lead byte of a double-byte character together with the byte behind. A quotation mark alone is never
      closed. */
  lemma OneCharacter(c: byte)
    ensures StringExtent([c, ',' as int]) ==
            if c == '\"' as int then None
            else if IsNameCharacter(c as char) || c == '\\' as int then Some(1)
            else if 0x81 <= c <= 0x9f || 0xe0 <= c <= 0xef then Some(2)
            else Some(0)
  {
    var src := [c, ',' as int];
    StringScanUnfold(src, 0, false);
    StringScanUnfold(src, 1, false);
    StringScanUnfold(src, 2, false);
    StringScanUnfold(src, 1, true);
    StringScanUnfold(src, 2, true);
    hide StringScan, NextExpression;
  }

  /** What NextData makes of it. Small letters and the backslash open no string. */
  lemma OneCharacterParameter(c: byte)
    requires c != ',' as int && c != '\n' as int && c != '\\' as int && c != 'a' as int && c != '(' as int &&
             c != '$' as int
    ensures DataExtent([c, ',' as int]) ==
            if c == '\"' as int then None
            else if IsNameCharacter(c as char) && !('a' <= c as char <= 'z') then Some(1)
            else if 0x81 <= c <= 0x9f || 0xe0 <= c <= 0xef then Some(2)
            else Some(0)
  {
    var src := [c, ',' as int];
    OneCharacter(c);
    hide StringExtent, NextExpression;
    SimpleParameterExtent(src);
    NoExpression(src);
  }
}
