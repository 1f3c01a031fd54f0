/** Gameexe::ParseValues: the value scanner, and the printer that it inverts. */
module GameexeValues {
  import opened Bytes
  import opened Sequences
  import opened Bytecode
  import opened GameexeText

  datatype Val = IntVal(value: int32) | StrVal(text: string, id: int)

  /** What the scanner has so far; string values are numbered as they are made. */
  datatype Progress = Progress(parsed: seq<Val>, expectValue: bool, nextId: int)

  function PushString(p: Progress, text: string): Progress {
    Progress(p.parsed + [StrVal(text, p.nextId)], false, p.nextId + 1)
  }

  /** Does the unquoted text collected so far make a value? Blank text and a lone minus do not. */
  predicate Emits(current: string) {
    Trim(current) != "" && Trim(current) != "-"
  }

  function Flush(p: Progress, current: string): Progress {
    if !Emits(current) then p
    else
      match ParseInt(Trim(current))
      case Some(v) => Progress(p.parsed + [IntVal(v)], false, p.nextId)
      case None => PushString(p, Trim(current))
  }

  predicate IsNumericToken(token: string) {
    var digits := if token != "" && (token[0] == '+' || token[0] == '-') then token[1..] else token;
    digits != "" && AllDigits(digits)
  }

  /** The text from the first character behind the current one that is not a space. */
  predicate NextIsDigit(behind: string) {
    var s := TrimLeft(behind);
    s != "" && IsDigit(s[0])
  }

  predicate NextStartsNumber(behind: string) {
    var s := TrimLeft(behind);
    s != "" && (IsDigit(s[0]) || ((s[0] == '+' || s[0] == '-') && |s| > 1 && IsDigit(s[1])))
  }

  /** A minus or a colon between two numbers separates them, unless the first is negative and a minus follows. */
  predicate SplitsNumeric(current: string, delimiter: char, behind: string) {
    var token := Trim(current);
    IsNumericToken(token) && !(delimiter == '-' && token[0] == '-') && NextIsDigit(behind)
  }

  datatype Scanned = Values(values: seq<Val>, nextId: int) | UnterminatedString(nextId: int)

  /** The scan of the rest `s` of a value. */
  function Scan(s: string, current: string, p: Progress): Scanned
    decreases |s|
  {
    if s == "" then Values(Flush(p, current).parsed, Flush(p, current).nextId)
    else if s[0] == '"' then
      match ReadQuoted(s[1..])
      case Unterminated => UnterminatedString(p.nextId)
      case Closed(text, rest) =>
        ReadQuotedShortens(s[1..]);
        Scan(rest, "", PushString(Flush(p, current), text))
    else if s[0] == ',' then Scan(s[1..], "", AtComma(p, current))
    else if s[0] == '=' then Scan(s[1..], "", Flush(p, current).(expectValue := true))
    else if s[0] == ';' then Values(Flush(p, current).parsed, Flush(p, current).nextId)
    else if IsSpace(s[0]) then
      if current == "" then Scan(s[1..], "", p)
      else if IsNumericToken(Trim(current)) && NextStartsNumber(s[1..]) then Scan(s[1..], "", Flush(p, current))
      else Scan(s[1..], current + [s[0]], p)
    else if (s[0] == '-' || s[0] == ':') && SplitsNumeric(current, s[0], s[1..]) then
      Scan(s[1..], "", Flush(p, current).(expectValue := true))
    else Scan(s[1..], current + [s[0]], p)
  }

  /** A comma with no value in front of it stands for an empty string. */
  function AtComma(p: Progress, current: string): Progress {
    (if !Emits(current) && p.expectValue then PushString(p, "") else Flush(p, current)).(expectValue := true)
  }

  /** One round of the loop. */
  lemma ScanStep(s: string, current: string, p: Progress)
    ensures s == "" || s[0] == ';' ==>
              Scan(s, current, p) == Values(Flush(p, current).parsed, Flush(p, current).nextId)
    ensures s != "" && s[0] == '"' ==>
              Scan(s, current, p) ==
              match ReadQuoted(s[1..])
              case Unterminated => UnterminatedString(p.nextId)
              case Closed(text, rest) => Scan(rest, "", PushString(Flush(p, current), text))
    ensures s != "" && s[0] == ',' ==> Scan(s, current, p) == Scan(s[1..], "", AtComma(p, current))
    ensures s != "" && s[0] == '=' ==>
              Scan(s, current, p) == Scan(s[1..], "", Flush(p, current).(expectValue := true))
    ensures s != "" && IsSpace(s[0]) ==>
              Scan(s, current, p) ==
              if current == "" then Scan(s[1..], "", p)
              else if IsNumericToken(Trim(current)) && NextStartsNumber(s[1..]) then Scan(s[1..], "", Flush(p, current))
              else Scan(s[1..], current + [s[0]], p)
    ensures s != "" && s[0] !in {'"', ',', '=', ';'} && !IsSpace(s[0]) ==>
              Scan(s, current, p) ==
              if (s[0] == '-' || s[0] == ':') && SplitsNumeric(current, s[0], s[1..])
              then Scan(s[1..], "", Flush(p, current).(expectValue := true))
              else Scan(s[1..], current + [s[0]], p)
  {
    hide Flush, AtComma, Trim, SplitsNumeric, IsNumericToken, NextStartsNumber, ReadQuoted;
  }

  lemma {:induction false} ReadQuotedShortens(s: string)
    ensures ReadQuoted(s).Closed? ==> |ReadQuoted(s).rest| < |s|
    decreases |s|
  {
    if s != "" && s[0] != '"' {
      ReadQuotedShortens(s[1..]);
      if |s| > 1 { ReadQuotedShortens(s[2..]); }
    }
  }

  // ------------------------------------------------------------------------------------------ printer

  /** A value as it may be written: a number, a quoted string, a bare word, or nothing at all. */
  datatype Item = IntItem(value: int32) | StrItem(text: string) | WordItem(text: string) | EmptyItem

  datatype Separator = Comma | Equals | Space | Minus | Colon | Nothing

  /** An item and what stands between it and the next one. */
  datatype Field = Field(item: Item, behind: Separator)

  function PrintItem(item: Item): string {
    match item
    case IntItem(v) => Decimal(v)
    case StrItem(text) => Quote(text)
    case WordItem(text) => text
    case EmptyItem => ""
  }

  function Mark(sep: Separator): string {
    match sep
    case Comma => ","
    case Equals => "="
    case Space => " "
    case Minus => "-"
    case Colon => ":"
    case Nothing => ""
  }

  function Print(fields: seq<Field>): string {
    if fields == [] then ""
    else if |fields| == 1 then PrintItem(fields[0].item)
    else PrintItem(fields[0].item) + Mark(fields[0].behind) + Print(fields[1..])
  }

  predicate IsWordChar(c: char) {
    c !in {'"', ',', '=', ';'} && !IsSpace(c)
  }

  /** Text that stands for itself without quotes. */
  predicate IsWord(text: string) {
    text != "" && !IsDigit(text[0]) && text[0] != '+' && text[0] != '-' &&
    forall i :: 0 <= i < |text| ==> IsWordChar(text[i])
  }

  predicate Proper(item: Item) {
    item.WordItem? ==> IsWord(item.text)
  }

  /** What may stand between two items. Only a comma makes an empty string of an empty item; a minus or a colon
      separates numbers, where the next one has no sign and a minus has no negative number in front. */
  predicate Separates(a: Item, sep: Separator, b: Item) {
    match sep
    case Comma => true
    case Equals => !a.EmptyItem?
    case Space => !a.EmptyItem? && !b.EmptyItem? && (a.StrItem? || b.StrItem? || (a.IntItem? && b.IntItem?))
    case Minus => a.IntItem? && b.IntItem? && a.value >= 0 && b.value >= 0
    case Colon => a.IntItem? && b.IntItem? && b.value >= 0
    case Nothing => !a.EmptyItem? && !b.EmptyItem? && (a.StrItem? || b.StrItem?)
  }

  /** An empty item at the end would leave no trace. */
  predicate WellSeparated(fields: seq<Field>) {
    fields == [] ||
    (Proper(fields[0].item) &&
     if |fields| == 1 then !fields[0].item.EmptyItem?
     else Separates(fields[0].item, fields[0].behind, fields[1].item) && WellSeparated(fields[1..]))
  }

  function ValueOf(item: Item, id: int): Val {
    match item
    case IntItem(v) => IntVal(v)
    case StrItem(text) => StrVal(text, id)
    case WordItem(text) => StrVal(text, id)
    case EmptyItem => StrVal("", id)
  }

  function Strings(item: Item): nat {
    if item.IntItem? then 0 else 1
  }

  /** The values that the items stand for, strings numbered from `id` on. */
  function Numbered(fields: seq<Field>, id: int): seq<Val> {
    if fields == [] then []
    else [ValueOf(fields[0].item, id)] + Numbered(fields[1..], id + Strings(fields[0].item))
  }

  function StringCount(fields: seq<Field>): nat {
    if fields == [] then 0 else Strings(fields[0].item) + StringCount(fields[1..])
  }

  // ------------------------------------------------------------------------------------------ one item

  /** Digits are collected. */
  lemma {:induction false} ScanDigits(s: string, rest: string, current: string, p: Progress)
    requires AllDigits(s)
    ensures Scan(s + rest, current, p) == Scan(rest, current + s, p)
    decreases |s|
  {
    if s == "" {
      assert s + rest == rest && current + s == current;
    } else {
      assert IsDigit(s[0]);
      assert (s + rest)[0] == s[0] && (s + rest)[1..] == s[1..] + rest;
      ScanDigits(s[1..], rest, current + [s[0]], p);
      assert current + [s[0]] + s[1..] == current + s;
    }
  }

  lemma ScanMinus(rest: string, p: Progress)
    ensures Scan("-" + rest, "", p) == Scan(rest, "-", p)
  {
    assert ("-" + rest)[1..] == rest;
    assert "" + ['-'] == "-";
    TrimNothing("");
  }

  lemma ScanDecimal(v: int32, rest: string, p: Progress)
    ensures Scan(Decimal(v) + rest, "", p) == Scan(rest, Decimal(v), p)
  {
    hide Scan, Decimal, ParseInt, Trim;
    var s := Decimal(v);
    DecimalReadBack(v);
    if AllDigits(s) {
      ScanDigits(s, rest, "", p);
      assert "" + s == s;
    } else {
      ScanMinus(s[1..] + rest, p);
      ScanDigits(s[1..], rest, "-", p);
      assert s + rest == "-" + (s[1..] + rest);
      assert "-" + s[1..] == s;
    }
  }

  /** Text that starts like a word is no number. */
  lemma WordIsNotNumeric(current: string)
    requires current == "" || IsWord(current)
    ensures !IsNumericToken(Trim(current)) && (current != "" ==> Trim(current) == current && ParseInt(current) == None)
    ensures current != "" ==> Emits(current)
  {
    TrimNothing(current);
  }

  lemma WordPrefix(current: string, s: string)
    requires IsWord(current + s) && s != ""
    ensures IsWordChar(s[0]) && (current == "" || IsWord(current)) && IsWord(current + [s[0]])
  {
    var all := current + s;
    assert s[0] == all[|current|];
    assert forall i :: 0 <= i < |current| ==> current[i] == all[i];
    if current != "" { assert current[0] == all[0]; }
  }

  lemma {:induction false} ScanWord(s: string, rest: string, current: string, p: Progress)
    requires IsWord(current + s)
    ensures Scan(s + rest, current, p) == Scan(rest, current + s, p)
    decreases |s|
  {
    hide Scan, IsWord, Trim, IsNumericToken;
    if s == "" {
      assert s + rest == rest && current + s == current;
    } else {
      WordPrefix(current, s);
      WordIsNotNumeric(current);
      assert (s + rest)[0] == s[0] && (s + rest)[1..] == s[1..] + rest;
      ScanStep(s + rest, current, p);
      assert current + [s[0]] + s[1..] == current + s;
      ScanWord(s[1..], rest, current + [s[0]], p);
    }
  }

  /** Text in front of a quoted string is a value of its own. */
  lemma ScanQuote(text: string, rest: string, current: string, p: Progress)
    ensures Scan(Quote(text) + rest, current, p) == Scan(rest, "", PushString(Flush(p, current), text))
  {
    hide Scan, Flush;
    var s := Quote(text) + rest;
    ScanStep(s, current, p);
    assert s[0] == '"' && s[1..] == Escape(text) + "\"" + rest;
    QuotedReadBack(text, rest);
  }

  lemma FlushNothing(p: Progress)
    ensures Flush(p, "") == p && !Emits("")
  {
    TrimNothing("");
  }

  /** What an item leaves in the text being collected. */
  function Pending(item: Item): string {
    if item.StrItem? then "" else PrintItem(item)
  }

  /** What it has added by then; a number or a word is added when it is flushed. */
  function Begun(p: Progress, item: Item): Progress {
    if item.StrItem? then PushString(p, item.text) else p
  }

  function Added(p: Progress, item: Item): Progress {
    Progress(p.parsed + [ValueOf(item, p.nextId)], false, p.nextId + Strings(item))
  }

  lemma ScanItem(item: Item, rest: string, p: Progress)
    requires Proper(item)
    ensures Scan(PrintItem(item) + rest, "", p) == Scan(rest, Pending(item), Begun(p, item))
  {
    hide Scan, Decimal, Flush;
    match item
    case IntItem(v) => ScanDecimal(v, rest, p);
    case StrItem(text) => FlushNothing(p); ScanQuote(text, rest, "", p);
    case WordItem(text) => assert "" + text == text; ScanWord(text, rest, "", p);
    case EmptyItem => assert "" + rest == rest;
  }

  lemma TrimSpace(s: string)
    requires s != "" && !IsSpace(s[0]) && !IsSpace(s[|s| - 1])
    ensures Trim(s) == s && Trim(s + " ") == s
  {
    assert (s + " ")[..|s|] == s;
    assert TrimRight(s + " ") == TrimRight(s);
  }

  /** What is pending is one value, also with a space behind it. */
  lemma PendingFlushed(item: Item, p: Progress)
    requires Proper(item) && !item.EmptyItem?
    ensures Flush(Begun(p, item), Pending(item)) == Added(p, item)
    ensures !item.StrItem? ==>
              Pending(item) != "" && Emits(Pending(item)) && Flush(p, Pending(item) + " ") == Added(p, item) &&
              Trim(Pending(item)) == Pending(item)
  {
    hide Decimal, ParseInt, Trim, IsDigit;
    match item
    case IntItem(v) =>
      DecimalReadBack(v);
      TrimSpace(Decimal(v));
    case StrItem(_) => FlushNothing(PushString(p, item.text));
    case WordItem(text) =>
      WordIsNotNumeric(text);
      TrimSpace(text);
      assert text[0] != '-';
  }

  // ------------------------------------------------------------------------------------------ what stands between

  lemma ScanComma(a: Item, rest: string, p: Progress)
    requires Proper(a) && (a.EmptyItem? ==> p.expectValue)
    ensures Scan("," + rest, Pending(a), Begun(p, a)) == Scan(rest, "", Added(p, a).(expectValue := true))
  {
    hide Scan, Flush, Decimal, Proper, Emits;
    var s := "," + rest;
    assert s[1..] == rest;
    ScanStep(s, Pending(a), Begun(p, a));
    FlushNothing(Begun(p, a));
    if !a.EmptyItem? { PendingFlushed(a, p); }
  }

  lemma ScanEquals(a: Item, rest: string, p: Progress)
    requires Proper(a) && !a.EmptyItem?
    ensures Scan("=" + rest, Pending(a), Begun(p, a)) == Scan(rest, "", Added(p, a).(expectValue := true))
  {
    hide Scan, Flush, Pending, Begun, Added, Proper;
    assert ("=" + rest)[1..] == rest;
    ScanStep("=" + rest, Pending(a), Begun(p, a));
    PendingFlushed(a, p);
  }

  /** The next item is a quoted string, which flushes what is pending. */
  lemma ScanQuoteBehind(current: string, text: string, rest: string, p: Progress)
    ensures Scan(Quote(text) + rest, current, p) == Scan(Quote(text) + rest, "", Flush(p, current))
  {
    hide Scan, Flush, Quote, PushString;
    ScanQuote(text, rest, current, p);
    ScanQuote(text, rest, "", Flush(p, current));
    FlushNothing(Flush(p, current));
  }

  lemma DecimalStarts(v: int32, rest: string)
    ensures NextStartsNumber(Decimal(v) + rest) && (v >= 0 ==> NextIsDigit(Decimal(v) + rest))
    ensures IsNumericToken(Decimal(v)) && (v >= 0 ==> Decimal(v)[0] != '-')
  {
    var s := Decimal(v) + rest;
    DecimalReadBack(v);
    assert s[0] == Decimal(v)[0];
    assert TrimLeft(s) == s;
    if v < 0 {
      assert s[1] == Decimal(v)[1];
      assert Decimal(v)[1..][0] == Decimal(v)[1];
    }
  }

  lemma ScanSpace(a: Item, b: Item, rest: string, p: Progress)
    requires Proper(a) && Separates(a, Space, b)
    ensures Scan(" " + (PrintItem(b) + rest), Pending(a), Begun(p, a)) == Scan(PrintItem(b) + rest, "", Added(p, a))
  {
    hide Scan, Flush, Trim, Decimal, Quote, NextStartsNumber, IsNumericToken, Proper;
    var behind := PrintItem(b) + rest;
    assert (" " + behind)[1..] == behind && (" " + behind)[0] == ' ';
    ScanStep(" " + behind, Pending(a), Begun(p, a));
    PendingFlushed(a, p);
    if !a.StrItem? {
      if a.IntItem? && b.IntItem? {
        DecimalStarts(a.value, "");
        DecimalStarts(b.value, rest);
      } else {
        QuoteStartsNoNumber(b.text, rest);
        ScanQuoteBehind(Pending(a) + " ", b.text, rest, p);
        assert Pending(a) + [' '] == Pending(a) + " ";
      }
    }
  }

  lemma QuoteStartsNoNumber(text: string, rest: string)
    ensures !NextStartsNumber(Quote(text) + rest)
  {
  }

  lemma ScanSign(a: Item, sep: Separator, b: Item, rest: string, p: Progress)
    requires Separates(a, sep, b) && (sep == Minus || sep == Colon)
    ensures Scan(Mark(sep) + (PrintItem(b) + rest), Pending(a), Begun(p, a)) ==
            Scan(PrintItem(b) + rest, "", Added(p, a).(expectValue := true))
  {
    hide Scan, Flush, Trim, Decimal, NextIsDigit, IsNumericToken;
    var behind := PrintItem(b) + rest;
    assert (Mark(sep) + behind)[1..] == behind && (Mark(sep) + behind)[0] == Mark(sep)[0];
    ScanStep(Mark(sep) + behind, Pending(a), Begun(p, a));
    PendingFlushed(a, p);
    DecimalStarts(a.value, "");
    DecimalStarts(b.value, rest);
  }

  lemma ScanNothingBetween(a: Item, b: Item, rest: string, p: Progress)
    requires Proper(a) && Separates(a, Nothing, b)
    ensures Scan(PrintItem(b) + rest, Pending(a), Begun(p, a)) == Scan(PrintItem(b) + rest, "", Added(p, a))
  {
    hide Scan, Flush, Decimal, Quote, Proper;
    PendingFlushed(a, p);
    if !a.StrItem? {
      ScanQuoteBehind(Pending(a), b.text, rest, p);
    }
  }

  /** Does a comma behind this separator find a value missing? */
  predicate Awaits(sep: Separator) {
    sep != Space && sep != Nothing
  }

  /** One item and what stands between it and the next. */
  lemma ScanField(a: Item, sep: Separator, b: Item, rest: string, p: Progress)
    requires Proper(a) && Separates(a, sep, b) && (a.EmptyItem? ==> p.expectValue)
    ensures Scan(PrintItem(a) + (Mark(sep) + (PrintItem(b) + rest)), "", p) ==
            Scan(PrintItem(b) + rest, "", Added(p, a).(expectValue := Awaits(sep)))
  {
    hide Scan, Flush, PrintItem, Pending, Begun, Proper;
    var behind := PrintItem(b) + rest;
    ScanItem(a, Mark(sep) + behind, p);
    match sep
    case Comma => ScanComma(a, behind, p);
    case Equals => ScanEquals(a, behind, p);
    case Space => ScanSpace(a, b, rest, p);
    case Nothing => assert "" + behind == behind; ScanNothingBetween(a, b, rest, p);
    case _ => ScanSign(a, sep, b, rest, p);
  }

  // ------------------------------------------------------------------------------------------ round trip

  /** A value ends with its text or at a comment. */
  predicate EndsValue(tail: string) {
    tail == "" || tail[0] == ';'
  }

  lemma ScanLast(item: Item, tail: string, p: Progress)
    requires Proper(item) && !item.EmptyItem? && EndsValue(tail)
    ensures Scan(PrintItem(item) + tail, "", p) == Values(Added(p, item).parsed, Added(p, item).nextId)
  {
    hide Scan, Flush, PrintItem, Pending, Begun, Added, Proper;
    ScanItem(item, tail, p);
    ScanStep(tail, Pending(item), Begun(p, item));
    PendingFlushed(item, p);
  }

  lemma ScanNoItem(tail: string, p: Progress)
    requires EndsValue(tail)
    ensures Scan(tail, "", p) == Values(p.parsed, p.nextId)
  {
    FlushNothing(p);
    ScanStep(tail, "", p);
  }

  lemma EmptyIsAwaited(a: Item, sep: Separator, b: Item)
    requires Separates(a, sep, b)
    ensures b.EmptyItem? ==> Awaits(sep)
  {
  }

  lemma PrintSplit(fields: seq<Field>, tail: string)
    requires |fields| > 1
    ensures var behind := if |fields| == 2 then tail else Mark(fields[1].behind) + (Print(fields[2..]) + tail);
            Print(fields[1..]) + tail == PrintItem(fields[1].item) + behind &&
            Print(fields) + tail ==
            PrintItem(fields[0].item) + (Mark(fields[0].behind) + (PrintItem(fields[1].item) + behind))
  {
    hide PrintItem, Mark;
    var (a, m, b) := (PrintItem(fields[0].item), Mark(fields[0].behind), PrintItem(fields[1].item));
    var others := Print(fields[1..]);
    assert fields[1..][1..] == fields[2..];
    if |fields| > 2 {
      AssocFour(b, Mark(fields[1].behind), Print(fields[2..]), tail);
    }
    AssocFour(a, m, others, tail);
  }

  /** The scanner finds the printed items, with their values, in order, and numbers the strings. */
  lemma {:induction false} ScanPrinted(fields: seq<Field>, tail: string, p: Progress)
    requires WellSeparated(fields) && EndsValue(tail)
    requires fields != [] && fields[0].item.EmptyItem? ==> p.expectValue
    ensures Scan(Print(fields) + tail, "", p) ==
            Values(p.parsed + Numbered(fields, p.nextId), p.nextId + StringCount(fields))
    decreases |fields|
  {
    hide Scan, PrintItem, Mark, Separates, Proper, ValueOf, EndsValue;
    if fields == [] {
      ScanNoItem(tail, p);
      assert Print(fields) + tail == tail && p.parsed + [] == p.parsed;
    } else {
      var (first, others) := (fields[0].item, fields[1..]);
      var q := Added(p, first);
      assert p.parsed + ([ValueOf(first, p.nextId)] + Numbered(others, q.nextId)) ==
             q.parsed + Numbered(others, q.nextId);
      if |fields| == 1 {
        ScanLast(first, tail, p);
        assert q.parsed + Numbered(others, q.nextId) == q.parsed;
      } else {
        hide Print;
        var behind := if |fields| == 2 then tail else Mark(fields[1].behind) + (Print(fields[2..]) + tail);
        PrintSplit(fields, tail);
        ScanField(first, fields[0].behind, fields[1].item, behind, p);
        assert fields[1].item.EmptyItem? ==> Awaits(fields[0].behind) by {
          EmptyIsAwaited(first, fields[0].behind, fields[1].item);
        }
        ScanPrinted(others, tail, q.(expectValue := Awaits(fields[0].behind)));
      }
    }
  }

  /** Joined by commas, proper items are well separated, whatever they are; only the last one has to be there. */
  lemma {:induction false} CommasSeparate(fields: seq<Field>)
    requires forall i :: 0 <= i < |fields| ==> Proper(fields[i].item) && fields[i].behind == Comma
    requires fields != [] ==> !fields[|fields| - 1].item.EmptyItem?
    ensures WellSeparated(fields)
    decreases |fields|
  {
    hide Proper;
    if |fields| > 1 {
      CommasSeparate(fields[1..]);
    }
  }

  /** A minus between two numbers separates them if and only if neither is negative; otherwise the whole is one string.
      */
  lemma MinusBetweenNumbers(a: int32, b: int32, id: int)
    ensures Scan(Decimal(a) + "-" + Decimal(b), "", Progress([], true, id)) == Values([IntVal(a), IntVal(b)], id)
            <==> a >= 0 && b >= 0
  {
    hide Scan, Decimal, Flush;
    var p := Progress([], true, id);
    if a >= 0 && b >= 0 {
      TwoNumbers(a, b, id);
      ScanPrinted([Field(IntItem(a), Minus), Field(IntItem(b), Comma)], "", p);
    } else {
      MinusNotSeparating(a, b, p);
      FlushAddsOne(p, Decimal(a) + "-" + Decimal(b));
    }
  }

  lemma TwoNumbers(a: int32, b: int32, id: int)
    requires a >= 0 && b >= 0
    ensures var fields := [Field(IntItem(a), Minus), Field(IntItem(b), Comma)];
            WellSeparated(fields) && Print(fields) + "" == Decimal(a) + "-" + Decimal(b) &&
            [] + Numbered(fields, id) == [IntVal(a), IntVal(b)] && StringCount(fields) == 0
  {
    hide Decimal;
    var (x, y) := (Field(IntItem(a), Minus), Field(IntItem(b), Comma));
    assert [x, y][1..] == [y] && [y][1..] == [];
    assert Print([y]) == Decimal(b);
    assert Print([x, y]) == Decimal(a) + "-" + Decimal(b);
    assert Numbered([y], id) == [IntVal(b)] + Numbered([], id);
    assert StringCount([y]) == StringCount([]) == 0;
  }

  lemma FlushAddsOne(p: Progress, current: string)
    ensures |Flush(p, current).parsed| <= |p.parsed| + 1
  {
  }

  /** A number with a minus behind it is no number. */
  lemma NumberAndMinus(a: int32)
    ensures !IsNumericToken(Trim(Decimal(a) + "-")) && Trim(Decimal(a) + "-") == Decimal(a) + "-"
  {
    hide Decimal;
    DecimalReadBack(a);
    var s := Decimal(a) + "-";
    TrimNothing(s);
    assert s[|s| - 1] == '-' && s[1..][|s| - 2] == '-';
  }

  lemma SignedNotSplit(a: int32, b: int32)
    requires a < 0 || b < 0
    ensures !SplitsNumeric(Decimal(a), '-', Decimal(b))
  {
    DecimalReadBack(a);
    DecimalReadBack(b);
    TrimNothing(Decimal(b));
  }

  lemma ScanPendingNumber(b: int32, first: string, p: Progress)
    requires !IsNumericToken(Trim(first + "-"))
    ensures Scan(Decimal(b), first + "-", p) == Scan("", first + "-" + Decimal(b), p)
  {
    hide Scan, Trim, IsNumericToken;
    var s := Decimal(b);
    assert s + "" == s;
    if AllDigits(s) {
      ScanDigits(s, "", first + "-", p);
    } else {
      DecimalReadBack(b);
      ScanStep(s, first + "-", p);
      assert s[1..] + "" == s[1..];
      ScanDigits(s[1..], "", first + "-" + ['-'], p);
      assert first + "-" + ['-'] + s[1..] == first + "-" + s;
    }
  }

  lemma MinusNotSeparating(a: int32, b: int32, p: Progress)
    requires a < 0 || b < 0
    ensures var whole := Decimal(a) + "-" + Decimal(b);
            Scan(whole, "", p) == Values(Flush(p, whole).parsed, Flush(p, whole).nextId)
  {
    hide Scan, Flush, Trim, IsNumericToken, Decimal;
    var (first, second) := (Decimal(a), Decimal(b));
    assert first + "-" + second == first + ("-" + second);
    ScanDecimal(a, "-" + second, p);
    assert ("-" + second)[1..] == second;
    ScanStep("-" + second, first, p);
    SignedNotSplit(a, b);
    assert first + ['-'] == first + "-";
    ScanPendingNumber(b, first, p) by { NumberAndMinus(a); }
    ScanStep("", first + "-" + second, p);
  }

  // ------------------------------------------------------------------------------------------ signs

  /** A digit, or a sign and a digit, behind any spaces: a number begins there, and with more digits is one. */
  lemma SignedNumbers(front: string, sign: string, d: char, digits: string, rest: string)
    requires AllSpaces(front) && sign in {"", "+", "-"} && '0' <= d <= '9' && AllDigits(digits)
    ensures NextStartsNumber(front + (sign + [d] + rest)) && IsNumericToken(sign + [d] + digits)
    ensures NextIsDigit(front + (sign + [d] + rest)) <==> sign == ""
  {
    hide TrimLeft;
    var s := sign + [d] + rest;
    CutsLeft(front, s);
    TrimmedAlready(s);
    assert sign != "" ==> s[0] == sign[0] && s[1] == d;
    var token := sign + [d] + digits;
    assert token == sign + ([d] + digits);
    assert sign != "" ==> token[1..] == [d] + digits;
    assert sign == "" ==> token == [d] + digits;
  }

  /** A sign alone is no number, and a number holds no sign but the first. */
  lemma NoSignedNumbers(token: string, i: nat)
    requires i < |token| && (i > 0 || token[0] !in {'+', '-'}) && !('0' <= token[i] <= '9')
    ensures !IsNumericToken(token) && !IsNumericToken("") && !IsNumericToken("+") && !IsNumericToken("-")
  {
    if i > 0 {
      assert token[1..][i - 1] == token[i];
    }
  }
}
