/** The characters, numbers and quoted strings of Gameexe lines. */
module GameexeText {
  import opened Bytes
  import opened Sequences
  import opened Bytecode

  /** isspace in the C locale. */
  predicate IsSpace(c: char) {
    c as int == 0x20 || 9 <= c as int <= 13
  }

  predicate IsDigit(c: char) {
    '0' <= c <= '9'
  }

  function TrimLeft(s: string): string {
    if s != "" && IsSpace(s[0]) then TrimLeft(s[1..]) else s
  }

  function TrimRight(s: string): string {
    if s != "" && IsSpace(s[|s| - 1]) then TrimRight(s[..|s| - 1]) else s
  }

  function Trim(s: string): string {
    TrimLeft(TrimRight(s))
  }

  // ------------------------------------------------------------------------------------------ numbers

  predicate AllDigits(s: string) {
    forall i :: 0 <= i < |s| ==> IsDigit(s[i])
  }

  function DigitsValue(s: string): nat
    requires AllDigits(s)
  {
    if s == "" then 0 else DigitsValue(s[..|s| - 1]) * 10 + (s[|s| - 1] as int - '0' as int)
  }

  /** parse_int: a minus sign or none, at least one digit, nothing else, and a value that an int can hold. */
  function ParseInt(text: string): Option<int32> {
    var s := Trim(text);
    var negative := s != "" && s[0] == '-';
    var digits := if negative then s[1..] else s;
    if digits == "" || !AllDigits(digits) then None
    else
      var v := if negative then 0 - DigitsValue(digits) else DigitsValue(digits);
      if -0x8000_0000 <= v < 0x8000_0000 then Some(v) else None
  }

  function Digits(n: nat): (s: string)
    ensures s != "" && AllDigits(s)
  {
    var last := [('0' as int + n % 10) as char];
    if n < 10 then last else Digits(n / 10) + last
  }

  function Decimal(v: int32): string {
    if v < 0 then "-" + Digits(0 - v) else Digits(v)
  }

  lemma {:induction false} DigitsReadBack(n: nat)
    ensures DigitsValue(Digits(n)) == n
  {
    var s := Digits(n);
    if n >= 10 {
      DigitsReadBack(n / 10);
      assert s[..|s| - 1] == Digits(n / 10);
    }
  }

  predicate NoSpaces(s: string) {
    forall i :: 0 <= i < |s| ==> !IsSpace(s[i])
  }

  lemma TrimNothing(s: string)
    requires s != "" ==> !IsSpace(s[0]) && !IsSpace(s[|s| - 1])
    ensures Trim(s) == s
  {
  }

  /** A printed number is read back, and nothing in it is trimmed or special. */
  lemma DecimalReadBack(v: int32)
    ensures Decimal(v) != "" && ParseInt(Decimal(v)) == Some(v) && Trim(Decimal(v)) == Decimal(v)
    ensures !AllDigits(Decimal(v)) ==> Decimal(v)[0] == '-' && Decimal(v)[1..] != "" && AllDigits(Decimal(v)[1..])
    ensures NoSpaces(Decimal(v)) && Decimal(v) != "-"
  {
    var n := if v < 0 then 0 - v else v;
    var d := Digits(n);
    DigitsReadBack(n);
    assert IsDigit(d[0]) && IsDigit(d[|d| - 1]);
    TrimNothing(Decimal(v));
    assert v < 0 ==> Decimal(v)[1..] == d;
  }

  // ------------------------------------------------------------------------------------------ quoted strings

  /** Backslashes and quotes get a backslash in front. */
  function Escape(text: string): string {
    if text == "" then ""
    else if text[0] == '"' || text[0] == '\\' then ['\\', text[0]] + Escape(text[1..])
    else [text[0]] + Escape(text[1..])
  }

  function Quote(text: string): string {
    "\"" + Escape(text) + "\""
  }

  datatype Quoted = Closed(text: string, rest: string) | Unterminated

  function Prepend(c: char, q: Quoted): Quoted {
    match q
    case Closed(text, rest) => Closed([c] + text, rest)
    case Unterminated => Unterminated
  }

  /** The text behind an opening quote, up to the closing one, and what stands behind that. A backslash escapes a quote
      or a backslash and stands for itself in front of anything else. */
  function ReadQuoted(s: string): Quoted {
    if s == "" then Unterminated
    else if s[0] == '"' then Closed("", s[1..])
    else if s[0] == '\\' && |s| > 1 && (s[1] == '"' || s[1] == '\\') then Prepend(s[1], ReadQuoted(s[2..]))
    else Prepend(s[0], ReadQuoted(s[1..]))
  }

  lemma ReadEscaped(c: char, tail: string)
    requires c == '"' || c == '\\'
    ensures ReadQuoted(['\\', c] + tail) == Prepend(c, ReadQuoted(tail))
  {
    assert (['\\', c] + tail)[2..] == tail;
  }

  lemma ReadPlain(c: char, tail: string)
    requires c != '"' && c != '\\'
    ensures ReadQuoted([c] + tail) == Prepend(c, ReadQuoted(tail))
  {
    assert ([c] + tail)[1..] == tail;
  }

  lemma {:induction false} QuotedReadBack(text: string, rest: string)
    ensures ReadQuoted(Escape(text) + "\"" + rest) == Closed(text, rest)
    decreases |text|
  {
    hide ReadQuoted;
    if text == "" {
      ReadClosing(rest);
      assert Escape(text) + "\"" + rest == "\"" + rest;
    } else {
      var c := text[0];
      var tail := Escape(text[1..]);
      QuotedReadBack(text[1..], rest);
      if c == '"' || c == '\\' {
        assert Escape(text) == ['\\', c] + tail;
        AssocFour(['\\', c], tail, "\"", rest);
        ReadEscaped(c, tail + "\"" + rest);
      } else {
        assert Escape(text) == [c] + tail;
        AssocFour([c], tail, "\"", rest);
        ReadPlain(c, tail + "\"" + rest);
      }
      hide Escape;
      assert [c] + text[1..] == text;
    }
  }

  lemma ReadClosing(rest: string)
    ensures ReadQuoted("\"" + rest) == Closed("", rest)
  {
    assert ("\"" + rest)[1..] == rest;
  }

  // ------------------------------------------------------------------------------------------ spaces

  /** Blank, tabulators, line feed, form feed and carriage return. */
  lemma SpacesAre(c: char)
    ensures IsSpace(c) <==> c in {' ', '\t', '\n', '\r', 11 as char, 12 as char}
  {
  }

  predicate AllSpaces(s: string) {
    forall i :: 0 <= i < |s| ==> s[i] in {' ', '\t', '\n', '\r', 11 as char, 12 as char}
  }

  /** What is trimmed away are the spaces on both sides and nothing else. */
  lemma TrimCutsSpaces(front: string, s: string, back: string)
    requires AllSpaces(front) && AllSpaces(back)
    requires s != "" ==> s[0] !in {' ', '\t', '\n', '\r', 11 as char, 12 as char}
    requires s != "" ==> s[|s| - 1] !in {' ', '\t', '\n', '\r', 11 as char, 12 as char}
    ensures Trim(front + s + back) == s
  {
    hide TrimLeft, TrimRight;
    CutsRight(front + s, back);
    if s == "" {
      assert front + s == "" + front;
      CutsRight("", front);
    } else {
      EndsThere(front + s);
      CutsLeft(front, s);
    }
    TrimmedAlready(s);
  }

  lemma TrimmedAlready(s: string)
    ensures (s == "" || !IsSpace(s[0])) ==> TrimLeft(s) == s
    ensures TrimRight("") == ""
  {
  }

  lemma EndsThere(s: string)
    requires s != "" && !IsSpace(s[|s| - 1])
    ensures TrimRight(s) == s
  {
  }

  lemma {:induction false} CutsRight(s: string, back: string)
    requires AllSpaces(back)
    ensures TrimRight(s + back) == TrimRight(s)
    decreases |back|
  {
    if back == "" {
      assert s + back == s;
    } else {
      assert (s + back)[..|s + back| - 1] == s + back[..|back| - 1];
      CutsRight(s, back[..|back| - 1]);
    }
  }

  lemma {:induction false} CutsLeft(front: string, s: string)
    requires AllSpaces(front)
    ensures TrimLeft(front + s) == TrimLeft(s)
    decreases |front|
  {
    if front == "" {
      assert front + s == s;
    } else {
      assert (front + s)[1..] == front[1..] + s;
      CutsLeft(front[1..], s);
    }
  }

  // ------------------------------------------------------------------------------------------ what is a number

  function Pow10(n: nat): nat {
    if n == 0 then 1 else 10 * Pow10(n - 1)
  }

  lemma LastDigit(s: string)
    requires AllDigits(s) && s != ""
    ensures DigitsValue(s) == 10 * DigitsValue(s[..|s| - 1]) + (s[|s| - 1] as int - '0' as int)
  {
  }

  lemma TimesTen(x: nat, y: nat)
    ensures x * (10 * y) == 10 * (x * y)
  {
  }

  lemma OneDigit(d: char)
    requires '0' <= d <= '9'
    ensures DigitsValue([d]) == d as int - '0' as int
  {
    assert [d][..0] == "";
  }

  /** Digits count by their place. */
  lemma {:induction false} DigitsByPlace(a: string, b: string)
    requires AllDigits(a) && AllDigits(b)
    ensures AllDigits(a + b) && DigitsValue(a + b) == DigitsValue(a) * Pow10(|b|) + DigitsValue(b)
    ensures DigitsValue("") == 0 && forall d: char | '0' <= d <= '9' :: DigitsValue([d]) == d as int - '0' as int
    decreases |b|
  {
    assert DigitsValue("") == 0;
    hide DigitsValue;
    forall d: char | '0' <= d <= '9' ensures DigitsValue([d]) == d as int - '0' as int {
      OneDigit(d);
    }
    if b == "" {
      assert a + b == a;
    } else {
      var c := b[..|b| - 1];
      assert (a + b)[..|a + b| - 1] == a + c;
      DigitsByPlace(a, c);
      LastDigit(b);
      LastDigit(a + b);
      TimesTen(DigitsValue(a), Pow10(|c|));
    }
  }

  /** A text is a number if and only if it is, between spaces, a minus sign or none and at least one digit, and what the
      digits count is not too large for the sign. */
  lemma NumbersAre(digits: string, negative: bool)
    requires AllDigits(digits)
    ensures var text := if negative then "-" + digits else digits;
            ParseInt(text) ==
            if digits == "" || DigitsValue(digits) > (if negative then 2147483648 else 2147483647) then None
            else Some(if negative then 0 - DigitsValue(digits) else DigitsValue(digits))
  {
    var text := if negative then "-" + digits else digits;
    assert text != "" ==> IsDigit(text[|text| - 1]) || text[|text| - 1] == '-';
    TrimNothing(text);
    assert negative ==> text[1..] == digits;
  }

  /** Anything but digits and a minus sign in front makes it none. */
  lemma NoNumber(text: string, i: nat)
    requires i < |text| && !('0' <= text[i] <= '9') && (i > 0 || text[i] != '-')
    requires !IsSpace(text[0]) && !IsSpace(text[|text| - 1])
    ensures ParseInt(text) == None
  {
    TrimNothing(text);
    if text[0] == '-' && i > 0 {
      assert text[1..][i - 1] == text[i];
    }
  }
}
