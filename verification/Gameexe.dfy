/** class Gameexe: lines in, entries out. */
module GameexeClass {
  import opened Bytes
  import opened Bytecode
  import opened GameexeText
  import opened GameexeValues
  import opened GameexeStore

  datatype Error =
    | MissingEquals(line: nat)
    | EmptyKey(line: nat)
    | UnterminatedQuote(key: string, line: nat)

  datatype ParseResult = Ok(values: seq<Val>) | Err(error: Error)

  function ResultOf(s: Scanned, key: string, line: nat): ParseResult {
    match s
    case Values(values, _) => Ok(values)
    case UnterminatedString(_) => Err(UnterminatedQuote(key, line))
  }

  // ------------------------------------------------------------------------------------------ lines

  function IndexOf(s: string, c: char): Option<nat> {
    if s == "" then None
    else if s[0] == c then Some(0)
    else
      match IndexOf(s[1..], c)
      case None => None
      case Some(i) => Some(i + 1)
  }

  lemma {:induction false} IndexOfFacts(s: string, c: char)
    ensures var i := IndexOf(s, c);
            (i.None? ==> forall k :: 0 <= k < |s| ==> s[k] != c) &&
            (i.Some? ==> i.value < |s| && s[i.value] == c && forall k :: 0 <= k < i.value ==> s[k] != c)
    decreases |s|
  {
    if s != "" {
      IndexOfFacts(s[1..], c);
    }
  }

  /** A line is nothing, a faulty line, or a key and the text of its values. */
  datatype Line = Blank | Faulty(error: Error) | Assignment(key: string, value: string)

  function ReadLine(line: string, lineNumber: nat): Line {
    var trimmed := Trim(line);
    if trimmed == "" || trimmed[0] == ';' then Blank
    else
      match IndexOf(trimmed, '=')
      case None => Faulty(MissingEquals(lineNumber))
      case Some(i) =>
        IndexOfFacts(trimmed, '=');
        var lhs := Trim(trimmed[..i]);
        if lhs == "" then Faulty(EmptyKey(lineNumber))
        else Assignment(if lhs[0] == '#' then Trim(lhs[1..]) else lhs, Trim(trimmed[i + 1..]))
  }

  class Gameexe {
    var entries: seq<Entry>
    var nextStringId: int

    predicate Valid()
      reads this
    {
      Sorted(entries)
    }

    constructor ()
      ensures Valid() && entries == [] && nextStringId == 0
    {
      entries := [];
      nextStringId := 0;
    }

    /** The entry of a good line goes behind those with the same key; a line that is not good changes no entry. */
    method ParseLine(line: string, lineNumber: nat) returns (error: Option<Error>)
      requires Valid()
      modifies this
      ensures Valid()
      ensures ReadLine(line, lineNumber) == Blank ==>
                error == None && entries == old(entries) && nextStringId == old(nextStringId)
      ensures ReadLine(line, lineNumber).Faulty? ==>
                error == Some(ReadLine(line, lineNumber).error) && entries == old(entries) &&
                nextStringId == old(nextStringId)
      ensures ReadLine(line, lineNumber).Assignment? ==>
                var a := ReadLine(line, lineNumber);
                var scanned := Scan(a.value, "", Progress([], true, old(nextStringId)));
                nextStringId == scanned.nextId &&
                match scanned
                case UnterminatedString(_) =>
                  error == Some(UnterminatedQuote(a.key, lineNumber)) && entries == old(entries)
                case Values(values, _) => error == None && entries == Emplace(old(entries), Entry(a.key, values))
    {
      hide Scan, Emplace;
      var trimmed := Trim(line);
      if trimmed == "" || trimmed[0] == ';' {
        return None;
      }
      var equalPos := IndexOf(trimmed, '=');
      IndexOfFacts(trimmed, '=');
      if equalPos.None? {
        return Some(MissingEquals(lineNumber));
      }
      var lhs := Trim(trimmed[..equalPos.value]);
      var rhs := Trim(trimmed[equalPos.value + 1..]);
      if lhs == "" {
        return Some(EmptyKey(lineNumber));
      }
      var key := lhs;
      if key[0] == '#' {
        key := Trim(key[1..]);
      }
      var values := ParseValues(key, rhs, lineNumber);
      if values.Err? {
        return Some(values.error);
      }
      EmplaceKeepsSorted(entries, Entry(key, values.values));
      entries := Emplace(entries, Entry(key, values.values));
      error := None;
    }

    method ParseValues(key: string, value: string, lineNumber: nat) returns (r: ParseResult)
      modifies `nextStringId
      ensures var scanned := Scan(value, "", Progress([], true, old(nextStringId)));
              r == ResultOf(scanned, key, lineNumber) && nextStringId == scanned.nextId
    {
      hide Scan, ReadQuoted, Flush, Trim;
      ghost var scanned := Scan(value, "", Progress([], true, nextStringId));
      var current, p, pos := "", Progress([], true, nextStringId), 0;
      assert value[0..] == value;
      while pos <= |value|
        invariant 0 <= pos <= |value|
        invariant scanned == Scan(value[pos..], current, p) && p.nextId == nextStringId
        decreases |value| - pos
      {
        ScanStep(value[pos..], current, p);
        if pos == |value| {
          p := Flush(p, current);
          break;
        }
        var ch := value[pos];
        assert value[pos..][1..] == value[pos + 1..];
        if ch == '"' {
          var quoted, after := ReadQuotedText(value, pos + 1);
          if quoted.None? {
            return Err(UnterminatedQuote(key, lineNumber));
          }
          pos := after;
          p := PushString(Flush(p, current), quoted.value);
          current := "";
          nextStringId := p.nextId;
          continue;
        }
        if ch == ',' {
          var emitted := Emits(current);
          FlushNothing(p, current);
          p := Flush(p, current);
          if !emitted && p.expectValue {
            p := PushString(p, "");
          }
          p := p.(expectValue := true);
          current := "";
        } else if ch == '=' {
          p := Flush(p, current).(expectValue := true);
          current := "";
        } else if ch == ';' {
          p := Flush(p, current);
          pos := |value|;
          break;
        } else if IsSpace(ch) {
          if current != "" {
            if IsNumericToken(Trim(current)) && NextStartsNumber(value[pos + 1..]) {
              p := Flush(p, current);
              current := "";
            } else {
              current := current + [ch];
            }
          }
        } else if (ch == '-' || ch == ':') && SplitsNumeric(current, ch, value[pos + 1..]) {
          p := Flush(p, current).(expectValue := true);
          current := "";
        } else {
          current := current + [ch];
        }
        nextStringId := p.nextId;
        pos := pos + 1;
      }
      nextStringId := p.nextId;
      r := Ok(p.parsed);
    }

    static lemma FlushNothing(p: Progress, current: string)
      ensures !Emits(current) ==> Flush(p, current) == p
    {
    }

    /** From behind an opening quote to behind the closing one. */
    static method ReadQuotedText(value: string, start: nat) returns (text: Option<string>, after: nat)
      requires start <= |value|
      ensures text.None? ==> ReadQuoted(value[start..]) == Unterminated
      ensures text.Some? ==>
                start < after <= |value| && ReadQuoted(value[start..]) == Closed(text.value, value[after..])
    {
      hide ReadQuoted;
      var quoted, pos := "", start;
      NothingRead(ReadQuoted(value[start..]));
      while pos < |value|
        invariant start <= pos <= |value|
        invariant ReadQuoted(value[start..]) == Behind(quoted, ReadQuoted(value[pos..]))
        decreases |value| - pos
      {
        ReadQuotedStep(value, pos);
        var qc := value[pos];
        if qc == '"' {
          return Some(quoted), pos + 1;
        }
        if qc == '\\' && pos + 1 < |value| {
          var next := value[pos + 1];
          if next == '"' || next == '\\' {
            ReadOne(quoted, next, ReadQuoted(value[pos + 2..]));
            quoted := quoted + [next];
            pos := pos + 2;
            continue;
          }
        }
        ReadOne(quoted, qc, ReadQuoted(value[pos + 1..]));
        quoted := quoted + [qc];
        pos := pos + 1;
      }
      EndOfText(value[pos..]);
      text, after := None, pos;
    }

    static function Behind(done: string, q: Quoted): Quoted {
      match q
      case Closed(text, rest) => Closed(done + text, rest)
      case Unterminated => Unterminated
    }

    static lemma NothingRead(q: Quoted)
      ensures Behind("", q) == q
    {
      if q.Closed? { assert "" + q.text == q.text; }
    }

    static lemma ReadOne(done: string, c: char, q: Quoted)
      ensures Behind(done, GameexeText.Prepend(c, q)) == Behind(done + [c], q)
    {
      if q.Closed? { assert done + ([c] + q.text) == done + [c] + q.text; }
    }

    static lemma EndOfText(s: string)
      ensures s == "" ==> ReadQuoted(s) == Unterminated
    {
    }

    static lemma ReadQuotedStep(value: string, pos: nat)
      requires pos < |value|
      ensures var c := value[pos];
              ReadQuoted(value[pos..]) ==
              if c == '"' then Closed("", value[pos + 1..])
              else if c == '\\' && pos + 1 < |value| && (value[pos + 1] == '"' || value[pos + 1] == '\\')
              then GameexeText.Prepend(value[pos + 1], ReadQuoted(value[pos + 2..]))
              else GameexeText.Prepend(c, ReadQuoted(value[pos + 1..]))
    {
      var s := value[pos..];
      assert s[1..] == value[pos + 1..];
      if pos + 1 < |value| { assert s[2..] == value[pos + 2..] && s[1] == value[pos + 1]; }
    }

    /** Whatever was stored under the key gives way to one empty list of values; `slot` is where it is. */
    method Ensure(key: string) returns (slot: nat)
      requires Valid()
      modifies `entries
      ensures Valid() && slot < |entries| && entries[slot] == Entry(key, [])
      ensures Lookup(entries, key) == [[]]
      ensures forall other :: other != key ==> Lookup(entries, other) == Lookup(old(entries), other)
    {
      var rest := Without(entries, key);
      SetFacts(entries, key, []);
      slot := UpperBound(rest, key);
      entries := Emplace(rest, Entry(key, []));
    }

    method SetIntAt(key: string, value: int32)
      requires Valid()
      modifies this
      ensures Valid() && nextStringId == old(nextStringId)
      ensures Lookup(entries, key) == [[IntVal(value)]]
      ensures forall other :: other != key ==> Lookup(entries, other) == Lookup(old(entries), other)
    {
      var slot := Ensure(key);
      SlotFacts(entries, slot, [IntVal(value)]);
      entries := entries[slot := Entry(key, [IntVal(value)])];
    }

    method SetStringAt(key: string, value: string)
      requires Valid()
      modifies this
      ensures Valid() && nextStringId == old(nextStringId) + 1
      ensures Lookup(entries, key) == [[StrVal(value, old(nextStringId))]]
      ensures forall other :: other != key ==> Lookup(entries, other) == Lookup(old(entries), other)
    {
      var slot := Ensure(key);
      SlotFacts(entries, slot, [StrVal(value, nextStringId)]);
      entries := entries[slot := Entry(key, [StrVal(value, nextStringId)])];
      nextStringId := nextStringId + 1;
    }

    static lemma SetFacts(entries: seq<Entry>, key: string, values: seq<Val>)
      requires Sorted(entries)
      ensures var r := Emplace(Without(entries, key), Entry(key, values));
              Sorted(r) && Lookup(r, key) == [values] &&
              forall other :: other != key ==> Lookup(r, other) == Lookup(entries, other)
    {
      hide Emplace, Without, Lookup;
      var rest := Without(entries, key);
      WithoutKeepsSorted(entries, key);
      EmplaceKeepsSorted(rest, Entry(key, values));
      forall other
        ensures Lookup(Emplace(rest, Entry(key, values)), other) ==
                if other == key then [values] else Lookup(entries, other)
      {
        WithoutErases(entries, key, other);
        EmplaceAddsLast(rest, Entry(key, values), other);
      }
    }

    /** Writing values into the only entry of a key. */
    static lemma SlotFacts(entries: seq<Entry>, slot: nat, values: seq<Val>)
      requires Sorted(entries) && slot < |entries| && |Lookup(entries, entries[slot].key)| == 1
      ensures var key := entries[slot].key;
              var r := entries[slot := Entry(key, values)];
              Sorted(r) && Lookup(r, key) == [values] &&
              forall other :: other != key ==> Lookup(r, other) == Lookup(entries, other)
    {
      hide Less, Lookup;
      var (front, e, back) := (entries[..slot], entries[slot], entries[slot + 1..]);
      var r := entries[slot := Entry(e.key, values)];
      assert entries == front + [e] + back && r == front + [Entry(e.key, values)] + back;
      forall other
        ensures Lookup(entries, other) ==
                Lookup(front, other) + (if other == e.key then [e.values] else []) + Lookup(back, other)
        ensures Lookup(r, other) ==
                Lookup(front, other) + (if other == e.key then [values] else []) + Lookup(back, other)
      {
        LookupThree(front, e, back, other);
        LookupThree(front, Entry(e.key, values), back, other);
      }
    }

    static lemma LookupThree(front: seq<Entry>, e: Entry, back: seq<Entry>, key: string)
      ensures Lookup(front + [e] + back, key) ==
              Lookup(front, key) + (if key == e.key then [e.values] else []) + Lookup(back, key)
    {
      hide Lookup;
      LookupSplit(front + [e], back, key);
      LookupSplit(front, [e], key);
      LookupOne(e, key);
    }

    predicate Exists(key: string): (found: bool)
      reads this
      ensures found <==> exists e <- entries :: e.key == key
    {
      LookupFinds(entries, key);
      Lookup(entries, key) != []
    }

    method Filter(prefix: string) returns (visited: seq<Entry>)
      requires Valid()
      ensures visited == Matching(entries, prefix)
    {
      visited := GameexeStore.Filter(entries, prefix);
    }
  }

  // ------------------------------------------------------------------------------------------ printed lines

  lemma TrimKeepsEnds(s: string)
    requires s != "" && !IsSpace(s[0])
    ensures TrimLeft(s) == s && (!IsSpace(s[|s| - 1]) ==> Trim(s) == s)
  {
  }

  lemma {:induction false} TrimRightOfMarked(s: string)
    ensures TrimRight(['#'] + s) == ['#'] + TrimRight(s)
    decreases |s|
  {
    var m := ['#'] + s;
    if s != "" && IsSpace(s[|s| - 1]) {
      assert m[..|m| - 1] == ['#'] + s[..|s| - 1];
      TrimRightOfMarked(s[..|s| - 1]);
    }
  }

  lemma {:induction false} TrimRightTwice(s: string)
    ensures TrimRight(TrimRight(s)) == TrimRight(s)
    decreases |s|
  {
    if s != "" && IsSpace(s[|s| - 1]) {
      TrimRightTwice(s[..|s| - 1]);
    }
  }

  /** A marked key is stored without its mark and without the spaces around it. */
  lemma MarkedKey(key: string)
    ensures var lhs := Trim(['#'] + key);
            lhs != "" && lhs[0] == '#' && Trim(lhs[1..]) == Trim(key)
  {
    TrimRightOfMarked(key);
    TrimRightTwice(key);
    var lhs := ['#'] + TrimRight(key);
    TrimKeepsEnds(lhs);
    assert lhs[1..] == TrimRight(key);
  }

  lemma PrintedEnds(item: Item)
    requires Proper(item) && !item.EmptyItem?
    ensures var s := PrintItem(item);
            s != "" && !IsSpace(s[0]) && !IsSpace(s[|s| - 1])
  {
    if item.IntItem? {
      DecimalReadBack(item.value);
    }
  }

  lemma {:induction false} PrintKeepsEnds(fields: seq<Field>)
    requires fields != [] && WellSeparated(fields)
    ensures var s := Print(fields);
            s != "" && !IsSpace(s[0]) && !IsSpace(s[|s| - 1])
    decreases |fields|
  {
    hide PrintItem, Proper, IsSpace;
    var first := fields[0].item;
    if !first.EmptyItem? {
      PrintedEnds(first);
    }
    if |fields| > 1 {
      PrintKeepsEnds(fields[1..]);
      if first.EmptyItem? {
        EmptyPrints();
        assert Print(fields)[0] == ',';
      }
    }
  }

  lemma EmptyPrints()
    ensures PrintItem(EmptyItem) == "" && !IsSpace(',')
  {
  }

  lemma {:induction false} IndexOfFirst(a: string, c: char, b: string)
    requires forall i :: 0 <= i < |a| ==> a[i] != c
    ensures IndexOf(a + [c] + b, c) == Some(|a|)
    decreases |a|
  {
    if a == "" {
      assert a + [c] + b == [c] + b;
    } else {
      assert (a + [c] + b)[1..] == a[1..] + [c] + b;
      IndexOfFirst(a[1..], c, b);
    }
  }

  /** A key may carry a mark in front. */
  function PrintLine(marked: bool, key: string, fields: seq<Field>): string {
    (if marked then "#" else "") + key + ['='] + Print(fields)
  }

  predicate NoEquals(s: string) {
    forall i :: 0 <= i < |s| ==> s[i] != '='
  }

  /** The keys that can be read back: without the mark they must not look like one, like a comment or like nothing. */
  predicate Readable(marked: bool, key: string) {
    NoEquals(key) &&
    (marked || (Trim(key) != "" && Trim(key)[0] != '#' && Trim(key)[0] != ';'))
  }

  lemma {:induction false} TrimCommutes(s: string)
    ensures TrimRight(TrimLeft(s)) == TrimLeft(TrimRight(s))
    decreases |s|
  {
    if s != "" && IsSpace(s[0]) {
      TrimCommutes(s[1..]);
      TrimFront(s);
    } else if s != "" {
      TrimRightKeepsFront(s);
    }
  }

  lemma {:induction false} TrimFront(s: string)
    requires s != "" && IsSpace(s[0])
    ensures TrimLeft(TrimRight(s)) == TrimLeft(TrimRight(s[1..]))
    decreases |s|
  {
    if IsSpace(s[|s| - 1]) {
      if |s| > 1 {
        TrimFront(s[..|s| - 1]);
        assert s[..|s| - 1][1..] == s[1..][..|s| - 2];
      }
    }
  }

  lemma {:induction false} TrimRightKeepsFront(s: string)
    requires s != "" && !IsSpace(s[0])
    ensures TrimRight(s) != "" && TrimRight(s)[0] == s[0]
    decreases |s|
  {
    if IsSpace(s[|s| - 1]) {
      TrimRightKeepsFront(s[..|s| - 1]);
    }
  }

  /** Spaces in front of a line go, and with them those of the key. */
  lemma {:induction false} TrimLeftOfLine(key: string, rest: string)
    requires TrimLeft(key) != ""
    ensures TrimLeft(key + rest) == TrimLeft(key) + rest
    decreases |key|
  {
    if IsSpace(key[0]) {
      assert (key + rest)[1..] == key[1..] + rest;
      TrimLeftOfLine(key[1..], rest);
    }
  }

  lemma {:induction false} TrimLeftTwice(s: string)
    ensures TrimLeft(TrimLeft(s)) == TrimLeft(s) && |TrimLeft(s)| <= |s|
    ensures NoEquals(s) ==> NoEquals(TrimLeft(s))
    decreases |s|
  {
    if s != "" && IsSpace(s[0]) {
      TrimLeftTwice(s[1..]);
    }
  }

  /** The first '=' ends the key. */
  lemma ReadAssignment(lhs: string, fields: seq<Field>, lineNumber: nat)
    requires lhs != "" && !IsSpace(lhs[0]) && lhs[0] != ';' && Trim(lhs) != "" && WellSeparated(fields)
    requires NoEquals(lhs)
    ensures Trim(lhs + ['='] + Print(fields)) == lhs + ['='] + Print(fields)
    ensures ReadLine(lhs + ['='] + Print(fields), lineNumber) ==
            Assignment(if Trim(lhs)[0] == '#' then Trim(Trim(lhs)[1..]) else Trim(lhs), Print(fields))
  {
    hide Print, Trim, IndexOf;
    var rhs := Print(fields);
    var line := lhs + ['='] + rhs;
    if fields != [] {
      PrintKeepsEnds(fields);
      TrimKeepsEnds(rhs);
    } else {
      NoItems();
    }
    TrimKeepsEnds(line);
    IndexOfFirst(lhs, '=', rhs);
    assert line[..|lhs|] == lhs && line[|lhs| + 1..] == rhs;
  }

  lemma ReadPrintedLine(marked: bool, key: string, fields: seq<Field>, lineNumber: nat)
    requires Readable(marked, key) && WellSeparated(fields)
    ensures ReadLine(PrintLine(marked, key, fields), lineNumber) == Assignment(Trim(key), Print(fields))
  {
    hide Print, Trim;
    if marked {
      MarkedKey(key);
      ReadAssignment(['#'] + key, fields, lineNumber);
      assert PrintLine(true, key, fields) == ['#'] + key + ['='] + Print(fields);
    } else {
      ReadUnmarked(key, fields, lineNumber);
      assert PrintLine(false, key, fields) == key + ['='] + Print(fields);
    }
  }

  lemma UnmarkedKey(key: string)
    requires Trim(key) != ""
    ensures var lhs := TrimLeft(key);
            lhs != "" && !IsSpace(lhs[0]) && lhs[0] == Trim(key)[0] && Trim(lhs) == Trim(key)
    ensures NoEquals(key) ==> NoEquals(TrimLeft(key))
  {
    var lhs := TrimLeft(key);
    TrimCommutes(key);
    TrimLeftTwice(key);
    TrimCommutes(lhs);
    assert Trim(key) == TrimRight(lhs) == Trim(lhs);
    FirstIsNoSpace(key);
    TrimRightKeepsFront(lhs);
  }

  lemma {:induction false} FirstIsNoSpace(s: string)
    ensures TrimLeft(s) != "" ==> !IsSpace(TrimLeft(s)[0])
    decreases |s|
  {
    if s != "" && IsSpace(s[0]) {
      FirstIsNoSpace(s[1..]);
    }
  }

  lemma ReadUnmarked(key: string, fields: seq<Field>, lineNumber: nat)
    requires Readable(false, key) && WellSeparated(fields)
    ensures ReadLine(key + ['='] + Print(fields), lineNumber) == Assignment(Trim(key), Print(fields))
  {
    hide Print, IndexOf, TrimLeft, TrimRight;
    var (lhs, behind) := (TrimLeft(key), ['='] + Print(fields));
    UnmarkedKey(key);
    ReadAssignment(lhs, fields, lineNumber);
    TrimLeftOfLine(key, behind);
    assert key + behind == key + ['='] + Print(fields) && lhs + behind == lhs + ['='] + Print(fields);
    TrimLeftTwice(key + behind);
    TrimCommutes(key + behind);
    TrimCommutes(lhs + behind);
    assert Trim(key + behind) == Trim(lhs + behind);
    ReadLineOfTrimmed(key + behind, lhs + behind, lineNumber);
  }

  lemma ReadLineOfTrimmed(a: string, b: string, lineNumber: nat)
    requires Trim(a) == Trim(b)
    ensures ReadLine(a, lineNumber) == ReadLine(b, lineNumber)
  {
  }

  lemma NoItems()
    ensures Print([]) == "" && Trim("") == ""
  {
  }

  /** Parsing a printed line adds exactly one entry: the key, trimmed, and the values, the strings numbered from the
      next free number on. This holds for every key that can be read back and every list of values, whatever separates
      them. */
  lemma PrintedLineParses(marked: bool, key: string, fields: seq<Field>, lineNumber: nat, id: int)
    requires Readable(marked, key) && WellSeparated(fields)
    ensures ReadLine(PrintLine(marked, key, fields), lineNumber) == Assignment(Trim(key), Print(fields))
    ensures Scan(Print(fields), "", Progress([], true, id)) == Values(Numbered(fields, id), id + StringCount(fields))
  {
    hide Scan, Print, Trim, ReadLine, PrintLine;
    ReadPrintedLine(marked, key, fields, lineNumber);
    ScanPrinted(fields, "", Progress([], true, id));
    assert Print(fields) + "" == Print(fields);
    assert [] + Numbered(fields, id) == Numbered(fields, id);
  }

  /** The same through the class: what an assignment line leaves behind. */
  method LoadPrintedLine(g: Gameexe, marked: bool, key: string, fields: seq<Field>, lineNumber: nat)
    requires g.Valid() && Readable(marked, key) && WellSeparated(fields)
    modifies g
    ensures g.Valid() && g.nextStringId == old(g.nextStringId) + StringCount(fields)
    ensures Lookup(g.entries, Trim(key)) == Lookup(old(g.entries), Trim(key)) + [Numbered(fields, old(g.nextStringId))]
    ensures forall other :: other != Trim(key) ==> Lookup(g.entries, other) == Lookup(old(g.entries), other)
    ensures |g.entries| == old(|g.entries|) + 1
  {
    hide Scan, Print, Trim, ReadLine, PrintLine, Lookup;
    PrintedLineParses(marked, key, fields, lineNumber, g.nextStringId);
    var e := Entry(Trim(key), Numbered(fields, g.nextStringId));
    forall other
      ensures Lookup(Emplace(g.entries, e), other) ==
              if other == e.key then Lookup(g.entries, other) + [e.values] else Lookup(g.entries, other)
    {
      EmplaceAddsLast(g.entries, e, other);
    }
    var error := g.ParseLine(PrintLine(marked, key, fields), lineNumber);
    assert error == None;
  }
}
