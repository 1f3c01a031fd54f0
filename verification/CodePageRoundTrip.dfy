/** Encoding a string and decoding the result: which strings come back. */
module CodePageRoundTrip {
  import opened Bytes
  import opened Extents
  import opened CodePages
  import opened CodePageStrings

  predicate NoZeros(s: seq<byte>) {
    forall i :: 0 <= i < |s| ==> s[i] != 0
  }

  predicate Supported(cp: CodePage) {
    cp.Cp949? ==> IsExtrasTable(cp.extras)
  }

  /** Is the first character written without a zero byte? Two pairs of Cp949 are not. */
  predicate CharCovered(cp: CodePage, src: seq<byte>) {
    cp.Cp949? && At(src, 0) >= 0x80 ==> Covered949(At(src, 0), At(src, 1))
  }

  predicate Covered(cp: CodePage, src: seq<byte>)
    decreases |src|
  {
    src == [] || (CharCovered(cp, src) && Covered(cp, Drop(src, SourceWidth(cp, src))))
  }

  /** A complete character that its code page keeps. */
  predicate CharFaithful(cp: CodePage, src: seq<byte>) {
    SourceWidth(cp, src) == 2 ==>
      |src| >= 2 &&
      (cp.Cp936? ==> Faithful936(src[0], src[1])) &&
      (cp.Cp949? ==> Faithful949(cp.extras, src[0], src[1]))
  }

  predicate Faithful(cp: CodePage, src: seq<byte>)
    decreases |src|
  {
    src == [] || (CharFaithful(cp, src) && Faithful(cp, Drop(src, SourceWidth(cp, src))))
  }

  // ------------------------------------------------------------------------------------------ one character

  /** A character whose first byte, as written, is no lead byte. */
  predicate Stray(cp: CodePage, src: seq<byte>) {
    SourceWidth(cp, src) == 2 &&
    (if cp.Cp936? then !InGbk(At(src, 0), At(src, 1)) else cp.Cp949? && BeyondLeads(At(src, 0), At(src, 1)))
  }

  /** What the decoder makes of the bytes written for one character. */
  lemma CharRoundTrip(cp: CodePage, src: seq<byte>, rest: seq<byte>)
    requires Supported(cp) && src != [] && NoZeros(src) && CharCovered(cp, src)
    ensures var c := EncodeChar(cp, src);
            NoZeros(c) &&
            if SourceWidth(cp, src) == 1 then
              JisWidth(c + rest) == |c| && DecodeChar(cp, c + rest) == [src[0]]
            else if Stray(cp, src) then
              JisWidth(c + rest) == 1 < |c| && !CharFaithful(cp, src) &&
              (cp.Cp936? ==> DecodeChar(cp, c + rest) == [0x5f]) && (cp.Cp949? ==> |DecodeChar(cp, c + rest)| == 2)
            else
              JisWidth(c + rest) == |c| == 2 == |DecodeChar(cp, c + rest)| &&
              (DecodeChar(cp, c + rest) == [src[0], At(src, 1)] && At(src, 1) != 0 <==> CharFaithful(cp, src))
  {
    match cp
    case Cp1252 => SingleRoundTrip1252(src, rest);
    case Cp936 => if src[0] >= 0x80 { CharRoundTrip936(src, rest); }
    case Cp949(extras) => if src[0] >= 0x80 { CharRoundTrip949(extras, src, rest); }
  }

  lemma SingleRoundTrip1252(src: seq<byte>, rest: seq<byte>)
    requires src != [] && NoZeros(src)
    ensures var c := EncodeChar(Cp1252, src);
            NoZeros(c) && JisWidth(c + rest) == |c| && DecodeChar(Cp1252, c + rest) == [src[0]]
  {
    hide JisEncode1252, JisDecode1252;
    Byte1252(src[0]);
    var c := EncodeChar(Cp1252, src);
    assert At(c + rest, 0) == c[0];
    assert |c| == 2 ==> At(c + rest, 1) == c[1];
  }

  lemma CharRoundTrip936(src: seq<byte>, rest: seq<byte>)
    requires src != [] && NoZeros(src) && src[0] >= 0x80
    ensures var c := EncodePair936(src[0], At(src, 1));
            NoZeros(c) &&
            if !InGbk(src[0], At(src, 1)) then JisWidth(c + rest) == 1 && DecodeChar(Cp936, c + rest) == [0x5f]
            else
              JisWidth(c + rest) == 2 == |DecodeChar(Cp936, c + rest)| &&
              (DecodeChar(Cp936, c + rest) == [src[0], At(src, 1)] && At(src, 1) != 0 <==> CharFaithful(Cp936, src))
  {
    hide EncodePair936, JisDecode936, InGbk, Faithful936;
    var (lead, trail) := (src[0], At(src, 1));
    var c := EncodePair936(lead, trail);
    assert At(c + rest, 0) == c[0] && At(c + rest, 1) == c[1];
    Pair936(lead, trail);
    TrailInGbk(lead, trail);
    if InGbk(lead, trail) {
      CodeBytesPair(JisDecode936(Code(c)), lead, trail);
    } else {
      assert JisDecode936(0x5f) == 0x5f by { LowStays936(0x5f); }
    }
  }

  lemma TrailInGbk(lead: byte, trail: byte)
    ensures InGbk(lead, trail) ==> trail != 0
    ensures Faithful936(lead, trail) ==> InGbk(lead, trail)
  {
  }

  lemma LowStays936(ch: uint16)
    requires ch < 0x80
    ensures JisDecode936(ch) == ch
  {
  }

  lemma CharRoundTrip949(extras: seq<uint16>, src: seq<byte>, rest: seq<byte>)
    requires src != [] && NoZeros(src) && src[0] >= 0x80
    requires IsExtrasTable(extras) && Covered949(src[0], At(src, 1))
    ensures var c := EncodePair949(extras, src[0], At(src, 1));
            NoZeros(c) && |DecodeChar(Cp949(extras), c + rest)| == 2 &&
            if BeyondLeads(src[0], At(src, 1)) then JisWidth(c + rest) == 1 && !CharFaithful(Cp949(extras), src)
            else
              JisWidth(c + rest) == 2 &&
              (DecodeChar(Cp949(extras), c + rest) == [src[0], At(src, 1)] && At(src, 1) != 0
               <==> CharFaithful(Cp949(extras), src))
  {
    hide EncodePair949, JisDecode949, IsExtrasTable;
    var (lead, trail) := (src[0], At(src, 1));
    var c := EncodePair949(extras, lead, trail);
    assert At(c + rest, 0) == c[0] && At(c + rest, 1) == c[1];
    CoveredPair949(extras, lead, trail);
    if BeyondLeads(lead, trail) {
      StrayByte949(extras, c[0]);
    } else {
      CodeBytesPair(JisDecode949(extras, Code(c)), lead, trail);
      NoZeroTrailInTable(extras, lead);
    }
  }

  lemma CodeBytesPair(ch: uint16, lead: byte, trail: byte)
    requires ch > 0xff
    ensures |CodeBytes(ch)| == 2 && (CodeBytes(ch) == [lead, trail] <==> ch == Join(lead, trail))
  {
    JoinSplit(lead, trail);
    assert ch == Join(ch / 0x100, ch % 0x100);
  }

  lemma NoZeroTrailInTable(extras: seq<uint16>, lead: byte)
    requires IsExtrasTable(extras)
    ensures lead * 0x100 !in extras
  {
    forall i | 0 <= i < |extras| ensures extras[i] != lead * 0x100 {
      assert IsExtraCode(extras[i]);
    }
  }

  // ------------------------------------------------------------------------------------------ strings

  lemma {:induction false} EncodedNoZeros(cp: CodePage, src: seq<byte>, room: int)
    requires Supported(cp) && NoZeros(src) && Covered(cp, src)
    ensures NoZeros(Encoded(cp, src, room))
    decreases |src|
  {
    hide EncodeChar, DecodeChar, Supported, CharCovered, CharFaithful, NoZeros, Stray, Encoded;
    EncodedUnfold(cp, src, room);
    if src == [] || room <= 0 {
      NothingIsZero();
    } else {
      var c := EncodeChar(cp, src);
      var others := Drop(src, SourceWidth(cp, src));
      CharRoundTrip(cp, src, []);
      NoZerosBehind(src, SourceWidth(cp, src));
      EncodedNoZeros(cp, others, room - |c|);
      NoZerosAppend(c, Encoded(cp, others, room - |c|));
    }
  }

  lemma EncodedUnfold(cp: CodePage, src: seq<byte>, room: int)
    ensures Encoded(cp, src, room) ==
            if src == [] || room <= 0 then []
            else EncodeChar(cp, src) + Encoded(cp, Drop(src, SourceWidth(cp, src)), room - |EncodeChar(cp, src)|)
  {
  }

  lemma NothingIsZero()
    ensures NoZeros([])
  {
  }

  /** Given room, a zero byte is written if and only if one of the two pairs of Cp949 is in the string. */
  lemma {:induction false} ZeroIffUncovered(cp: CodePage, src: seq<byte>, room: int)
    requires Supported(cp) && NoZeros(src) && room >= 2 * |src|
    ensures NoZeros(Encoded(cp, src, room)) <==> Covered(cp, src)
    decreases |src|
  {
    hide EncodeChar, DecodeChar, Supported, CharCovered, CharFaithful, NoZeros, Stray, Encoded;
    EncodedUnfold(cp, src, room);
    if src == [] {
      NothingIsZero();
    } else {
      var c := EncodeChar(cp, src);
      var others := Drop(src, SourceWidth(cp, src));
      NoZerosAppend(c, Encoded(cp, others, room - |c|));
      if CharCovered(cp, src) {
        CharRoundTrip(cp, src, []);
        NoZerosBehind(src, SourceWidth(cp, src));
        ZeroIffUncovered(cp, others, room - |c|);
      } else {
        CharUncovered(cp, src);
      }
    }
  }

  lemma CharUncovered(cp: CodePage, src: seq<byte>)
    requires !CharCovered(cp, src)
    ensures !NoZeros(EncodeChar(cp, src))
  {
    UncoveredWritesZero(cp.extras, At(src, 0), At(src, 1));
    assert EncodeChar(cp, src)[1] == 0;
  }

  lemma NoZerosAppend(a: seq<byte>, b: seq<byte>)
    ensures NoZeros(a + b) <==> NoZeros(a) && NoZeros(b)
  {
    if NoZeros(a + b) {
      assert forall i :: 0 <= i < |a| ==> a[i] == (a + b)[i];
      assert forall i :: 0 <= i < |b| ==> b[i] == (a + b)[|a| + i];
    }
  }

  /** What a zero-terminated string holds of the text that was written. */
  function Stored(text: seq<byte>): (r: seq<byte>)
    ensures |r| <= |text| && NoZeros(r)
  {
    if text == [] || text[0] == 0 then [] else [text[0]] + Stored(text[1..])
  }

  lemma {:induction false} StoredAppend(a: seq<byte>, b: seq<byte>)
    requires NoZeros(a)
    ensures Stored(a + b) == a + Stored(b)
    decreases |a|
  {
    if a == [] {
      assert a + b == b && a + Stored(b) == Stored(b);
    } else {
      assert (a + b)[1..] == a[1..] + b;
      assert a[0] != 0;
      StoredAppend(a[1..], b);
      assert [a[0]] + (a[1..] + Stored(b)) == a + Stored(b);
    }
  }

  /** The strings whose characters are all faithful, up to a final 8140 of Cp949: that is written as a lead byte and a
      zero byte, and the decoder takes the terminator for its trail. */
  predicate ComesBack(cp: CodePage, src: seq<byte>)
    decreases |src|
  {
    src == [] || (cp.Cp949? && src == [0x81, 0x40]) ||
    (CharFaithful(cp, src) && ComesBack(cp, Drop(src, SourceWidth(cp, src))))
  }

  /** For every string: decoding what is stored of its encoding gives the string back if and only if every character of
      it is faithful, up to a final 8140 of Cp949. */
  lemma {:induction false} StringRoundTrip(cp: CodePage, src: seq<byte>, room: int, room': int)
    requires Supported(cp) && NoZeros(src)
    requires room >= 2 * |src| && room' >= 2 * |Encoded(cp, src, room)|
    ensures Decoded(cp, Stored(Encoded(cp, src, room)), room') == src <==> ComesBack(cp, src)
    decreases |src|
  {
    hide EncodeChar, DecodeChar, Supported, Encoded, Decoded, CharCovered, CharFaithful, Drop, NoZeros, Stray, Stored;
    EncodedUnfold(cp, src, room);
    var text := Stored(Encoded(cp, src, room));
    DecodedUnfold(cp, text, room');
    if src == [] {
      StoredNothing();
    } else if !CharCovered(cp, src) {
      UncoveredRoundTrip(cp, src, Encoded(cp, Drop(src, SourceWidth(cp, src)), room - |EncodeChar(cp, src)|), room');
    } else {
      var (w, c) := (SourceWidth(cp, src), EncodeChar(cp, src));
      var (others, rest) := (Drop(src, w), Encoded(cp, Drop(src, w), room - |c|));
      CharRoundTrip(cp, src, Stored(rest));
      StoredAppend(c, rest);
      NoZerosBehind(src, w);
      CoveredIsNot8140(cp, src);
      if JisWidth(text) == |c| {
        var d := DecodeChar(cp, text);
        DropFront(c, Stored(rest));
        StringRoundTrip(cp, others, room - |c|, room' - |d|);
        CharThenRest(cp, src, Stored(rest), d, Decoded(cp, Stored(rest), room' - |d|));
      } else if cp.Cp949? {
        StrayRoundTrip(cp, src, rest, room - |c|, room');
      }
    }
  }

  lemma DecodedUnfold(cp: CodePage, text: seq<byte>, room: int)
    ensures Decoded(cp, text, room) ==
            if text == [] || room <= 0 then []
            else DecodeChar(cp, text) + Decoded(cp, Drop(text, JisWidth(text)), room - |DecodeChar(cp, text)|)
  {
  }

  lemma DropFront(a: seq<byte>, b: seq<byte>)
    ensures Drop(a + b, |a|) == b
  {
  }

  lemma StoredNothing()
    ensures Stored([]) == []
  {
  }

  lemma CoveredIsNot8140(cp: CodePage, src: seq<byte>)
    requires CharCovered(cp, src)
    ensures cp.Cp949? ==> src != [0x81, 0x40]
  {
  }

  lemma UncoveredRoundTrip(cp: CodePage, src: seq<byte>, rest: seq<byte>, room: int)
    requires Supported(cp) && src != [] && !CharCovered(cp, src) && room >= 2
    ensures Stored(EncodeChar(cp, src) + rest) == [0x81]
    ensures Decoded(cp, [0x81], room) == [0x81, 0x40] && !CharFaithful(cp, src)
    ensures src == [0x81, 0x40] <==> ComesBack(cp, src)
  {
    hide EncodePair949, JisDecode949, Encoded, Decoded, DecodeChar, Stored;
    UncoveredWritesZero(cp.extras, At(src, 0), At(src, 1));
    StoredLead(rest);
    LoneLead(cp);
    DecodedUnfold(cp, [0x81], room);
    DecodedUnfold(cp, [], room - 2);
    assert Drop([0x81], 2) == [];
  }

  lemma StoredLead(rest: seq<byte>)
    ensures Stored([0x81, 0] + rest) == [0x81]
  {
    var text := [0x81, 0] + rest;
    assert text[0] == 0x81 && text[1..][0] == 0;
    assert Stored(text[1..]) == [];
  }

  /** The lead byte takes the terminator along. */
  lemma LoneLead(cp: CodePage)
    requires cp.Cp949?
    ensures JisWidth([0x81]) == 2 && DecodeChar(cp, [0x81]) == [0x81, 0x40]
  {
    hide JisDecode949, UnpackedHangul;
    PlainOrSpecial949(cp.extras, 0x81, 0);
    UnpackMinusOne(cp.extras);
    assert Join(0x81, 0) == 0x8100;
    assert JisDecode949(cp.extras, 0x8100) == 0x8140;
    assert JisCode([0x81]) == 0x8100;
    assert JisDecode(cp, 0x8100) == 0x8140;
  }

  lemma {:induction false} CoveredComesBack(cp: CodePage, src: seq<byte>)
    requires Covered(cp, src)
    ensures ComesBack(cp, src) <==> Faithful(cp, src)
    decreases |src|
  {
    hide CharCovered, CharFaithful;
    if src != [] {
      CoveredIsNot8140(cp, src);
      CoveredComesBack(cp, Drop(src, SourceWidth(cp, src)));
    }
  }

  lemma NothingCut(text: seq<byte>)
    requires NoZeros(text)
    ensures Stored(text) == text
  {
    StoredAppend(text, []);
    assert text + [] == text && text + Stored([]) == text;
  }

  /** Where no zero byte is written, nothing is cut off. */
  lemma CoveredRoundTrip(cp: CodePage, src: seq<byte>, room: int, room': int)
    requires Supported(cp) && NoZeros(src) && Covered(cp, src)
    requires room >= 2 * |src| && room' >= 2 * |Encoded(cp, src, room)|
    ensures Decoded(cp, Encoded(cp, src, room), room') == src <==> Faithful(cp, src)
  {
    hide Encoded, Decoded, Supported;
    StringRoundTrip(cp, src, room, room');
    EncodedNoZeros(cp, src, room);
    NothingCut(Encoded(cp, src, room));
    CoveredComesBack(cp, src);
  }

  lemma NoZerosBehind(src: seq<byte>, w: nat)
    requires NoZeros(src)
    ensures NoZeros(Drop(src, w))
  {
  }

  // A stray byte decodes as two, and nothing makes up for that: from then on the decoder lags behind, and has some of
  // the text left when all of the string should be there.

  /** How much is stored of a string. */
  function StoredLength(cp: CodePage, src: seq<byte>): nat
    decreases |src|
  {
    if src == [] then 0
    else if !CharCovered(cp, src) then 1
    else |EncodeChar(cp, src)| + StoredLength(cp, Drop(src, SourceWidth(cp, src)))
  }

  lemma {:induction false} StoredLengthIs(cp: CodePage, src: seq<byte>, room: int)
    requires Supported(cp) && NoZeros(src) && room >= 2 * |src|
    ensures |Stored(Encoded(cp, src, room))| == StoredLength(cp, src)
    decreases |src|
  {
    hide EncodeChar, DecodeChar, Supported, CharCovered, CharFaithful, NoZeros, Stray, Encoded, Stored;
    EncodedUnfold(cp, src, room);
    if src == [] {
      StoredNothing();
    } else {
      var (w, c) := (SourceWidth(cp, src), EncodeChar(cp, src));
      var rest := Encoded(cp, Drop(src, w), room - |c|);
      if CharCovered(cp, src) {
        CharRoundTrip(cp, src, []);
        StoredAppend(c, rest);
        NoZerosBehind(src, w);
        StoredLengthIs(cp, Drop(src, w), room - |c|);
      } else {
        UncoveredRoundTrip(cp, src, rest, 2);
      }
    }
  }

  /** What the decoder makes of the next bytes of a text, and when it is not one of the two pairs. */
  lemma Token949(cp: CodePage, text: seq<byte>)
    requires cp.Cp949? && Supported(cp) && text != [] && NoZeros(text)
    ensures var d := DecodeChar(cp, text);
            if text[0] < 0x80 then d == [text[0]] && JisWidth(text) == 1
            else |d| == 2 && d[0] >= 0x81 && (|text| >= 2 ==> d != [0x81, 0x40])
  {
    hide JisDecode949, IsExtrasTable;
    if text[0] < 0x80 {
      assert JisDecode949(cp.extras, text[0]) == text[0] by { AsciiStays(cp.extras, text[0]); }
    } else if IsLeadByte(text[0]) {
      PairStaysPair949(cp.extras, text[0], At(text, 1));
    } else {
      StrayByte949(cp.extras, text[0]);
    }
  }

  lemma AsciiStays(extras: seq<uint16>, b: byte)
    requires b < 0x80
    ensures JisDecode949(extras, b) == b
  {
  }

  /** A text that is longer than what is stored of a string does not decode as the string. */
  lemma {:induction false} TooLongDiffers(cp: CodePage, text: seq<byte>, src: seq<byte>, room: int)
    requires cp.Cp949? && Supported(cp) && NoZeros(text) && NoZeros(src)
    requires |text| > StoredLength(cp, src) && room >= 2 * |text|
    ensures Decoded(cp, text, room) != src
    decreases |src|
  {
    hide DecodeChar, Supported, Decoded, Covered949, NoZeros;
    DecodedUnfold(cp, text, room);
    Token949(cp, text);
    var (d, w) := (DecodeChar(cp, text), JisWidth(text));
    if src != [] && Decoded(cp, text, room) == src {
      assert src[..|d|] == d;
      var others := Drop(src, SourceWidth(cp, src));
      assert |d| == SourceWidth(cp, src) && Decoded(cp, Drop(text, w), room - |d|) == others;
      NotATokenCovered(cp, src, d);
      NoZerosBehind(text, w);
      NoZerosBehind(src, |d|);
      EncodedWidth(cp, src);
      TooLongDiffers(cp, Drop(text, w), others, room - |d|);
    }
  }

  lemma NotATokenCovered(cp: CodePage, src: seq<byte>, d: seq<byte>)
    requires cp.Cp949? && d <= src && src != [] && (src[0] >= 0x80 ==> |d| == 2 && d[0] >= 0x81)
    ensures CharCovered(cp, src) || d == [0x81, 0x40]
  {
  }

  lemma EncodedWidth(cp: CodePage, src: seq<byte>)
    requires cp.Cp949?
    ensures |EncodeChar(cp, src)| == SourceWidth(cp, src)
  {
  }

  lemma StrayRoundTrip(cp: CodePage, src: seq<byte>, rest: seq<byte>, room: int, room': int)
    requires cp.Cp949? && Supported(cp) && src != [] && NoZeros(src) && CharCovered(cp, src) && Stray(cp, src)
    requires room >= 2 * |Drop(src, 2)| && rest == Encoded(cp, Drop(src, 2), room)
    requires room' >= 2 * |EncodeChar(cp, src) + rest|
    ensures Decoded(cp, EncodeChar(cp, src) + Stored(rest), room') != src && !CharFaithful(cp, src)
  {
    hide EncodeChar, DecodeChar, Supported, Encoded, Decoded, CharCovered, CharFaithful, NoZeros, Stored, Covered949;
    var c := EncodeChar(cp, src);
    var text := c + Stored(rest);
    CharRoundTrip(cp, src, Stored(rest));
    EncodedWidth(cp, src);
    DecodedUnfold(cp, text, room');
    StoredLengthIs(cp, Drop(src, 2), room) by { NoZerosBehind(src, 2); }
    NoZerosBehind(src, 2);
    NoZerosAppend(c, Stored(rest));
    NoZerosBehind(text, 1);
    TooLongDiffers(cp, Drop(text, 1), Drop(src, 2), room' - 2);
    var d := DecodeChar(cp, text);
    if d + Decoded(cp, Drop(text, 1), room' - 2) == src {
      assert src[2..] == Decoded(cp, Drop(text, 1), room' - 2);
    }
  }

  /** One character and the rest: both have to come back. */
  lemma CharThenRest(cp: CodePage, src: seq<byte>, rest: seq<byte>, d: seq<byte>, decoded: seq<byte>)
    requires Supported(cp) && src != [] && NoZeros(src) && CharCovered(cp, src)
    requires d == DecodeChar(cp, EncodeChar(cp, src) + rest)
    requires JisWidth(EncodeChar(cp, src) + rest) == |EncodeChar(cp, src)|
    ensures d + decoded == src <==> CharFaithful(cp, src) && decoded == Drop(src, SourceWidth(cp, src))
  {
    hide EncodeChar, DecodeChar, Supported, CharCovered, Faithful936, Faithful949;
    CharRoundTrip(cp, src, rest);
    var w := SourceWidth(cp, src);
    if w <= |src| {
      assert |d| == w;
      FirstThenRest(src, w, d, decoded);
      assert src[..w] == if w == 1 then [src[0]] else [src[0], src[1]];
    }
  }

  lemma FirstThenRest(src: seq<byte>, w: nat, d: seq<byte>, decoded: seq<byte>)
    requires w <= |src| && |d| == w
    ensures d + decoded == src <==> d == src[..w] && decoded == Drop(src, w)
  {
    assert src == src[..w] + src[w..];
    if d + decoded == src {
      assert d == (d + decoded)[..w];
      assert decoded == (d + decoded)[w..];
    }
  }

  // ------------------------------------------------------------------------------------------ Cp1252

  /** The encoder of Cp1252 counts characters; where all of them fit, it writes what the others would. */
  lemma {:induction false} Encoded1252IsEncoded(src: seq<byte>, chars: nat, room: int)
    requires chars >= |src| && room >= 2 * |src|
    ensures Encoded1252(src, chars) == Encoded(Cp1252, src, room)
    decreases |src|
  {
    if src != [] {
      assert Drop(src, 1) == src[1..];
      Encoded1252IsEncoded(src[1..], chars - 1, room - |EncodeChar(Cp1252, src)|);
    }
  }

  lemma {:induction false} EverythingIsFaithful1252(src: seq<byte>)
    ensures Covered(Cp1252, src) && Faithful(Cp1252, src)
    decreases |src|
  {
    if src != [] {
      EverythingIsFaithful1252(Drop(src, 1));
    }
  }

  /** Every string comes back from Cp1252. */
  lemma {:induction false} StringRoundTrip1252(src: seq<byte>, chars: nat, room': int)
    requires NoZeros(src) && chars >= |src| && room' >= 2 * |Encoded1252(src, chars)|
    ensures Decoded(Cp1252, Encoded1252(src, chars), room') == src
  {
    hide Encoded, Decoded, Encoded1252;
    Encoded1252IsEncoded(src, chars, 2 * |src|);
    EverythingIsFaithful1252(src);
    CoveredRoundTrip(Cp1252, src, 2 * |src|, room');
  }

  // ------------------------------------------------------------------------------------------ values

  lemma Decoded936()
    ensures JisDecode936(0xa1a1) == 53729
  {
    hide Pack;
    PackBytes(0xd1, 0xe1);
    assert UnpackedGbk(0xa1, 0xa1) == Pack(0xd1, 0xe1);
  }

  lemma Encoded936()
    ensures EncodePair936(0xe6, 0xb5) == [0x8b, 0xcb]
  {
    assert Displaced936(0xe6b5) == 0xe6b5 && InGbk(0xe6, 0xb5);
  }

  /** The first Hangul syllable of KS X 1001, and an extended one. */
  lemma Encoded949(extras: seq<uint16>)
    ensures EncodePair949(extras, 0xb0, 0xa1) == [0x9c, 0x88] && EncodePair949(extras, 0x81, 0x42) == [0x81, 0x02]
  {
    hide PackedExtra;
    assert Displaced949(0xb0a1) == 0xb0a1 && Displaced949(0x8142) == 0x8142;
  }

  lemma NotInGbk()
    ensures EncodePair936(0x8b, 0xe8) == EncodePair936(0xaf, 0x95) == [0x5f, 0x5f]
  {
    hide PackedGbk;
  }

  lemma PairEncodes(src: seq<byte>, rest: seq<byte>, room: int)
    requires |src| == 2 && src[0] >= 0x80 && room > 0
    ensures var e := EncodePair936(src[0], src[1]);
            Encoded(Cp936, src + rest, room) == e + Encoded(Cp936, rest, room - 2)
  {
    hide EncodePair936, Encoded;
    EncodedUnfold(Cp936, src + rest, room);
    assert Drop(src + rest, 2) == rest;
    assert At(src + rest, 0) == src[0] && At(src + rest, 1) == src[1];
  }

  /** Six bytes of which only the first two are a pair of Cp936. */
  lemma SixBytes()
    ensures Encoded(Cp936, [0xe6, 0xb5, 0x8b, 0xe8, 0xaf, 0x95], 10) == [0x8b, 0xcb, 0x5f, 0x5f, 0x5f, 0x5f]
  {
    hide EncodePair936, Encoded, EncodeChar;
    var (a, b, c) := ([0xe6, 0xb5], [0x8b, 0xe8], [0xaf, 0x95]);
    Encoded936();
    NotInGbk();
    assert [0xe6, 0xb5, 0x8b, 0xe8, 0xaf, 0x95] == a + (b + (c + []));
    PairEncodes(a, b + (c + []), 10);
    PairEncodes(b, c + [], 8);
    PairEncodes(c, [], 6);
    EncodedUnfold(Cp936, [], 4);
  }

  /** The five pairs that Cp936 does not give back, and what they come back as. */
  lemma Exchanged936()
    ensures JisDecode936(Code(EncodePair936(0xa1, 0xba))) == 0xdda2
    ensures JisDecode936(Code(EncodePair936(0xbc, 0xa2))) == 0xa1ba
    ensures JisDecode936(Code(EncodePair936(0xaa, 0xa2))) == 0xbba2
    ensures JisDecode936(Code(EncodePair936(0xaa, 0xa3))) == 0xdda2
    ensures JisDecode936(Code(EncodePair936(0xaa, 0xa4))) == 0xb5a2
  {
    hide PackedGbk, JisDecode936;
    DecodePacked936(0xdd, 0xa2);
    DecodePacked936(0xbc, 0xa2);
    DecodePacked936(0xaa, 0xa2);
    DecodePacked936(0xaa, 0xa3);
    DecodePacked936(0xaa, 0xa4);
  }

  /** What is written for a code behind lead byte 81, whatever it has been displaced from. */
  lemma FirstRow(extras: seq<uint16>, lead: byte, trail: byte, t: byte, i: nat)
    requires Displaced949(lead * 0x100 + trail) == 0x8100 + t && i == TrailIndex(t) < 255
    ensures EncodePair949(extras, lead, trail) == [0x81, i + 1]
  {
    hide PackedHangul, TrailIndex, Displaced949;
    PackedInFirstRow(extras, t, i);
    assert (0x8100 + t) / 0x100 == 0x81 && (0x8100 + t) % 0x100 == t;
  }

  /** Of the six pairs whose codes Cp949 exchanges three are written as extended syllables. */
  lemma Exchanged949(extras: seq<uint16>)
    ensures EncodePair949(extras, 0xa1, 0xb8) == [0x81, 0x2f]
    ensures EncodePair949(extras, 0xa1, 0xba) == [0x81, 0x31]
    ensures EncodePair949(extras, 0xa3, 0xa8) == [0x81, 0x23]
  {
    hide EncodePair949;
    FirstRow(extras, 0xa1, 0xb8, 0x75, 46);
    FirstRow(extras, 0xa1, 0xba, 0x77, 48);
    FirstRow(extras, 0xa3, 0xa8, 0x69, 34);
  }

  /** A trail byte between two runs counts as one of the run behind it. */
  lemma BetweenRuns(extras: seq<uint16>)
    ensures EncodePair949(extras, 0x81, 0x5b) == [0x81, 0x15] && EncodePair949(extras, 0x81, 0x7b) == [0x81, 0x2f]
  {
    hide EncodePair949;
    FirstRow(extras, 0x81, 0x5b, 0x5b, 20);
    FirstRow(extras, 0x81, 0x7b, 0x7b, 46);
  }

  /** The other three are written as other codes that only the table can encode. */
  lemma ExchangedForTable949(extras: seq<uint16>)
    ensures EncodePair949(extras, 0x81, 0xc1) == EncodePair949(extras, 0xea, 0x40)
    ensures EncodePair949(extras, 0x81, 0xc3) == EncodePair949(extras, 0xea, 0x41)
    ensures EncodePair949(extras, 0x81, 0xb5) == EncodePair949(extras, 0xea, 0x42)
  {
    hide PackedHangul;
  }

  /** What Cp936 writes for a pair in range has the shape of a Shift-JIS character: no trail byte is 7f. */
  lemma ShapeOf936(lead: byte, trail: byte)
    requires 0xa1 <= lead <= 0xf7 && 0xa1 <= trail <= 0xfe
    ensures var e := EncodePair936(lead, trail);
            (0x81 <= e[0] <= 0x9f || 0xe0 <= e[0] <= 0xef) && (0x40 <= e[1] <= 0x7e || 0x80 <= e[1] <= 0xfc)
  {
    JoinSplit(lead, trail);
  }
}
