/** JisEncodeString and JisDecodeString: whole strings, in place, and their round trip. A `src` holds the characters in
    front of the terminating zero. */
module CodePageStrings {
  import opened Bytes
  import opened Sequences
  import opened Extents
  import opened CodePages

  // ------------------------------------------------------------------------------------------ one character

  /** How many source bytes one character takes. */
  function SourceWidth(cp: CodePage, src: seq<byte>): nat {
    if cp == Cp1252 || At(src, 0) < 0x80 then 1 else 2
  }

  function EncodeChar(cp: CodePage, src: seq<byte>): (r: seq<byte>)
    ensures 1 <= |r| <= 2
  {
    match cp
    case Cp1252 => CodeBytes(JisEncode1252(At(src, 0)))
    case Cp936 => if At(src, 0) < 0x80 then [At(src, 0)] else EncodePair936(At(src, 0), At(src, 1))
    case Cp949(extras) => if At(src, 0) < 0x80 then [At(src, 0)] else EncodePair949(extras, At(src, 0), At(src, 1))
  }

  /** A lead byte takes the byte behind it along, even if that is the terminator. */
  function JisWidth(src: seq<byte>): nat {
    if IsLeadByte(At(src, 0)) then 2 else 1
  }

  function JisCode(src: seq<byte>): uint16 {
    if IsLeadByte(At(src, 0)) then At(src, 0) * 0x100 + At(src, 1) else At(src, 0)
  }

  function DecodeChar(cp: CodePage, src: seq<byte>): (r: seq<byte>)
    ensures 1 <= |r| <= 2
  {
    CodeBytes(JisDecode(cp, JisCode(src)))
  }

  // ------------------------------------------------------------------------------------------ strings

  /** Characters are written as long as `room` bytes are not used up; the last one may take one byte more. */
  function Encoded(cp: CodePage, src: seq<byte>, room: int): (r: seq<byte>)
    ensures |r| <= if room < 0 then 0 else room + 1
    decreases |src|
  {
    if src == [] || room <= 0 then []
    else
      var c := EncodeChar(cp, src);
      c + Encoded(cp, Drop(src, SourceWidth(cp, src)), room - |c|)
  }

  function Decoded(cp: CodePage, src: seq<byte>, room: int): (r: seq<byte>)
    ensures |r| <= if room < 0 then 0 else room + 1
    decreases |src|
  {
    if src == [] || room <= 0 then []
    else
      var c := DecodeChar(cp, src);
      c + Decoded(cp, Drop(src, JisWidth(src)), room - |c|)
  }

  lemma EncodedStep(cp: CodePage, src: seq<byte>, i: nat, room: int)
    ensures i >= |src| || room <= 0 ==> Encoded(cp, Drop(src, i), room) == []
    ensures i < |src| && room > 0 ==>
              var here := Drop(src, i);
              Encoded(cp, here, room) ==
              EncodeChar(cp, here) + Encoded(cp, Drop(src, i + SourceWidth(cp, here)), room - |EncodeChar(cp, here)|)
  {
    hide EncodeChar;
    DropDrop(src, i, SourceWidth(cp, Drop(src, i)));
  }

  lemma DecodedStep(cp: CodePage, src: seq<byte>, i: nat, room: int)
    ensures i >= |src| || room <= 0 ==> Decoded(cp, Drop(src, i), room) == []
    ensures i < |src| && room > 0 ==>
              var here := Drop(src, i);
              Decoded(cp, here, room) ==
              DecodeChar(cp, here) + Decoded(cp, Drop(src, i + JisWidth(here)), room - |DecodeChar(cp, here)|)
  {
    hide DecodeChar;
    DropDrop(src, i, JisWidth(Drop(src, i)));
  }

  // ------------------------------------------------------------------------------------------ the loops

  /** How far a loop is: `text` is what the buffer holds in front of `j` and `rest`; behind that it is as it was. */
  ghost predicate Progress(now: seq<byte>, was: seq<byte>, j: nat, text: seq<byte>, rest: seq<byte>) {
    j <= |now| == |was| && text == now[..j] + rest && now[j..] == was[j..]
  }

  /** `*buf++ = ...` once or twice. */
  method Put(buf: array<byte>, j: nat, c: seq<byte>, ghost was: seq<byte>, ghost text: seq<byte>, ghost rest: seq<byte>)
    requires 1 <= |c| <= 2 && j + |c| <= buf.Length
    requires Progress(buf[..], was, j, text, c + rest)
    modifies buf
    ensures Progress(buf[..], was, j + |c|, text, rest)
  {
    ghost var before := buf[..];
    buf[j] := c[0];
    if |c| == 2 {
      buf[j + 1] := c[1];
    }
    Written(before, was, j, c, text, rest, buf[..]);
  }

  lemma Written(
      before: seq<byte>, was: seq<byte>, j: nat, c: seq<byte>, text: seq<byte>, rest: seq<byte>, now: seq<byte>)
    requires j + |c| <= |before| == |now| && Progress(before, was, j, text, c + rest)
    requires now[..j] == before[..j] && now[j..j + |c|] == c && now[j + |c|..] == before[j + |c|..]
    ensures Progress(now, was, j + |c|, text, rest)
  {
    assert now[..j + |c|] == now[..j] + c;
    assert before[j + |c|..] == before[j..][|c|..];
    assert was[j + |c|..] == was[j..][|c|..];
    Assoc(before[..j], c, rest);
  }

  lemma Started(was: seq<byte>, text: seq<byte>)
    ensures Progress(was, was, 0, text, text)
  {
  }

  lemma Terminated(before: seq<byte>, was: seq<byte>, j: nat, text: seq<byte>)
    requires Progress(before, was, j, text, []) && j < |before|
    ensures Holds(before[j := 0], was, text)
  {
    assert text == before[..j];
    assert before[j + 1..] == before[j..][1..];
    assert was[j + 1..] == was[j..][1..];
    assert before[j := 0] == before[..j] + [0] + before[j + 1..];
  }

  /** The buffer ends up with the characters, a terminator, and its old contents behind that. */
  ghost predicate Holds(now: seq<byte>, was: seq<byte>, text: seq<byte>) {
    |text| < |now| == |was| && now == text + [0] + was[|text| + 1..]
  }

  /** The encoder of the double-byte code pages. */
  method JisEncodeString(cp: CodePage, src: seq<byte>, buf: array<byte>, buflen: nat)
    requires cp != Cp1252 && buf.Length >= buflen + 2
    modifies buf
    ensures Holds(buf[..], old(buf[..]), Encoded(cp, src, buflen))
  {
    hide EncodeChar, Encoded, Drop, SourceWidth, Progress, Holds;
    var i, j := 0, 0;
    ghost var was, text := buf[..], Encoded(cp, src, buflen);
    WholeString(src);
    Started(was, text);
    while i < |src| && j < buflen
      invariant 0 <= i && 0 <= j <= buflen + 1
      invariant Progress(buf[..], was, j, text, Encoded(cp, Drop(src, i), buflen - j))
    {
      EncodedStep(cp, src, i, buflen - j);
      var here := Drop(src, i);
      var c := EncodeChar(cp, here);
      i := i + SourceWidth(cp, here);
      Put(buf, j, c, was, text, Encoded(cp, Drop(src, i), buflen - (j + |c|)));
      j := j + |c|;
    }
    EncodedStep(cp, src, i, buflen - j);
    Terminated(buf[..], was, j, text);
    assert buf[..][j := 0] == buf[..j] + [0] + buf[j + 1..];
    buf[j] := 0;
  }

  lemma WholeString(src: seq<byte>)
    ensures Drop(src, 0) == src
  {
  }

  /** The character at `i`. */
  lemma CharAt(src: seq<byte>, i: nat)
    requires i < |src|
    ensures JisCode(Drop(src, i)) == if IsLeadByte(src[i]) then src[i] * 0x100 + At(src, i + 1) else src[i]
    ensures JisWidth(Drop(src, i)) == if IsLeadByte(src[i]) then 2 else 1
  {
    AtDrop(src, i, 0);
    AtDrop(src, i, 1);
  }

  /** The string decoder that all code pages share. */
  method JisDecodeString(cp: CodePage, src: seq<byte>, buf: array<byte>, buflen: nat)
    requires buf.Length >= buflen + 2
    modifies buf
    ensures Holds(buf[..], old(buf[..]), Decoded(cp, src, buflen))
  {
    hide JisDecode, Decoded, Drop, Progress, Holds, CodeBytes, JisCode, JisWidth, At, IsLeadByte;
    var i, j := 0, 0;
    ghost var was, text := buf[..], Decoded(cp, src, buflen);
    WholeString(src);
    Started(was, text);
    while i < |src| && j < buflen
      invariant 0 <= i && 0 <= j <= buflen + 1
      invariant Progress(buf[..], was, j, text, Decoded(cp, Drop(src, i), buflen - j))
      decreases |src| - i
    {
      DecodedStep(cp, src, i, buflen - j);
      CharAt(src, i);
      ghost var here := Drop(src, i);
      var c1: uint16 := src[i];
      i := i + 1;
      if IsLeadByte(c1) {
        c1 := c1 * 0x100 + At(src, i);
        i := i + 1;
      }
      assert c1 == JisCode(here);
      var c := CodeBytes(JisDecode(cp, c1));
      Put(buf, j, c, was, text, Decoded(cp, Drop(src, i), buflen - (j + |c|)));
      j := j + |c|;
    }
    DecodedStep(cp, src, i, buflen - j);
    Terminated(buf[..], was, j, text);
    assert buf[..][j := 0] == buf[..j] + [0] + buf[j + 1..];
    buf[j] := 0;
  }

  /** The encoder of Cp1252 counts characters, not bytes, and writes no terminator. */
  method JisEncodeString1252(src: seq<byte>, buf: array<byte>, buflen: nat)
    requires buf.Length >= 2 * buflen
    modifies buf
    ensures var text := Encoded1252(src, buflen);
            |text| <= buf.Length && buf[..] == text + old(buf[..])[|text|..]
  {
    hide JisEncode1252, Progress;
    var i, j, left := 0, 0, buflen;
    ghost var was, text := buf[..], Encoded1252(src, buflen);
    assert src[0..] == src;
    Started(was, text);
    while i < |src| && left > 0
      invariant 0 <= i <= |src| && 0 <= left && 0 <= j && j + 2 * left <= buf.Length
      invariant Progress(buf[..], was, j, text, Encoded1252(src[i..], left))
    {
      left := left - 1;
      var c := CodeBytes(JisEncode1252(src[i]));
      i := i + 1;
      assert src[i - 1..][1..] == src[i..];
      Put(buf, j, c, was, text, Encoded1252(src[i..], left));
      j := j + |c|;
    }
    Finished(buf[..], was, j, text);
  }

  lemma Finished(now: seq<byte>, was: seq<byte>, j: nat, text: seq<byte>)
    requires Progress(now, was, j, text, [])
    ensures |text| <= |was| && now == text + was[|text|..]
  {
    assert text == now[..j];
  }

  function Encoded1252(src: seq<byte>, chars: nat): (r: seq<byte>)
    ensures |r| <= 2 * chars
  {
    if src == [] || chars == 0 then [] else CodeBytes(JisEncode1252(src[0])) + Encoded1252(src[1..], chars - 1)
  }
}
