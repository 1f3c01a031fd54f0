/** The two formats in numbers: token by token, group by group, and every error. */
module CompressionLaws {
  import opened Bytes
  import opened Numbers
  import opened Lzss
  import opened Compression

  // ------------------------------------------------------------------------------------------ tokens

  /** A literal is one byte or three; a copy reaches up to 4095 units back, and is 2 to 17 bytes or 1 to 16 pixels
      long. */
  lemma TokensInNumbers(raw: seq<byte>, dist: nat, len: nat)
    ensures Fits(LZSS, Literal(raw)) <==> |raw| == 1
    ensures Fits(LZSS32, Literal(raw)) <==> |raw| == 3
    ensures Fits(LZSS, Copy(dist, len)) <==> dist < 4096 && 2 <= len <= 17
    ensures Fits(LZSS32, Copy(dist, len)) <==> dist < 4096 && 1 <= len <= 16
  {
  }

  /** What two bytes mean that are no literal: the upper digit of the first and the second byte say how far back, the
      lower digit of the first how long. */
  lemma CopyInNumbers(lo: byte, hi: byte, rest: seq<byte>)
    ensures ReadItem(LZSS, [lo, hi] + rest, false) == Some(Copy(hi * 16 + lo / 16, 2 + lo % 16))
    ensures ReadItem(LZSS32, [lo, hi] + rest, false) == Some(Copy(hi * 16 + lo / 16, 1 + lo % 16))
  {
    ChunkParts(lo, hi);
    hide Word;
    assert ([lo, hi] + rest)[0] == lo && ([lo, hi] + rest)[1] == hi;
  }

  lemma ChunkParts(lo: byte, hi: byte)
    ensures Word(lo, hi) / 16 == hi * 16 + lo / 16 && Word(lo, hi) % 16 == lo % 16
  {
    DivModUnique(Word(lo, hi), 16, hi * 16 + lo / 16, lo % 16);
  }

  lemma LiteralInNumbers(b: byte, g: byte, r: byte, rest: seq<byte>)
    ensures ReadItem(LZSS, [b] + rest, true) == Some(Literal([b]))
    ensures ReadItem(LZSS32, [b, g, r] + rest, true) == Some(Literal([b, g, r]))
    ensures LZSS.make([b]) == b && PixelBytes(LZSS32.make([b, g, r])) == [b, g, r, 255]
  {
    assert ([b] + rest)[..1] == [b] && ([b, g, r] + rest)[..3] == [b, g, r];
  }

  /** There is nothing to read where bytes are missing. */
  lemma ItemsCutShort(body: seq<byte>)
    ensures ReadItem(LZSS, body, true) == None <==> body == []
    ensures ReadItem(LZSS32, body, true) == None <==> |body| < 3
    ensures ReadItem(LZSS, body, false) == None <==> |body| < 2
    ensures ReadItem(LZSS32, body, false) == None <==> |body| < 2
  {
  }

  /** A copy from no distance at all is zeros. */
  lemma {:induction false} CopyOfNothing(out: seq<byte>, pixels: seq<Pixel>, n: nat)
    ensures CopyUnits(LZSS, out, 0, n) == out + seq(n, _ => 0)
    ensures CopyUnits(LZSS32, pixels, 0, n) == pixels + seq(n, _ => Pixel(0, 0, 0, 0))
    decreases n
  {
    if n > 0 {
      CopyOfNothing(out, pixels, n - 1);
      assert out + seq(n - 1, _ => 0) + [0] == out + seq(n, _ => 0);
    }
  }

  // ------------------------------------------------------------------------------------------ groups

  /** Bit i of a flag byte says whether the i-th token behind it is a literal. */
  lemma {:induction false} FlagsSayLiterals<T>(
      f: Format<T>, body: seq<byte>, flags: byte, bit: nat, ts: seq<Token>, i: nat)
    requires bit <= 8 && Encodes(f, body, flags, bit, ts) && i < |ts| && bit + i < 8
    ensures ts[i].Literal? <==> Digit(flags, i)
    decreases i
  {
    hide ItemBytes, Fits;
    if i > 0 {
      FlagsSayLiterals(f, body[|ItemBytes(f, ts[0])|..], flags / 2, bit + 1, ts[1..], i - 1);
    }
  }

  function Length<T>(f: Format<T>, ts: seq<Token>): nat {
    if ts == [] then 0 else (if ts[0].Literal? then f.width else 2) + Length(f, ts[1..])
  }

  lemma BehindItem<T>(f: Format<T>, body: seq<byte>, flags: byte, bit: nat, ts: seq<Token>) returns (n: nat)
    requires bit < 8 && Encodes(f, body, flags, bit, ts) && ts != []
    ensures n == (if ts[0].Literal? then f.width else 2) && n <= |body|
    ensures Encodes(f, body[n..], flags / 2, bit + 1, ts[1..])
  {
    hide Fits;
    n := |ItemBytes(f, ts[0])|;
  }

  lemma LengthStep<T>(f: Format<T>, ts: seq<Token>, k: nat)
    requires 0 < k <= |ts|
    ensures Length(f, ts[..k]) == (if ts[0].Literal? then f.width else 2) + Length(f, ts[1..][..k - 1])
    ensures ts[k..] == ts[1..][k - 1..]
  {
    assert ts[..k][1..] == ts[1..][..k - 1];
  }

  /** At byte `n` there is a flag byte, and behind it the tokens. */
  predicate FlagAt<T>(f: Format<T>, body: seq<byte>, n: nat, ts: seq<Token>) {
    n < |body| && Encodes(f, body[n + 1..], body[n], 0, ts)
  }

  lemma FlagBehind<T>(f: Format<T>, body: seq<byte>, n: nat, m: nat, ts: seq<Token>)
    requires n <= |body| && FlagAt(f, body[n..], m, ts)
    ensures FlagAt(f, body, n + m, ts)
  {
    hide Encodes;
    assert body[n..][m] == body[n + m] && body[n..][m + 1..] == body[n + m + 1..];
  }

  lemma FlagNow<T>(f: Format<T>, body: seq<byte>, flags: byte, ts: seq<Token>)
    requires Encodes(f, body, flags, 8, ts) && ts != []
    ensures FlagAt(f, body, Length(f, ts[..0]), ts[0..])
  {
    assert ts[..0] == [] && ts[0..] == ts;
  }

  /** Behind the eighth token the next flag byte follows. */
  lemma {:induction false} EightToAFlag<T>(f: Format<T>, body: seq<byte>, flags: byte, bit: nat, ts: seq<Token>)
    requires bit <= 8 && Encodes(f, body, flags, bit, ts) && |ts| > 8 - bit
    ensures FlagAt(f, body, Length(f, ts[..8 - bit]), ts[8 - bit..])
    decreases 8 - bit
  {
    hide Encodes, Length, FlagAt;
    if bit == 8 {
      FlagNow(f, body, flags, ts);
    } else {
      var n := BehindItem(f, body, flags, bit, ts);
      EightToAFlag(f, body[n..], flags / 2, bit + 1, ts[1..]);
      LengthStep(f, ts, 8 - bit);
      FlagBehind(f, body, n, Length(f, ts[1..][..7 - bit]), ts[8 - bit..]);
    }
  }

  // ------------------------------------------------------------------------------------------ errors

  /** How many units tokens stand for. */
  function Units(ts: seq<Token>): nat {
    if ts == [] then 0 else (if ts[0].Literal? then 1 else ts[0].len) + Units(ts[1..])
  }

  lemma {:induction false} UnitsExpand<T>(f: Format<T>, ts: seq<Token>, out: seq<T>)
    requires Valid(ts, |out|)
    ensures |Expand(f, ts, out)| == |out| + Units(ts)
    decreases |ts|
  {
    hide CopyUnits;
    if ts != [] {
      UnitsExpand(f, ts[1..], Apply(f, out, ts[0]));
    }
  }

  /** Tokens at the beginning of the body that give output enough, though not without the last of them. */
  predicate Completes<T>(f: Format<T>, body: seq<byte>, flags: byte, bit: nat, ts: seq<Token>, size: nat, limit: nat)
    requires bit <= 8
  {
    Encodes(f, body, flags, bit, ts) && Valid(ts, size) && size + Units(ts) >= limit &&
    (ts != [] ==> size + Units(ts[..|ts| - 1]) < limit)
  }

  /** Tokens at the beginning of the body that do not give enough, and a copy from in front of what they give. */
  predicate RunsInto<T>(
      f: Format<T>, body: seq<byte>, flags: byte, bit: nat, ts: seq<Token>, t: Token, size: nat, limit: nat)
    requires bit <= 8
  {
    Encodes(f, body, flags, bit, ts + [t]) && Valid(ts, size) && size + Units(ts) < limit &&
    t.Copy? && t.dist > size + Units(ts)
  }

  lemma FrontUnits(ts: seq<Token>)
    requires |ts| > 1
    ensures Units(ts[..|ts| - 1]) == (if ts[0].Literal? then 1 else ts[0].len) + Units(ts[1..][..|ts| - 2])
  {
    assert ts[..|ts| - 1][1..] == ts[1..][..|ts| - 2];
  }

  lemma {:induction false} CompletedIsDone<T>(
      f: Format<T>, body: seq<byte>, flags: byte, bit: nat, ts: seq<Token>, out: seq<T>, limit: nat)
    requires bit <= 8 && Completes(f, body, flags, bit, ts, |out|, limit)
    ensures Decode(f, body, flags, bit, out, limit) == Done(Expand(f, ts, out))
    decreases |body|, 8 - bit
  {
    hide ItemBytes, ReadItem, Apply, CopyUnits, Fits;
    if ts != [] {
      UnitsNotLess(ts);
      if bit == 8 {
        CompletedIsDone(f, body[1..], body[0], 0, ts, out, limit);
      } else {
        var t := ts[0];
        var n := |ItemBytes(f, t)|;
        assert ItemBytes(f, t) + body[n..] == body;
        ReadItemInvertsBytes(f, t, body[n..]);
        if |ts| > 1 { FrontUnits(ts); }
        CompletedIsDone(f, body[n..], flags / 2, bit + 1, ts[1..], Apply(f, out, t), limit);
      }
    }
  }

  lemma UnitsNotLess(ts: seq<Token>)
    requires ts != []
    ensures Units(ts[..|ts| - 1]) >= 0 && (|ts| == 1 ==> ts[..|ts| - 1] == [])
  {
  }

  lemma {:induction false} RunIsUnreachable<T>(
      f: Format<T>, body: seq<byte>, flags: byte, bit: nat, ts: seq<Token>, t: Token, out: seq<T>, limit: nat)
    requires bit <= 8 && RunsInto(f, body, flags, bit, ts, t, |out|, limit)
    ensures Decode(f, body, flags, bit, out, limit) == Unreachable
    decreases |body|, 8 - bit
  {
    hide ItemBytes, ReadItem, Apply, CopyUnits, Fits;
    var all := ts + [t];
    if bit == 8 {
      RunIsUnreachable(f, body[1..], body[0], 0, ts, t, out, limit);
    } else {
      var n := |ItemBytes(f, all[0])|;
      assert ItemBytes(f, all[0]) + body[n..] == body;
      ReadItemInvertsBytes(f, all[0], body[n..]);
      if ts != [] {
        assert all[1..] == ts[1..] + [t];
        RunIsUnreachable(f, body[n..], flags / 2, bit + 1, ts[1..], t, Apply(f, out, ts[0]), limit);
      }
    }
  }

  lemma {:induction false} UnreachableRuns<T>(
      f: Format<T>, body: seq<byte>, flags: byte, bit: nat, out: seq<T>, limit: nat)
    returns (ts: seq<Token>, t: Token)
    requires bit <= 8 && Decode(f, body, flags, bit, out, limit) == Unreachable
    ensures RunsInto(f, body, flags, bit, ts, t, |out|, limit)
    decreases |body|, 8 - bit
  {
    hide ItemBytes, ReadItem, Apply, CopyUnits, Fits;
    if bit == 8 {
      ts, t := UnreachableRuns(f, body[1..], body[0], 0, out, limit);
    } else {
      var first := ReadItem(f, body, flags % 2 == 1).value;
      BytesInvertReadItem(f, body, flags % 2 == 1);
      if !Reaches(first, |out|) {
        ts, t := [], first;
        assert ts + [t] == [t] && [t][1..] == [];
        assert Encodes(f, body[|ItemBytes(f, t)|..], flags / 2, bit + 1, []);
        assert ItemBytes(f, t) <= body && Fits(f, t) && t.Literal? == (flags % 2 == 1);
        assert Encodes(f, body, flags, bit, [t]);
        return;
      }
      var rest;
      rest, t := UnreachableRuns(f, body[|ItemBytes(f, first)|..], flags / 2, bit + 1, Apply(f, out, first), limit);
      ts := [first] + rest;
      assert ts[1..] == rest && (ts + [t])[1..] == rest + [t];
    }
  }

  lemma {:induction false} ConsumedCompletes<T>(
      f: Format<T>, body: seq<byte>, flags: byte, bit: nat, out: seq<T>, limit: nat)
    requires bit <= 8 && Decode(f, body, flags, bit, out, limit).Done?
    ensures Completes(f, body, flags, bit, Consumed(f, body, flags, bit, out, limit), |out|, limit)
    decreases |body|, 8 - bit
  {
    hide ItemBytes, ReadItem, Apply, CopyUnits, Fits;
    ConsumedIsEncoded(f, body, flags, bit, out, limit);
    var ts := Consumed(f, body, flags, bit, out, limit);
    UnitsExpand(f, ts, out);
    if |out| < limit {
      if bit == 8 {
        ConsumedCompletes(f, body[1..], body[0], 0, out, limit);
      } else {
        var t := ReadItem(f, body, flags % 2 == 1).value;
        var rest := body[|ItemBytes(f, t)|..];
        ConsumedCompletes(f, rest, flags / 2, bit + 1, Apply(f, out, t), limit);
        assert ts[1..] == Consumed(f, rest, flags / 2, bit + 1, Apply(f, out, t), limit);
        if |ts| > 1 { FrontUnits(ts); }
      }
    }
  }

  lemma UnitsWithin<T>(f: Format<T>, body: seq<byte>, limit: nat)
    ensures Decode(f, body, 0, 8, [], limit).Done? <==> exists ts :: Completes(f, body, 0, 8, ts, 0, limit)
    ensures Decode(f, body, 0, 8, [], limit) == Unreachable <==>
            exists ts, t :: RunsInto(f, body, 0, 8, ts, t, 0, limit)
    ensures forall ts | Completes(f, body, 0, 8, ts, 0, limit) ::
              Decode(f, body, 0, 8, [], limit).Done? && |Decode(f, body, 0, 8, [], limit).out| == Units(ts)
  {
    hide Decode, Completes, RunsInto, Expand;
    if Decode(f, body, 0, 8, [], limit).Done? {
      ConsumedCompletes(f, body, 0, 8, [], limit);
    }
    if Decode(f, body, 0, 8, [], limit) == Unreachable {
      var ts, t := UnreachableRuns(f, body, 0, 8, [], limit);
    }
    forall ts | Completes(f, body, 0, 8, ts, 0, limit)
      ensures Decode(f, body, 0, 8, [], limit).Done? && |Decode(f, body, 0, 8, [], limit).out| == Units(ts)
    {
      CompletedIsDone(f, body, 0, 8, ts, [], limit);
      CompletedAreValid(f, body, ts, limit);
      UnitsExpand(f, ts, []);
    }
    forall ts, t | RunsInto(f, body, 0, 8, ts, t, 0, limit) ensures Decode(f, body, 0, 8, [], limit) == Unreachable {
      RunIsUnreachable(f, body, 0, 8, ts, t, [], limit);
    }
  }

  lemma CompletedAreValid<T>(f: Format<T>, body: seq<byte>, ts: seq<Token>, limit: nat)
    requires Completes(f, body, 0, 8, ts, 0, limit)
    ensures Valid(ts, 0)
  {
  }

  /** Which error a string gives: it is too short for a header, its size is not the one in the header, its tokens give
      too much, or one of them starts in front of all output. There is no other but that it ends too early. */
  lemma ErrorsOfLzss(data: seq<byte>)
    ensures Decompressed(data) == Err(InvalidHeader) <==> 0 < |data| < 8
    ensures Decompressed(data) == Err(SizeMismatch) <==> |data| >= 8 && !SizeMatches(data)
    ensures Decompressed(data) == Err(WrongSize) <==>
            |data| >= 8 && SizeMatches(data) &&
            exists ts :: Completes(LZSS, data[8..], 0, 8, ts, 0, OriginalSize(data)) && Units(ts) > OriginalSize(data)
    ensures Decompressed(data) == Err(UndefinedRead) <==>
            |data| >= 8 && SizeMatches(data) &&
            exists ts, t :: RunsInto(LZSS, data[8..], 0, 8, ts, t, 0, OriginalSize(data))
    ensures data == [] ==> Decompressed(data) == Ok([])
  {
    hide Decode, Completes, RunsInto;
    if |data| >= 8 {
      UnitsWithin(LZSS, data[8..], OriginalSize(data));
      CompletesEnough(LZSS, data[8..], OriginalSize(data));
    }
  }

  lemma CompletesEnough<T>(f: Format<T>, body: seq<byte>, limit: nat)
    ensures forall ts :: Completes(f, body, 0, 8, ts, 0, limit) ==> Units(ts) >= limit
  {
  }

  /** The same for pictures, whose output is whole pixels. */
  lemma ErrorsOfLzss32(data: seq<byte>)
    ensures Decompressed32(data) == Err(InvalidHeader) <==> 0 < |data| < 8
    ensures Decompressed32(data) == Err(SizeMismatch) <==> |data| >= 8 && !SizeMatches(data)
    ensures Decompressed32(data) == Err(WrongSize) <==>
            |data| >= 8 && SizeMatches(data) &&
            exists ts :: Completes(LZSS32, data[8..], 0, 8, ts, 0, PixelLimit(OriginalSize(data))) &&
                         4 * Units(ts) > OriginalSize(data)
    ensures Decompressed32(data) == Err(UndefinedRead) <==>
            |data| >= 8 && SizeMatches(data) &&
            exists ts, t :: RunsInto(LZSS32, data[8..], 0, 8, ts, t, 0, PixelLimit(OriginalSize(data)))
    ensures 4 * PixelLimit(OriginalSize(data)) >= OriginalSize(data) > 4 * (PixelLimit(OriginalSize(data)) - 1)
    ensures data == [] ==> Decompressed32(data) == Ok([])
  {
    hide Decode, Completes, RunsInto, Flatten;
    if |data| >= 8 {
      UnitsWithin(LZSS32, data[8..], PixelLimit(OriginalSize(data)));
      CompletesEnough(LZSS32, data[8..], PixelLimit(OriginalSize(data)));
    }
  }

  // ------------------------------------------------------------------------------------------ byte by byte

  lemma TakesFlags(b: byte, rest: seq<byte>, flags: byte, out: seq<byte>, limit: nat)
    requires |out| < limit
    ensures Decode(LZSS, [b] + rest, flags, 8, out, limit) == Decode(LZSS, rest, b, 0, out, limit)
  {
    hide Decode;
    DecodeUnfold(LZSS, [b] + rest, flags, 8, out, limit);
    assert ([b] + rest)[1..] == rest;
  }

  lemma TakesLiteral(b: byte, rest: seq<byte>, flags: byte, bit: nat, out: seq<byte>, limit: nat)
    requires |out| < limit && bit < 8 && flags % 2 == 1
    ensures Decode(LZSS, [b] + rest, flags, bit, out, limit) == Decode(LZSS, rest, flags / 2, bit + 1, out + [b], limit)
  {
    hide Decode;
    DecodeUnfold(LZSS, [b] + rest, flags, bit, out, limit);
    assert ([b] + rest)[1..] == rest && ([b] + rest)[..1] == [b];
  }

  /** A copy of 2 + lo % 16 bytes from hi * 16 + lo / 16 back. */
  lemma TakesCopy(lo: byte, hi: byte, rest: seq<byte>, flags: byte, bit: nat, out: seq<byte>, limit: nat)
    requires |out| < limit && bit < 8 && flags % 2 == 0
    ensures var (dist, len) := (hi * 16 + lo / 16, 2 + lo % 16);
            Decode(LZSS, [lo, hi] + rest, flags, bit, out, limit) ==
            if dist > |out| then Unreachable
            else Decode(LZSS, rest, flags / 2, bit + 1, CopyUnits(LZSS, out, dist, len), limit)
  {
    hide Decode, CopyUnits;
    DecodeUnfold(LZSS, [lo, hi] + rest, flags, bit, out, limit);
    CopyInNumbers(lo, hi, rest);
    assert ([lo, hi] + rest)[2..] == rest;
  }

  lemma TakesEnough(body: seq<byte>, flags: byte, bit: nat, out: seq<byte>, limit: nat)
    requires |out| >= limit && bit <= 8
    ensures Decode(LZSS, body, flags, bit, out, limit) == Done(out)
  {
  }

  /** Three literals and a copy of them. */
  lemma BackReference()
    ensures Decompressed([14, 0, 0, 0, 6, 0, 0, 0, 0x07, 0x41, 0x42, 0x43, 0x31, 0x00]) ==
            Ok([0x41, 0x42, 0x43, 0x41, 0x42, 0x43])
  {
    hide Decode, CopyUnits;
    var data := [14, 0, 0, 0, 6, 0, 0, 0, 0x07, 0x41, 0x42, 0x43, 0x31, 0x00];
    assert data[8..] == [0x07] + ([0x41] + ([0x42] + ([0x43] + ([0x31, 0x00] + []))));
    TakesFlags(0x07, [0x41] + ([0x42] + ([0x43] + ([0x31, 0x00] + []))), 0, [], 6);
    TakesLiteral(0x41, [0x42] + ([0x43] + ([0x31, 0x00] + [])), 7, 0, [], 6);
    TakesLiteral(0x42, [0x43] + ([0x31, 0x00] + []), 3, 1, [] + [0x41], 6);
    TakesLiteral(0x43, [0x31, 0x00] + [], 1, 2, [] + [0x41] + [0x42], 6);
    var out := [] + [0x41] + [0x42] + [0x43];
    TakesCopy(0x31, 0x00, [], 0, 3, out, 6);
    CopyUnitsStep(LZSS, out, 3, 0);
    CopyUnitsStep(LZSS, out, 3, 1);
    CopyUnitsStep(LZSS, out, 3, 2);
    TakesEnough([], 0, 4, CopyUnits(LZSS, out, 3, 3), 6);
  }

  lemma OnePixelCopied(p: Pixel)
    ensures CopyUnits(LZSS32, [p], 1, 1) == [p, p]
  {
    CopyUnitsStep(LZSS32, [p], 1, 0);
  }

  lemma TwoPixels(p: Pixel)
    ensures Flatten([p, p]) == PixelBytes(p) + PixelBytes(p)
  {
    hide PixelBytes, Flatten;
    NoPixels();
    FlattenAppend([], p);
    FlattenAppend([p], p);
    assert [] + [p] == [p] && [p] + [p] == [p, p] && [] + PixelBytes(p) == PixelBytes(p);
  }

  lemma PixelRounds(data: seq<byte>)
    requires |data| == 14 && data[8] == 1 && data[12] == 0x10 && data[13] == 0
    ensures var p := Pixel(data[9], data[10], data[11], 255);
            Decode(LZSS32, data[8..], 0, 8, [], 2) == Done([p, p])
  {
    hide Decode, CopyUnits;
    var p := Pixel(data[9], data[10], data[11], 255);
    DecodeUnfold(LZSS32, data[8..], 0, 8, [], 2);
    assert data[8..][1..] == data[9..];
    LiteralRound(data, 9, 1, 0, [], 2);
    assert [] + [p] == [p];
    CopyRound(data, 12, 0, 1, [p], 2);
    OnePixelCopied(p);
    DecodeUnfold(LZSS32, data[14..], 0, 2, [p, p], 2);
  }

  /** One pixel and a copy of it. */
  lemma PixelBackReference()
    ensures Decompressed32([14, 0, 0, 0, 8, 0, 0, 0, 0x01, 0x41, 0x42, 0x43, 0x10, 0x00]) ==
            Ok([0x41, 0x42, 0x43, 255, 0x41, 0x42, 0x43, 255])
  {
    hide Decode, Flatten;
    var data := [14, 0, 0, 0, 8, 0, 0, 0, 0x01, 0x41, 0x42, 0x43, 0x10, 0x00];
    PixelRounds(data);
    TwoPixels(Pixel(0x41, 0x42, 0x43, 255));
  }

  /** Sizes are written with the low byte first. */
  lemma LowByteFirst(rest: seq<byte>)
    ensures Word32([0x12, 0x34, 0x56, 0x78] + rest, 0) == 0x78563412
    ensures OriginalSize([0, 0, 0, 0, 0x12, 0x34, 0x56, 0x78] + rest) == 0x78563412
  {
  }

  /** The first four bytes have to count the archive, themselves included; no archive of 2 GiB or more has such a
      size, whatever it says. */
  lemma SizeOfArchive(data: seq<byte>)
    requires |data| >= 8
    ensures var (b0: int, b1: int, b2: int, b3: int) := (data[0], data[1], data[2], data[3]);
            SizeMatches(data) <==>
            |data| <= 2147483647 && |data| == b0 + 256 * b1 + 65536 * b2 + 16777216 * b3
  {
  }
}
