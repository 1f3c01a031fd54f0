/** compression.cpp: the decompressors of LZSS and LZSS32 archives. */
module Compression {
  import opened Bytes
  import opened Sequences
  import opened Lzss

  datatype Error = InvalidHeader | SizeMismatch | OutOfData | WrongSize | UndefinedRead
  datatype Result = Ok(data: seq<byte>) | Err(error: Error)

  datatype Pixel = Pixel(b: byte, g: byte, r: byte, a: byte)

  const LZSS: Format<byte> := Format(1, raw => At(raw, 0), 2, 0)

  const LZSS32: Format<Pixel> := Format(3, raw => Pixel(At(raw, 0), At(raw, 1), At(raw, 2), 255), 1, Pixel(0, 0, 0, 0))

  // ------------------------------------------------------------------------------------------ archives

  function Word32(data: seq<byte>, i: nat): nat {
    At(data, i) + 0x100 * At(data, i + 1) + 0x1_0000 * At(data, i + 2) + 0x100_0000 * At(data, i + 3)
  }

  function OriginalSize(data: seq<byte>): nat {
    Word32(data, 4)
  }

  /** The archive size is read as a signed 32-bit number; a negative one never matches. */
  predicate SizeMatches(data: seq<byte>) {
    Word32(data, 0) == |data| < 0x8000_0000
  }

  function Finished(out: seq<byte>, size: nat): Result {
    if |out| == size then Ok(out) else Err(WrongSize)
  }

  function Decompressed(data: seq<byte>): Result {
    if data == [] then Ok([])
    else if |data| < 8 then Err(InvalidHeader)
    else if !SizeMatches(data) then Err(SizeMismatch)
    else
      match Decode(LZSS, data[8..], 0, 8, [], OriginalSize(data))
      case Done(out) => Finished(out, OriginalSize(data))
      case Short => Err(OutOfData)
      case Unreachable => Err(UndefinedRead)
  }

  function PixelBytes(p: Pixel): seq<byte> {
    [p.b, p.g, p.r, p.a]
  }

  function Flatten(pixels: seq<Pixel>): (bytes: seq<byte>)
    ensures |bytes| == 4 * |pixels|
  {
    if pixels == [] then [] else Flatten(pixels[..|pixels| - 1]) + PixelBytes(pixels[|pixels| - 1])
  }

  /** The number of whole pixels that reach the original size. */
  function PixelLimit(size: nat): nat {
    (size + 3) / 4
  }

  function Decompressed32(data: seq<byte>): Result {
    if data == [] then Ok([])
    else if |data| < 8 then Err(InvalidHeader)
    else if !SizeMatches(data) then Err(SizeMismatch)
    else
      match Decode(LZSS32, data[8..], 0, 8, [], PixelLimit(OriginalSize(data)))
      case Done(out) => Finished(Flatten(out), OriginalSize(data))
      case Short => Err(OutOfData)
      case Unreachable => Err(UndefinedRead)
  }

  // ------------------------------------------------------------------------------------------ the loops

  lemma CopyUnitsStep<T>(f: Format<T>, out: seq<T>, dist: nat, n: nat)
    requires dist <= |out|
    ensures CopyUnits(f, out, dist, 0) == out
    ensures var r := CopyUnits(f, out, dist, n);
            CopyUnits(f, out, dist, n + 1) == r + [if dist == 0 then f.zero else r[|r| - dist]]
  {
  }

  method DecompressLzss(data: seq<byte>) returns (r: Result)
    ensures r == Decompressed(data)
  {
    hide Decode;
    if data == [] {
      return Ok([]);
    }
    if |data| < 8 {
      return Err(InvalidHeader);
    }
    if !SizeMatches(data) {
      return Err(SizeMismatch);
    }
    var size := OriginalSize(data);
    ghost var run := Decode(LZSS, data[8..], 0, 8, [], size);
    var result: seq<byte>, p, flags: byte, shouldRepeat := [], 8, 0, true;
    while shouldRepeat && |result| < size
      invariant 8 <= p <= |data|
      invariant run == Decode(LZSS, data[p..], flags, 8, result, size)
      invariant shouldRepeat || |result| >= size
      decreases |data| - p
    {
      DecodeUnfold(LZSS, data[p..], flags, 8, result, size);
      if p == |data| {
        return Err(OutOfData);
      }
      flags := data[p];
      Slices(data, p, 1);
      p := p + 1;
      ghost var start := p;
      var bit := 0;
      while bit < 8
        invariant start <= p <= |data| && bit <= 8
        invariant run == Decode(LZSS, data[p..], flags, bit, result, size)
      {
        DecodeUnfold(LZSS, data[p..], flags, bit, result, size);
        if |result| >= size {
          DecodeUnfold(LZSS, data[p..], flags, 8, result, size);
          shouldRepeat := false;
          break;
        }
        if flags % 2 == 1 {
          if p == |data| {
            return Err(OutOfData);
          }
          Slices(data, p, 1);
          result := result + [data[p]];
          p := p + 1;
        } else {
          if p + 2 > |data| {
            return Err(OutOfData);
          }
          Slices(data, p, 2);
          var chunk := Word(data[p], data[p + 1]);
          p := p + 2;
          if chunk / 0x10 > |result| {
            return Err(UndefinedRead);
          }
          result := CopyBytes(result, chunk / 0x10, 2 + chunk % 0x10);
        }
        flags := flags / 2;
        bit := bit + 1;
      }
    }
    DecodeUnfold(LZSS, data[p..], flags, 8, result, size);
    r := Finished(result, size);
  }

  /** The copy loop; reading one past the last character of a string gives its terminator. */
  method CopyBytes(before: seq<byte>, dist: nat, size: nat) returns (result: seq<byte>)
    requires dist <= |before|
    ensures result == CopyUnits(LZSS, before, dist, size)
  {
    hide CopyUnits;
    result := before;
    var offset := |result| - dist;
    CopyUnitsStep(LZSS, before, dist, 0);
    for i := 0 to size
      invariant result == CopyUnits(LZSS, before, dist, i)
    {
      CopyUnitsStep(LZSS, before, dist, i);
      result := result + [At(result, offset + i)];
    }
  }

  // The rounds of the LZSS32 loop: a literal, a copy, the end of the output, the end of the input.

  lemma LiteralRound(data: seq<byte>, p: nat, flags: byte, bit: nat, pixels: seq<Pixel>, limit: nat)
    requires p + 3 <= |data| && bit < 8 && flags % 2 == 1 && |pixels| < limit
    ensures Decode(LZSS32, data[p..], flags, bit, pixels, limit) ==
            Decode(LZSS32, data[p + 3..], flags / 2, bit + 1,
                   pixels + [Pixel(data[p], data[p + 1], data[p + 2], 255)], limit)
  {
    hide Decode;
    Slices(data, p, 3);
    DecodeUnfold(LZSS32, data[p..], flags, bit, pixels, limit);
  }

  lemma CopyRound(data: seq<byte>, p: nat, flags: byte, bit: nat, pixels: seq<Pixel>, limit: nat)
    requires p + 2 <= |data| && bit < 8 && flags % 2 == 0 && |pixels| < limit
    ensures var chunk := Word(data[p], data[p + 1]);
            Decode(LZSS32, data[p..], flags, bit, pixels, limit) ==
            if chunk / 0x10 > |pixels| then Unreachable
            else Decode(LZSS32, data[p + 2..], flags / 2, bit + 1,
                        CopyUnits(LZSS32, pixels, chunk / 0x10, 1 + chunk % 0x10), limit)
  {
    hide Decode;
    Slices(data, p, 2);
    DecodeUnfold(LZSS32, data[p..], flags, bit, pixels, limit);
  }

  lemma EndRound(data: seq<byte>, p: nat, flags: byte, bit: nat, pixels: seq<Pixel>, limit: nat)
    requires p <= |data| && bit < 8
    ensures |pixels| >= limit ==> Decode(LZSS32, data[p..], flags, bit, pixels, limit) == Done(pixels)
    ensures |pixels| < limit && p + (if flags % 2 == 1 then 3 else 2) > |data| ==>
              Decode(LZSS32, data[p..], flags, bit, pixels, limit) == Short
  {
    hide Decode;
    DecodeUnfold(LZSS32, data[p..], flags, bit, pixels, limit);
  }

  lemma LiteralBytes(out: seq<byte>, b: byte, g: byte, r: byte)
    ensures out + [b] + [g] + [r] + [255] == out + PixelBytes(Pixel(b, g, r, 255))
  {
  }

  lemma BackInPixels(chunk: int)
    ensures chunk / 4 / 4 * 4 == 4 * (chunk / 0x10)
  {
  }

  /** Three bytes and an alpha of 255. */
  method TakeLiteral(data: seq<byte>, p: nat, before: seq<byte>, ghost pixels: seq<Pixel>) returns (result: seq<byte>)
    requires p + 3 <= |data| && before == Flatten(pixels)
    ensures result == Flatten(pixels + [Pixel(data[p], data[p + 1], data[p + 2], 255)])
  {
    hide Flatten;
    result := before + [data[p]] + [data[p + 1]] + [data[p + 2]] + [255];
    LiteralBytes(before, data[p], data[p + 1], data[p + 2]);
    FlattenAppend(pixels, Pixel(data[p], data[p + 1], data[p + 2], 255));
  }

  /** A copy of whole pixels; None: it starts in front of the output. */
  method TakeCopy(data: seq<byte>, p: nat, before: seq<byte>, ghost pixels: seq<Pixel>)
    returns (result: Option<seq<byte>>)
    requires p + 2 <= |data| && before == Flatten(pixels)
    ensures var chunk := Word(data[p], data[p + 1]);
            result == if chunk / 0x10 > |pixels| then None
                      else Some(Flatten(CopyUnits(LZSS32, pixels, chunk / 0x10, 1 + chunk % 0x10)))
  {
    hide Flatten, CopyUnits;
    var chunk := Word(data[p], data[p + 1]);
    var back := chunk / 4 / 4 * 4;
    BackInPixels(chunk);
    if back > |before| {
      return None;
    }
    var copied := CopyPixels(before, back, (1 + chunk % 0x10) * 4, pixels, chunk / 0x10, 1 + chunk % 0x10);
    result := Some(copied);
  }

  /** How the tokens of one flag byte end: with more to come, with all of the output, or with an error. */
  datatype GroupEnd = More | Complete | Failed(error: Error)

  predicate GroupFits(end: GroupEnd, run: Run<Pixel>, data: seq<byte>, p: nat, pixels: seq<Pixel>, limit: nat) {
    p <= |data| &&
    match end
    case More => run == Decode(LZSS32, data[p..], 0, 8, pixels, limit)
    case Complete => run == Done(pixels) && |pixels| >= limit
    case Failed(error) => (run == Short && error == OutOfData) || (run == Unreachable && error == UndefinedRead)
  }

  /** The flags do not matter when all of them are used up. */
  lemma FlagsUsedUp(data: seq<byte>, p: nat, flags: byte, pixels: seq<Pixel>, limit: nat)
    requires p <= |data|
    ensures Decode(LZSS32, data[p..], flags, 8, pixels, limit) == Decode(LZSS32, data[p..], 0, 8, pixels, limit)
  {
    hide Decode;
    DecodeUnfold(LZSS32, data[p..], flags, 8, pixels, limit);
    DecodeUnfold(LZSS32, data[p..], 0, 8, pixels, limit);
  }

  /** The inner loop: up to eight tokens behind a flag byte. */
  method DecompressGroup32(
      data: seq<byte>, start: nat, flagByte: byte, before: seq<byte>, size: nat, ghost first: seq<Pixel>)
    returns (result: seq<byte>, p: nat, end: GroupEnd, ghost pixels: seq<Pixel>)
    requires start <= |data| && before == Flatten(first)
    ensures start <= p <= |data| && result == Flatten(pixels)
    ensures var limit := PixelLimit(size);
            GroupFits(end, Decode(LZSS32, data[start..], flagByte, 0, first, limit), data, p, pixels, limit)
  {
    hide Decode, Flatten, CopyUnits, Word;
    ghost var limit := PixelLimit(size);
    ghost var run := Decode(LZSS32, data[start..], flagByte, 0, first, limit);
    result, p, pixels, end := before, start, first, More;
    var flags, bit := flagByte, 0;
    while bit < 8
      invariant start <= p <= |data| && bit <= 8
      invariant result == Flatten(pixels)
      invariant run == Decode(LZSS32, data[p..], flags, bit, pixels, limit)
    {
      EndRound(data, p, flags, bit, pixels, limit);
      if |result| >= size {
        end := Complete;
        return;
      }
      if flags % 2 == 1 {
        if p + 3 > |data| {
          end := Failed(OutOfData);
          return;
        }
        LiteralRound(data, p, flags, bit, pixels, limit);
        result := TakeLiteral(data, p, result, pixels);
        pixels := pixels + [Pixel(data[p], data[p + 1], data[p + 2], 255)];
        p := p + 3;
      } else {
        if p + 2 > |data| {
          end := Failed(OutOfData);
          return;
        }
        CopyRound(data, p, flags, bit, pixels, limit);
        var copied := TakeCopy(data, p, result, pixels);
        if copied.None? {
          end := Failed(UndefinedRead);
          return;
        }
        result := copied.value;
        pixels := CopyUnits(LZSS32, pixels, Word(data[p], data[p + 1]) / 0x10, 1 + Word(data[p], data[p + 1]) % 0x10);
        p := p + 2;
      }
      flags := flags / 2;
      bit := bit + 1;
    }
    FlagsUsedUp(data, p, flags, pixels, limit);
  }

  method DecompressLzss32(data: seq<byte>) returns (r: Result)
    ensures r == Decompressed32(data)
  {
    hide Decode, Flatten;
    if data == [] {
      return Ok([]);
    }
    if |data| < 8 {
      return Err(InvalidHeader);
    }
    if !SizeMatches(data) {
      return Err(SizeMismatch);
    }
    var size := OriginalSize(data);
    ghost var limit := PixelLimit(size);
    ghost var run := Decode(LZSS32, data[8..], 0, 8, [], limit);
    ghost var pixels: seq<Pixel> := [];
    var result: seq<byte>, p := [], 8;
    NoPixels();
    while |result| < size
      invariant 8 <= p <= |data|
      invariant result == Flatten(pixels)
      invariant run == Decode(LZSS32, data[p..], 0, 8, pixels, limit)
      decreases |data| - p
    {
      DecodeUnfold(LZSS32, data[p..], 0, 8, pixels, limit);
      if p == |data| {
        return Err(OutOfData);
      }
      var flags := data[p];
      Slices(data, p, 1);
      var end;
      result, p, end, pixels := DecompressGroup32(data, p + 1, flags, result, size, pixels);
      match end
      case Failed(error) => return Err(error);
      case Complete => break;
      case More =>
    }
    DecodeUnfold(LZSS32, data[p..], 0, 8, pixels, limit);
    r := Finished(result, size);
  }

  lemma NoPixels()
    ensures Flatten([]) == []
  {
  }

  lemma FlattenAppend(pixels: seq<Pixel>, p: Pixel)
    ensures Flatten(pixels + [p]) == Flatten(pixels) + PixelBytes(p)
  {
    assert (pixels + [p])[..|pixels|] == pixels;
  }

  lemma {:induction false} FlattenAt(pixels: seq<Pixel>, k: nat, j: nat)
    requires k < |pixels| && j < 4
    ensures Flatten(pixels)[4 * k + j] == PixelBytes(pixels[k])[j]
    decreases |pixels|
  {
    if k < |pixels| - 1 {
      FlattenAt(pixels[..|pixels| - 1], k, j);
    }
  }

  function NextUnit<T>(f: Format<T>, out: seq<T>, dist: nat): T
    requires dist <= |out|
  {
    if dist == 0 then f.zero else out[|out| - dist]
  }

  /** The copy loop of LZSS32 goes byte by byte; what it copies are whole pixels. */
  method CopyPixels(
      before: seq<byte>, back: nat, size: nat, ghost pixels: seq<Pixel>, ghost dist: nat, ghost len: nat)
    returns (result: seq<byte>)
    requires before == Flatten(pixels) && back == 4 * dist <= |before| && size == 4 * len
    ensures result == Flatten(CopyUnits(LZSS32, pixels, dist, len))
  {
    hide CopyUnits, Flatten;
    result := before;
    var offset := |result| - back;
    ghost var copied, q := pixels, 0;
    CopyUnitsStep(LZSS32, pixels, dist, 0);
    for i := 0 to size
      invariant q == i / 4 && copied == CopyUnits(LZSS32, pixels, dist, q)
      invariant result == Flatten(copied) + PixelBytes(NextUnit(LZSS32, copied, dist))[..i % 4]
    {
      ghost var (next, j) := (NextUnit(LZSS32, copied, dist), i % 4);
      if dist > 0 {
        FlattenAt(copied, |copied| - dist, j);
      }
      assert At(result, offset + i) == PixelBytes(next)[j];
      result := result + [At(result, offset + i)];
      if j == 3 {
        CopyUnitsStep(LZSS32, pixels, dist, q);
        FlattenAppend(copied, next);
        copied, q := copied + [next], q + 1;
      }
    }
  }
}
