/** What the two decompressors accept, and that every string has an archive. */
module Archives {
  import opened Bytes
  import opened Numbers
  import opened Lzss
  import opened Compression

  function WordBytes(n: nat): (r: seq<byte>)
    requires n < 0x1_0000_0000
    ensures |r| == 4
  {
    [n % 0x100, n / 0x100 % 0x100, n / 0x1_0000 % 0x100, n / 0x100_0000]
  }

  lemma WordBytesRead(n: nat, data: seq<byte>, i: nat)
    requires n < 0x1_0000_0000 && i + 4 <= |data| && data[i..i + 4] == WordBytes(n)
    ensures Word32(data, i) == n
  {
    var b := data[i..i + 4];
    assert data[i] == b[0] && data[i + 1] == b[1] && data[i + 2] == b[2] && data[i + 3] == b[3];
    WordDigits(n);
  }

  lemma WordDigits(n: nat)
    ensures n == n % 0x100 + 0x100 * (n / 0x100 % 0x100) + 0x1_0000 * (n / 0x1_0000 % 0x100)
                 + 0x100_0000 * (n / 0x100_0000)
  {
    var a := n / 0x100;
    var b := a / 0x100;
    var (r, s, t) := (n % 0x100, a % 0x100, b % 0x100);
    DivModUnique(n, 0x1_0000, b, 0x100 * s + r);
    DivModUnique(n, 0x100_0000, b / 0x100, 0x1_0000 * t + 0x100 * s + r);
  }

  /** An archive of `body` for an output of `size` bytes. */
  function Archive(body: seq<byte>, size: nat): seq<byte>
    requires 8 + |body| < 0x8000_0000 && size < 0x1_0000_0000
  {
    WordBytes(8 + |body|) + WordBytes(size) + body
  }

  lemma ArchiveHeader(body: seq<byte>, size: nat)
    requires 8 + |body| < 0x8000_0000 && size < 0x1_0000_0000
    ensures var data := Archive(body, size);
            |data| >= 8 && SizeMatches(data) && OriginalSize(data) == size && data[8..] == body
  {
    var data := Archive(body, size);
    WordBytesRead(8 + |body|, data, 0);
    WordBytesRead(size, data, 4);
  }

  // ------------------------------------------------------------------------------------------ LZSS

  /** Decompressing the bytes of any valid token list, whatever follows them, gives the expansion of the tokens. */
  lemma DecompressEncoded(ts: seq<Token>, junk: seq<byte>)
    requires Valid(ts, 0) && forall t <- ts :: Fits(LZSS, t)
    requires 8 + |Encode(LZSS, ts) + junk| < 0x8000_0000 && |Expand(LZSS, ts, [])| < 0x1_0000_0000
    ensures var out := Expand(LZSS, ts, []);
            Decompressed(Archive(Encode(LZSS, ts) + junk, |out|)) == Ok(out)
  {
    var out := Expand(LZSS, ts, []);
    ArchiveHeader(Encode(LZSS, ts) + junk, |out|);
    EncodeEncodes(LZSS, ts, junk);
    DecodeEncoded(LZSS, Encode(LZSS, ts) + junk, 0, 8, ts, [], |out|);
  }

  /** `data` is an archive of the tokens `ts`, which stand for `out`. */
  predicate IsArchive(data: seq<byte>, ts: seq<Token>, out: seq<byte>) {
    |data| >= 8 && SizeMatches(data) && Encodes(LZSS, data[8..], 0, 8, ts) && Valid(ts, 0) &&
    Expand(LZSS, ts, []) == out && |out| == OriginalSize(data)
  }

  /** A nonempty input decompresses to `out` if and only if it is an archive of tokens that stand for `out`. */
  lemma DecompressedIff(data: seq<byte>, out: seq<byte>)
    requires data != []
    ensures Decompressed(data) == Ok(out) <==> exists ts :: IsArchive(data, ts, out)
  {
    hide Decode, Encodes, Expand, Valid;
    if Decompressed(data) == Ok(out) {
      ConsumedIsEncoded(LZSS, data[8..], 0, 8, [], OriginalSize(data));
      assert IsArchive(data, Consumed(LZSS, data[8..], 0, 8, [], OriginalSize(data)), out);
    }
    if ts :| IsArchive(data, ts, out) {
      DecodeEncoded(LZSS, data[8..], 0, 8, ts, [], OriginalSize(data));
    }
  }

  /** An archive takes no more tokens than it has output, and holds at most eight times the bytes behind its header. */
  lemma ArchiveSizes(data: seq<byte>, ts: seq<Token>, out: seq<byte>)
    requires IsArchive(data, ts, out)
    ensures |ts| <= |out| <= 8 * (|data| - 8)
  {
    hide Encodes, Expand, Valid;
    EncodedFit(LZSS, data[8..], 0, 8, ts);
    TokensBelowUnits(LZSS, ts, []);
    ExpansionBound(LZSS, data[8..], 0, 8, ts, []);
  }

  function Literals(s: seq<byte>): (ts: seq<Token>)
    ensures |ts| == |s| && forall i :: 0 <= i < |s| ==> ts[i] == Literal([s[i]])
  {
    seq(|s|, i requires 0 <= i < |s| => Literal([s[i]]))
  }

  lemma {:induction false} LiteralsExpand(s: seq<byte>, out: seq<byte>)
    ensures Valid(Literals(s), |out|) && Expand(LZSS, Literals(s), out) == out + s
    ensures forall t <- Literals(s) :: Fits(LZSS, t)
    decreases |s|
  {
    if s != [] {
      assert Literals(s)[1..] == Literals(s[1..]);
      LiteralsExpand(s[1..], out + [s[0]]);
      assert out + [s[0]] + s[1..] == out + s;
    } else {
      assert out + s == out;
    }
  }

  function LiteralTokens(s: seq<byte>): (ts: seq<Token>)
    ensures forall t <- ts :: Fits(LZSS, t)
  {
    LiteralsExpand(s, []);
    Literals(s)
  }

  lemma {:induction false} ItemsLength(ts: seq<Token>)
    requires forall t <- ts :: Fits(LZSS, t) && t.Literal?
    ensures |Items(LZSS, ts)| == |ts|
    decreases |ts|
  {
    if ts != [] {
      assert Fits(LZSS, ts[0]);
      ItemsLength(ts[1..]);
    }
  }

  /** A flag byte for every eight literals. */
  lemma {:induction false} LiteralsLength(ts: seq<Token>)
    requires forall t <- ts :: Fits(LZSS, t) && t.Literal?
    ensures |Encode(LZSS, ts)| == |ts| + (|ts| + 7) / 8
    decreases |ts|
  {
    hide Items;
    if ts != [] {
      var n := if |ts| < 8 then |ts| else 8;
      ItemsLength(ts[..n]);
      LiteralsLength(ts[n..]);
    }
  }

  /** Every byte string whose archive fits a signed 32-bit size has an archive that decompresses to it. */
  lemma EveryStringHasArchive(s: seq<byte>)
    requires 8 + |s| + (|s| + 7) / 8 < 0x8000_0000
    ensures 8 + |Encode(LZSS, LiteralTokens(s))| < 0x8000_0000 &&
            Decompressed(Archive(Encode(LZSS, LiteralTokens(s)), |s|)) == Ok(s)
  {
    LiteralsLength(LiteralTokens(s));
    LiteralsExpand(s, []);
    assert Encode(LZSS, Literals(s)) + [] == Encode(LZSS, Literals(s));
    assert [] + s == s;
    DecompressEncoded(Literals(s), []);
  }

  // ------------------------------------------------------------------------------------------ LZSS32

  /** `data` is an archive of the pixel tokens `ts`, which stand for `pixels`. */
  predicate IsPixelArchive(data: seq<byte>, ts: seq<Token>, pixels: seq<Pixel>) {
    |data| >= 8 && SizeMatches(data) && Encodes(LZSS32, data[8..], 0, 8, ts) && Valid(ts, 0) &&
    Expand(LZSS32, ts, []) == pixels && 4 * |pixels| == OriginalSize(data)
  }

  lemma PixelArchiveDecompresses(data: seq<byte>, ts: seq<Token>, pixels: seq<Pixel>)
    requires IsPixelArchive(data, ts, pixels)
    ensures Decompressed32(data) == Ok(Flatten(pixels))
  {
    hide Decode, Encodes, Expand, Valid, Flatten;
    DecodeEncoded(LZSS32, data[8..], 0, 8, ts, [], PixelLimit(OriginalSize(data)));
  }

  /** A nonempty input decompresses to exactly the flattened pixels of the tokens it encodes. */
  lemma Decompressed32Iff(data: seq<byte>, out: seq<byte>)
    requires data != []
    ensures Decompressed32(data) == Ok(out) <==>
            exists ts, pixels :: IsPixelArchive(data, ts, pixels) && out == Flatten(pixels)
  {
    hide Decode, Encodes, Expand, Valid, Flatten;
    var limit := PixelLimit(OriginalSize(data));
    if Decompressed32(data) == Ok(out) {
      ConsumedIsEncoded(LZSS32, data[8..], 0, 8, [], limit);
      var ts := Consumed(LZSS32, data[8..], 0, 8, [], limit);
      assert IsPixelArchive(data, ts, Expand(LZSS32, ts, []));
    }
    if ts, pixels :| IsPixelArchive(data, ts, pixels) && out == Flatten(pixels) {
      PixelArchiveDecompresses(data, ts, pixels);
    }
  }

  predicate FullAlpha(pixels: seq<Pixel>) {
    forall p <- pixels :: p.a == 255
  }

  predicate NoZeroDistance(ts: seq<Token>) {
    forall t <- ts :: t.Copy? ==> t.dist > 0
  }

  lemma {:induction false} CopyKeepsAlpha(out: seq<Pixel>, dist: nat, n: nat)
    requires dist <= |out| && n > 0
    ensures FullAlpha(CopyUnits(LZSS32, out, dist, n)) <==> FullAlpha(out) && dist > 0
    decreases n
  {
    CopyUnitsStep(LZSS32, out, dist, n - 1);
    var r := CopyUnits(LZSS32, out, dist, n - 1);
    var next := NextUnit(LZSS32, r, dist);
    assert CopyUnits(LZSS32, out, dist, n) == r + [next];
    hide CopyUnits;
    if n > 1 { CopyKeepsAlpha(out, dist, n - 1); }
    if dist == 0 { assert next in r + [next]; }
    FullAlphaAppend(r, next);
  }

  lemma FullAlphaAppend(pixels: seq<Pixel>, p: Pixel)
    ensures FullAlpha(pixels + [p]) <==> FullAlpha(pixels) && p.a == 255
  {
    if FullAlpha(pixels + [p]) {
      assert forall q <- pixels :: q in pixels + [p];
      assert p in pixels + [p];
    }
  }

  /** Every pixel is opaque if and only if no copy has distance zero. */
  lemma {:induction false} FullAlphaIffNoZeroDistance(ts: seq<Token>, out: seq<Pixel>)
    requires Valid(ts, |out|) && forall t <- ts :: Fits(LZSS32, t)
    ensures FullAlpha(Expand(LZSS32, ts, out)) <==> FullAlpha(out) && NoZeroDistance(ts)
    decreases |ts|
  {
    if ts != [] {
      var t := ts[0];
      assert ts == [t] + ts[1..];
      assert NoZeroDistance(ts) <==> (t.Copy? ==> t.dist > 0) && NoZeroDistance(ts[1..]);
      FullAlphaIffNoZeroDistance(ts[1..], Apply(LZSS32, out, t));
      assert Fits(LZSS32, t);
      match t
      case Literal(raw) => FullAlphaAppend(out, LZSS32.make(raw));
      case Copy(dist, len) => CopyKeepsAlpha(out, dist, len);
    }
  }

  predicate EveryFourthIs255(bytes: seq<byte>) {
    forall i :: 0 <= i < |bytes| && i % 4 == 3 ==> bytes[i] == 255
  }

  lemma FlattenAlpha(pixels: seq<Pixel>)
    ensures EveryFourthIs255(Flatten(pixels)) <==> FullAlpha(pixels)
  {
    hide Flatten;
    var bytes := Flatten(pixels);
    if FullAlpha(pixels) {
      forall i | 0 <= i < |bytes| && i % 4 == 3 ensures bytes[i] == 255 {
        FlattenAt(pixels, i / 4, 3);
      }
    }
    if EveryFourthIs255(bytes) {
      forall k | 0 <= k < |pixels| ensures pixels[k].a == 255 {
        FlattenAt(pixels, k, 3);
        assert (4 * k + 3) % 4 == 3;
      }
    }
  }

  /** In a decompressed picture the length is a multiple of four, and every byte at an index 3 mod 4 is 255 if and only
      if the archive has no copy from distance zero. */
  lemma PictureAlpha(data: seq<byte>, ts: seq<Token>, pixels: seq<Pixel>)
    requires IsPixelArchive(data, ts, pixels)
    ensures Decompressed32(data) == Ok(Flatten(pixels)) && |Flatten(pixels)| % 4 == 0
    ensures EveryFourthIs255(Flatten(pixels)) <==> NoZeroDistance(ts)
  {
    hide Encodes, Expand, Valid, Flatten, Decompressed32, EveryFourthIs255, NoZeroDistance, FullAlpha;
    PixelArchiveDecompresses(data, ts, pixels);
    EncodedFit(LZSS32, data[8..], 0, 8, ts);
    FullAlphaIffNoZeroDistance(ts, []);
    FlattenAlpha(pixels);
    NoPixelsYet();
  }

  lemma NoPixelsYet()
    ensures FullAlpha([])
  {
  }
}
