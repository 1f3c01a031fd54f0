/** The token language behind Decompress_lzss and Decompress_lzss32: groups of up to eight tokens behind a flag byte,
    each token a literal or a copy of earlier output. */
module Lzss {
  import opened Bytes
  import opened Numbers

  /** A literal keeps the bytes it is written with; a copy repeats `len` units from `dist` units back. */
  datatype Token = Literal(raw: seq<byte>) | Copy(dist: nat, len: nat)

  /** The two formats differ in the unit of output. `zero` is the unit behind the last one: the source reads the
      terminator of its string there. */
  datatype Format<T> = Format(width: positive, make: seq<byte> -> T, minLen: positive, zero: T)

  // ------------------------------------------------------------------------------------------ meaning of tokens

  function CopyUnits<T>(f: Format<T>, out: seq<T>, dist: nat, n: nat): (r: seq<T>)
    requires dist <= |out|
    ensures |r| == |out| + n && out <= r
  {
    if n == 0 then out
    else
      var r := CopyUnits(f, out, dist, n - 1);
      r + [if dist == 0 then f.zero else r[|r| - dist]]
  }

  predicate Reaches(t: Token, size: nat) {
    t.Copy? ==> t.dist <= size
  }

  function Apply<T>(f: Format<T>, out: seq<T>, t: Token): (r: seq<T>)
    requires Reaches(t, |out|)
    ensures |r| == |out| + Length(t)
  {
    match t
    case Literal(raw) => out + [f.make(raw)]
    case Copy(dist, len) => CopyUnits(f, out, dist, len)
  }

  function Length(t: Token): nat {
    if t.Literal? then 1 else t.len
  }

  predicate Valid(ts: seq<Token>, size: nat) {
    ts == [] || (Reaches(ts[0], size) && Valid(ts[1..], size + Length(ts[0])))
  }

  /** What the tokens stand for, behind the output `out`. */
  function Expand<T>(f: Format<T>, ts: seq<Token>, out: seq<T>): (r: seq<T>)
    requires Valid(ts, |out|)
    ensures |r| >= |out|
  {
    if ts == [] then out else Expand(f, ts[1..], Apply(f, out, ts[0]))
  }

  lemma {:induction false} CopyRecurs<T>(f: Format<T>, out: seq<T>, dist: nat, n: nat, i: nat)
    requires 0 < dist <= |out| && i < n
    ensures var r := CopyUnits(f, out, dist, n);
            r[|out| + i] == r[|out| + i - dist]
    decreases n
  {
    var r := CopyUnits(f, out, dist, n - 1);
    if i < n - 1 {
      CopyRecurs(f, out, dist, n - 1, i);
    } else {
      assert CopyUnits(f, out, dist, n) == r + [r[|r| - dist]];
    }
  }

  /** Unit `i` of a copy, `r` units into its pass number `q` over the last `dist` units. */
  lemma {:induction false} CopyRepeats<T>(f: Format<T>, out: seq<T>, dist: nat, n: nat, i: nat, q: nat, r: nat)
    requires 0 < dist <= |out| && i < n && i == dist * q + r && r < dist
    ensures CopyUnits(f, out, dist, n)[|out| + i] == out[|out| - dist + r]
    decreases q
  {
    hide CopyUnits;
    CopyRecurs(f, out, dist, n, i);
    if q > 0 {
      MulGrows(dist, q);
      assert dist * (q - 1) == dist * q - dist;
      CopyRepeats(f, out, dist, n, i - dist, q - 1, r);
    } else {
      assert i == r;
    }
  }

  /** A copy, overlapping itself or not, repeats the last `dist` units periodically. */
  lemma CopyIsPeriodic<T>(f: Format<T>, out: seq<T>, dist: nat, n: nat, i: nat)
    requires 0 < dist <= |out| && i < n
    ensures CopyUnits(f, out, dist, n)[|out| + i] == out[|out| - dist + i % dist]
  {
    hide CopyUnits;
    CopyRepeats(f, out, dist, n, i, i / dist, i % dist);
  }

  // ------------------------------------------------------------------------------------------ tokens in bytes

  predicate Fits<T>(f: Format<T>, t: Token) {
    match t
    case Literal(raw) => |raw| == f.width
    case Copy(dist, len) => dist < 0x1000 && f.minLen <= len < f.minLen + 0x10
  }

  /** The distance takes the upper twelve bits of a little-endian pair, the length the lower four. */
  function ItemBytes<T>(f: Format<T>, t: Token): (r: seq<byte>)
    requires Fits(f, t)
    ensures |r| == if t.Literal? then f.width else 2
  {
    match t
    case Literal(raw) => raw
    case Copy(dist, len) =>
      var chunk := dist * 0x10 + (len - f.minLen);
      [chunk % 0x100, chunk / 0x100]
  }

  function Word(lo: nat, hi: nat): nat {
    lo + 0x100 * hi
  }

  function ReadItem<T>(f: Format<T>, body: seq<byte>, literal: bool): (t: Option<Token>)
    ensures t.Some? ==> Fits(f, t.value) && t.value.Literal? == literal && |ItemBytes(f, t.value)| <= |body|
  {
    if literal then if |body| < f.width then None else Some(Literal(body[..f.width]))
    else if |body| < 2 then None
    else
      var chunk := Word(body[0], body[1]);
      Some(Copy(chunk / 0x10, f.minLen + chunk % 0x10))
  }

  lemma ReadItemInvertsBytes<T>(f: Format<T>, t: Token, rest: seq<byte>)
    requires Fits(f, t)
    ensures ReadItem(f, ItemBytes(f, t) + rest, t.Literal?) == Some(t)
  {
    if t.Copy? {
      var chunk := t.dist * 0x10 + (t.len - f.minLen);
      assert chunk % 0x100 + 0x100 * (chunk / 0x100) == chunk;
      assert chunk / 0x10 == t.dist && chunk % 0x10 == t.len - f.minLen;
    }
  }

  lemma WordParts(lo: byte, hi: byte)
    ensures var chunk := Word(lo, hi);
            chunk % 0x100 == lo && chunk / 0x100 == hi && chunk / 0x10 * 0x10 + chunk % 0x10 == chunk
  {
    DivModUnique(Word(lo, hi), 0x100, hi, lo);
  }

  lemma BytesInvertReadItem<T>(f: Format<T>, body: seq<byte>, literal: bool)
    requires ReadItem(f, body, literal).Some?
    ensures ItemBytes(f, ReadItem(f, body, literal).value) <= body
  {
    if !literal {
      hide Word;
      WordParts(body[0], body[1]);
    }
  }

  /** `body` holds the tokens `ts`, with `bit` of the eight bits of the last flag byte used up and `flags` left of
      it. What stands behind the tokens does not matter. */
  predicate Encodes<T>(f: Format<T>, body: seq<byte>, flags: byte, bit: nat, ts: seq<Token>)
    requires bit <= 8
    decreases |body|, 8 - bit
  {
    if ts == [] then true
    else if bit == 8 then body != [] && Encodes(f, body[1..], body[0], 0, ts)
    else
      Fits(f, ts[0]) && ts[0].Literal? == (flags % 2 == 1) && ItemBytes(f, ts[0]) <= body &&
      Encodes(f, body[|ItemBytes(f, ts[0])|..], flags / 2, bit + 1, ts[1..])
  }

  // ------------------------------------------------------------------------------------------ decoder

  datatype Run<T> = Done(out: seq<T>) | Short | Unreachable

  /** The loops of the decompressors as one recursion: stop at `limit` units, take a flag byte every eight tokens. */
  function Decode<T>(f: Format<T>, body: seq<byte>, flags: byte, bit: nat, out: seq<T>, limit: nat): Run<T>
    requires bit <= 8
    decreases |body|, 8 - bit
  {
    if |out| >= limit then Done(out)
    else if bit == 8 then if body == [] then Short else Decode(f, body[1..], body[0], 0, out, limit)
    else
      match ReadItem(f, body, flags % 2 == 1)
      case None => Short
      case Some(t) =>
        if !Reaches(t, |out|) then Unreachable
        else Decode(f, body[|ItemBytes(f, t)|..], flags / 2, bit + 1, Apply(f, out, t), limit)
  }

  /** One round of the loops. */
  lemma DecodeUnfold<T>(f: Format<T>, body: seq<byte>, flags: byte, bit: nat, out: seq<T>, limit: nat)
    requires bit <= 8
    ensures |out| >= limit ==> Decode(f, body, flags, bit, out, limit) == Done(out)
    ensures |out| < limit && bit == 8 ==>
              Decode(f, body, flags, bit, out, limit) ==
              if body == [] then Short else Decode(f, body[1..], body[0], 0, out, limit)
    ensures |out| < limit && bit < 8 ==>
              var t := ReadItem(f, body, flags % 2 == 1);
              Decode(f, body, flags, bit, out, limit) ==
              if t.None? then Short
              else if !Reaches(t.value, |out|) then Unreachable
              else Decode(f, body[|ItemBytes(f, t.value)|..], flags / 2, bit + 1, Apply(f, out, t.value), limit)
  {
  }

  lemma {:induction false} DecodeEncoded<T>(
      f: Format<T>, body: seq<byte>, flags: byte, bit: nat, ts: seq<Token>, out: seq<T>, limit: nat)
    requires bit <= 8 && Encodes(f, body, flags, bit, ts) && Valid(ts, |out|)
    requires |Expand(f, ts, out)| == limit
    ensures Decode(f, body, flags, bit, out, limit) == Done(Expand(f, ts, out))
    decreases |body|, 8 - bit
  {
    hide ItemBytes, ReadItem, Apply, CopyUnits;
    if ts != [] {
      if bit == 8 {
        DecodeEncoded(f, body[1..], body[0], 0, ts, out, limit);
      } else {
        var t := ts[0];
        var n := |ItemBytes(f, t)|;
        assert ItemBytes(f, t) + body[n..] == body;
        ReadItemInvertsBytes(f, t, body[n..]);
        DecodeEncoded(f, body[n..], flags / 2, bit + 1, ts[1..], Apply(f, out, t), limit);
      }
    }
  }

  /** The tokens a successful run has consumed. */
  function Consumed<T>(f: Format<T>, body: seq<byte>, flags: byte, bit: nat, out: seq<T>, limit: nat): seq<Token>
    requires bit <= 8
    requires Decode(f, body, flags, bit, out, limit).Done?
    decreases |body|, 8 - bit
  {
    if |out| >= limit then []
    else if bit == 8 then Consumed(f, body[1..], body[0], 0, out, limit)
    else
      var t := ReadItem(f, body, flags % 2 == 1).value;
      [t] + Consumed(f, body[|ItemBytes(f, t)|..], flags / 2, bit + 1, Apply(f, out, t), limit)
  }

  lemma {:induction false} ConsumedIsEncoded<T>(
      f: Format<T>, body: seq<byte>, flags: byte, bit: nat, out: seq<T>, limit: nat)
    requires bit <= 8 && Decode(f, body, flags, bit, out, limit).Done?
    ensures var ts := Consumed(f, body, flags, bit, out, limit);
            Encodes(f, body, flags, bit, ts) && Valid(ts, |out|) &&
            Expand(f, ts, out) == Decode(f, body, flags, bit, out, limit).out
    decreases |body|, 8 - bit
  {
    hide ItemBytes, ReadItem, Fits, Apply, CopyUnits;
    if |out| < limit {
      if bit == 8 {
        ConsumedIsEncoded(f, body[1..], body[0], 0, out, limit);
      } else {
        var t := ReadItem(f, body, flags % 2 == 1).value;
        BytesInvertReadItem(f, body, flags % 2 == 1);
        var rest := body[|ItemBytes(f, t)|..];
        ConsumedIsEncoded(f, rest, flags / 2, bit + 1, Apply(f, out, t), limit);
        assert Consumed(f, body, flags, bit, out, limit)[1..] ==
               Consumed(f, rest, flags / 2, bit + 1, Apply(f, out, t), limit);
      }
    }
  }

  // ------------------------------------------------------------------------------------------ encoder

  function FlagBits(group: seq<Token>): nat {
    if group == [] then 0 else (if group[0].Literal? then 1 else 0) + 2 * FlagBits(group[1..])
  }

  function Items<T>(f: Format<T>, group: seq<Token>): seq<byte>
    requires forall t <- group :: Fits(f, t)
  {
    if group == [] then [] else ItemBytes(f, group[0]) + Items(f, group[1..])
  }

  lemma {:induction false} FlagBitsInByte(group: seq<Token>)
    requires |group| <= 8
    ensures FlagBits(group) < [1, 2, 4, 8, 16, 32, 64, 128, 256][|group|]
  {
    if group != [] {
      FlagBitsInByte(group[1..]);
    }
  }

  /** The bytes of the tokens, eight to a flag byte, the last group as short as it comes. */
  function Encode<T>(f: Format<T>, ts: seq<Token>): seq<byte>
    requires forall t <- ts :: Fits(f, t)
    decreases |ts|
  {
    if ts == [] then []
    else
      var group := ts[..if |ts| < 8 then |ts| else 8];
      FlagBitsInByte(group);
      [FlagBits(group)] + Items(f, group) + Encode(f, ts[|group|..])
  }

  lemma {:induction false} GroupEncodes<T>(
      f: Format<T>, group: seq<Token>, bit: nat, rest: seq<byte>, more: seq<Token>)
    requires bit + |group| <= 8 && FlagBits(group) < 0x100
    requires forall t <- group :: Fits(f, t)
    requires more == [] || (bit + |group| == 8 && Encodes(f, rest, 0, 8, more))
    ensures Encodes(f, Items(f, group) + rest, FlagBits(group), bit, group + more)
    decreases |group|
  {
    hide Items, ItemBytes, FlagBits, Fits, Encodes;
    if group == [] {
      assert group + more == more;
      NoItems(f, FlagBits(group), bit, rest, more);
    } else {
      FlagBitsSplit(group);
      GroupEncodes(f, group[1..], bit + 1, rest, more);
      GroupStep(f, group, bit, rest, more);
    }
  }

  lemma NoItems<T>(f: Format<T>, flags: byte, bit: nat, rest: seq<byte>, more: seq<Token>)
    requires bit <= 8 && (more == [] || (bit == 8 && Encodes(f, rest, 0, 8, more)))
    ensures Items(f, []) + rest == rest && Encodes(f, rest, flags, bit, more)
  {
  }

  /** One token in front of others. */
  lemma GroupStep<T>(f: Format<T>, group: seq<Token>, bit: nat, rest: seq<byte>, more: seq<Token>)
    requires group != [] && bit + |group| <= 8 && FlagBits(group) < 0x100
    requires forall t <- group :: Fits(f, t)
    requires FlagBits(group[1..]) < 0x100
    requires Encodes(f, Items(f, group[1..]) + rest, FlagBits(group[1..]), bit + 1, group[1..] + more)
    ensures Encodes(f, Items(f, group) + rest, FlagBits(group), bit, group + more)
  {
    var (item, others) := (ItemBytes(f, group[0]), Items(f, group[1..]));
    assert Items(f, group) == item + others;
    FlagBitsSplit(group);
    assert (group + more)[0] == group[0] && (group + more)[1..] == group[1..] + more;
    ItemFirst(item, others, rest);
    hide Items, ItemBytes, FlagBits, Fits;
  }

  lemma FlagBitsSplit(group: seq<Token>)
    requires group != []
    ensures FlagBits(group) / 2 == FlagBits(group[1..])
    ensures FlagBits(group) % 2 == 1 <==> group[0].Literal?
  {
  }

  lemma ItemFirst(item: seq<byte>, others: seq<byte>, rest: seq<byte>)
    ensures item <= item + others + rest && (item + others + rest)[|item|..] == others + rest
  {
  }

  lemma {:induction false} EncodeEncodes<T>(f: Format<T>, ts: seq<Token>, rest: seq<byte>)
    requires forall t <- ts :: Fits(f, t)
    ensures Encodes(f, Encode(f, ts) + rest, 0, 8, ts)
    decreases |ts|
  {
    if ts != [] {
      var n := if |ts| < 8 then |ts| else 8;
      var (group, more) := (ts[..n], ts[n..]);
      FlagBitsInByte(group);
      EncodeEncodes(f, more, rest);
      GroupEncodes(f, group, 0, Encode(f, more) + rest, more);
      FlagFirst(FlagBits(group), Items(f, group), Encode(f, more), rest);
      assert group + more == ts;
      assert Encode(f, ts) == [FlagBits(group)] + Items(f, group) + Encode(f, more);
      hide Encode, Items, FlagBits;
    }
  }

  lemma FlagFirst(flags: byte, items: seq<byte>, more: seq<byte>, rest: seq<byte>)
    ensures var body := [flags] + items + more + rest;
            body[0] == flags && body[1..] == items + (more + rest)
  {
  }

  // ------------------------------------------------------------------------------------------ size

  /** Every token adds at least one unit, at most `minLen + 15`. */
  lemma {:induction false} TokensBelowUnits<T>(f: Format<T>, ts: seq<Token>, out: seq<T>)
    requires Valid(ts, |out|) && forall t <- ts :: Fits(f, t)
    ensures |out| + |ts| <= |Expand(f, ts, out)|
    decreases |ts|
  {
    if ts != [] {
      assert ts == [ts[0]] + ts[1..];
      assert Fits(f, ts[0]);
      TokensBelowUnits(f, ts[1..], Apply(f, out, ts[0]));
    }
  }

  lemma {:induction false} EncodedFit<T>(f: Format<T>, body: seq<byte>, flags: byte, bit: nat, ts: seq<Token>)
    requires bit <= 8 && Encodes(f, body, flags, bit, ts)
    ensures forall t <- ts :: Fits(f, t)
    decreases |body|, 8 - bit
  {
    if ts != [] {
      if bit == 8 {
        EncodedFit(f, body[1..], body[0], 0, ts);
      } else {
        EncodedFit(f, body[|ItemBytes(f, ts[0])|..], flags / 2, bit + 1, ts[1..]);
        assert ts == [ts[0]] + ts[1..];
      }
    }
  }

  /** A flag byte and eight copies are 17 bytes for at most 8 * 17 bytes of output, and no group does better. `bit`
      flag bits already paid for count as bytes owed. */
  lemma {:induction false} ExpansionBound<T>(
      f: Format<T>, body: seq<byte>, flags: byte, bit: nat, ts: seq<Token>, out: seq<T>)
    requires f.minLen <= 2
    requires bit <= 8 && Encodes(f, body, flags, bit, ts) && Valid(ts, |out|)
    ensures |Expand(f, ts, out)| - |out| <= 8 * |body| + 8 - bit
    decreases |body|, 8 - bit
  {
    if ts != [] {
      if bit == 8 {
        ExpansionBound(f, body[1..], body[0], 0, ts, out);
      } else {
        ExpansionBound(f, body[|ItemBytes(f, ts[0])|..], flags / 2, bit + 1, ts[1..], Apply(f, out, ts[0]));
      }
    }
  }
}
