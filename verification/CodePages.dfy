/** The code pages that re-pack double-byte characters into the shape of Shift-JIS: one character at a time. */
module CodePages {
  import opened Bytes
  import opened Extents
  import opened Numbers

  type uint16 = n: int | 0 <= n < 0x1_0000

  /** Cp949 carries its table of codes that have no place in the two regular ranges. */
  datatype CodePage = Cp936 | Cp949(extras: seq<uint16>) | Cp1252

  // ------------------------------------------------------------------------------------------ bits

  function BitOr(x: nat, y: nat): nat {
    if x == 0 then y
    else if y == 0 then x
    else 2 * BitOr(x / 2, y / 2) + (if x % 2 == 1 || y % 2 == 1 then 1 else 0)
  }

  /** `(hi << 8) | lo` cut down to 16 bits. */
  function Pack(hi: int, lo: int): uint16 {
    BitOr(hi * 0x100 % 0x1_0000, lo % 0x1_0000) % 0x1_0000
  }

  lemma {:induction false} BitOrDisjoint(a: nat, b: nat, k: nat)
    requires b < Pow2(k)
    ensures BitOr(a * Pow2(k), b) == a * Pow2(k) + b
    decreases k
  {
    if k > 0 && a > 0 && b > 0 {
      var x := a * Pow2(k);
      assert x == 2 * (a * Pow2(k - 1));
      assert x > 0 by { assert Pow2(k) > b; }
      assert b / 2 < Pow2(k - 1);
      BitOrDisjoint(a, b / 2, k - 1);
    }
  }

  /** Two bytes pack without overlap. */
  lemma PackBytes(hi: byte, lo: byte)
    ensures Pack(hi, lo) == hi * 0x100 + lo
  {
    Pow2Of8();
    hide BitOr, Pow2;
    BitOrDisjoint(hi, lo, 8);
  }

  lemma Pow2Of8()
    ensures Pow2(8) == 0x100
  {
    assert Pow2(2) == 4;
    assert Pow2(4) == 2 * Pow2(3) == 16;
    assert Pow2(6) == 2 * Pow2(5) == 64;
    assert Pow2(8) == 2 * Pow2(7) == 256;
  }

  // ------------------------------------------------------------------------------------------ decoding

  function JisDecode936(ch: uint16): uint16 {
    if ch < 0x80 then ch
    else if ch == 0x8175 then 0xa1b8
    else if ch == 0x8177 then 0xa1ba
    else if ch == 0x8169 then 0xa3a8
    else if ch == 0x8153 then 0xbba2
    else if ch == 0x8252 then 0xdda2
    else if ch == 0x8253 then 0xb5a2
    else UnpackedGbk(ch / 0x100, ch % 0x100)
  }

  function UnpackedGbk(c2: byte, c1: byte): uint16 {
    var cell := (if c2 > 0xdf then c2 - 0x40 else c2) - 0x81;
    var row := (if c1 >= 0x80 then c1 - 1 else c1) - 0x40;
    Pack(row / 2 + 0xa1, cell * 2 + Remainder(row, 2) + 0xa1)
  }

  /** The trail bytes of the extended rows, in order. */
  function ExtendedTrail(n: int): int {
    n + (if n < 0x1a then 0x41 else if n < 0x34 then 0x47 else 0x4d)
  }

  function JisDecode949(extras: seq<uint16>, ch: uint16): uint16 {
    if ch < 0x80 then ch
    else if ch == 0x8175 then 0xa1b8
    else if ch == 0x8177 then 0xa1ba
    else if ch == 0x8169 then 0xa3a8
    else if ch == 0xea40 then 0x81c1
    else if ch == 0xea41 then 0x81c5
    else if ch == 0xea42 then 0x81b5
    else UnpackedHangul(extras, ch / 0x100, ch % 0x100)
  }

  function UnpackedHangul(extras: seq<uint16>, c1: byte, c2: byte): uint16 {
    if c1 <= 0x96 then
      var i := (c1 - 0x81) * 255 + c2 - 1;
      Pack(0x81 + Quotient(i, 177), ExtendedTrail(Remainder(i, 177)))
    else if c1 <= 0xe6 then
      var i := (c1 - (if c1 <= 0x9f then 0x97 else 0xd8)) * 255 + c2 - 1;
      Pack(0xa1 + Quotient(i, 94), 0xa1 + Remainder(i, 94))
    else
      var i := (c1 - 0xe7) * 255 + c2 - 1;
      if 0 <= i < |extras| then extras[i] else 0xa3bf
  }

  predicate IsItalic(ch: uint16) {
    0x8300 < ch < 0x8900
  }

  function GetItalic(ch: uint16): uint16 {
    if ch > 0x8700 then (ch + 0x0200) % 0x1_0000
    else (ch - (if ch >= 0x8380 then 0x8320 else 0x831f)) % 0x1_0000
  }

  /** The source goes on to test for codes above 0x8900, which the first test has already answered. */
  function Italicise(ch: uint16): uint16 {
    if ch == 0x20 || ch > 0xff then ch
    else ch + (if ch >= 0x60 then 0x8320 else 0x831f)
  }

  /** An italic code decodes as its upright one, which is never italic again. */
  function JisDecode1252(ch: uint16): uint16
    decreases IsItalic(ch)
  {
    if ch <= 0x7f then ch
    else if 0xa1 <= ch <= 0xdf then ch + 0x1f
    else if 0x8980 <= ch <= 0x89bf then ch % 0x100
    else if ch == 0x89c0 then 0xff
    else if IsItalic(ch) then JisDecode1252(GetItalic(ch))
    else 0
  }

  function JisDecode(cp: CodePage, ch: uint16): uint16 {
    match cp
    case Cp936 => JisDecode936(ch)
    case Cp949(extras) => JisDecode949(extras, ch)
    case Cp1252 => JisDecode1252(ch)
  }

  // ------------------------------------------------------------------------------------------ encoding

  function ToByte(n: int): byte {
    n % 0x100
  }

  /** The codes whose places the special characters take are moved out of their way. */
  function Displaced936(ch: uint16): uint16 {
    if ch == 0xa1b8 then 0xbba2
    else if ch == 0xa1ba then 0xdda2
    else if ch == 0xa3a8 then 0xb5a2
    else if ch == 0xbba2 then 0xaaa2
    else if ch == 0xdda2 then 0xaaa3
    else if ch == 0xb5a2 then 0xaaa4
    else ch
  }

  function EncodePair936(lead: byte, trail: byte): (r: seq<byte>)
    ensures |r| == 2
  {
    var ch := Displaced936(lead * 0x100 + trail);
    if InGbk(ch / 0x100, ch % 0x100) then PackedGbk(ch / 0x100, ch % 0x100) else [0x5f, 0x5f]
  }

  predicate InGbk(c1: byte, c2: byte) {
    0xa1 <= c2 <= 0xfe && 0xa1 <= c1 <= 0xf7
  }

  /** Two cells of a row share a trail column; the trail skips 0x7f and the lead jumps from 0x9f to 0xe0. */
  function PackedGbk(c1: byte, c2: byte): (r: seq<byte>)
    requires InGbk(c1, c2)
    ensures |r| == 2
  {
    var row := (c1 - 0xa1) * 2 + (c2 - 0xa1) % 2 + 0x40;
    var cell := (c2 - 0xa1) / 2 + 0x81;
    [if cell > 0x9f then cell + 0x40 else cell, if row >= 0x7f then row + 1 else row]
  }

  function Displaced949(ch: uint16): uint16 {
    if ch == 0xa1b8 then 0x8175
    else if ch == 0xa1ba then 0x8177
    else if ch == 0xa3a8 then 0x8169
    else if ch == 0x81c1 then 0xea40
    else if ch == 0x81c3 then 0xea41
    else if ch == 0x81b5 then 0xea42
    else ch
  }

  /** The first position whose code is not below `ch`. */
  function LowerBound(codes: seq<uint16>, ch: uint16): (p: nat)
    ensures p <= |codes|
  {
    if codes == [] || codes[0] >= ch then 0 else 1 + LowerBound(codes[1..], ch)
  }

  function EncodePair949(extras: seq<uint16>, lead: byte, trail: byte): (r: seq<byte>)
    ensures |r| == 2
  {
    var ch := Displaced949(lead * 0x100 + trail);
    PackedHangul(extras, ch / 0x100, ch % 0x100)
  }

  /** The distance of a trail byte from the first one of its run; the runs are numbered on end. */
  function TrailIndex(c2: byte): int {
    c2 - (if c2 < 0x5b then 0x41 else if c2 < 0x7b then 0x47 else 0x4d)
  }

  function PackedHangul(extras: seq<uint16>, c1: byte, c2: byte): (r: seq<byte>)
    ensures |r| == 2
  {
    if c1 <= 0x9f then
      var i := (c1 - 0x81) * 177 + TrailIndex(c2);
      [ToByte(Quotient(i, 255) + 0x81), ToByte(Remainder(i, 255) + 1)]
    else if c1 >= 0xa1 && c2 >= 0xa1 then
      var i := (c1 - 0xa1) * 94 + c2 - 0xa1;
      var row := ToByte(i / 255 + 0x97);
      [ToByte(if row > 0x9f then row + 0x41 else row), ToByte(i % 255 + 1)]
    else PackedExtra(extras, Join(c1, c2))
  }

  /** The position of a table code; all other codes become a full-width question mark. The source reads one element
      behind the table when every code is below `ch`; nothing is found there. */
  function PackedExtra(extras: seq<uint16>, ch: uint16): (r: seq<byte>)
    ensures |r| == 2
  {
    var p := LowerBound(extras, ch);
    if p < |extras| && extras[p] == ch then [ToByte(p / 255 + 0xe7), ToByte(p % 255 + 1)] else [0x97, 0xdb]
  }

  function JisEncode1252(ch: uint16): uint16 {
    if ch <= 0x7f then ch
    else if 0x80 <= ch <= 0xbf then ch + 0x8900
    else if 0xc0 <= ch <= 0xfe then ch - 0x1f
    else if ch == 0xff then 0x89c0
    else 0
  }

  /** A 16-bit code as the one or two bytes that are written for it. */
  function CodeBytes(ch: uint16): (r: seq<byte>)
    ensures 1 <= |r| <= 2
  {
    if ch <= 0xff then [ch] else [ch / 0x100, ch % 0x100]
  }

  // ------------------------------------------------------------------------------------------ what survives

  /** The table of Cp949: sorted, and every code where only the table can encode it. */
  predicate IsExtrasTable(extras: seq<uint16>) {
    |extras| == 679 &&
    (forall i, j :: 0 <= i < j < |extras| ==> extras[i] < extras[j]) &&
    (forall i :: 0 <= i < |extras| ==> IsExtraCode(extras[i]))
  }

  predicate IsExtraCode(ch: uint16) {
    ch >= 0xa000 && 0 < ch % 0x100 && (ch / 0x100 == 0xa0 || ch % 0x100 < 0xa1)
  }

  predicate Faithful936(lead: byte, trail: byte) {
    0xa1 <= lead <= 0xf7 && 0xa1 <= trail <= 0xfe &&
    lead * 0x100 + trail !in {0xa1ba, 0xaaa2, 0xaaa3, 0xaaa4, 0xbca2}
  }

  /** The two pairs for which Cp949 writes a zero byte, which ends the string early. */
  predicate Covered949(lead: byte, trail: byte) {
    lead >= 0x80 && (lead, trail) != (0x81, 0x40) && (lead, trail) != (0x80, 0xfd)
  }

  /** Where a pair of KS X 1001 stands, rows on end. */
  function WansungIndex(lead: byte, trail: byte): int {
    (lead - 0xa1) * 94 + trail - 0xa1
  }

  predicate InWansung(lead: byte, trail: byte) {
    lead >= 0xa1 && trail >= 0xa1
  }

  /** From here on the packed lead bytes are those of the table. */
  const FIRST_IN_TABLE := 3825

  /** And from here on they are no lead bytes to the string decoder. */
  predicate BeyondLeads(lead: byte, trail: byte) {
    InWansung(lead, trail) && WansungIndex(lead, trail) >= 6120
  }

  predicate Faithful949(extras: seq<uint16>, lead: byte, trail: byte) {
    var ch := lead * 0x100 + trail;
    if lead <= 0x9f then
      lead >= 0x81 && IsExtendedTrail(trail) && ch !in {0x81c1, 0x81c3, 0x81b5}
    else if InWansung(lead, trail) then
      trail <= 0xfe && WansungIndex(lead, trail) < FIRST_IN_TABLE && ch !in {0xa1b8, 0xa1ba, 0xa3a8}
    else ch in extras
  }

  // ------------------------------------------------------------------------------------------ proofs, Cp936

  function Code(e: seq<byte>): uint16
    requires |e| == 2
  {
    Join(e[0], e[1])
  }

  function Join(hi: int, lo: int): int {
    hi * 0x100 + lo
  }

  lemma JoinSplit(hi: byte, lo: byte)
    ensures Join(hi, lo) / 0x100 == hi && Join(hi, lo) % 0x100 == lo
  {
  }

  /** The parity interleaving, the skipped trail and the jump of the lead all undo. */
  lemma UnpackPacked(c1: byte, c2: byte)
    requires InGbk(c1, c2)
    ensures var e := PackedGbk(c1, c2);
            IsLeadByte(e[0]) && 0x40 <= e[1] && UnpackedGbk(e[0], e[1]) == Join(c1, c2)
  {
    hide Pack;
    var t := c2 - 0xa1;
    assert t == 2 * (t / 2) + t % 2;
    PackBytes(c1, c2);
  }

  /** What the special cases of the decoder make of a code that was packed as `d`. */
  function Restored936(d: uint16): uint16 {
    if d == 0xbba2 then 0xa1b8
    else if d == 0xbca2 then 0xa1ba
    else if d == 0xb5a2 then 0xa3a8
    else if d == 0xaaa2 then 0xbba2
    else if d == 0xaaa3 then 0xdda2
    else if d == 0xaaa4 then 0xb5a2
    else d
  }

  /** The six special codes, and what they would unpack to. */
  lemma Specials936()
    ensures UnpackedGbk(0x81, 0x75) == 0xbba2 && UnpackedGbk(0x81, 0x77) == 0xbca2 && UnpackedGbk(0x81, 0x69) == 0xb5a2
    ensures UnpackedGbk(0x81, 0x53) == 0xaaa2 && UnpackedGbk(0x82, 0x52) == 0xaaa3 && UnpackedGbk(0x82, 0x53) == 0xaaa4
    ensures PackedGbk(0xbb, 0xa2) == [0x81, 0x75] && PackedGbk(0xbc, 0xa2) == [0x81, 0x77]
    ensures PackedGbk(0xb5, 0xa2) == [0x81, 0x69] && PackedGbk(0xaa, 0xa2) == [0x81, 0x53]
    ensures PackedGbk(0xaa, 0xa3) == [0x82, 0x52] && PackedGbk(0xaa, 0xa4) == [0x82, 0x53]
  {
    hide UnpackedGbk;
    UnpackPacked(0xbb, 0xa2);
    UnpackPacked(0xbc, 0xa2);
    UnpackPacked(0xb5, 0xa2);
    UnpackPacked(0xaa, 0xa2);
    UnpackPacked(0xaa, 0xa3);
    UnpackPacked(0xaa, 0xa4);
  }

  lemma DecodePacked936(c1: byte, c2: byte)
    requires InGbk(c1, c2)
    ensures var e := PackedGbk(c1, c2);
            IsLeadByte(e[0]) && 0x40 <= e[1] && JisDecode936(Code(e)) == Restored936(Join(c1, c2))
  {
    hide UnpackedGbk, PackedGbk;
    var e := PackedGbk(c1, c2);
    UnpackPacked(c1, c2);
    Specials936();
    JoinSplit(c1, c2);
    JoinSplit(e[0], e[1]);
    UnpackSpecial(e[0], e[1]);
    hide JisDecode936;
  }

  lemma UnpackSpecial(hi: byte, lo: byte)
    ensures JisDecode936(Join(hi, lo)) ==
            if Join(hi, lo) < 0x80 then Join(hi, lo)
            else if (hi, lo) == (0x81, 0x75) then 0xa1b8
            else if (hi, lo) == (0x81, 0x77) then 0xa1ba
            else if (hi, lo) == (0x81, 0x69) then 0xa3a8
            else if (hi, lo) == (0x81, 0x53) then 0xbba2
            else if (hi, lo) == (0x82, 0x52) then 0xdda2
            else if (hi, lo) == (0x82, 0x53) then 0xb5a2
            else UnpackedGbk(hi, lo)
  {
    hide UnpackedGbk;
    JoinSplit(hi, lo);
  }

  lemma DisplacedRestored936(lead: byte, trail: byte)
    requires lead >= 0x80
    ensures var d := Displaced936(Join(lead, trail));
            (InGbk(d / 0x100, d % 0x100) <==> InGbk(lead, trail)) && Join(d / 0x100, d % 0x100) == d &&
            (InGbk(lead, trail) ==>
               Restored936(d) > 0xff && (Restored936(d) == Join(lead, trail) <==> Faithful936(lead, trail)))
  {
    JoinSplit(lead, trail);
    var d := Displaced936(Join(lead, trail));
    assert d == 0x100 * (d / 0x100) + d % 0x100;
  }

  /** Cp936 gives a character back if and only if it is in range and not one of the five displaced codes. */
  lemma Pair936(lead: byte, trail: byte)
    requires lead >= 0x80
    ensures var e := EncodePair936(lead, trail);
            if !InGbk(lead, trail) then e == [0x5f, 0x5f]
            else IsLeadByte(e[0]) && 0x40 <= e[1] && JisDecode936(Code(e)) > 0xff &&
                 (JisDecode936(Code(e)) == Join(lead, trail) <==> Faithful936(lead, trail))
  {
    hide PackedGbk, JisDecode936, InGbk, Displaced936, Restored936, Faithful936;
    DisplacedRestored936(lead, trail);
    var d := Displaced936(Join(lead, trail));
    if InGbk(d / 0x100, d % 0x100) {
      DecodePacked936(d / 0x100, d % 0x100);
    }
  }

  // ------------------------------------------------------------------------------------------ proofs, Cp949

  lemma Division(i: nat, d: nat)
    requires d > 0
    ensures i == d * (i / d) + i % d && 0 <= i % d < d && Quotient(i, d) == i / d && Remainder(i, d) == i % d
  {
  }

  /** The number that two packed bytes stand for, counted from the lead byte `first`. */
  function Number255(first: int, hi: int, lo: int): int {
    (hi - first) * 255 + lo - 1
  }

  predicate IsExtendedTrail(c2: byte) {
    0x41 <= c2 <= 0x5a || 0x61 <= c2 <= 0x7a || 0x81 <= c2 <= 0xfd
  }

  function ExtendedIndex(c1: byte, c2: byte): int {
    (c1 - 0x81) * 177 + TrailIndex(c2)
  }

  /** The extended rows: the pair is repacked from base 177 to base 255 and back. */
  lemma Extended949(extras: seq<uint16>, c1: byte, c2: byte)
    requires 0x80 <= c1 <= 0x9f && ExtendedIndex(c1, c2) >= 0
    ensures var e := PackedHangul(extras, c1, c2);
            var i := ExtendedIndex(c1, c2);
            i <= 5488 && 0x81 <= e[0] <= 0x96 && e[1] > 0 && Number255(0x81, e[0], e[1]) == i &&
            UnpackedHangul(extras, e[0], e[1]) == Join(0x81 + i / 177, ExtendedTrail(i % 177)) &&
            0x81 <= 0x81 + i / 177 <= 0xa0 && 0x41 <= ExtendedTrail(i % 177) < 0x100
  {
    hide UnpackedHangul, PackedHangul, ExtendedTrail;
    var i := ExtendedIndex(c1, c2);
    assert 0 <= i <= 5488;
    var (q, r) := Digits255(i);
    PackExtended(extras, c1, c2, q, r);
    UnpackExtended(extras, q + 0x81, r + 1, i);
  }

  /** In front of the extended rows the position is negative, and the pair turns into one behind lead byte 81. */
  lemma BeforeExtended(extras: seq<uint16>, c1: byte, c2: byte)
    requires 0x80 <= c1 <= 0x9f && ExtendedIndex(c1, c2) < -1
    ensures PackedHangul(extras, c1, c2) == [0x81, ExtendedIndex(c1, c2) + 257]
  {
    hide PackedExtra, TrailIndex, Quotient, Remainder, ToByte;
    var i := ExtendedIndex(c1, c2);
    assert -242 <= i by { TrailIndexBounds(c2); }
    SmallNegative(i);
    ToByteKeeps(0x81);
    ToByteWraps(i + 1);
  }

  lemma TrailIndexBounds(c2: byte)
    ensures -65 <= TrailIndex(c2) <= 178
  {
  }

  lemma SmallNegative(i: int)
    requires -255 < i < 0
    ensures Quotient(i, 255) == 0 && Remainder(i, 255) == i
  {
    DivModUnique(-i, 255, 0, -i);
  }

  lemma ToByteWraps(n: int)
    requires -0x100 <= n < 0
    ensures ToByte(n) == n + 0x100
  {
  }

  function Digits255(i: nat): (d: (nat, nat))
    ensures i == 255 * d.0 + d.1 && d.1 < 255
  {
    (i / 255, i % 255)
  }

  lemma Quotients255(i: nat, q: nat, r: nat)
    requires i == 255 * q + r && r < 255
    ensures Quotient(i, 255) == i / 255 == q && Remainder(i, 255) == i % 255 == r
  {
    DivModUnique(i, 255, q, r);
  }

  lemma ToByteKeeps(n: int)
    requires 0 <= n < 0x100
    ensures ToByte(n) == n
  {
  }

  lemma PackExtended(extras: seq<uint16>, c1: byte, c2: byte, q: nat, r: nat)
    requires c1 <= 0x9f && ExtendedIndex(c1, c2) == 255 * q + r && r < 255 && q <= 21
    ensures PackedHangul(extras, c1, c2) == [q + 0x81, r + 1]
  {
    hide Quotient, Remainder, TrailIndex, PackedExtra, ToByte;
    Quotients255(ExtendedIndex(c1, c2), q, r);
    ToByteKeeps(q + 0x81);
    ToByteKeeps(r + 1);
  }

  lemma PackWansung(extras: seq<uint16>, c1: byte, c2: byte, q: nat, r: nat)
    requires InWansung(c1, c2) && WansungIndex(c1, c2) == 255 * q + r && r < 255 && q <= 35
    ensures PackedHangul(extras, c1, c2) == [if q > 8 then q + 0xd8 else q + 0x97, r + 1]
  {
    hide Quotient, Remainder, TrailIndex, PackedExtra, ToByte;
    Quotients255(WansungIndex(c1, c2), q, r);
    ToByteKeeps(q + 0x97);
    ToByteKeeps(if q > 8 then q + 0xd8 else q + 0x97);
    ToByteKeeps(r + 1);
  }

  lemma PackExtra(extras: seq<uint16>, ch: uint16, q: nat, r: nat)
    requires r < 255 && q <= 2 && LowerBound(extras, ch) == 255 * q + r
    ensures var p := LowerBound(extras, ch);
            PackedExtra(extras, ch) == if p < |extras| && extras[p] == ch then [q + 0xe7, r + 1] else [0x97, 0xdb]
  {
    hide LowerBound, Quotient, Remainder, ToByte;
    Quotients255(LowerBound(extras, ch), q, r);
    ToByteKeeps(q + 0xe7);
    ToByteKeeps(r + 1);
  }

  lemma UnpackExtended(extras: seq<uint16>, hi: byte, lo: byte, i: nat)
    requires 0x81 <= hi <= 0x96 && i <= 5609 && Number255(0x81, hi, lo) == i
    ensures UnpackedHangul(extras, hi, lo) == Join(0x81 + i / 177, ExtendedTrail(i % 177))
    ensures 0x81 <= 0x81 + i / 177 <= 0xa0 && 0x41 <= ExtendedTrail(i % 177) < 0x100
  {
    hide Pack, Quotient, Remainder;
    Division(i, 177);
    PackBytes(0x81 + i / 177, ExtendedTrail(i % 177));
  }

  lemma ExtendedGivesBack(c1: byte, c2: byte)
    requires 0x80 <= c1 <= 0x9f && ExtendedIndex(c1, c2) >= 0
    ensures var i := ExtendedIndex(c1, c2);
            Join(0x81 + i / 177, ExtendedTrail(i % 177)) == Join(c1, c2) <==> c1 >= 0x81 && IsExtendedTrail(c2)
  {
    var i := ExtendedIndex(c1, c2);
    if c1 >= 0x81 && IsExtendedTrail(c2) {
      DivModUnique(i, 177, c1 - 0x81, TrailIndex(c2));
    } else {
      assert IsExtendedTrail(ExtendedTrail(i % 177));
      JoinSplit(0x81 + i / 177, ExtendedTrail(i % 177));
      JoinSplit(c1, c2);
    }
  }

  /** The rows of KS X 1001: base 94 to base 255 and back. */
  lemma Wansung949(extras: seq<uint16>, c1: byte, c2: byte)
    requires InWansung(c1, c2) && WansungIndex(c1, c2) < FIRST_IN_TABLE
    ensures var e := PackedHangul(extras, c1, c2);
            var i := WansungIndex(c1, c2);
            (0x97 <= e[0] <= 0x9f || 0xe1 <= e[0] <= 0xe6) && e[1] > 0 &&
            UnpackedHangul(extras, e[0], e[1]) == Join(0xa1 + i / 94, 0xa1 + i % 94) &&
            0xa1 + i / 94 <= 0xc9 && 0xa1 + i % 94 <= 0xfe
  {
    hide UnpackedHangul, PackedHangul;
    var i := WansungIndex(c1, c2);
    assert 0 <= i <= 3824;
    var (q, r) := Digits255(i);
    PackWansung(extras, c1, c2, q, r);
    UnpackWansung(extras, if q > 8 then q + 0xd8 else q + 0x97, r + 1, i);
  }

  /** Further down they run into the lead bytes of the table, and at last behind all lead bytes. */
  lemma WansungOverflows(extras: seq<uint16>, c1: byte, c2: byte)
    requires InWansung(c1, c2) && WansungIndex(c1, c2) >= FIRST_IN_TABLE
    ensures var e := PackedHangul(extras, c1, c2);
            0xe7 <= e[0] <= 0xfb && e[1] > 0 && (e[0] <= 0xef <==> !BeyondLeads(c1, c2))
  {
    hide UnpackedHangul, PackedHangul;
    var i := WansungIndex(c1, c2);
    assert i <= 8930;
    var (q, r) := Digits255(i);
    PackWansung(extras, c1, c2, q, r);
  }

  lemma UnpackWansung(extras: seq<uint16>, hi: byte, lo: byte, i: nat)
    requires 0x97 <= hi <= 0x9f || 0xe0 <= hi <= 0xe6
    requires i <= 3824 && Number255(if hi <= 0x9f then 0x97 else 0xd8, hi, lo) == i
    ensures UnpackedHangul(extras, hi, lo) == Join(0xa1 + i / 94, 0xa1 + i % 94)
    ensures 0xa1 + i / 94 <= 0xc9 && 0xa1 + i % 94 <= 0xfe
  {
    hide Pack, Quotient, Remainder;
    Division(i, 94);
    PackBytes(0xa1 + i / 94, 0xa1 + i % 94);
  }

  lemma WansungGivesBack(c1: byte, c2: byte)
    requires InWansung(c1, c2)
    ensures var i := WansungIndex(c1, c2);
            Join(0xa1 + i / 94, 0xa1 + i % 94) == Join(c1, c2) <==> c2 <= 0xfe
  {
    var i := WansungIndex(c1, c2);
    if c2 <= 0xfe {
      DivModUnique(i, 94, c1 - 0xa1, c2 - 0xa1);
    }
  }

  lemma {:induction false} LowerBoundFinds(codes: seq<uint16>, ch: uint16)
    requires forall i, j :: 0 <= i < j < |codes| ==> codes[i] < codes[j]
    ensures var p := LowerBound(codes, ch);
            (p < |codes| && codes[p] == ch) <==> ch in codes
    decreases |codes|
  {
    if codes != [] && codes[0] < ch {
      LowerBoundFinds(codes[1..], ch);
      assert codes == [codes[0]] + codes[1..];
    }
  }

  /** The table: a member comes back from its position, everything else becomes a full-width question mark. */
  lemma Table949(extras: seq<uint16>, c1: byte, c2: byte)
    requires IsExtrasTable(extras) && c1 >= 0xa0 && !(c1 >= 0xa1 && c2 >= 0xa1)
    ensures var e := PackedHangul(extras, c1, c2);
            IsLeadByte(e[0]) && e[0] != 0xea && e[0] != 0x81 && e[1] > 0 &&
            UnpackedHangul(extras, e[0], e[1]) == if Join(c1, c2) in extras then Join(c1, c2) else 0xa3bf
  {
    hide LowerBound, IsExtrasTable, UnpackedHangul, PackedExtra;
    assert |extras| == 679 && forall i, j :: 0 <= i < j < |extras| ==> extras[i] < extras[j] by { TableFacts(extras); }
    LowerBoundFinds(extras, Join(c1, c2));
    var p := LowerBound(extras, Join(c1, c2));
    var (q, r) := Digits255(p);
    PackExtra(extras, Join(c1, c2), q, r);
    assert PackedHangul(extras, c1, c2) == PackedExtra(extras, Join(c1, c2));
    if Join(c1, c2) in extras {
      UnpackTable(extras, q + 0xe7, r + 1, p);
    } else {
      UnpackWansung(extras, 0x97, 0xdb, 0xda);
    }
  }

  lemma TableFacts(extras: seq<uint16>)
    requires IsExtrasTable(extras)
    ensures |extras| == 679 && forall i, j :: 0 <= i < j < |extras| ==> extras[i] < extras[j]
  {
  }

  lemma UnpackTable(extras: seq<uint16>, hi: byte, lo: byte, p: nat)
    requires 0xe7 <= hi && p < |extras| && Number255(0xe7, hi, lo) == p
    ensures UnpackedHangul(extras, hi, lo) == extras[p]
  {
  }

  lemma PlainOrSpecial949(extras: seq<uint16>, hi: byte, lo: byte)
    requires 0x81 <= hi
    ensures JisDecode949(extras, Join(hi, lo)) ==
            if (hi, lo) == (0x81, 0x75) then 0xa1b8
            else if (hi, lo) == (0x81, 0x77) then 0xa1ba
            else if (hi, lo) == (0x81, 0x69) then 0xa3a8
            else if (hi, lo) == (0xea, 0x40) then 0x81c1
            else if (hi, lo) == (0xea, 0x41) then 0x81c5
            else if (hi, lo) == (0xea, 0x42) then 0x81b5
            else UnpackedHangul(extras, hi, lo)
  {
    hide UnpackedHangul;
    JoinSplit(hi, lo);
  }

  lemma ExtendedPair949(extras: seq<uint16>, c1: byte, c2: byte)
    requires 0x80 <= c1 <= 0x9f && Covered949(c1, c2)
    ensures var e := PackedHangul(extras, c1, c2);
            0x81 <= e[0] <= 0x96 && e[1] > 0 && 0x8141 <= JisDecode949(extras, Code(e)) &&
            (Join(c1, c2) !in {0x81c1, 0x81c3, 0x81b5} ==>
               (JisDecode949(extras, Code(e)) == Join(c1, c2) <==> c1 >= 0x81 && IsExtendedTrail(c2)))
  {
    hide PackedHangul, UnpackedHangul, JisDecode949, ExtendedTrail;
    var i := ExtendedIndex(c1, c2);
    var e := PackedHangul(extras, c1, c2);
    if i >= 0 {
      Extended949(extras, c1, c2);
      ExtendedGivesBack(c1, c2);
      if c1 >= 0x81 && IsExtendedTrail(c2) { ExtendedSpecials(c1, c2); }
      PlainOrSpecial949(extras, e[0], e[1]);
    } else {
      assert i != -1;
      BeforeExtended(extras, c1, c2);
      UnpackExtended(extras, e[0], e[1], e[1] - 1);
      PlainOrSpecial949(extras, e[0], e[1]);
      BeforeIsNotExtended(c1, c2);
    }
  }

  /** The special codes of the decoder are the places of the displaced ones. */
  lemma ExtendedSpecials(c1: byte, c2: byte)
    requires 0x81 <= c1 <= 0x9f && IsExtendedTrail(c2)
    ensures ExtendedIndex(c1, c2) in {0x74, 0x76, 0x68} ==> Join(c1, c2) in {0x81c1, 0x81c3, 0x81b5}
  {
  }

  /** Where the position is -1, it is a zero byte that is written. */
  lemma UncoveredWritesZero(extras: seq<uint16>, lead: byte, trail: byte)
    requires lead >= 0x80 && !Covered949(lead, trail)
    ensures EncodePair949(extras, lead, trail) == [0x81, 0]
  {
    hide PackedExtra;
    JoinSplit(lead, trail);
    DivModUnique(1, 255, 0, 1);
    assert ExtendedIndex(lead, trail) == -1;
  }

  lemma BeforeIsNotExtended(c1: byte, c2: byte)
    requires 0x80 <= c1 <= 0x9f && ExtendedIndex(c1, c2) < -1
    ensures c1 < 0x81 || !IsExtendedTrail(c2)
  {
  }

  lemma WansungPair949(extras: seq<uint16>, c1: byte, c2: byte)
    requires IsExtrasTable(extras) && InWansung(c1, c2)
    ensures var e := PackedHangul(extras, c1, c2);
            e[1] > 0 && 0x97 <= e[0] && (IsLeadByte(e[0]) <==> !BeyondLeads(c1, c2)) &&
            (!BeyondLeads(c1, c2) ==>
               JisDecode949(extras, Code(e)) > 0xff &&
               (JisDecode949(extras, Code(e)) == Join(c1, c2) <==> c2 <= 0xfe && WansungIndex(c1, c2) < FIRST_IN_TABLE))
  {
    hide PackedHangul, UnpackedHangul, JisDecode949, IsExtrasTable;
    var e := PackedHangul(extras, c1, c2);
    if WansungIndex(c1, c2) < FIRST_IN_TABLE {
      Wansung949(extras, c1, c2);
      WansungGivesBack(c1, c2);
      PlainOrSpecial949(extras, e[0], e[1]);
    } else {
      WansungOverflows(extras, c1, c2);
      PlainOrSpecial949(extras, e[0], e[1]);
      TableGives(extras, e[0], e[1]);
      NoTableCodeInWansung(extras, c1, c2);
    }
  }

  /** What the table part of the decoder makes of a code. */
  lemma TableGives(extras: seq<uint16>, hi: byte, lo: byte)
    requires hi >= 0xe7
    ensures var ch := UnpackedHangul(extras, hi, lo);
            ch == 0xa3bf || ch in extras
  {
  }

  lemma NoTableCodeInWansung(extras: seq<uint16>, c1: byte, c2: byte)
    requires IsExtrasTable(extras) && InWansung(c1, c2)
    ensures Join(c1, c2) !in extras && forall ch <- extras :: ch >= 0xa000
    ensures WansungIndex(c1, c2) >= FIRST_IN_TABLE ==> Join(c1, c2) > 0xc900
  {
    JoinSplit(c1, c2);
    forall i | 0 <= i < |extras| ensures extras[i] != Join(c1, c2) && extras[i] >= 0xa000 {
      assert IsExtraCode(extras[i]);
    }
  }

  lemma TablePair949(extras: seq<uint16>, c1: byte, c2: byte)
    requires IsExtrasTable(extras) && c1 >= 0xa0 && !(c1 >= 0xa1 && c2 >= 0xa1)
    ensures var e := PackedHangul(extras, c1, c2);
            IsLeadByte(e[0]) && e[1] > 0 && JisDecode949(extras, Code(e)) > 0xff &&
            JisDecode949(extras, Code(e)) == if Join(c1, c2) in extras then Join(c1, c2) else 0xa3bf
  {
    hide PackedHangul, UnpackedHangul, JisDecode949, IsExtrasTable;
    var e := PackedHangul(extras, c1, c2);
    Table949(extras, c1, c2);
    PlainOrSpecial949(extras, e[0], e[1]);
  }

  /** Cp949 gives a character back if and only if its trail is regular, its row is not too far down, and it is neither
      displaced nor missing from the table; or it is 8140, which is written as 81 and a zero byte. Of the last rows the
      string decoder does not even see a pair. */
  lemma Pair949(extras: seq<uint16>, lead: byte, trail: byte)
    requires IsExtrasTable(extras) && lead >= 0x80
    ensures var e := EncodePair949(extras, lead, trail);
            (e[1] == 0 <==> !Covered949(lead, trail)) && 0x81 <= e[0] &&
            (IsLeadByte(e[0]) <==> !BeyondLeads(lead, trail)) &&
            (!BeyondLeads(lead, trail) ==>
               JisDecode949(extras, Code(e)) > 0xff &&
               (JisDecode949(extras, Code(e)) == Join(lead, trail) <==>
                Faithful949(extras, lead, trail) || (lead, trail) == (0x81, 0x40))) &&
            (BeyondLeads(lead, trail) ==> 0xf0 <= e[0] <= 0xfb && !Faithful949(extras, lead, trail))
  {
    hide PackedHangul, JisDecode949, IsExtrasTable;
    JoinSplit(lead, trail);
    if Covered949(lead, trail) {
      CoveredPair949(extras, lead, trail);
    } else {
      UncoveredWritesZero(extras, lead, trail);
      PlainOrSpecial949(extras, 0x81, 0);
      UnpackMinusOne(extras);
    }
  }

  lemma CoveredPair949(extras: seq<uint16>, lead: byte, trail: byte)
    requires IsExtrasTable(extras) && Covered949(lead, trail)
    ensures var e := EncodePair949(extras, lead, trail);
            e[1] > 0 && 0x81 <= e[0] && (IsLeadByte(e[0]) <==> !BeyondLeads(lead, trail)) &&
            (!BeyondLeads(lead, trail) ==>
               JisDecode949(extras, Code(e)) > 0xff &&
               (JisDecode949(extras, Code(e)) == Join(lead, trail) <==> Faithful949(extras, lead, trail))) &&
            (BeyondLeads(lead, trail) ==> 0xf0 <= e[0] <= 0xfb && !Faithful949(extras, lead, trail))
  {
    hide PackedHangul, JisDecode949, IsExtrasTable;
    JoinSplit(lead, trail);
    var ch := Join(lead, trail);
    var d := Displaced949(ch);
    var (c1, c2) := (d / 0x100, d % 0x100);
    JoinSplit(c1, c2);
    if c1 <= 0x9f {
      ExtendedPair949(extras, c1, c2);
    } else if InWansung(c1, c2) {
      WansungPair949(extras, c1, c2);
      if BeyondLeads(c1, c2) { WansungOverflows(extras, c1, c2); }
    } else {
      TablePair949(extras, c1, c2);
    }
  }

  // ------------------------------------------------------------------------------------------ what Cp949 decodes to

  lemma {:induction false} BitOrBounds(x: nat, y: nat, k: nat)
    requires x < Pow2(k) && y < Pow2(k)
    ensures x <= BitOr(x, y) < Pow2(k)
    decreases k
  {
    if x > 0 && y > 0 {
      assert x / 2 < Pow2(k - 1) && y / 2 < Pow2(k - 1);
      BitOrBounds(x / 2, y / 2, k - 1);
    }
  }

  lemma Pow2Of16()
    ensures Pow2(16) == 0x1_0000
  {
    Pow2Of8();
    assert Pow2(10) == 4 * Pow2(8);
    assert Pow2(12) == 4 * Pow2(10);
    assert Pow2(14) == 4 * Pow2(12);
  }

  lemma PackAtLeast(hi: int, lo: int)
    ensures Pack(hi, lo) >= hi * 0x100 % 0x1_0000
  {
    Pow2Of16();
    hide Pow2, BitOr;
    BitOrBounds(hi * 0x100 % 0x1_0000, lo % 0x1_0000, 16);
  }

  /** A byte that is no lead byte to the string decoder decodes as two. */
  lemma StrayByte949(extras: seq<uint16>, b: byte)
    requires 0x80 <= b && !IsLeadByte(b)
    ensures JisDecode949(extras, b) >= 0xc800
  {
    hide Pack, Quotient, Remainder;
    var i := (0 - 0x81) * 255 + b - 1;
    StrayQuotient(i);
    PackAtLeast(0x81 + Quotient(i, 177), ExtendedTrail(Remainder(i, 177)));
    assert b / 0x100 == 0 && b % 0x100 == b;
  }

  lemma StrayQuotient(i: int)
    requires -32768 <= i <= -32641
    ensures Quotient(i, 177) == -184 || Quotient(i, 177) == -185
  {
    if i <= -32745 {
      DivModUnique(-i, 177, 185, -i - 32745);
    } else {
      DivModUnique(-i, 177, 184, -i - 32568);
    }
  }

  /** The code of a pair decodes as a pair behind 8140; only a lead byte in front of the terminator decodes as 8140. */
  lemma PairStaysPair949(extras: seq<uint16>, hi: byte, lo: byte)
    requires IsExtrasTable(extras) && IsLeadByte(hi)
    ensures JisDecode949(extras, Join(hi, lo)) >= if lo == 0 then 0x8140 else 0x8141
  {
    hide UnpackedHangul, IsExtrasTable, JisDecode949, ExtendedTrail;
    PlainOrSpecial949(extras, hi, lo);
    if hi >= 0xe7 {
      TableGives(extras, hi, lo);
      NoTableCodeInWansung(extras, 0xa1, 0xa1);
    } else if hi <= 0x96 {
      if (hi, lo) == (0x81, 0) { UnpackMinusOne(extras); }
      else { UnpackExtended(extras, hi, lo, Number255(0x81, hi, lo)); }
    } else {
      if (hi, lo) == (0x97, 0) { UnpackMinusOne(extras); }
      else { UnpackWansung(extras, hi, lo, Number255(if hi <= 0x9f then 0x97 else 0xd8, hi, lo)); }
    }
  }

  /** A lead byte in front of the terminator. */
  lemma UnpackMinusOne(extras: seq<uint16>)
    ensures UnpackedHangul(extras, 0x81, 0) == 0x8140 && UnpackedHangul(extras, 0x97, 0) == 0xa1a0
  {
    hide Pack;
    PackBytes(0x81, 0x40);
    PackBytes(0xa1, 0xa0);
  }

  // ------------------------------------------------------------------------------------------ proofs, Cp1252

  /** Every byte is encoded so that the decoder finds it again. */
  lemma Byte1252(b: byte)
    ensures var e := CodeBytes(JisEncode1252(b));
            (|e| == 1 ==> !IsLeadByte(e[0]) && JisDecode1252(e[0]) == b) &&
            (|e| == 2 ==> IsLeadByte(e[0]) && JisDecode1252(Code(e)) == b) &&
            (b > 0 ==> forall i :: 0 <= i < |e| ==> e[i] > 0)
  {
  }

  /** Italic codes are exactly undone, and decode as the upright character. */
  lemma ItalicRoundTrip(ch: uint16)
    requires ch <= 0xff && ch != 0x20
    ensures IsItalic(Italicise(ch)) && GetItalic(Italicise(ch)) == ch
    ensures JisDecode1252(Italicise(ch)) == JisDecode1252(ch)
  {
    var italic := Italicise(ch);
    assert GetItalic(italic) == ch;
    assert JisDecode1252(italic) == JisDecode1252(GetItalic(italic));
  }

  /** What the decoder gives for every code. Three ranges are italic, one of them an italic form of the codes behind
      lead byte 89; everything else outside the four plain ranges decodes to nothing. */
  lemma Decoded1252(ch: uint16)
    ensures JisDecode1252(ch) ==
            if ch <= 0x7f then ch
            else if 0xa1 <= ch <= 0xdf then ch + 0x1f
            else if 0x831f <= ch <= 0x837f then ch - 0x831f
            else if 0x8380 <= ch <= 0x839f then ch - 0x8320
            else if 0x83c1 <= ch <= 0x83ff then ch - 0x8301
            else if 0x8780 <= ch <= 0x87bf then ch - 0x8700
            else if 0x8980 <= ch <= 0x89bf then ch - 0x8900
            else if ch == 0x87c0 || ch == 0x89c0 then 0xff
            else 0
  {
    hide JisDecode1252;
    if IsItalic(ch) {
      var upright := GetItalic(ch);
      ItalicDecodes(ch);
      PlainDecodes(upright);
    } else {
      PlainDecodes(ch);
    }
  }

  lemma ItalicDecodes(ch: uint16)
    requires IsItalic(ch)
    ensures !IsItalic(GetItalic(ch)) && JisDecode1252(ch) == JisDecode1252(GetItalic(ch))
  {
  }

  lemma PlainDecodes(ch: uint16)
    requires !IsItalic(ch)
    ensures JisDecode1252(ch) ==
            if ch <= 0x7f then ch
            else if 0xa1 <= ch <= 0xdf then ch + 0x1f
            else if 0x8980 <= ch <= 0x89bf then ch - 0x8900
            else if ch == 0x89c0 then 0xff
            else 0
  {
  }

  /** What is no byte of Cp1252 has no code. */
  lemma NoCode1252(ch: uint16)
    ensures JisEncode1252(ch) == 0 <==> ch == 0 || ch > 255
  {
  }

  lemma WithinRow(i: nat)
    requires i < 255
    ensures Quotient(i, 255) == 0 && Remainder(i, 255) == i
  {
  }

  /** The first row behind lead byte 81. */
  lemma PackedInFirstRow(extras: seq<uint16>, t: byte, i: nat)
    requires i == TrailIndex(t) < 255
    ensures PackedHangul(extras, 0x81, t) == [0x81, i + 1]
  {
    hide PackedExtra, TrailIndex, Quotient, Remainder;
    WithinRow(i);
  }

  /** The codes that the table has to hold are those of two bytes, none of them zero, that are neither extended
      syllables nor in KS X 1001; only for them the encoder looks into the table. */
  lemma TableCodes(extras: seq<uint16>, lead: byte, trail: byte)
    requires lead >= 0x80
    ensures IsExtraCode(Join(lead, trail)) <==>
            trail > 0 && lead >= 160 && (lead == 160 || trail <= 160)
    ensures IsExtraCode(Join(lead, trail)) ==>
              PackedHangul(extras, lead, trail) == PackedExtra(extras, Join(lead, trail))
  {
    hide PackedExtra;
    JoinSplit(lead, trail);
  }
}
