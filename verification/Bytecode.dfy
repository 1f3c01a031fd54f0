/** 32-bit integers in bytecode: alldefs.hpp and IntToBytecode. */
module Bytecode {
  import opened Bytes

  type int32 = v: int | -0x8000_0000 <= v < 0x8000_0000

  /** Little-endian bytes of `v`; the shifts of the source are arithmetic, so they floor. */
  function I32Bytes(v: int32): (bytes: seq<byte>)
    ensures |bytes| == 4
  {
    [v % 0x100, v / 0x100 % 0x100, v / 0x1_0000 % 0x100, v / 0x100_0000 % 0x100]
  }

  method AppendI32(dest: seq<byte>, v: int32) returns (result: seq<byte>)
    ensures result == dest + I32Bytes(v)
  {
    var dpos := |dest|;
    result := dest + seq(4, _ => v % 0x100);
    result := result[dpos + 1 := v / 0x100 % 0x100];
    result := result[dpos + 2 := v / 0x1_0000 % 0x100];
    result := result[dpos + 3 := v / 0x100_0000 % 0x100];
  }

  function ReadI32(src: seq<byte>): int32 {
    var b3 := At(src, 3);
    At(src, 0) + At(src, 1) * 0x100 + At(src, 2) * 0x1_0000 + (if b3 < 0x80 then b3 else b3 - 0x100) * 0x100_0000
  }

  lemma ShiftTwice(v: int)
    ensures v / 0x100 / 0x100 == v / 0x1_0000
  {
  }

  lemma ReadBackI32(v: int32, rest: seq<byte>)
    ensures ReadI32(I32Bytes(v) + rest) == v
  {
    var (q1, q2, q3) := (v / 0x100, v / 0x1_0000, v / 0x100_0000);
    assert q1 / 0x100 == q2 by { ShiftTwice(v); }
    assert q2 / 0x100 == q3 by { ShiftTwice(v / 0x100); ShiftTwice(v); assert v / 0x100_0000 == q1 / 0x1_0000; }
    var b := I32Bytes(v);
    assert b == [v % 0x100, q1 % 0x100, q2 % 0x100, q3 % 0x100];
    assert -0x80 <= q3 < 0x80;
    assert At(b + rest, 0) == b[0] && At(b + rest, 1) == b[1] && At(b + rest, 2) == b[2] && At(b + rest, 3) == b[3];
  }

  function IntToBytecode(v: int32): seq<byte> {
    [0x24, 0xff] + I32Bytes(v)
  }
}
