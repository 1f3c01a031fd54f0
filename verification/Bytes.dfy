/** Bytes as the C++ sources see them, and the option type shared by the other modules. */
module Bytes {

  type byte = b: int | 0 <= b < 256

  datatype Option<+T> = None | Some(value: T)

  /** The byte at offset `i`; a read past the end yields the terminating zero. */
  function At(s: seq<byte>, i: nat): byte {
    if i < |s| then s[i] else 0
  }

  /** The pointer `s + k`. */
  function Drop(s: seq<byte>, k: nat): (r: seq<byte>)
    ensures |r| == if k <= |s| then |s| - k else 0
  {
    if k <= |s| then s[k..] else []
  }

  /** The bytes from `i` up to `j`, as far as there are any. */
  function Between(s: seq<byte>, i: nat, j: int): seq<byte> {
    if i <= j <= |s| then s[i..j] else Drop(s, i)
  }

  lemma AtDrop(s: seq<byte>, k: nat, i: nat)
    ensures At(Drop(s, k), i) == At(s, k + i)
  {
  }

  lemma DropDrop(s: seq<byte>, k: nat, i: nat)
    ensures Drop(Drop(s, k), i) == Drop(s, k + i)
  {
  }

  lemma DropConcat(a: seq<byte>, b: seq<byte>, i: nat)
    ensures Drop(a + b, |a| + i) == Drop(b, i)
  {
  }
}
