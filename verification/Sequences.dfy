/** Regrouping of concatenations. */
module Sequences {

  lemma Assoc<T>(a: seq<T>, b: seq<T>, c: seq<T>)
    ensures a + b + c == a + (b + c)
  {
  }

  lemma AssocFour<T>(a: seq<T>, b: seq<T>, c: seq<T>, d: seq<T>)
    ensures a + b + c + d == a + (b + c + d) == a + (b + (c + d))
  {
  }

  /** Two neighbouring stretches are one. */
  lemma Stretches<T>(front: seq<T>, s: seq<T>, i: nat, j: nat, k: nat)
    requires i <= j <= k <= |s|
    ensures front + s[i..j] + s[j..k] == front + s[i..k]
  {
    assert s[i..j] + s[j..k] == s[i..k];
  }

  /** The next `n` elements behind the first `p`, and the rest. */
  lemma Slices<T>(s: seq<T>, p: nat, n: nat)
    requires p + n <= |s|
    ensures s[p..][n..] == s[p + n..] && s[p..][..n] == s[p..p + n]
  {
  }
}
