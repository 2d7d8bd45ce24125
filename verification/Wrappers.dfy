/** Small concepts that several modules use: an optional value, powers of two, and taking one element
    out of a sequence. */
module Wrappers {

  datatype Option<+T> = None | Some(value: T)

  function Pow2(n: nat): (p: nat)
    ensures p > 0
  {
    if n == 0 then 1 else 2 * Pow2(n - 1)
  }

  /** s without its element at p. */
  function Cut<T>(s: seq<T>, p: nat): seq<T>
    requires p < |s|
  {
    s[..p] + s[p + 1..]
  }

  lemma CutAt<T>(s: seq<T>, p: nat)
    requires p < |s|
    ensures |Cut(s, p)| == |s| - 1
    ensures forall i :: 0 <= i < p ==> Cut(s, p)[i] == s[i]
    ensures forall i :: p <= i < |s| - 1 ==> Cut(s, p)[i] == s[i + 1]
  {
  }

  lemma CutTail<T>(s: seq<T>, p: nat)
    requires 0 < p < |s|
    ensures Cut(s, p) == [s[0]] + Cut(s[1..], p - 1)
  {
  }

  lemma CutRest<T>(s: seq<T>, p: nat)
    requires p < |s|
    ensures Cut(s, p)[p..] == s[p + 1..]
  {
  }

  lemma CutFirst<T>(s: seq<T>)
    requires s != []
    ensures Cut(s, 0) == s[1..]
  {
  }
}
