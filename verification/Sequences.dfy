/** Operations on sequences that several modules share. */
module Sequences {

  /** All elements but the one at position `k`. */
  function Without<T>(s: seq<T>, k: nat): (r: seq<T>)
    requires k < |s|
    ensures |r| == |s| - 1
  {
    s[..k] + s[k + 1..]
  }

  lemma WithoutAt<T>(s: seq<T>, k: nat)
    requires k < |s|
    ensures forall i :: 0 <= i < |Without(s, k)| ==> Without(s, k)[i] == s[if i < k then i else i + 1]
  {}

  /** The first `n` elements, or all of them when there are fewer. */
  function Take<T>(n: int, s: seq<T>): seq<T> {
    if n < 0 then [] else if n <= |s| then s[..n] else s
  }
}
