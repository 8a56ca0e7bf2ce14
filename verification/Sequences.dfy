/** Reversing a sequence. */
module Sequences {

  function Reverse<T>(s: seq<T>): (t: seq<T>)
    ensures |t| == |s| && forall i :: 0 <= i < |s| ==> t[i] == s[|s| - 1 - i]
  {
    seq(|s|, i requires 0 <= i < |s| => s[|s| - 1 - i])
  }

  lemma ReverseCat<T>(a: seq<T>, b: seq<T>)
    ensures Reverse(a + b) == Reverse(b) + Reverse(a)
  {
  }
}
