/** Cutting and reversing lists of anything. */
module Sequences {
  predicate EndsWith<T(==)>(s: seq<T>, tail: seq<T>) {
    |tail| <= |s| && s[|s| - |tail|..] == tail
  }

  function Reverse<T>(xs: seq<T>): (r: seq<T>)
    ensures |r| == |xs|
    ensures forall i :: 0 <= i < |xs| ==> r[i] == xs[|xs| - 1 - i]
  {
    if xs == [] then [] else [xs[|xs| - 1]] + Reverse(xs[..|xs| - 1])
  }

  /** A list without its element at k. */
  function Without<T>(s: seq<T>, k: nat): (r: seq<T>)
    requires k < |s|
    ensures |r| == |s| - 1
    ensures forall j :: 0 <= j < k ==> r[j] == s[j]
    ensures forall j :: k <= j < |r| ==> r[j] == s[j + 1]
    ensures forall j :: k < j < |s| ==> r[j - 1] == s[j]
  {
    s[..k] + s[k + 1..]
  }
}
