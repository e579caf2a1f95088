/** Searching and cutting strings, as the template code does. */
module TplText {

  predicate Occurs(s: string, t: string, k: int) {
    0 <= k && k + |t| <= |s| && s[k..k + |t|] == t
  }

  /** The first place from `from` on where `t` occurs, or -1. */
  function IndexOf(s: string, t: string, from: nat): (r: int)
    ensures r == -1 || (from <= r && Occurs(s, t, r))
    ensures forall k :: from <= k && (r < 0 || k < r) ==> !Occurs(s, t, k)
    decreases |s| - from
  {
    if from + |t| > |s| then -1
    else if s[from..from + |t|] == t then from
    else IndexOf(s, t, from + 1)
  }

  lemma FirstOccurrence(s: string, t: string, from: nat, k: nat)
    requires from <= k && Occurs(s, t, k) && forall j :: from <= j < k ==> !Occurs(s, t, j)
    ensures IndexOf(s, t, from) == k
  {
    var r := IndexOf(s, t, from);
  }

  /** What is left after dropping the first n characters. */
  function Mid(s: string, n: nat): string {
    if n <= |s| then s[n..] else ""
  }

  /** The text up to the first blank. */
  function Keyword(content: string): (w: string)
    ensures w <= content && ' ' !in w
    ensures |w| < |content| ==> content[|w|] == ' '
  {
    if content == "" || content[0] == ' ' then "" else [content[0]] + Keyword(content[1..])
  }

  lemma {:induction false} KeywordIs(w: string, rest: string)
    requires ' ' !in w && (rest == "" || rest[0] == ' ')
    ensures Keyword(w + rest) == w
  {
    if w == "" { assert w + rest == rest; }
    else {
      assert (w + rest)[1..] == w[1..] + rest;
      KeywordIs(w[1..], rest);
    }
  }
}
