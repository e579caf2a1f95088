/** White space and decimal places, as the templates, the console and the time keys use them. */
module Ascii {
  predicate IsSpace(c: char) { c == ' ' || '\t' <= c <= '\r' }

  function Pow10(n: nat): (p: nat)
    ensures p > 0
  {
    if n == 0 then 1 else 10 * Pow10(n - 1)
  }
}
