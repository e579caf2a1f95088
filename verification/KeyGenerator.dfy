/** The generator of key functions: from a key pattern to the bodies of the full-key and prefix functions. */
module KeyGenerator {
  import opened Bytes
  import opened Keys
  import opened TplText

  /** A term of a generated body; the terms of a body are concatenated. */
  datatype Term = PrefixConstant | SlashLiteral | Param(index: nat)

  /** What a term stands for, given a key prefix and arguments; a parameter that is missing is empty. */
  function TermValue(t: Term, prefix: Bytes, args: seq<Bytes>): Bytes {
    match t
    case PrefixConstant => prefix + [SLASH]
    case SlashLiteral => [SLASH]
    case Param(i) => if i < |args| then args[i] else []
  }

  /** What a generated body returns. */
  function Eval(body: seq<Term>, prefix: Bytes, args: seq<Bytes>): Bytes {
    if body == [] then [] else TermValue(body[0], prefix, args) + Eval(body[1..], prefix, args)
  }

  /** The parts of a body with a slash term between each two. */
  function Slashed(parts: seq<Term>): (r: seq<Term>)
    ensures forall t :: t in r ==> t == SlashLiteral || t in parts
  {
    if |parts| <= 1 then parts else [parts[0], SlashLiteral] + Slashed(parts[1..])
  }

  function Params(n: nat): (r: seq<Term>)
    ensures |r| == n
  {
    seq(n, i requires 0 <= i < n => Param(i))
  }

  // ------------------------------------------------------------------
  // The pattern's segments
  // ------------------------------------------------------------------

  /** The names in braces, left to right; empty braces name nothing. */
  function Captures(pattern: string): seq<string>
    decreases |pattern|
  {
    if pattern == "" then []
    else
      var close := IndexOf(pattern, "}", 1);
      if pattern[0] == '{' && close > 1 then [pattern[1..close]] + Captures(pattern[close + 1..])
      else Captures(pattern[1..])
  }

  /** A key pattern that names these segments. */
  function PatternOf(names: seq<string>): string {
    if names == [] then ""
    else "{" + names[0] + "}" + (if |names| == 1 then "" else "/" + PatternOf(names[1..]))
  }

  lemma {:induction false} CapturesInvertPattern(names: seq<string>)
    requires forall i :: 0 <= i < |names| ==> names[i] != "" && '}' !in names[i]
    ensures Captures(PatternOf(names)) == names
  {
    if names != [] {
      hide Captures;
      var rest := if |names| == 1 then "" else "/" + PatternOf(names[1..]);
      BracesCaptured(names[0], rest);
      NothingCaptured(PatternOf(names[1..]));
      CapturesInvertPattern(names[1..]);
      assert names == [names[0]] + names[1..];
    } else {
      NothingCaptured("");
    }
  }

  /** Braces around nothing name nothing, nor does an opening brace that is never closed. */
  lemma NothingInBraces(s: string)
    ensures Captures("{}" + s) == Captures(s)
    ensures '}' !in s ==> Captures("{" + s) == Captures(s)
  {
    var t, u := "{}" + s, "{" + s;
    assert t[1..2] == "}" && t[1..] == "}" + s && ("}" + s)[1..] == s && u[1..] == s;
    assert IndexOf(t, "}", 1) == 1;
    if '}' !in s {
      forall k | 1 <= k < |u| ensures !Occurs(u, "}", k) { assert u[k] == s[k - 1] && u[k..k + 1][0] == u[k]; }
    }
  }

  lemma BracesCaptured(n: string, rest: string)
    requires n != "" && '}' !in n
    ensures Captures("{" + n + "}" + rest) == [n] + Captures(rest)
  {
    hide IndexOf;
    var s := "{" + n + "}" + rest;
    assert s[1..|n| + 1] == n && s[|n| + 1..|n| + 2] == "}" && s[|n| + 2..] == rest;
    forall j | 1 <= j < |n| + 1 ensures !Occurs(s, "}", j) {
      assert s[j] == n[j - 1] && s[j..j + 1][0] == s[j];
    }
    FirstOccurrence(s, "}", 1, |n| + 1);
  }

  /** Slashes name nothing. */
  lemma NothingCaptured(s: string)
    ensures Captures("/" + s) == Captures(s) && Captures("") == []
  {
    assert ("/" + s)[1..] == s;
  }

  // ------------------------------------------------------------------
  // The bodies
  // ------------------------------------------------------------------

  method BuildKeyFunctions(keyPattern: string) returns (full: seq<Term>, overloads: seq<seq<Term>>)
    ensures full == Slashed(Params(|Captures(keyPattern)|))
    ensures |overloads| == |Captures(keyPattern)| + 1 && overloads[0] == [PrefixConstant]
    ensures forall i :: 1 <= i < |overloads| ==> overloads[i] == [PrefixConstant] + Slashed(Params(i)) + [SlashLiteral]
  {
    var segments := [];
    var rest := keyPattern;
    while rest != ""
      invariant segments + Captures(rest) == Captures(keyPattern)
      decreases |rest|
    {
      var close := IndexOf(rest, "}", 1);
      if rest[0] == '{' && close > 1 {
        segments := segments + [rest[1..close]];
        rest := rest[close + 1..];
      } else {
        rest := rest[1..];
      }
    }
    var bodyParts := [];
    for j := 0 to |segments|
      invariant bodyParts == Params(j)
    {
      bodyParts := bodyParts + [Param(j)];
    }
    full := Slashed(bodyParts);
    overloads := [];
    for i := 0 to |segments| + 1
      invariant |overloads| == i && (i > 0 ==> overloads[0] == [PrefixConstant])
      invariant forall k :: 1 <= k < i ==> overloads[k] == [PrefixConstant] + Slashed(Params(k)) + [SlashLiteral]
    {
      if i == 0 {
        overloads := overloads + [[PrefixConstant]];
      } else {
        var poParts := [];
        for j := 0 to i
          invariant poParts == Params(j)
        {
          poParts := poParts + [Param(j)];
        }
        overloads := overloads + [[PrefixConstant] + Slashed(poParts) + [SlashLiteral]];
      }
    }
  }

  lemma {:induction false} EvalAppend(a: seq<Term>, b: seq<Term>, prefix: Bytes, args: seq<Bytes>)
    ensures Eval(a + b, prefix, args) == Eval(a, prefix, args) + Eval(b, prefix, args)
  {
    hide TermValue;
    if a == [] { assert a + b == b; }
    else {
      assert (a + b)[0] == a[0] && (a + b)[1..] == a[1..] + b;
      EvalAppend(a[1..], b, prefix, args);
    }
  }

  /** The slashed parameters from j to n evaluate to their arguments, joined. */
  lemma {:induction false} SlashedEval(prefix: Bytes, args: seq<Bytes>, j: nat, n: nat)
    requires j < n <= |args|
    ensures Eval(Slashed(Params(n)[j..]), prefix, args) == Join(args[j..n])
    decreases n - j
  {
    var parts := Params(n)[j..];
    assert parts[0] == Param(j) && args[j..n][0] == args[j];
    if n - j == 1 {
      assert parts == [Param(j)];
      assert Eval(parts, prefix, args) == args[j] + Eval([], prefix, args);
    } else {
      SlashedEval(prefix, args, j + 1, n);
      assert parts[1..] == Params(n)[j + 1..] && args[j..n][1..] == args[j + 1..n];
      EvalAppend([Param(j), SlashLiteral], Slashed(parts[1..]), prefix, args);
      assert [Param(j), SlashLiteral][1..] == [SlashLiteral] && [SlashLiteral][1..] == [];
    }
  }

  lemma PrefixEval(prefix: Bytes, args: seq<Bytes>)
    ensures Eval([PrefixConstant], prefix, args) == prefix + [SLASH] == ScanPrefix([prefix])
    ensures Eval([SlashLiteral], prefix, args) == [SLASH]
  {
    assert [PrefixConstant][1..] == [] && [SlashLiteral][1..] == [];
  }

  /** The generated full-key function joins prefix and arguments. */
  lemma FullBodyIsKey(prefix: Bytes, args: seq<Bytes>)
    requires args != []
    ensures Eval([PrefixConstant] + Slashed(Params(|args|)), prefix, args) == Join([prefix] + args)
  {
    SlashedEval(prefix, args, 0, |args|);
    assert Params(|args|)[0..] == Params(|args|) && args[0..|args|] == args;
    EvalAppend([PrefixConstant], Slashed(Params(|args|)), prefix, args);
    PrefixEval(prefix, args);
    assert ([prefix] + args)[1..] == args;
  }

  /** The generated prefix function of i arguments returns the scan prefix of the first i segments. */
  lemma OverloadBodyIsScan(prefix: Bytes, args: seq<Bytes>)
    ensures var body := if args == [] then [PrefixConstant]
                        else [PrefixConstant] + Slashed(Params(|args|)) + [SlashLiteral];
            Eval(body, prefix, args) == ScanPrefix([prefix] + args)
  {
    PrefixEval(prefix, args);
    if args != [] {
      FullBodyIsKey(prefix, args);
      EvalAppend([PrefixConstant] + Slashed(Params(|args|)), [SlashLiteral], prefix, args);
    } else {
      assert [prefix] + args == [prefix];
    }
  }
}
