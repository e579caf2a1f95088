/** The expression grammar: what the recursive-descent parser makes of the text that remains. */
module TplExpr {
  import opened Ascii
  import opened TplAst

  // ------------------------------------------------------------------
  // Characters (ASCII classes) and words
  // ------------------------------------------------------------------

  predicate IsDigit(c: char) { '0' <= c <= '9' }
  predicate IsLetter(c: char) { 'a' <= c <= 'z' || 'A' <= c <= 'Z' }
  /** Letters, digits, underscore: what an identifier goes on with. */
  predicate IsWord(c: char) { IsLetter(c) || IsDigit(c) || c == '_' }

  function SkipSpace(s: string): (r: string)
    ensures |r| <= |s|
    ensures r == "" || !IsSpace(r[0])
    ensures s == "" || !IsSpace(s[0]) ==> r == s
  {
    if s != "" && IsSpace(s[0]) then SkipSpace(s[1..]) else s
  }

  /** A literal word or symbol; a word must not go on. */
  predicate Matches(s: string, t: string)
    requires t != ""
  {
    t <= s && !(IsLetter(t[0]) && |s| > |t| && IsWord(s[|t|]))
  }

  /** Whether `t` comes next, and what remains; leading space is gone either way. */
  function MatchStr(s: string, t: string): (r: (bool, string))
    requires t != ""
    ensures |r.1| <= |s| && (r.0 ==> |r.1| < |s|)
  {
    var u := SkipSpace(s);
    if Matches(u, t) then (true, u[|t|..]) else (false, u)
  }

  /** The longest run of characters at the front that satisfy a class. */
  function WordLength(s: string): (n: nat)
    ensures n <= |s|
  {
    if s != "" && IsWord(s[0]) then 1 + WordLength(s[1..]) else 0
  }

  function ReadIdentifier(s: string): (r: (string, string))
    ensures |r.1| <= |s|
    ensures s != "" && IsWord(s[0]) ==> |r.1| < |s|
  {
    var u := SkipSpace(s);
    var n := WordLength(u);
    (u[..n], u[n..])
  }

  /** A string literal past its opening quote; an unclosed one runs to the end. */
  function ReadString(s: string, quote: char): (r: (string, string))
    ensures |r.1| <= |s|
  {
    if s == "" then ("", "")
    else if s[0] == quote then ("", s[1..])
    else if s[0] == '\\' && |s| > 1 then
      var (t, r) := ReadString(s[2..], quote);
      ([Unescape(s[1])] + t, r)
    else
      var (t, r) := ReadString(s[1..], quote);
      ([s[0]] + t, r)
  }

  function Unescape(c: char): char {
    if c == 'n' then '\n' else if c == 't' then '\t' else c
  }

  function NumberLength(s: string): (n: nat)
    ensures n <= |s|
  {
    if s != "" && (IsDigit(s[0]) || s[0] == '.') then 1 + NumberLength(s[1..]) else 0
  }

  function DigitsValue(s: string): int {
    if s == "" then 0 else 10 * DigitsValue(s[..|s| - 1]) + (s[|s| - 1] as int - '0' as int)
  }

  const INT64_MAX: int := 0x7FFF_FFFF_FFFF_FFFF

  /** A signed decimal as a 64-bit integer; zero when out of range. */
  function ToLongLong(s: string): int {
    var v := if s != "" && s[0] == '-' then -DigitsValue(s[1..]) else DigitsValue(s);
    if -INT64_MAX - 1 <= v <= INT64_MAX then v else 0
  }

  function CountDots(s: string): nat {
    if s == "" then 0 else (if s[0] == '.' then 1 else 0) + CountDots(s[1..])
  }

  function WithoutDots(s: string): string {
    if s == "" then "" else (if s[0] == '.' then "" else [s[0]]) + WithoutDots(s[1..])
  }

  /** Digits after the decimal point. */
  function FractionLength(s: string): nat {
    if s == "" then 0 else if s[0] == '.' then |s| - 1 else FractionLength(s[1..])
  }

  /** A decimal with one point as a number; zero when malformed. */
  function ToDouble(s: string): real {
    var negative := s != "" && s[0] == '-';
    var digits := if negative then s[1..] else s;
    if CountDots(digits) != 1 then 0.0
    else
      var v := DigitsValue(WithoutDots(digits)) as real / Pow10(FractionLength(digits)) as real;
      if negative then -v else v
  }

  function NumberLiteral(text: string): Expr {
    if '.' in text then Literal(Double(ToDouble(text))) else Literal(Int(ToLongLong(text)))
  }

  // ------------------------------------------------------------------
  // The grammar, level by level; each returns what remains
  // ------------------------------------------------------------------

  function ParseOr(s: string): (r: (Expr, string))
    ensures |r.1| <= |s|
    decreases |s|, 20
  {
    var (left, rest) := ParseAnd(s);
    OrTail(left, rest)
  }

  function OrTail(left: Expr, s: string): (r: (Expr, string))
    ensures |r.1| <= |s|
    decreases |s|, 19
  {
    var (found, rest) := MatchStr(s, "or");
    if !found then (left, rest)
    else
      var (right, rest') := ParseAnd(rest);
      OrTail(BinOp("or", left, right), rest')
  }

  function ParseAnd(s: string): (r: (Expr, string))
    ensures |r.1| <= |s|
    decreases |s|, 18
  {
    var (left, rest) := ParseNot(s);
    AndTail(left, rest)
  }

  function AndTail(left: Expr, s: string): (r: (Expr, string))
    ensures |r.1| <= |s|
    decreases |s|, 17
  {
    var (found, rest) := MatchStr(s, "and");
    if !found then (left, rest)
    else
      var (right, rest') := ParseNot(rest);
      AndTail(BinOp("and", left, right), rest')
  }

  function ParseNot(s: string): (r: (Expr, string))
    ensures |r.1| <= |s|
    decreases |s|, 16
  {
    var (found, rest) := MatchStr(s, "not");
    if !found then ParseComparison(rest)
    else
      var (operand, rest') := ParseNot(rest);
      (UnaryNot(operand), rest')
  }

  const COMPARISONS: seq<string> := ["==", "!=", "<=", ">=", "<", ">"]

  /** The first comparison, from the i-th on, that comes next; the count when none does. */
  function FindComparison(s: string, i: nat): (k: nat)
    requires i <= |COMPARISONS|
    ensures i <= k <= |COMPARISONS|
    ensures k < |COMPARISONS| ==> Matches(s, COMPARISONS[k])
    decreases |COMPARISONS| - i
  {
    if i == |COMPARISONS| || Matches(s, COMPARISONS[i]) then i else FindComparison(s, i + 1)
  }

  function ParseComparison(s: string): (r: (Expr, string))
    ensures |r.1| <= |s|
    decreases |s|, 15, 1
  {
    var (left, rest) := ParseAddSub(s);
    var u := SkipSpace(rest);
    var k := FindComparison(u, 0);
    if k < |COMPARISONS| then
      var (right, rest') := ParseAddSub(u[|COMPARISONS[k]|..]);
      (BinOp(COMPARISONS[k], left, right), rest')
    else MembershipTail(left, u)
  }

  /** `not in`, `in`, or the end of a comparison. */
  function MembershipTail(left: Expr, u: string): (r: (Expr, string))
    ensures |r.1| <= |u|
    decreases |u|, 15, 0
  {
    if Matches(u, "not in") then
      var (right, rest) := ParseAddSub(u[6..]);
      (UnaryNot(BinOp("in", left, right)), rest)
    else if Matches(u, "in") then
      var (right, rest) := ParseAddSub(u[2..]);
      (BinOp("in", left, right), rest)
    else (left, u)
  }

  function ParseAddSub(s: string): (r: (Expr, string))
    ensures |r.1| <= |s|
    decreases |s|, 14
  {
    var (left, rest) := ParseMulDiv(s);
    AddTail(left, rest)
  }

  function AddTail(left: Expr, s: string): (r: (Expr, string))
    ensures |r.1| <= |s|
    decreases |s|, 13
  {
    var u := SkipSpace(s);
    if Matches(u, "+") then
      var (right, rest) := ParseMulDiv(u[1..]);
      AddTail(BinOp("+", left, right), rest)
    else if Matches(u, "-") then
      var (right, rest) := ParseMulDiv(u[1..]);
      AddTail(BinOp("-", left, right), rest)
    else (left, u)
  }

  function ParseMulDiv(s: string): (r: (Expr, string))
    ensures |r.1| <= |s|
    decreases |s|, 12
  {
    var (left, rest) := ParseFilter(s);
    MulTail(left, rest)
  }

  /** The multiplicative operator that comes next, if any. */
  function MulOperator(s: string): (op: string)
    ensures op != "" ==> Matches(s, op) && |op| <= 2
  {
    if Matches(s, "*") then "*"
    else if Matches(s, "//") then "//"
    else if Matches(s, "/") then "/"
    else if Matches(s, "%") then "%"
    else ""
  }

  function MulTail(left: Expr, s: string): (r: (Expr, string))
    ensures |r.1| <= |s|
    decreases |s|, 11
  {
    var u := SkipSpace(s);
    var op := MulOperator(u);
    if op == "" then (left, u)
    else
      var (right, rest) := ParseFilter(u[|op|..]);
      MulTail(BinOp(op, left, right), rest)
  }

  function ParseFilter(s: string): (r: (Expr, string))
    ensures |r.1| <= |s|
    decreases |s|, 10
  {
    var (expr, rest) := ParsePrimary(s);
    FilterTail(expr, rest)
  }

  predicate Starts(s: string, c: char) { s != "" && s[0] == c }

  function FilterTail(expr: Expr, s: string): (r: (Expr, string))
    ensures |r.1| <= |s|
    decreases |s|, 9
  {
    var u := SkipSpace(s);
    if !Starts(u, '|') then (expr, u)
    else
      var (name, rest) := ReadIdentifier(u[1..]);
      var (args, rest') := FilterArgs(rest);
      FilterTail(Filter(expr, name, args), rest')
  }

  /** An optional parenthesised argument list. */
  function FilterArgs(s: string): (r: (seq<Expr>, string))
    ensures |r.1| <= |s|
    decreases |s|, 8
  {
    var u := SkipSpace(s);
    if !Starts(u, '(') then ([], u)
    else
      var v := SkipSpace(u[1..]);
      var (args, rest) := if Starts(v, ')') then ([], v) else ArgList(v);
      (args, DropChar(rest, ')'))
  }

  /** Past a closing character, when it is there. */
  function DropChar(s: string, c: char): (r: string)
    ensures |r| <= |s|
  {
    var u := SkipSpace(s);
    if Starts(u, c) then u[1..] else u
  }

  function ArgList(s: string): (r: (seq<Expr>, string))
    ensures |r.1| <= |s|
    decreases |s|, 21
  {
    var (first, rest) := ParseOr(s);
    ArgTail([first], rest)
  }

  function ArgTail(args: seq<Expr>, s: string): (r: (seq<Expr>, string))
    ensures |r.1| <= |s|
    decreases |s|, 7
  {
    var u := SkipSpace(s);
    if !Starts(u, ',') then (args, u)
    else
      var (next, rest) := ParseOr(u[1..]);
      ArgTail(args + [next], rest)
  }

  /** A number and its sign, which may be followed by more. */
  function ParseNumber(s: string): (r: (Expr, string))
    requires s != ""
    ensures |r.1| <= |s|
  {
    var sign := if s[0] == '-' then 1 else 0;
    var n := sign + NumberLength(s[sign..]);
    (NumberLiteral(s[..n]), s[n..])
  }

  function ParsePrimary(s: string): (r: (Expr, string))
    ensures |r.1| <= |s|
    decreases |s|, 6
  {
    var u := SkipSpace(s);
    if u == "" then (Literal(Invalid), "")
    else if u[0] == '"' || u[0] == '\'' then
      var (text, rest) := ReadString(u[1..], u[0]);
      (Literal(Str(text)), rest)
    else if u[0] == '(' then
      var (expr, rest) := ParseOr(u[1..]);
      (expr, DropChar(rest, ')'))
    else if u[0] == '[' then
      var v := SkipSpace(u[1..]);
      var (elements, rest) := if Starts(v, ']') then ([], v) else ArgList(v);
      (ListLiteral(elements), DropChar(rest, ']'))
    else if IsDigit(u[0]) || (u[0] == '-' && |u| > 1 && IsDigit(u[1])) then
      ParseNumber(u)
    else if IsLetter(u[0]) || u[0] == '_' then
      var (name, rest) := ReadIdentifier(u);
      if name == "true" then (Literal(Bool(true)), rest)
      else if name == "false" then (Literal(Bool(false)), rest)
      else if name == "none" || name == "None" then (Literal(Invalid), rest)
      else DotTail(Variable(name), rest)
    else (Literal(Invalid), u[1..])
  }

  function DotTail(expr: Expr, s: string): (r: (Expr, string))
    ensures |r.1| <= |s|
    decreases |s|
  {
    var u := SkipSpace(s);
    if !Starts(u, '.') then (expr, u)
    else
      var (field, rest) := ReadIdentifier(u[1..]);
      DotTail(if field == "" then expr else DotAccess(expr, field), rest)
  }

  function TrimEnd(s: string): (r: string)
    ensures |r| <= |s|
  {
    if s != "" && IsSpace(s[|s| - 1]) then TrimEnd(s[..|s| - 1]) else s
  }

  function Trim(s: string): (r: string)
    ensures |r| <= |s|
  {
    TrimEnd(SkipSpace(s))
  }

  /** A whole source text as an expression. */
  function ParseExpr(source: string): Expr {
    ParseOr(Trim(source)).0
  }
}
