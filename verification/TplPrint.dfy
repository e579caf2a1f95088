/** A canonical printer for expressions, and the proof that the parser inverts it. */
module TplPrint {
  import opened Ascii
  import opened TplAst
  import opened TplExpr

  predicate IsWordText(s: string) { forall i :: 0 <= i < |s| ==> IsWord(s[i]) }

  predicate IsName(s: string) {
    && s != "" && IsWordText(s) && !IsDigit(s[0])
    && s !in {"true", "false", "none", "None", "not"}
  }

  const OPERATORS: set<string> := {"or", "and", "==", "!=", "<=", ">=", "<", ">", "in", "+", "-", "*", "//", "/", "%"}

  /** A variable, or fields of one. */
  predicate IsChain(e: Expr) {
    match e
    case Variable(name) => IsName(name)
    case DotAccess(o, field) => IsChain(o) && field != "" && IsWordText(field)
    case _ => false
  }

  predicate IsPlainValue(v: Value) {
    match v
    case Invalid => true
    case Bool(_) => true
    case Int(n) => -INT64_MAX - 1 <= n <= INT64_MAX
    case Str(_) => true
    case _ => false
  }

  predicate Printable(e: Expr)
    decreases e
  {
    match e
    case Literal(v) => IsPlainValue(v)
    case Variable(_) => IsChain(e)
    case DotAccess(_, _) => IsChain(e)
    case Filter(input, name, args) => Printable(input) && IsWordText(name) && PrintableAll(args)
    case BinOp(op, l, r) => op in OPERATORS && Printable(l) && Printable(r)
    case UnaryNot(o) => Printable(o)
    case ListLiteral(es) => PrintableAll(es)
  }

  predicate PrintableAll(es: seq<Expr>)
    decreases es
  {
    es == [] || (Printable(es[0]) && PrintableAll(es[1..]))
  }

  function Digits(n: nat): (s: string)
    ensures s != "" && forall i :: 0 <= i < |s| ==> IsDigit(s[i])
  {
    if n < 10 then [n as char + '0'] else Digits(n / 10) + [(n % 10) as char + '0']
  }

  function Decimal(n: int): string {
    if n < 0 then "-" + Digits(-n) else Digits(n)
  }

  function Escape(s: string): string {
    if s == "" then "" else EscapeChar(s[0]) + Escape(s[1..])
  }

  function EscapeChar(c: char): string {
    if c == '"' || c == '\\' then ['\\', c]
    else if c == '\n' then "\\n" else if c == '\t' then "\\t" else [c]
  }

  function PrintValue(v: Value): string {
    match v
    case Bool(b) => if b then "true" else "false"
    case Int(n) => Decimal(n)
    case Str(s) => "\"" + Escape(s) + "\""
    case _ => "none"
  }

  /** Every operand in parentheses, no spaces. */
  function Print(e: Expr): string
    decreases e
  {
    match e
    case Literal(v) => PrintValue(v)
    case Variable(name) => name
    case DotAccess(o, field) => Print(o) + "." + field
    case Filter(input, name, args) => "(" + Print(input) + ")|" + name + "(" + PrintList(args) + ")"
    case BinOp(op, l, r) => "(" + Print(l) + ")" + op + "(" + Print(r) + ")"
    case UnaryNot(o) => "not(" + Print(o) + ")"
    case ListLiteral(es) => "[" + PrintList(es) + "]"
  }

  function PrintList(es: seq<Expr>): string
    decreases es
  {
    if es == [] then ""
    else if |es| == 1 then Print(es[0])
    else Print(es[0]) + "," + PrintList(es[1..])
  }

  // ------------------------------------------------------------------
  // What may follow a printed expression
  // ------------------------------------------------------------------

  /** The end of the text, or a delimiter no level of the grammar takes. */
  predicate Ends(post: string) { post == "" || post[0] in {')', ',', ']'} }

  /** What comes next continues neither a word, a number nor a chain. */
  predicate Apart(post: string) { post == "" || (!IsWord(post[0]) && post[0] != '.') }

  /** ... and is not skipped. */
  predicate Breaks(post: string) { Apart(post) && (post == "" || !IsSpace(post[0])) }

  lemma NoMatch(s: string, t: string)
    requires t != "" && (s == "" || !IsSpace(s[0])) && !(t <= s)
    ensures SkipSpace(s) == s && !Matches(s, t) && MatchStr(s, t) == (false, s)
  {
  }

  lemma NoPrefix(s: string, t: string)
    requires t != "" && (s == "" || s[0] != t[0])
    ensures !(t <= s)
  {
  }

  lemma YesMatch(t: string, rest: string)
    requires t != "" && !IsSpace(t[0]) && (IsLetter(t[0]) ==> rest == "" || !IsWord(rest[0]))
    ensures SkipSpace(t + rest) == t + rest && Matches(t + rest, t) && (t + rest)[|t|..] == rest
    ensures MatchStr(t + rest, t) == (true, rest)
  {
    assert (t + rest)[0] == t[0];
    assert (t + rest)[|t|..] == rest;
    assert t <= t + rest;
    if rest != "" { assert (t + rest)[|t|] == rest[0]; }
  }

  // ------------------------------------------------------------------
  // From one level of the grammar to the next
  // ------------------------------------------------------------------

  /** What remains starts with none of these characters, nor with a space. */
  predicate Avoids(post: string, taken: set<char>) {
    post == "" || (!IsSpace(post[0]) && post[0] !in taken)
  }

  lemma UpFilter(s: string, e: Expr, post: string)
    requires ParsePrimary(s) == (e, post) && Avoids(post, {'|'})
    ensures ParseFilter(s) == (e, post)
  {
    hide ParsePrimary;
  }

  lemma MulStops(e: Expr, post: string)
    requires Avoids(post, {'*', '/', '%'})
    ensures MulTail(e, post) == (e, post)
  {
    NoPrefix(post, "*");
    NoPrefix(post, "/");
    NoPrefix(post, "//");
    NoPrefix(post, "%");
  }

  lemma UpMul(s: string, e: Expr, post: string)
    requires ParseFilter(s) == (e, post) && Avoids(post, {'*', '/', '%'})
    ensures ParseMulDiv(s) == (e, post)
  {
    hide ParseFilter, MulTail;
    MulStops(e, post);
  }

  lemma AddStops(e: Expr, post: string)
    requires Avoids(post, {'+', '-'})
    ensures AddTail(e, post) == (e, post)
  {
    NoPrefix(post, "+");
    NoPrefix(post, "-");
  }

  lemma UpAdd(s: string, e: Expr, post: string)
    requires ParseMulDiv(s) == (e, post) && Avoids(post, {'+', '-'})
    ensures ParseAddSub(s) == (e, post)
  {
    hide ParseMulDiv, AddTail;
    AddStops(e, post);
  }

  lemma NoComparison(post: string)
    requires Avoids(post, {'=', '!', '<', '>'})
    ensures FindComparison(post, 0) == |COMPARISONS|
  {
    forall k | 0 <= k < |COMPARISONS| ensures !Matches(post, COMPARISONS[k]) {
      NoPrefix(post, COMPARISONS[k]);
    }
  }

  lemma UpComparison(s: string, e: Expr, post: string)
    requires ParseAddSub(s) == (e, post) && Avoids(post, {'=', '!', '<', '>', 'n', 'i'})
    ensures ParseComparison(s) == (e, post)
  {
    hide ParseAddSub, FindComparison;
    NoComparison(post);
    NoPrefix(post, "not in");
    NoPrefix(post, "in");
  }

  lemma UpNot(s: string, e: Expr, post: string)
    requires ParseComparison(s) == (e, post) && MatchStr(s, "not") == (false, s)
    ensures ParseNot(s) == (e, post)
  {
    hide ParseComparison;
  }

  lemma UpAnd(s: string, e: Expr, post: string)
    requires ParseNot(s) == (e, post) && Avoids(post, {'a'})
    ensures ParseAnd(s) == (e, post)
  {
    hide ParseNot;
    NoPrefix(post, "and");
    NoMatch(post, "and");
  }

  lemma UpOr(s: string, e: Expr, post: string)
    requires ParseAnd(s) == (e, post) && Avoids(post, {'o'})
    ensures ParseOr(s) == (e, post)
  {
    hide ParseAnd;
    NoPrefix(post, "or");
    NoMatch(post, "or");
  }

  /** Does not start with the word `not`. */
  predicate NotFree(s: string) { MatchStr(s, "not") == (false, s) }

  lemma EndsAvoids(post: string)
    requires Ends(post)
    ensures Avoids(post, {'|'}) && Avoids(post, {'*', '/', '%'}) && Avoids(post, {'+', '-'})
    ensures Avoids(post, {'=', '!', '<', '>', 'n', 'i'}) && Avoids(post, {'a'}) && Avoids(post, {'o'})
  {
  }

  lemma FromMul(s: string, e: Expr, post: string)
    requires ParseMulDiv(s) == (e, post) && Ends(post) && NotFree(s)
    ensures ParseOr(s) == (e, post)
  {
    hide ParseMulDiv, ParseAddSub, ParseComparison, ParseNot, ParseAnd, ParseOr;
    EndsAvoids(post);
    UpAdd(s, e, post);
    FromAdd(s, e, post);
  }

  lemma FromAdd(s: string, e: Expr, post: string)
    requires ParseAddSub(s) == (e, post) && Ends(post) && NotFree(s)
    ensures ParseOr(s) == (e, post)
  {
    hide ParseAddSub, ParseComparison, ParseNot, ParseAnd, ParseOr;
    EndsAvoids(post);
    UpComparison(s, e, post);
    FromComparison(s, e, post);
  }

  lemma FromComparison(s: string, e: Expr, post: string)
    requires ParseComparison(s) == (e, post) && Ends(post) && NotFree(s)
    ensures ParseOr(s) == (e, post)
  {
    hide ParseComparison, ParseNot, ParseAnd, ParseOr;
    EndsAvoids(post);
    UpNot(s, e, post);
    FromNot(s, e, post);
  }

  lemma FromNot(s: string, e: Expr, post: string)
    requires ParseNot(s) == (e, post) && Ends(post)
    ensures ParseOr(s) == (e, post)
  {
    hide ParseNot, ParseAnd, ParseOr;
    EndsAvoids(post);
    UpAnd(s, e, post);
    UpOr(s, e, post);
  }

  lemma FromFilter(s: string, e: Expr, post: string)
    requires ParseFilter(s) == (e, post) && Ends(post) && NotFree(s)
    ensures ParseOr(s) == (e, post)
  {
    hide ParseFilter, ParseMulDiv, ParseOr;
    EndsAvoids(post);
    UpMul(s, e, post);
    FromMul(s, e, post);
  }

  lemma FromPrimary(s: string, e: Expr, post: string)
    requires ParsePrimary(s) == (e, post) && Ends(post) && NotFree(s)
    ensures ParseOr(s) == (e, post)
  {
    hide ParsePrimary, ParseFilter, ParseOr;
    EndsAvoids(post);
    UpFilter(s, e, post);
    FromFilter(s, e, post);
  }

  // ------------------------------------------------------------------
  // Names and fields
  // ------------------------------------------------------------------

  lemma {:induction false} WordReads(w: string, post: string)
    requires IsWordText(w) && (post == "" || !IsWord(post[0]))
    ensures WordLength(w + post) == |w|
    decreases |w|
  {
    if w == "" { assert w + post == post; }
    else {
      assert (w + post)[1..] == w[1..] + post;
      WordReads(w[1..], post);
    }
  }

  lemma IdentifierReads(w: string, post: string)
    requires IsWordText(w) && (post == "" || !IsWord(post[0])) && (w == "" ==> post == "" || !IsSpace(post[0]))
    ensures ReadIdentifier(w + post) == (w, post)
  {
    WordReads(w, post);
    assert w + post == "" || !IsSpace((w + post)[0]);
    assert (w + post)[..|w|] == w && (w + post)[|w|..] == post;
  }

  lemma NamePrimary(name: string, post: string)
    requires IsName(name) && (post == "" || !IsWord(post[0]))
    ensures ParsePrimary(name + post) == DotTail(Variable(name), post)
  {
    hide DotTail, ParseOr, ArgList, ReadString, ReadIdentifier;
    var s := name + post;
    assert s[0] == name[0] && IsWord(name[0]);
    IdentifierReads(name, post);
  }

  /** A printed chain leaves the parser ready for another field. */
  lemma {:induction false} ChainPrimary(e: Expr, post: string)
    requires IsChain(e) && (post == "" || !IsWord(post[0]))
    ensures ParsePrimary(Print(e) + post) == DotTail(e, post)
    decreases e
  {
    match e
    case Variable(name) => NamePrimary(name, post);
    case DotAccess(o, field) =>
      hide ParsePrimary, ReadIdentifier;
      var rest := "." + (field + post);
      assert Print(e) + post == Print(o) + rest;
      assert rest[0] == '.' && rest[1..] == field + post;
      ChainPrimary(o, rest);
      IdentifierReads(field, post);
    case _ =>
  }

  lemma ChainParses(e: Expr, post: string)
    requires IsChain(e) && Breaks(post)
    ensures ParsePrimary(Print(e) + post) == (e, post)
  {
    hide ParsePrimary, Print, IsChain;
    ChainPrimary(e, post);
  }

  // ------------------------------------------------------------------
  // Literals
  // ------------------------------------------------------------------

  lemma WordPrimary(w: string, v: Value, post: string)
    requires (w, v) in {("true", Bool(true)), ("false", Bool(false)), ("none", Invalid)} && Apart(post)
    ensures ParsePrimary(w + post) == (Literal(v), post)
  {
    hide DotTail, ParseOr, ArgList, ReadString, ReadIdentifier;
    assert IsWordText(w) && (w + post)[0] == w[0] && !IsDigit(w[0]) && IsLetter(w[0]);
    IdentifierReads(w, post);
  }

  lemma {:induction false} DigitsRead(d: string, post: string)
    requires (forall i :: 0 <= i < |d| ==> IsDigit(d[i])) && Apart(post)
    ensures NumberLength(d + post) == |d|
    decreases |d|
  {
    if d == "" { assert d + post == post; }
    else {
      assert (d + post)[1..] == d[1..] + post;
      DigitsRead(d[1..], post);
    }
  }

  lemma {:induction false} DigitsRoundTrip(n: nat)
    ensures DigitsValue(Digits(n)) == n
  {
    var s := Digits(n);
    if n < 10 {
      assert s == [n as char + '0'] && s[..0] == "";
    } else {
      DigitsRoundTrip(n / 10);
      assert s[..|s| - 1] == Digits(n / 10);
    }
  }

  lemma UnsignedReads(d: string, post: string)
    requires d != "" && (forall i :: 0 <= i < |d| ==> IsDigit(d[i])) && Apart(post)
    ensures ParsePrimary(d + post) == (NumberLiteral(d), post)
  {
    hide DotTail, ParseOr, ArgList, ReadString, ReadIdentifier, NumberLiteral, ParseNumber, NumberLength;
    var s := d + post;
    assert s[0] == d[0] && IsDigit(s[0]);
    UnsignedNumber(d, post);
  }

  lemma UnsignedNumber(d: string, post: string)
    requires d != "" && (forall i :: 0 <= i < |d| ==> IsDigit(d[i])) && Apart(post)
    ensures ParseNumber(d + post) == (NumberLiteral(d), post)
  {
    hide NumberLiteral, NumberLength;
    var s := d + post;
    DigitsRead(d, post);
    assert s[0] == d[0] && IsDigit(s[0]) && s[0..] == s;
    assert s[..|d|] == d && s[|d|..] == post;
  }

  lemma SignedReads(d: string, post: string)
    requires d != "" && (forall i :: 0 <= i < |d| ==> IsDigit(d[i])) && Apart(post)
    ensures ParsePrimary("-" + d + post) == (NumberLiteral("-" + d), post)
  {
    hide DotTail, ParseOr, ArgList, ReadString, ReadIdentifier, NumberLiteral, ParseNumber, NumberLength;
    var s := "-" + d + post;
    assert s[0] == '-' && s[1] == d[0] && IsDigit(s[1]);
    SignedNumber(d, post);
  }

  lemma SignedNumber(d: string, post: string)
    requires d != "" && (forall i :: 0 <= i < |d| ==> IsDigit(d[i])) && Apart(post)
    ensures ParseNumber("-" + d + post) == (NumberLiteral("-" + d), post)
  {
    hide NumberLiteral, NumberLength;
    var s := "-" + d + post;
    DigitsRead(d, post);
    assert s[0] == '-' && s[1..] == d + post;
    assert s[..1 + |d|] == "-" + d && s[1 + |d|..] == post;
  }

  lemma NumberPrimary(n: int, post: string)
    requires IsPlainValue(Int(n)) && Apart(post)
    ensures ParsePrimary(Decimal(n) + post) == (Literal(Int(n)), post)
  {
    hide ParsePrimary, Digits, NumberLiteral;
    if n < 0 { SignedReads(Digits(-n), post); } else { UnsignedReads(Digits(n), post); }
    NumberText(n);
  }

  lemma NumberText(n: int)
    requires IsPlainValue(Int(n))
    ensures NumberLiteral(Decimal(n)) == Literal(Int(n))
  {
    hide Decimal, ToLongLong, ToDouble;
    NoPoint(n);
    DecimalValue(n);
  }

  lemma NoPoint(n: int)
    ensures '.' !in Decimal(n)
  {
    hide Digits;
    var d := Digits(if n < 0 then -n else n);
    assert '.' !in d;
  }

  /** A number with a point is the digits, with and without it, over a power of ten; with two points it is zero. */
  lemma PointValue(whole: string, frac: string)
    requires IsDigits(whole) && IsDigits(frac)
    ensures ToDouble(whole + "." + frac) == DigitsValue(whole + frac) as real / Pow10(|frac|) as real
    ensures ToDouble("-" + whole + "." + frac) == -(DigitsValue(whole + frac) as real / Pow10(|frac|) as real)
    ensures DigitsValue(whole + frac) == DigitsValue(whole) * Pow10(|frac|) + DigitsValue(frac)
    ensures NumberLiteral(whole + "." + frac) == Literal(Double(ToDouble(whole + "." + frac)))
    ensures ToDouble(whole + "." + frac + ".") == 0.0
  {
    hide DigitsValue, CountDots, WithoutDots, FractionLength, Pow10;
    var s := whole + "." + frac;
    PointParts(whole, frac);
    assert "-" + whole + "." + frac == "-" + s && ("-" + s)[1..] == s;
    assert s[|whole|] == '.';
    assert s[0] != '-' && (s + ".")[0] == s[0];
    DigitsJoin(whole, frac);
  }

  lemma PointParts(whole: string, frac: string)
    requires IsDigits(whole) && IsDigits(frac)
    ensures var s := whole + "." + frac;
            && CountDots(s) == 1 && WithoutDots(s) == whole + frac && FractionLength(s) == |frac|
            && CountDots(s + ".") == 2
  {
    var s := whole + "." + frac;
    hide CountDots, WithoutDots, FractionLength;
    PointsIn(whole, "." + frac);
    PointsIn(whole, "." + frac + ".");
    PointsIn(frac, "");
    PointsIn(frac, ".");
    assert whole + ("." + frac) == s && whole + ("." + frac + ".") == s + ".";
    assert "." + (frac + "") == "." + frac && "." + (frac + ".") == "." + frac + ".";
    OnePoint(frac + "");
    OnePoint(frac + ".");
    OnePoint("");
    assert "." + "" == ".";
    assert frac + "" == frac;
  }

  lemma OnePoint(rest: string)
    ensures CountDots("." + rest) == 1 + CountDots(rest) && WithoutDots("." + rest) == WithoutDots(rest)
    ensures CountDots("") == 0 && WithoutDots("") == ""
  {
    assert ("." + rest)[1..] == rest;
  }

  predicate IsDigits(s: string) { forall i :: 0 <= i < |s| ==> IsDigit(s[i]) }

  lemma {:induction false} PointsIn(d: string, rest: string)
    requires IsDigits(d)
    ensures CountDots(d + rest) == CountDots(rest) && WithoutDots(d + rest) == d + WithoutDots(rest)
    ensures rest != "" && rest[0] == '.' ==> FractionLength(d + rest) == |rest| - 1
    decreases |d|
  {
    if d == "" { assert d + rest == rest; }
    else {
      assert (d + rest)[0] == d[0] && (d + rest)[1..] == d[1..] + rest;
      PointsIn(d[1..], rest);
    }
  }

  lemma {:induction false} DigitsJoin(a: string, b: string)
    ensures DigitsValue(a + b) == DigitsValue(a) * Pow10(|b|) + DigitsValue(b)
    decreases |b|
  {
    if b == "" { assert a + b == a; }
    else {
      var c := b[..|b| - 1];
      assert (a + b)[..|a + b| - 1] == a + c && (a + b)[|a + b| - 1] == b[|b| - 1];
      DigitsJoin(a, c);
      Tens(DigitsValue(a), Pow10(|c|));
    }
  }

  lemma Tens(x: int, y: int)
    ensures x * (10 * y) == 10 * (x * y)
  {
  }

  /** A decimal is read as it is when it fits in 64 bits, and as zero otherwise. */
  lemma DecimalValue(n: int)
    ensures ToLongLong(Decimal(n)) == if -0x8000_0000_0000_0000 <= n < 0x8000_0000_0000_0000 then n else 0
  {
    hide Digits, DigitsValue;
    var d := Digits(if n < 0 then -n else n);
    DigitsRoundTrip(if n < 0 then -n else n);
    assert n < 0 ==> Decimal(n)[1..] == d;
    assert n >= 0 ==> IsDigit(Decimal(n)[0]);
  }

  lemma CharacterReads(c: char, rest: string)
    ensures ReadString(EscapeChar(c) + rest, '"')
         == ([c] + ReadString(rest, '"').0, ReadString(rest, '"').1)
  {
    var s := EscapeChar(c) + rest;
    if c in {'"', '\\', '\n', '\t'} { assert s[2..] == rest; } else { assert s[1..] == rest; }
  }

  lemma {:induction false} StringReads(text: string, post: string)
    ensures ReadString(Escape(text) + "\"" + post, '"') == (text, post)
    decreases |text|
  {
    if text == "" {
      assert Escape(text) + "\"" + post == "\"" + post;
    } else {
      var c, rest := text[0], Escape(text[1..]) + "\"" + post;
      StringReads(text[1..], post);
      CharacterReads(c, rest);
      assert Escape(text) + "\"" + post == EscapeChar(c) + rest;
      assert text == [c] + text[1..];
    }
  }

  /** A character in a string literal: as it is, or behind a backslash. */
  datatype Unit = Unit(c: char, escaped: bool)

  predicate UnitsFor(us: seq<Unit>, quote: char) {
    forall i :: 0 <= i < |us| && !us[i].escaped ==> us[i].c != quote && us[i].c != '\\'
  }

  function UnitsText(us: seq<Unit>): string {
    if us == [] then "" else (if us[0].escaped then ['\\', us[0].c] else [us[0].c]) + UnitsText(us[1..])
  }

  /** Behind a backslash n is a line break, t a tab, and any other character itself. */
  function UnitsValue(us: seq<Unit>): string {
    if us == [] then ""
    else
      var c := us[0].c;
      [if us[0].escaped && c == 'n' then '\n' else if us[0].escaped && c == 't' then '\t' else c] + UnitsValue(us[1..])
  }

  /** A literal in either kind of quotes means its units; without the closing quote it runs to the end. */
  lemma {:induction false} LiteralReads(us: seq<Unit>, quote: char, post: string)
    requires UnitsFor(us, quote) && quote in {'"', '\''}
    ensures ReadString(UnitsText(us) + [quote] + post, quote) == (UnitsValue(us), post)
    ensures ReadString(UnitsText(us), quote) == (UnitsValue(us), "")
    decreases |us|
  {
    var s := UnitsText(us) + [quote] + post;
    if us == [] {
      assert s == [quote] + post && s[1..] == post;
    } else {
      LiteralReads(us[1..], quote, post);
      var more := UnitsText(us[1..]) + [quote] + post;
      if us[0].escaped {
        assert s == ['\\', us[0].c] + more && s[2..] == more;
        assert UnitsText(us)[2..] == UnitsText(us[1..]);
        EscapeRead(us[0].c, more, quote);
        EscapeRead(us[0].c, UnitsText(us[1..]), quote);
        assert UnitsText(us) == ['\\', us[0].c] + UnitsText(us[1..]);
      } else {
        assert s == [us[0].c] + more && s[1..] == more;
        assert UnitsText(us)[1..] == UnitsText(us[1..]);
      }
    }
  }

  lemma EscapeRead(c: char, more: string, quote: char)
    requires quote != '\\'
    ensures ReadString(['\\', c] + more, quote)
         == ([if c == 'n' then '\n' else if c == 't' then '\t' else c] + ReadString(more, quote).0,
             ReadString(more, quote).1)
  {
    var s := ['\\', c] + more;
    assert s[2..] == more;
  }

  lemma StringPrimary(text: string, post: string)
    ensures ParsePrimary(PrintValue(Str(text)) + post) == (Literal(Str(text)), post)
  {
    var s := PrintValue(Str(text)) + post;
    hide DotTail, ParseOr, ArgList, ReadString, ReadIdentifier, Escape;
    assert s[0] == '"' && s[1..] == Escape(text) + "\"" + post;
    StringReads(text, post);
  }

  lemma ValueParses(v: Value, post: string)
    requires IsPlainValue(v) && Apart(post)
    ensures ParsePrimary(PrintValue(v) + post) == (Literal(v), post)
  {
    hide ParsePrimary, Decimal;
    match v
    case Invalid => WordPrimary("none", v, post);
    case Bool(b) => WordPrimary(if b then "true" else "false", v, post);
    case Int(n) => NumberPrimary(n, post);
    case Str(t) => StringPrimary(t, post);
    case _ =>
  }

  // ------------------------------------------------------------------
  // Operators
  // ------------------------------------------------------------------

  lemma ToMul(s: string, e: Expr, post: string)
    requires ParsePrimary(s) == (e, post) && Avoids(post, {'|', '*', '/', '%'})
    ensures ParseMulDiv(s) == (e, post)
  {
    hide ParsePrimary, ParseFilter, ParseMulDiv;
    UpFilter(s, e, post);
    UpMul(s, e, post);
  }

  lemma ToAdd(s: string, e: Expr, post: string)
    requires ParsePrimary(s) == (e, post) && Avoids(post, {'|', '*', '/', '%', '+', '-'})
    ensures ParseAddSub(s) == (e, post)
  {
    hide ParsePrimary, ParseMulDiv, ParseAddSub;
    ToMul(s, e, post);
    UpAdd(s, e, post);
  }

  lemma ToNot(s: string, e: Expr, post: string)
    requires ParsePrimary(s) == (e, post) && NotFree(s)
    requires Avoids(post, {'|', '*', '/', '%', '+', '-', '=', '!', '<', '>', 'n', 'i'})
    ensures ParseNot(s) == (e, post)
  {
    hide ParsePrimary, ParseComparison, ParseAddSub, ParseNot;
    ToAdd(s, e, post);
    UpComparison(s, e, post);
    UpNot(s, e, post);
  }

  /** The operands of a printed binary operator: both in parentheses. */
  ghost predicate Operands(op: string, l: Expr, r: Expr, s: string, right: string, post: string) {
    && ParsePrimary(s) == (l, op + right) && ParsePrimary(right) == (r, post)
    && Starts(right, '(') && NotFree(s) && NotFree(right) && Ends(post)
  }

  lemma MulParses(op: string, l: Expr, r: Expr, s: string, right: string, post: string)
    requires op in {"*", "/", "//", "%"} && Operands(op, l, r, s, right, post)
    ensures ParseOr(s) == (BinOp(op, l, r), post)
  {
    hide ParsePrimary, ParseFilter, ParseOr;
    assert (op + right)[0] == op[0] && (op + right)[|op|..] == right;
    UpFilter(s, l, op + right);
    EndsAvoids(post);
    UpFilter(right, r, post);
    MulFound(op, right);
    MulStops(BinOp(op, l, r), post);
    FromMul(s, BinOp(op, l, r), post);
  }

  lemma MulFound(op: string, right: string)
    requires op in {"*", "/", "//", "%"} && Starts(right, '(')
    ensures MulOperator(op + right) == op && SkipSpace(op + right) == op + right
  {
    YesMatch(op, right);
    if op == "/" { assert (op + right)[1] == '('; }
    if op != "*" { NoPrefix(op + right, "*"); }
    if op == "%" { NoPrefix(op + right, "/"); NoPrefix(op + right, "//"); }
  }

  lemma AddParses(op: string, l: Expr, r: Expr, s: string, right: string, post: string)
    requires op in {"+", "-"} && Operands(op, l, r, s, right, post)
    ensures ParseOr(s) == (BinOp(op, l, r), post)
  {
    hide ParsePrimary, ParseMulDiv, ParseOr;
    assert (op + right)[0] == op[0] && (op + right)[1..] == right;
    ToMul(s, l, op + right);
    ToMul(right, r, post);
    YesMatch(op, right);
    if op == "-" { NoPrefix(op + right, "+"); }
    AddStops(BinOp(op, l, r), post);
    FromAdd(s, BinOp(op, l, r), post);
  }

  lemma ComparisonFound(op: string, right: string)
    requires op in {"==", "!=", "<=", ">=", "<", ">"} && Starts(right, '(')
    ensures var k := FindComparison(op + right, 0);
            k < |COMPARISONS| && COMPARISONS[k] == op && (op + right)[|op|..] == right
            && SkipSpace(op + right) == op + right
  {
    YesMatch(op, right);
    assert (op + right)[0] == op[0] && (op + right)[1] == (if |op| == 1 then '(' else op[1]);
  }

  lemma ComparisonParses(op: string, l: Expr, r: Expr, s: string, right: string, post: string)
    requires op in {"==", "!=", "<=", ">=", "<", ">"} && Operands(op, l, r, s, right, post)
    ensures ParseOr(s) == (BinOp(op, l, r), post)
  {
    hide ParsePrimary, ParseAddSub, ParseOr, FindComparison;
    assert (op + right)[0] == op[0];
    ToAdd(s, l, op + right);
    ToAdd(right, r, post);
    ComparisonFound(op, right);
    FromComparison(s, BinOp(op, l, r), post);
  }

  lemma InParses(l: Expr, r: Expr, s: string, right: string, post: string)
    requires Operands("in", l, r, s, right, post)
    ensures ParseOr(s) == (BinOp("in", l, r), post)
  {
    hide ParsePrimary, ParseAddSub, ParseOr, FindComparison;
    var u := "in" + right;
    assert u[0] == 'i' && u[2..] == right;
    ToAdd(s, l, u);
    ToAdd(right, r, post);
    NoComparison(u);
    NoPrefix(u, "not in");
    YesMatch("in", right);
    FromComparison(s, BinOp("in", l, r), post);
  }

  lemma AndStops(e: Expr, post: string)
    requires Avoids(post, {'a'})
    ensures AndTail(e, post) == (e, post)
  {
    NoPrefix(post, "and");
    NoMatch(post, "and");
  }

  lemma OrStops(e: Expr, post: string)
    requires Avoids(post, {'o'})
    ensures OrTail(e, post) == (e, post)
  {
    NoPrefix(post, "or");
    NoMatch(post, "or");
  }

  lemma AndParses(l: Expr, r: Expr, s: string, right: string, post: string)
    requires Operands("and", l, r, s, right, post)
    ensures ParseOr(s) == (BinOp("and", l, r), post)
  {
    hide ParsePrimary, ParseNot, ParseOr;
    var u := "and" + right;
    assert u[0] == 'a';
    ToNot(s, l, u);
    ToNot(right, r, post);
    YesMatch("and", right);
    EndsAvoids(post);
    AndStops(BinOp("and", l, r), post);
    assert AndTail(l, u) == AndTail(BinOp("and", l, r), post);
    UpOr(s, BinOp("and", l, r), post);
  }

  lemma OrParses(l: Expr, r: Expr, s: string, right: string, post: string)
    requires Operands("or", l, r, s, right, post)
    ensures ParseOr(s) == (BinOp("or", l, r), post)
  {
    hide ParsePrimary, ParseNot, ParseAnd;
    var u := "or" + right;
    assert u[0] == 'o';
    ToNot(s, l, u);
    UpAnd(s, l, u);
    ToNot(right, r, post);
    UpAnd(right, r, post);
    YesMatch("or", right);
    EndsAvoids(post);
    OrStops(BinOp("or", l, r), post);
    assert OrTail(l, u) == OrTail(BinOp("or", l, r), post);
  }

  lemma OperatorParses(op: string, l: Expr, r: Expr, s: string, right: string, post: string)
    requires op in OPERATORS && Operands(op, l, r, s, right, post)
    ensures ParseOr(s) == (BinOp(op, l, r), post)
  {
    hide Operands, ParseOr;
    if op in {"*", "/", "//", "%"} { MulParses(op, l, r, s, right, post); }
    else if op in {"+", "-"} { AddParses(op, l, r, s, right, post); }
    else if op in {"==", "!=", "<=", ">=", "<", ">"} { ComparisonParses(op, l, r, s, right, post); }
    else if op == "in" { InParses(l, r, s, right, post); }
    else if op == "and" { AndParses(l, r, s, right, post); }
    else { OrParses(l, r, s, right, post); }
  }

  // ------------------------------------------------------------------
  // How printed expressions start and end
  // ------------------------------------------------------------------

  /** Starts and ends with something other than a space, and does not start with a closing delimiter. */
  predicate Solid(s: string) {
    s != "" && !IsSpace(s[0]) && !IsSpace(s[|s| - 1]) && s[0] !in {')', ']', ','}
  }

  lemma SolidEnds(s: string, c: char, m: string, d: char)
    requires s == [c] + m + [d] && !IsSpace(c) && !IsSpace(d) && c !in {')', ']', ','}
    ensures Solid(s)
  {
  }

  lemma SolidWord(s: string)
    requires s != "" && IsWordText(s)
    ensures Solid(s)
  {
    assert IsWord(s[0]) && IsWord(s[|s| - 1]);
  }

  lemma SolidValue(v: Value)
    requires IsPlainValue(v)
    ensures Solid(PrintValue(v))
  {
    match v
    case Int(n) =>
      var d := Digits(if n < 0 then -n else n);
      assert IsDigit(d[0]) && IsDigit(d[|d| - 1]);
      assert Decimal(n)[|Decimal(n)| - 1] == d[|d| - 1];
    case Str(t) => SolidEnds(PrintValue(v), '"', Escape(t), '"');
    case _ =>
  }

  /** The name a printed chain starts with. */
  lemma {:induction false} ChainRoot(e: Expr) returns (name: string, rest: string)
    requires IsChain(e)
    ensures Print(e) == name + rest && IsName(name) && (rest == "" || rest[0] == '.')
    ensures Solid(Print(e))
    decreases e
  {
    match e
    case Variable(n) =>
      name, rest := n, "";
      SolidWord(n);
    case DotAccess(o, field) =>
      var r;
      name, r := ChainRoot(o);
      rest := r + "." + field;
      assert Print(e) == name + rest;
      assert IsWord(field[|field| - 1]);
    case _ =>
  }

  lemma PrintSolid(e: Expr)
    requires Printable(e)
    ensures Solid(Print(e))
  {
    hide Solid, IsChain, IsWordText, PrintValue, IsPlainValue, PrintList, PrintableAll;
    match e
    case Literal(v) => SolidValue(v);
    case Variable(_) => var name, rest := ChainRoot(e);
    case DotAccess(_, _) => var name, rest := ChainRoot(e);
    case Filter(input, name, args) =>
      SolidEnds(Print(e), '(', Print(input) + ")|" + name + "(" + PrintList(args), ')');
    case BinOp(op, l, r) => SolidEnds(Print(e), '(', Print(l) + ")" + op + "(" + Print(r), ')');
    case UnaryNot(o) => SolidEnds(Print(e), 'n', "ot(" + Print(o), ')');
    case ListLiteral(es) => SolidEnds(Print(e), '[', PrintList(es), ']');
  }

  lemma NameNotFree(name: string, post: string)
    requires IsName(name) && (post == "" || !IsWord(post[0]))
    ensures NotFree(name + post)
  {
    var s := name + post;
    assert s[0] == name[0] && IsWord(name[0]);
    if "not" <= s {
      assert s[1] == 'o' && s[2] == 't';
      assert |name| >= 3;
      assert |name| == 3 ==> name == "not";
      assert IsWord(name[3]) && s[3] == name[3];
    }
  }

  /** Only a printed `not` starts with the word. */
  lemma PrintNotFree(e: Expr, post: string)
    requires Printable(e) && !e.UnaryNot? && Ends(post)
    ensures NotFree(Print(e) + post)
  {
    hide Solid, NotFree, IsName, PrintValue, IsPlainValue, PrintList;
    var s := Print(e) + post;
    match e
    case Literal(v) =>
      SolidValue(v);
      ValueNotFree(v, post);
    case Variable(_) =>
      var name, rest := ChainRoot(e);
      assert s == name + (rest + post);
      NameNotFree(name, rest + post);
    case DotAccess(_, _) =>
      var name, rest := ChainRoot(e);
      assert s == name + (rest + post);
      NameNotFree(name, rest + post);
    case Filter(_, _, _) => OpenerNotFree(s);
    case BinOp(_, _, _) => OpenerNotFree(s);
    case ListLiteral(_) => OpenerNotFree(s);
  }

  lemma OpenerNotFree(s: string)
    requires s != "" && s[0] in {'(', '['}
    ensures NotFree(s)
  {
    NoPrefix(s, "not");
    NoMatch(s, "not");
  }

  lemma ValueNotFree(v: Value, post: string)
    requires IsPlainValue(v) && Solid(PrintValue(v))
    ensures NotFree(PrintValue(v) + post)
  {
    hide Decimal, Escape;
    var s := PrintValue(v) + post;
    assert s[0] == PrintValue(v)[0];
    match v
    case Int(n) => DecimalStarts(n); NoPrefix(s, "not"); NoMatch(s, "not");
    case Invalid => assert s[2] == 'n'; NoMatch(s, "not");
    case _ => NoPrefix(s, "not"); NoMatch(s, "not");
  }

  lemma DecimalStarts(n: int)
    ensures Decimal(n) != "" && (IsDigit(Decimal(n)[0]) || Decimal(n)[0] == '-')
  {
  }

  // ------------------------------------------------------------------
  // The parser inverts the printer
  // ------------------------------------------------------------------

  /** A text in parentheses, and what follows. */
  function Paren(inner: string, rest: string): (r: string)
    ensures Starts(r, '(')
  {
    "(" + (inner + (")" + rest))
  }

  lemma ParenParses(e: Expr, inner: string, rest: string)
    requires ParseOr(inner + (")" + rest)) == (e, ")" + rest)
    ensures ParsePrimary(Paren(inner, rest)) == (e, rest)
  {
    hide ParseOr, DotTail, ArgList, ReadString, ReadIdentifier, ParseNumber;
    var s := Paren(inner, rest);
    assert s[0] == '(' && s[1..] == inner + (")" + rest);
    assert (")" + rest)[1..] == rest;
  }

  lemma OperatorText(l: string, op: string, r: string, post: string)
    ensures "(" + l + ")" + op + "(" + r + ")" + post == Paren(l, op + Paren(r, post))
  {
  }

  lemma FilterText(input: string, name: string, args: string, post: string)
    ensures "(" + input + ")|" + name + "(" + args + ")" + post == Paren(input, "|" + (name + Paren(args, post)))
  {
  }

  lemma NotText(o: string, post: string)
    ensures "not(" + o + ")" + post == "not" + Paren(o, post)
  {
  }

  lemma FilterParses(input: Expr, name: string, args: seq<Expr>, s: string, list: string, post: string)
    requires ParsePrimary(s) == (input, "|" + (name + Paren(list, post)))
    requires IsWordText(name) && Ends(post)
    requires if args == [] then list == "" else Solid(list) && ArgList(list + (")" + post)) == (args, ")" + post)
    ensures ParseFilter(s) == (Filter(input, name, args), post)
  {
    hide ParsePrimary, ArgList, ReadIdentifier, Paren, FilterArgs;
    var u := "|" + (name + Paren(list, post));
    assert u[0] == '|' && u[1..] == name + Paren(list, post);
    IdentifierReads(name, Paren(list, post));
    ArgumentsParse(args, list, post);
    assert FilterTail(Filter(input, name, args), post) == (Filter(input, name, args), post);
  }

  lemma ArgumentsParse(args: seq<Expr>, list: string, post: string)
    requires if args == [] then list == "" else Solid(list) && ArgList(list + (")" + post)) == (args, ")" + post)
    ensures FilterArgs(Paren(list, post)) == (args, post)
  {
    hide ArgList;
    var v, w := Paren(list, post), list + (")" + post);
    assert v[0] == '(' && v[1..] == w;
    assert (")" + post)[1..] == post;
    if args == [] { assert w == ")" + post; } else { assert w[0] == list[0]; }
  }

  lemma ListLiteralParses(es: seq<Expr>, list: string, post: string)
    requires if es == [] then list == "" else Solid(list) && ArgList(list + "]" + post) == (es, "]" + post)
    ensures ParsePrimary("[" + list + "]" + post) == (ListLiteral(es), post)
  {
    hide ParseOr, DotTail, ArgList, ReadString, ReadIdentifier;
    var s, w := "[" + list + "]" + post, list + "]" + post;
    assert s[0] == '[' && s[1..] == w;
    assert ("]" + post)[1..] == post;
    if es == [] { assert w == "]" + post; } else { assert w[0] == list[0]; }
  }

  lemma NotParses(o: Expr, right: string, post: string)
    requires ParsePrimary(right) == (o, post) && Starts(right, '(') && Ends(post)
    ensures ParseOr("not" + right) == (UnaryNot(o), post)
  {
    hide ParsePrimary, ParseOr, ParseComparison, Matches;
    OpenerNotFree(right);
    ToNot(right, o, post);
    YesMatch("not", right);
    FromNot("not" + right, UnaryNot(o), post);
  }

  lemma EndsBreaks(post: string)
    requires Ends(post)
    ensures Breaks(post)
  {
  }

  /** Printing, then parsing, gives the expression back, in any context a delimiter closes. */
  lemma {:induction false} PrintParses(e: Expr, post: string)
    requires Printable(e) && Ends(post)
    ensures ParseOr(Print(e) + post) == (e, post)
    decreases e, 1
  {
    hide ParseOr, ParsePrimary, ParseFilter, NotFree, ArgList, Solid, IsWordText, PrintValue, IsPlainValue;
    EndsBreaks(post);
    if !e.UnaryNot? { PrintNotFree(e, post); }
    match e
    case Literal(v) =>
      ValueParses(v, post);
      FromPrimary(Print(e) + post, e, post);
    case Variable(_) =>
      ChainParses(e, post);
      FromPrimary(Print(e) + post, e, post);
    case DotAccess(_, _) =>
      ChainParses(e, post);
      FromPrimary(Print(e) + post, e, post);
    case Filter(input, name, args) => PrintedFilterParses(e, input, name, args, post);
    case BinOp(op, l, r) => PrintedOperatorParses(e, op, l, r, post);
    case UnaryNot(o) =>
      PrintParses(o, ")" + post);
      ParenParses(o, Print(o), post);
      NotParses(o, Paren(Print(o), post), post);
      NotText(Print(o), post);
    case ListLiteral(es) =>
      PrintedListParses(es, "]" + post);
      assert PrintList(es) + "]" + post == PrintList(es) + ("]" + post);
      ListLiteralParses(es, PrintList(es), post);
      assert Print(e) + post == "[" + PrintList(es) + "]" + post;
      FromPrimary(Print(e) + post, e, post);
  }

  lemma {:induction false} PrintedFilterParses(e: Expr, input: Expr, name: string, args: seq<Expr>, post: string)
    requires e == Filter(input, name, args)
    requires Printable(input) && IsWordText(name) && PrintableAll(args) && Ends(post)
    ensures ParseOr(Print(e) + post) == (e, post)
    decreases e, 0
  {
    hide ParseOr, ParsePrimary, ParseFilter, NotFree, ArgList, Solid, IsWordText;
    hide Paren;
    var rest := "|" + (name + Paren(PrintList(args), post));
    var s := Paren(Print(input), rest);
    FilterText(Print(input), name, PrintList(args), post);
    PrintParses(input, ")" + rest);
    ParenParses(input, Print(input), rest);
    PrintedListParses(args, ")" + post);
    FilterParses(input, name, args, s, PrintList(args), post);
    OpenerNotFree(s);
    FromFilter(s, e, post);
  }

  lemma {:induction false} PrintedOperatorParses(e: Expr, op: string, l: Expr, r: Expr, post: string)
    requires e == BinOp(op, l, r) && Printable(l) && Printable(r) && op in OPERATORS && Ends(post)
    ensures ParseOr(Print(e) + post) == (e, post)
    decreases e, 0
  {
    hide ParseOr, ParsePrimary, NotFree, Paren, Printable;
    var right := Paren(Print(r), post);
    var s := Paren(Print(l), op + right);
    OperatorText(Print(l), op, Print(r), post);
    PrintParses(l, ")" + (op + right));
    ParenParses(l, Print(l), op + right);
    PrintParses(r, ")" + post);
    ParenParses(r, Print(r), post);
    OpenerNotFree(s);
    OpenerNotFree(right);
    OperatorParses(op, l, r, s, right, post);
  }

  /** A printed list, up to the delimiter that closes it. */
  lemma {:induction false} PrintedListParses(es: seq<Expr>, post: string)
    requires PrintableAll(es) && post != "" && post[0] in {')', ']'}
    ensures if es == [] then PrintList(es) == ""
            else Solid(PrintList(es)) && ArgList(PrintList(es) + post) == (es, post)
    decreases es, 1
  {
    if es != [] {
      hide ParseOr;
      ListSolid(es);
      ArgumentsFollow([], es, post);
      assert [] + [es[0]] == [es[0]] && [] + es == es;
    }
  }

  lemma {:induction false} ListSolid(es: seq<Expr>)
    requires es != [] && PrintableAll(es)
    ensures Solid(PrintList(es))
    decreases es
  {
    PrintSolid(es[0]);
    if |es| > 1 {
      ListSolid(es[1..]);
      var s, t := PrintList(es), PrintList(es[1..]);
      assert s[0] == Print(es[0])[0] && s[|s| - 1] == t[|t| - 1];
    }
  }

  lemma ArgumentsStop(done: seq<Expr>, post: string)
    requires post != "" && post[0] in {')', ']'}
    ensures ArgTail(done, post) == (done, post)
  {
  }

  lemma ArgumentsStep(done: seq<Expr>, next: string, e: Expr, rest: string)
    requires ParseOr(next) == (e, rest)
    ensures ArgTail(done, "," + next) == ArgTail(done + [e], rest)
  {
    hide ParseOr;
    assert ("," + next)[1..] == next;
  }

  lemma {:induction false} ArgumentsFollow(done: seq<Expr>, es: seq<Expr>, post: string)
    requires es != [] && PrintableAll(es) && post != "" && post[0] in {')', ']'}
    ensures var (first, rest) := ParseOr(PrintList(es) + post);
            first == es[0] && ArgTail(done + [first], rest) == (done + es, post)
    decreases es, 0
  {
    hide ParseOr, ArgTail, Printable;
    if |es| == 1 {
      PrintParses(es[0], post);
      ArgumentsStop(done + [es[0]], post);
      assert done + [es[0]] == done + es;
    } else {
      var next := PrintList(es[1..]) + post;
      PrintParses(es[0], "," + next);
      assert PrintList(es) + post == Print(es[0]) + ("," + next);
      ArgumentsFollow(done + [es[0]], es[1..], post);
      var (second, rest) := ParseOr(next);
      ArgumentsStep(done + [es[0]], next, second, rest);
      assert done + [es[0]] + es[1..] == done + es;
    }
  }

  lemma TrimSolid(s: string)
    requires Solid(s)
    ensures Trim(s) == s
  {
  }

  /** A printed expression parses back to itself and nothing of the text is left over. */
  lemma ParseInvertsPrint(e: Expr)
    requires Printable(e)
    ensures ParseExpr(Print(e)) == e && ParseOr(Trim(Print(e))).1 == ""
  {
    hide ParseOr, Solid, Trim;
    PrintSolid(e);
    TrimSolid(Print(e));
    PrintParses(e, "");
    assert Print(e) + "" == Print(e);
  }
}
