/** The expression parser object: one position moving right over its source, grammar level by grammar level. */
module TplExprParser {
  import opened Ascii
  import opened TplAst
  import opened TplExpr

  class ExprParser {
    const src: string
    var pos: nat

    constructor (source: string)
      ensures src == Trim(source) && pos == 0
    {
      src := Trim(source);
      pos := 0;
    }

    predicate Valid()
      reads this`pos
    {
      pos <= |src|
    }

    function Rest(): string
      requires Valid()
      reads this`pos
    {
      src[pos..]
    }

    /** The whole source as an expression; whether anything is left over is not looked at. */
    method Parse() returns (e: Expr)
      requires Valid()
      modifies this`pos
      ensures Valid() && old(pos) <= pos && (e, Rest()) == ParseOr(old(Rest()))
      decreases |src| - pos, 21
    {
      e := Or();
    }

    // ----------------------------------------------------------------
    // Reading characters
    // ----------------------------------------------------------------

    method SkipWS()
      requires Valid()
      modifies this`pos
      ensures Valid() && old(pos) <= pos && Rest() == SkipSpace(old(Rest()))
    {
      while pos < |src| && IsSpace(src[pos])
        invariant Valid() && old(pos) <= pos && SkipSpace(Rest()) == SkipSpace(old(Rest()))
      {
        assert Rest()[1..] == src[pos + 1..];
        pos := pos + 1;
      }
    }

    /** Whether `c` comes next, after white space. */
    method Peek(c: char) returns (found: bool)
      requires Valid()
      modifies this`pos
      ensures Valid() && old(pos) <= pos && Rest() == SkipSpace(old(Rest())) && found == Starts(Rest(), c)
    {
      SkipWS();
      found := pos < |src| && src[pos] == c;
    }

    method MatchStr(t: string) returns (found: bool)
      requires Valid() && t != ""
      modifies this`pos
      ensures Valid() && (found, Rest()) == TplExpr.MatchStr(old(Rest()), t)
      ensures old(pos) <= pos && (found ==> old(pos) < pos)
    {
      SkipWS();
      if t <= src[pos..] {
        if IsLetter(t[0]) && pos + |t| < |src| && IsWord(src[pos + |t|]) { return false; }
        assert src[pos..][|t|..] == src[pos + |t|..];
        pos := pos + |t|;
        return true;
      }
      return false;
    }

    method ReadIdentifier() returns (name: string)
      requires Valid()
      modifies this`pos
      ensures Valid() && old(pos) <= pos && (name, Rest()) == TplExpr.ReadIdentifier(old(Rest()))
    {
      hide SkipSpace, WordLength;
      SkipWS();
      ghost var u := Rest();
      var start := pos;
      PassWord();
      name := src[start..pos];
      assert u[..pos - start] == name && u[pos - start..] == Rest();
    }

    /** Past the word characters that follow. */
    method PassWord()
      requires Valid()
      modifies this`pos
      ensures Valid() && pos == old(pos) + WordLength(old(Rest()))
    {
      while pos < |src| && IsWord(src[pos])
        invariant old(pos) <= pos <= |src| && WordLength(old(Rest())) == pos - old(pos) + WordLength(Rest())
      {
        assert Rest()[1..] == src[pos + 1..];
        pos := pos + 1;
      }
    }

    /** A string literal; the position is at its opening quote. */
    method ReadString(quote: char) returns (text: string)
      requires Valid() && pos < |src|
      modifies this`pos
      ensures Valid() && old(pos) < pos && (text, Rest()) == TplExpr.ReadString(src[old(pos) + 1..], quote)
    {
      hide TplExpr.ReadString, Unescape;
      pos := pos + 1;
      text := "";
      ghost var whole := TplExpr.ReadString(Rest(), quote);
      assert "" + whole.0 == whole.0;
      while pos < |src| && src[pos] != quote
        invariant Valid() && old(pos) < pos
        invariant whole == (text + TplExpr.ReadString(Rest(), quote).0, TplExpr.ReadString(Rest(), quote).1)
      {
        ReadOn(text, src, pos, quote);
        if src[pos] == '\\' && pos + 1 < |src| {
          pos := pos + 1;
          text := text + [Unescape(src[pos])];
        } else {
          text := text + [src[pos]];
        }
        pos := pos + 1;
      }
      ReadEnds(text, src, pos, quote);
      if pos < |src| { pos := pos + 1; }
    }

    /** One character of a string literal, escaped or not, goes from what remains to what has been read. */
    static lemma ReadOn(text: string, src: string, pos: nat, quote: char)
      requires pos < |src| && src[pos] != quote
      ensures var (t, r) := TplExpr.ReadString(src[pos..], quote);
              if src[pos] == '\\' && pos + 1 < |src| then
                var (u, q) := TplExpr.ReadString(src[pos + 2..], quote);
                text + t == text + [Unescape(src[pos + 1])] + u && r == q
              else
                var (u, q) := TplExpr.ReadString(src[pos + 1..], quote);
                text + t == text + [src[pos]] + u && r == q
    {
      hide Unescape;
      var s := src[pos..];
      assert s[0] == src[pos] && s[1..] == src[pos + 1..];
      if src[pos] == '\\' && pos + 1 < |src| {
        assert s[1] == src[pos + 1] && s[2..] == src[pos + 2..];
        Regroup(text, Unescape(src[pos + 1]), TplExpr.ReadString(src[pos + 2..], quote).0);
      } else {
        Regroup(text, src[pos], TplExpr.ReadString(src[pos + 1..], quote).0);
      }
    }

    static lemma ReadEnds(text: string, src: string, pos: nat, quote: char)
      requires pos <= |src| && (pos < |src| ==> src[pos] == quote)
      ensures TplExpr.ReadString(src[pos..], quote) == ("", if pos < |src| then src[pos + 1..] else "")
      ensures text + "" == text && src[|src|..] == ""
    {
      if pos < |src| { assert src[pos..][0] == quote && src[pos..][1..] == src[pos + 1..]; }
    }

    /** Digits and points, as many as follow. */
    method ReadDigits() returns (hasDot: bool)
      requires Valid()
      modifies this`pos
      ensures Valid() && pos == old(pos) + NumberLength(old(Rest()))
      ensures hasDot <==> '.' in src[old(pos)..pos]
    {
      hasDot := false;
      var start := pos;
      while pos < |src| && (IsDigit(src[pos]) || src[pos] == '.')
        invariant start <= pos <= |src| && NumberLength(old(Rest())) == pos - start + NumberLength(Rest())
        invariant hasDot <==> '.' in src[start..pos]
      {
        if src[pos] == '.' { hasDot := true; }
        assert Rest()[1..] == src[pos + 1..];
        assert src[start..pos + 1] == src[start..pos] + [src[pos]];
        pos := pos + 1;
      }
    }

    /** The literal of a number, its sign included. */
    method ReadNumber() returns (e: Expr)
      requires Valid() && Rest() != ""
      requires IsDigit(Rest()[0]) || (Rest()[0] == '-' && |Rest()| > 1 && IsDigit(Rest()[1]))
      modifies this`pos
      ensures Valid() && old(pos) <= pos && (e, Rest()) == ParsePrimary(old(Rest()))
    {
      hide ToDouble, ToLongLong, NumberLength, ParsePrimary;
      var start := pos;
      ghost var u := Rest();
      ghost var sign := if u[0] == '-' then 1 else 0;
      if src[pos] == '-' { pos := pos + 1; }
      assert u[sign..] == Rest();
      var hasDot := ReadDigits();
      var num := src[start..pos];
      assert u[..pos - start] == num && u[pos - start..] == Rest();
      if sign == 1 { assert num == "-" + src[start + 1..pos]; }
      assert hasDot <==> '.' in num;
      e := if hasDot then Literal(Double(ToDouble(num))) else Literal(Int(ToLongLong(num)));
      NumberParses(u);
    }

    // ----------------------------------------------------------------
    // The grammar
    // ----------------------------------------------------------------

    method Or() returns (left: Expr)
      requires Valid()
      modifies this`pos
      ensures Valid() && old(pos) <= pos && (left, Rest()) == ParseOr(old(Rest()))
      decreases |src| - pos, 20
    {
      hide ParseAnd, TplExpr.MatchStr;
      left := And();
      ghost var whole := ParseOr(old(Rest()));
      while true
        invariant Valid() && old(pos) <= pos && whole == OrTail(left, Rest())
        decreases |src| - pos
      {
        var found := MatchStr("or");
        if !found { break; }
        var right := And();
        left := BinOp("or", left, right);
      }
    }

    method And() returns (left: Expr)
      requires Valid()
      modifies this`pos
      ensures Valid() && old(pos) <= pos && (left, Rest()) == ParseAnd(old(Rest()))
      decreases |src| - pos, 18
    {
      hide ParseNot, TplExpr.MatchStr;
      left := Not();
      ghost var whole := ParseAnd(old(Rest()));
      while true
        invariant Valid() && old(pos) <= pos && whole == AndTail(left, Rest())
        decreases |src| - pos
      {
        var found := MatchStr("and");
        if !found { break; }
        var right := Not();
        left := BinOp("and", left, right);
      }
    }

    method Not() returns (e: Expr)
      requires Valid()
      modifies this`pos
      ensures Valid() && old(pos) <= pos && (e, Rest()) == ParseNot(old(Rest()))
      decreases |src| - pos, 16
    {
      hide ParseComparison;
      var found := MatchStr("not");
      if found {
        e := Not();
        e := UnaryNot(e);
      } else {
        e := Comparison();
        SpaceOnce(old(Rest()));
      }
    }

    method Comparison() returns (left: Expr)
      requires Valid()
      modifies this`pos
      ensures Valid() && old(pos) <= pos && (left, Rest()) == ParseComparison(old(Rest()))
      decreases |src| - pos, 15
    {
      hide ParseAddSub, TplExpr.MatchStr;
      left := AddSub();
      SkipWS();
      ghost var u := Rest();
      for i := 0 to |COMPARISONS|
        invariant Valid() && old(pos) <= pos && Rest() == u
        invariant FindComparison(u, 0) == FindComparison(u, i)
      {
        Matched(u, COMPARISONS[i]);
        var found := MatchStr(COMPARISONS[i]);
        if found {
          var right := AddSub();
          left := BinOp(COMPARISONS[i], left, right);
          return;
        }
      }
      left := Membership(left);
    }

    /** The end of a comparison: `not in`, `in`, or neither. */
    method Membership(left: Expr) returns (e: Expr)
      requires Valid() && SkipSpace(Rest()) == Rest() && FindComparison(Rest(), 0) == |COMPARISONS|
      modifies this`pos
      ensures Valid() && old(pos) <= pos
      ensures (e, Rest()) == MembershipTail(left, old(Rest()))
      decreases |src| - pos, 14, 1
    {
      hide ParseAddSub, TplExpr.MatchStr;
      Matched(Rest(), "not in");
      Matched(Rest(), "in");
      var found := MatchStr("not in");
      if found {
        var right := AddSub();
        return UnaryNot(BinOp("in", left, right));
      }
      found := MatchStr("in");
      if found {
        var right := AddSub();
        return BinOp("in", left, right);
      }
      e := left;
    }

    method AddSub() returns (left: Expr)
      requires Valid()
      modifies this`pos
      ensures Valid() && old(pos) <= pos && (left, Rest()) == ParseAddSub(old(Rest()))
      decreases |src| - pos, 14, 0
    {
      hide ParseMulDiv, TplExpr.MatchStr;
      left := MulDiv();
      ghost var whole := ParseAddSub(old(Rest()));
      while true
        invariant Valid() && old(pos) <= pos && whole == AddTail(left, Rest())
        decreases |src| - pos
      {
        SkipWS();
        ghost var u := Rest();
        Matched(u, "+");
        Matched(u, "-");
        var found := MatchStr("+");
        if found {
          var right := MulDiv();
          left := BinOp("+", left, right);
        } else {
          found := MatchStr("-");
          if !found { break; }
          var right := MulDiv();
          left := BinOp("-", left, right);
        }
      }
    }

    /** The multiplicative operator that comes next, if any. */
    method MulOp() returns (op: string)
      requires Valid() && SkipSpace(Rest()) == Rest()
      modifies this`pos
      ensures Valid() && op == MulOperator(old(Rest())) && pos == old(pos) + |op|
    {
      hide TplExpr.MatchStr;
      ghost var u := Rest();
      Matched(u, "*");
      Matched(u, "//");
      Matched(u, "/");
      Matched(u, "%");
      var found := MatchStr("*");
      if found { return "*"; }
      found := MatchStr("//");
      if found { return "//"; }
      found := MatchStr("/");
      if found { return "/"; }
      found := MatchStr("%");
      if found { return "%"; }
      op := "";
    }

    method MulDiv() returns (left: Expr)
      requires Valid()
      modifies this`pos
      ensures Valid() && old(pos) <= pos && (left, Rest()) == ParseMulDiv(old(Rest()))
      decreases |src| - pos, 12
    {
      hide ParseFilter, MulOperator;
      left := FilterChain();
      ghost var whole := ParseMulDiv(old(Rest()));
      while true
        invariant Valid() && old(pos) <= pos && whole == MulTail(left, Rest())
        decreases |src| - pos
      {
        SkipWS();
        ghost var u := Rest();
        var op := MulOp();
        if op == "" { break; }
        assert Rest() == u[|op|..];
        var right := FilterChain();
        left := BinOp(op, left, right);
      }
    }

    method FilterChain() returns (expr: Expr)
      requires Valid()
      modifies this`pos
      ensures Valid() && old(pos) <= pos && (expr, Rest()) == ParseFilter(old(Rest()))
      decreases |src| - pos, 10
    {
      hide ParsePrimary, TplExpr.ReadIdentifier, TplExpr.FilterArgs;
      expr := Primary();
      ghost var whole := ParseFilter(old(Rest()));
      while true
        invariant Valid() && old(pos) <= pos && whole == FilterTail(expr, Rest())
        decreases |src| - pos
      {
        var found := Peek('|');
        if !found { break; }
        ghost var u := Rest();
        pos := pos + 1;
        assert u[1..] == Rest();
        var name := ReadIdentifier();
        var args := FilterArgs();
        expr := Filter(expr, name, args);
      }
    }

    method FilterArgs() returns (args: seq<Expr>)
      requires Valid()
      modifies this`pos
      ensures Valid() && old(pos) <= pos && (args, Rest()) == TplExpr.FilterArgs(old(Rest()))
      decreases |src| - pos, 9
    {
      hide TplExpr.ArgList;
      args := [];
      var found := Peek('(');
      if found {
        ghost var u := Rest();
        pos := pos + 1;
        assert u[1..] == Rest();
        found := Peek(')');
        if !found { args := ArgList(); }
        Close(')');
      }
    }

    /** Past a closing character, when it is there. */
    method Close(c: char)
      requires Valid()
      modifies this`pos
      ensures Valid() && old(pos) <= pos && Rest() == DropChar(old(Rest()), c)
    {
      var found := Peek(c);
      if found {
        assert Rest()[1..] == src[pos + 1..];
        pos := pos + 1;
      }
    }

    method ArgList() returns (args: seq<Expr>)
      requires Valid()
      modifies this`pos
      ensures Valid() && old(pos) <= pos && (args, Rest()) == TplExpr.ArgList(old(Rest()))
      decreases |src| - pos, 22
    {
      hide ParseOr;
      var first := Parse();
      args := [first];
      ghost var whole := TplExpr.ArgList(old(Rest()));
      while true
        invariant Valid() && old(pos) <= pos && whole == ArgTail(args, Rest())
        decreases |src| - pos
      {
        var found := Peek(',');
        if !found { break; }
        ghost var u := Rest();
        pos := pos + 1;
        assert u[1..] == Rest();
        var next := Parse();
        args := args + [next];
      }
    }

    method Primary() returns (e: Expr)
      requires Valid()
      modifies this`pos
      ensures Valid() && old(pos) <= pos && (e, Rest()) == ParsePrimary(old(Rest()))
      decreases |src| - pos, 6
    {
      hide ParsePrimary, ParseOr, TplExpr.ReadString;
      SkipWS();
      PrimarySkips(old(Rest()));
      EdgesParse(Rest());
      if pos >= |src| { return Literal(Invalid); }
      ghost var u := Rest();
      assert u[1..] == src[pos + 1..];
      var ch := src[pos];
      if ch == '"' || ch == '\'' {
        var text := ReadString(ch);
        return Literal(Str(text));
      }
      if ch == '(' {
        e := Group();
        return;
      }
      if ch == '[' {
        e := Elements();
        return;
      }
      if IsDigit(ch) || (ch == '-' && pos + 1 < |src| && IsDigit(src[pos + 1])) {
        e := ReadNumber();
        return;
      }
      if IsLetter(ch) || ch == '_' {
        e := Name();
        return;
      }
      pos := pos + 1;
      return Literal(Invalid);
    }

    /** An expression in parentheses, the last of which may be missing. */
    method Group() returns (e: Expr)
      requires Valid() && Starts(Rest(), '(')
      modifies this`pos
      ensures Valid() && old(pos) <= pos && (e, Rest()) == ParsePrimary(old(Rest()))
      decreases |src| - pos, 5
    {
      hide ParseOr, TplExpr.ArgList, DotTail, TplExpr.ReadString, TplExpr.ReadIdentifier, ParseNumber;
      ghost var u := Rest();
      pos := pos + 1;
      assert u[1..] == Rest();
      e := Parse();
      Close(')');
    }

    /** A list literal, whose closing bracket may be missing. */
    method Elements() returns (e: Expr)
      requires Valid() && Starts(Rest(), '[')
      modifies this`pos
      ensures Valid() && old(pos) <= pos && (e, Rest()) == ParsePrimary(old(Rest()))
      decreases |src| - pos, 5
    {
      hide ParseOr, TplExpr.ArgList, DotTail, TplExpr.ReadString, TplExpr.ReadIdentifier, ParseNumber;
      ghost var u := Rest();
      pos := pos + 1;
      assert u[1..] == Rest();
      var elements := [];
      var found := Peek(']');
      if !found { elements := ArgList(); }
      Close(']');
      return ListLiteral(elements);
    }

    /** A word literal, or a variable and its fields. */
    method Name() returns (e: Expr)
      requires Valid() && Rest() != "" && (IsLetter(Rest()[0]) || Rest()[0] == '_')
      modifies this`pos
      ensures Valid() && old(pos) <= pos && (e, Rest()) == ParsePrimary(old(Rest()))
      decreases |src| - pos, 5
    {
      hide ParseOr, TplExpr.ArgList, TplExpr.ReadString, TplExpr.ReadIdentifier, ParseNumber;
      var id := ReadIdentifier();
      if id == "true" { return Literal(Bool(true)); }
      if id == "false" { return Literal(Bool(false)); }
      if id == "none" || id == "None" { return Literal(Invalid); }
      e := Variable(id);
      ghost var whole := DotTail(e, Rest());
      while true
        invariant Valid() && old(pos) <= pos && whole == DotTail(e, Rest())
        decreases |src| - pos
      {
        var found := Peek('.');
        if !found { break; }
        ghost var u := Rest();
        pos := pos + 1;
        assert u[1..] == Rest();
        var field := ReadIdentifier();
        if field != "" { e := DotAccess(e, field); }
      }
    }
  }

  /** A whole source text through the parser object. */
  method ParseSource(source: string) returns (e: Expr)
    ensures e == ParseExpr(source)
  {
    var parser := new ExprParser(source);
    e := parser.Parse();
  }

  // ------------------------------------------------------------------
  // White space and operators, as the loops meet them
  // ------------------------------------------------------------------

  lemma Regroup(a: string, c: char, b: string)
    ensures a + ([c] + b) == a + [c] + b
  {
  }

  lemma SpaceOnce(s: string)
    ensures SkipSpace(SkipSpace(s)) == SkipSpace(s)
  {
  }

  lemma Matched(u: string, t: string)
    requires t != "" && SkipSpace(u) == u
    ensures TplExpr.MatchStr(u, t) == if Matches(u, t) then (true, u[|t|..]) else (false, u)
  {
  }

  lemma PrimarySkips(s: string)
    ensures ParsePrimary(SkipSpace(s)) == ParsePrimary(s)
  {
    SpaceOnce(s);
  }

  lemma NumberParses(u: string)
    requires u != "" && (IsDigit(u[0]) || (u[0] == '-' && |u| > 1 && IsDigit(u[1])))
    ensures ParsePrimary(u) == ParseNumber(u)
  {
    hide ParseOr, TplExpr.ArgList, DotTail, TplExpr.ReadString, TplExpr.ReadIdentifier, ParseNumber;
  }

  /** A string literal, the end of the text, or a character no expression starts with. */
  lemma EdgesParse(u: string)
    requires SkipSpace(u) == u
    ensures u == "" ==> ParsePrimary(u) == (Literal(Invalid), "")
    ensures u != "" && u[0] in {'"', '\''} ==>
              var (text, rest) := TplExpr.ReadString(u[1..], u[0]); ParsePrimary(u) == (Literal(Str(text)), rest)
    ensures u != "" && u[0] !in {'"', '\'', '(', '[', '_'} && !IsDigit(u[0]) && !IsLetter(u[0])
            && !(u[0] == '-' && |u| > 1 && IsDigit(u[1]))
            ==> ParsePrimary(u) == (Literal(Invalid), u[1..])
  {
    hide SkipSpace, DropChar, ParseOr, TplExpr.ArgList, DotTail, TplExpr.ReadString, TplExpr.ReadIdentifier,
         ParseNumber;
  }
}
