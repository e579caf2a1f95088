/**
 * Precedence and associativity: expressions written with no more parentheses
 * than the grammar's levels require, and the proof that the parser reads them
 * back.
 */
module TplPrecedence {
  import opened Ascii
  import opened TplAst
  import opened TplExpr
  import opened TplPrint

  const COMPARE: set<string> := {"==", "!=", "<=", ">=", "<", ">", "in"}

  /** A negated membership, which has an operator of its own. */
  predicate IsNotIn(e: Expr) { e.UnaryNot? && e.operand.BinOp? && e.operand.op == "in" }

  /** The level of the grammar an expression belongs to: or, and, not, comparison, sum, product, filter, primary. */
  function Level(e: Expr): (k: nat)
    ensures k <= 7
  {
    match e
    case BinOp(op, _, _) =>
      if op == "or" then 0 else if op == "and" then 1 else if op in COMPARE then 3
      else if op in {"+", "-"} then 4 else 5
    case UnaryNot(_) => if IsNotIn(e) then 3 else 2
    case Filter(_, _, _) => 6
    case _ => 7
  }

  /** Operators of a level associate to the left; comparisons do not associate. */
  function LeftLevel(k: nat): nat { if k == 3 then 4 else k }

  function Text(e: Expr): string
    decreases e, 0
  {
    match e
    case Filter(input, name, args) => At(input, 6) + "|" + name + "(" + TextList(args) + ")"
    case BinOp(op, l, r) => At(l, LeftLevel(Level(e))) + " " + op + " " + At(r, Level(e) + 1)
    case UnaryNot(o) =>
      if IsNotIn(e) then At(o.left, 4) + " not in " + At(o.right, 4) else "not " + At(o, 2)
    case ListLiteral(es) => "[" + TextList(es) + "]"
    case _ => Print(e)
  }

  /** The expression where the grammar expects level k: in parentheses exactly when it belongs to a lower one. */
  function At(e: Expr, k: nat): string
    decreases e, 1
  {
    if Level(e) < k then "(" + Text(e) + ")" else Text(e)
  }

  function TextList(es: seq<Expr>): string
    decreases es
  {
    if es == [] then "" else if |es| == 1 then Text(es[0]) else Text(es[0]) + "," + TextList(es[1..])
  }

  // ------------------------------------------------------------------
  // What follows
  // ------------------------------------------------------------------

  /** The first character that is not a space is none of these. */
  predicate Next(rest: string, taken: set<char>) {
    var u := SkipSpace(rest);
    u == "" || u[0] !in taken
  }

  const DOT: set<char> := {'.'}
  const TO_FILTER: set<char> := {'.', '|'}
  const TO_MUL: set<char> := {'.', '|', '*', '/', '%'}
  const TO_ADD: set<char> := {'.', '|', '*', '/', '%', '+', '-'}
  const TO_COMPARE: set<char> := {'.', '|', '*', '/', '%', '+', '-', '=', '!', '<', '>', 'n', 'i'}
  const TO_AND: set<char> := {'.', '|', '*', '/', '%', '+', '-', '=', '!', '<', '>', 'n', 'i', 'a'}

  lemma SpaceTwice(s: string)
    ensures SkipSpace(SkipSpace(s)) == SkipSpace(s)
  {
  }

  lemma Spaced(s: string)
    ensures SkipSpace(" " + s) == SkipSpace(s)
  {
    assert (" " + s)[1..] == s;
  }

  /** No operator of a level follows: its loop stops, past the white space. */
  lemma FilterEnds(e: Expr, rest: string)
    requires Next(rest, {'|'})
    ensures FilterTail(e, rest) == (e, SkipSpace(rest))
  {
  }

  lemma MulEnds(e: Expr, rest: string)
    requires Next(rest, {'*', '/', '%'})
    ensures MulTail(e, rest) == (e, SkipSpace(rest))
  {
    var u := SkipSpace(rest);
    NoPrefix(u, "*");
    NoPrefix(u, "/");
    NoPrefix(u, "//");
    NoPrefix(u, "%");
  }

  lemma AddEnds(e: Expr, rest: string)
    requires Next(rest, {'+', '-'})
    ensures AddTail(e, rest) == (e, SkipSpace(rest))
  {
    var u := SkipSpace(rest);
    NoPrefix(u, "+");
    NoPrefix(u, "-");
  }

  lemma AndEnds(e: Expr, rest: string)
    requires Next(rest, {'a'})
    ensures AndTail(e, rest) == (e, SkipSpace(rest))
  {
    NoPrefix(SkipSpace(rest), "and");
  }

  lemma OrEnds(e: Expr, rest: string)
    requires Next(rest, {'o'})
    ensures OrTail(e, rest) == (e, SkipSpace(rest))
  {
    NoPrefix(SkipSpace(rest), "or");
  }

  lemma TailsSkip(e: Expr, rest: string)
    ensures FilterTail(e, SkipSpace(rest)) == FilterTail(e, rest)
    ensures MulTail(e, SkipSpace(rest)) == MulTail(e, rest)
    ensures AddTail(e, SkipSpace(rest)) == AddTail(e, rest)
  {
    SpaceTwice(rest);
  }

  lemma WordTailsSkip(e: Expr, rest: string)
    ensures AndTail(e, SkipSpace(rest)) == AndTail(e, rest)
    ensures OrTail(e, SkipSpace(rest)) == OrTail(e, rest)
  {
    SpaceTwice(rest);
  }

  /** A blank in front makes no difference to a level. */
  lemma BlankFilter(s: string)
    ensures ParseFilter(" " + s) == ParseFilter(s)
  {
    BlankPrimary(s);
    hide ParsePrimary;
  }

  lemma BlankPrimary(s: string)
    ensures ParsePrimary(" " + s) == ParsePrimary(s)
  {
    hide ParseOr, ArgList, ReadString, ReadIdentifier, DotTail, ParseNumber;
    Spaced(s);
  }

  lemma BlankSum(s: string)
    ensures ParseMulDiv(" " + s) == ParseMulDiv(s) && ParseAddSub(" " + s) == ParseAddSub(s)
  {
    hide ParseFilter, MulTail, AddTail;
    BlankFilter(s);
  }

  lemma BlankNot(s: string)
    ensures ParseNot(" " + s) == ParseNot(s)
  {
    hide ParseComparison, Matches;
    Spaced(s);
  }

  lemma BlankAnd(s: string)
    ensures ParseAnd(" " + s) == ParseAnd(s)
  {
    hide ParseNot, AndTail;
    BlankNot(s);
  }

  // ------------------------------------------------------------------
  // Operators between blanks
  // ------------------------------------------------------------------

  /** What follows a left operand: a blank, the operator, a blank, the right operand, the rest. */
  function Infix(op: string, right: string, rest: string): string { " " + (op + (" " + (right + rest))) }

  lemma InfixText(left: string, op: string, right: string, rest: string)
    ensures left + " " + op + " " + right + rest == left + Infix(op, right, rest)
  {
  }

  lemma InfixNext(op: string, right: string, rest: string)
    requires op != "" && !IsSpace(op[0])
    ensures SkipSpace(Infix(op, right, rest)) == op + (" " + (right + rest))
    ensures Apart(Infix(op, right, rest))
    ensures forall taken: set<char> :: Next(Infix(op, right, rest), taken) <==> op[0] !in taken
  {
    var u := op + (" " + (right + rest));
    Spaced(u);
    assert u[0] == op[0];
  }

  lemma MulFoundSpaced(op: string, more: string)
    requires op in {"*", "/", "//", "%"}
    ensures MulOperator(op + (" " + more)) == op && (op + (" " + more))[|op|..] == " " + more
  {
    var s := op + (" " + more);
    YesMatch(op, " " + more);
    assert s[0] == op[0] && s[1] == (if |op| == 2 then op[1] else ' ');
    if op != "*" { NoPrefix(s, "*"); }
    if op == "%" { NoPrefix(s, "/"); NoPrefix(s, "//"); }
  }

  lemma ComparisonFoundSpaced(op: string, more: string)
    requires op in {"==", "!=", "<=", ">=", "<", ">"}
    ensures var k := FindComparison(op + (" " + more), 0); k < |COMPARISONS| && COMPARISONS[k] == op
    ensures (op + (" " + more))[|op|..] == " " + more
  {
    YesMatch(op, " " + more);
    hide Matches, FindComparison;
    if op == "==" { PairFound(0, more); }
    else if op == "!=" { PairFound(1, more); }
    else if op == "<=" { PairFound(2, more); }
    else if op == ">=" { PairFound(3, more); }
    else if op == "<" { SignFound(4, more); }
    else { SignFound(5, more); }
  }

  lemma PairFound(k: nat, more: string)
    requires k < 4
    ensures FindComparison(COMPARISONS[k] + (" " + more), 0) == k
  {
    hide Matches, FindComparison;
    var op := COMPARISONS[k];
    var u := op + (" " + more);
    YesMatch(op, " " + more);
    assert u[0] == op[0] && u[1] == op[1];
    forall i | 0 <= i < k ensures !Matches(u, COMPARISONS[i]) { NotThatPair(u, COMPARISONS[i]); }
    FirstComparison(u, k);
  }

  lemma SignFound(k: nat, more: string)
    requires 4 <= k < 6
    ensures FindComparison(COMPARISONS[k] + (" " + more), 0) == k
  {
    hide Matches, FindComparison;
    var op := COMPARISONS[k];
    var u := op + (" " + more);
    YesMatch(op, " " + more);
    assert u[0] == op[0] && u[1] == ' ';
    forall i | 0 <= i < k ensures !Matches(u, COMPARISONS[i]) {
      if i < 4 { NotThatPair(u, COMPARISONS[i]); } else { NotThatSign(u, COMPARISONS[i]); }
    }
    FirstComparison(u, k);
  }

  lemma NotThatPair(u: string, t: string)
    requires |t| == 2 && |u| >= 2 && (u[0] != t[0] || u[1] != t[1])
    ensures !Matches(u, t)
  {
  }

  lemma NotThatSign(u: string, t: string)
    requires |t| == 1 && u != "" && u[0] != t[0]
    ensures !Matches(u, t)
  {
  }

  /** The search stops at the first comparison that matches. */
  lemma FirstComparison(u: string, k: nat)
    requires k < |COMPARISONS| && Matches(u, COMPARISONS[k])
    requires forall i :: 0 <= i < k ==> !Matches(u, COMPARISONS[i])
    ensures FindComparison(u, 0) == k
  {
    hide Matches;
    FirstFrom(u, 0, k);
  }

  lemma {:induction false} FirstFrom(u: string, i: nat, k: nat)
    requires i <= k < |COMPARISONS| && Matches(u, COMPARISONS[k])
    requires forall j :: i <= j < k ==> !Matches(u, COMPARISONS[j])
    ensures FindComparison(u, i) == k
    decreases k - i
  {
    hide Matches;
    if i < k { FirstFrom(u, i + 1, k); }
  }

  lemma AddFoundSpaced(op: string, more: string)
    requires op in {"+", "-"}
    ensures Matches(op + (" " + more), op) && (op + (" " + more))[1..] == " " + more
    ensures op == "-" ==> !Matches(op + (" " + more), "+")
  {
    YesMatch(op, " " + more);
    if op == "-" { NoPrefix(op + (" " + more), "+"); }
  }

  lemma InFoundSpaced(more: string)
    ensures var u := "in" + (" " + more);
            FindComparison(u, 0) == |COMPARISONS| && !Matches(u, "not in") && Matches(u, "in") && u[2..] == " " + more
  {
    var u := "in" + (" " + more);
    assert u[0] == 'i' && u[1] == 'n' && u[2] == ' ';
    NoComparison(u);
    NoPrefix(u, "not in");
    YesMatch("in", " " + more);
  }

  lemma NotInFoundSpaced(more: string)
    ensures var u := "not in" + (" " + more);
            FindComparison(u, 0) == |COMPARISONS| && Matches(u, "not in") && u[6..] == " " + more
  {
    var u := "not in" + (" " + more);
    assert u[0] == 'n';
    NoComparison(u);
    YesMatch("not in", " " + more);
  }

  // ------------------------------------------------------------------
  // One step of each level
  // ------------------------------------------------------------------

  lemma MulStep(op: string, l: Expr, r: Expr, s: string, right: string, rest: string)
    requires op in {"*", "/", "//", "%"} && Next(rest, TO_FILTER)
    requires ParseMulDiv(s) == MulTail(l, Infix(op, right, rest)) && ParseFilter(right + rest) == FilterTail(r, rest)
    ensures ParseMulDiv(s) == MulTail(BinOp(op, l, r), rest)
  {
    hide ParseMulDiv, ParseFilter, FilterTail, MulOperator, Infix;
    InfixNext(op, right, rest);
    MulFoundSpaced(op, right + rest);
    BlankFilter(right + rest);
    FilterEnds(r, rest);
    TailsSkip(BinOp(op, l, r), rest);
  }

  lemma AddStep(op: string, l: Expr, r: Expr, s: string, right: string, rest: string)
    requires op in {"+", "-"} && Next(rest, TO_MUL)
    requires ParseAddSub(s) == AddTail(l, Infix(op, right, rest)) && ParseMulDiv(right + rest) == MulTail(r, rest)
    ensures ParseAddSub(s) == AddTail(BinOp(op, l, r), rest)
  {
    hide ParseAddSub, ParseMulDiv, MulTail, Matches, Infix;
    InfixNext(op, right, rest);
    AddFoundSpaced(op, right + rest);
    BlankSum(right + rest);
    MulEnds(r, rest);
    TailsSkip(BinOp(op, l, r), rest);
  }

  lemma CompareStep(op: string, l: Expr, r: Expr, s: string, right: string, rest: string)
    requires op in COMPARE && Next(rest, TO_ADD)
    requires ParseAddSub(s) == AddTail(l, Infix(op, right, rest)) && ParseAddSub(right + rest) == AddTail(r, rest)
    ensures ParseComparison(s) == (BinOp(op, l, r), SkipSpace(rest))
  {
    hide ParseAddSub, AddTail, FindComparison, Matches, Infix;
    InfixNext(op, right, rest);
    AddEnds(l, Infix(op, right, rest));
    SpaceTwice(Infix(op, right, rest));
    BlankSum(right + rest);
    AddEnds(r, rest);
    if op == "in" { InFoundSpaced(right + rest); } else { ComparisonFoundSpaced(op, right + rest); }
  }

  lemma NotInStep(l: Expr, r: Expr, s: string, right: string, rest: string)
    requires Next(rest, TO_ADD)
    requires ParseAddSub(s) == AddTail(l, Infix("not in", right, rest)) && ParseAddSub(right + rest) == AddTail(r, rest)
    ensures ParseComparison(s) == (UnaryNot(BinOp("in", l, r)), SkipSpace(rest))
  {
    hide ParseAddSub, AddTail, FindComparison, Matches, Infix;
    InfixNext("not in", right, rest);
    AddEnds(l, Infix("not in", right, rest));
    SpaceTwice(Infix("not in", right, rest));
    BlankSum(right + rest);
    AddEnds(r, rest);
    NotInFoundSpaced(right + rest);
  }

  lemma CompareEnds(s: string, e: Expr, rest: string)
    requires ParseAddSub(s) == AddTail(e, rest) && Next(rest, TO_COMPARE)
    ensures ParseComparison(s) == (e, SkipSpace(rest))
  {
    hide ParseAddSub, AddTail, FindComparison;
    AddEnds(e, rest);
    SpaceTwice(rest);
    var u := SkipSpace(rest);
    NoComparison(u);
    NoPrefix(u, "not in");
    NoPrefix(u, "in");
  }

  lemma AndStep(l: Expr, r: Expr, s: string, right: string, rest: string)
    requires ParseAnd(s) == AndTail(l, Infix("and", right, rest)) && ParseNot(right + rest) == (r, SkipSpace(rest))
    ensures ParseAnd(s) == AndTail(BinOp("and", l, r), rest)
  {
    hide ParseAnd, ParseNot, Matches, Infix;
    InfixNext("and", right, rest);
    WordFound("and", Infix("and", right, rest), right + rest);
    BlankNot(right + rest);
    WordTailsSkip(BinOp("and", l, r), rest);
  }

  lemma WordFound(w: string, s: string, more: string)
    requires w in {"and", "or", "not"} && SkipSpace(s) == w + (" " + more)
    ensures MatchStr(s, w) == (true, " " + more)
  {
    YesMatch(w, " " + more);
  }

  lemma OrStep(l: Expr, r: Expr, s: string, right: string, rest: string)
    requires ParseOr(s) == OrTail(l, Infix("or", right, rest)) && ParseAnd(right + rest) == AndTail(r, rest)
    requires Next(rest, {'a'})
    ensures ParseOr(s) == OrTail(BinOp("or", l, r), rest)
  {
    hide ParseOr, ParseAnd, AndTail, Matches, Infix;
    InfixNext("or", right, rest);
    WordFound("or", Infix("or", right, rest), right + rest);
    BlankAnd(right + rest);
    AndEnds(r, rest);
    WordTailsSkip(BinOp("or", l, r), rest);
  }

  lemma NotStep(o: Expr, right: string, rest: string)
    requires ParseNot(right + rest) == (o, SkipSpace(rest))
    ensures ParseNot("not " + right + rest) == (UnaryNot(o), SkipSpace(rest))
  {
    hide ParseNot, MatchStr;
    var s := "not" + (" " + (right + rest));
    assert "not " + right + rest == s;
    assert s[0] == 'n' && SkipSpace(s) == s;
    WordFound("not", s, right + rest);
    BlankNot(right + rest);
    NotUnfolds(s, " " + (right + rest));
  }

  lemma NotUnfolds(s: string, more: string)
    requires MatchStr(s, "not") == (true, more)
    ensures ParseNot(s) == (UnaryNot(ParseNot(more).0), ParseNot(more).1)
  {
    hide MatchStr, ParseComparison;
  }

  // ------------------------------------------------------------------
  // How the texts start and end
  // ------------------------------------------------------------------

  lemma {:induction false} TextSolid(e: Expr)
    requires Printable(e)
    ensures Solid(Text(e))
    decreases e, 0
  {
    hide Solid, IsChain, IsPlainValue, PrintList, PrintValue, Print, TextList;
    match e
    case Filter(input, name, args) =>
      AtSolid(input, 6);
      SolidCons(At(input, 6), "|" + name + "(" + TextList(args), ")");
      assert Text(e) == At(input, 6) + ("|" + name + "(" + TextList(args)) + ")";
    case BinOp(op, l, r) =>
      AtSolid(l, LeftLevel(Level(e)));
      AtSolid(r, Level(e) + 1);
      SolidMiddle(At(l, LeftLevel(Level(e))), " " + op + " ", At(r, Level(e) + 1));
      assert Text(e) == At(l, LeftLevel(Level(e))) + (" " + op + " ") + At(r, Level(e) + 1);
    case UnaryNot(o) =>
      if IsNotIn(e) {
        AtSolid(o.left, 4);
        AtSolid(o.right, 4);
        SolidMiddle(At(o.left, 4), " not in ", At(o.right, 4));
      } else {
        AtSolid(o, 2);
        SolidWordThen("not", " ", At(o, 2));
        assert "not " == "not" + " ";
      }
    case ListLiteral(es) => SolidEnds(Text(e), '[', TextList(es), ']');
    case Literal(_) => PrintSolid(e);
    case Variable(_) => PrintSolid(e);
    case DotAccess(_, _) => PrintSolid(e);
  }

  lemma {:induction false} AtSolid(e: Expr, k: nat)
    requires Printable(e)
    ensures Solid(At(e, k))
    decreases e, 1
  {
    hide Solid, Text;
    if Level(e) < k { SolidEnds(At(e, k), '(', Text(e), ')'); } else { TextSolid(e); }
  }

  lemma SolidMiddle(a: string, m: string, b: string)
    requires Solid(a) && Solid(b)
    ensures Solid(a + m + b)
  {
    var s := a + m + b;
    assert s[0] == a[0] && s[|s| - 1] == b[|b| - 1];
  }

  lemma SolidCons(a: string, m: string, b: string)
    requires Solid(a) && b == ")"
    ensures Solid(a + m + b)
  {
    var s := a + m + b;
    assert s[0] == a[0] && s[|s| - 1] == ')';
  }

  lemma SolidWordThen(a: string, m: string, b: string)
    requires a == "not" && Solid(b)
    ensures Solid(a + m + b)
  {
    SolidWord(a);
    SolidMiddle(a, m, b);
  }

  lemma {:induction false} TextListSolid(es: seq<Expr>)
    requires es != [] && PrintableAll(es)
    ensures Solid(TextList(es))
    decreases es
  {
    hide Solid, Text;
    TextSolid(es[0]);
    if |es| > 1 {
      TextListSolid(es[1..]);
      SolidMiddle(Text(es[0]), ",", TextList(es[1..]));
    }
  }

  /** Where a comparison is expected, only a name that goes on can start like the word `not`. */
  lemma {:induction false} AtNotFree(e: Expr, k: nat, rest: string)
    requires Printable(e) && 3 <= k <= 7 && Apart(rest)
    ensures NotFree(At(e, k) + rest)
    decreases e
  {
    hide NotFree, IsName, PrintValue, IsPlainValue, Infix, TextList;
    var s := At(e, k) + rest;
    if Level(e) < k {
      assert s[0] == '(';
      OpenerNotFree(s);
    } else {
      assert At(e, k) == Text(e);
      match e
      case Literal(v) => SolidValue(v); ValueNotFree(v, rest);
      case Variable(_) => ChainNotFree(e, rest);
      case DotAccess(_, _) => ChainNotFree(e, rest);
      case ListLiteral(_) =>
        assert s[0] == '[';
        OpenerNotFree(s);
      case Filter(input, name, args) =>
        var more := "|" + name + "(" + TextList(args) + ")" + rest;
        assert s == At(input, 6) + more;
        AtNotFree(input, 6, more);
      case BinOp(op, l, r) =>
        var right := At(r, Level(e) + 1);
        InfixText(At(l, LeftLevel(Level(e))), op, right, rest);
        OperatorStarts(op);
        InfixNext(op, right, rest);
        AtNotFree(l, LeftLevel(Level(e)), Infix(op, right, rest));
      case UnaryNot(o) =>
        var right := At(o.right, 4);
        NotInText(At(o.left, 4), right, rest);
        InfixNext("not in", right, rest);
        AtNotFree(o.left, 4, Infix("not in", right, rest));
    }
  }

  lemma NotInText(left: string, right: string, rest: string)
    ensures left + " not in " + right + rest == left + Infix("not in", right, rest)
  {
    assert " not in " == " " + "not in" + " ";
    InfixText(left, "not in", right, rest);
  }

  lemma OperatorStarts(op: string)
    requires op in OPERATORS
    ensures op != "" && !IsSpace(op[0])
  {
  }

  lemma ChainNotFree(e: Expr, rest: string)
    requires IsChain(e) && Apart(rest)
    ensures NotFree(Print(e) + rest)
  {
    hide NotFree, IsName;
    var name, more := ChainRoot(e);
    assert Print(e) + rest == name + (more + rest);
    NameNotFree(name, more + rest);
  }

  // ------------------------------------------------------------------
  // The parser reads each level back
  // ------------------------------------------------------------------

  /** Termination of the induction: up the levels to the expression's own, or past it to the parentheses. */
  function Rank(e: Expr, k: nat): nat
    requires k <= 7
  {
    if Level(e) < k then 100 - k else 10 - k
  }

  lemma SameAt(e: Expr, k: nat)
    requires Level(e) != k
    ensures At(e, k) == At(e, k + 1)
  {
    hide Text;
  }

  lemma {:induction false} AtFilter(e: Expr, rest: string)
    requires Printable(e) && Apart(rest) && Next(rest, DOT)
    ensures ParseFilter(At(e, 6) + rest) == FilterTail(e, rest)
    decreases e, Rank(e, 6)
  {
    hide ParseOr, ParsePrimary, FilterTail, IsPlainValue, PrintValue, Solid, Next, Apart, ArgList;
    if Level(e) < 6 {
      ParenReads(e, rest);
    } else {
      match e
      case Filter(input, name, args) => FilterReads(e, input, name, args, rest);
      case ListLiteral(es) =>
        ListReads(es, "]" + rest);
        assert TextList(es) + "]" + rest == TextList(es) + ("]" + rest);
        ListLiteralParses(es, TextList(es), rest);
        assert Text(e) + rest == "[" + TextList(es) + "]" + rest;
      case Literal(v) => ValueParses(v, rest);
      case Variable(_) => ChainReads(e, rest);
      case DotAccess(_, _) => ChainReads(e, rest);
      case _ =>
    }
  }

  /** In parentheses the levels start over. */
  lemma {:induction false} ParenReads(e: Expr, rest: string)
    requires Printable(e)
    ensures ParsePrimary("(" + Text(e) + ")" + rest) == (e, rest)
    decreases e, 50
  {
    hide ParseOr, ParsePrimary, OrTail, Text;
    var post := ")" + rest;
    assert SkipSpace(post) == post && post[0] == ')';
    AtOr(e, post);
    OrEnds(e, post);
    ParenParses(e, Text(e), rest);
    assert "(" + Text(e) + ")" + rest == Paren(Text(e), rest);
  }

  lemma ChainReads(e: Expr, rest: string)
    requires IsChain(e) && Apart(rest) && Next(rest, DOT)
    ensures ParseFilter(Print(e) + rest) == FilterTail(e, rest)
  {
    hide ParsePrimary, FilterTail, IsChain, Print;
    ChainPrimary(e, rest);
    assert DotTail(e, rest) == (e, SkipSpace(rest));
    TailsSkip(e, rest);
  }

  lemma {:induction false} FilterReads(e: Expr, input: Expr, name: string, args: seq<Expr>, rest: string)
    requires e == Filter(input, name, args) && Printable(e)
    ensures ParseFilter(Text(e) + rest) == FilterTail(e, rest)
    decreases e, 0
  {
    hide ParseFilter, ArgList, Solid, IsWordText, Paren;
    var more := "|" + (name + Paren(TextList(args), rest));
    assert Text(e) + rest == At(input, 6) + more by { FilterSplit(At(input, 6), name, TextList(args), rest); }
    assert more[0] == '|' && SkipSpace(more) == more;
    AtFilter(input, more);
    ListReads(args, ")" + rest);
    FilterTailStep(input, name, args, TextList(args), rest);
  }

  lemma FilterSplit(input: string, name: string, args: string, rest: string)
    ensures input + "|" + name + "(" + args + ")" + rest == input + ("|" + (name + Paren(args, rest)))
  {
  }

  lemma FilterTailStep(input: Expr, name: string, args: seq<Expr>, list: string, rest: string)
    requires IsWordText(name)
    requires if args == [] then list == "" else Solid(list) && ArgList(list + (")" + rest)) == (args, ")" + rest)
    ensures FilterTail(input, "|" + (name + Paren(list, rest))) == FilterTail(Filter(input, name, args), rest)
  {
    hide ArgList, ReadIdentifier, Paren, FilterArgs;
    var u := "|" + (name + Paren(list, rest));
    assert u[0] == '|' && u[1..] == name + Paren(list, rest);
    IdentifierReads(name, Paren(list, rest));
    ArgumentsParse(args, list, rest);
  }

  lemma {:induction false} AtMul(e: Expr, rest: string)
    requires Printable(e) && Apart(rest) && Next(rest, TO_FILTER)
    ensures ParseMulDiv(At(e, 5) + rest) == MulTail(e, rest)
    decreases e, Rank(e, 5)
  {
    hide ParseFilter, FilterTail, MulTail, Text, Infix, Next, Apart;
    Fewer(rest);
    if Level(e) == 5 {
      ReadsProduct(e, rest);
    } else {
      SameAt(e, 5);
      AtFilter(e, rest);
      FilterEnds(e, rest);
      TailsSkip(e, rest);
    }
  }

  /** What avoids more characters avoids fewer. */
  lemma Fewer(rest: string)
    ensures Next(rest, TO_AND) ==> Next(rest, TO_COMPARE) && Next(rest, {'a'})
    ensures Next(rest, TO_COMPARE) ==> Next(rest, TO_ADD)
    ensures Next(rest, TO_ADD) ==> Next(rest, TO_MUL) && Next(rest, {'+', '-'})
    ensures Next(rest, TO_MUL) ==> Next(rest, TO_FILTER) && Next(rest, {'*', '/', '%'})
    ensures Next(rest, TO_FILTER) ==> Next(rest, DOT) && Next(rest, {'|'})
  {
    hide SkipSpace;
  }

  lemma {:induction false} ReadsProduct(e: Expr, rest: string)
    requires Printable(e) && Apart(rest) && Next(rest, TO_FILTER) && Level(e) == 5
    ensures ParseMulDiv(At(e, 5) + rest) == MulTail(e, rest)
    decreases e, 0
  {
    hide ParseMulDiv, ParseFilter, FilterTail, MulTail, Infix, Next, Apart, At;
    var op, left, right := e.op, At(e.left, 5), At(e.right, 6);
    Whole(e, 5);
    InfixText(left, op, right, rest);
    InfixNext(op, right, rest);
    Fewer(rest);
    AtMul(e.left, Infix(op, right, rest));
    AtFilter(e.right, rest);
    MulStep(op, e.left, e.right, left + Infix(op, right, rest), right, rest);
  }

  lemma Whole(e: Expr, k: nat)
    requires Level(e) == k
    ensures At(e, k) == Text(e)
  {
    hide Text;
  }

  lemma {:induction false} AtAdd(e: Expr, rest: string)
    requires Printable(e) && Apart(rest) && Next(rest, TO_MUL)
    ensures ParseAddSub(At(e, 4) + rest) == AddTail(e, rest)
    decreases e, Rank(e, 4)
  {
    hide ParseMulDiv, MulTail, AddTail, Text, Infix, Next, Apart;
    Fewer(rest);
    if Level(e) == 4 {
      ReadsSum(e, rest);
    } else {
      SameAt(e, 4);
      AtMul(e, rest);
      MulEnds(e, rest);
      TailsSkip(e, rest);
    }
  }

  lemma {:induction false} ReadsSum(e: Expr, rest: string)
    requires Printable(e) && Apart(rest) && Next(rest, TO_MUL) && Level(e) == 4
    ensures ParseAddSub(At(e, 4) + rest) == AddTail(e, rest)
    decreases e, 0
  {
    hide ParseAddSub, ParseMulDiv, MulTail, AddTail, Infix, Next, Apart, At;
    var op, left, right := e.op, At(e.left, 4), At(e.right, 5);
    Whole(e, 4);
    InfixText(left, op, right, rest);
    InfixNext(op, right, rest);
    Fewer(rest);
    AtAdd(e.left, Infix(op, right, rest));
    AtMul(e.right, rest);
    AddStep(op, e.left, e.right, left + Infix(op, right, rest), right, rest);
  }

  lemma {:induction false} AtComparison(e: Expr, rest: string)
    requires Printable(e) && Apart(rest) && Next(rest, TO_COMPARE)
    ensures ParseComparison(At(e, 3) + rest) == (e, SkipSpace(rest))
    decreases e, Rank(e, 3)
  {
    hide ParseComparison, ParseAddSub, AddTail, Text, Infix, Next, Apart;
    Fewer(rest);
    if Level(e) == 3 {
      if IsNotIn(e) { ReadsNotIn(e, rest); } else { ReadsComparison(e, rest); }
    } else {
      SameAt(e, 3);
      AtAdd(e, rest);
      CompareEnds(At(e, 4) + rest, e, rest);
    }
  }

  lemma {:induction false} ReadsComparison(e: Expr, rest: string)
    requires Printable(e) && Apart(rest) && Next(rest, TO_ADD) && Level(e) == 3 && !IsNotIn(e)
    ensures ParseComparison(At(e, 3) + rest) == (e, SkipSpace(rest))
    decreases e, 0
  {
    hide ParseComparison, ParseAddSub, AddTail, Infix, Next, Apart, At;
    var op, left, right := e.op, At(e.left, 4), At(e.right, 4);
    Whole(e, 3);
    InfixText(left, op, right, rest);
    InfixNext(op, right, rest);
    Fewer(rest);
    AtAdd(e.left, Infix(op, right, rest));
    AtAdd(e.right, rest);
    CompareStep(op, e.left, e.right, left + Infix(op, right, rest), right, rest);
  }

  /** `not in` is one comparison operator, read before `in`; it negates the membership. */
  lemma {:induction false} ReadsNotIn(e: Expr, rest: string)
    requires Printable(e) && Apart(rest) && Next(rest, TO_ADD) && IsNotIn(e)
    ensures var l, r := e.operand.left, e.operand.right;
            ParseComparison(At(l, 4) + " not in " + At(r, 4) + rest) == (UnaryNot(BinOp("in", l, r)), SkipSpace(rest))
    ensures ParseComparison(At(e, 3) + rest) == (e, SkipSpace(rest))
    decreases e, 0
  {
    hide ParseComparison, ParseAddSub, AddTail, Infix, Next, Apart, At;
    var l, r := e.operand.left, e.operand.right;
    var left, right := At(l, 4), At(r, 4);
    Whole(e, 3);
    NotInText(left, right, rest);
    InfixNext("not in", right, rest);
    Fewer(rest);
    AtAdd(l, Infix("not in", right, rest));
    AtAdd(r, rest);
    NotInStep(l, r, left + Infix("not in", right, rest), right, rest);
  }

  lemma {:induction false} AtNot(e: Expr, rest: string)
    requires Printable(e) && Apart(rest) && Next(rest, TO_COMPARE)
    ensures ParseNot(At(e, 2) + rest) == (e, SkipSpace(rest))
    decreases e, Rank(e, 2)
  {
    hide ParseComparison, Next, Apart, SkipSpace, Matches;
    if Level(e) == 2 {
      AtNot(e.operand, rest);
      NotStep(e.operand, At(e.operand, 2), rest);
      assert At(e, 2) + rest == "not " + At(e.operand, 2) + rest;
    } else {
      hide Text;
      SameAt(e, 2);
      AtComparison(e, rest);
      AtNotFree(e, 3, rest);
    }
  }

  lemma {:induction false} AtAnd(e: Expr, rest: string)
    requires Printable(e) && Apart(rest) && Next(rest, TO_COMPARE)
    ensures ParseAnd(At(e, 1) + rest) == AndTail(e, rest)
    decreases e, Rank(e, 1)
  {
    hide ParseNot, AndTail, Text, Infix, Next, Apart;
    if Level(e) == 1 {
      ReadsConjunction(e, rest);
    } else {
      SameAt(e, 1);
      AtNot(e, rest);
      WordTailsSkip(e, rest);
    }
  }

  lemma {:induction false} ReadsConjunction(e: Expr, rest: string)
    requires Printable(e) && Apart(rest) && Next(rest, TO_COMPARE) && Level(e) == 1
    ensures ParseAnd(At(e, 1) + rest) == AndTail(e, rest)
    decreases e, 0
  {
    hide ParseAnd, ParseNot, AndTail, Infix, Next, Apart, At;
    var left, right := At(e.left, 1), At(e.right, 2);
    Whole(e, 1);
    InfixText(left, "and", right, rest);
    InfixNext("and", right, rest);
    AtAnd(e.left, Infix("and", right, rest));
    AtNot(e.right, rest);
    AndStep(e.left, e.right, left + Infix("and", right, rest), right, rest);
  }

  lemma {:induction false} AtOr(e: Expr, rest: string)
    requires Printable(e) && Apart(rest) && Next(rest, TO_AND)
    ensures ParseOr(Text(e) + rest) == OrTail(e, rest)
    decreases e, Rank(e, 0)
  {
    hide ParseAnd, AndTail, OrTail, Text, Infix, Next, Apart;
    Fewer(rest);
    if Level(e) == 0 {
      ReadsDisjunction(e, rest);
    } else {
      assert At(e, 0) == Text(e);
      SameAt(e, 0);
      AtAnd(e, rest);
      AndEnds(e, rest);
      WordTailsSkip(e, rest);
    }
  }

  lemma {:induction false} ReadsDisjunction(e: Expr, rest: string)
    requires Printable(e) && Apart(rest) && Next(rest, TO_AND) && Level(e) == 0
    ensures ParseOr(Text(e) + rest) == OrTail(e, rest)
    decreases e, 0
  {
    hide ParseOr, ParseAnd, AndTail, OrTail, Infix, Next, Apart, At;
    var left, right := At(e.left, 0), At(e.right, 1);
    Whole(e, 0);
    InfixText(left, "or", right, rest);
    InfixNext("or", right, rest);
    Fewer(rest);
    LowestNeedsNone(e.left);
    AtOr(e.left, Infix("or", right, rest));
    AtAnd(e.right, rest);
    OrStep(e.left, e.right, left + Infix("or", right, rest), right, rest);
  }

  lemma LowestNeedsNone(e: Expr)
    ensures At(e, 0) == Text(e)
  {
    hide Text;
  }

  // ------------------------------------------------------------------
  // Lists
  // ------------------------------------------------------------------

  lemma {:induction false} ListReads(es: seq<Expr>, post: string)
    requires PrintableAll(es) && post != "" && post[0] in {')', ']'}
    ensures if es == [] then TextList(es) == "" else Solid(TextList(es)) && ArgList(TextList(es) + post) == (es, post)
    decreases es, 1
  {
    if es != [] {
      hide ParseOr, Text;
      TextListSolid(es);
      ListFollows([], es, post);
      assert [] + [es[0]] == [es[0]] && [] + es == es;
    }
  }

  /** An element ends at the delimiter that follows it. */
  lemma {:induction false} ElementReads(e: Expr, post: string)
    requires Printable(e) && (post == "" || post[0] in {')', ']', ','})
    ensures ParseOr(Text(e) + post) == (e, post)
    decreases e, 60
  {
    hide ParseOr, OrTail, Text;
    assert SkipSpace(post) == post;
    AtOr(e, post);
    OrEnds(e, post);
  }

  lemma {:induction false} ListFollows(done: seq<Expr>, es: seq<Expr>, post: string)
    requires es != [] && PrintableAll(es) && post != "" && post[0] in {')', ']'}
    ensures var (first, rest) := ParseOr(TextList(es) + post);
            first == es[0] && ArgTail(done + [first], rest) == (done + es, post)
    decreases es, 0
  {
    hide ParseOr, ArgTail, Printable, Text;
    if |es| == 1 {
      ElementReads(es[0], post);
      ArgumentsStop(done + [es[0]], post);
      assert done + [es[0]] == done + es;
    } else {
      var next := TextList(es[1..]) + post;
      ElementReads(es[0], "," + next);
      assert TextList(es) + post == Text(es[0]) + ("," + next);
      ListFollows(done + [es[0]], es[1..], post);
      var (second, rest) := ParseOr(next);
      ArgumentsStep(done + [es[0]], next, second, rest);
      assert done + [es[0]] + es[1..] == done + es;
    }
  }

  /** Precedence and associativity are those of the levels: the text without redundant parentheses parses back. */
  lemma ParseInvertsText(e: Expr)
    requires Printable(e)
    ensures ParseExpr(Text(e)) == e && ParseOr(Trim(Text(e))).1 == ""
  {
    hide ParseOr, Solid, Trim, Text;
    TextSolid(e);
    TrimSolid(Text(e));
    ElementReads(e, "");
    assert Text(e) + "" == Text(e);
  }
}
