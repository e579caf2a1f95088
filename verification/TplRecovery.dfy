/** What the parsers make of templates that are not well formed, and of what the printers do not write. */
module TplRecovery {
  import opened Bytes
  import opened TplAst
  import opened TplExpr
  import opened TplText
  import opened TplPrint
  import opened TplPrecedence
  import opened TplBlocks
  import opened TplFlatten
  import Ascii

  // ------------------------------------------------------------------
  // Blocks
  // ------------------------------------------------------------------

  /** A tag of an unknown keyword, a closing tag where nothing is open, and a comment leave no trace. */
  lemma NothingOpened(p: Piece, ps: seq<Piece>, ends: set<string>)
    requires p.kind.CommentChunk?
             || (p.kind.TagChunk? && Keyword(p.content) !in {"if", "for", "set"} && Keyword(p.content) !in ends)
    ensures ParseBlock([p] + ps, ends) == ParseBlock(ps, ends)
  {
    hide Keyword;
    assert ([p] + ps)[1..] == ps;
  }

  lemma NodeThen(p: Piece, ps: seq<Piece>, ends: set<string>, node: Node, rest: seq<Piece>)
    requires !IsTag(p, ends) && ParseNode([p] + ps) == (Some(node), rest)
    ensures ParseBlock([p] + ps, ends) == ([node] + ParseBlock(rest, ends).0, ParseBlock(rest, ends).1)
  {
    hide ParseNode, IsTag;
  }

  /** A for tag without `in` takes no body with it: what follows goes on beside it. */
  lemma ForWithoutIn(content: string, ps: seq<Piece>, ends: set<string>)
    requires Keyword(content) == "for" && "for" !in ends
    requires forall k :: 0 <= k < |Trim(Mid(content, 4))| ==> !Occurs(Trim(Mid(content, 4)), " in ", k)
    ensures ParseBlock([Tag(content)] + ps, ends)
         == ([For("", None, [])] + ParseBlock(ps, ends).0, ParseBlock(ps, ends).1)
  {
    hide Keyword, ParseBlock, Trim, IndexOf;
    var all := [Tag(content)] + ps;
    assert all[1..] == ps;
    NeverOccurs(Trim(Mid(content, 4)), " in ");
    assert ParseFor(all) == (For("", None, []), ps);
    NodeThen(Tag(content), ps, ends, For("", None, []), ps);
  }

  lemma NeverOccurs(s: string, t: string)
    requires t != "" && forall k :: 0 <= k < |s| ==> !Occurs(s, t, k)
    ensures IndexOf(s, t, 0) == -1
  {
    hide IndexOf;
  }

  /** A set tag without an equals sign sets the empty name to nothing. */
  lemma SetWithoutEquals(content: string, ps: seq<Piece>, ends: set<string>)
    requires Keyword(content) == "set" && "set" !in ends
    requires forall k :: 0 <= k < |Trim(Mid(content, 4))| ==> !Occurs(Trim(Mid(content, 4)), "=", k)
    ensures ParseBlock([Tag(content)] + ps, ends)
         == ([Set("", None)] + ParseBlock(ps, ends).0, ParseBlock(ps, ends).1)
  {
    hide Keyword, ParseBlock, Trim, IndexOf;
    assert ([Tag(content)] + ps)[1..] == ps;
    NeverOccurs(Trim(Mid(content, 4)), "=");
    NodeThen(Tag(content), ps, ends, Set("", None), ps);
  }

  /** How many loops of a tree, at any depth, iterate over nothing. */
  function Headless(nodes: seq<Node>): nat
    decreases nodes
  {
    if nodes == [] then 0
    else
      (match nodes[0]
       case If(branches, elseBody) => HeadlessIn(branches) + Headless(elseBody)
       case For(_, iter, children) => (if iter.Some? then 0 else 1) + Headless(children)
       case _ => 0)
      + Headless(nodes[1..])
  }

  function HeadlessIn(branches: seq<Branch>): nat
    decreases branches
  {
    if branches == [] then 0 else Headless(branches[0].body) + HeadlessIn(branches[1..])
  }

  /** The parser reports an error when there is such a loop; a well-nested tree has none. */
  lemma {:induction false} FaultyIff(nodes: seq<Node>)
    ensures Faulty(nodes) <==> Headless(nodes) > 0
    ensures WellNested(nodes) ==> !Faulty(nodes)
    decreases nodes
  {
    if nodes != [] {
      FaultyIff(nodes[1..]);
      assert WellNested(nodes) ==> WellNestedNode(nodes[0]);
      assert Faulty(nodes) <==> FaultyNode(nodes[0]) || Faulty(nodes[1..]);
      match nodes[0] {
        case If(branches, elseBody) =>
          FaultyInIff(branches);
          FaultyIff(elseBody);
        case For(_, _, children) => FaultyIff(children);
        case _ =>
      }
    }
  }

  lemma {:induction false} FaultyInIff(branches: seq<Branch>)
    ensures FaultyIn(branches) <==> HeadlessIn(branches) > 0
    ensures WellNestedIn(branches) ==> !FaultyIn(branches)
    decreases branches
  {
    if branches != [] {
      FaultyIff(branches[0].body);
      FaultyInIff(branches[1..]);
    }
  }

  /** A keyword alone, without the blank behind it, has no condition, no head and no name. */
  lemma BareKeywords()
    ensures ConditionOf("if", 3) == Literal(Invalid) && ConditionOf("elif", 5) == Literal(Invalid)
    ensures ParseFor([Tag("for")]) == (For("", None, []), []) && SetNode("set") == Set("", None)
  {
    hide ParseOr, IndexOf;
    NoSource();
    assert Trim("") == "";
    NeverOccurs("", " in ");
    NeverOccurs("", "=");
    assert [Tag("for")][1..] == [];
  }

  lemma NoSource()
    ensures ParseExpr("") == Literal(Invalid)
  {
    hide ParseOr, ParseAnd, ParseNot, ParseComparison, ParseAddSub, ParseMulDiv, ParseFilter, ParsePrimary;
    var nothing := Literal(Invalid);
    assert Trim("") == "" && SkipSpace("") == "";
    MissingOperand(' ', "");
    NoMatch("", "not");
    FromPrimary("", nothing, "");
  }

  /** A loop or a condition that is never closed goes on to the end. */
  lemma NeverClosed(nodes: seq<Node>, v: string, e: Expr)
    requires WellNested(nodes) && IsTagName(v) && Printable(e)
    ensures ParseBlock([Tag("for " + ForHead(v, e))] + Flatten(nodes), {}) == ([For(v, Some(e), nodes)], [])
    ensures ParseBlock([Tag("if " + Print(e))] + Flatten(nodes), {}) == ([If([Branch(e, nodes)], [])], [])
  {
    hide ParseBlock, Keyword, Print, ParseNode, ParseFor, ParseIf, Printable, Flatten;
    assert Flatten(nodes) + [] == Flatten(nodes) && PastEndFor([]) == [];
    var loop, choice := For(v, Some(e), nodes), If([Branch(e, nodes)], []);
    assert [loop] + [] == [loop] && [choice] + [] == [choice];
    ForOpens(v, e, nodes, []);
    NothingLeft();
    NodeThen(Tag("for " + ForHead(v, e)), Flatten(nodes), {}, For(v, Some(e), nodes), []);
    IfOpens(e, nodes);
    NodeThen(Tag("if " + Print(e)), Flatten(nodes), {}, If([Branch(e, nodes)], []), []);
  }

  lemma NothingLeft()
    ensures forall ends :: ParseBlock([], ends) == ([], [])
  {
  }

  lemma IfOpens(e: Expr, nodes: seq<Node>)
    requires WellNested(nodes) && Printable(e)
    ensures ParseNode([Tag("if " + Print(e))] + Flatten(nodes)) == (Some(If([Branch(e, nodes)], [])), [])
  {
    hide ParseBlock, Keyword, Print, Printable, Flatten, ConditionOf, IfTail;
    var ps := [Tag("if " + Print(e))] + Flatten(nodes);
    assert ps[1..] == Flatten(nodes) + [];
    ConditionReads("if", e);
    assert "if" + " " + Print(e) == "if " + Print(e);
    ParseInvertsFlatten(nodes, IF_ENDS, []);
    IfTailEnds([Branch(e, nodes)], [], []);
  }

  lemma ForOpens(v: string, e: Expr, nodes: seq<Node>, tail: seq<Piece>)
    requires WellNested(nodes) && IsTagName(v) && Printable(e) && TplFlatten.Closes(tail, FOR_ENDS)
    ensures var ps := [Tag("for " + ForHead(v, e))] + (Flatten(nodes) + tail);
            ParseNode(ps) == (Some(For(v, Some(e), nodes)), PastEndFor(tail)) && !IsTag(ps[0], ALL_ENDS)
  {
    hide Solid, Trim, IndexOf, ParseExpr, ForHead, Keyword, Mid, ParseBlock, Printable, PastEndFor, Flatten;
    var ps := [Tag("for " + ForHead(v, e))] + (Flatten(nodes) + tail);
    assert ps[1..] == Flatten(nodes) + tail;
    ForHeadReads(v, e);
    TagReads("for", ForHead(v, e));
    assert "for" + " " + ForHead(v, e) == "for " + ForHead(v, e);
    ParseInvertsFlatten(nodes, FOR_ENDS, tail);
    assert ParseFor(ps) == (For(v, Some(e), nodes), PastEndFor(tail));
  }

  /**
   * A closing tag of a loop with more words on it ends the loop without being
   * taken: it ends the loop around that one as well, and is skipped where there
   * is none.
   */
  lemma WordyEndFor(v: string, e: Expr, nodes: seq<Node>, more: string, rest: seq<Piece>, ends: set<string>)
    requires WellNested(nodes) && IsTagName(v) && Printable(e) && ends <= ALL_ENDS
    requires more != "" && !Ascii.IsSpace(more[|more| - 1])
    ensures var end := Tag("endfor " + more);
            ParseBlock([Tag("for " + ForHead(v, e))] + (Flatten(nodes) + ([end] + rest)), ends)
            == if "endfor" in ends then ([For(v, Some(e), nodes)], [end] + rest)
               else ([For(v, Some(e), nodes)] + ParseBlock(rest, ends).0, ParseBlock(rest, ends).1)
  {
    hide ParseBlock, Keyword, ParseNode, ForHead, Trim, Printable, Flatten, PastEndFor, IsTag;
    var head, end := Tag("for " + ForHead(v, e)), Tag("endfor " + more);
    TagOpens("endfor", more);
    assert "endfor" + " " == "endfor ";
    WordyNotBare(more);
    WordyStays(end, rest);
    ForOpens(v, e, nodes, [end] + rest);
    FewerEnds(head, ends);
    LoopThen(head, Flatten(nodes), end, rest, ends, For(v, Some(e), nodes));
  }

  lemma WordyStays(end: Piece, rest: seq<Piece>)
    requires end.kind.TagChunk? && Keyword(end.content) == "endfor" && Trim(end.content) != "endfor"
    ensures PastEndFor([end] + rest) == [end] + rest && TplFlatten.Closes([end] + rest, FOR_ENDS)
  {
    hide Keyword, Trim;
  }

  lemma LoopThen(head: Piece, body: seq<Piece>, end: Piece, rest: seq<Piece>, ends: set<string>, node: Node)
    requires !IsTag(head, ends) && ParseNode([head] + (body + ([end] + rest))) == (Some(node), [end] + rest)
    requires end.kind.TagChunk? && Keyword(end.content) == "endfor"
    ensures ParseBlock([head] + (body + ([end] + rest)), ends)
         == if "endfor" in ends then ([node], [end] + rest)
            else ([node] + ParseBlock(rest, ends).0, ParseBlock(rest, ends).1)
  {
    hide ParseNode, Keyword, ParseBlock;
    NodeThen(head, body + ([end] + rest), ends, node, [end] + rest);
    if "endfor" in ends {
      Ended([end] + rest, ends);
      assert [node] + [] == [node];
    } else {
      NothingOpened(end, rest, ends);
    }
  }

  lemma Ended(ps: seq<Piece>, ends: set<string>)
    requires ps != [] && IsTag(ps[0], ends)
    ensures ParseBlock(ps, ends) == ([], ps)
  {
  }

  lemma WordyNotBare(more: string)
    requires more != "" && !Ascii.IsSpace(more[|more| - 1])
    ensures Trim("endfor " + more) != "endfor"
  {
    var s := "endfor " + more;
    assert s[0] == 'e' && s[|s| - 1] == more[|more| - 1];
  }

  /** Whatever follows a well-nested tree is parsed as if it came first. */
  lemma {:induction false} BlockThen(nodes: seq<Node>, ps: seq<Piece>, ends: set<string>)
    requires WellNested(nodes) && ends <= ALL_ENDS
    ensures ParseBlock(Flatten(nodes) + ps, ends) == (nodes + ParseBlock(ps, ends).0, ParseBlock(ps, ends).1)
    decreases nodes
  {
    hide FlattenNode, ParseNode, IsTag;
    if nodes == [] {
      assert Flatten(nodes) + ps == ps && [] + ParseBlock(ps, ends).0 == ParseBlock(ps, ends).0;
    } else {
      var rest := Flatten(nodes[1..]) + ps;
      var all := FlattenNode(nodes[0]) + rest;
      assert Flatten(nodes) + ps == all;
      NodeOpens(nodes[0], rest);
      FewerEnds(all[0], ends);
      NodeParses(nodes[0], rest);
      BlockThen(nodes[1..], ps, ends);
      assert all == [all[0]] + all[1..];
      NodeThen(all[0], all[1..], ends, nodes[0], rest);
      var more := ParseBlock(ps, ends).0;
      assert [nodes[0]] + (nodes[1..] + more) == nodes + more;
    }
  }

  /** A closing tag of another construct within a block leaves no trace. */
  lemma StrayInBlock(a: seq<Node>, stray: Piece, b: seq<Node>, tail: seq<Piece>, ends: set<string>)
    requires WellNested(a) && WellNested(b) && ends <= ALL_ENDS && TplFlatten.Closes(tail, ends)
    requires stray.kind.TagChunk? && Keyword(stray.content) in ALL_ENDS - ends
    ensures ParseBlock(Flatten(a) + ([stray] + (Flatten(b) + tail)), ends) == (a + b, tail)
  {
    hide ParseBlock, Keyword, Flatten;
    BlockThen(a, [stray] + (Flatten(b) + tail), ends);
    NothingOpened(stray, Flatten(b) + tail, ends);
    ParseInvertsFlatten(b, ends, tail);
  }

  /** A loop ends at its own closing tag alone: else, elif and endif within it leave no trace. */
  lemma StrayInLoop(v: string, e: Expr, a: seq<Node>, stray: Piece, b: seq<Node>, rest: seq<Piece>)
    requires WellNested(a) && WellNested(b) && IsTagName(v) && Printable(e)
    requires stray.kind.TagChunk? && Keyword(stray.content) in {"else", "elif", "endif"}
    ensures ParseNode([Tag("for " + ForHead(v, e))]
                      + (Flatten(a) + ([stray] + (Flatten(b) + ([Tag("endfor")] + rest)))))
         == (Some(For(v, Some(e), a + b)), rest)
  {
    hide ParseBlock, Keyword, Trim, IndexOf, ParseExpr, ForHead, Mid, Printable, Flatten;
    var tail := [Tag("endfor")] + rest;
    var body := Flatten(a) + ([stray] + (Flatten(b) + tail));
    var ps := [Tag("for " + ForHead(v, e))] + body;
    assert ps[1..] == body && tail[1..] == rest;
    BareTag("endfor");
    StrayInBlock(a, stray, b, tail, FOR_ENDS);
    LoopHead(v, e);
    assert ParseFor(ps) == (For(v, Some(e), a + b), rest);
  }

  lemma LoopHead(v: string, e: Expr)
    requires IsTagName(v) && Printable(e)
    ensures var content := "for " + ForHead(v, e);
            var head := Trim(Mid(content, 4));
            && Keyword(content) == "for" && IndexOf(head, " in ", 0) == |v| && |v| + 4 <= |head|
            && Trim(head[..|v|]) == v && ParseExpr(Trim(head[|v| + 4..])) == e
  {
    hide Solid, Trim, IndexOf, ParseExpr, Keyword, Mid, Printable, Print;
    ForHeadReads(v, e);
    TagReads("for", ForHead(v, e));
    assert "for" + " " + ForHead(v, e) == "for " + ForHead(v, e);
  }

  /**
   * A condition's first body ends at elif, else and endif alone, and its else
   * body at endif alone: endfor within them, and in an else body elif and else
   * as well, leave no trace.
   */
  lemma StrayInCondition(e: Expr, a: seq<Node>, stray: Piece, b: seq<Node>, c: seq<Node>, second: Piece, d: seq<Node>,
                         rest: seq<Piece>)
    requires WellNested(a) && WellNested(b) && WellNested(c) && WellNested(d) && Printable(e)
    requires stray.kind.TagChunk? && Keyword(stray.content) == "endfor"
    requires second.kind.TagChunk? && Keyword(second.content) in {"else", "elif", "endfor"}
    ensures ParseNode([Tag("if " + Print(e))]
                      + (Flatten(a) + ([stray] + (Flatten(b)
                      + ([Tag("else")] + (Flatten(c) + ([second] + (Flatten(d) + ([Tag("endif")] + rest)))))))))
         == (Some(If([Branch(e, a + b)], c + d)), rest)
  {
    hide ParseBlock, Keyword, Print, Printable, Flatten, ConditionOf, IfTail;
    var more := Flatten(c) + ([second] + (Flatten(d) + ([Tag("endif")] + rest)));
    var clause := [Tag("else")] + more;
    ElseClause([Branch(e, a + b)], c, second, d, rest);
    BareTag("else");
    StrayInBlock(a, stray, b, clause, IF_ENDS);
    ConditionHead(e, Flatten(a) + ([stray] + (Flatten(b) + clause)), a + b, clause);
  }

  lemma ConditionHead(e: Expr, ps: seq<Piece>, body: seq<Node>, rest: seq<Piece>)
    requires Printable(e) && ParseBlock(ps, IF_ENDS) == (body, rest)
    ensures ParseNode([Tag("if " + Print(e))] + ps)
         == (Some(IfTail([Branch(e, body)], [], rest).0), IfTail([Branch(e, body)], [], rest).1)
  {
    hide ParseBlock, Keyword, Print, Printable, ConditionOf, IfTail;
    assert ([Tag("if " + Print(e))] + ps)[1..] == ps;
    ConditionReads("if", e);
    assert "if" + " " + Print(e) == "if " + Print(e);
  }

  lemma ElseClause(done: seq<Branch>, c: seq<Node>, second: Piece, d: seq<Node>, rest: seq<Piece>)
    requires WellNested(c) && WellNested(d)
    requires second.kind.TagChunk? && Keyword(second.content) in {"else", "elif", "endfor"}
    ensures IfTail(done, [],
                   [Tag("else")] + (Flatten(c) + ([second] + (Flatten(d) + ([Tag("endif")] + rest)))))
         == (If(done, c + d), rest)
  {
    hide ParseBlock, Keyword, Flatten, IfTail;
    var end := [Tag("endif")] + rest;
    var more := Flatten(c) + ([second] + (Flatten(d) + end));
    var clause := [Tag("else")] + more;
    assert clause[1..] == more && end[1..] == rest;
    BareTag("else");
    BareTag("endif");
    StrayInBlock(c, second, d, end, ELSE_ENDS);
    IfTailStep(done, [], clause);
    IfTailStep(done, c + d, end);
  }

  // ------------------------------------------------------------------
  // Expressions
  // ------------------------------------------------------------------

  /** A filter without an argument list has no arguments; an empty name of a field adds nothing. */
  lemma FilterWithoutArguments(input: Expr, name: string)
    requires Printable(input) && IsWordText(name)
    ensures ParseFilter(At(input, 6) + ("|" + name)) == (Filter(input, name, []), "")
  {
    hide ParseFilter, FilterTail, At, ReadIdentifier;
    var rest := "|" + name;
    assert rest[0] == '|' && SkipSpace(rest) == rest && rest[1..] == name && name + "" == name;
    AtFilter(input, rest);
    IdentifierReads(name, "");
    FilterStops(input, name, rest);
  }

  lemma FilterStops(input: Expr, name: string, rest: string)
    requires rest != "" && rest[0] == '|' && ReadIdentifier(rest[1..]) == (name, "")
    ensures FilterTail(input, rest) == (Filter(input, name, []), "")
  {
    hide ReadIdentifier;
    assert FilterArgs("") == ([], "");
    assert FilterTail(Filter(input, name, []), "") == (Filter(input, name, []), "");
  }

  /** Parentheses end with the text or at another delimiter, which is left there. */
  lemma NotClosed(e: Expr, post: string)
    requires Printable(e) && (post == "" || post[0] in {']', ','})
    ensures ParsePrimary("(" + (TplPrecedence.Text(e) + post)) == (e, post)
  {
    hide ParseOr, DotTail, ArgList, ReadString, ReadIdentifier, ParseNumber, TplPrecedence.Text;
    var s := "(" + (TplPrecedence.Text(e) + post);
    assert s[0] == '(' && s[1..] == TplPrecedence.Text(e) + post && SkipSpace(post) == post;
    ElementReads(e, post);
  }

  /** Nothing where an operand is expected, or what starts none, counts as no value. */
  lemma MissingOperand(c: char, rest: string)
    ensures ParsePrimary("") == (Literal(Invalid), "")
    ensures !Ascii.IsSpace(c) && !IsWord(c) && c !in {'"', '\'', '(', '[', '-'} ==>
              ParsePrimary([c] + rest) == (Literal(Invalid), rest)
    ensures rest == "" || !IsDigit(rest[0]) ==> ParsePrimary("-" + rest) == (Literal(Invalid), rest)
  {
    assert ([c] + rest)[1..] == rest && ("-" + rest)[1..] == rest;
    hide ParseOr, DotTail, ArgList, ReadString, ReadIdentifier, ParseNumber;
  }

  /** A point without a field behind it adds nothing. */
  lemma EmptyField(name: string)
    requires IsName(name)
    ensures ParsePrimary(name + ".") == (Variable(name), "")
  {
    hide ParsePrimary, DotTail;
    NamePrimary(name, ".");
    PointAlone(Variable(name));
  }

  lemma PointAlone(e: Expr)
    ensures DotTail(e, ".") == (e, "")
  {
    assert "."[1..] == "" && ReadIdentifier("") == ("", "");
    assert DotTail(e, "") == (e, "");
  }

  /** Both spellings of none. */
  lemma NoneReads(post: string)
    requires Apart(post)
    ensures ParsePrimary("none" + post) == (Literal(Invalid), post)
    ensures ParsePrimary("None" + post) == (Literal(Invalid), post)
  {
    hide DotTail, ParseOr, ArgList, ReadString, ReadIdentifier;
    IdentifierReads("none", post);
    IdentifierReads("None", post);
    assert ("none" + post)[0] == 'n' && ("None" + post)[0] == 'N';
  }

  /** A string literal in either kind of quotes is a string. */
  lemma StringLiteral(us: seq<Unit>, quote: char, post: string)
    requires UnitsFor(us, quote) && quote in {'"', '\''}
    ensures ParsePrimary([quote] + UnitsText(us) + [quote] + post) == (Literal(Str(UnitsValue(us))), post)
    ensures ParsePrimary([quote] + UnitsText(us)) == (Literal(Str(UnitsValue(us))), "")
  {
    hide DotTail, ParseOr, ArgList, ReadString, ReadIdentifier, ParseNumber, UnitsText, UnitsValue;
    LiteralReads(us, quote, post);
    var s, t := [quote] + UnitsText(us) + [quote] + post, [quote] + UnitsText(us);
    assert s[0] == quote && s[1..] == UnitsText(us) + [quote] + post;
    assert t[0] == quote && t[1..] == UnitsText(us);
  }

  /** A number with a point is a number. */
  lemma PointLiteral(whole: string, frac: string, post: string)
    requires IsDigits(whole) && IsDigits(frac) && whole != "" && Apart(post)
    ensures ParsePrimary(whole + "." + frac + post)
         == (Literal(Double(DigitsValue(whole + frac) as real / Ascii.Pow10(|frac|) as real)), post)
  {
    hide ParsePrimary, ToDouble, DigitsValue, ParseNumber, NumberLength, NumberLiteral, Apart;
    var n := whole + "." + frac;
    PointValue(whole, frac);
    NumberGoesOn(whole, "." + (frac + post));
    NumberGoesOn(frac, post);
    PointGoesOn(frac + post);
    StopsThere(post);
    PointSpliced(whole, frac, post);
    DigitPrimary(n, post);
  }

  lemma PointSpliced(whole: string, frac: string, post: string)
    requires whole != ""
    ensures var n := whole + "." + frac;
            n + post == whole + ("." + (frac + post)) && n[0] == whole[0] && |n| == |whole| + 1 + |frac|
  {
  }

  lemma PointGoesOn(rest: string)
    ensures NumberLength("." + rest) == 1 + NumberLength(rest)
  {
    assert ("." + rest)[1..] == rest;
  }

  lemma DigitPrimary(n: string, post: string)
    requires n != "" && IsDigit(n[0]) && NumberLength(n + post) == |n|
    ensures ParsePrimary(n + post) == (NumberLiteral(n), post)
  {
    hide DotTail, ParseOr, ArgList, ReadString, ReadIdentifier, NumberLiteral, NumberLength;
    var s := n + post;
    assert s[0] == n[0] && s[0..] == s && s[..|n|] == n && s[|n|..] == post;
  }

  lemma {:induction false} NumberGoesOn(d: string, rest: string)
    requires IsDigits(d)
    ensures NumberLength(d + rest) == |d| + NumberLength(rest)
    decreases |d|
  {
    if d == "" { assert d + rest == rest; }
    else {
      assert (d + rest)[1..] == d[1..] + rest;
      NumberGoesOn(d[1..], rest);
    }
  }

  lemma StopsThere(post: string)
    requires Apart(post)
    ensures NumberLength(post) == 0
  {
  }
}
