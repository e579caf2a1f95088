/** Trees laid out as the chunks of a template, and the proof that the block parser inverts the layout. */
module TplFlatten {
  import opened Bytes
  import opened TplAst
  import opened TplExpr
  import opened TplText
  import opened TplPrint
  import opened TplBlocks

  /** A variable name a tag can hold: a word. */
  predicate IsTagName(s: string) { s != "" && IsWordText(s) }

  predicate WellNested(nodes: seq<Node>)
    decreases nodes
  {
    nodes == [] || (WellNestedNode(nodes[0]) && WellNested(nodes[1..]))
  }

  predicate WellNestedNode(node: Node)
    decreases node
  {
    match node
    case Text(_) => true
    case Output(e) => Printable(e)
    case If(branches, elseBody) => branches != [] && WellNestedIn(branches) && WellNested(elseBody)
    case For(v, iter, children) => IsTagName(v) && iter.Some? && Printable(iter.value) && WellNested(children)
    case Set(name, value) => IsTagName(name) && value.Some? && Printable(value.value)
  }

  predicate WellNestedIn(branches: seq<Branch>)
    decreases branches
  {
    branches == [] || (Printable(branches[0].condition) && WellNested(branches[0].body) && WellNestedIn(branches[1..]))
  }

  function Tag(content: string): Piece { Piece(TagChunk, content) }

  function ForHead(v: string, e: Expr): string { v + " in " + Print(e) }
  function SetHead(name: string, e: Expr): string { name + " = " + Print(e) }

  function Flatten(nodes: seq<Node>): seq<Piece>
    requires WellNested(nodes)
    decreases nodes, 0
  {
    if nodes == [] then [] else FlattenNode(nodes[0]) + Flatten(nodes[1..])
  }

  function FlattenNode(node: Node): (r: seq<Piece>)
    requires WellNestedNode(node)
    ensures r != []
    decreases node, 1
  {
    match node
    case Text(text) => [Piece(TextChunk, text)]
    case Output(e) => [Piece(ExpressionChunk, Print(e))]
    case If(branches, elseBody) =>
      assert WellNestedIn(branches);
      [Tag("if " + Print(branches[0].condition))] + Flatten(branches[0].body)
      + FlattenRest(branches[1..]) + FlattenElse(elseBody)
    case For(v, iter, children) => [Tag("for " + ForHead(v, iter.value))] + Flatten(children) + [Tag("endfor")]
    case Set(name, value) => [Tag("set " + SetHead(name, value.value))]
  }

  /** The clauses after the first. */
  function FlattenRest(branches: seq<Branch>): seq<Piece>
    requires WellNestedIn(branches)
    decreases branches
  {
    if branches == [] then []
    else [Tag("elif " + Print(branches[0].condition))] + Flatten(branches[0].body) + FlattenRest(branches[1..])
  }

  /** The else clause, unless it is empty, and the closing tag. */
  function FlattenElse(elseBody: seq<Node>): seq<Piece>
    requires WellNested(elseBody)
    decreases elseBody, 1
  {
    (if elseBody == [] then [] else [Tag("else")] + Flatten(elseBody)) + [Tag("endif")]
  }

  // ------------------------------------------------------------------
  // Tag contents
  // ------------------------------------------------------------------

  lemma TagOpens(w: string, rest: string)
    requires ' ' !in w
    ensures Keyword(w + (" " + rest)) == w && w + (" " + rest) == w + " " + rest
  {
    KeywordIs(w, " " + rest);
  }

  /** What is written after a keyword and a blank is what the parser cuts out. */
  lemma TagReads(w: string, rest: string)
    requires ' ' !in w && Solid(rest)
    ensures Keyword(w + " " + rest) == w && Trim(Mid(w + " " + rest, |w| + 1)) == rest
  {
    hide Solid, Trim, Keyword;
    TagOpens(w, rest);
    var lead := w + " ";
    assert (lead + rest)[|lead|..] == rest;
    TrimSolid(rest);
  }

  lemma ConditionReads(w: string, e: Expr)
    requires ' ' !in w && Printable(e)
    ensures Keyword(w + " " + Print(e)) == w && ConditionOf(w + " " + Print(e), |w| + 1) == e
  {
    hide Solid, Trim, Keyword, Mid;
    PrintSolid(e);
    TagReads(w, Print(e));
    ParseInvertsPrint(e);
  }

  lemma HeadSolid(a: string, m: string, b: string)
    requires Solid(a) && Solid(b)
    ensures Solid(a + m + b)
  {
    var s := a + m + b;
    assert s[0] == a[0] && s[|s| - 1] == b[|b| - 1];
  }

  lemma ForHeadReads(v: string, e: Expr)
    requires IsTagName(v) && Printable(e)
    ensures Solid(ForHead(v, e)) && IndexOf(ForHead(v, e), " in ", 0) == |v|
    ensures Trim(ForHead(v, e)[..|v|]) == v && ParseExpr(Trim(ForHead(v, e)[|v| + 4..])) == e
  {
    hide Solid, Trim, IndexOf, ParseExpr, Print;
    var h := ForHead(v, e);
    SolidWord(v);
    PrintSolid(e);
    HeadSolid(v, " in ", Print(e));
    TrimSolid(v);
    TrimSolid(Print(e));
    assert h[..|v|] == v && h[|v| + 4..] == Print(e) && h[|v|..|v| + 4] == " in ";
    forall j | 0 <= j < |v| ensures !Occurs(h, " in ", j) {
      NoBlank(v, j);
      assert h[j] == v[j] && h[j..j + 4][0] == h[j];
    }
    FirstOccurrence(h, " in ", 0, |v|);
    ParseInvertsPrint(e);
  }

  lemma NoBlank(v: string, j: nat)
    requires IsWordText(v) && j < |v|
    ensures v[j] != ' ' && v[j] != '='
  {
    assert IsWord(v[j]);
  }

  lemma SetHeadReads(name: string, e: Expr)
    requires IsTagName(name) && Printable(e)
    ensures Solid(SetHead(name, e)) && IndexOf(SetHead(name, e), "=", 0) == |name| + 1
    ensures Trim(SetHead(name, e)[..|name| + 1]) == name && ParseExpr(Trim(SetHead(name, e)[|name| + 2..])) == e
  {
    hide Solid, Trim, IndexOf, ParseExpr, Print;
    var h := SetHead(name, e);
    SolidWord(name);
    PrintSolid(e);
    HeadSolid(name, " = ", Print(e));
    assert h[..|name| + 1] == name + " " && h[|name| + 2..] == " " + Print(e) && h[|name| + 1] == '=';
    TrimBlanks(name);
    TrimBlanks(Print(e));
    assert h[|name| + 1..|name| + 2] == "=";
    forall j | 0 <= j < |name| + 1 ensures !Occurs(h, "=", j) {
      if j < |name| { NoBlank(name, j); }
      assert h[j] == (name + " ")[j] && h[j..j + 1][0] == h[j];
    }
    FirstOccurrence(h, "=", 0, |name| + 1);
    ParseInvertsPrint(e);
  }

  lemma TrimBlanks(s: string)
    requires Solid(s)
    ensures Trim(s + " ") == s && Trim(" " + s) == s
  {
    TrimSolid(s);
    assert (s + " ")[0] == s[0] && (s + " ")[..|s|] == s;
    assert (" " + s)[1..] == s;
    assert TrimEnd(s + " ") == TrimEnd(s);
    assert SkipSpace(" " + s) == SkipSpace(s);
  }

  // ------------------------------------------------------------------
  // The block parser inverts the layout
  // ------------------------------------------------------------------

  const ALL_ENDS: set<string> := {"elif", "else", "endif", "endfor"}

  predicate Closes(tail: seq<Piece>, ends: set<string>) { tail == [] || IsTag(tail[0], ends) }

  /** A node's first piece closes no block. */
  lemma NodeOpens(node: Node, tail: seq<Piece>)
    requires WellNestedNode(node)
    ensures !IsTag((FlattenNode(node) + tail)[0], ALL_ENDS)
  {
    hide Print, Keyword, Printable;
    match node
    case If(branches, _) =>
      TagOpens("if", Print(branches[0].condition));
      assert "if" + " " == "if ";
    case For(v, iter, _) =>
      TagOpens("for", ForHead(v, iter.value));
      assert "for" + " " == "for ";
    case Set(name, value) =>
      TagOpens("set", SetHead(name, value.value));
      assert "set" + " " == "set ";
    case _ =>
  }

  /** Every well-nested tree comes back, and exactly its own chunks are consumed. */
  lemma {:induction false} ParseInvertsFlatten(nodes: seq<Node>, ends: set<string>, tail: seq<Piece>)
    requires WellNested(nodes) && ends <= ALL_ENDS && Closes(tail, ends)
    ensures ParseBlock(Flatten(nodes) + tail, ends) == (nodes, tail)
    decreases nodes, 3
  {
    hide FlattenNode, ParseNode, IsTag;
    if nodes == [] {
      assert Flatten(nodes) + tail == tail;
    } else {
      var rest := Flatten(nodes[1..]) + tail;
      var ps := FlattenNode(nodes[0]) + rest;
      assert Flatten(nodes) + tail == ps;
      NodeOpens(nodes[0], rest);
      FewerEnds(ps[0], ends);
      NodeParses(nodes[0], rest);
      ParseInvertsFlatten(nodes[1..], ends, tail);
      assert nodes == [nodes[0]] + nodes[1..];
    }
  }

  lemma FewerEnds(p: Piece, ends: set<string>)
    requires ends <= ALL_ENDS && !IsTag(p, ALL_ENDS)
    ensures !IsTag(p, ends)
  {
  }

  lemma {:induction false} NodeParses(node: Node, rest: seq<Piece>)
    requires WellNestedNode(node)
    ensures ParseNode(FlattenNode(node) + rest) == (Some(node), rest)
    decreases node, 2
  {
    hide ParseIf, ParseFor, SetNode, Keyword, ParseExpr, Print, Printable;
    var ps := FlattenNode(node) + rest;
    match node
    case Text(t) => assert ps[1..] == rest;
    case Output(e) =>
      ParseInvertsPrint(e);
      assert ps[1..] == rest;
    case If(branches, elseBody) =>
      TagOpens("if", Print(branches[0].condition));
      assert "if" + " " == "if ";
      IfParses(node, rest);
    case For(v, iter, children) =>
      TagOpens("for", ForHead(v, iter.value));
      assert "for" + " " == "for ";
      ForParses(node, rest);
    case Set(name, value) =>
      SetParses(name, value.value);
      assert ps[1..] == rest;
  }

  lemma SetParses(name: string, e: Expr)
    requires IsTagName(name) && Printable(e)
    ensures Keyword("set " + SetHead(name, e)) == "set" && SetNode("set " + SetHead(name, e)) == Set(name, Some(e))
  {
    hide Solid, Trim, IndexOf, ParseExpr, SetHead, Keyword, Mid;
    SetHeadReads(name, e);
    TagReads("set", SetHead(name, e));
    assert "set" + " " + SetHead(name, e) == "set " + SetHead(name, e);
  }

  lemma {:induction false} ForParses(node: Node, rest: seq<Piece>)
    requires WellNestedNode(node) && node.For?
    ensures ParseFor(FlattenNode(node) + rest) == (node, rest)
    decreases node, 1
  {
    hide Solid, Trim, IndexOf, ParseExpr, ForHead, Keyword, Mid, ParseBlock, Printable;
    var v, e, children := node.varName, node.iter.value, node.children;
    var ps := FlattenNode(node) + rest;
    var tail := [Tag("endfor")] + rest;
    assert ps == [Tag("for " + ForHead(v, e))] + (Flatten(children) + tail);
    assert ps[1..] == Flatten(children) + tail;
    ForHeadReads(v, e);
    TagReads("for", ForHead(v, e));
    assert "for" + " " + ForHead(v, e) == "for " + ForHead(v, e);
    BareTag("endfor");
    ParseInvertsFlatten(children, FOR_ENDS, tail);
    assert tail[1..] == rest;
  }

  lemma BareTag(w: string)
    requires w in {"else", "endif", "endfor"}
    ensures Keyword(w) == w && Trim(w) == w
  {
    KeywordIs(w, "");
    assert w + "" == w;
    TrimSolid(w);
  }

  lemma {:induction false} IfParses(node: Node, rest: seq<Piece>)
    requires WellNestedNode(node) && node.If?
    ensures ParseIf(FlattenNode(node) + rest) == (node, rest)
    decreases node, 1
  {
    hide Keyword, ParseBlock, Print, ConditionOf, IfTail, Printable;
    var b, more, elseBody := node.branches[0], node.branches[1..], node.elseBody;
    var ps := FlattenNode(node) + rest;
    assert WellNestedIn(node.branches);
    var end := FlattenElse(elseBody) + rest;
    var tail := FlattenRest(more) + end;
    assert ps == [Tag("if " + Print(b.condition))] + (Flatten(b.body) + tail);
    assert ps[1..] == Flatten(b.body) + tail;
    ConditionReads("if", b.condition);
    assert "if" + " " + Print(b.condition) == "if " + Print(b.condition);
    ElseCloses(elseBody, rest);
    ClauseCloses(more, end);
    ParseInvertsFlatten(b.body, IF_ENDS, tail);
    assert [b] + more == node.branches;
    ElseParses(node.branches, elseBody, rest);
    RestParses([b], more, end, (node, rest));
  }

  lemma ElseCloses(elseBody: seq<Node>, rest: seq<Piece>)
    requires WellNested(elseBody)
    ensures Closes(FlattenElse(elseBody) + rest, IF_ENDS)
  {
    hide Keyword;
    BareTag("else");
    BareTag("endif");
  }

  /** The remaining clauses, given what the parser makes of the text after them. */
  lemma {:induction false} RestParses(done: seq<Branch>, branches: seq<Branch>, end: seq<Piece>,
                                      result: (Node, seq<Piece>))
    requires WellNestedIn(branches) && Closes(end, IF_ENDS)
    requires IfTail(done + branches, [], end) == result
    ensures IfTail(done, [], FlattenRest(branches) + end) == result
    decreases branches
  {
    hide Keyword, ParseBlock, Print, ConditionOf, IfTail, Printable;
    var ps := FlattenRest(branches) + end;
    if branches != [] {
      var b := branches[0];
      var tail := FlattenRest(branches[1..]) + end;
      ClauseCloses(branches[1..], end);
      assert ps == [Tag("elif " + Print(b.condition))] + (Flatten(b.body) + tail);
      assert ps[1..] == Flatten(b.body) + tail;
      ConditionReads("elif", b.condition);
      assert "elif" + " " + Print(b.condition) == "elif " + Print(b.condition);
      ParseInvertsFlatten(b.body, IF_ENDS, tail);
      IfTailStep(done, [], ps);
      assert done + [b] + branches[1..] == done + branches;
      RestParses(done + [b], branches[1..], end, result);
    } else {
      assert done + branches == done && ps == end;
    }
  }

  lemma ClauseCloses(branches: seq<Branch>, end: seq<Piece>)
    requires WellNestedIn(branches) && Closes(end, IF_ENDS)
    ensures Closes(FlattenRest(branches) + end, IF_ENDS)
  {
    hide Keyword, Print, Printable;
    if branches != [] {
      TagOpens("elif", Print(branches[0].condition));
      assert "elif" + " " == "elif ";
    } else {
      assert FlattenRest(branches) + end == end;
    }
  }

  lemma {:induction false} ElseParses(done: seq<Branch>, elseBody: seq<Node>, rest: seq<Piece>)
    requires WellNested(elseBody)
    ensures IfTail(done, [], FlattenElse(elseBody) + rest) == (If(done, elseBody), rest)
    decreases elseBody, 4
  {
    hide Keyword, ParseBlock, IfTail;
    var ps := FlattenElse(elseBody) + rest;
    var tail := [Tag("endif")] + rest;
    BareTag("else");
    BareTag("endif");
    assert tail[1..] == rest;
    IfTailStep(done, elseBody, tail);
    IfTailStep(done, [], ps);
    if elseBody != [] {
      assert ps == [Tag("else")] + (Flatten(elseBody) + tail);
      assert ps[1..] == Flatten(elseBody) + tail;
      ParseInvertsFlatten(elseBody, ELSE_ENDS, tail);
    } else {
      assert ps == tail;
    }
  }
}
