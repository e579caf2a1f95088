/** The block parser: what it makes of the chunks that remain, and the object that walks over them. */
module TplBlocks {
  import opened Bytes
  import opened TplAst
  import opened TplExpr
  import opened TplText
  import TplExprParser

  datatype ChunkType = TextChunk | ExpressionChunk | TagChunk | CommentChunk

  datatype Chunk = Chunk(kind: ChunkType, content: string, line: nat)

  /** A chunk without its line number, which parsing does not look at. */
  datatype Piece = Piece(kind: ChunkType, content: string)

  function Pieces(chunks: seq<Chunk>): (r: seq<Piece>)
    ensures |r| == |chunks|
  {
    seq(|chunks|, i requires 0 <= i < |chunks| => Piece(chunks[i].kind, chunks[i].content))
  }

  const IF_ENDS: set<string> := {"elif", "else", "endif"}
  const ELSE_ENDS: set<string> := {"endif"}
  const FOR_ENDS: set<string> := {"endfor"}

  predicate IsTag(p: Piece, keywords: set<string>) {
    p.kind.TagChunk? && Keyword(p.content) in keywords
  }

  function ConditionOf(content: string, skip: nat): Expr {
    ParseExpr(Trim(Mid(content, skip)))
  }

  // ------------------------------------------------------------------
  // What the parser makes of the pieces that remain
  // ------------------------------------------------------------------

  function ParseBlock(ps: seq<Piece>, ends: set<string>): (r: (seq<Node>, seq<Piece>))
    ensures |r.1| <= |ps|
    ensures r.1 == [] || IsTag(r.1[0], ends)
    decreases |ps|, 2
  {
    if ps == [] || IsTag(ps[0], ends) then ([], ps)
    else
      var (node, rest) := ParseNode(ps);
      var (nodes, rest') := ParseBlock(rest, ends);
      (match node case None => nodes case Some(n) => [n] + nodes, rest')
  }

  /** Tags that open nothing are skipped. */
  function ParseNode(ps: seq<Piece>): (r: (Option<Node>, seq<Piece>))
    requires ps != []
    ensures |r.1| < |ps|
    decreases |ps|, 1
  {
    match ps[0].kind
    case TextChunk => (Some(Text(ps[0].content)), ps[1..])
    case ExpressionChunk => (Some(Output(ParseExpr(ps[0].content))), ps[1..])
    case TagChunk =>
      var keyword := Keyword(ps[0].content);
      if keyword == "if" then var (n, rest) := ParseIf(ps); (Some(n), rest)
      else if keyword == "for" then var (n, rest) := ParseFor(ps); (Some(n), rest)
      else if keyword == "set" then (Some(SetNode(ps[0].content)), ps[1..])
      else (None, ps[1..])
    case CommentChunk => (None, ps[1..])
  }

  function ParseIf(ps: seq<Piece>): (r: (Node, seq<Piece>))
    requires ps != []
    ensures |r.1| < |ps|
    decreases |ps|, 0
  {
    var (body, rest) := ParseBlock(ps[1..], IF_ENDS);
    IfTail([Branch(ConditionOf(ps[0].content, 3), body)], [], rest)
  }

  function IfTail(branches: seq<Branch>, elseBody: seq<Node>, ps: seq<Piece>): (r: (Node, seq<Piece>))
    ensures |r.1| <= |ps|
    decreases |ps|, 0
  {
    if ps == [] || !ps[0].kind.TagChunk? then (If(branches, elseBody), ps)
    else
      var kw := Keyword(ps[0].content);
      if kw == "elif" then
        var (body, rest) := ParseBlock(ps[1..], IF_ENDS);
        IfTail(branches + [Branch(ConditionOf(ps[0].content, 5), body)], elseBody, rest)
      else if kw == "else" then
        var (body, rest) := ParseBlock(ps[1..], ELSE_ENDS);
        IfTail(branches, body, rest)
      else if kw == "endif" then (If(branches, elseBody), ps[1..])
      else (If(branches, elseBody), ps)
  }

  function ParseFor(ps: seq<Piece>): (r: (Node, seq<Piece>))
    requires ps != []
    ensures |r.1| < |ps|
    decreases |ps|, 0
  {
    var head := Trim(Mid(ps[0].content, 4));
    var inIdx := IndexOf(head, " in ", 0);
    if inIdx < 0 then (For("", None, []), ps[1..])
    else
      var (children, rest) := ParseBlock(ps[1..], FOR_ENDS);
      (For(Trim(head[..inIdx]), Some(ParseExpr(Trim(head[inIdx + 4..]))), children), PastEndFor(rest))
  }

  /** Only a bare endfor is consumed. */
  function PastEndFor(ps: seq<Piece>): (r: seq<Piece>)
    ensures |r| <= |ps|
  {
    if ps != [] && ps[0].kind.TagChunk? && Trim(ps[0].content) == "endfor" then ps[1..] else ps
  }

  function SetNode(content: string): Node {
    var rest := Trim(Mid(content, 4));
    var eqIdx := IndexOf(rest, "=", 0);
    if eqIdx < 0 then Set("", None)
    else Set(Trim(rest[..eqIdx]), Some(ParseExpr(Trim(rest[eqIdx + 1..]))))
  }

  // ------------------------------------------------------------------
  // Malformed for tags
  // ------------------------------------------------------------------

  const FOR_ERROR: string := "Expected 'in' in for statement"

  /** Somewhere in the tree there is a for tag that had no `in`. */
  predicate Faulty(nodes: seq<Node>)
    decreases nodes
  {
    nodes != [] && (FaultyNode(nodes[0]) || Faulty(nodes[1..]))
  }

  predicate FaultyNode(node: Node)
    decreases node
  {
    match node
    case If(branches, elseBody) => FaultyIn(branches) || Faulty(elseBody)
    case For(_, iter, children) => iter.None? || Faulty(children)
    case _ => false
  }

  predicate FaultyIn(branches: seq<Branch>)
    decreases branches
  {
    branches != [] && (Faulty(branches[0].body) || FaultyIn(branches[1..]))
  }

  lemma {:induction false} FaultyAppend(a: seq<Node>, b: seq<Node>)
    ensures Faulty(a + b) <==> Faulty(a) || Faulty(b)
  {
    if a == [] { assert a + b == b; }
    else {
      assert (a + b)[1..] == a[1..] + b;
      FaultyAppend(a[1..], b);
    }
  }

  lemma {:induction false} FaultyBranches(bs: seq<Branch>, b: Branch)
    ensures FaultyIn(bs + [b]) <==> FaultyIn(bs) || Faulty(b.body)
  {
    if bs == [] { assert bs + [b] == [b]; }
    else {
      assert (bs + [b])[1..] == bs[1..] + [b];
      FaultyBranches(bs[1..], b);
    }
  }

  // ------------------------------------------------------------------
  // The parser object
  // ------------------------------------------------------------------

  class TplParser {
    const chunks: seq<Chunk>
    var pos: nat
    var error: string

    constructor (chunks: seq<Chunk>)
      ensures this.chunks == chunks && pos == 0 && error == ""
    {
      this.chunks := chunks;
      pos := 0;
      error := "";
    }

    predicate Valid()
      reads this`pos
    {
      pos <= |chunks|
    }

    ghost function Rest(): seq<Piece>
      requires Valid()
      reads this`pos
    {
      Pieces(chunks)[pos..]
    }

    /** The error after a part with these faults was parsed. */
    ghost function Reported(faulty: bool): string
      reads this`error
    {
      if faulty then FOR_ERROR else error
    }

    /** The tree of the whole chunk list; an error exactly when a for tag in it had no `in`. */
    method Parse() returns (nodes: seq<Node>)
      requires pos == 0 && error == ""
      modifies this
      ensures nodes == ParseBlock(Pieces(chunks), {}).0 && pos == |chunks|
      ensures error != "" <==> Faulty(nodes)
    {
      assert Rest() == Pieces(chunks);
      nodes := Block({});
    }

    method Block(ends: set<string>) returns (nodes: seq<Node>)
      requires Valid()
      modifies this
      ensures Valid() && old(pos) <= pos && (nodes, Rest()) == ParseBlock(old(Rest()), ends)
      ensures error == old(Reported(Faulty(nodes)))
      decreases |chunks| - pos, 4
    {
      hide ParseNode;
      nodes := [];
      ghost var whole := ParseBlock(Rest(), ends);
      assert [] + whole.0 == whole.0;
      while pos < |chunks|
        invariant Valid() && old(pos) <= pos
        invariant whole == (nodes + ParseBlock(Rest(), ends).0, ParseBlock(Rest(), ends).1)
        invariant error == old(Reported(Faulty(nodes)))
      {
        ghost var rest, was := Rest(), nodes;
        if chunks[pos].kind.TagChunk? {
          var keyword := Keyword(chunks[pos].content);
          if keyword in ends {
            assert nodes + [] == nodes;
            return;
          }
        }
        var node := OneNode();
        if node.Some? {
          nodes := nodes + [node.value];
          FaultyAppend(was, [node.value]);
          Regroup(was, node.value, ParseBlock(Rest(), ends).0);
        }
      }
      assert Rest() == [] && nodes + [] == nodes;
    }

    /** Nothing for a tag that opens nothing. */
    method OneNode() returns (node: Option<Node>)
      requires pos < |chunks|
      modifies this
      ensures Valid() && old(pos) < pos && (node, Rest()) == ParseNode(old(Rest()))
      ensures error == old(Reported(node.Some? && FaultyNode(node.value)))
      decreases |chunks| - pos, 3
    {
      hide ParseExpr, ParseIf, ParseFor, SetNode;
      var ch := chunks[pos];
      assert Rest()[0] == Piece(ch.kind, ch.content);
      if ch.kind.TextChunk? {
        node := Some(Text(ch.content));
        Advance();
        return;
      }
      if ch.kind.ExpressionChunk? {
        var e := TplExprParser.ParseSource(ch.content);
        node := Some(Output(e));
        Advance();
        return;
      }
      if ch.kind.TagChunk? {
        var keyword := Keyword(ch.content);
        if keyword == "if" {
          var n := IfNode();
          return Some(n);
        }
        if keyword == "for" {
          var n := ForNode();
          return Some(n);
        }
        if keyword == "set" {
          var n := SetTag();
          return Some(n);
        }
      }
      Advance();
      node := None;
    }

    method Advance()
      requires pos < |chunks|
      modifies this`pos
      ensures Valid() && pos == old(pos) + 1 && Rest() == old(Rest())[1..]
    {
      pos := pos + 1;
    }

    method IfNode() returns (node: Node)
      requires pos < |chunks|
      modifies this
      ensures Valid() && old(pos) < pos && (node, Rest()) == ParseIf(old(Rest()))
      ensures error == old(Reported(FaultyNode(node)))
      decreases |chunks| - pos, 2
    {
      hide ParseExpr, ParseBlock, Trim, Keyword, IfTail, Mid, Faulty, FaultyIn;
      var first := Clause(3);
      var branches := [first];
      var elseBody := [];
      ghost var whole := IfTail(branches, elseBody, Rest());
      FaultySingle(first);
      while pos < |chunks| && chunks[pos].kind.TagChunk?
        invariant Valid() && old(pos) < pos && whole == IfTail(branches, elseBody, Rest())
        invariant error == old(Reported(FaultyIn(branches) || Faulty(elseBody)))
        invariant elseBody == [] || Rest() == [] || IsTag(Rest()[0], ELSE_ENDS)
        decreases |chunks| - pos
      {
        var kw := Keyword(chunks[pos].content);
        if kw == "elif" || kw == "else" {
          branches, elseBody := LaterClause(kw, branches, elseBody, old(error));
        } else if kw == "endif" {
          IfTailStep(branches, elseBody, Rest());
          Advance();
          return If(branches, elseBody);
        } else {
          break;
        }
      }
      IfTailEnds(branches, elseBody, Rest());
      node := If(branches, elseBody);
    }

    /** An elif clause joins the branches; an else clause, which only an end tag follows, is the else body. */
    method LaterClause(kw: string, branches: seq<Branch>, elseBody: seq<Node>, ghost was: string)
      returns (allBranches: seq<Branch>, newElse: seq<Node>)
      requires pos < |chunks| && chunks[pos].kind.TagChunk? && kw == Keyword(chunks[pos].content)
      requires kw in {"elif", "else"} && (elseBody == [] || IsTag(Rest()[0], ELSE_ENDS))
      requires error == if FaultyIn(branches) || Faulty(elseBody) then FOR_ERROR else was
      modifies this
      ensures Valid() && old(pos) < pos
      ensures IfTail(allBranches, newElse, Rest()) == old(IfTail(branches, elseBody, Rest()))
      ensures newElse == [] || Rest() == [] || IsTag(Rest()[0], ELSE_ENDS)
      ensures error == if FaultyIn(allBranches) || Faulty(newElse) then FOR_ERROR else was
      decreases |chunks| - pos, 2
    {
      hide ParseExpr, ParseBlock, Trim, Keyword, IfTail, Mid, Faulty, FaultyIn;
      IfTailStep(branches, elseBody, Rest());
      NoneFaulty();
      assert Rest()[0].content == chunks[pos].content;
      if kw == "elif" {
        var branch := Clause(5);
        FaultyBranches(branches, branch);
        return branches + [branch], elseBody;
      }
      Advance();
      newElse := Block(ELSE_ENDS);
      allBranches := branches;
    }

    /** The condition of an if or elif tag, and the body up to the next clause. */
    method Clause(skip: nat) returns (branch: Branch)
      requires pos < |chunks|
      modifies this
      ensures Valid() && old(pos) < pos
      ensures branch.condition == ConditionOf(old(Rest())[0].content, skip)
      ensures (branch.body, Rest()) == ParseBlock(old(Rest())[1..], IF_ENDS)
      ensures error == old(Reported(Faulty(branch.body)))
      decreases |chunks| - pos, 1
    {
      hide ParseExpr, ParseBlock, Trim, Faulty;
      var condition := TplExprParser.ParseSource(Trim(Mid(chunks[pos].content, skip)));
      Advance();
      var body := Block(IF_ENDS);
      branch := Branch(condition, body);
    }

    method ForNode() returns (node: Node)
      requires pos < |chunks|
      modifies this
      ensures Valid() && old(pos) < pos && (node, Rest()) == ParseFor(old(Rest()))
      ensures error == old(Reported(FaultyNode(node)))
      decreases |chunks| - pos, 2
    {
      hide ParseExpr, ParseBlock, Trim, IndexOf;
      ghost var u := Rest();
      var head := Trim(Mid(chunks[pos].content, 4));
      var inIdx := IndexOf(head, " in ", 0);
      if inIdx < 0 {
        error := FOR_ERROR;
        Advance();
        return For("", None, []);
      }
      var varName := Trim(head[..inIdx]);
      var iter := TplExprParser.ParseSource(Trim(head[inIdx + 4..]));
      Advance();
      var children := Block(FOR_ENDS);
      if pos < |chunks| && chunks[pos].kind.TagChunk? && Trim(chunks[pos].content) == "endfor" {
        Advance();
      }
      node := For(varName, Some(iter), children);
    }

    method SetTag() returns (node: Node)
      requires pos < |chunks|
      modifies this`pos
      ensures Valid() && old(pos) < pos && Rest() == old(Rest())[1..] && node == SetNode(chunks[old(pos)].content)
      ensures node.Set?
    {
      hide ParseExpr, Trim, IndexOf;
      var rest := Trim(Mid(chunks[pos].content, 4));
      var eqIdx := IndexOf(rest, "=", 0);
      if eqIdx < 0 {
        Advance();
        return Set("", None);
      }
      var name := Trim(rest[..eqIdx]);
      var value := TplExprParser.ParseSource(Trim(rest[eqIdx + 1..]));
      Advance();
      node := Set(name, Some(value));
    }
  }

  lemma FaultySingle(b: Branch)
    ensures FaultyIn([b]) <==> Faulty(b.body)
    ensures !Faulty([])
  {
    hide Faulty;
    FaultyBranches([], b);
    assert [] + [b] == [b];
    NoneFaulty();
  }

  lemma NoneFaulty()
    ensures !Faulty([])
  {
  }

  lemma IfTailStep(branches: seq<Branch>, elseBody: seq<Node>, ps: seq<Piece>)
    requires ps != [] && ps[0].kind.TagChunk?
    ensures var kw := Keyword(ps[0].content);
            IfTail(branches, elseBody, ps) ==
            if kw == "elif" then
              var (body, rest) := ParseBlock(ps[1..], IF_ENDS);
              IfTail(branches + [Branch(ConditionOf(ps[0].content, 5), body)], elseBody, rest)
            else if kw == "else" then
              var (body, rest) := ParseBlock(ps[1..], ELSE_ENDS);
              IfTail(branches, body, rest)
            else if kw == "endif" then (If(branches, elseBody), ps[1..])
            else (If(branches, elseBody), ps)
  {
    hide ParseBlock, Keyword, ParseExpr;
  }

  lemma IfTailEnds(branches: seq<Branch>, elseBody: seq<Node>, ps: seq<Piece>)
    requires ps == [] || !ps[0].kind.TagChunk? || Keyword(ps[0].content) !in {"elif", "else", "endif"}
    ensures IfTail(branches, elseBody, ps) == (If(branches, elseBody), ps)
  {
    hide ParseBlock, Keyword, ParseExpr;
  }

  lemma Regroup(a: seq<Node>, n: Node, b: seq<Node>)
    ensures a + ([n] + b) == a + [n] + b
  {
  }
}
