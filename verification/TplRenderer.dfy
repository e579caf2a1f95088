/** The interpreter: one mutable context, saved and restored around loops, against lexical scoping. */
module TplRenderer {
  import opened Bytes
  import opened TplAst

  /** The list a for tag iterates over. */
  function Items(v: Value): seq<Value> {
    match v
    case List(items) => items
    case StrList(strs) => seq(|strs|, i requires 0 <= i < |strs| => Str(strs[i]))
    case _ => []
  }

  function LoopInfo(i: nat, length: nat): Value {
    Dict(map[
      "index" := Int(i + 1),
      "index0" := Int(i),
      "first" := Bool(i == 0),
      "last" := Bool(i == length - 1),
      "length" := Int(length)])
  }

  /** A name put back to the value it had; a name that had none is removed. */
  function Restore(context: Context, name: string, saved: Value): Context {
    if saved == Invalid then context - {name} else context[name := saved]
  }

  // ------------------------------------------------------------------
  // What the interpreter computes, step by step
  // ------------------------------------------------------------------

  /** The first branch, from `i` on, whose condition holds. */
  function FirstTrue(p: Primitives, branches: seq<Branch>, i: nat, context: Context): (k: nat)
    requires i <= |branches|
    ensures i <= k <= |branches|
    decreases |branches| - i
  {
    if i == |branches| || IsTruthy(EvalExpr(p, branches[i].condition, context)) then i
    else FirstTrue(p, branches, i + 1, context)
  }

  function RenderNodes(p: Primitives, nodes: seq<Node>, context: Context): (string, Context)
    decreases nodes, 0, 0
  {
    if nodes == [] then ("", context)
    else
      var (s, c) := RenderNode(p, nodes[0], context);
      var (t, d) := RenderNodes(p, nodes[1..], c);
      (s + t, d)
  }

  function RenderNode(p: Primitives, node: Node, context: Context): (string, Context)
    decreases node, 0, 0
  {
    match node
    case Text(text) => (text, context)
    case Output(expr) => (VariantToString(p, EvalExpr(p, expr, context)), context)
    case If(branches, elseBody) =>
      var k := FirstTrue(p, branches, 0, context);
      if k < |branches| then RenderNodes(p, branches[k].body, context) else RenderNodes(p, elseBody, context)
    case For(v, iter, children) =>
      var items := Items(EvalOption(p, iter, context));
      var (s, c) := RenderLoop(p, children, v, items, 0, context);
      (s, Restore(Restore(c, v, Lookup(context, v)), LOOP, Lookup(context, LOOP)))
    case Set(name, value) => ("", context[name := EvalOption(p, value, context)])
  }

  function RenderLoop(p: Primitives, children: seq<Node>, v: string, items: seq<Value>, i: nat,
                      context: Context): (string, Context)
    decreases children, 1, |items| - i
  {
    if i >= |items| then ("", context)
    else
      var (s, c) := RenderNodes(p, children, context[v := items[i]][LOOP := LoopInfo(i, |items|)]);
      var (t, d) := RenderLoop(p, children, v, items, i + 1, c);
      (s + t, d)
  }

  lemma Regroup(a: string, b: string, c: string)
    ensures a + (b + c) == a + b + c
  {
  }

  /** The interpreter object: the context is its state, the output a growing string. */
  class Renderer {
    const p: Primitives
    var context: Context

    constructor (p: Primitives)
      ensures this.p == p && context == map[]
    {
      this.p := p;
      context := map[];
    }

    method Render(nodes: seq<Node>, initial: Context) returns (result: string)
      modifies this
      ensures result == RenderNodes(p, nodes, initial).0
    {
      context := initial;
      result := RenderBlock(nodes, "");
      assert "" + RenderNodes(p, nodes, initial).0 == RenderNodes(p, nodes, initial).0;
    }

    method RenderBlock(nodes: seq<Node>, out: string) returns (result: string)
      modifies this
      ensures (result, context) == (out + RenderNodes(p, nodes, old(context)).0, RenderNodes(p, nodes, old(context)).1)
      decreases nodes, 0
    {
      result := out;
      ghost var (s, c) := RenderNodes(p, nodes, context);
      assert nodes[0..] == nodes;
      for i := 0 to |nodes|
        invariant out + s == result + RenderNodes(p, nodes[i..], context).0
        invariant c == RenderNodes(p, nodes[i..], context).1
      {
        assert nodes[i..][1..] == nodes[i + 1..];
        ghost var (s1, c1) := RenderNode(p, nodes[i], context);
        Regroup(result, s1, RenderNodes(p, nodes[i + 1..], c1).0);
        result := RenderOne(nodes[i], result);
      }
      assert nodes[|nodes|..] == [] && result + "" == result;
    }

    method RenderOne(node: Node, out: string) returns (result: string)
      modifies this
      ensures (result, context) == (out + RenderNode(p, node, old(context)).0, RenderNode(p, node, old(context)).1)
      decreases node, 1
    {
      match node
      case Text(text) =>
        result := out + text;
      case Output(expr) =>
        result := out + VariantToString(p, EvalExpr(p, expr, context));
      case If(branches, elseBody) =>
        result := RenderIf(node, out);
      case For(v, iter, children) =>
        result := RenderFor(node, out);
      case Set(name, value) =>
        context := context[name := EvalOption(p, value, context)];
        result := out;
        assert out + "" == out;
    }

    method RenderIf(node: Node, out: string) returns (result: string)
      requires node.If?
      modifies this
      ensures (result, context) == (out + RenderNode(p, node, old(context)).0, RenderNode(p, node, old(context)).1)
      decreases node, 0
    {
      ghost var before := context;
      for i := 0 to |node.branches|
        invariant context == before
        invariant FirstTrue(p, node.branches, 0, before) == FirstTrue(p, node.branches, i, before)
      {
        if IsTruthy(EvalExpr(p, node.branches[i].condition, context)) {
          result := RenderBlock(node.branches[i].body, out);
          return;
        }
      }
      result := RenderBlock(node.elseBody, out);
    }

    /** Saves the loop variable and `loop`, sets both for every round, puts both back. */
    method RenderFor(node: Node, out: string) returns (result: string)
      requires node.For?
      modifies this
      ensures (result, context) == (out + RenderNode(p, node, old(context)).0, RenderNode(p, node, old(context)).1)
      decreases node, 0
    {
      var list := Items(EvalOption(p, node.iter, context));
      var savedVar := Lookup(context, node.varName);
      var savedLoop := Lookup(context, LOOP);
      ghost var (s, c) := RenderLoop(p, node.children, node.varName, list, 0, context);
      result := out;
      for i := 0 to |list|
        invariant out + s == result + RenderLoop(p, node.children, node.varName, list, i, context).0
        invariant c == RenderLoop(p, node.children, node.varName, list, i, context).1
      {
        context := context[node.varName := list[i]];
        context := context[LOOP := LoopInfo(i, |list|)];
        ghost var (s1, c1) := RenderNodes(p, node.children, context);
        Regroup(result, s1, RenderLoop(p, node.children, node.varName, list, i + 1, c1).0);
        result := RenderBlock(node.children, result);
      }
      assert result + "" == result;
      context := Restore(context, node.varName, savedVar);
      context := Restore(context, LOOP, savedLoop);
    }
  }
}
