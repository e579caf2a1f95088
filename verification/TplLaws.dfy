/**
 * Laws of rendering, on the output alone: what each construct of a template
 * means, said by templates that use it less.
 */
module TplLaws {
  import opened Bytes
  import opened TplAst
  import opened TplRenderer

  // ------------------------------------------------------------------
  // Conditions
  // ------------------------------------------------------------------

  /** `{% if c %}t{% else %}f{% endif %}` */
  function Choice(c: Expr, t: seq<Node>, f: seq<Node>): Node { If([Branch(c, t)], f) }

  /** Which branch a value takes: nothing, false, zero and what is empty take the else body. */
  lemma ChoiceOnValue(p: Primitives, v: Value, t: seq<Node>, f: seq<Node>, context: Context)
    ensures var r := RenderNode(p, Choice(Literal(v), t, f), context);
            var yes, no := RenderNodes(p, t, context), RenderNodes(p, f, context);
            match v
            case Invalid => r == no
            case Bool(b) => r == if b then yes else no
            case Int(n) => r == if n == 0 then no else yes
            case Double(x) => r == if x == 0.0 then no else yes
            case Str(s) => r == if |s| == 0 then no else yes
            case List(items) => r == if |items| == 0 then no else yes
            case StrList(_) => r == yes
            case Dict(fields) => r == if |fields| == 0 then no else yes
  {
    hide RenderNodes;
    assert FirstTrue(p, [Branch(Literal(v), t)], 0, context) == if IsTruthy(v) then 0 else 1;
  }

  /** A condition matters by its value alone. */
  lemma ChoiceByValue(p: Primitives, c: Expr, t: seq<Node>, f: seq<Node>, context: Context)
    ensures RenderNode(p, Choice(c, t, f), context)
         == RenderNode(p, Choice(Literal(EvalExpr(p, c, context)), t, f), context)
  {
    hide RenderNodes, EvalExpr, IsTruthy;
    ChoiceTakes(p, c, t, f, context);
    ChoiceTakes(p, Literal(EvalExpr(p, c, context)), t, f, context);
    LiteralValue(p, EvalExpr(p, c, context), context);
  }

  lemma LiteralValue(p: Primitives, v: Value, context: Context)
    ensures EvalExpr(p, Literal(v), context) == v
  {
  }

  lemma ChoiceTakes(p: Primitives, c: Expr, t: seq<Node>, f: seq<Node>, context: Context)
    ensures RenderNode(p, Choice(c, t, f), context)
         == if IsTruthy(EvalExpr(p, c, context)) then RenderNodes(p, t, context) else RenderNodes(p, f, context)
  {
    hide RenderNodes, EvalExpr, IsTruthy;
    var bs := [Branch(c, t)];
    assert FirstTrue(p, bs, 0, context) == if IsTruthy(EvalExpr(p, c, context)) then 0 else 1;
  }

  /** not swaps the branches. */
  lemma NotSwaps(p: Primitives, c: Expr, t: seq<Node>, f: seq<Node>, context: Context)
    ensures RenderNode(p, Choice(UnaryNot(c), t, f), context) == RenderNode(p, Choice(c, f, t), context)
  {
    hide RenderNodes;
    ChoiceTakes(p, UnaryNot(c), t, f, context);
    ChoiceTakes(p, c, f, t, context);
  }

  /** and is an if within an if, or an else that asks again. */
  lemma AndNests(p: Primitives, a: Expr, b: Expr, t: seq<Node>, f: seq<Node>, context: Context)
    ensures RenderNode(p, Choice(BinOp("and", a, b), t, f), context)
         == RenderNode(p, Choice(a, [Choice(b, t, f)], f), context)
  {
    hide RenderNodes, RenderNode;
    ChoiceTakes(p, BinOp("and", a, b), t, f, context);
    ChoiceTakes(p, a, [Choice(b, t, f)], f, context);
    ChoiceTakes(p, b, t, f, context);
    OnlyNode(p, Choice(b, t, f), context);
  }

  lemma OrNests(p: Primitives, a: Expr, b: Expr, t: seq<Node>, f: seq<Node>, context: Context)
    ensures RenderNode(p, Choice(BinOp("or", a, b), t, f), context)
         == RenderNode(p, Choice(a, t, [Choice(b, t, f)]), context)
  {
    hide RenderNodes, RenderNode;
    ChoiceTakes(p, BinOp("or", a, b), t, f, context);
    ChoiceTakes(p, a, t, [Choice(b, t, f)], context);
    ChoiceTakes(p, b, t, f, context);
    OnlyNode(p, Choice(b, t, f), context);
  }

  lemma OnlyNode(p: Primitives, node: Node, context: Context)
    ensures RenderNodes(p, [node], context) == RenderNode(p, node, context)
  {
    hide RenderNode;
    var (s, c) := RenderNode(p, node, context);
    assert [node][1..] == [] && RenderNodes(p, [], c) == ("", c) && s + "" == s;
  }

  /** elif is an if in the else body, an if without branches its else body: the first branch that holds is taken. */
  lemma {:induction false} ElifNests(p: Primitives, bs: seq<Branch>, f: seq<Node>, context: Context)
    ensures RenderNode(p, If([], f), context) == RenderNodes(p, f, context)
    ensures bs != [] ==>
              RenderNode(p, If(bs, f), context)
              == RenderNode(p, Choice(bs[0].condition, bs[0].body, [If(bs[1..], f)]), context)
  {
    if bs != [] {
      hide RenderNodes, EvalExpr, IsTruthy;
      ChoiceTakes(p, bs[0].condition, bs[0].body, [If(bs[1..], f)], context);
      OnlyNode(p, If(bs[1..], f), context);
      FirstShifts(p, bs, 1, context);
    }
  }

  lemma {:induction false} FirstShifts(p: Primitives, bs: seq<Branch>, i: nat, context: Context)
    requires 1 <= i <= |bs|
    ensures FirstTrue(p, bs, i, context) == 1 + FirstTrue(p, bs[1..], i - 1, context)
    decreases |bs| - i
  {
    hide EvalExpr, IsTruthy;
    if i < |bs| {
      assert bs[1..][i - 1] == bs[i];
      FirstShifts(p, bs, i + 1, context);
    }
  }

  // ------------------------------------------------------------------
  // Output and assignment
  // ------------------------------------------------------------------

  /** Text and strings show as they are, nothing as nothing, truth as a word. */
  lemma OutputOfLiteral(p: Primitives, b: bool, s: string, context: Context)
    ensures RenderNode(p, Text(s), context) == (s, context)
    ensures RenderNode(p, Output(Literal(Str(s))), context) == (s, context)
    ensures RenderNode(p, Output(Literal(Invalid)), context) == ("", context)
    ensures RenderNode(p, Output(Literal(Bool(b))), context) == (if b then "true" else "false", context)
  {
  }

  /** The elements of a list as a template: each one's output, a comma and a blank between two. */
  function Listed(es: seq<Expr>): seq<Node> {
    if es == [] then [] else if |es| == 1 then [Output(es[0])] else [Output(es[0]), Text(", ")] + Listed(es[1..])
  }

  /** A list shows its elements, as they would show by themselves, in brackets. */
  lemma OutputOfList(p: Primitives, es: seq<Expr>, context: Context)
    ensures RenderNode(p, Output(ListLiteral(es)), context)
         == ("[" + RenderNodes(p, Listed(es), context).0 + "]", context)
  {
    hide RenderNodes, Listed;
    ListedShows(p, es, context);
    assert EvalExpr(p, ListLiteral(es), context) == List(EvalAll(p, es, context));
  }

  lemma {:induction false} ListedShows(p: Primitives, es: seq<Expr>, context: Context)
    ensures RenderNodes(p, Listed(es), context) == (JoinTexts(p, EvalAll(p, es, context)), context)
    decreases |es|
  {
    if |es| == 1 {
      OnlyNode(p, Output(es[0]), context);
      assert EvalAll(p, es, context) == [EvalExpr(p, es[0], context)];
    } else if es != [] {
      var first, more := EvalExpr(p, es[0], context), EvalAll(p, es[1..], context);
      ListedShows(p, es[1..], context);
      AllEvaluated(p, es[1..], context);
      assert ([first] + more)[1..] == more;
      TwoNodes(p, Output(es[0]), Text(", "), Listed(es[1..]), context);
    }
  }

  lemma TwoNodes(p: Primitives, a: Node, b: Node, rest: seq<Node>, context: Context)
    requires RenderNode(p, a, context).1 == context && RenderNode(p, b, context).1 == context
    ensures var r := RenderNodes(p, rest, context);
            RenderNodes(p, [a, b] + rest, context)
            == (RenderNode(p, a, context).0 + RenderNode(p, b, context).0 + r.0, r.1)
  {
    hide RenderNode;
    var ns := [a, b] + rest;
    assert ns[0] == a && ns[1..] == [b] + rest && ([b] + rest)[0] == b && ([b] + rest)[1..] == rest;
    Regroup(RenderNode(p, a, context).0, RenderNode(p, b, context).0, RenderNodes(p, rest, context).0);
  }

  /** A field of a dictionary is its value there; of anything else, and where there is none, nothing. */
  lemma FieldOf(p: Primitives, e: Expr, field: string, context: Context)
    ensures var v := EvalExpr(p, e, context);
            RenderNode(p, Output(DotAccess(e, field)), context)
            == RenderNode(p, Output(Literal(if v.Dict? && field in v.fields then v.fields[field] else Invalid)),
                          context)
  {
  }

  /** An operator is applied to the values of its left and right operand, a filter to its input's and arguments'. */
  lemma OperatorOf(p: Primitives, op: string, l: Expr, r: Expr, filter: string, args: seq<Expr>, context: Context)
    requires op !in {"and", "or"}
    ensures RenderNode(p, Output(BinOp(op, l, r)), context)
         == RenderNode(p, Output(Literal(p.operator(op, EvalExpr(p, l, context), EvalExpr(p, r, context)))), context)
    ensures RenderNode(p, Output(Filter(l, filter, args)), context)
         == RenderNode(p, Output(Literal(p.applyFilter(filter, EvalExpr(p, l, context), EvalAll(p, args, context)))),
                       context)
    ensures |EvalAll(p, args, context)| == |args|
            && forall i :: 0 <= i < |args| ==> EvalAll(p, args, context)[i] == EvalExpr(p, args[i], context)
  {
    hide VariantToString;
    AllEvaluated(p, args, context);
  }

  lemma {:induction false} AllEvaluated(p: Primitives, es: seq<Expr>, context: Context)
    ensures |EvalAll(p, es, context)| == |es|
            && forall i :: 0 <= i < |es| ==> EvalAll(p, es, context)[i] == EvalExpr(p, es[i], context)
    decreases |es|
  {
    hide EvalExpr;
    if es != [] { AllEvaluated(p, es[1..], context); }
  }

  /** A condition made of others shows as true or false. */
  lemma TruthShows(p: Primitives, a: Expr, context: Context)
    requires a.UnaryNot? || (a.BinOp? && a.op in {"and", "or"})
    ensures RenderNode(p, Output(a), context) == RenderNode(p, Choice(a, [Text("true")], [Text("false")]), context)
  {
    hide RenderNodes;
    ChoiceTakes(p, a, [Text("true")], [Text("false")], context);
    OnlyNode(p, Text("true"), context);
    OnlyNode(p, Text("false"), context);
  }

  /** A set name stands for the value it was set to, and a name never set for nothing. */
  lemma SetThenOutput(p: Primitives, name: string, e: Expr, context: Context)
    ensures RenderNodes(p, [Set(name, Some(e)), Output(Variable(name))], context).0
         == RenderNodes(p, [Output(e)], context).0
    ensures name !in context ==> RenderNodes(p, [Output(Variable(name))], context).0 == ""
  {
    hide VariantToString;
    var ns := [Set(name, Some(e)), Output(Variable(name))];
    assert ns[1..] == [Output(Variable(name))];
    OnlyNode(p, Output(Variable(name)), context[name := EvalExpr(p, e, context)]);
    OnlyNode(p, Output(Variable(name)), context);
    OnlyNode(p, Output(e), context);
    NothingShows(p);
  }

  lemma NothingShows(p: Primitives)
    ensures VariantToString(p, Invalid) == ""
  {
  }

  // ------------------------------------------------------------------
  // Loops
  // ------------------------------------------------------------------

  /** The values a round of a loop sets, as set tags. */
  function Round(v: string, item: Value, i: nat, n: nat): seq<Node> {
    [Set(v, Some(Literal(item))),
     Set("loop", Some(Literal(Dict(map["index" := Int(i + 1), "index0" := Int(i), "first" := Bool(i == 0),
                                       "last" := Bool(i + 1 == n), "length" := Int(n)]))))]
  }

  function Texts(strs: seq<string>): (r: seq<Value>)
    ensures |r| == |strs| && forall i :: 0 <= i < |r| ==> r[i] == Str(strs[i])
  {
    seq(|strs|, i requires 0 <= i < |strs| => Str(strs[i]))
  }

  /** A loop written out, round after round. */
  function Unrolled(v: string, items: seq<Value>, i: nat, children: seq<Node>): seq<Node>
    decreases |items| - i
  {
    if i >= |items| then [] else Round(v, items[i], i, |items|) + children + Unrolled(v, items, i + 1, children)
  }

  /**
   * A loop over a list, of values or of strings, renders as its rounds written
   * out, each behind set tags for the loop variable and for loop; over anything
   * else it renders nothing.  Both names are put back afterwards.
   */
  lemma LoopUnrolls(p: Primitives, v: string, e: Expr, children: seq<Node>, context: Context)
    ensures var shown, value := RenderNode(p, For(v, Some(e), children), context).0, EvalExpr(p, e, context);
            && (value.List? ==> shown == RenderNodes(p, Unrolled(v, value.items, 0, children), context).0)
            && (value.StrList? ==> shown == RenderNodes(p, Unrolled(v, Texts(value.strs), 0, children), context).0)
            && (!value.List? && !value.StrList? ==> shown == "")
    ensures var after := RenderNode(p, For(v, Some(e), children), context).1;
            Lookup(after, v) == Lookup(context, v) && Lookup(after, "loop") == Lookup(context, "loop")
  {
    hide RenderNodes, EvalExpr, Unrolled;
    var value := EvalExpr(p, e, context);
    RoundsAre(p, children, v, Items(value), 0, context);
    if value.StrList? { assert Items(value) == Texts(value.strs); }
    if !value.List? && !value.StrList? { NoRounds(p, children, v, context); }
  }

  lemma NoRounds(p: Primitives, children: seq<Node>, v: string, context: Context)
    ensures RenderLoop(p, children, v, [], 0, context).0 == ""
  {
  }

  lemma {:induction false} RoundsAre(p: Primitives, children: seq<Node>, v: string, items: seq<Value>, i: nat,
                                     context: Context)
    ensures RenderNodes(p, Unrolled(v, items, i, children), context) == RenderLoop(p, children, v, items, i, context)
    decreases |items| - i
  {
    hide RenderNodes;
    if i >= |items| {
      NoNodes(p, context);
    } else {
      var rest := Unrolled(v, items, i + 1, children);
      var start := context[v := items[i]][LOOP := LoopInfo(i, |items|)];
      var (s, c) := RenderNodes(p, children, start);
      RoundsAre(p, children, v, items, i + 1, c);
      RoundSets(p, v, items[i], i, |items|, context);
      Concatenated(p, Round(v, items[i], i, |items|) + children, rest, context);
      Concatenated(p, Round(v, items[i], i, |items|), children, context);
      assert "" + s == s;
    }
  }

  lemma NoNodes(p: Primitives, context: Context)
    ensures RenderNodes(p, [], context) == ("", context)
  {
  }

  lemma RoundSets(p: Primitives, v: string, item: Value, i: nat, n: nat, context: Context)
    ensures RenderNodes(p, Round(v, item, i, n), context) == ("", context[v := item][LOOP := LoopInfo(i, n)])
  {
    var ns := Round(v, item, i, n);
    assert ns[1..] == [ns[1]];
    OnlyNode(p, ns[1], context[v := item]);
    assert "" + "" == "";
  }

  /** Node lists render one after the other. */
  lemma {:induction false} Concatenated(p: Primitives, a: seq<Node>, b: seq<Node>, context: Context)
    ensures var (s, c) := RenderNodes(p, a, context);
            var (t, d) := RenderNodes(p, b, c);
            RenderNodes(p, a + b, context) == (s + t, d)
    decreases |a|
  {
    hide RenderNode;
    if a == [] {
      assert a + b == b;
      assert RenderNodes(p, a, context) == ("", context);
      assert "" + RenderNodes(p, b, context).0 == RenderNodes(p, b, context).0;
    } else {
      assert (a + b)[0] == a[0] && (a + b)[1..] == a[1..] + b;
      var (s, c) := RenderNode(p, a[0], context);
      Concatenated(p, a[1..], b, c);
      var (t, d) := RenderNodes(p, a[1..], c);
      Regroup(s, t, RenderNodes(p, b, d).0);
    }
  }
}
