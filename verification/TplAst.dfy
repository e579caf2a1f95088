/** Template values, expressions and nodes. */
module TplAst {
  import opened Bytes

  datatype Value =
    | Invalid
    | Bool(b: bool)
    | Int(n: int)
    | Double(r: real)
    | Str(s: string)
    | List(items: seq<Value>)
    | StrList(strs: seq<string>)
    | Dict(fields: map<string, Value>)

  datatype Expr =
    | Literal(value: Value)
    | Variable(name: string)
    | DotAccess(object_: Expr, field: string)
    | Filter(input: Expr, filter: string, args: seq<Expr>)
    | BinOp(op: string, left: Expr, right: Expr)
    | UnaryNot(operand: Expr)
    | ListLiteral(elements: seq<Expr>)

  /** A node whose tag was malformed has no expression. */
  datatype Node =
    | Text(text: string)
    | Output(expr: Expr)
    | If(branches: seq<Branch>, elseBody: seq<Node>)
    | For(varName: string, iter: Option<Expr>, children: seq<Node>)
    | Set(name: string, value: Option<Expr>)

  datatype Branch = Branch(condition: Expr, body: seq<Node>)

  type Context = map<string, Value>

  const LOOP: string := "loop"

  /** The operations on values that templates do not define: strict operators, filters, text of a number or a map. */
  datatype Primitives = Primitives(
    operator: (string, Value, Value) -> Value,
    applyFilter: (string, Value, seq<Value>) -> Value,
    toText: Value -> string)

  function Lookup(context: Context, name: string): Value {
    if name in context then context[name] else Invalid
  }

  predicate IsTruthy(v: Value) {
    match v
    case Invalid => false
    case Bool(b) => b
    case Int(n) => n != 0
    case Double(r) => r != 0.0
    case Str(s) => s != ""
    case List(items) => items != []
    case StrList(_) => true
    case Dict(fields) => fields != map[]
  }

  function EvalExpr(p: Primitives, e: Expr, context: Context): Value
    decreases e
  {
    match e
    case Literal(v) => v
    case Variable(name) => Lookup(context, name)
    case DotAccess(o, field) =>
      var v := EvalExpr(p, o, context);
      if v.Dict? && field in v.fields then v.fields[field] else Invalid
    case Filter(input, name, args) => p.applyFilter(name, EvalExpr(p, input, context), EvalAll(p, args, context))
    case BinOp(op, l, r) =>
      if op == "and" then Bool(IsTruthy(EvalExpr(p, l, context)) && IsTruthy(EvalExpr(p, r, context)))
      else if op == "or" then Bool(IsTruthy(EvalExpr(p, l, context)) || IsTruthy(EvalExpr(p, r, context)))
      else p.operator(op, EvalExpr(p, l, context), EvalExpr(p, r, context))
    case UnaryNot(o) => Bool(!IsTruthy(EvalExpr(p, o, context)))
    case ListLiteral(es) => List(EvalAll(p, es, context))
  }

  function EvalAll(p: Primitives, es: seq<Expr>, context: Context): seq<Value>
    decreases es
  {
    if es == [] then [] else [EvalExpr(p, es[0], context)] + EvalAll(p, es[1..], context)
  }

  /** A missing expression has no value. */
  function EvalOption(p: Primitives, e: Option<Expr>, context: Context): Value {
    match e
    case None => Invalid
    case Some(expr) => EvalExpr(p, expr, context)
  }

  function VariantToString(p: Primitives, v: Value): string
  {
    match v
    case Invalid => ""
    case Bool(b) => if b then "true" else "false"
    case Str(s) => s
    case List(items) => "[" + JoinTexts(p, items) + "]"
    case _ => p.toText(v)
  }

  function JoinTexts(p: Primitives, items: seq<Value>): string
  {
    if items == [] then ""
    else if |items| == 1 then VariantToString(p, items[0])
    else VariantToString(p, items[0]) + ", " + JoinTexts(p, items[1..])
  }

  // ------------------------------------------------------------------
  // Names an expression reads
  // ------------------------------------------------------------------

  function Names(e: Expr): set<string>
    decreases e
  {
    match e
    case Literal(_) => {}
    case Variable(name) => {name}
    case DotAccess(o, _) => Names(o)
    case Filter(input, _, args) => Names(input) + NamesAll(args)
    case BinOp(_, l, r) => Names(l) + Names(r)
    case UnaryNot(o) => Names(o)
    case ListLiteral(es) => NamesAll(es)
  }

  function NamesAll(es: seq<Expr>): set<string>
    decreases es
  {
    if es == [] then {} else Names(es[0]) + NamesAll(es[1..])
  }

  function NamesOption(e: Option<Expr>): set<string> {
    match e
    case None => {}
    case Some(expr) => Names(expr)
  }

  ghost predicate AgreeOn(names: set<string>, c: Context, d: Context) {
    forall n :: n in names ==> Lookup(c, n) == Lookup(d, n)
  }

  /** An expression's value depends only on the names in it. */
  lemma {:induction false} EvalDependsOnNames(p: Primitives, e: Expr, c: Context, d: Context)
    requires AgreeOn(Names(e), c, d)
    ensures EvalExpr(p, e, c) == EvalExpr(p, e, d)
    decreases e
  {
    match e
    case Literal(_) =>
    case Variable(name) =>
    case DotAccess(o, _) => EvalDependsOnNames(p, o, c, d);
    case Filter(input, _, args) =>
      EvalDependsOnNames(p, input, c, d);
      EvalAllDependsOnNames(p, args, c, d);
    case BinOp(_, l, r) =>
      EvalDependsOnNames(p, l, c, d);
      EvalDependsOnNames(p, r, c, d);
    case UnaryNot(o) => EvalDependsOnNames(p, o, c, d);
    case ListLiteral(es) => EvalAllDependsOnNames(p, es, c, d);
  }

  lemma {:induction false} EvalAllDependsOnNames(p: Primitives, es: seq<Expr>, c: Context, d: Context)
    requires AgreeOn(NamesAll(es), c, d)
    ensures EvalAll(p, es, c) == EvalAll(p, es, d)
    decreases es
  {
    if es != [] {
      EvalDependsOnNames(p, es[0], c, d);
      EvalAllDependsOnNames(p, es[1..], c, d);
    }
  }

  lemma EvalOptionDependsOnNames(p: Primitives, e: Option<Expr>, c: Context, d: Context)
    requires AgreeOn(NamesOption(e), c, d)
    ensures EvalOption(p, e, c) == EvalOption(p, e, d)
  {
    if e.Some? { EvalDependsOnNames(p, e.value, c, d); }
  }
}
