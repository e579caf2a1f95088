/** What rendering can change, what it depends on, and the lexical scoping the save-and-restore loop implements. */
module TplScoping {
  import opened Bytes
  import opened TplAst
  import opened TplRenderer

  // ------------------------------------------------------------------
  // Names a node list assigns and reads
  // ------------------------------------------------------------------

  /** Names set tags assign, except those a surrounding for tag in the list puts back. */
  function Assigned(nodes: seq<Node>): set<string>
    decreases nodes
  {
    if nodes == [] then {} else AssignedBy(nodes[0]) + Assigned(nodes[1..])
  }

  function AssignedBy(node: Node): set<string>
    decreases node
  {
    match node
    case Text(_) => {}
    case Output(_) => {}
    case If(branches, elseBody) => AssignedIn(branches) + Assigned(elseBody)
    case For(v, _, children) => Assigned(children) - {v, LOOP}
    case Set(name, _) => {name}
  }

  function AssignedIn(branches: seq<Branch>): set<string>
    decreases branches
  {
    if branches == [] then {} else Assigned(branches[0].body) + AssignedIn(branches[1..])
  }

  /** Names the expressions of a node list mention. */
  function Reads(nodes: seq<Node>): set<string>
    decreases nodes
  {
    if nodes == [] then {} else ReadBy(nodes[0]) + Reads(nodes[1..])
  }

  function ReadBy(node: Node): set<string>
    decreases node
  {
    match node
    case Text(_) => {}
    case Output(e) => Names(e)
    case If(branches, elseBody) => ReadIn(branches) + Reads(elseBody)
    case For(_, iter, children) => NamesOption(iter) + Reads(children)
    case Set(_, value) => NamesOption(value)
  }

  function ReadIn(branches: seq<Branch>): set<string>
    decreases branches
  {
    if branches == [] then {} else Names(branches[0].condition) + Reads(branches[0].body) + ReadIn(branches[1..])
  }

  lemma {:induction false} BranchAssigns(branches: seq<Branch>, k: nat)
    requires k < |branches|
    ensures Assigned(branches[k].body) <= AssignedIn(branches)
  {
    if k > 0 { BranchAssigns(branches[1..], k - 1); }
  }

  lemma {:induction false} BranchReads(branches: seq<Branch>, k: nat)
    requires k < |branches|
    ensures Names(branches[k].condition) + Reads(branches[k].body) <= ReadIn(branches)
  {
    if k > 0 { BranchReads(branches[1..], k - 1); }
  }

  // ------------------------------------------------------------------
  // Rendering changes only assigned names
  // ------------------------------------------------------------------

  ghost predicate SameBut(names: set<string>, c: Context, d: Context) {
    forall n :: n !in names ==> Lookup(c, n) == Lookup(d, n)
  }

  lemma {:induction false} OnlyAssignedChange(p: Primitives, nodes: seq<Node>, context: Context)
    ensures SameBut(Assigned(nodes), context, RenderNodes(p, nodes, context).1)
    decreases nodes, 0, 0
  {
    if nodes != [] {
      var c := RenderNode(p, nodes[0], context).1;
      OnlyAssignedByChange(p, nodes[0], context);
      OnlyAssignedChange(p, nodes[1..], c);
    }
  }

  lemma {:induction false} OnlyAssignedByChange(p: Primitives, node: Node, context: Context)
    ensures SameBut(AssignedBy(node), context, RenderNode(p, node, context).1)
    decreases node, 0, 0
  {
    match node
    case Text(_) =>
    case Output(_) =>
    case If(branches, elseBody) =>
      var k := FirstTrue(p, branches, 0, context);
      if k < |branches| {
        OnlyAssignedChange(p, branches[k].body, context);
        BranchAssigns(branches, k);
      } else {
        OnlyAssignedChange(p, elseBody, context);
      }
    case For(v, iter, children) =>
      var items := Items(EvalOption(p, iter, context));
      LoopChanges(p, children, v, items, 0, context);
    case Set(_, _) =>
  }

  lemma {:induction false} LoopChanges(p: Primitives, children: seq<Node>, v: string, items: seq<Value>, i: nat,
                                       context: Context)
    ensures SameBut(Assigned(children) + {v, LOOP}, context, RenderLoop(p, children, v, items, i, context).1)
    decreases children, 1, |items| - i
  {
    if i < |items| {
      var inner := context[v := items[i]][LOOP := LoopInfo(i, |items|)];
      OnlyAssignedChange(p, children, inner);
      LoopChanges(p, children, v, items, i + 1, RenderNodes(p, children, inner).1);
    }
  }

  // ------------------------------------------------------------------
  // Rendering depends only on names read
  // ------------------------------------------------------------------

  lemma {:induction false} DependsOnReads(p: Primitives, nodes: seq<Node>, names: set<string>, c: Context, d: Context)
    requires Reads(nodes) <= names && AgreeOn(names, c, d)
    ensures RenderNodes(p, nodes, c).0 == RenderNodes(p, nodes, d).0
    ensures AgreeOn(names, RenderNodes(p, nodes, c).1, RenderNodes(p, nodes, d).1)
    decreases nodes, 0, 0
  {
    if nodes != [] {
      NodeDependsOnReads(p, nodes[0], names, c, d);
      DependsOnReads(p, nodes[1..], names, RenderNode(p, nodes[0], c).1, RenderNode(p, nodes[0], d).1);
    }
  }

  lemma {:induction false} NodeDependsOnReads(p: Primitives, node: Node, names: set<string>, c: Context, d: Context)
    requires ReadBy(node) <= names && AgreeOn(names, c, d)
    ensures RenderNode(p, node, c).0 == RenderNode(p, node, d).0
    ensures AgreeOn(names, RenderNode(p, node, c).1, RenderNode(p, node, d).1)
    decreases node, 0, 0
  {
    match node
    case Text(_) =>
    case Output(e) =>
      EvalDependsOnNames(p, e, c, d);
    case If(branches, elseBody) =>
      SameBranch(p, branches, 0, names, c, d);
      var k := FirstTrue(p, branches, 0, c);
      if k < |branches| {
        BranchReads(branches, k);
        DependsOnReads(p, branches[k].body, names, c, d);
      } else {
        DependsOnReads(p, elseBody, names, c, d);
      }
    case For(v, iter, children) =>
      hide AgreeOn, EvalExpr;
      ReadsAgree(NamesOption(iter), names, c, d);
      EvalOptionDependsOnNames(p, iter, c, d);
      var items := Items(EvalOption(p, iter, c));
      LoopDependsOnReads(p, children, v, items, 0, names, c, d);
      RestoreAgrees(names, c, d, RenderLoop(p, children, v, items, 0, c).1,
                    RenderLoop(p, children, v, items, 0, d).1, v);
    case Set(_, value) =>
      EvalOptionDependsOnNames(p, value, c, d);
  }

  lemma ReadsAgree(read: set<string>, names: set<string>, c: Context, d: Context)
    requires read <= names && AgreeOn(names, c, d)
    ensures AgreeOn(read, c, d)
  {
  }

  /** Putting back the loop variable and `loop` keeps two contexts in agreement. */
  lemma RestoreAgrees(names: set<string>, c: Context, d: Context, c1: Context, d1: Context, v: string)
    requires AgreeOn(names, c, d) && AgreeOn(names, c1, d1)
    ensures AgreeOn(names, Restore(Restore(c1, v, Lookup(c, v)), LOOP, Lookup(c, LOOP)),
                    Restore(Restore(d1, v, Lookup(d, v)), LOOP, Lookup(d, LOOP)))
  {
  }

  lemma {:induction false} SameBranch(p: Primitives, branches: seq<Branch>, i: nat, names: set<string>, c: Context,
                                      d: Context)
    requires i <= |branches| && ReadIn(branches) <= names && AgreeOn(names, c, d)
    ensures FirstTrue(p, branches, i, c) == FirstTrue(p, branches, i, d)
    decreases |branches| - i
  {
    if i < |branches| {
      BranchReads(branches, i);
      EvalDependsOnNames(p, branches[i].condition, c, d);
      SameBranch(p, branches, i + 1, names, c, d);
    }
  }

  lemma {:induction false} LoopDependsOnReads(p: Primitives, children: seq<Node>, v: string, items: seq<Value>, i: nat,
                                              names: set<string>, c: Context, d: Context)
    requires Reads(children) <= names && AgreeOn(names, c, d)
    ensures RenderLoop(p, children, v, items, i, c).0 == RenderLoop(p, children, v, items, i, d).0
    ensures AgreeOn(names, RenderLoop(p, children, v, items, i, c).1, RenderLoop(p, children, v, items, i, d).1)
    decreases children, 1, |items| - i
  {
    if i < |items| {
      var c1 := c[v := items[i]][LOOP := LoopInfo(i, |items|)];
      var d1 := d[v := items[i]][LOOP := LoopInfo(i, |items|)];
      DependsOnReads(p, children, names, c1, d1);
      LoopDependsOnReads(p, children, v, items, i + 1, names, RenderNodes(p, children, c1).1,
                         RenderNodes(p, children, d1).1);
    }
  }

  // ------------------------------------------------------------------
  // Fragments
  // ------------------------------------------------------------------

  lemma {:induction false} RenderAppend(p: Primitives, a: seq<Node>, b: seq<Node>, context: Context)
    ensures RenderNodes(p, a + b, context)
         == (RenderNodes(p, a, context).0 + RenderNodes(p, b, RenderNodes(p, a, context).1).0,
             RenderNodes(p, b, RenderNodes(p, a, context).1).1)
  {
    if a == [] {
      assert a + b == b;
      assert "" + RenderNodes(p, b, context).0 == RenderNodes(p, b, context).0;
    } else {
      assert (a + b)[0] == a[0] && (a + b)[1..] == a[1..] + b;
      var (s, c) := RenderNode(p, a[0], context);
      RenderAppend(p, a[1..], b, c);
      Regroup(s, RenderNodes(p, a[1..], c).0, RenderNodes(p, b, RenderNodes(p, a[1..], c).1).0);
    }
  }

  /** Fragments whose set tags do not touch what the next one reads render independently. */
  lemma IndependentFragments(p: Primitives, a: seq<Node>, b: seq<Node>, context: Context)
    requires Assigned(a) !! Reads(b)
    ensures RenderNodes(p, a + b, context).0 == RenderNodes(p, a, context).0 + RenderNodes(p, b, context).0
  {
    RenderAppend(p, a, b, context);
    OnlyAssignedChange(p, a, context);
    DependsOnReads(p, b, Reads(b), context, RenderNodes(p, a, context).1);
  }

  // ------------------------------------------------------------------
  // Lexical scoping
  // ------------------------------------------------------------------

  /** Scopes opened by for tags, innermost outside; set assigns where the name is bound, or globally. */
  datatype Env = Global(vars: Context) | Scope(vars: Context, outer: Env)

  function EnvLookup(env: Env, name: string): Value {
    match env
    case Global(vars) => Lookup(vars, name)
    case Scope(vars, outer) => if name in vars then vars[name] else EnvLookup(outer, name)
  }

  function EnvAssign(env: Env, name: string, value: Value): Env {
    match env
    case Global(vars) => Global(vars[name := value])
    case Scope(vars, outer) =>
      if name in vars then Scope(vars[name := value], outer) else Scope(vars, EnvAssign(outer, name, value))
  }

  /** The bindings an expression sees, as one context. */
  function Flatten(env: Env): Context {
    match env
    case Global(vars) => vars
    case Scope(vars, outer) => Flatten(outer) + vars
  }

  function Meaning(p: Primitives, nodes: seq<Node>, env: Env): (string, Env)
    decreases nodes, 0, 0
  {
    if nodes == [] then ("", env)
    else
      var (s, e) := NodeMeaning(p, nodes[0], env);
      var (t, f) := Meaning(p, nodes[1..], e);
      (s + t, f)
  }

  function NodeMeaning(p: Primitives, node: Node, env: Env): (string, Env)
    decreases node, 0, 0
  {
    match node
    case Text(text) => (text, env)
    case Output(e) => (VariantToString(p, EvalExpr(p, e, Flatten(env))), env)
    case If(branches, elseBody) =>
      var k := FirstTrue(p, branches, 0, Flatten(env));
      if k < |branches| then Meaning(p, branches[k].body, env) else Meaning(p, elseBody, env)
    case For(v, iter, children) => LoopMeaning(p, children, v, Items(EvalOption(p, iter, Flatten(env))), 0, env)
    case Set(name, value) => ("", EnvAssign(env, name, EvalOption(p, value, Flatten(env))))
  }

  /** Each round runs in a new scope holding the loop variable and `loop`. */
  function LoopMeaning(p: Primitives, children: seq<Node>, v: string, items: seq<Value>, i: nat, env: Env): (string,
                       Env)
    decreases children, 1, |items| - i
  {
    if i >= |items| then ("", env)
    else
      var (s, e) := Meaning(p, children, Scope(map[v := items[i]][LOOP := LoopInfo(i, |items|)], env));
      var (t, f) := LoopMeaning(p, children, v, items, i + 1, if e.Scope? then e.outer else env);
      (s + t, f)
  }

  lemma {:induction false} FlattenLookup(env: Env, name: string)
    ensures Lookup(Flatten(env), name) == EnvLookup(env, name)
  {
    if env.Scope? { FlattenLookup(env.outer, name); }
  }

  /** Same scopes binding the same names, and no change to a name below a scope that binds it. */
  ghost predicate Shadowed(d: Env, e: Env)
    decreases d
  {
    match d
    case Global(_) => e.Global?
    case Scope(vars, outer) =>
      && e.Scope? && e.vars.Keys == vars.Keys
      && (forall n :: n in vars ==> EnvLookup(outer, n) == EnvLookup(e.outer, n))
      && Shadowed(outer, e.outer)
  }

  lemma {:induction false} ShadowedSelf(d: Env)
    ensures Shadowed(d, d)
  {
    if d.Scope? { ShadowedSelf(d.outer); }
  }

  lemma {:induction false} ShadowedTrans(d: Env, e: Env, f: Env)
    requires Shadowed(d, e) && Shadowed(e, f)
    ensures Shadowed(d, f)
  {
    if d.Scope? { ShadowedTrans(d.outer, e.outer, f.outer); }
  }

  lemma {:induction false} AssignLookup(env: Env, name: string, value: Value, n: string)
    ensures EnvLookup(EnvAssign(env, name, value), n) == if n == name then value else EnvLookup(env, n)
  {
    if env.Scope? && name !in env.vars { AssignLookup(env.outer, name, value, n); }
  }

  lemma {:induction false} AssignShadowed(env: Env, name: string, value: Value)
    ensures Shadowed(env, EnvAssign(env, name, value))
  {
    match env
    case Global(_) =>
    case Scope(vars, outer) =>
      if name in vars { ShadowedSelf(outer); }
      else {
        AssignShadowed(outer, name, value);
        forall n | n in vars ensures EnvLookup(outer, n) == EnvLookup(EnvAssign(outer, name, value), n) {
          AssignLookup(outer, name, value, n);
        }
      }
  }

  lemma {:induction false} MeaningShadowed(p: Primitives, nodes: seq<Node>, env: Env)
    ensures Shadowed(env, Meaning(p, nodes, env).1)
    decreases nodes, 0, 0
  {
    if nodes == [] { ShadowedSelf(env); }
    else {
      var e := NodeMeaning(p, nodes[0], env).1;
      NodeShadowed(p, nodes[0], env);
      MeaningShadowed(p, nodes[1..], e);
      ShadowedTrans(env, e, Meaning(p, nodes[1..], e).1);
    }
  }

  lemma {:induction false} NodeShadowed(p: Primitives, node: Node, env: Env)
    ensures Shadowed(env, NodeMeaning(p, node, env).1)
    decreases node, 0, 0
  {
    match node
    case Text(_) => ShadowedSelf(env);
    case Output(_) => ShadowedSelf(env);
    case If(branches, elseBody) =>
      var k := FirstTrue(p, branches, 0, Flatten(env));
      if k < |branches| { MeaningShadowed(p, branches[k].body, env); } else { MeaningShadowed(p, elseBody, env); }
    case For(v, iter, children) =>
      LoopShadowed(p, children, v, Items(EvalOption(p, iter, Flatten(env))), 0, env);
    case Set(name, value) =>
      AssignShadowed(env, name, EvalOption(p, value, Flatten(env)));
  }

  lemma {:induction false} LoopShadowed(p: Primitives, children: seq<Node>, v: string, items: seq<Value>, i: nat,
                                        env: Env)
    ensures Shadowed(env, LoopMeaning(p, children, v, items, i, env).1)
    ensures forall n :: n in {v, LOOP} ==>
              EnvLookup(LoopMeaning(p, children, v, items, i, env).1, n) == EnvLookup(env, n)
    decreases children, 1, |items| - i
  {
    if i >= |items| { ShadowedSelf(env); }
    else {
      var inner := Scope(map[v := items[i]][LOOP := LoopInfo(i, |items|)], env);
      var e := Meaning(p, children, inner).1;
      MeaningShadowed(p, children, inner);
      LoopShadowed(p, children, v, items, i + 1, e.outer);
      ShadowedTrans(env, e.outer, LoopMeaning(p, children, v, items, i + 1, e.outer).1);
    }
  }

  /** The interpreter's context shows every name as the scopes do. */
  ghost predicate Shows(context: Context, env: Env) {
    forall n :: Lookup(context, n) == EnvLookup(env, n)
  }

  lemma ShowsFlat(context: Context, env: Env, names: set<string>)
    requires Shows(context, env)
    ensures AgreeOn(names, context, Flatten(env))
  {
    forall n | n in names ensures Lookup(context, n) == Lookup(Flatten(env), n) { FlattenLookup(env, n); }
  }

  /** Saving and restoring one shared context renders exactly what lexical scoping means. */
  lemma {:induction false} ScopingRefined(p: Primitives, nodes: seq<Node>, context: Context, env: Env)
    requires Shows(context, env)
    ensures RenderNodes(p, nodes, context).0 == Meaning(p, nodes, env).0
    ensures Shows(RenderNodes(p, nodes, context).1, Meaning(p, nodes, env).1)
    decreases nodes, 0, 0
  {
    if nodes != [] {
      NodeRefined(p, nodes[0], context, env);
      ScopingRefined(p, nodes[1..], RenderNode(p, nodes[0], context).1, NodeMeaning(p, nodes[0], env).1);
    }
  }

  lemma {:induction false} NodeRefined(p: Primitives, node: Node, context: Context, env: Env)
    requires Shows(context, env)
    ensures RenderNode(p, node, context).0 == NodeMeaning(p, node, env).0
    ensures Shows(RenderNode(p, node, context).1, NodeMeaning(p, node, env).1)
    decreases node, 0, 0
  {
    match node
    case Text(_) =>
    case Output(e) =>
      ShowsFlat(context, env, Names(e));
      EvalDependsOnNames(p, e, context, Flatten(env));
    case If(branches, elseBody) =>
      ShowsFlat(context, env, ReadIn(branches));
      SameBranch(p, branches, 0, ReadIn(branches), context, Flatten(env));
      var k := FirstTrue(p, branches, 0, context);
      if k < |branches| {
        ScopingRefined(p, branches[k].body, context, env);
      } else {
        ScopingRefined(p, elseBody, context, env);
      }
    case For(v, iter, children) =>
      ShowsFlat(context, env, NamesOption(iter));
      EvalOptionDependsOnNames(p, iter, context, Flatten(env));
      var items := Items(EvalOption(p, iter, context));
      LoopRefined(p, children, v, items, 0, context, env);
      LoopShadowed(p, children, v, items, 0, env);
    case Set(name, value) =>
      ShowsFlat(context, env, NamesOption(value));
      EvalOptionDependsOnNames(p, value, context, Flatten(env));
      var x := EvalOption(p, value, context);
      forall n ensures Lookup(context[name := x], n) == EnvLookup(EnvAssign(env, name, x), n) {
        AssignLookup(env, name, x, n);
      }
  }

  /** During a loop the two names it uses may differ from the scopes outside; nothing else does. */
  lemma {:induction false} LoopRefined(p: Primitives, children: seq<Node>, v: string, items: seq<Value>, i: nat,
                                       context: Context, env: Env)
    requires forall n :: n !in {v, LOOP} ==> Lookup(context, n) == EnvLookup(env, n)
    ensures RenderLoop(p, children, v, items, i, context).0 == LoopMeaning(p, children, v, items, i, env).0
    ensures forall n :: n !in {v, LOOP} ==>
              Lookup(RenderLoop(p, children, v, items, i, context).1, n)
              == EnvLookup(LoopMeaning(p, children, v, items, i, env).1, n)
    decreases children, 1, |items| - i
  {
    if i < |items| {
      var bound := map[v := items[i]][LOOP := LoopInfo(i, |items|)];
      var c1, e1 := context[v := items[i]][LOOP := LoopInfo(i, |items|)], Scope(bound, env);
      assert Shows(c1, e1);
      ScopingRefined(p, children, c1, e1);
      MeaningShadowed(p, children, e1);
      var c2, e2 := RenderNodes(p, children, c1).1, Meaning(p, children, e1).1;
      LoopRefined(p, children, v, items, i + 1, c2, e2.outer);
    }
  }
}
