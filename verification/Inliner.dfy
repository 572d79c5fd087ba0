// Inlining: calls of small known functions become lets. Where the callee has nothing
// that the let would lose, the inlined program computes what the original does, with
// closures that correspond up to inlining.
module Inliner {
  import opened Lisp
  import opened Closures
  import opened Options
  import opened Samples

  // What the inliner knows: the environment of the call that made it compile, which it
  // searches as if it were the global scope, and which functions are small enough. The
  // inliner does not use names, which are those of the functions that it may replace.
  datatype Oracle = Oracle(caller: Env, globals: map<string, Value>, small: Ast -> bool, names: set<string>) {
    function Find(x: string): Option<Value> {
      if x in caller.Names() then Some(caller.Get(x)) else if x in globals then Some(globals[x]) else None
    }
  }

  function AsLambda(f: Ast, o: Oracle): (r: Option<Ast>)
    ensures r.Some? ==> r.value.Lambda?
  {
    match f
    case Lambda(_, _, _, _) => Some(f)
    case Var(x) => (
      match o.Find(x)
      case Some(Clo(Lambda(self, params, capture, body), _)) => Some(Lambda(self, params, capture, body))
      case _ => None)
    case _ => None
  }

  // performInlining, on any expression.
  function Inline(e: Ast, o: Oracle): Ast
    decreases e, 1
  {
    match e
    case If(t, a, b) => If(Inline(t, o), Inline(a, o), Inline(b, o))
    case Do(es) => Do(InlineAll(es, o))
    case Let(bs, body) => Let(InlineBindings(bs, o), Inline(body, o))
    case LetStar(bs, body) =>
      var bs2, body2 := InlineBindings(bs, o), Inline(body, o);
      if bs2 == bs && body2 == body then e else Let(bs2, body2)
    case Lambda(self, params, capture, body) => Lambda(self, params, capture, Inline(body, o))
    case App(f, args) => (
      match AsLambda(f, o)
      case None => e
      case Some(l) => if o.small(l) then Let(BindArgs(l.params, args, o), l.body) else e)
    case _ => e
  }

  function InlineAll(es: Asts, o: Oracle): Asts
    decreases es, 0
  {
    match es
    case ANil => ANil
    case ACons(e, rest) => ACons(Inline(e, o), InlineAll(rest, o))
  }

  function InlineBindings(bs: Bindings, o: Oracle): Bindings
    decreases bs, 0
  {
    match bs
    case BNil => BNil
    case BCons(x, e, more) => BCons(x, Inline(e, o), InlineBindings(more, o))
  }

  // Parameters bound to arguments. More arguments than parameters are undefined in the
  // original; here they are dropped.
  function BindArgs(params: seq<string>, args: Asts, o: Oracle): Bindings
    decreases args, 0
  {
    match args
    case ANil => BNil
    case ACons(a, rest) => if params == [] then BNil else BCons(params[0], Inline(a, o), BindArgs(params[1..], rest, o))
  }

  // Every call that is inlined in e keeps its meaning: the arity is right, the callee
  // does not refer to itself except as a global, and a callee found through a variable
  // captures nothing and is the global of that name. No let* is touched. That no local
  // of e hides a callee is part of BindsOff.
  ghost predicate Sites(e: Ast, o: Oracle)
    decreases e, 1
  {
    match e
    case If(t, a, b) => Sites(t, o) && Sites(a, o) && Sites(b, o)
    case Do(es) => SitesAll(es, o)
    case Let(bs, body) => SitesLet(bs, o) && Sites(body, o)
    case LetStar(_, _) => Inline(e, o) == e
    case Lambda(self, params, capture, body) => Sites(body, o)
    case App(f, args) => (
      match AsLambda(f, o)
      case None => true
      case Some(l) => o.small(l) ==>
        && |l.params| == args.Length() && SitesAll(args, o)
        && Wf(l.body, ToSet(l.capture) + ToSet(l.params), o.globals.Keys)
        && (l.self != "" && l.self in o.globals ==> l.self in o.names)
        && (f.Var? ==> l.capture == [] && f.name in o.names && f.name in o.globals
                       && o.Find(f.name) == Some(o.globals[f.name])))
    case _ => true
  }

  ghost predicate SitesAll(es: Asts, o: Oracle)
    decreases es, 0
  {
    match es
    case ANil => true
    case ACons(e, rest) => Sites(e, o) && SitesAll(rest, o)
  }

  ghost predicate SitesLet(bs: Bindings, o: Oracle)
    decreases bs, 0
  {
    match bs
    case BNil => true
    case BCons(_, e, more) => Sites(e, o) && SitesLet(more, o)
  }

  // e2 is e, or e inlined.
  ghost predicate Code(e: Ast, e2: Ast, o: Oracle) {
    e2 == e || (e2 == Inline(e, o) && Sites(e, o))
  }

  ghost predicate CodeAll(es: Asts, es2: Asts, o: Oracle) {
    es2 == es || (es2 == InlineAll(es, o) && SitesAll(es, o))
  }

  ghost predicate CodeLet(bs: Bindings, bs2: Bindings, o: Oracle) {
    bs2 == bs || (bs2 == InlineBindings(bs, o) && SitesLet(bs, o))
  }

  // ---------------------------------------------------------------------
  // Values that correspond up to inlining.

  // A local with the name of a function that may be replaced is that function.
  predicate Fixed(env: Env, o: Oracle) {
    match env
    case Global => true
    case Bind(x, v, parent) => (x in o.names ==> x in o.globals && v == o.globals[x]) && Fixed(parent, o)
  }

  // The code that binds no such name, but for a function under its own name.
  predicate Keeps(l: Ast, env: Env, o: Oracle)
    requires l.Lambda?
  {
    && ToSet(l.params) !! o.names && BindsOff(l.body, o.names)
    && (l.self != "" && l.self in o.names ==> l.self in o.globals && o.globals[l.self] == Clo(l, env))
  }

  ghost predicate Like(v: Value, w: Value, o: Oracle)
    decreases v
  {
    match v
    case Cons(a, b) => w.Cons? && Like(a, w.head, o) && Like(b, w.tail, o)
    case Clo(l, env) =>
      && w.Clo? && l.Lambda? && Code(l, w.lam, o)
      && env.Names() == ToSet(l.capture) == w.env.Names()
      && Wf(l, ToSet(l.capture), o.globals.Keys) && Keeps(l, env, o) && Fixed(env, o)
      && LikeEnv(env, w.env, o)
    case _ => v == w
  }

  ghost predicate LikeEnv(env: Env, env2: Env, o: Oracle)
    decreases env
  {
    match env
    case Global => true
    case Bind(x, v, parent) => x in env2.Names() && Like(v, env2.Get(x), o) && LikeEnv(parent, env2, o)
  }

  ghost predicate LikeArgs(vs: seq<Value>, ws: seq<Value>, o: Oracle) {
    |vs| == |ws| && forall i :: 0 <= i < |vs| ==> Like(vs[i], ws[i], o)
  }

  ghost predicate LikeRes(r: Res, q: Res, o: Oracle) {
    if r.Ok? then q.Ok? && Like(r.value, q.value, o) else r == q
  }

  // Native functions do not tell corresponding values apart.
  ghost predicate PrimsLike(prim: (string, seq<Value>) -> Res, o: Oracle) {
    forall id, vs, ws :: LikeArgs(vs, ws, o) ==> LikeRes(prim(id, vs), prim(id, ws), o)
  }

  // The globals are those the inliner saw.
  ghost predicate WorldOk(w: World, o: Oracle) {
    && w.globals == o.globals
    && (forall x :: x in w.globals ==> Like(w.globals[x], w.globals[x], o))
    && PrimsLike(w.prim, o)
  }

  // What a name means.
  function At(env: Env, o: Oracle, x: string): Option<Value> {
    if x in env.Names() then Some(env.Get(x)) else if x in o.globals then Some(o.globals[x]) else None
  }

  ghost predicate LikeAt(x: string, env: Env, env2: Env, o: Oracle) {
    var v, w := At(env, o, x), At(env2, o, x);
    v.Some? && w.Some? && Like(v.value, w.value, o)
  }

  // The locals of scope and the globals mean corresponding things, hidden or not.
  ghost predicate ScopeOk(scope: set<string>, env: Env, env2: Env, o: Oracle) {
    && scope <= env.Names() && scope <= env2.Names() && Fixed(env, o)
    && forall x {:trigger LikeAt(x, env, env2, o)} :: x in scope || x in o.globals ==> LikeAt(x, env, env2, o)
  }

  lemma {:induction false} FixedGet(env: Env, o: Oracle, x: string)
    requires Fixed(env, o) && x in env.Names() && x in o.names
    ensures x in o.globals && env.Get(x) == o.globals[x]
  {
    if env.name != x { FixedGet(env.parent, o, x); }
  }

  lemma {:induction false} FixedAppend(top: Env, base: Env, o: Oracle)
    requires Fixed(top, o) && Fixed(base, o)
    ensures Fixed(Append(top, base), o)
  {
    if top.Bind? { FixedAppend(top.parent, base, o); }
  }

  lemma {:induction false} DataLike(v: Value, o: Oracle)
    requires Data(v)
    ensures Like(v, v, o)
  {
    match v
    case Cons(a, b) => DataLike(a, o); DataLike(b, o);
    case _ =>
  }

  lemma {:induction false} LikeEnvGet(env: Env, env2: Env, o: Oracle, x: string)
    requires LikeEnv(env, env2, o) && x in env.Names()
    ensures x in env2.Names() && Like(env.Get(x), env2.Get(x), o)
  {
    if env.name != x { LikeEnvGet(env.parent, env2, o, x); }
  }

  lemma BindLike(scope: set<string>, env: Env, env2: Env, o: Oracle, x: string, v: Value, w: Value)
    requires ScopeOk(scope, env, env2, o) && Like(v, w, o) && (x in o.names ==> x in o.globals && v == o.globals[x])
    ensures ScopeOk(scope + {x}, Bind(x, v, env), Bind(x, w, env2), o)
  {
    var inner, inner2 := Bind(x, v, env), Bind(x, w, env2);
    forall y | y in scope + {x} || y in o.globals ensures LikeAt(y, inner, inner2, o) {
      if y != x { assert LikeAt(y, env, env2, o); }
    }
  }

  lemma {:induction false} BindParamsLike(scope: set<string>, params: seq<string>, vs: seq<Value>, ws: seq<Value>,
        env: Env, env2: Env, o: Oracle)
    requires ScopeOk(scope, env, env2, o) && |params| == |vs| && LikeArgs(vs, ws, o) && ToSet(params) !! o.names
    ensures ScopeOk(scope + ToSet(params), BindParams(params, vs, env), BindParams(params, ws, env2), o)
    decreases |params|
  {
    if params == [] {
      assert scope + ToSet(params) == scope;
    } else {
      assert params[0] in ToSet(params) && ToSet(params) == {params[0]} + ToSet(params[1..]);
      BindLike(scope, env, env2, o, params[0], vs[0], ws[0]);
      BindParamsLike(scope + {params[0]}, params[1..], vs[1..], ws[1..], Bind(params[0], vs[0], env),
          Bind(params[0], ws[0], env2), o);
      assert scope + {params[0]} + ToSet(params[1..]) == scope + ToSet(params);
    }
  }

  // Corresponding closures are entered with corresponding arguments.
  lemma EnterLike(f: Value, g: Value, vs: seq<Value>, ws: seq<Value>, caller: Env, caller2: Env, o: Oracle)
    requires f.Clo? && Like(f, g, o) && |vs| == |f.lam.params| && LikeArgs(vs, ws, o)
    requires ScopeOk({}, caller, caller2, o)
    ensures g.Clo? && g.lam.Lambda? && g.lam.params == f.lam.params
    ensures var l := f.lam; var scope := ToSet(l.capture) + Own(l.self, l.params);
            && ScopeOk(scope, Enter(Flat, f, vs, caller), Enter(Flat, g, ws, caller2), o)
            && Code(l.body, g.lam.body, o) && Wf(l.body, scope, o.globals.Keys) && BindsOff(l.body, o.names)
  {
    var l, scope := f.lam, ToSet(f.lam.capture);
    var base, base2 := Append(f.env, caller), Append(g.env, caller2);
    AppendLike(f, g, caller, caller2, o);
    if l.self == "" {
      BindParamsLike(scope, l.params, vs, ws, base, base2, o);
      assert scope + ToSet(l.params) == scope + Own(l.self, l.params);
    } else {
      BindLike(scope, base, base2, o, l.self, f, g);
      BindParamsLike(scope + {l.self}, l.params, vs, ws, BindSelf(f, base), BindSelf(g, base2), o);
      assert scope + {l.self} + ToSet(l.params) == scope + Own(l.self, l.params);
    }
  }

  lemma AppendLike(f: Value, g: Value, caller: Env, caller2: Env, o: Oracle)
    requires f.Clo? && Like(f, g, o) && ScopeOk({}, caller, caller2, o)
    ensures ScopeOk(ToSet(f.lam.capture), Append(f.env, caller), Append(g.env, caller2), o)
  {
    var scope, base, base2 := ToSet(f.lam.capture), Append(f.env, caller), Append(g.env, caller2);
    FixedAppend(f.env, caller, o);
    forall x | x in scope || x in o.globals ensures LikeAt(x, base, base2, o) {
      if x in scope {
        LikeEnvGet(f.env, g.env, o, x);
        AppendGet(f.env, caller, x);
        AppendGet(g.env, caller2, x);
      } else {
        assert LikeAt(x, caller, caller2, o);
        AppendMiss(f.env, caller, o, x);
        AppendMiss(g.env, caller2, o, x);
      }
    }
  }

  lemma {:induction false} AppendMiss(top: Env, base: Env, o: Oracle, x: string)
    requires x !in top.Names()
    ensures At(Append(top, base), o, x) == At(base, o, x)
  {
    if top.Bind? { AppendMiss(top.parent, base, o, x); }
  }

  // Every binding of c is that of env.
  ghost predicate From(c: Env, env: Env) {
    match c
    case Global => true
    case Bind(x, v, parent) => x in env.Names() && v == env.Get(x) && From(parent, env)
  }

  lemma {:induction false} CaptureFrom(names: seq<string>, env: Env, w: World, base: Env)
    requires ToSet(names) <= env.Names() && From(base, env)
    ensures var c := Capture(names, env, w, base);
            c.Envr? && From(c.env, env) && c.env.Names() == base.Names() + ToSet(names)
    decreases |names|
  {
    if names != [] {
      assert names[0] in ToSet(names) && ToSet(names) == {names[0]} + ToSet(names[1..]);
      CaptureFrom(names[1..], env, w, Bind(names[0], env.Get(names[0]), base));
    }
  }

  lemma {:induction false} FromGet(c: Env, env: Env, x: string)
    requires From(c, env) && x in c.Names()
    ensures x in env.Names() && c.Get(x) == env.Get(x)
  {
    if c.name != x { FromGet(c.parent, env, x); }
  }

  lemma {:induction false} FromLike(c: Env, c2: Env, scope: set<string>, env: Env, env2: Env, o: Oracle)
    requires From(c, env) && From(c2, env2) && c.Names() <= scope && c.Names() <= c2.Names()
             && ScopeOk(scope, env, env2, o)
    ensures LikeEnv(c, c2, o) && Fixed(c, o)
  {
    if c.Bind? {
      assert LikeAt(c.name, env, env2, o);
      FromGet(c2, env2, c.name);
      if c.name in o.names { FixedGet(env, o, c.name); }
      FromLike(c.parent, c2, scope, env, env2, o);
    }
  }

  // A lambda makes corresponding closures.
  lemma LambdaLike(e: Ast, e2: Ast, scope: set<string>, env: Env, env2: Env, w: World, o: Oracle)
    requires WorldOk(w, o) && ScopeOk(scope, env, env2, o) && Code(e, e2, o) && e.Lambda?
    requires Wf(e, scope, o.globals.Keys) && BindsOff(e, o.names)
    ensures e2.Lambda? && e2.capture == e.capture
    ensures var c, c2 := Capture(e.capture, env, w, Global), Capture(e2.capture, env2, w, Global);
            c.Envr? && c2.Envr? && From(c.env, env) && c.env.Names() == ToSet(e.capture)
                && Like(Clo(e, c.env), Clo(e2, c2.env), o)
  {
    CaptureFrom(e.capture, env, w, Global);
    CaptureFrom(e.capture, env2, w, Global);
    var c, c2 := Capture(e.capture, env, w, Global).env, Capture(e.capture, env2, w, Global).env;
    assert c.Names() == ToSet(e.capture) == c2.Names();
    FromLike(c, c2, scope, env, env2, o);
  }

  // Where a call enters the body of an inlined callee, and where the let does: only
  // the name the callee gives itself can make a difference, and it makes none where it
  // is that of the callee's global.
  lemma EnterInlined(h: Value, vs: seq<Value>, ws: seq<Value>, scope: set<string>, env: Env, env2: Env, o: Oracle)
    requires h.Clo? && h.lam.Lambda? && |vs| == |h.lam.params| && LikeArgs(vs, ws, o)
    requires ScopeOk(scope, env, env2, o) && From(h.env, env) && h.env.Names() == ToSet(h.lam.capture) <= scope
    requires Keeps(h.lam, h.env, o) && Own(h.lam.self, h.lam.params) !! ToSet(h.lam.capture)
    requires h.lam.self != "" && h.lam.self in o.globals ==> h.lam.self in o.names
    ensures ScopeOk(ToSet(h.lam.capture) + ToSet(h.lam.params), Enter(Flat, h, vs, env),
            BindParams(h.lam.params, ws, env2), o)
  {
    var l, names := h.lam, ToSet(h.lam.capture);
    var base := BindSelf(h, Append(h.env, env));
    FromFixed(h.env, env, o);
    FixedAppend(h.env, env, o);
    assert Fixed(base, o);
    forall x | x in names || x in o.globals ensures LikeAt(x, base, env2, o) {
      assert LikeAt(x, env, env2, o);
      FromAppend(h.env, env, o, x);
      if x == l.self && x != "" && x in env.Names() { FixedGet(env, o, x); }
    }
    BindParamsLike(names, l.params, vs, ws, base, env2, o);
  }

  lemma {:induction false} FromFixed(c: Env, env: Env, o: Oracle)
    requires From(c, env) && Fixed(env, o)
    ensures Fixed(c, o)
  {
    if c.Bind? {
      if c.name in o.names { FixedGet(env, o, c.name); }
      FromFixed(c.parent, env, o);
    }
  }

  lemma {:induction false} FromAppend(c: Env, env: Env, o: Oracle, x: string)
    requires From(c, env)
    ensures At(Append(c, env), o, x) == At(env, o, x)
  {
    if c.Bind? { FromAppend(c.parent, env, o, x); }
  }

  // ---------------------------------------------------------------------
  // The theorem, in both directions at once. Forward: what e gives with fuel k, the
  // inlined e2 gives with any fuel from k. Backward: what e2 gives with fuel j, e gives
  // with any fuel from 2j + 1, since an inlined call saves one level in each function.

  ghost predicate Fuels(forward: bool, same: bool, k: nat, j: nat) {
    if forward then k <= j else k >= 2 * j + if same then 0 else 1
  }

  lemma {:induction false} InlineSim(forward: bool, k: nat, j: nat, e: Ast, e2: Ast, scope: set<string>, env: Env,
        env2: Env, w: World, o: Oracle)
    requires WorldOk(w, o) && ScopeOk(scope, env, env2, o) && Code(e, e2, o) && Fuels(forward, e2 == e, k, j)
    requires Wf(e, scope, o.globals.Keys) && BindsOff(e, o.names)
    requires if forward then Eval(Flat, k, e, env, w) != OutOfFuel else Eval(Flat, j, e2, env2, w) != OutOfFuel
    ensures LikeRes(Eval(Flat, k, e, env, w), Eval(Flat, j, e2, env2, w), o)
    decreases if forward then k else j, e2, 1
  {
    match e
    case Const(v) => DataLike(v, o);
    case Var(x) => assert LikeAt(x, env, env2, o);
    case Quote(v) => DataLike(v, o);
    case If(t, a, b) => IfSim(forward, k, j, e, e2, scope, env, env2, w, o);
    case Do(es) => DoSim(forward, k, j, es, e2.exprs, VNil, VNil, scope, env, env2, w, o);
    case Let(bs, body) =>
      LetSim(forward, k, j, bs, e2.bindings, scope, env, env2, scope, env, env2, w, o);
      var r, q := EvalLet(Flat, k, bs, env, env, w), EvalLet(Flat, j, e2.bindings, env2, env2, w);
      if r.Envr? { InlineSim(forward, k, j, body, e2.body, scope + bs.Names(), r.env, q.env, w, o); }
    case LetStar(bs, body) =>
      LetStarSim(forward, k, j, bs, scope, env, env2, w, o);
      var r, q := EvalLetStar(Flat, k, bs, env, w), EvalLetStar(Flat, j, bs, env2, w);
      if r.Envr? { InlineSim(forward, k, j, body, body, scope + bs.Names(), r.env, q.env, w, o); }
    case Lambda(self, params, capture, body) => LambdaLike(e, e2, scope, env, env2, w, o);
    case App(f, args) =>
      if e2 == e { CallSim(forward, k, j, e, scope, env, env2, w, o); }
      else { InlinedSim(forward, k, j, e, scope, env, env2, w, o); }
  }

  lemma {:induction false} IfSim(forward: bool, k: nat, j: nat, e: Ast, e2: Ast, scope: set<string>,
        env: Env, env2: Env, w: World, o: Oracle)
    requires WorldOk(w, o) && ScopeOk(scope, env, env2, o) && e.If? && Code(e, e2, o) && Fuels(forward, e2 == e, k, j)
    requires Wf(e, scope, o.globals.Keys) && BindsOff(e, o.names)
    requires if forward then Eval(Flat, k, e, env, w) != OutOfFuel else Eval(Flat, j, e2, env2, w) != OutOfFuel
    ensures LikeRes(Eval(Flat, k, e, env, w), Eval(Flat, j, e2, env2, w), o)
    decreases if forward then k else j, e2, 0
  {
    InlineSim(forward, k, j, e.test, e2.test, scope, env, env2, w, o);
    var r, q := Eval(Flat, k, e.test, env, w), Eval(Flat, j, e2.test, env2, w);
    if r.Ok? {
      assert r.value == VNil <==> q.value == VNil;
      if r.value != VNil {
        InlineSim(forward, k, j, e.thenBranch, e2.thenBranch, scope, env, env2, w, o);
      } else {
        InlineSim(forward, k, j, e.elseBranch, e2.elseBranch, scope, env, env2, w, o);
      }
    }
  }

  // A call that is left alone.
  lemma {:induction false} CallSim(forward: bool, k: nat, j: nat, e: Ast, scope: set<string>, env: Env, env2: Env,
        w: World, o: Oracle)
    requires WorldOk(w, o) && ScopeOk(scope, env, env2, o) && e.App? && Fuels(forward, true, k, j)
    requires Wf(e, scope, o.globals.Keys) && BindsOff(e, o.names)
    requires if forward then Eval(Flat, k, e, env, w) != OutOfFuel else Eval(Flat, j, e, env2, w) != OutOfFuel
    ensures LikeRes(Eval(Flat, k, e, env, w), Eval(Flat, j, e, env2, w), o)
    decreases if forward then k else j, e, 0
  {
    var f, args := e.fun, e.args;
    Called(k, e, env, w);
    Called(j, e, env2, w);
    InlineSim(forward, k, j, f, f, scope, env, env2, w, o);
    var h, h2 := Eval(Flat, k, f, env, w), Eval(Flat, j, f, env2, w);
    var vs, ws := EvalArgs(Flat, k, args, env, w), EvalArgs(Flat, j, args, env2, w);
    if h.Ok? {
      CheckLike(h.value, h2.value, args.Length(), o);
      if CheckCall(h.value, args.Length()).None? {
        ArgsSim(forward, k, j, args, args, scope, env, env2, w, o);
        if vs.Vals? && h.value.Clo? {
          ApplySim(forward, k - 1, j - 1, h.value, h2.value, vs.vals, ws.vals, env, env2, w, o);
        }
      }
    }
    CallLike(args.Length(), h, h2, vs, ws, Applied(k, h, vs, env, w), Applied(j, h2, ws, env2, w), w, o);
  }

  lemma CheckLike(f: Value, g: Value, n: nat, o: Oracle)
    requires Like(f, g, o)
    ensures CheckCall(f, n) == CheckCall(g, n)
  {
    if f.Clo? { assert Code(f.lam, g.lam, o); }
  }

  // What a call gives, where the function is h, the arguments are vs and the body of a
  // closure gives b.
  function CallRes(n: nat, h: Res, vs: Args, b: Res, w: World): Res {
    if !h.Ok? then h
    else if CheckCall(h.value, n).Some? then Err(CheckCall(h.value, n).value)
    else if vs.ArgsErr? then vs.r
    else if h.value.Prim? then w.prim(h.value.prim, vs.vals)
    else b
  }

  function Applied(k: nat, h: Res, vs: Args, env: Env, w: World): Res {
    if !h.Ok? || !vs.Vals? || !h.value.Clo? || CheckCall(h.value, |vs.vals|).Some? then Ok(VNil)
    else if k == 0 then OutOfFuel
    else Eval(Flat, k - 1, h.value.lam.body, Enter(Flat, h.value, vs.vals, env), w)
  }

  lemma Called(k: nat, e: Ast, env: Env, w: World)
    requires e.App?
    ensures var h, vs := Eval(Flat, k, e.fun, env, w), EvalArgs(Flat, k, e.args, env, w);
            Eval(Flat, k, e, env, w) == CallRes(e.args.Length(), h, vs, Applied(k, h, vs, env, w), w)
  {
  }

  lemma CallLike(n: nat, h: Res, h2: Res, vs: Args, ws: Args, b: Res, b2: Res, w: World, o: Oracle)
    requires LikeRes(h, h2, o) && PrimsLike(w.prim, o)
    requires h.Ok? ==> CheckCall(h.value, n) == CheckCall(h2.value, n)
    requires h.Ok? && CheckCall(h.value, n).None? ==>
               if vs.Vals? then ws.Vals? && LikeArgs(vs.vals, ws.vals, o) else ws == vs && !vs.r.Ok?
    requires h.Ok? && CheckCall(h.value, n).None? && h.value.Clo? && vs.Vals? ==> LikeRes(b, b2, o)
    ensures LikeRes(CallRes(n, h, vs, b, w), CallRes(n, h2, ws, b2, w), o)
  {
  }

  // Corresponding closures, applied to corresponding arguments.
  lemma {:induction false} ApplySim(forward: bool, k: nat, j: nat, f: Value, g: Value, vs: seq<Value>,
        ws: seq<Value>, env: Env, env2: Env, w: World, o: Oracle)
    requires WorldOk(w, o) && ScopeOk({}, env, env2, o) && Fuels(forward, false, k, j)
    requires f.Clo? && Like(f, g, o) && |f.lam.params| == |vs| && LikeArgs(vs, ws, o) && g.Clo? && g.lam.Lambda?
             && g.lam.params == f.lam.params
    requires if forward then Eval(Flat, k, f.lam.body, Enter(Flat, f, vs, env), w) != OutOfFuel
             else Eval(Flat, j, g.lam.body, Enter(Flat, g, ws, env2), w) != OutOfFuel
    ensures LikeRes(Eval(Flat, k, f.lam.body, Enter(Flat, f, vs, env), w),
            Eval(Flat, j, g.lam.body, Enter(Flat, g, ws, env2), w), o)
    decreases if forward then k else j
  {
    var l := f.lam;
    EnterLike(f, g, vs, ws, env, env2, o);
    InlineSim(forward, k, j, l.body, g.lam.body, ToSet(l.capture) + Own(l.self, l.params),
              Enter(Flat, f, vs, env), Enter(Flat, g, ws, env2), w, o);
  }

  // The callee of an inlined call is the closure that the call would find.
  lemma Callee(k: nat, f: Ast, scope: set<string>, env: Env, env2: Env, w: World, o: Oracle) returns (hv: Value)
    requires WorldOk(w, o) && ScopeOk(scope, env, env2, o) && AsLambda(f, o).Some?
    requires Wf(f, scope, o.globals.Keys) && BindsOff(f, o.names)
    requires f.Var? ==> AsLambda(f, o).value.capture == [] && f.name in o.names && f.name in o.globals
                        && o.Find(f.name) == Some(o.globals[f.name])
    ensures hv.Clo? && hv.lam == AsLambda(f, o).value && Eval(Flat, k, f, env, w) == Ok(hv)
    ensures From(hv.env, env) && hv.env.Names() == ToSet(hv.lam.capture) <= scope && Keeps(hv.lam, hv.env, o)
    ensures ToSet(hv.lam.capture) !! Own(hv.lam.self, hv.lam.params)
  {
    if f.Lambda? { CaptureFrom(f.capture, env, w, Global); }
    if f.Var? && f.name in env.Names() { FixedGet(env, o, f.name); }
    hv := Eval(Flat, k, f, env, w).value;
    if f.Var? { assert Like(hv, hv, o) && hv.env == Global; }
  }

  // A call that became a let.
  lemma {:induction false} InlinedSim(forward: bool, k: nat, j: nat, e: Ast, scope: set<string>, env: Env,
        env2: Env, w: World, o: Oracle)
    requires WorldOk(w, o) && ScopeOk(scope, env, env2, o) && e.App? && Inline(e, o) != e && Sites(e, o)
             && Fuels(forward, false, k, j)
    requires Wf(e, scope, o.globals.Keys) && BindsOff(e, o.names)
    requires if forward then Eval(Flat, k, e, env, w) != OutOfFuel
             else Eval(Flat, j, Inline(e, o), env2, w) != OutOfFuel
    ensures LikeRes(Eval(Flat, k, e, env, w), Eval(Flat, j, Inline(e, o), env2, w), o)
    decreases if forward then k else j, Inline(e, o), 0
  {
    var f, args, l := e.fun, e.args, AsLambda(e.fun, o).value;
    var hv := Callee(k, f, scope, env, env2, w, o);
    var ws := BindArgsSim(forward, k, j, l.params, args, scope, env, env2, env2, w, o);
    var vs := EvalArgs(Flat, k, args, env, w);
    if vs.Vals? {
      EnterInlined(hv, vs.vals, ws, scope, env, env2, o);
      InlineSim(forward, k - 1, j, l.body, l.body, ToSet(l.capture) + ToSet(l.params),
                Enter(Flat, hv, vs.vals, env), BindParams(l.params, ws, env2), w, o);
    }
  }

  // The bindings of an inlined call are its arguments, evaluated in the same order.
  lemma {:induction false} BindArgsSim(forward: bool, k: nat, j: nat, params: seq<string>, args: Asts,
        scope: set<string>, env: Env, env2: Env, inner: Env, w: World, o: Oracle) returns (ws: seq<Value>)
    requires WorldOk(w, o) && ScopeOk(scope, env, env2, o) && SitesAll(args, o) && Fuels(forward, false, k, j)
    requires WfAll(args, scope, o.globals.Keys) && BindsOffAll(args, o.names) && |params| == args.Length()
    requires if forward then EvalArgs(Flat, k, args, env, w) != ArgsErr(OutOfFuel)
             else EvalLet(Flat, j, BindArgs(params, args, o), env2, inner, w) != ScopeErr(OutOfFuel)
    ensures var r, q := EvalArgs(Flat, k, args, env, w), EvalLet(Flat, j, BindArgs(params, args, o), env2, inner, w);
            if r.Vals? then LikeArgs(r.vals, ws, o) && |ws| == |params| && q == Envr(BindParams(params, ws, inner))
            else q == ScopeErr(r.r) && !r.r.Ok?
    decreases if forward then k else j, BindArgs(params, args, o), 0
  {
    ws := [];
    if args.ACons? {
      var bs := BindArgs(params, args, o);
      assert bs == BCons(params[0], Inline(args.first, o), BindArgs(params[1..], args.rest, o));
      InlineSim(forward, k, j, args.first, bs.expr, scope, env, env2, w, o);
      var r, q := Eval(Flat, k, args.first, env, w), Eval(Flat, j, bs.expr, env2, w);
      if r.Ok? {
        var us := BindArgsSim(forward, k, j, params[1..], args.rest, scope, env, env2, Bind(params[0], q.value, inner),
            w, o);
        ws := [q.value] + us;
        assert ws[1..] == us;
      }
    }
  }

  lemma {:induction false} DoSim(forward: bool, k: nat, j: nat, es: Asts, es2: Asts, last: Value, last2: Value,
        scope: set<string>, env: Env, env2: Env, w: World, o: Oracle)
    requires WorldOk(w, o) && ScopeOk(scope, env, env2, o) && CodeAll(es, es2, o) && Fuels(forward, es2 == es, k, j)
    requires WfAll(es, scope, o.globals.Keys) && BindsOffAll(es, o.names) && Like(last, last2, o)
    requires if forward then EvalDo(Flat, k, es, last, env, w) != OutOfFuel
             else EvalDo(Flat, j, es2, last2, env2, w) != OutOfFuel
    ensures LikeRes(EvalDo(Flat, k, es, last, env, w), EvalDo(Flat, j, es2, last2, env2, w), o)
    decreases if forward then k else j, es2, 0
  {
    if es.ACons? {
      InlineSim(forward, k, j, es.first, es2.first, scope, env, env2, w, o);
      var r, q := Eval(Flat, k, es.first, env, w), Eval(Flat, j, es2.first, env2, w);
      if r.Ok? { DoSim(forward, k, j, es.rest, es2.rest, r.value, q.value, scope, env, env2, w, o); }
    }
  }

  lemma {:induction false} ArgsSim(forward: bool, k: nat, j: nat, es: Asts, es2: Asts, scope: set<string>, env: Env,
        env2: Env, w: World, o: Oracle)
    requires WorldOk(w, o) && ScopeOk(scope, env, env2, o) && CodeAll(es, es2, o) && Fuels(forward, es2 == es, k, j)
    requires WfAll(es, scope, o.globals.Keys) && BindsOffAll(es, o.names)
    requires if forward then EvalArgs(Flat, k, es, env, w) != ArgsErr(OutOfFuel)
             else EvalArgs(Flat, j, es2, env2, w) != ArgsErr(OutOfFuel)
    ensures var r, q := EvalArgs(Flat, k, es, env, w), EvalArgs(Flat, j, es2, env2, w);
            if r.Vals? then q.Vals? && LikeArgs(r.vals, q.vals, o) else q == r && !r.r.Ok?
    decreases if forward then k else j, es2, 0
  {
    if es.ACons? {
      InlineSim(forward, k, j, es.first, es2.first, scope, env, env2, w, o);
      if Eval(Flat, k, es.first, env, w).Ok? {
        ArgsSim(forward, k, j, es.rest, es2.rest, scope, env, env2, w, o);
      }
    }
  }

  lemma {:induction false} LetSim(forward: bool, k: nat, j: nat, bs: Bindings, bs2: Bindings, scope: set<string>,
        outer: Env, outer2: Env, inner: set<string>, env: Env, env2: Env, w: World, o: Oracle)
    requires WorldOk(w, o) && ScopeOk(scope, outer, outer2, o) && ScopeOk(inner, env, env2, o) && CodeLet(bs, bs2, o)
             && Fuels(forward, bs2 == bs, k, j)
    requires WfLet(bs, scope, o.globals.Keys) && BindsOffLet(bs, o.names)
    requires if forward then EvalLet(Flat, k, bs, outer, env, w) != ScopeErr(OutOfFuel)
             else EvalLet(Flat, j, bs2, outer2, env2, w) != ScopeErr(OutOfFuel)
    ensures var r, q := EvalLet(Flat, k, bs, outer, env, w), EvalLet(Flat, j, bs2, outer2, env2, w);
            if r.Envr? then q.Envr? && ScopeOk(inner + bs.Names(), r.env, q.env, o) else q == r && !r.r.Ok?
    decreases if forward then k else j, bs2, 0
  {
    if bs.BCons? {
      InlineSim(forward, k, j, bs.expr, bs2.expr, scope, outer, outer2, w, o);
      var r, q := Eval(Flat, k, bs.expr, outer, w), Eval(Flat, j, bs2.expr, outer2, w);
      if r.Ok? {
        BindLike(inner, env, env2, o, bs.name, r.value, q.value);
        LetSim(forward, k, j, bs.more, bs2.more, scope, outer, outer2, inner + {bs.name}, Bind(bs.name, r.value, env),
            Bind(bs.name, q.value, env2), w, o);
        assert inner + {bs.name} + bs.more.Names() == inner + bs.Names();
      }
    } else {
      assert inner + bs.Names() == inner;
    }
  }

  lemma {:induction false} LetStarSim(forward: bool, k: nat, j: nat, bs: Bindings, scope: set<string>, env: Env,
        env2: Env, w: World, o: Oracle)
    requires WorldOk(w, o) && ScopeOk(scope, env, env2, o) && Fuels(forward, true, k, j)
    requires WfLetStar(bs, scope, o.globals.Keys) && BindsOffLet(bs, o.names)
    requires if forward then EvalLetStar(Flat, k, bs, env, w) != ScopeErr(OutOfFuel)
             else EvalLetStar(Flat, j, bs, env2, w) != ScopeErr(OutOfFuel)
    ensures var r, q := EvalLetStar(Flat, k, bs, env, w), EvalLetStar(Flat, j, bs, env2, w);
            if r.Envr? then q.Envr? && ScopeOk(scope + bs.Names(), r.env, q.env, o) else q == r && !r.r.Ok?
    decreases if forward then k else j, bs, 0
  {
    if bs.BCons? {
      InlineSim(forward, k, j, bs.expr, bs.expr, scope, env, env2, w, o);
      var r, q := Eval(Flat, k, bs.expr, env, w), Eval(Flat, j, bs.expr, env2, w);
      if r.Ok? {
        BindLike(scope, env, env2, o, bs.name, r.value, q.value);
        LetStarSim(forward, k, j, bs.more, scope + {bs.name}, Bind(bs.name, r.value, env),
            Bind(bs.name, q.value, env2), w, o);
        assert scope + {bs.name} + bs.more.Names() == scope + bs.Names();
      }
    } else {
      assert scope + bs.Names() == scope;
    }
  }

  // The original and the inlined function give corresponding results on corresponding
  // arguments, and one terminates exactly when the other does, whoever calls them.
  lemma InlinedFunction(fn: Ast, env: Env, vs: seq<Value>, caller: Env, w: World, o: Oracle, k: nat, j: nat)
    requires WorldOk(w, o) && ScopeOk({}, caller, caller, o) && fn.Lambda? && Sites(fn, o)
    requires Like(Clo(fn, env), Clo(fn, env), o) && |vs| == |fn.params| && LikeArgs(vs, vs, o)
    ensures Inline(fn, o).Lambda? && Inline(fn, o).params == fn.params
    ensures var r := Eval(Flat, k, fn.body, Enter(Flat, Clo(fn, env), vs, caller), w);
            var q := Eval(Flat, j, Inline(fn, o).body, Enter(Flat, Clo(Inline(fn, o), env), vs, caller), w);
            && (r != OutOfFuel && j >= k ==> LikeRes(r, q, o))
            && (q != OutOfFuel && k >= 2 * j + 1 ==> LikeRes(r, q, o))
  {
    var f, g := Clo(fn, env), Clo(Inline(fn, o), env);
    assert Code(fn, Inline(fn, o), o) && Like(f, g, o);
    var r := Eval(Flat, k, fn.body, Enter(Flat, f, vs, caller), w);
    var q := Eval(Flat, j, g.lam.body, Enter(Flat, g, vs, caller), w);
    if r != OutOfFuel && j >= k { ApplySim(true, k, j, f, g, vs, vs, caller, caller, w, o); }
    if q != OutOfFuel && k >= 2 * j + 1 { ApplySim(false, k, j, f, g, vs, vs, caller, caller, w, o); }
  }

  // ---------------------------------------------------------------------

  // The functions of Samples, under their own names and with native functions beside
  // them, make a world that all this is about, and calls of id and fib may be replaced.
  function SampleGlobals(): map<string, Value> {
    map["id" := Clo(ID, Global), "const" := Clo(CONST, Global), "fib" := Clo(FIB, Global),
        "<" := Prim("<", 2), "+" := Prim("+", 2), "-" := Prim("-", 2)]
  }

  lemma SamplesCovered(prim: (string, seq<Value>) -> Res, small: Ast -> bool, arg: Ast)
    requires arg.Const?
    requires PrimsLike(prim, Oracle(Global, SampleGlobals(), small, SampleGlobals().Keys))
    ensures var g := SampleGlobals();
            var o := Oracle(Global, g, small, g.Keys);
            WorldOk(World(g, prim), o) && Sites(Call("id", [arg]), o) && Sites(Call("fib", [arg]), o)
  {
    var g := SampleGlobals();
    var o := Oracle(Global, g, small, g.Keys);
    SampleNames();
    SamplesOk(g.Keys);
    SampleClosures(o);
    forall x | x in g ensures Like(g[x], g[x], o) { SampleValue(x, o); }
    SampleSites("id", ID, arg, o);
    SampleSites("fib", FIB, arg, o);
  }

  lemma SampleNames()
    ensures SampleGlobals().Keys == {"id", "const", "fib", "<", "+", "-"}
  {
  }

  lemma SampleValue(x: string, o: Oracle)
    requires x in SampleGlobals() && forall l :: l in [ID, CONST, FIB] ==> Like(Clo(l, Global), Clo(l, Global), o)
    ensures Like(SampleGlobals()[x], SampleGlobals()[x], o)
  {
    var v := SampleGlobals()[x];
    if v.Clo? { assert v.env == Global && v.lam in [ID, CONST, FIB]; }
  }

  lemma SampleClosures(o: Oracle)
    requires o.globals == SampleGlobals() && o.names == SampleGlobals().Keys
    ensures forall l :: l in [ID, CONST, FIB] ==> Like(Clo(l, Global), Clo(l, Global), o)
  {
    SampleNames();
    SamplesOk(o.names);
    SampleLike(ID, o);
    SampleLike(CONST, o);
    SampleLike(FIB, o);
  }

  lemma SampleLike(l: Ast, o: Oracle)
    requires l.Lambda? && l.capture == [] && Wf(l, {}, o.globals.Keys) && ToSet(l.params) !! o.names
             && BindsOff(l.body, o.names) && l.self in o.globals && o.globals[l.self] == Clo(l, Global)
    ensures Like(Clo(l, Global), Clo(l, Global), o)
  {
    assert ToSet(l.capture) == {} && Code(l, l, o) && Keeps(l, Global, o);
  }

  lemma SampleSites(f: string, l: Ast, arg: Ast, o: Oracle)
    requires arg.Const? && l.Lambda? && l.self == f && l.capture == [] && |l.params| == 1
    requires Wf(l.body, ToSet(l.params), o.globals.Keys)
    requires o.caller == Global && f in o.names && f in o.globals && o.globals[f] == Clo(l, Global)
    ensures Sites(Call(f, [arg]), o)
  {
    assert List([arg]) == ACons(arg, ANil) by { assert [arg][1..] == []; }
    assert SitesAll(ANil, o) && SitesAll(List([arg]), o);
    assert ToSet(l.capture) + ToSet(l.params) == ToSet(l.params);
    assert AsLambda(Var(f), o) == Some(l);
  }

  // ---------------------------------------------------------------------
  // Each condition is needed: a program that the inliner changes the meaning of when
  // only that condition fails.

  function One(f: Value): Oracle { Oracle(Global, map["f" := f], _ => true, {"f"}) }

  const CALL := App(Var("f"), ANil)

  lemma CallMeans(f: Value, l: Ast, env: Env, w: World)
    requires f.Clo? && f.lam == l && l.Lambda? && l.params == [] && Lookup(env, w, "f") == Ok(f)
    ensures Eval(Flat, 1, CALL, env, w) == Eval(Flat, 0, l.body, BindSelf(f, Append(f.env, env)), w)
  {
    assert Eval(Flat, 1, Var("f"), env, w) == Ok(f);
    assert CheckCall(f, 0) == None && EvalArgs(Flat, 1, ANil, env, w) == Vals([]);
  }

  // A let* rebuilt as a let: the second binding no longer sees the first.
  lemma LetStarBreaks(prim: (string, seq<Value>) -> Res)
    ensures var f := Clo(Lambda("", [], [], Const(VNil)), Global);
            var e := LetStar(BCons("a", Const(Num(1)), BCons("b", Var("a"), BNil)), CALL);
            && Eval(Flat, 1, e, Global, World(One(f).globals, prim)) == Ok(VNil)
            && Eval(Flat, 1, Inline(e, One(f)), Global, World(One(f).globals, prim)) == Err(UnknownVariable)
  {
    var f := Clo(Lambda("", [], [], Const(VNil)), Global);
    var o, w := One(f), World(One(f).globals, prim);
    var bs := BCons("a", Const(Num(1)), BCons("b", Var("a"), BNil));
    var env := Bind("b", Num(1), Bind("a", Num(1), Global));
    assert Inline(CALL, o) == Let(BNil, Const(VNil));
    assert Inline(LetStar(bs, CALL), o) == Let(InlineBindings(bs, o), Let(BNil, Const(VNil)));
    assert EvalLetStar(Flat, 1, bs.more, Bind("a", Num(1), Global), w) == Envr(env);
    assert EvalLetStar(Flat, 1, bs, Global, w) == Envr(env);
    CallMeans(f, f.lam, env, w);
    assert InlineBindings(bs, o) == bs;
    assert EvalLet(Flat, 1, bs.more, Global, Bind("a", Num(1), Global), w) == ScopeErr(Err(UnknownVariable));
  }

  // A callee that captures, and one that returns itself.
  lemma CaptureAndSelfBreak(prim: (string, seq<Value>) -> Res)
    ensures var f := Clo(Lambda("", [], ["c"], Var("c")), Bind("c", Num(5), Global));
            && Eval(Flat, 1, CALL, Global, World(One(f).globals, prim)) == Ok(Num(5))
            && Eval(Flat, 1, Inline(CALL, One(f)), Global, World(One(f).globals, prim)) == Err(UnknownVariable)
    ensures var f := Clo(Lambda("s", [], [], Var("s")), Global);
            && Eval(Flat, 1, CALL, Global, World(One(f).globals, prim)) == Ok(f)
            && Eval(Flat, 1, Inline(CALL, One(f)), Global, World(One(f).globals, prim)) == Err(UnknownVariable)
  {
    var f := Clo(Lambda("", [], ["c"], Var("c")), Bind("c", Num(5), Global));
    CallMeans(f, f.lam, Global, World(One(f).globals, prim));
    assert Inline(CALL, One(f)) == Let(BNil, Var("c"));
    assert EvalLet(Flat, 1, BNil, Global, Global, World(One(f).globals, prim)) == Envr(Global);
    var g := Clo(Lambda("s", [], [], Var("s")), Global);
    CallMeans(g, g.lam, Global, World(One(g).globals, prim));
    assert Inline(CALL, One(g)) == Let(BNil, Var("s"));
    assert EvalLet(Flat, 1, BNil, Global, Global, World(One(g).globals, prim)) == Envr(Global);
  }

  // A callee that gives itself the name of another global, A with value 1: the global
  // that it calls finds the callee in the original, and not where the let is.
  lemma CalleeNameBreaks(prim: (string, seq<Value>) -> Res)
    ensures var f := Clo(Lambda("A", [], [], App(Var("a"), ANil)), Global);
            var g := map["f" := f, "a" := Clo(Lambda("", [], [], Var("A")), Global), "A" := Num(1)];
            var o, w := Oracle(Global, g, _ => true, {"f"}), World(g, prim);
            && Eval(Flat, 2, CALL, Global, w) == Ok(f)
            && Eval(Flat, 2, Inline(CALL, o), Global, w) == Ok(Num(1))
  {
    var call := App(Var("a"), ANil);
    var f, a := Clo(Lambda("A", [], [], call), Global), Clo(Lambda("", [], [], Var("A")), Global);
    var g := map["f" := f, "a" := a, "A" := Num(1)];
    var o, w, env := Oracle(Global, g, _ => true, {"f"}), World(g, prim), Bind("A", f, Global);
    assert CheckCall(f, 0) == None && CheckCall(a, 0) == None;
    assert Eval(Flat, 2, Var("f"), Global, w) == Ok(f) && Enter(Flat, f, [], Global) == env;
    assert Eval(Flat, 1, Var("a"), env, w) == Ok(a) && Enter(Flat, a, [], env) == env;
    assert Eval(Flat, 0, Var("A"), env, w) == Ok(f);
    assert Eval(Flat, 1, call, env, w) == Ok(f);
    assert Inline(CALL, o) == Let(BNil, call) && EvalLet(Flat, 2, BNil, Global, Global, w) == Envr(Global);
    assert Eval(Flat, 2, Var("a"), Global, w) == Ok(a) && Enter(Flat, a, [], Global) == Global;
    assert Eval(Flat, 1, Var("A"), Global, w) == Ok(Num(1));
    assert Eval(Flat, 2, call, Global, w) == Ok(Num(1));
  }

  // A call with too few arguments, and a callee that a local hides.
  lemma ArityAndShadowingBreak(prim: (string, seq<Value>) -> Res)
    ensures var f := Clo(Lambda("", ["x"], [], Const(Num(1))), Global);
            && Eval(Flat, 1, CALL, Global, World(One(f).globals, prim)) == Err(WrongArity)
            && Eval(Flat, 1, Inline(CALL, One(f)), Global, World(One(f).globals, prim)) == Ok(Num(1))
    ensures var f := Clo(Lambda("", [], [], Const(Num(1))), Global);
            var e := Let(BCons("f", Lambda("", [], [], Const(Num(2))), BNil), CALL);
            && Eval(Flat, 1, e, Global, World(One(f).globals, prim)) == Ok(Num(2))
            && Eval(Flat, 1, Inline(e, One(f)), Global, World(One(f).globals, prim)) == Ok(Num(1))
  {
    var f := Clo(Lambda("", ["x"], [], Const(Num(1))), Global);
    var w := World(One(f).globals, prim);
    assert Eval(Flat, 1, Var("f"), Global, w) == Ok(f) && CheckCall(f, 0) == Some(WrongArity);
    assert Inline(CALL, One(f)) == Let(BNil, Const(Num(1)));
    assert EvalLet(Flat, 1, BNil, Global, Global, w) == Envr(Global);

    var g := Clo(Lambda("", [], [], Const(Num(1))), Global);
    var u, o := World(One(g).globals, prim), One(g);
    var local := Clo(Lambda("", [], [], Const(Num(2))), Global);
    var bs := BCons("f", local.lam, BNil);
    var env := Bind("f", local, Global);
    assert Eval(Flat, 1, local.lam, Global, u) == Ok(local);
    assert EvalLet(Flat, 1, bs, Global, Global, u) == Envr(env);
    CallMeans(local, local.lam, env, u);
    assert Inline(Let(bs, CALL), o) == Let(bs, Let(BNil, Const(Num(1))));
    assert EvalLet(Flat, 1, BNil, env, env, u) == Envr(env);
  }

  // A parameter that has the name of a local of the caller that made the inliner run:
  // the caller's function takes the place of the argument.
  lemma CallerLocalBreaks(prim: (string, seq<Value>) -> Res)
    ensures var one, two := Clo(Lambda("", [], [], Const(Num(1))), Global),
            Clo(Lambda("", [], [], Const(Num(2))), Global);
            var caller, g := Bind("f", one, Global), Lambda("", ["f"], [], CALL);
            var o, w := Oracle(caller, map[], _ => true, {}), World(map[], prim);
            && Wf(g, {}, {}) && BindsOff(g, {})
            && Eval(Flat, 1, g.body, Enter(Flat, Clo(g, Global), [two], caller), w) == Ok(Num(2))
            && Eval(Flat, 1, Inline(g, o).body, Enter(Flat, Clo(Inline(g, o), Global), [two], caller), w) == Ok(Num(1))
  {
    var one, two := Clo(Lambda("", [], [], Const(Num(1))), Global), Clo(Lambda("", [], [], Const(Num(2))), Global);
    var caller, g := Bind("f", one, Global), Lambda("", ["f"], [], CALL);
    var o, w := Oracle(caller, map[], _ => true, {}), World(map[], prim);
    var env := Bind("f", two, caller);
    assert BindParams(["f"], [two], caller) == env by {
      assert ["f"][1..] == [] && [two][1..] == [] && BindParams([], [], env) == env;
    }
    CallMeans(two, two.lam, env, w);
    assert AsLambda(Var("f"), o) == Some(one.lam) && BindArgs([], ANil, o) == BNil;
    assert Inline(CALL, o) == Let(BNil, Const(Num(1)));
    assert Inline(g, o) == Lambda("", ["f"], [], Let(BNil, Const(Num(1))));
    assert EvalLet(Flat, 1, BNil, env, env, w) == Envr(env);
    assert ToSet([]) == {} && ToSet(["f"]) == {"f"};
    assert Own("", ["f"]) == {"f"};
    assert "f" in ToSet([]) + Own("", ["f"]);
  }

  // ---------------------------------------------------------------------
  // Which calls are inlined: all of small known functions that the inliner comes to. It
  // looks into the arguments of calls that it inlines, but not of others, and not into
  // the bodies that it puts in.

  function SmallCallee(f: Ast, o: Oracle): (r: Option<Ast>)
    ensures r.Some? ==> r.value.Lambda?
  {
    var l := AsLambda(f, o);
    if l.Some? && o.small(l.value) then l else None
  }

  // Such calls in e.
  function Pending(e: Ast, o: Oracle): nat
    decreases e, 1
  {
    match e
    case If(t, a, b) => Pending(t, o) + Pending(a, o) + Pending(b, o)
    case Do(es) => PendingAll(es, es.Length(), o)
    case Let(bs, body) => PendingLet(bs, o) + Pending(body, o)
    case LetStar(bs, body) => PendingLet(bs, o) + Pending(body, o)
    case Lambda(_, _, _, body) => Pending(body, o)
    case App(f, args) => (
      match SmallCallee(f, o)
      case None => 0
      case Some(l) => 1 + PendingAll(args, |l.params|, o))
    case _ => 0
  }

  // In the first n of es.
  function PendingAll(es: Asts, n: nat, o: Oracle): nat
    decreases es, 0
  {
    match es
    case ANil => 0
    case ACons(e, rest) => if n == 0 then 0 else Pending(e, o) + PendingAll(rest, n - 1, o)
  }

  function PendingLet(bs: Bindings, o: Oracle): nat
    decreases bs, 0
  {
    match bs
    case BNil => 0
    case BCons(_, e, more) => Pending(e, o) + PendingLet(more, o)
  }

  // Such calls in the bodies of the functions that calls in e are inlined for.
  function FromCallees(e: Ast, o: Oracle): nat
    decreases e, 1
  {
    match e
    case If(t, a, b) => FromCallees(t, o) + FromCallees(a, o) + FromCallees(b, o)
    case Do(es) => FromCalleesAll(es, es.Length(), o)
    case Let(bs, body) => FromCalleesLet(bs, o) + FromCallees(body, o)
    case LetStar(bs, body) => FromCalleesLet(bs, o) + FromCallees(body, o)
    case Lambda(_, _, _, body) => FromCallees(body, o)
    case App(f, args) => (
      match SmallCallee(f, o)
      case None => 0
      case Some(l) => FromCalleesAll(args, |l.params|, o) + Pending(l.body, o))
    case _ => 0
  }

  function FromCalleesAll(es: Asts, n: nat, o: Oracle): nat
    decreases es, 0
  {
    match es
    case ANil => 0
    case ACons(e, rest) => if n == 0 then 0 else FromCallees(e, o) + FromCalleesAll(rest, n - 1, o)
  }

  function FromCalleesLet(bs: Bindings, o: Oracle): nat
    decreases bs, 0
  {
    match bs
    case BNil => 0
    case BCons(_, e, more) => FromCallees(e, o) + FromCalleesLet(more, o)
  }

  // Of the calls in e none is left: those in the result come from inlined bodies.
  lemma {:induction false} NoneLeft(e: Ast, o: Oracle)
    ensures Pending(Inline(e, o), o) == FromCallees(e, o)
    decreases e, 1
  {
    match e
    case If(t, a, b) =>
      NoneLeft(t, o);
      NoneLeft(a, o);
      NoneLeft(b, o);
    case Do(es) => NoneLeftAll(es, o);
    case Let(bs, body) =>
      NoneLeftLet(bs, o);
      NoneLeft(body, o);
    case LetStar(bs, body) =>
      NoneLeftLet(bs, o);
      NoneLeft(body, o);
    case Lambda(_, _, _, body) => NoneLeft(body, o);
    case App(f, args) => if SmallCallee(f, o).Some? { NoneLeftArgs(SmallCallee(f, o).value.params, args, o); }
    case _ =>
  }

  lemma {:induction false} NoneLeftAll(es: Asts, o: Oracle)
    ensures InlineAll(es, o).Length() == es.Length()
    ensures PendingAll(InlineAll(es, o), es.Length(), o) == FromCalleesAll(es, es.Length(), o)
    decreases es, 0
  {
    if es.ACons? {
      NoneLeft(es.first, o);
      NoneLeftAll(es.rest, o);
    }
  }

  lemma {:induction false} NoneLeftLet(bs: Bindings, o: Oracle)
    ensures PendingLet(InlineBindings(bs, o), o) == FromCalleesLet(bs, o)
    decreases bs, 0
  {
    if bs.BCons? {
      NoneLeft(bs.expr, o);
      NoneLeftLet(bs.more, o);
    }
  }

  lemma {:induction false} NoneLeftArgs(params: seq<string>, args: Asts, o: Oracle)
    ensures PendingLet(BindArgs(params, args, o), o) == FromCalleesAll(args, |params|, o)
    decreases args, 0
  {
    if args.ACons? && params != [] {
      NoneLeft(args.first, o);
      NoneLeftArgs(params[1..], args.rest, o);
    }
  }

  // And where there is none, nothing is changed.
  lemma {:induction false} NothingToInline(e: Ast, o: Oracle)
    requires Pending(e, o) == 0
    ensures Inline(e, o) == e
    decreases e, 1
  {
    match e
    case If(t, a, b) =>
      NothingToInline(t, o);
      NothingToInline(a, o);
      NothingToInline(b, o);
    case Do(es) => NothingInAll(es, o);
    case Let(bs, body) =>
      NothingInLet(bs, o);
      NothingToInline(body, o);
    case LetStar(bs, body) =>
      NothingInLet(bs, o);
      NothingToInline(body, o);
    case Lambda(_, _, _, body) => NothingToInline(body, o);
    case _ =>
  }

  lemma {:induction false} NothingInAll(es: Asts, o: Oracle)
    requires PendingAll(es, es.Length(), o) == 0
    ensures InlineAll(es, o) == es
    decreases es, 0
  {
    if es.ACons? {
      NothingToInline(es.first, o);
      NothingInAll(es.rest, o);
    }
  }

  lemma {:induction false} NothingInLet(bs: Bindings, o: Oracle)
    requires PendingLet(bs, o) == 0
    ensures InlineBindings(bs, o) == bs
    decreases bs, 0
  {
    if bs.BCons? {
      NothingToInline(bs.expr, o);
      NothingInLet(bs.more, o);
    }
  }
}
