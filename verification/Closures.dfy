// Closure conversion preserves meaning: running analysed code with flat closures, in
// the environment of the caller, gives what the reference with full closures gives,
// provided that no local takes the name of a global that is used, except that of a
// function which gives itself the name of its global.
module Closures {
  import opened Lisp
  import opened Options

  function ToSet(s: seq<string>): set<string> { set x | x in s }

  ghost predicate Distinct(s: seq<string>) {
    forall i, j :: 0 <= i < j < |s| ==> s[i] != s[j]
  }

  // Names bound in the body of a lambda besides the captured ones.
  function Own(self: string, params: seq<string>): set<string> {
    ToSet(params) + if self == "" then {} else {self}
  }

  // What the analyzer guarantees of a program in which the names of scope are visible
  // as locals and those of globals as globals.
  ghost predicate Wf(e: Ast, scope: set<string>, globals: set<string>) {
    match e
    case Const(v) => Data(v)
    case Var(x) => x in scope || x in globals
    case Quote(v) => Data(v)
    case If(t, a, b) => Wf(t, scope, globals) && Wf(a, scope, globals) && Wf(b, scope, globals)
    case Do(es) => WfAll(es, scope, globals)
    case Let(bs, body) => WfLet(bs, scope, globals) && Wf(body, scope + bs.Names(), globals)
    case LetStar(bs, body) => WfLetStar(bs, scope, globals) && Wf(body, scope + bs.Names(), globals)
    case Lambda(self, params, capture, body) =>
      && ToSet(capture) <= scope && Distinct(capture) && Distinct(params)
      && ToSet(capture) !! Own(self, params)
      && Wf(body, ToSet(capture) + Own(self, params), globals)
    case App(f, args) => Wf(f, scope, globals) && WfAll(args, scope, globals)
  }

  ghost predicate WfAll(es: Asts, scope: set<string>, globals: set<string>) {
    match es
    case ANil => true
    case ACons(e, rest) => Wf(e, scope, globals) && WfAll(rest, scope, globals)
  }

  ghost predicate WfLet(bs: Bindings, scope: set<string>, globals: set<string>) {
    match bs
    case BNil => true
    case BCons(_, e, more) => Wf(e, scope, globals) && WfLet(more, scope, globals)
  }

  ghost predicate WfLetStar(bs: Bindings, scope: set<string>, globals: set<string>) {
    match bs
    case BNil => true
    case BCons(x, e, more) => Wf(e, scope, globals) && WfLetStar(more, scope + {x}, globals)
  }

  // Quoted data hold no functions.
  predicate Data(v: Value) {
    match v
    case Cons(a, b) => Data(a) && Data(b)
    case Clo(_, _) => false
    case Prim(_, _) => false
    case _ => true
  }

  // No binder of e, however deep, is in names.
  predicate BindsOff(e: Ast, names: set<string>) {
    match e
    case Const(_) => true
    case Var(_) => true
    case Quote(_) => true
    case If(t, a, b) => BindsOff(t, names) && BindsOff(a, names) && BindsOff(b, names)
    case Do(es) => BindsOffAll(es, names)
    case Let(bs, body) => BindsOffLet(bs, names) && BindsOff(body, names)
    case LetStar(bs, body) => BindsOffLet(bs, names) && BindsOff(body, names)
    case Lambda(self, params, _, body) => Own(self, params) !! names && BindsOff(body, names)
    case App(f, args) => BindsOff(f, names) && BindsOffAll(args, names)
  }

  predicate BindsOffAll(es: Asts, names: set<string>) {
    match es
    case ANil => true
    case ACons(e, rest) => BindsOff(e, names) && BindsOffAll(rest, names)
  }

  predicate BindsOffLet(bs: Bindings, names: set<string>) {
    match bs
    case BNil => true
    case BCons(x, e, more) => x !in names && BindsOff(e, names) && BindsOffLet(more, names)
  }

  // The names that e uses and does not bind.
  function Free(e: Ast): set<string> {
    match e
    case Const(_) => {}
    case Var(x) => {x}
    case Quote(_) => {}
    case If(t, a, b) => Free(t) + Free(a) + Free(b)
    case Do(es) => FreeAll(es)
    case Let(bs, body) => FreeLet(bs) + (Free(body) - bs.Names())
    case LetStar(bs, body) => FreeLetStar(bs, Free(body))
    case Lambda(self, params, _, body) => Free(body) - Own(self, params)
    case App(f, args) => Free(f) + FreeAll(args)
  }

  function FreeAll(es: Asts): set<string> {
    match es
    case ANil => {}
    case ACons(e, rest) => Free(e) + FreeAll(rest)
  }

  function FreeLet(bs: Bindings): set<string> {
    match bs
    case BNil => {}
    case BCons(_, e, more) => Free(e) + FreeLet(more)
  }

  // inner are the free names of what the bindings are for.
  function FreeLetStar(bs: Bindings, inner: set<string>): set<string> {
    match bs
    case BNil => inner
    case BCons(x, e, more) => Free(e) + (FreeLetStar(more, inner) - {x})
  }

  // Every lambda in e captures exactly the free names of its body that are local where
  // it stands, known being those that are local where e stands.
  ghost predicate Exact(e: Ast, known: set<string>) {
    match e
    case If(t, a, b) => Exact(t, known) && Exact(a, known) && Exact(b, known)
    case Do(es) => ExactAll(es, known)
    case Let(bs, body) => ExactLet(bs, known) && Exact(body, known + bs.Names())
    case LetStar(bs, body) => ExactLetStar(bs, known) && Exact(body, known + bs.Names())
    case Lambda(self, params, capture, body) =>
      && ToSet(capture) == (Free(body) - Own(self, params)) * known
      && Exact(body, known + Own(self, params))
    case App(f, args) => Exact(f, known) && ExactAll(args, known)
    case _ => true
  }

  ghost predicate ExactAll(es: Asts, known: set<string>) {
    match es
    case ANil => true
    case ACons(e, rest) => Exact(e, known) && ExactAll(rest, known)
  }

  ghost predicate ExactLet(bs: Bindings, known: set<string>) {
    match bs
    case BNil => true
    case BCons(_, e, more) => Exact(e, known) && ExactLet(more, known)
  }

  ghost predicate ExactLetStar(bs: Bindings, known: set<string>) {
    match bs
    case BNil => true
    case BCons(x, e, more) => Exact(e, known) && ExactLetStar(more, known + {x})
  }

  // ---------------------------------------------------------------------
  // Scope safety.

  // A value all of whose closures carry what their code needs.
  ghost predicate SafeValue(v: Value, globals: set<string>) {
    match v
    case Cons(a, b) => SafeValue(a, globals) && SafeValue(b, globals)
    case Clo(l, env) => l.Lambda? && Wf(l, env.Names(), globals) && SafeEnv(env, globals)
    case _ => true
  }

  ghost predicate SafeEnv(env: Env, globals: set<string>) {
    match env
    case Global => true
    case Bind(_, v, parent) => SafeValue(v, globals) && SafeEnv(parent, globals)
  }

  ghost predicate SafeArgs(vs: seq<Value>, globals: set<string>) {
    forall v :: v in vs ==> SafeValue(v, globals)
  }

  // Native functions make no unsafe values and look no variables up.
  ghost predicate SafeWorld(w: World) {
    && (forall x :: x in w.globals ==> SafeValue(w.globals[x], w.globals.Keys))
    && (forall id, vs :: SafeArgs(vs, w.globals.Keys) ==> SafeRes(w.prim(id, vs), w.globals.Keys))
  }

  ghost predicate SafeRes(r: Res, globals: set<string>) {
    r != Err(UnknownVariable) && (r.Ok? ==> SafeValue(r.value, globals))
  }

  lemma {:induction false} SafeGet(env: Env, globals: set<string>, x: string)
    requires SafeEnv(env, globals) && x in env.Names()
    ensures SafeValue(env.Get(x), globals)
  {
    if env.name != x { SafeGet(env.parent, globals, x); }
  }

  lemma {:induction false} DataIsSafe(v: Value, globals: set<string>)
    requires Data(v)
    ensures SafeValue(v, globals)
  {
    match v
    case Cons(a, b) => DataIsSafe(a, globals); DataIsSafe(b, globals);
    case _ =>
  }

  // A program that is well-formed in a scope is so in a larger one.
  lemma {:induction false} WfMore(e: Ast, s: set<string>, t: set<string>, globals: set<string>)
    requires Wf(e, s, globals) && s <= t
    ensures Wf(e, t, globals)
    decreases e, 1
  {
    match e
    case If(a, b, c) => WfMore(a, s, t, globals); WfMore(b, s, t, globals); WfMore(c, s, t, globals);
    case Do(es) => WfAllMore(es, s, t, globals);
    case Let(bs, body) =>
      WfLetMore(bs, s, t, globals);
      WfMore(body, s + bs.Names(), t + bs.Names(), globals);
    case LetStar(bs, body) =>
      WfLetStarMore(bs, s, t, globals);
      WfMore(body, s + bs.Names(), t + bs.Names(), globals);
    case App(f, args) => WfMore(f, s, t, globals); WfAllMore(args, s, t, globals);
    case _ =>
  }

  lemma {:induction false} WfAllMore(es: Asts, s: set<string>, t: set<string>, globals: set<string>)
    requires WfAll(es, s, globals) && s <= t
    ensures WfAll(es, t, globals)
    decreases es, 0
  {
    if es.ACons? { WfMore(es.first, s, t, globals); WfAllMore(es.rest, s, t, globals); }
  }

  lemma {:induction false} WfLetMore(bs: Bindings, s: set<string>, t: set<string>, globals: set<string>)
    requires WfLet(bs, s, globals) && s <= t
    ensures WfLet(bs, t, globals)
    decreases bs, 0
  {
    if bs.BCons? { WfMore(bs.expr, s, t, globals); WfLetMore(bs.more, s, t, globals); }
  }

  lemma {:induction false} WfLetStarMore(bs: Bindings, s: set<string>, t: set<string>, globals: set<string>)
    requires WfLetStar(bs, s, globals) && s <= t
    ensures WfLetStar(bs, t, globals)
    decreases bs, 0
  {
    if bs.BCons? {
      WfMore(bs.expr, s, t, globals);
      WfLetStarMore(bs.more, s + {bs.name}, t + {bs.name}, globals);
    }
  }

  // And with more globals.
  lemma {:induction false} WfMoreGlobals(e: Ast, s: set<string>, g: set<string>, h: set<string>)
    requires Wf(e, s, g) && g <= h
    ensures Wf(e, s, h)
    decreases e, 1
  {
    match e
    case If(a, b, c) => WfMoreGlobals(a, s, g, h); WfMoreGlobals(b, s, g, h); WfMoreGlobals(c, s, g, h);
    case Do(es) => WfAllMoreGlobals(es, s, g, h);
    case Let(bs, body) =>
      WfLetMoreGlobals(bs, s, g, h);
      WfMoreGlobals(body, s + bs.Names(), g, h);
    case LetStar(bs, body) =>
      WfLetStarMoreGlobals(bs, s, g, h);
      WfMoreGlobals(body, s + bs.Names(), g, h);
    case Lambda(self, params, capture, body) => WfMoreGlobals(body, ToSet(capture) + Own(self, params), g, h);
    case App(f, args) => WfMoreGlobals(f, s, g, h); WfAllMoreGlobals(args, s, g, h);
    case _ =>
  }

  lemma {:induction false} WfAllMoreGlobals(es: Asts, s: set<string>, g: set<string>, h: set<string>)
    requires WfAll(es, s, g) && g <= h
    ensures WfAll(es, s, h)
    decreases es, 0
  {
    if es.ACons? { WfMoreGlobals(es.first, s, g, h); WfAllMoreGlobals(es.rest, s, g, h); }
  }

  lemma {:induction false} WfLetMoreGlobals(bs: Bindings, s: set<string>, g: set<string>, h: set<string>)
    requires WfLet(bs, s, g) && g <= h
    ensures WfLet(bs, s, h)
    decreases bs, 0
  {
    if bs.BCons? { WfMoreGlobals(bs.expr, s, g, h); WfLetMoreGlobals(bs.more, s, g, h); }
  }

  lemma {:induction false} WfLetStarMoreGlobals(bs: Bindings, s: set<string>, g: set<string>, h: set<string>)
    requires WfLetStar(bs, s, g) && g <= h
    ensures WfLetStar(bs, s, h)
    decreases bs, 0
  {
    if bs.BCons? { WfMoreGlobals(bs.expr, s, g, h); WfLetStarMoreGlobals(bs.more, s + {bs.name}, g, h); }
  }

  lemma {:induction false} CaptureSafe(names: seq<string>, env: Env, w: World, base: Env)
    requires SafeEnv(env, w.globals.Keys) && SafeEnv(base, w.globals.Keys) && SafeWorld(w)
             && ToSet(names) <= env.Names()
    ensures var c := Capture(names, env, w, base);
            c.Envr? && SafeEnv(c.env, w.globals.Keys) && c.env.Names() == base.Names() + ToSet(names)
    decreases |names|
  {
    if names != [] {
      assert names[0] in ToSet(names) && ToSet(names[1..]) <= ToSet(names);
      SafeGet(env, w.globals.Keys, names[0]);
      CaptureSafe(names[1..], env, w, Bind(names[0], env.Get(names[0]), base));
      assert ToSet(names) == {names[0]} + ToSet(names[1..]);
    }
  }

  lemma {:induction false} AppendSafe(top: Env, base: Env, globals: set<string>)
    requires SafeEnv(top, globals) && SafeEnv(base, globals)
    ensures SafeEnv(Append(top, base), globals)
  {
    if top.Bind? { AppendSafe(top.parent, base, globals); }
  }

  lemma {:induction false} BindParamsSafe(params: seq<string>, args: seq<Value>, env: Env, globals: set<string>)
    requires |params| == |args| && SafeArgs(args, globals) && SafeEnv(env, globals)
    ensures var e := BindParams(params, args, env); SafeEnv(e, globals) && e.Names() == env.Names() + ToSet(params)
    decreases |params|
  {
    if params != [] {
      BindParamsSafe(params[1..], args[1..], Bind(params[0], args[0], env), globals);
      assert ToSet(params) == {params[0]} + ToSet(params[1..]);
    }
  }

  lemma EnterSafe(mode: Mode, f: Value, args: seq<Value>, caller: Env, globals: set<string>)
    requires f.Clo? && SafeValue(f, globals) && |args| == |f.lam.params| && SafeArgs(args, globals)
             && SafeEnv(caller, globals)
    ensures var e := Enter(mode, f, args, caller); SafeEnv(e, globals) && Wf(f.lam.body, e.Names(), globals)
  {
    AppendSafe(f.env, caller, globals);
    var base := if mode == Flat then Append(f.env, caller) else f.env;
    BindParamsSafe(f.lam.params, args, BindSelf(f, base), globals);
    var e := Enter(mode, f, args, caller);
    WfMore(f.lam.body, ToSet(f.lam.capture) + Own(f.lam.self, f.lam.params), e.Names(), globals);
  }

  // Scope safety: evaluating analysed code never fails for an unknown variable, whatever
  // the names of its binders.
  lemma {:induction false} EvalSafe(mode: Mode, fuel: nat, e: Ast, env: Env, w: World)
    requires SafeWorld(w) && SafeEnv(env, w.globals.Keys) && Wf(e, env.Names(), w.globals.Keys)
    ensures SafeRes(Eval(mode, fuel, e, env, w), w.globals.Keys)
    decreases fuel, e, 1
  {
    var g := w.globals.Keys;
    match e
    case Const(v) => DataIsSafe(v, g);
    case Var(x) => if x in env.Names() { SafeGet(env, g, x); }
    case Quote(v) => DataIsSafe(v, g);
    case If(t, a, b) =>
      EvalSafe(mode, fuel, t, env, w);
      EvalSafe(mode, fuel, a, env, w);
      EvalSafe(mode, fuel, b, env, w);
    case Do(es) => DoSafe(mode, fuel, es, VNil, env, w);
    case Let(bs, body) =>
      LetSafe(mode, fuel, bs, env, env, w);
      var s := EvalLet(mode, fuel, bs, env, env, w);
      if s.Envr? { EvalSafe(mode, fuel, body, s.env, w); }
    case LetStar(bs, body) =>
      LetStarSafe(mode, fuel, bs, env, w);
      var s := EvalLetStar(mode, fuel, bs, env, w);
      if s.Envr? { EvalSafe(mode, fuel, body, s.env, w); }
    case Lambda(self, params, capture, body) =>
      if mode == Flat {
        CaptureSafe(capture, env, w, Global);
      }
    case App(f, args) =>
      EvalSafe(mode, fuel, f, env, w);
      ArgsSafe(mode, fuel, args, env, w);
      var h, vs := Eval(mode, fuel, f, env, w), EvalArgs(mode, fuel, args, env, w);
      if h.Ok? && CheckCall(h.value, args.Length()).None? && vs.Vals? && h.value.Clo? && fuel > 0 {
        EnterSafe(mode, h.value, vs.vals, env, g);
        EvalSafe(mode, fuel - 1, h.value.lam.body, Enter(mode, h.value, vs.vals, env), w);
      }
  }

  lemma {:induction false} DoSafe(mode: Mode, fuel: nat, es: Asts, last: Value, env: Env, w: World)
    requires SafeWorld(w) && SafeEnv(env, w.globals.Keys) && WfAll(es, env.Names(), w.globals.Keys)
             && SafeValue(last, w.globals.Keys)
    ensures SafeRes(EvalDo(mode, fuel, es, last, env, w), w.globals.Keys)
    decreases fuel, es, 0
  {
    if es.ACons? {
      EvalSafe(mode, fuel, es.first, env, w);
      var v := Eval(mode, fuel, es.first, env, w);
      if v.Ok? { DoSafe(mode, fuel, es.rest, v.value, env, w); }
    }
  }

  lemma {:induction false} ArgsSafe(mode: Mode, fuel: nat, es: Asts, env: Env, w: World)
    requires SafeWorld(w) && SafeEnv(env, w.globals.Keys) && WfAll(es, env.Names(), w.globals.Keys)
    ensures var r := EvalArgs(mode, fuel, es, env, w);
            if r.Vals? then SafeArgs(r.vals, w.globals.Keys) else SafeRes(r.r, w.globals.Keys)
    decreases fuel, es, 0
  {
    if es.ACons? {
      EvalSafe(mode, fuel, es.first, env, w);
      ArgsSafe(mode, fuel, es.rest, env, w);
    }
  }

  lemma {:induction false} LetSafe(mode: Mode, fuel: nat, bs: Bindings, outer: Env, env: Env, w: World)
    requires SafeWorld(w) && SafeEnv(outer, w.globals.Keys) && SafeEnv(env, w.globals.Keys)
             && WfLet(bs, outer.Names(), w.globals.Keys)
    ensures var r := EvalLet(mode, fuel, bs, outer, env, w);
            if r.Envr? then SafeEnv(r.env, w.globals.Keys) && r.env.Names() == env.Names() + bs.Names()
            else SafeRes(r.r, w.globals.Keys)
    decreases fuel, bs, 0
  {
    if bs.BCons? {
      EvalSafe(mode, fuel, bs.expr, outer, w);
      var v := Eval(mode, fuel, bs.expr, outer, w);
      if v.Ok? {
        LetSafe(mode, fuel, bs.more, outer, Bind(bs.name, v.value, env), w);
        assert env.Names() + bs.Names() == {bs.name} + env.Names() + bs.more.Names();
      }
    }
  }

  lemma {:induction false} LetStarSafe(mode: Mode, fuel: nat, bs: Bindings, env: Env, w: World)
    requires SafeWorld(w) && SafeEnv(env, w.globals.Keys) && WfLetStar(bs, env.Names(), w.globals.Keys)
    ensures var r := EvalLetStar(mode, fuel, bs, env, w);
            if r.Envr? then SafeEnv(r.env, w.globals.Keys) && r.env.Names() == env.Names() + bs.Names()
            else SafeRes(r.r, w.globals.Keys)
    decreases fuel, bs, 0
  {
    if bs.BCons? {
      EvalSafe(mode, fuel, bs.expr, env, w);
      var v := Eval(mode, fuel, bs.expr, env, w);
      if v.Ok? {
        assert env.Names() + {bs.name} == Bind(bs.name, v.value, env).Names();
        LetStarSafe(mode, fuel, bs.more, Bind(bs.name, v.value, env), w);
      }
    }
  }

  // ---------------------------------------------------------------------
  // Flat closures against full ones.

  // names are the names that the code at hand may use as globals. own holds those of
  // them whose global is a function that carries the same name itself, as in
  // (define fib (lambda fib (n) ...)), with its code.
  datatype Context = Context(names: set<string>, own: map<string, Ast>)

  // A local with a name from c.names is one of these functions, which gave it to itself.
  predicate OwnOnly(env: Env, c: Context) {
    match env
    case Global => true
    case Bind(x, v, parent) => (x in c.names ==> OwnValue(x, v, c)) && OwnOnly(parent, c)
  }

  predicate OwnValue(x: string, v: Value, c: Context) { x in c.own && v == Clo(c.own[x], Global) }

  // v, of the flat run, stands for w, of the reference run: the same data, and the
  // same code with corresponding values for the captured variables.
  ghost predicate Rel(v: Value, w: Value, c: Context)
    decreases v
  {
    match v
    case Cons(a, b) => w.Cons? && Rel(a, w.head, c) && Rel(b, w.tail, c)
    case Clo(l, env) =>
      && w.Clo? && w.lam == l && l.Lambda?
      && env.Names() == ToSet(l.capture) && OwnOnly(env, c) && OwnOnly(w.env, c)
      && Wf(l, env.Names(), c.names) && ToSet(l.params) !! c.names && BindsOff(l.body, c.names)
      && (l.self != "" && l.self in c.names ==> l.self in c.own && c.own[l.self] == l && env == w.env == Global)
      && RelEnv(env, w.env, c)
    case _ => v == w
  }

  // Every binding of env is that of deep.
  ghost predicate RelEnv(env: Env, deep: Env, c: Context)
    decreases env
  {
    match env
    case Global => true
    case Bind(x, v, parent) => x in deep.Names() && Rel(v, deep.Get(x), c) && RelEnv(parent, deep, c)
  }

  ghost predicate RelArgs(vs: seq<Value>, ws: seq<Value>, c: Context) {
    |vs| == |ws| && forall i :: 0 <= i < |vs| ==> Rel(vs[i], ws[i], c)
  }

  ghost predicate RelRes(r: Res, q: Res, c: Context) {
    if r.Ok? then q.Ok? && Rel(r.value, q.value, c) else r == q
  }

  // Native functions cannot tell corresponding values apart.
  ghost predicate PrimsRel(p: (string, seq<Value>) -> Res, q: (string, seq<Value>) -> Res, c: Context) {
    forall id, vs, ws :: RelArgs(vs, ws, c) ==> RelRes(p(id, vs), q(id, ws), c)
  }

  // The values of the globals that may be used correspond.
  ghost predicate RelWorld(w: World, u: World, c: Context) {
    && u.globals.Keys == w.globals.Keys && c.own.Keys <= w.globals.Keys
    && (forall x :: x in w.globals && x in c.names ==> Rel(w.globals[x], u.globals[x], c))
    && (forall x :: x in c.own ==> x in w.globals && w.globals[x] == u.globals[x] == Clo(c.own[x], Global))
    && PrimsRel(w.prim, u.prim, c)
  }

  // The names of scope mean corresponding things, and no other value hides a global.
  ghost predicate EnvOk(scope: set<string>, env: Env, deep: Env, c: Context) {
    && scope <= env.Names() && scope <= deep.Names() && OwnOnly(env, c) && OwnOnly(deep, c)
    && forall x :: x in scope && x in env.Names() && x in deep.Names() ==> Rel(env.Get(x), deep.Get(x), c)
  }

  lemma {:induction false} OwnGet(env: Env, c: Context, x: string)
    requires OwnOnly(env, c) && x in env.Names() && x in c.names
    ensures OwnValue(x, env.Get(x), c)
  {
    if env.name != x { OwnGet(env.parent, c, x); }
  }

  lemma {:induction false} OwnAppend(top: Env, base: Env, c: Context)
    requires OwnOnly(top, c) && OwnOnly(base, c)
    ensures OwnOnly(Append(top, base), c)
  {
    if top.Bind? { OwnAppend(top.parent, base, c); }
  }

  // A name used as a global means the global, whatever locals there are.
  lemma LookupGlobal(env: Env, w: World, u: World, c: Context, x: string)
    requires RelWorld(w, u, c) && OwnOnly(env, c) && x in c.names
    ensures Lookup(env, w, x) == Lookup(Global, w, x) && Lookup(env, u, x) == Lookup(Global, u, x)
  {
    if x in env.Names() { OwnGet(env, c, x); }
  }

  lemma {:induction false} DataRel(v: Value, c: Context)
    requires Data(v)
    ensures Rel(v, v, c)
  {
    match v
    case Cons(a, b) => DataRel(a, c); DataRel(b, c);
    case _ =>
  }

  lemma {:induction false} RelEnvGet(env: Env, deep: Env, c: Context, x: string)
    requires RelEnv(env, deep, c) && x in env.Names()
    ensures x in deep.Names() && Rel(env.Get(x), deep.Get(x), c)
  {
    if env.name != x { RelEnvGet(env.parent, deep, c, x); }
  }

  lemma {:induction false} AppendGet(top: Env, base: Env, x: string)
    requires x in top.Names()
    ensures Append(top, base).Get(x) == top.Get(x)
  {
    if top.name != x { AppendGet(top.parent, base, x); }
  }

  lemma BindOk(scope: set<string>, env: Env, deep: Env, c: Context, x: string, v: Value, w: Value)
    requires EnvOk(scope, env, deep, c) && Rel(v, w, c) && (x in c.names ==> OwnValue(x, v, c) && OwnValue(x, w, c))
    ensures EnvOk(scope + {x}, Bind(x, v, env), Bind(x, w, deep), c)
  {
  }

  lemma {:induction false} BindParamsOk(scope: set<string>, params: seq<string>, vs: seq<Value>, ws: seq<Value>,
        env: Env, deep: Env, c: Context)
    requires EnvOk(scope, env, deep, c) && |params| == |vs| && RelArgs(vs, ws, c)
             && ToSet(params) !! c.names
    ensures EnvOk(scope + ToSet(params), BindParams(params, vs, env), BindParams(params, ws, deep), c)
    decreases |params|
  {
    if params == [] {
      assert scope + ToSet(params) == scope;
    } else {
      assert params[0] in ToSet(params) && ToSet(params) == {params[0]} + ToSet(params[1..]);
      BindOk(scope, env, deep, c, params[0], vs[0], ws[0]);
      BindParamsOk(scope + {params[0]}, params[1..], vs[1..], ws[1..], Bind(params[0], vs[0], env),
          Bind(params[0], ws[0], deep), c);
      assert scope + {params[0]} + ToSet(params[1..]) == scope + ToSet(params);
    }
  }

  // Entering corresponding closures, one from a caller's environment.
  lemma EnterOk(f: Value, g: Value, vs: seq<Value>, ws: seq<Value>, caller: Env, caller2: Env, c: Context)
    requires f.Clo? && Rel(f, g, c) && |vs| == |f.lam.params| && RelArgs(vs, ws, c) && OwnOnly(caller, c)
    ensures var l := f.lam;
            EnvOk(ToSet(l.capture) + Own(l.self, l.params), Enter(Flat, f, vs, caller), Enter(Deep, g, ws, caller2), c)
  {
    var l, scope := f.lam, ToSet(f.lam.capture);
    var base := Append(f.env, caller);
    OwnAppend(f.env, caller, c);
    forall x | x in scope ensures x in g.env.Names() && Rel(base.Get(x), g.env.Get(x), c) {
      RelEnvGet(f.env, g.env, c, x);
      AppendGet(f.env, caller, x);
    }
    assert EnvOk(scope, base, g.env, c);
    if l.self == "" {
      BindParamsOk(scope, l.params, vs, ws, base, g.env, c);
      assert scope + ToSet(l.params) == scope + Own(l.self, l.params);
    } else {
      BindOk(scope, base, g.env, c, l.self, f, g);
      BindParamsOk(scope + {l.self}, l.params, vs, ws, BindSelf(f, base), BindSelf(g, g.env), c);
      assert scope + {l.self} + ToSet(l.params) == scope + Own(l.self, l.params);
    }
  }

  lemma {:induction false} CaptureRel(names: seq<string>, scope: set<string>, env: Env, deep: Env, w: World,
        base: Env, c: Context)
    requires ToSet(names) <= scope && EnvOk(scope, env, deep, c)
    requires RelEnv(base, deep, c) && OwnOnly(base, c)
    ensures var r := Capture(names, env, w, base);
            r.Envr? && r.env.Names() == base.Names() + ToSet(names) && RelEnv(r.env, deep, c) && OwnOnly(r.env, c)
    decreases |names|
  {
    if names != [] {
      var x := names[0];
      assert x in ToSet(names) && ToSet(names) == {x} + ToSet(names[1..]);
      if x in c.names { OwnGet(env, c, x); }
      CaptureRel(names[1..], scope, env, deep, w, Bind(x, env.Get(x), base), c);
    }
  }

  // The theorem: flat closures give what the reference gives, errors included.
  lemma {:induction false} FlatMeansDeep(fuel: nat, e: Ast, scope: set<string>, env: Env, deep: Env, w: World,
        u: World, c: Context)
    requires RelWorld(w, u, c) && EnvOk(scope, env, deep, c)
    requires Wf(e, scope, c.names) && BindsOff(e, c.names)
    ensures RelRes(Eval(Flat, fuel, e, env, w), Eval(Deep, fuel, e, deep, u), c)
    decreases fuel, e, 1
  {
    match e
    case Const(v) => DataRel(v, c);
    case Var(x) => if x in c.names { LookupGlobal(env, w, u, c, x); LookupGlobal(deep, w, u, c, x); }
    case Quote(v) => DataRel(v, c);
    case If(t, a, b) =>
      FlatMeansDeep(fuel, t, scope, env, deep, w, u, c);
      FlatMeansDeep(fuel, a, scope, env, deep, w, u, c);
      FlatMeansDeep(fuel, b, scope, env, deep, w, u, c);
    case Do(es) => DoRel(fuel, es, VNil, VNil, scope, env, deep, w, u, c);
    case Let(bs, body) =>
      LetRel(fuel, bs, scope, env, deep, scope, env, deep, w, u, c);
      var s, t := EvalLet(Flat, fuel, bs, env, env, w), EvalLet(Deep, fuel, bs, deep, deep, u);
      if s.Envr? { FlatMeansDeep(fuel, body, scope + bs.Names(), s.env, t.env, w, u, c); }
    case LetStar(bs, body) =>
      LetStarRel(fuel, bs, scope, env, deep, w, u, c);
      var s, t := EvalLetStar(Flat, fuel, bs, env, w), EvalLetStar(Deep, fuel, bs, deep, u);
      if s.Envr? { FlatMeansDeep(fuel, body, scope + bs.Names(), s.env, t.env, w, u, c); }
    case Lambda(self, params, capture, body) =>
      CaptureRel(capture, scope, env, deep, w, Global, c);
      var r := Capture(capture, env, w, Global).env;
      assert r.Names() == ToSet(capture);
    case App(f, args) => CallRel(fuel, e, scope, env, deep, w, u, c);
  }

  lemma {:induction false} CallRel(fuel: nat, e: Ast, scope: set<string>, env: Env, deep: Env, w: World, u: World,
        c: Context)
    requires RelWorld(w, u, c) && EnvOk(scope, env, deep, c)
    requires e.App? && Wf(e, scope, c.names) && BindsOff(e, c.names)
    ensures RelRes(Eval(Flat, fuel, e, env, w), Eval(Deep, fuel, e, deep, u), c)
    decreases fuel, e, 0
  {
    var f, args := e.fun, e.args;
    FlatMeansDeep(fuel, f, scope, env, deep, w, u, c);
    ArgsRel(fuel, args, scope, env, deep, w, u, c);
    var h, k := Eval(Flat, fuel, f, env, w), Eval(Deep, fuel, f, deep, u);
    var vs, ws := EvalArgs(Flat, fuel, args, env, w), EvalArgs(Deep, fuel, args, deep, u);
    if h.Ok? && CheckCall(h.value, args.Length()).None? && vs.Vals? && h.value.Clo? && fuel > 0 {
      var l := h.value.lam;
      EnterOk(h.value, k.value, vs.vals, ws.vals, env, deep, c);
      FlatMeansDeep(fuel - 1, l.body, ToSet(l.capture) + Own(l.self, l.params),
                    Enter(Flat, h.value, vs.vals, env), Enter(Deep, k.value, ws.vals, deep), w, u, c);
    }
  }

  lemma {:induction false} DoRel(fuel: nat, es: Asts, last: Value, last2: Value, scope: set<string>, env: Env,
        deep: Env, w: World, u: World, c: Context)
    requires RelWorld(w, u, c) && EnvOk(scope, env, deep, c) && Rel(last, last2, c)
    requires WfAll(es, scope, c.names) && BindsOffAll(es, c.names)
    ensures RelRes(EvalDo(Flat, fuel, es, last, env, w), EvalDo(Deep, fuel, es, last2, deep, u), c)
    decreases fuel, es, 0
  {
    if es.ACons? {
      FlatMeansDeep(fuel, es.first, scope, env, deep, w, u, c);
      var v, v2 := Eval(Flat, fuel, es.first, env, w), Eval(Deep, fuel, es.first, deep, u);
      if v.Ok? { DoRel(fuel, es.rest, v.value, v2.value, scope, env, deep, w, u, c); }
    }
  }

  lemma {:induction false} ArgsRel(fuel: nat, es: Asts, scope: set<string>, env: Env, deep: Env, w: World, u: World,
        c: Context)
    requires RelWorld(w, u, c) && EnvOk(scope, env, deep, c)
    requires WfAll(es, scope, c.names) && BindsOffAll(es, c.names)
    ensures var r, q := EvalArgs(Flat, fuel, es, env, w), EvalArgs(Deep, fuel, es, deep, u);
            if r.Vals? then q.Vals? && RelArgs(r.vals, q.vals, c) else q.ArgsErr? && !r.r.Ok? && r.r == q.r
    decreases fuel, es, 0
  {
    if es.ACons? {
      FlatMeansDeep(fuel, es.first, scope, env, deep, w, u, c);
      ArgsRel(fuel, es.rest, scope, env, deep, w, u, c);
    }
  }

  lemma {:induction false} LetRel(fuel: nat, bs: Bindings, scope: set<string>, outer: Env, outer2: Env,
        inner: set<string>, env: Env, deep: Env, w: World, u: World, c: Context)
    requires RelWorld(w, u, c) && EnvOk(scope, outer, outer2, c) && EnvOk(inner, env, deep, c)
    requires WfLet(bs, scope, c.names) && BindsOffLet(bs, c.names)
    ensures var r, q := EvalLet(Flat, fuel, bs, outer, env, w), EvalLet(Deep, fuel, bs, outer2, deep, u);
            if r.Envr? then q.Envr? && EnvOk(inner + bs.Names(), r.env, q.env, c)
            else q.ScopeErr? && !r.r.Ok? && r.r == q.r
    decreases fuel, bs, 0
  {
    if bs.BCons? {
      FlatMeansDeep(fuel, bs.expr, scope, outer, outer2, w, u, c);
      var v, v2 := Eval(Flat, fuel, bs.expr, outer, w), Eval(Deep, fuel, bs.expr, outer2, u);
      if v.Ok? {
        BindOk(inner, env, deep, c, bs.name, v.value, v2.value);
        LetRel(fuel, bs.more, scope, outer, outer2, inner + {bs.name}, Bind(bs.name, v.value, env),
            Bind(bs.name, v2.value, deep), w, u, c);
        assert inner + {bs.name} + bs.more.Names() == inner + bs.Names();
      }
    } else {
      assert inner + bs.Names() == inner;
    }
  }

  lemma {:induction false} LetStarRel(fuel: nat, bs: Bindings, scope: set<string>, env: Env, deep: Env, w: World,
        u: World, c: Context)
    requires RelWorld(w, u, c) && EnvOk(scope, env, deep, c)
    requires WfLetStar(bs, scope, c.names) && BindsOffLet(bs, c.names)
    ensures var r, q := EvalLetStar(Flat, fuel, bs, env, w), EvalLetStar(Deep, fuel, bs, deep, u);
            if r.Envr? then q.Envr? && EnvOk(scope + bs.Names(), r.env, q.env, c)
            else q.ScopeErr? && !r.r.Ok? && r.r == q.r
    decreases fuel, bs, 0
  {
    if bs.BCons? {
      FlatMeansDeep(fuel, bs.expr, scope, env, deep, w, u, c);
      var v, v2 := Eval(Flat, fuel, bs.expr, env, w), Eval(Deep, fuel, bs.expr, deep, u);
      if v.Ok? {
        BindOk(scope, env, deep, c, bs.name, v.value, v2.value);
        LetStarRel(fuel, bs.more, scope + {bs.name}, Bind(bs.name, v.value, env), Bind(bs.name, v2.value, deep), w, u,
            c);
        assert scope + {bs.name} + bs.more.Names() == scope + bs.Names();
      }
    } else {
      assert scope + bs.Names() == scope;
    }
  }

  // Without the condition on names it is false. With a global g whose value is 1 and a
  // global function f that returns g, (let (g 2) (f)) gives 2: f finds the caller's g.
  function Shadowing(): Ast {
    Let(BCons("g", Const(Num(2)), BNil), App(Var("f"), ANil))
  }

  function ShadowedWorld(prim: (string, seq<Value>) -> Res): World {
    World(map["g" := Num(1), "f" := Clo(Lambda("", [], [], Var("g")), Global)], prim)
  }

  lemma ShadowingBreaks(prim: (string, seq<Value>) -> Res)
    ensures Wf(Shadowing(), {}, ShadowedWorld(prim).globals.Keys)
    ensures Eval(Flat, 1, Shadowing(), Global, ShadowedWorld(prim)) == Ok(Num(2))
    ensures Eval(Deep, 1, Shadowing(), Global, ShadowedWorld(prim)) == Ok(Num(1))
  {
    var w, f := ShadowedWorld(prim), Clo(Lambda("", [], [], Var("g")), Global);
    var inner := Bind("g", Num(2), Global);
    assert EvalLet(Flat, 1, BCons("g", Const(Num(2)), BNil), Global, Global, w) == Envr(inner);
    assert EvalLet(Deep, 1, BCons("g", Const(Num(2)), BNil), Global, Global, w) == Envr(inner);
    assert Eval(Flat, 1, Var("f"), inner, w) == Ok(f) && Eval(Deep, 1, Var("f"), inner, w) == Ok(f);
    assert CheckCall(f, 0) == None;
    assert Enter(Flat, f, [], inner) == inner && Enter(Deep, f, [], inner) == Global;
    assert Eval(Flat, 0, Var("g"), inner, w) == Ok(Num(2)) && Eval(Deep, 0, Var("g"), Global, w) == Ok(Num(1));
    assert Eval(Flat, 1, App(Var("f"), ANil), inner, w) == Ok(Num(2));
    assert Eval(Deep, 1, App(Var("f"), ANil), inner, w) == Ok(Num(1));
  }

  // Nor may a function give itself the name of another global. With a global f whose
  // value is 1, a global function h that returns f, and a global function k that calls
  // itself f and returns (h), (k) gives k itself: h finds what k calls f.
  function Misnamed(): Value { Clo(Lambda("f", [], [], App(Var("h"), ANil)), Global) }

  function MisnamedWorld(prim: (string, seq<Value>) -> Res): World {
    World(map["f" := Num(1), "h" := Clo(Lambda("", [], [], Var("f")), Global), "k" := Misnamed()], prim)
  }

  lemma OwnNameBreaks(prim: (string, seq<Value>) -> Res)
    ensures Eval(Flat, 2, App(Var("k"), ANil), Global, MisnamedWorld(prim)) == Ok(Misnamed())
    ensures Eval(Deep, 2, App(Var("k"), ANil), Global, MisnamedWorld(prim)) == Ok(Num(1))
  {
    var w, k, h := MisnamedWorld(prim), Misnamed(), Clo(Lambda("", [], [], Var("f")), Global);
    var inner, call := Bind("f", k, Global), App(Var("h"), ANil);
    assert Eval(Flat, 2, Var("k"), Global, w) == Ok(k) && Eval(Deep, 2, Var("k"), Global, w) == Ok(k);
    assert CheckCall(k, 0) == None && CheckCall(h, 0) == None;
    assert Enter(Flat, k, [], Global) == inner && Enter(Deep, k, [], Global) == inner;
    assert Eval(Flat, 1, Var("h"), inner, w) == Ok(h) && Eval(Deep, 1, Var("h"), inner, w) == Ok(h);
    assert Enter(Flat, h, [], inner) == inner && Enter(Deep, h, [], inner) == Global;
    assert Eval(Flat, 0, Var("f"), inner, w) == Ok(k) && Eval(Deep, 0, Var("f"), Global, w) == Ok(Num(1));
    assert Eval(Flat, 1, call, inner, w) == Ok(k) && Eval(Deep, 1, call, inner, w) == Ok(Num(1));
  }
}
