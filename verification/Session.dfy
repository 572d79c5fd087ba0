// The read-eval-print loop: forms read from a text, analysed against the globals
// defined so far, and evaluated one after the other.
module Session {
  import opened Sexprs
  import opened Syntax
  import opened Reading
  import opened Lisp
  import opened Closures
  import opened Analyzer
  import opened Evaluator
  import opened Samples

  datatype Form = Value(ast: Ast) | Define(name: string, ast: Ast)

  // What a form gives, and the world after it.
  function RunForm(mode: Mode, fuel: nat, f: Form, w: World): (World, Res) {
    var r := Eval(mode, fuel, f.ast, Global, w);
    if f.Define? && r.Ok? then (w.(globals := w.globals[f.name := r.value]), r) else (w, r)
  }

  function RunForms(mode: Mode, fuel: nat, fs: seq<Form>, w: World): (World, seq<Res>) {
    if fs == [] then (w, []) else
      var (w1, r) := RunForm(mode, fuel, fs[0], w);
      var (w2, rs) := RunForms(mode, fuel, fs[1..], w1);
      (w2, [r] + rs)
  }

  // A definition of a function that gives itself the name being defined.
  predicate OwnNamed(f: Form) { f.Define? && f.name != "" && f.ast.Lambda? && f.ast.self == f.name }

  // A form that may come next: no local takes a name from c.names, except that a
  // function may carry the name it is defined under, if that name stands for no other
  // such function.
  ghost predicate FormOk(f: Form, c: Context) {
    Wf(f.ast, {}, c.names) &&
    if OwnNamed(f) && f.name in c.names
    then ToSet(f.ast.params) !! c.names && BindsOff(f.ast.body, c.names) && (f.name in c.own ==> c.own[f.name] == f.ast)
    else BindsOff(f.ast, c.names) && (f.Define? ==> f.name !in c.own)
  }

  function After(f: Form, c: Context): Context {
    if OwnNamed(f) && f.name in c.names then c.(own := c.own[f.name := f.ast]) else c
  }

  ghost predicate FormsOk(fs: seq<Form>, c: Context) {
    fs != [] ==> FormOk(fs[0], c) && FormsOk(fs[1..], After(fs[0], c))
  }

  function AfterAll(fs: seq<Form>, c: Context): Context {
    if fs == [] then c else AfterAll(fs[1..], After(fs[0], c))
  }

  // Native functions cannot tell corresponding values apart, whatever is defined.
  ghost predicate PrimsAgree(p: (string, seq<Value>) -> Res, q: (string, seq<Value>) -> Res, names: set<string>) {
    forall own :: PrimsRel(p, q, Context(names, own))
  }

  // Values still correspond when another function carries its own name.
  lemma {:induction false} RelMore(v: Value, w: Value, c: Context, d: Context)
    requires Rel(v, w, c) && Extends(c, d)
    ensures Rel(v, w, d)
    decreases v
  {
    match v
    case Cons(a, b) => RelMore(a, w.head, c, d); RelMore(b, w.tail, c, d);
    case Clo(l, env) => OwnOnlyMore(env, c, d); OwnOnlyMore(w.env, c, d); RelEnvMore(env, w.env, c, d);
    case _ =>
  }

  lemma {:induction false} RelEnvMore(env: Env, deep: Env, c: Context, d: Context)
    requires RelEnv(env, deep, c) && Extends(c, d)
    ensures RelEnv(env, deep, d)
    decreases env
  {
    if env.Bind? { RelMore(env.val, deep.Get(env.name), c, d); RelEnvMore(env.parent, deep, c, d); }
  }

  lemma {:induction false} OwnOnlyMore(env: Env, c: Context, d: Context)
    requires OwnOnly(env, c) && Extends(c, d)
    ensures OwnOnly(env, d)
  {
    if env.Bind? { OwnOnlyMore(env.parent, c, d); }
  }

  ghost predicate Extends(c: Context, d: Context) {
    d.names == c.names && forall x :: x in c.own ==> x in d.own && d.own[x] == c.own[x]
  }

  lemma FormsAgreeOnce(fuel: nat, f: Form, w: World, u: World, c: Context)
    requires RelWorld(w, u, c) && FormOk(f, c) && PrimsAgree(w.prim, u.prim, c.names)
    ensures var (w1, r) := RunForm(Flat, fuel, f, w); var (u1, q) := RunForm(Deep, fuel, f, u);
            RelWorld(w1, u1, After(f, c)) && RelRes(r, q, After(f, c)) && w1.prim == w.prim && u1.prim == u.prim
  {
    if OwnNamed(f) && f.name in c.names {
      DefineOwn(fuel, f, w, u, c);
    } else {
      FlatMeansDeep(fuel, f.ast, {}, Global, Global, w, u, c);
      var r, q := Eval(Flat, fuel, f.ast, Global, w), Eval(Deep, fuel, f.ast, Global, u);
      if f.Define? && r.Ok? {
        var m, n := w.globals[f.name := r.value], u.globals[f.name := q.value];
        assert m.Keys == w.globals.Keys + {f.name} && n.Keys == u.globals.Keys + {f.name};
      }
    }
  }

  lemma NoNames(s: seq<string>)
    ensures ToSet(s) == {} ==> s == []
  {
    if s != [] { assert s[0] in ToSet(s); }
  }

  // Both runs define the very same closure.
  lemma DefineOwn(fuel: nat, f: Form, w: World, u: World, c: Context)
    requires RelWorld(w, u, c) && FormOk(f, c) && PrimsAgree(w.prim, u.prim, c.names) && OwnNamed(f)
             && f.name in c.names
    ensures var (w1, r) := RunForm(Flat, fuel, f, w); var (u1, q) := RunForm(Deep, fuel, f, u);
            RelWorld(w1, u1, After(f, c)) && RelRes(r, q, After(f, c)) && w1.prim == w.prim && u1.prim == u.prim
  {
    var d, v := After(f, c), Clo(f.ast, Global);
    NoNames(f.ast.capture);
    assert Eval(Flat, fuel, f.ast, Global, w) == Ok(v) == Eval(Deep, fuel, f.ast, Global, u);
    assert Rel(v, v, d);
    var m, n := w.globals[f.name := v], u.globals[f.name := v];
    assert m.Keys == w.globals.Keys + {f.name} && n.Keys == u.globals.Keys + {f.name};
    forall x | x in m && x in d.names ensures Rel(m[x], n[x], d) {
      if x != f.name { RelMore(m[x], n[x], c, d); }
    }
  }

  // A whole session with flat closures gives, form by form, what it gives with closures
  // that keep their environments.
  lemma {:induction false} SessionsAgree(fuel: nat, fs: seq<Form>, w: World, u: World, c: Context)
    requires RelWorld(w, u, c) && FormsOk(fs, c) && PrimsAgree(w.prim, u.prim, c.names)
    ensures var (w1, rs) := RunForms(Flat, fuel, fs, w); var (u1, qs) := RunForms(Deep, fuel, fs, u);
            var d := AfterAll(fs, c);
            RelWorld(w1, u1, d) && |rs| == |qs| == |fs| && forall i :: 0 <= i < |fs| ==> RelRes(rs[i], qs[i], d)
  {
    if fs != [] {
      var d := After(fs[0], c);
      FormsAgreeOnce(fuel, fs[0], w, u, c);
      var (w1, r) := RunForm(Flat, fuel, fs[0], w);
      var (u1, q) := RunForm(Deep, fuel, fs[0], u);
      SessionsAgree(fuel, fs[1..], w1, u1, d);
      AfterExtends(fs[1..], d);
      if r.Ok? { RelMore(r.value, q.value, d, AfterAll(fs, c)); }
    }
  }

  lemma {:induction false} AfterExtends(fs: seq<Form>, c: Context)
    requires FormsOk(fs, c)
    ensures Extends(c, AfterAll(fs, c))
  {
    if fs != [] { AfterExtends(fs[1..], After(fs[0], c)); }
  }

  // A session that defines id, const and fib as they are and then asks for (fib 20).
  lemma RecursionCovered(names: set<string>)
    requires {"id", "const", "fib", "<", "+", "-"} <= names && {"x", "y", "n"} !! names
    ensures FormsOk([Define("id", ID), Define("const", CONST), Define("fib", FIB),
                     Form.Value(Call("fib", [Const(Num(20))]))],
                    Context(names, map[]))
  {
    var f0, f1, f2 := Define("id", ID), Define("const", CONST), Define("fib", FIB);
    var f3 := Form.Value(Call("fib", [Const(Num(20))]));
    var c0 := Context(names, map[]);
    var c1 := After(f0, c0);
    var c2 := After(f1, c1);
    var c3 := After(f2, c2);
    SamplesOk(names);
    assert FormOk(f0, c0) && FormOk(f1, c1) && FormOk(f2, c2) && FormOk(f3, c3);
    assert [f3][1..] == [] && [f2, f3][1..] == [f3] && [f1, f2, f3][1..] == [f2, f3];
    assert [f0, f1, f2, f3][1..] == [f1, f2, f3];
    assert FormsOk([f3], c3) && FormsOk([f2, f3], c2) && FormsOk([f1, f2, f3], c1);
  }

  // ---------------------------------------------------------------------

  // Which top-level forms are legal, and what they mean.
  predicate IsDefine(e: Sexpr) { e.List? && HasHead(e.items, "define") }

  ghost predicate LegalForm(e: Sexpr, globals: set<string>) {
    if IsDefine(e) then |e.items| == 3 && e.items[1].Sym? && Legal(e.items[2], {}, globals) else Legal(e, {}, globals)
  }

  ghost predicate FormMeans(e: Sexpr, f: Form) {
    if IsDefine(e) then |e.items| == 3 && e.items[1].Sym? && f.Define? && f.name == e.items[1].id
        && Means(e.items[2], f.ast)
    else f.Value? && Means(e, f.ast)
  }

  // Native functions make no unsafe values, whatever is defined.
  ghost predicate PrimsSafe(prim: (string, seq<Value>) -> Res) {
    forall id, vs, g {:trigger prim(id, vs), SafeArgs(vs, g)} :: SafeArgs(vs, g) ==> SafeRes(prim(id, vs), g)
  }

  // A value stays safe when more globals are defined.
  lemma {:induction false} SafeMore(v: Value, g: set<string>, h: set<string>)
    requires SafeValue(v, g) && g <= h
    ensures SafeValue(v, h)
    decreases v
  {
    match v
    case Cons(a, b) => SafeMore(a, g, h); SafeMore(b, g, h);
    case Clo(l, env) => WfMoreGlobals(l, env.Names(), g, h); SafeEnvMore(env, g, h);
    case _ =>
  }

  lemma {:induction false} SafeEnvMore(env: Env, g: set<string>, h: set<string>)
    requires SafeEnv(env, g) && g <= h
    ensures SafeEnv(env, h)
    decreases env
  {
    if env.Bind? { SafeMore(env.val, g, h); SafeEnvMore(env.parent, g, h); }
  }

  lemma DefineSafe(w: World, x: string, v: Value)
    requires SafeWorld(w) && PrimsSafe(w.prim) && SafeValue(v, w.globals.Keys)
    ensures SafeWorld(w.(globals := w.globals[x := v]))
  {
    var g, m := w.globals.Keys, w.globals[x := v];
    forall y | y in m ensures SafeValue(m[y], m.Keys) { SafeMore(m[y], g, m.Keys); }
    var u := w.(globals := m);
    forall id, vs | SafeArgs(vs, m.Keys)
        ensures SafeRes(u.prim(id, vs), m.Keys) { assert u.prim(id, vs) == w.prim(id, vs); }
  }

  datatype Shown = NoForm(reply: Reply) | Rejected | Result(form: Form, r: Res)

  class Session {
    const prim: (string, seq<Value>) -> Res
    const reader: Reader
    var globals: map<string, Value>

    ghost predicate Valid()
      reads this, reader
    {
      reader.Valid() && PrimsSafe(prim) && SafeWorld(World(globals, prim))
    }

    constructor (prim: (string, seq<Value>) -> Res, builtins: map<string, Value>, reader: Reader)
      requires reader.Valid() && PrimsSafe(prim) && SafeWorld(World(builtins, prim))
      ensures Valid() && this.reader == reader && this.prim == prim && globals == builtins
    {
      this.prim, this.reader, globals := prim, reader, builtins;
    }

    // One round of the loop. A form is rejected exactly when it is not legal, and then
    // nothing changes; a legal one never fails for an unknown variable.
    method Round(fuel: nat) returns (out: Shown)
      requires Valid()
      modifies this`globals, reader`pos
      ensures Valid()
      ensures match Parse(old(reader.Rest()))
              case Got(e, rest) =>
                && reader.Rest() == rest
                && if !LegalForm(e, old(globals).Keys) then out == Rejected && globals == old(globals)
                   else && out.Result? && FormMeans(e, out.form)
                        && Wf(out.form.ast, {}, old(globals).Keys) && Exact(out.form.ast, {})
                        && (World(globals, prim), out.r) == RunForm(Flat, fuel, out.form, World(old(globals), prim))
                        && out.r != Err(UnknownVariable)
              case o => out.NoForm? && Is(out.reply, reader.Rest(), o) && globals == old(globals)
      ensures out == NoForm(NoReply) <==> OpenAhead(old(reader.Rest()), 0, false)
      ensures Closed(old(reader.Rest())) ==> out != NoForm(NoReply)
    {
      var w := World(globals, prim);
      HangsExactly(reader.Rest());
      var reply := reader.Read();
      if !reply.Expr? { return NoForm(reply); }
      var e := reply.expr;
      var define := IsDefine(e);
      if define && !(|e.items| == 3 && e.items[1].Sym?) { return Rejected; }
      var scopes := new Scopes(globals.Keys);
      var a := scopes.Analyze(if define then e.items[2] else e);
      if a.Bad? { return Rejected; }
      var f := if define then Define(e.items[1].id, a.ast) else Form.Value(a.ast);
      EvalSafe(Flat, fuel, a.ast, Global, w);
      var r := Evaluate(fuel, a.ast, Global, w);
      if define && r.Ok? {
        DefineSafe(w, f.name, r.value);
        globals := globals[f.name := r.value];
      }
      out := Result(f, r);
    }
  }
}
