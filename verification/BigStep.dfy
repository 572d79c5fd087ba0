// What programs mean, by rules that say nothing of the order or the depth of evaluation,
// and the proof that the evaluator follows them.
module BigStep {
  import opened Lisp
  import opened Options

  // Looking up x finds v: in the nearest binding, or else among the globals.
  predicate Seen(env: Env, w: World, x: string, v: Value) {
    match env
    case Global => x in w.globals && w.globals[x] == v
    case Bind(y, u, parent) => if y == x then v == u else Seen(parent, w, x, v)
  }

  // The names bound to the values on top of env, the last of them innermost.
  function Over(names: seq<string>, vs: seq<Value>, env: Env): Env
    requires |names| == |vs|
  {
    var last := |names| - 1;
    if names == [] then env else Bind(names[last], vs[last], Over(names[..last], vs[..last], env))
  }

  function NamesOf(bs: Bindings): seq<string> { if bs.BNil? then [] else [bs.name] + NamesOf(bs.more) }

  function Exprs(bs: Bindings): (es: Asts)
    ensures es.Length() == |NamesOf(bs)|
  {
    if bs.BNil? then ANil else ACons(bs.expr, Exprs(bs.more))
  }

  predicate Takes(h: Value, n: nat) { h.Clo? && h.lam.Lambda? && |h.lam.params| == n }

  // Inside a call the arguments hide the function's own name, that hides the captured
  // variables, and those hide what the caller sees.
  function Inside(h: Value, vs: seq<Value>, caller: Env): Env
    requires Takes(h, |vs|)
  {
    var captured := Append(h.env, caller);
    Over(h.lam.params, vs, if h.lam.self == "" then captured else Bind(h.lam.self, h, captured))
  }

  function LastOf(vs: seq<Value>, v: Value): Value { if vs == [] then v else vs[|vs| - 1] }

  // e means v where env is visible.
  least predicate Means[nat](e: Ast, env: Env, w: World, v: Value) {
    match e
    case Const(c) => v == c
    case Var(x) => Seen(env, w, x, v)
    case Quote(d) => v == d
    case If(t, a, b) => exists c :: Means(t, env, w, c) && Means(if c == VNil then b else a, env, w, v)
    case Do(es) => exists vs :: MeanAll(es, env, w, vs) && v == LastOf(vs, VNil)
    case Let(bs, body) => exists vs :: |vs| == |NamesOf(bs)| && MeanAll(Exprs(bs), env, w, vs)
                                       && Means(body, Over(NamesOf(bs), vs, env), w, v)
    case LetStar(BNil, body) => Means(body, env, w, v)
    case LetStar(BCons(x, d, more), body) =>
      exists u :: Means(d, env, w, u) && Means(LetStar(more, body), Bind(x, u, env), w, v)
    case Lambda(_, _, capture, _) =>
      exists us :: AllSeen(env, w, capture, us) && v == Clo(e, Over(capture, us, Global))
    case App(f, args) => exists h, vs :: Means(f, env, w, h) && MeanAll(args, env, w, vs)
                                         && ((h.Prim? && h.arity == |vs| && w.prim(h.prim, vs) == Ok(v))
                                             || (Takes(h, |vs|) && Means(h.lam.body, Inside(h, vs, env), w, v)))
  }

  least predicate MeanAll[nat](es: Asts, env: Env, w: World, vs: seq<Value>) {
    match es
    case ANil => vs == []
    case ACons(e, rest) => vs != [] && Means(e, env, w, vs[0]) && MeanAll(rest, env, w, vs[1..])
  }

  predicate AllSeen(env: Env, w: World, xs: seq<string>, vs: seq<Value>) {
    |vs| == |xs| && forall i :: 0 <= i < |xs| ==> Seen(env, w, xs[i], vs[i])
  }

  // ---------------------------------------------------------------------
  // The evaluator's functions, each by what it looks up and binds.

  lemma {:induction false} LookupSees(env: Env, w: World, x: string, v: Value)
    ensures Seen(env, w, x, v) <==> Lookup(env, w, x) == Ok(v)
  {
    if env.Bind? { LookupSees(env.parent, w, x, v); }
  }

  lemma {:induction false} OverMore(names: seq<string>, vs: seq<Value>, env: Env)
    requires |names| == |vs| && names != []
    ensures Over(names, vs, env) == Over(names[1..], vs[1..], Bind(names[0], vs[0], env))
  {
    var last := |names| - 1;
    if last > 0 {
      OverMore(names[..last], vs[..last], env);
      assert names[..last][1..] == names[1..][..last - 1] && vs[..last][1..] == vs[1..][..last - 1];
    }
  }

  lemma {:induction false} BindsOver(names: seq<string>, vs: seq<Value>, env: Env)
    requires |names| == |vs|
    ensures BindParams(names, vs, env) == Over(names, vs, env)
    decreases |names|
  {
    if names != [] {
      BindsOver(names[1..], vs[1..], Bind(names[0], vs[0], env));
      OverMore(names, vs, env);
    }
  }

  lemma EntersInside(h: Value, vs: seq<Value>, caller: Env)
    requires Takes(h, |vs|)
    ensures Enter(Flat, h, vs, caller) == Inside(h, vs, caller)
  {
    BindsOver(h.lam.params, vs, BindSelf(h, Append(h.env, caller)));
  }

  // The captured variables are those seen at the lambda.
  lemma {:induction false} CaptureSees(xs: seq<string>, env: Env, w: World, base: Env, us: seq<Value>)
    requires AllSeen(env, w, xs, us)
    ensures Capture(xs, env, w, base) == Envr(Over(xs, us, base))
    decreases |xs|
  {
    if xs != [] {
      LookupSees(env, w, xs[0], us[0]);
      forall i | 0 <= i < |xs| - 1 ensures Seen(env, w, xs[1..][i],
          us[1..][i]) { assert Seen(env, w, xs[i + 1], us[i + 1]); }
      CaptureSees(xs[1..], env, w, Bind(xs[0], us[0], base), us[1..]);
      OverMore(xs, us, base);
    }
  }

  lemma {:induction false} CaptureFinds(xs: seq<string>, env: Env, w: World, base: Env) returns (us: seq<Value>)
    requires Capture(xs, env, w, base).Envr?
    ensures AllSeen(env, w, xs, us)
    decreases |xs|
  {
    us := [];
    if xs != [] {
      var u := Lookup(env, w, xs[0]).value;
      LookupSees(env, w, xs[0], u);
      var more := CaptureFinds(xs[1..], env, w, Bind(xs[0], u, base));
      us := [u] + more;
      forall i | 0 <= i < |xs| ensures Seen(env, w, xs[i], us[i]) {
        if i > 0 { assert Seen(env, w, xs[1..][i - 1], more[i - 1]); }
      }
    }
  }

  // do and let evaluate a list of expressions, one after the other.
  lemma {:induction false} DoEvaluates(fuel: nat, es: Asts, last: Value, env: Env, w: World)
    ensures EvalDo(Flat, fuel, es, last, env, w) ==
              match EvalArgs(Flat, fuel, es, env, w)
              case Vals(vs) => Ok(LastOf(vs, last))
              case ArgsErr(r) => r
  {
    if es.ACons? {
      var r := Eval(Flat, fuel, es.first, env, w);
      if r.Ok? { DoEvaluates(fuel, es.rest, r.value, env, w); }
    }
  }

  lemma {:induction false} LetEvaluates(fuel: nat, bs: Bindings, outer: Env, env: Env, w: World)
    ensures EvalLet(Flat, fuel, bs, outer, env, w) ==
              match EvalArgs(Flat, fuel, Exprs(bs), outer, w)
              case Vals(vs) => Envr(Over(NamesOf(bs), vs, env))
              case ArgsErr(r) => ScopeErr(r)
  {
    if bs.BCons? {
      var r := Eval(Flat, fuel, bs.expr, outer, w);
      if r.Ok? {
        LetEvaluates(fuel, bs.more, outer, Bind(bs.name, r.value, env), w);
        var rest := EvalArgs(Flat, fuel, Exprs(bs.more), outer, w);
        if rest.Vals? {
          var names, vs := NamesOf(bs), [r.value] + rest.vals;
          OverMore(names, vs, env);
          assert names[1..] == NamesOf(bs.more) && vs[1..] == rest.vals;
        }
      }
    }
  }

  // Where there is no environment or no list of values there is no value.
  lemma {:induction false} CaptureFails(xs: seq<string>, env: Env, w: World, base: Env)
    ensures var r := Capture(xs, env, w, base); r.ScopeErr? ==> !r.r.Ok?
    decreases |xs|
  {
    if xs != [] && Lookup(env, w, xs[0]).Ok? {
      CaptureFails(xs[1..], env, w, Bind(xs[0], Lookup(env, w, xs[0]).value, base));
    }
  }

  lemma {:induction false} ArgsFail(fuel: nat, es: Asts, env: Env, w: World)
    ensures var r := EvalArgs(Flat, fuel, es, env, w); r.ArgsErr? ==> !r.r.Ok?
  {
    if es.ACons? { ArgsFail(fuel, es.rest, env, w); }
  }

  lemma {:induction false} StarFails(fuel: nat, bs: Bindings, env: Env, w: World)
    ensures var r := EvalLetStar(Flat, fuel, bs, env, w); r.ScopeErr? ==> !r.r.Ok?
  {
    if bs.BCons? {
      var r := Eval(Flat, fuel, bs.expr, env, w);
      if r.Ok? { StarFails(fuel, bs.more, Bind(bs.name, r.value, env), w); }
    }
  }

  // ---------------------------------------------------------------------
  // What is evaluated to a value means that value.

  lemma {:induction false} EvalMeans(fuel: nat, e: Ast, env: Env, w: World)
    ensures var r := Eval(Flat, fuel, e, env, w); r.Ok? ==> Means(e, env, w, r.value)
    decreases fuel, e, 1
  {
    var r := Eval(Flat, fuel, e, env, w);
    if r.Ok? {
      match e
      case Const(_) =>
      case Quote(_) =>
      case Var(x) => LookupSees(env, w, x, r.value);
      case If(t, a, b) =>
        EvalMeans(fuel, t, env, w);
        EvalMeans(fuel, a, env, w);
        EvalMeans(fuel, b, env, w);
        var c := Eval(Flat, fuel, t, env, w).value;
        assert Means(t, env, w, c) && Means(if c == VNil then b else a, env, w, r.value);
      case Do(es) =>
        DoEvaluates(fuel, es, VNil, env, w);
        ArgsFail(fuel, es, env, w);
        ArgsMean(fuel, es, env, w);
        assert MeanAll(es, env, w, EvalArgs(Flat, fuel, es, env, w).vals);
      case Let(bs, body) =>
        LetEvaluates(fuel, bs, env, env, w);
        ArgsFail(fuel, Exprs(bs), env, w);
        ExprsMean(fuel, bs, env, w);
        EvalMeans(fuel, body, EvalLet(Flat, fuel, bs, env, env, w).env, w);
        assert MeanAll(Exprs(bs), env, w, EvalArgs(Flat, fuel, Exprs(bs), env, w).vals);
      case LetStar(bs, body) =>
        StarFails(fuel, bs, env, w);
        EvalMeans(fuel, body, EvalLetStar(Flat, fuel, bs, env, w).env, w);
        StarMeans(fuel, bs, body, env, w, r.value);
      case Lambda(_, _, capture, _) =>
        CaptureFails(capture, env, w, Global);
        var us := CaptureFinds(capture, env, w, Global);
        CaptureSees(capture, env, w, Global, us);
      case App(f, args) => CallMeans(fuel, f, args, env, w);
    }
  }

  lemma {:induction false} ArgsMean(fuel: nat, es: Asts, env: Env, w: World)
    ensures var r := EvalArgs(Flat, fuel, es, env, w); r.Vals? ==> MeanAll(es, env, w, r.vals)
    decreases fuel, es, 0
  {
    if es.ACons? {
      EvalMeans(fuel, es.first, env, w);
      ArgsMean(fuel, es.rest, env, w);
      var r := EvalArgs(Flat, fuel, es, env, w);
      if r.Vals? { assert r.vals[1..] == EvalArgs(Flat, fuel, es.rest, env, w).vals; }
    }
  }

  lemma {:induction false} ExprsMean(fuel: nat, bs: Bindings, env: Env, w: World)
    ensures var r := EvalArgs(Flat, fuel, Exprs(bs), env, w); r.Vals? ==> MeanAll(Exprs(bs), env, w, r.vals)
    decreases fuel, bs, 0
  {
    if bs.BCons? {
      EvalMeans(fuel, bs.expr, env, w);
      ExprsMean(fuel, bs.more, env, w);
      var r := EvalArgs(Flat, fuel, Exprs(bs), env, w);
      if r.Vals? { assert r.vals[1..] == EvalArgs(Flat, fuel, Exprs(bs.more), env, w).vals; }
    }
  }

  // A let* means what its body means under its bindings, the first around the others.
  lemma {:induction false} StarMeans(fuel: nat, bs: Bindings, body: Ast, env: Env, w: World, v: Value)
    requires var inner := EvalLetStar(Flat, fuel, bs, env, w); inner.Envr? && Means(body, inner.env, w, v)
    ensures Means(LetStar(bs, body), env, w, v)
    decreases fuel, bs, 0
  {
    match bs
    case BNil =>
    case BCons(x, d, more) =>
      StarFails(fuel, bs, env, w);
      EvalMeans(fuel, d, env, w);
      var u := Eval(Flat, fuel, d, env, w).value;
      StarMeans(fuel, more, body, Bind(x, u, env), w, v);
      assert Means(d, env, w, u) && Means(LetStar(more, body), Bind(x, u, env), w, v);
  }

  lemma {:induction false} CallMeans(fuel: nat, f: Ast, args: Asts, env: Env, w: World)
    ensures var e := App(f, args); var r := Eval(Flat, fuel, e, env, w); r.Ok? ==> Means(e, env, w, r.value)
    decreases fuel, App(f, args), 0
  {
    var r := Eval(Flat, fuel, App(f, args), env, w);
    if r.Ok? {
      EvalMeans(fuel, f, env, w);
      ArgsFail(fuel, args, env, w);
      ArgsMean(fuel, args, env, w);
      var h, vs := Eval(Flat, fuel, f, env, w).value, EvalArgs(Flat, fuel, args, env, w).vals;
      assert Means(f, env, w, h) && MeanAll(args, env, w, vs);
      if !h.Prim? {
        EntersInside(h, vs, env);
        EvalMeans(fuel - 1, h.lam.body, Enter(Flat, h, vs, env), w);
      }
    }
  }

  // ---------------------------------------------------------------------
  // More fuel does not change an answer.

  lemma {:induction false} MoreFuel(fuel: nat, more: nat, e: Ast, env: Env, w: World)
    requires fuel <= more && Eval(Flat, fuel, e, env, w) != OutOfFuel
    ensures Eval(Flat, more, e, env, w) == Eval(Flat, fuel, e, env, w)
    decreases fuel, e, 1
  {
    match e
    case Const(_) =>
    case Var(_) =>
    case Quote(_) =>
    case Lambda(_, _, _, _) =>
    case If(t, a, b) =>
      MoreFuel(fuel, more, t, env, w);
      var c := Eval(Flat, fuel, t, env, w);
      if c.Ok? { MoreFuel(fuel, more, if c.value != VNil then a else b, env, w); }
    case Do(es) =>
      DoEvaluates(fuel, es, VNil, env, w);
      DoEvaluates(more, es, VNil, env, w);
      MoreForArgs(fuel, more, es, env, w);
    case Let(bs, body) =>
      MoreForLet(fuel, more, bs, env, env, w);
      var inner := EvalLet(Flat, fuel, bs, env, env, w);
      if inner.Envr? { MoreFuel(fuel, more, body, inner.env, w); }
    case LetStar(bs, body) =>
      MoreForStar(fuel, more, bs, env, w);
      var inner := EvalLetStar(Flat, fuel, bs, env, w);
      if inner.Envr? { MoreFuel(fuel, more, body, inner.env, w); }
    case App(f, args) =>
      MoreFuel(fuel, more, f, env, w);
      var h := Eval(Flat, fuel, f, env, w);
      if h.Ok? && CheckCall(h.value, args.Length()).None? {
        MoreForArgs(fuel, more, args, env, w);
        var vs := EvalArgs(Flat, fuel, args, env, w);
        if vs.Vals? && h.value.Clo? {
          MoreFuel(fuel - 1, more - 1, h.value.lam.body, Enter(Flat, h.value, vs.vals, env), w);
        }
      }
  }

  lemma {:induction false} MoreForArgs(fuel: nat, more: nat, es: Asts, env: Env, w: World)
    requires fuel <= more && EvalArgs(Flat, fuel, es, env, w) != ArgsErr(OutOfFuel)
    ensures EvalArgs(Flat, more, es, env, w) == EvalArgs(Flat, fuel, es, env, w)
    decreases fuel, es, 0
  {
    if es.ACons? {
      MoreFuel(fuel, more, es.first, env, w);
      if Eval(Flat, fuel, es.first, env, w).Ok? { MoreForArgs(fuel, more, es.rest, env, w); }
    }
  }

  lemma {:induction false} MoreForLet(fuel: nat, more: nat, bs: Bindings, outer: Env, env: Env, w: World)
    requires fuel <= more && EvalLet(Flat, fuel, bs, outer, env, w) != ScopeErr(OutOfFuel)
    ensures EvalLet(Flat, more, bs, outer, env, w) == EvalLet(Flat, fuel, bs, outer, env, w)
    decreases fuel, bs, 0
  {
    if bs.BCons? {
      MoreFuel(fuel, more, bs.expr, outer, w);
      var r := Eval(Flat, fuel, bs.expr, outer, w);
      if r.Ok? { MoreForLet(fuel, more, bs.more, outer, Bind(bs.name, r.value, env), w); }
    }
  }

  lemma {:induction false} MoreForStar(fuel: nat, more: nat, bs: Bindings, env: Env, w: World)
    requires fuel <= more && EvalLetStar(Flat, fuel, bs, env, w) != ScopeErr(OutOfFuel)
    ensures EvalLetStar(Flat, more, bs, env, w) == EvalLetStar(Flat, fuel, bs, env, w)
    decreases fuel, bs, 0
  {
    if bs.BCons? {
      MoreFuel(fuel, more, bs.expr, env, w);
      var r := Eval(Flat, fuel, bs.expr, env, w);
      if r.Ok? { MoreForStar(fuel, more, bs.more, Bind(bs.name, r.value, env), w); }
    }
  }

  // ---------------------------------------------------------------------
  // What means a value is evaluated to it, if the calls may go deep enough.

  lemma {:induction false} MeansEval(k: nat, e: Ast, env: Env, w: World, v: Value)
    requires Means#[k](e, env, w, v)
    ensures Eval(Flat, k, e, env, w) == Ok(v)
    decreases k, 2
  {
    match e
    case Const(_) =>
    case Quote(_) =>
    case Var(x) => LookupSees(env, w, x, v);
    case If(t, a, b) =>
      var c :| Means#[k - 1](t, env, w, c) && Means#[k - 1](if c == VNil then b else a, env, w, v);
      EvalAt(k, t, env, w, c);
      EvalAt(k, if c == VNil then b else a, env, w, v);
    case Do(es) =>
      var vs :| MeanAll#[k - 1](es, env, w, vs) && v == LastOf(vs, VNil);
      ArgsAt(k, es, env, w, vs);
      DoEvaluates(k, es, VNil, env, w);
    case Let(bs, body) =>
      var vs :| |vs| == |NamesOf(bs)| && MeanAll#[k - 1](Exprs(bs), env, w, vs)
                && Means#[k - 1](body, Over(NamesOf(bs), vs, env), w, v);
      ArgsAt(k, Exprs(bs), env, w, vs);
      LetEvaluates(k, bs, env, env, w);
      EvalAt(k, body, Over(NamesOf(bs), vs, env), w, v);
    case LetStar(BNil, body) => EvalAt(k, body, env, w, v);
    case LetStar(BCons(x, d, more), body) =>
      var u :| Means#[k - 1](d, env, w, u) && Means#[k - 1](LetStar(more, body), Bind(x, u, env), w, v);
      EvalAt(k, d, env, w, u);
      EvalAt(k, LetStar(more, body), Bind(x, u, env), w, v);
    case Lambda(_, _, capture, _) =>
      var us :| AllSeen(env, w, capture, us) && v == Clo(e, Over(capture, us, Global));
      CaptureSees(capture, env, w, Global, us);
    case App(f, args) => CallEval(k, f, args, env, w, v);
  }

  lemma {:induction false} CallEval(k: nat, f: Ast, args: Asts, env: Env, w: World, v: Value)
    requires Means#[k](App(f, args), env, w, v)
    ensures Eval(Flat, k, App(f, args), env, w) == Ok(v)
    decreases k, 1
  {
    var h, vs :| Means#[k - 1](f, env, w, h) && MeanAll#[k - 1](args, env, w, vs)
                 && ((h.Prim? && h.arity == |vs| && w.prim(h.prim, vs) == Ok(v))
                     || (Takes(h, |vs|) && Means#[k - 1](h.lam.body, Inside(h, vs, env), w, v)));
    EvalAt(k, f, env, w, h);
    ArgsAt(k, args, env, w, vs);
    Calls(k, f, args, env, w, h, vs);
    if !h.Prim? { MeansEval(k - 1, h.lam.body, Inside(h, vs, env), w, v); }
  }

  lemma Calls(fuel: nat, f: Ast, args: Asts, env: Env, w: World, h: Value, vs: seq<Value>)
    requires Eval(Flat, fuel, f, env, w) == Ok(h) && EvalArgs(Flat, fuel, args, env, w) == Vals(vs)
    requires (h.Prim? && h.arity == |vs|) || (fuel > 0 && Takes(h, |vs|))
    ensures Eval(Flat, fuel, App(f, args), env, w) ==
              if h.Prim? then w.prim(h.prim, vs) else Eval(Flat, fuel - 1, h.lam.body, Inside(h, vs, env), w)
  {
    if !h.Prim? { EntersInside(h, vs, env); }
  }

  lemma {:induction false} EvalAt(k: nat, e: Ast, env: Env, w: World, v: Value)
    requires k > 0 && Means#[k - 1](e, env, w, v)
    ensures Eval(Flat, k, e, env, w) == Ok(v)
    decreases k, 0
  {
    MeansEval(k - 1, e, env, w, v);
    MoreFuel(k - 1, k, e, env, w);
  }

  lemma {:induction false} ArgsAt(k: nat, es: Asts, env: Env, w: World, vs: seq<Value>)
    requires k > 0 && MeanAll#[k - 1](es, env, w, vs)
    ensures EvalArgs(Flat, k, es, env, w) == Vals(vs)
    decreases k, 0
  {
    match es
    case ANil =>
    case ACons(e, rest) =>
      assert vs == [vs[0]] + vs[1..];
      EvalAt(k - 1, e, env, w, vs[0]);
      MoreFuel(k - 1, k, e, env, w);
      ArgsAt(k - 1, rest, env, w, vs[1..]);
      MoreForArgs(k - 1, k, rest, env, w);
  }

  // The evaluator comes to a value if and only if the program means it.
  lemma EvaluatesRight(e: Ast, env: Env, w: World, v: Value)
    ensures Means(e, env, w, v) <==> exists fuel :: Eval(Flat, fuel, e, env, w) == Ok(v)
  {
    if Means(e, env, w, v) {
      var k: nat :| Means#[k](e, env, w, v);
      MeansEval(k, e, env, w, v);
    }
    forall fuel: nat | Eval(Flat, fuel, e, env, w) == Ok(v) ensures Means(e, env, w, v) { EvalMeans(fuel, e, env, w); }
  }

  // A program means one value at most.
  lemma MeansOne(e: Ast, env: Env, w: World, u: Value, v: Value)
    requires Means(e, env, w, u) && Means(e, env, w, v)
    ensures u == v
  {
    var j: nat :| Means#[j](e, env, w, u);
    var k: nat :| Means#[k](e, env, w, v);
    MeansEval(j, e, env, w, u);
    MeansEval(k, e, env, w, v);
    if j <= k { MoreFuel(j, k, e, env, w); } else { MoreFuel(k, j, e, env, w); }
  }

  // ---------------------------------------------------------------------
  // What is seen inside a call.

  lemma {:induction false} OverSees(names: seq<string>, vs: seq<Value>, env: Env, w: World, x: string, v: Value)
    requires |names| == |vs|
    ensures x !in names ==> (Seen(Over(names, vs, env), w, x, v) <==> Seen(env, w, x, v))
    ensures forall i :: 0 <= i < |names| && names[i] == x && x !in names[i + 1..] ==>
              (Seen(Over(names, vs, env), w, x, v) <==> v == vs[i])
  {
    if names != [] {
      var last := |names| - 1;
      assert names == names[..last] + [names[last]];
      OverSees(names[..last], vs[..last], env, w, x, v);
      forall i | 0 <= i < |names| && names[i] == x && x !in names[i + 1..]
        ensures Seen(Over(names, vs, env), w, x, v) <==> v == vs[i]
      {
        if i < last { assert names[last] in names[i + 1..]; assert names[..last][i + 1..] <= names[i + 1..]; }
      }
    }
  }

  lemma {:induction false} AppendSees(top: Env, base: Env, w: World, x: string, v: Value)
    ensures Seen(Append(top, base), w, x, v) <==> if x in top.Names() then v == top.Get(x) else Seen(base, w, x, v)
  {
    if top.Bind? { AppendSees(top.parent, base, w, x, v); }
  }

  // The last parameter of the name, or else the function under its own name, or else the
  // captured variable, or else what the caller sees.
  lemma InsideSees(h: Value, vs: seq<Value>, caller: Env, w: World, x: string, v: Value)
    requires Takes(h, |vs|)
    ensures forall i :: 0 <= i < |vs| && h.lam.params[i] == x && x !in h.lam.params[i + 1..] ==>
              (Seen(Inside(h, vs, caller), w, x, v) <==> v == vs[i])
    ensures x !in h.lam.params && x == h.lam.self && x != "" ==> (Seen(Inside(h, vs, caller), w, x, v) <==> v == h)
    ensures x !in h.lam.params && (x != h.lam.self || x == "") ==>
              (Seen(Inside(h, vs, caller), w, x, v) <==>
               if x in h.env.Names() then v == h.env.Get(x) else Seen(caller, w, x, v))
  {
    var captured := Append(h.env, caller);
    OverSees(h.lam.params, vs, if h.lam.self == "" then captured else Bind(h.lam.self, h, captured), w, x, v);
    AppendSees(h.env, caller, w, x, v);
  }
}
