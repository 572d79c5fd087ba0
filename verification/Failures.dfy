// The rules for programs that fail, and the proof that the evaluator follows them too.
module Failures {
  import opened BigStep
  import opened Lisp
  import opened Options

  predicate Unseen(env: Env, w: World, x: string) { x !in env.Names() && x !in w.globals }

  predicate IsFunction(h: Value) { h.Prim? || (h.Clo? && h.lam.Lambda?) }

  predicate Accepts(h: Value, n: nat) { (h.Prim? && h.arity == n) || Takes(h, n) }

  // The branch that is taken.
  function Taken(c: Value, a: Ast, b: Ast): Ast { if c == VNil then b else a }

  // The function and its arguments, evaluated.
  ghost predicate Ready(f: Ast, args: Asts, env: Env, w: World, h: Value, vs: seq<Value>) {
    Means(f, env, w, h) && MeanAll(args, env, w, vs)
  }

  // Why h cannot be called with n arguments.
  predicate Refuses(h: Value, n: nat, x: Error) {
    !Accepts(h, n) && x == if IsFunction(h) then WrongArity else NotAFunction
  }

  // e fails with the error x: a name that is not seen, a call of what cannot be called, or a
  // native function; parts fail in the order in which they are needed.
  least predicate Fails[nat](e: Ast, env: Env, w: World, x: Error) {
    match e
    case Const(_) => false
    case Quote(_) => false
    case Var(y) => x == UnknownVariable && Unseen(env, w, y)
    case If(t, a, b) =>
      Fails(t, env, w, x) || exists c :: Means(t, env, w, c) && Fails(Taken(c, a, b), env, w, x)
    case Do(es) => FailsIn(es, env, w, x)
    case Let(bs, body) =>
      || FailsIn(Exprs(bs), env, w, x)
      || exists vs :: |vs| == |NamesOf(bs)| && MeanAll(Exprs(bs), env, w, vs)
                      && Fails(body, Over(NamesOf(bs), vs, env), w, x)
    case LetStar(BNil, body) => Fails(body, env, w, x)
    case LetStar(BCons(y, d, more), body) =>
      Fails(d, env, w, x) || exists u :: Means(d, env, w, u) && Fails(LetStar(more, body), Bind(y, u, env), w, x)
    case Lambda(_, _, capture, _) => x == UnknownVariable && exists y :: y in capture && Unseen(env, w, y)
    case App(f, args) =>
      || Fails(f, env, w, x)
      || (exists h :: Means(f, env, w, h) && Refuses(h, args.Length(), x))
      || (FailsIn(args, env, w, x) && exists h :: Means(f, env, w, h) && Accepts(h, args.Length()))
      || exists h, vs :: Ready(f, args, env, w, h, vs)
                         && ((h.Prim? && h.arity == |vs| && w.prim(h.prim, vs) == Err(x))
                             || (Takes(h, |vs|) && Fails(h.lam.body, Inside(h, vs, env), w, x)))
  }

  // One of es fails, and those before it do not.
  least predicate FailsIn[nat](es: Asts, env: Env, w: World, x: Error) {
    match es
    case ANil => false
    case ACons(e, rest) => Fails(e, env, w, x) || (FailsIn(rest, env, w, x) && exists v :: Means(e, env, w, v))
  }

  lemma {:induction false} LookupMisses(env: Env, w: World, x: string, r: Error)
    ensures Lookup(env, w, x) == Err(r) <==> Unseen(env, w, x) && r == UnknownVariable
  {
  }

  lemma {:induction false} CaptureMisses(xs: seq<string>, env: Env, w: World, base: Env, r: Error)
    ensures Capture(xs, env, w, base) == ScopeErr(Err(r)) <==>
            r == UnknownVariable && exists x :: x in xs && Unseen(env, w, x)
    decreases |xs|
  {
    if xs != [] {
      assert xs == [xs[0]] + xs[1..];
      if Lookup(env, w, xs[0]).Ok? {
        CaptureMisses(xs[1..], env, w, Bind(xs[0], Lookup(env, w, xs[0]).value, base), r);
      } else {
        assert xs[0] in xs && Unseen(env, w, xs[0]);
      }
    }
  }

  lemma RefusesRight(h: Value, n: nat, x: Error)
    ensures CheckCall(h, n) == Some(x) <==> Refuses(h, n, x)
    ensures CheckCall(h, n) == None <==> Accepts(h, n)
  {
  }

  lemma {:induction false} AsMany(es: Asts, env: Env, w: World, vs: seq<Value>)
    requires MeanAll(es, env, w, vs)
    ensures |vs| == es.Length()
  {
    if es.ACons? { AsMany(es.rest, env, w, vs[1..]); }
  }

  // ---------------------------------------------------------------------
  // Where evaluation fails the program does.

  lemma {:induction false} EvalFails(fuel: nat, e: Ast, env: Env, w: World, x: Error)
    requires Eval(Flat, fuel, e, env, w) == Err(x)
    ensures Fails(e, env, w, x)
    decreases fuel, e, 1
  {
    match e
    case Var(y) => LookupMisses(env, w, y, x);
    case If(t, a, b) =>
      var r := Eval(Flat, fuel, t, env, w);
      if r.Ok? {
        EvalMeans(fuel, t, env, w);
        EvalFails(fuel, Taken(r.value, a, b), env, w, x);
        assert Means(t, env, w, r.value) && Fails(Taken(r.value, a, b), env, w, x);
      } else {
        EvalFails(fuel, t, env, w, x);
      }
    case Do(es) =>
      DoEvaluates(fuel, es, VNil, env, w);
      ArgsFails(fuel, es, env, w, x);
    case Let(bs, body) =>
      LetEvaluates(fuel, bs, env, env, w);
      var r := EvalArgs(Flat, fuel, Exprs(bs), env, w);
      if r.Vals? {
        ExprsMean(fuel, bs, env, w);
        EvalFails(fuel, body, Over(NamesOf(bs), r.vals, env), w, x);
        assert MeanAll(Exprs(bs), env, w, r.vals);
      } else {
        ExprsFail(fuel, bs, env, w, x);
      }
    case LetStar(bs, body) =>
      var inner := EvalLetStar(Flat, fuel, bs, env, w);
      if inner.Envr? { EvalFails(fuel, body, inner.env, w, x); }
      StarFailsToo(fuel, bs, body, env, w, x);
    case Lambda(_, _, capture, _) => CaptureMisses(capture, env, w, Global, x);
    case App(f, args) => CallFails(fuel, f, args, env, w, x);
  }

  lemma {:induction false} ArgsFails(fuel: nat, es: Asts, env: Env, w: World, x: Error)
    requires EvalArgs(Flat, fuel, es, env, w) == ArgsErr(Err(x))
    ensures FailsIn(es, env, w, x)
    decreases fuel, es, 0
  {
    var r := Eval(Flat, fuel, es.first, env, w);
    if r.Ok? {
      EvalMeans(fuel, es.first, env, w);
      ArgsFails(fuel, es.rest, env, w, x);
      assert Means(es.first, env, w, r.value);
    } else {
      EvalFails(fuel, es.first, env, w, x);
    }
  }

  lemma {:induction false} ExprsFail(fuel: nat, bs: Bindings, env: Env, w: World, x: Error)
    requires EvalArgs(Flat, fuel, Exprs(bs), env, w) == ArgsErr(Err(x))
    ensures FailsIn(Exprs(bs), env, w, x)
    decreases fuel, bs, 0
  {
    var r := Eval(Flat, fuel, bs.expr, env, w);
    if r.Ok? {
      EvalMeans(fuel, bs.expr, env, w);
      ExprsFail(fuel, bs.more, env, w, x);
      assert Means(bs.expr, env, w, r.value);
    } else {
      EvalFails(fuel, bs.expr, env, w, x);
    }
  }

  lemma {:induction false} StarFailsToo(fuel: nat, bs: Bindings, body: Ast, env: Env, w: World, x: Error)
    requires match EvalLetStar(Flat, fuel, bs, env, w)
             case Envr(inner) => Fails(body, inner, w, x)
             case ScopeErr(r) => r == Err(x)
    ensures Fails(LetStar(bs, body), env, w, x)
    decreases fuel, bs, 0
  {
    match bs
    case BNil =>
    case BCons(y, d, more) =>
      var r := Eval(Flat, fuel, d, env, w);
      if r.Ok? {
        EvalMeans(fuel, d, env, w);
        StarFailsToo(fuel, more, body, Bind(y, r.value, env), w, x);
        assert Means(d, env, w, r.value) && Fails(LetStar(more, body), Bind(y, r.value, env), w, x);
      } else {
        EvalFails(fuel, d, env, w, x);
      }
  }

  lemma {:induction false} CallFails(fuel: nat, f: Ast, args: Asts, env: Env, w: World, x: Error)
    requires Eval(Flat, fuel, App(f, args), env, w) == Err(x)
    ensures Fails(App(f, args), env, w, x)
    decreases fuel, App(f, args), 0
  {
    var r := Eval(Flat, fuel, f, env, w);
    if r.Ok? {
      EvalMeans(fuel, f, env, w);
      RefusesRight(r.value, args.Length(), x);
      if Refuses(r.value, args.Length(), x) {
        assert Means(f, env, w, r.value);
      } else {
        var q := EvalArgs(Flat, fuel, args, env, w);
        if q.Vals? {
          ArgsMean(fuel, args, env, w);
          if !r.value.Prim? {
            EntersInside(r.value, q.vals, env);
            EvalFails(fuel - 1, r.value.lam.body, Enter(Flat, r.value, q.vals, env), w, x);
          }
          InCallFails(f, args, env, w, r.value, q.vals, x);
        } else {
          ArgsFails(fuel, args, env, w, x);
          assert Means(f, env, w, r.value);
        }
      }
    } else {
      EvalFails(fuel, f, env, w, x);
    }
  }

  lemma InCallFails(f: Ast, args: Asts, env: Env, w: World, h: Value, vs: seq<Value>, x: Error)
    requires Means(f, env, w, h) && MeanAll(args, env, w, vs)
    requires if h.Prim? then h.arity == |vs| && w.prim(h.prim, vs) == Err(x)
             else Takes(h, |vs|) && Fails(h.lam.body, Inside(h, vs, env), w, x)
    ensures Fails(App(f, args), env, w, x)
  {
    assert Ready(f, args, env, w, h, vs);
  }

  // ---------------------------------------------------------------------
  // Where the program fails evaluation does, if the calls may go deep enough.

  lemma ValueAt(e: Ast, env: Env, w: World, v: Value) returns (fuel: nat)
    requires Means(e, env, w, v)
    ensures Eval(Flat, fuel, e, env, w) == Ok(v)
  {
    fuel :| Means#[fuel](e, env, w, v);
    MeansEval(fuel, e, env, w, v);
  }

  lemma ValuesAt(es: Asts, env: Env, w: World, vs: seq<Value>) returns (fuel: nat)
    requires MeanAll(es, env, w, vs)
    ensures EvalArgs(Flat, fuel, es, env, w) == Vals(vs)
  {
    var k: nat :| MeanAll#[k](es, env, w, vs);
    fuel := k + 1;
    ArgsAt(fuel, es, env, w, vs);
  }

  function Max(a: nat, b: nat): nat { if a < b then b else a }

  lemma {:induction false} FailsEval(k: nat, e: Ast, env: Env, w: World, x: Error) returns (fuel: nat)
    requires Fails#[k](e, env, w, x)
    ensures Eval(Flat, fuel, e, env, w) == Err(x)
    decreases k, 2
  {
    match e
    case Var(y) =>
      fuel := 0;
      LookupMisses(env, w, y, x);
    case If(t, a, b) => fuel := IfFailsEval(k, t, a, b, env, w, x);
    case Do(es) =>
      fuel := FailsArgs(k - 1, es, env, w, x);
      DoEvaluates(fuel, es, VNil, env, w);
    case Let(bs, body) => fuel := LetFailsEval(k, bs, body, env, w, x);
    case LetStar(bs, body) => fuel := StarFailsEval(k, bs, body, env, w, x);
    case Lambda(_, _, capture, _) =>
      fuel := 0;
      CaptureMisses(capture, env, w, Global, x);
    case App(f, args) => fuel := CallFailsEval(k, f, args, env, w, x);
  }

  lemma {:induction false} IfFailsEval(k: nat, t: Ast, a: Ast, b: Ast, env: Env, w: World, x: Error)
      returns (fuel: nat)
    requires Fails#[k](If(t, a, b), env, w, x)
    ensures Eval(Flat, fuel, If(t, a, b), env, w) == Err(x)
    decreases k, 0
  {
    if Fails#[k - 1](t, env, w, x) {
      fuel := FailsEval(k - 1, t, env, w, x);
    } else {
      var c :| Means(t, env, w, c) && Fails#[k - 1](Taken(c, a, b), env, w, x);
      var i := ValueAt(t, env, w, c);
      var j := FailsEval(k - 1, Taken(c, a, b), env, w, x);
      fuel := Max(i, j);
      IfAt(i, j, t, a, b, env, w, c);
    }
  }

  lemma IfAt(i: nat, j: nat, t: Ast, a: Ast, b: Ast, env: Env, w: World, c: Value)
    requires Eval(Flat, i, t, env, w) == Ok(c)
    requires Eval(Flat, j, Taken(c, a, b), env, w) != OutOfFuel
    ensures Eval(Flat, Max(i, j), If(t, a, b), env, w) == Eval(Flat, j, Taken(c, a, b), env, w)
  {
    BothAt(i, j, t, Taken(c, a, b), env, env, w);
  }

  // Both evaluations with the fuel that is enough for either.
  lemma BothAt(i: nat, j: nat, d: Ast, e: Ast, env: Env, inner: Env, w: World)
    requires Eval(Flat, i, d, env, w) != OutOfFuel && Eval(Flat, j, e, inner, w) != OutOfFuel
    ensures Eval(Flat, Max(i, j), d, env, w) == Eval(Flat, i, d, env, w)
    ensures Eval(Flat, Max(i, j), e, inner, w) == Eval(Flat, j, e, inner, w)
  {
    MoreFuel(i, Max(i, j), d, env, w);
    MoreFuel(j, Max(i, j), e, inner, w);
  }

  lemma {:induction false} FailsArgs(k: nat, es: Asts, env: Env, w: World, x: Error) returns (fuel: nat)
    requires FailsIn#[k](es, env, w, x)
    ensures EvalArgs(Flat, fuel, es, env, w) == ArgsErr(Err(x))
    decreases k, 0
  {
    if Fails#[k - 1](es.first, env, w, x) {
      fuel := FailsEval(k - 1, es.first, env, w, x);
    } else {
      var v :| Means(es.first, env, w, v);
      var i := ValueAt(es.first, env, w, v);
      var j := FailsArgs(k - 1, es.rest, env, w, x);
      fuel := Max(i, j);
      MoreFuel(i, fuel, es.first, env, w);
      MoreForArgs(j, fuel, es.rest, env, w);
    }
  }

  lemma {:induction false} LetFailsEval(k: nat, bs: Bindings, body: Ast, env: Env, w: World, x: Error)
      returns (fuel: nat)
    requires Fails#[k](Let(bs, body), env, w, x)
    ensures Eval(Flat, fuel, Let(bs, body), env, w) == Err(x)
    decreases k, 0
  {
    if FailsIn#[k - 1](Exprs(bs), env, w, x) {
      fuel := FailsArgs(k - 1, Exprs(bs), env, w, x);
    } else {
      var vs :| |vs| == |NamesOf(bs)| && MeanAll(Exprs(bs), env, w, vs)
                && Fails#[k - 1](body, Over(NamesOf(bs), vs, env), w, x);
      var i := ValuesAt(Exprs(bs), env, w, vs);
      var j := FailsEval(k - 1, body, Over(NamesOf(bs), vs, env), w, x);
      fuel := Max(i, j);
      MoreForArgs(i, fuel, Exprs(bs), env, w);
      MoreFuel(j, fuel, body, Over(NamesOf(bs), vs, env), w);
    }
    LetEvaluates(fuel, bs, env, env, w);
  }

  lemma {:induction false} StarFailsEval(k: nat, bs: Bindings, body: Ast, env: Env, w: World, x: Error)
      returns (fuel: nat)
    requires Fails#[k](LetStar(bs, body), env, w, x)
    ensures Eval(Flat, fuel, LetStar(bs, body), env, w) == Err(x)
    decreases k, 1
  {
    match bs
    case BNil => fuel := FailsEval(k - 1, body, env, w, x);
    case BCons(y, d, more) => fuel := BindingFailsEval(k, y, d, more, body, env, w, x);
  }

  lemma {:induction false} BindingFailsEval(k: nat, y: string, d: Ast, more: Bindings, body: Ast, env: Env, w: World,
        x: Error) returns (fuel: nat)
    requires Fails#[k](LetStar(BCons(y, d, more), body), env, w, x)
    ensures Eval(Flat, fuel, LetStar(BCons(y, d, more), body), env, w) == Err(x)
    decreases k, 0
  {
    if Fails#[k - 1](d, env, w, x) {
      fuel := FailsEval(k - 1, d, env, w, x);
    } else {
      var u :| Means(d, env, w, u) && Fails#[k - 1](LetStar(more, body), Bind(y, u, env), w, x);
      var i := ValueAt(d, env, w, u);
      var j := FailsEval(k - 1, LetStar(more, body), Bind(y, u, env), w, x);
      fuel := Max(i, j);
      StarAt(i, j, y, d, more, body, env, w, u);
    }
  }

  lemma StarAt(i: nat, j: nat, y: string, d: Ast, more: Bindings, body: Ast, env: Env, w: World, u: Value)
    requires Eval(Flat, i, d, env, w) == Ok(u) && Eval(Flat, j, LetStar(more, body), Bind(y, u, env), w) != OutOfFuel
    ensures Eval(Flat, Max(i, j), LetStar(BCons(y, d, more), body), env, w) ==
              Eval(Flat, j, LetStar(more, body), Bind(y, u, env), w)
  {
    BothAt(i, j, d, LetStar(more, body), env, Bind(y, u, env), w);
  }

  lemma {:induction false} CallFailsEval(k: nat, f: Ast, args: Asts, env: Env, w: World, x: Error)
      returns (fuel: nat)
    requires Fails#[k](App(f, args), env, w, x)
    ensures Eval(Flat, fuel, App(f, args), env, w) == Err(x)
    decreases k, 1
  {
    if Fails#[k - 1](f, env, w, x) {
      fuel := FailsEval(k - 1, f, env, w, x);
    } else if h :| Means(f, env, w, h) && Refuses(h, args.Length(), x) {
      fuel := ValueAt(f, env, w, h);
      RefusesRight(h, args.Length(), x);
    } else if FailsIn#[k - 1](args, env, w, x) && exists h :: Means(f, env, w, h) && Accepts(h, args.Length()) {
      var h :| Means(f, env, w, h) && Accepts(h, args.Length());
      var j := FailsArgs(k - 1, args, env, w, x);
      fuel := ArgsFailAt(f, args, env, w, h, j, x);
    } else {
      fuel := BodyFailsEval(k, f, args, env, w, x);
    }
  }

  lemma {:induction false} BodyFailsEval(k: nat, f: Ast, args: Asts, env: Env, w: World, x: Error)
      returns (fuel: nat)
    requires k > 0 && exists h, vs :: Ready(f, args, env, w, h, vs)
                                      && ((h.Prim? && h.arity == |vs| && w.prim(h.prim, vs) == Err(x))
                                          || (Takes(h, |vs|) && Fails#[k - 1](h.lam.body, Inside(h, vs, env), w, x)))
    ensures Eval(Flat, fuel, App(f, args), env, w) == Err(x)
    decreases k, 0
  {
    var h, vs :| Ready(f, args, env, w, h, vs)
                 && ((h.Prim? && h.arity == |vs| && w.prim(h.prim, vs) == Err(x))
                     || (Takes(h, |vs|) && Fails#[k - 1](h.lam.body, Inside(h, vs, env), w, x)));
    var l := 0;
    if !h.Prim? { l := FailsEval(k - 1, h.lam.body, Inside(h, vs, env), w, x); }
    fuel := CallAt(f, args, env, w, h, vs, l, x);
  }

  // A call fails where its arguments do.
  lemma ArgsFailAt(f: Ast, args: Asts, env: Env, w: World, h: Value, j: nat, x: Error) returns (fuel: nat)
    requires Means(f, env, w, h) && Accepts(h, args.Length()) && EvalArgs(Flat, j, args, env, w) == ArgsErr(Err(x))
    ensures Eval(Flat, fuel, App(f, args), env, w) == Err(x)
  {
    var i := ValueAt(f, env, w, h);
    fuel := Max(i, j);
    MoreFuel(i, fuel, f, env, w);
    MoreForArgs(j, fuel, args, env, w);
    RefusesRight(h, args.Length(), x);
  }

  // And where what is called does.
  lemma CallAt(f: Ast, args: Asts, env: Env, w: World, h: Value, vs: seq<Value>, l: nat, x: Error)
      returns (fuel: nat)
    requires Means(f, env, w, h) && MeanAll(args, env, w, vs)
    requires if h.Prim? then h.arity == |vs| && w.prim(h.prim, vs) == Err(x)
             else Takes(h, |vs|) && Eval(Flat, l, h.lam.body, Inside(h, vs, env), w) == Err(x)
    ensures Eval(Flat, fuel, App(f, args), env, w) == Err(x)
  {
    var i := ValueAt(f, env, w, h);
    var j := ValuesAt(args, env, w, vs);
    fuel := Max(Max(i, j), l + 1);
    MoreFuel(i, fuel, f, env, w);
    MoreForArgs(j, fuel, args, env, w);
    Calls(fuel, f, args, env, w, h, vs);
    if !h.Prim? { MoreFuel(l, fuel - 1, h.lam.body, Inside(h, vs, env), w); }
  }

  // The evaluator comes to an error if and only if the program fails with it.
  lemma FailsRight(e: Ast, env: Env, w: World, x: Error)
    ensures Fails(e, env, w, x) <==> exists fuel :: Eval(Flat, fuel, e, env, w) == Err(x)
  {
    if Fails(e, env, w, x) {
      var k: nat :| Fails#[k](e, env, w, x);
      var fuel := FailsEval(k, e, env, w, x);
    }
    forall fuel: nat | Eval(Flat, fuel, e, env, w) == Err(x) ensures Fails(e, env, w, x) {
      EvalFails(fuel, e, env, w, x);
    }
  }
}
