// The interpreter as it runs: environments rebound in loops, one per construct,
// proved to compute what the evaluation function says.
module Evaluator {
  import opened Lisp
  import opened Options

  function Size(e: Ast): nat {
    match e
    case If(t, a, b) => 1 + Size(t) + Size(a) + Size(b)
    case Do(es) => 1 + SizeAll(es)
    case Let(bs, body) => 1 + SizeLet(bs) + Size(body)
    case LetStar(bs, body) => 1 + SizeLet(bs) + Size(body)
    case App(f, args) => 1 + Size(f) + SizeAll(args)
    case _ => 1
  }

  function SizeAll(es: Asts): nat {
    match es
    case ANil => 0
    case ACons(e, rest) => 1 + Size(e) + SizeAll(rest)
  }

  function SizeLet(bs: Bindings): nat {
    match bs
    case BNil => 0
    case BCons(_, e, more) => 1 + Size(e) + SizeLet(more)
  }

  // What follows after the values vs have been computed, with the rest still to do.
  function Then(vs: seq<Value>, rest: Args): Args {
    match rest
    case Vals(ws) => Vals(vs + ws)
    case bad => bad
  }

  method Evaluate(fuel: nat, e: Ast, env: Env, w: World) returns (r: Res)
    ensures r == Eval(Flat, fuel, e, env, w)
    decreases fuel, Size(e), 0
  {
    match e
    case Const(v) => return Ok(v);
    case Var(x) => return Lookup(env, w, x);
    case Quote(v) => return Ok(v);
    case If(t, a, b) =>
      r := Evaluate(fuel, t, env, w);
      if r.Ok? {
        if r.value != VNil {
          r := Evaluate(fuel, a, env, w);
        } else {
          r := Evaluate(fuel, b, env, w);
        }
      }
    case Do(es) =>
      var it, val := es, VNil;
      while it.ACons?
        invariant SizeAll(it) < Size(e) && EvalDo(Flat, fuel, it, val, env, w) == Eval(Flat, fuel, e, env, w)
        decreases SizeAll(it)
      {
        r := Evaluate(fuel, it.first, env, w);
        if !r.Ok? { return; }
        val, it := r.value, it.rest;
      }
      r := Ok(val);
    case Let(bs, body) =>
      var it, inner := bs, env;
      while it.BCons?
        invariant SizeLet(it) < Size(e)
                  && EvalLet(Flat, fuel, it, env, inner, w) == EvalLet(Flat, fuel, bs, env, env, w)
        decreases SizeLet(it)
      {
        r := Evaluate(fuel, it.expr, env, w);
        if !r.Ok? { return; }
        inner, it := Bind(it.name, r.value, inner), it.more;
      }
      r := Evaluate(fuel, body, inner, w);
    case LetStar(bs, body) =>
      var it, inner := bs, env;
      while it.BCons?
        invariant SizeLet(it) < Size(e) && EvalLetStar(Flat, fuel, it, inner, w) == EvalLetStar(Flat, fuel, bs, env, w)
        decreases SizeLet(it)
      {
        r := Evaluate(fuel, it.expr, inner, w);
        if !r.Ok? { return; }
        inner, it := Bind(it.name, r.value, inner), it.more;
      }
      r := Evaluate(fuel, body, inner, w);
    case Lambda(_, _, capture, _) =>
      var i, closure := 0, Global;
      while i < |capture|
        invariant 0 <= i <= |capture| && Capture(capture[i..], env, w, closure) == Capture(capture, env, w, Global)
      {
        var v := Lookup(env, w, capture[i]);
        if !v.Ok? { return v; }
        closure, i := Bind(capture[i], v.value, closure), i + 1;
      }
      r := Ok(Clo(e, closure));
    case App(f, args) =>
      r := Evaluate(fuel, f, env, w);
      if r.Ok? {
        r := Apply(fuel, r.value, args, env, w);
      }
  }

  // The part of an application that follows the evaluation of its head.
  method Apply(fuel: nat, h: Value, args: Asts, env: Env, w: World) returns (r: Res)
    ensures r == match CheckCall(h, args.Length())
                 case Some(err) => Err(err)
                 case None => (
                   match EvalArgs(Flat, fuel, args, env, w)
                   case Vals(vs) => if h.Prim? then w.prim(h.prim, vs)
                                    else if fuel == 0 then OutOfFuel
                                    else Eval(Flat, fuel - 1, h.lam.body, Enter(Flat, h, vs, env), w)
                   case ArgsErr(q) => q)
    decreases fuel, SizeAll(args), 1
  {
    var check := CheckCall(h, args.Length());
    if check.Some? { return Err(check.value); }
    var it, evaluated: seq<Value> := args, [];
    while it.ACons?
      invariant SizeAll(it) <= SizeAll(args) && |evaluated| + it.Length() == args.Length()
      invariant EvalArgs(Flat, fuel, args, env, w) == Then(evaluated, EvalArgs(Flat, fuel, it, env, w))
      decreases SizeAll(it)
    {
      r := Evaluate(fuel, it.first, env, w);
      if !r.Ok? { return; }
      assert forall vs: seq<Value> :: evaluated + ([r.value] + vs) == evaluated + [r.value] + vs;
      evaluated, it := evaluated + [r.value], it.rest;
    }
    assert evaluated + [] == evaluated;
    if h.Prim? { return w.prim(h.prim, evaluated); }
    if fuel == 0 { return OutOfFuel; }
    r := ApplyAst(fuel - 1, h, env, evaluated, w);
  }

  // applyAST, without the call count: captured variables, then the function itself,
  // then the arguments, on top of the environment of the caller.
  method ApplyAst(fuel: nat, fn: Value, caller: Env, args: seq<Value>, w: World) returns (r: Res)
    requires fn.Clo? && fn.lam.Lambda? && |args| == |fn.lam.params|
    ensures r == Eval(Flat, fuel, fn.lam.body, Enter(Flat, fn, args, caller), w)
    decreases fuel, Size(fn.lam.body), 1
  {
    var env := Append(fn.env, caller);
    if fn.lam.self != "" {
      env := Bind(fn.lam.self, fn, env);
    }
    var i := 0;
    while i < |args|
      invariant 0 <= i <= |args|
      invariant BindParams(fn.lam.params[i..], args[i..], env) == Enter(Flat, fn, args, caller)
    {
      env := Bind(fn.lam.params[i], args[i], env);
      i := i + 1;
    }
    r := Evaluate(fuel, fn.lam.body, env, w);
  }
}
