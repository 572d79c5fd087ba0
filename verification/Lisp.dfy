// Analysed programs, values, and the evaluator.
module Lisp {
  import opened Options

  datatype Ast =
    | Const(val: Value)                        // numbers, characters, strings, nil
    | Var(name: string)
    | Quote(datum: Value)
    | If(test: Ast, thenBranch: Ast, elseBranch: Ast)
    | Do(exprs: Asts)
    | Let(bindings: Bindings, body: Ast)
    | LetStar(bindings: Bindings, body: Ast)
    | Lambda(self: string, params: seq<string>, capture: seq<string>, body: Ast)
    | App(fun: Ast, args: Asts)

  datatype Asts = ANil | ACons(first: Ast, rest: Asts) {
    function Length(): nat { if ANil? then 0 else 1 + rest.Length() }
  }

  datatype Bindings = BNil | BCons(name: string, expr: Ast, more: Bindings) {
    function Names(): set<string> { if BNil? then {} else {name} + more.Names() }
  }

  datatype Value =
    | VNil | Num(n: int) | Flo(text: string) | Chr(c: char) | Str(s: string) | Sym(id: string)
    | Cons(head: Value, tail: Value)
    | Clo(lam: Ast, env: Env)
    | Prim(prim: string, arity: nat)

  // EvalScope: a chain of bindings, ending at the global scope.
  datatype Env = Global | Bind(name: string, val: Value, parent: Env) {
    function Names(): set<string> { if Global? then {} else {name} + parent.Names() }

    function Get(x: string): Value
      requires x in Names()
    {
      if name == x then val else parent.Get(x)
    }
  }

  datatype Error = UnknownVariable | NotAFunction | WrongArity | PrimError

  datatype Res = Ok(value: Value) | Err(error: Error) | OutOfFuel

  datatype Args = Vals(vals: seq<Value>) | ArgsErr(r: Res)
  datatype Scope = Envr(env: Env) | ScopeErr(r: Res)

  // Flat closures keep the captured variables only and are applied in the environment
  // of the caller; Deep closures, the reference, keep their whole environment.
  datatype Mode = Flat | Deep

  // The global scope, and what the native functions compute.
  datatype World = World(globals: map<string, Value>, prim: (string, seq<Value>) -> Res)

  function Lookup(env: Env, w: World, x: string): Res {
    if x in env.Names() then Ok(env.Get(x))
    else if x in w.globals then Ok(w.globals[x])
    else Err(UnknownVariable)
  }

  // The captured variables, in order, on top of base.
  function Capture(names: seq<string>, env: Env, w: World, base: Env): Scope {
    if names == [] then Envr(base) else
      match Lookup(env, w, names[0])
      case Ok(v) => Capture(names[1..], env, w, Bind(names[0], v, base))
      case r => ScopeErr(r)
  }

  // The bindings of top on top of those of base.
  function Append(top: Env, base: Env): (e: Env)
    ensures e.Names() == top.Names() + base.Names()
  {
    match top
    case Global => base
    case Bind(x, v, parent) => Bind(x, v, Append(parent, base))
  }

  function BindParams(params: seq<string>, args: seq<Value>, env: Env): Env
    requires |params| == |args|
  {
    if params == [] then env else BindParams(params[1..], args[1..], Bind(params[0], args[0], env))
  }

  function BindSelf(f: Value, env: Env): Env
    requires f.Clo? && f.lam.Lambda?
  {
    if f.lam.self == "" then env else Bind(f.lam.self, f, env)
  }

  // applyAST: the environment in which the body of f is evaluated.
  function Enter(mode: Mode, f: Value, args: seq<Value>, caller: Env): Env
    requires f.Clo? && f.lam.Lambda? && |args| == |f.lam.params|
  {
    var base := if mode == Flat then Append(f.env, caller) else f.env;
    BindParams(f.lam.params, args, BindSelf(f, base))
  }

  // fuel bounds the depth of calls.
  function Eval(mode: Mode, fuel: nat, e: Ast, env: Env, w: World): Res
    decreases fuel, e, 1
  {
    match e
    case Const(v) => Ok(v)
    case Var(x) => Lookup(env, w, x)
    case Quote(v) => Ok(v)
    case If(t, a, b) => (
      match Eval(mode, fuel, t, env, w)
      case Ok(v) => if v != VNil then Eval(mode, fuel, a, env, w) else Eval(mode, fuel, b, env, w)
      case r => r)
    case Do(es) => EvalDo(mode, fuel, es, VNil, env, w)
    case Let(bs, body) => (
      match EvalLet(mode, fuel, bs, env, env, w)
      case Envr(inner) => Eval(mode, fuel, body, inner, w)
      case ScopeErr(r) => r)
    case LetStar(bs, body) => (
      match EvalLetStar(mode, fuel, bs, env, w)
      case Envr(inner) => Eval(mode, fuel, body, inner, w)
      case ScopeErr(r) => r)
    case Lambda(_, _, capture, _) =>
      if mode == Deep then Ok(Clo(e, env)) else (
        match Capture(capture, env, w, Global)
        case Envr(c) => Ok(Clo(e, c))
        case ScopeErr(r) => r)
    case App(f, args) => (
      match Eval(mode, fuel, f, env, w)
      case Ok(h) => (
        match CheckCall(h, args.Length())
        case Some(err) => Err(err)
        case None => (
          match EvalArgs(mode, fuel, args, env, w)
          case Vals(vs) =>
            if h.Prim? then w.prim(h.prim, vs)
            else if fuel == 0 then OutOfFuel
            else Eval(mode, fuel - 1, h.lam.body, Enter(mode, h, vs, env), w)
          case ArgsErr(r) => r))
      case r => r)
  }

  // Value::asLambda with an arity.
  function CheckCall(h: Value, n: nat): (r: Option<Error>)
    ensures r.None? ==> (h.Prim? && h.arity == n) || (h.Clo? && h.lam.Lambda? && |h.lam.params| == n)
  {
    match h
    case Prim(_, k) => if k == n then None else Some(WrongArity)
    case Clo(Lambda(_, ps, _, _), _) => if |ps| == n then None else Some(WrongArity)
    case _ => Some(NotAFunction)
  }

  function EvalDo(mode: Mode, fuel: nat, es: Asts, last: Value, env: Env, w: World): Res
    decreases fuel, es, 0
  {
    match es
    case ANil => Ok(last)
    case ACons(e, rest) => (
      match Eval(mode, fuel, e, env, w)
      case Ok(v) => EvalDo(mode, fuel, rest, v, env, w)
      case r => r)
  }

  function EvalArgs(mode: Mode, fuel: nat, es: Asts, env: Env, w: World): (r: Args)
    ensures r.Vals? ==> |r.vals| == es.Length()
    decreases fuel, es, 0
  {
    match es
    case ANil => Vals([])
    case ACons(e, rest) => (
      match Eval(mode, fuel, e, env, w)
      case Ok(v) => (
        match EvalArgs(mode, fuel, rest, env, w)
        case Vals(vs) => Vals([v] + vs)
        case bad => bad)
      case r => ArgsErr(r))
  }

  // The right-hand sides see outer, the environment of the let.
  function EvalLet(mode: Mode, fuel: nat, bs: Bindings, outer: Env, env: Env, w: World): Scope
    decreases fuel, bs, 0
  {
    match bs
    case BNil => Envr(env)
    case BCons(x, e, more) => (
      match Eval(mode, fuel, e, outer, w)
      case Ok(v) => EvalLet(mode, fuel, more, outer, Bind(x, v, env), w)
      case r => ScopeErr(r))
  }

  function EvalLetStar(mode: Mode, fuel: nat, bs: Bindings, env: Env, w: World): Scope
    decreases fuel, bs, 0
  {
    match bs
    case BNil => Envr(env)
    case BCons(x, e, more) => (
      match Eval(mode, fuel, e, env, w)
      case Ok(v) => EvalLetStar(mode, fuel, more, Bind(x, v, env), w)
      case r => ScopeErr(r))
  }
}
