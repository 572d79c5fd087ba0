// What the Fibonacci programs of the repository's tests compute.
module Programs {
  import opened Lisp
  import opened Options
  import opened Samples
  import BigStep

  const LONG_MAX: int := 0x7FFF_FFFF_FFFF_FFFF

  predicate IsLong(n: int) { -LONG_MAX - 1 <= n <= LONG_MAX }

  // The native functions on two numbers of the type long. What they do when the result is
  // none is undefined.
  predicate Arithmetic(w: World, a: int, b: int) {
    IsLong(a) && IsLong(b) ==>
      && w.prim("<", [Num(a), Num(b)]) == Ok(if a < b then Num(1) else VNil)
      && w.prim("=", [Num(a), Num(b)]) == Ok(if a == b then Num(1) else VNil)
      && (IsLong(a + b) ==> w.prim("+", [Num(a), Num(b)]) == Ok(Num(a + b)))
      && (IsLong(a - b) ==> w.prim("-", [Num(a), Num(b)]) == Ok(Num(a - b)))
  }

  ghost predicate Native(w: World) {
    forall a, b {:trigger Arithmetic(w, a, b)} :: Arithmetic(w, a, b)
  }

  // Where env is visible, f is the native function of that name.
  predicate SeesNative(env: Env, w: World, f: string) { Lookup(env, w, f) == Ok(Prim(f, 2)) }

  function Fib(n: int): int
    decreases if n < 0 then 0 else n
  {
    if n < 2 then n else Fib(n - 2) + Fib(n - 1)
  }

  lemma {:induction false} FibGrows(n: nat)
    ensures 0 <= Fib(n) <= Fib(n + 1)
  {
    if n > 0 { FibGrows(n - 1); }
    if n > 1 { FibGrows(n - 2); }
  }

  lemma ListOf(e: Ast, es: seq<Ast>)
    ensures List([e] + es) == ACons(e, List(es))
  {
    assert ([e] + es)[1..] == es;
  }

  lemma OneArg(fuel: nat, e: Ast, v: Value, env: Env, w: World)
    requires Eval(Flat, fuel, e, env, w) == Ok(v)
    ensures List([e]) == ACons(e, ANil) && EvalArgs(Flat, fuel, ACons(e, ANil), env, w) == Vals([v])
  {
    assert [v] + [] == [v];
  }

  // A call of a native function with two arguments.
  lemma NativeCall(fuel: nat, f: string, e0: Ast, e1: Ast, a: int, b: int, env: Env, w: World)
    requires SeesNative(env, w, f)
    requires Eval(Flat, fuel, e0, env, w) == Ok(Num(a)) && Eval(Flat, fuel, e1, env, w) == Ok(Num(b))
    ensures Eval(Flat, fuel, Call(f, [e0, e1]), env, w) == w.prim(f, [Num(a), Num(b)])
  {
    ListOf(e0, [e1]);
    OneArg(fuel, e1, Num(b), env, w);
    assert [e0] + [e1] == [e0, e1] && [Num(a)] + [Num(b)] == [Num(a), Num(b)];
  }

  ghost predicate FibWorld(env: Env, w: World) {
    && Native(w) && SeesNative(env, w, "<") && SeesNative(env, w, "+") && SeesNative(env, w, "-")
    && Lookup(env, w, "fib") == Ok(Clo(FIB, Global))
  }

  // Calling fib on what evaluates to n gives the n-th Fibonacci number, if that is a long.
  lemma {:induction false} FibIsFib(fuel: nat, arg: Ast, n: int, env: Env, w: World)
    requires FibWorld(env, w) && Eval(Flat, fuel, arg, env, w) == Ok(Num(n))
    requires IsLong(n) && IsLong(Fib(n)) && fuel >= 1 && fuel >= n
    ensures Eval(Flat, fuel, Call("fib", [arg]), env, w) == Ok(Num(Fib(n)))
    decreases fuel, 0
  {
    var inner := Bind("n", Num(n), Bind("fib", Clo(FIB, Global), env));
    FibEnters(fuel, arg, n, env, w);
    FibSees(n, env, w);
    if n >= 2 {
      FibGrows(n - 2);
      assert 0 <= Fib(n - 2) <= Fib(n - 1) <= Fib(n);
      FibLess(fuel - 1, 1, n, inner, w);
      FibLess(fuel - 1, 2, n, inner, w);
    }
    FibBody(fuel - 1, n, inner, w);
  }

  lemma {:induction false} FibLess(fuel: nat, k: int, n: int, inner: Env, w: World)
    requires FibWorld(inner, w) && Lookup(inner, w, "n") == Ok(Num(n)) && 1 <= k <= 2 <= n && n - 1 <= fuel
    requires IsLong(n) && IsLong(Fib(n - k))
    ensures Eval(Flat, fuel, FibAt(k), inner, w) == Ok(Num(Fib(n - k)))
    decreases fuel, 1
  {
    NativeCall(fuel, "-", Var("n"), Const(Num(k)), n, k, inner, w);
    assert Arithmetic(w, n, k);
    FibIsFib(fuel, Call("-", [Var("n"), Const(Num(k))]), n - k, inner, w);
  }

  lemma FibBody(fuel: nat, n: int, inner: Env, w: World)
    requires FibWorld(inner, w) && Lookup(inner, w, "n") == Ok(Num(n)) && IsLong(n) && IsLong(Fib(n))
    requires n >= 2 ==> IsLong(Fib(n - 2)) && IsLong(Fib(n - 1))
    requires n >= 2 ==> Eval(Flat, fuel, FibAt(1), inner, w) == Ok(Num(Fib(n - 1)))
    requires n >= 2 ==> Eval(Flat, fuel, FibAt(2), inner, w) == Ok(Num(Fib(n - 2)))
    ensures Eval(Flat, fuel, FIB.body, inner, w) == Ok(Num(Fib(n)))
  {
    NativeCall(fuel, "<", Var("n"), Const(Num(2)), n, 2, inner, w);
    assert Arithmetic(w, n, 2);
    if n >= 2 {
      NativeCall(fuel, "+", FibAt(2), FibAt(1), Fib(n - 2), Fib(n - 1), inner, w);
      assert Arithmetic(w, Fib(n - 2), Fib(n - 1));
    }
  }

  lemma LookupPast(env: Env, w: World, x: string, u: Value, y: string)
    ensures Lookup(Bind(x, u, env), w, y) == if x == y then Ok(u) else Lookup(env, w, y)
  {
  }

  lemma FibSees(n: int, env: Env, w: World)
    requires FibWorld(env, w)
    ensures FibWorld(Bind("n", Num(n), Bind("fib", Clo(FIB, Global), env)), w)
  {
    var own := Bind("fib", Clo(FIB, Global), env);
    forall f: string | f != "n"
      ensures Lookup(Bind("n", Num(n), own), w, f) == (if f == "fib" then Ok(Clo(FIB, Global)) else Lookup(env, w, f))
    {
      LookupPast(own, w, "n", Num(n), f);
      LookupPast(env, w, "fib", Clo(FIB, Global), f);
    }
  }

  lemma FibEnters(fuel: nat, arg: Ast, n: int, env: Env, w: World)
    requires Lookup(env, w, "fib") == Ok(Clo(FIB, Global)) && Eval(Flat, fuel, arg, env, w) == Ok(Num(n)) && fuel > 0
    ensures Eval(Flat, fuel, Call("fib", [arg]), env, w) ==
              Eval(Flat, fuel - 1, FIB.body, Bind("n", Num(n), Bind("fib", Clo(FIB, Global), env)), w)
  {
    OneArg(fuel, arg, Num(n), env, w);
    BigStep.Calls(fuel, Var("fib"), List([arg]), env, w, Clo(FIB, Global), [Num(n)]);
    OneOver("n", Num(n), Bind("fib", Clo(FIB, Global), env));
  }

  lemma OneOver(x: string, v: Value, env: Env)
    ensures BigStep.Over([x], [v], env) == Bind(x, v, env)
  {
    assert [x][..0] == [] && [v][..0] == [];
  }

  // ---------------------------------------------------------------------
  // The same numbers by a loop: each call is the last thing its caller does.

  ghost predicate TailWorld(env: Env, w: World) {
    && Native(w) && SeesNative(env, w, "=") && SeesNative(env, w, "+") && SeesNative(env, w, "-")
    && Lookup(env, w, "tail_fib") == Ok(Clo(TAIL_FIB, Global))
  }

  function TailEnv(n: int, a: int, b: int, env: Env): Env {
    Bind("next", Num(b), Bind("result", Num(a), Bind("n", Num(n), Bind("tail_fib", Clo(TAIL_FIB, Global), env))))
  }

  function TailCall(e0: Ast, e1: Ast, e2: Ast): Ast { Call("tail_fib", [e0, e1, e2]) }

  // Called on n and on two successive Fibonacci numbers it gives the one n further on; it
  // also computes the one after that, which has to be a long.
  lemma {:induction false} TailIsFib(fuel: nat, e0: Ast, e1: Ast, e2: Ast, n: nat, m: nat, env: Env, w: World)
    requires TailWorld(env, w) && Eval(Flat, fuel, e0, env, w) == Ok(Num(n))
    requires Eval(Flat, fuel, e1, env, w) == Ok(Num(Fib(m))) && Eval(Flat, fuel, e2, env, w) == Ok(Num(Fib(m + 1)))
    requires IsLong(n) && IsLong(Fib(m + n + 1)) && fuel > n
    ensures Eval(Flat, fuel, TailCall(e0, e1, e2), env, w) == Ok(Num(Fib(m + n)))
    decreases fuel, 0
  {
    var a, b := Fib(m), Fib(m + 1);
    var inner := TailEnv(n, a, b, env);
    TailEnters(fuel, e0, e1, e2, n, a, b, env, w);
    TailSees(n, a, b, env, w);
    if n > 0 {
      TailLess(fuel - 1, n, m, inner, w);
    }
    TailBody(fuel - 1, n, m, inner, w);
  }

  predicate TailSeen(n: int, a: int, b: int, inner: Env, w: World) {
    && Lookup(inner, w, "n") == Ok(Num(n)) && Lookup(inner, w, "result") == Ok(Num(a))
    && Lookup(inner, w, "next") == Ok(Num(b))
  }

  const NEXT := TailCall(Call("-", [Var("n"), Const(Num(1))]), Var("next"), Call("+", [Var("result"), Var("next")]))

  lemma TailBody(fuel: nat, n: nat, m: nat, inner: Env, w: World)
    requires TailWorld(inner, w) && TailSeen(n, Fib(m), Fib(m + 1), inner, w) && IsLong(n)
    requires n > 0 ==> Eval(Flat, fuel, NEXT, inner, w) == Ok(Num(Fib(m + n)))
    ensures Eval(Flat, fuel, TAIL_FIB.body, inner, w) == Ok(Num(Fib(m + n)))
  {
    NativeCall(fuel, "=", Var("n"), Const(Num(0)), n, 0, inner, w);
    assert Arithmetic(w, n, 0);
  }

  lemma {:induction false} TailLess(fuel: nat, n: nat, m: nat, inner: Env, w: World)
    requires TailWorld(inner, w) && TailSeen(n, Fib(m), Fib(m + 1), inner, w)
    requires IsLong(n) && IsLong(Fib(m + n + 1)) && fuel >= n > 0
    ensures Eval(Flat, fuel, NEXT, inner, w) == Ok(Num(Fib(m + n)))
    decreases fuel, 1
  {
    FibsGrow(m, m + n + 1);
    FibsGrow(m + 1, m + n + 1);
    FibsGrow(m + 2, m + n + 1);
    NativeCall(fuel, "-", Var("n"), Const(Num(1)), n, 1, inner, w);
    NativeCall(fuel, "+", Var("result"), Var("next"), Fib(m), Fib(m + 1), inner, w);
    assert Arithmetic(w, n, 1) && Arithmetic(w, Fib(m), Fib(m + 1));
    TailIsFib(fuel, Call("-", [Var("n"), Const(Num(1))]), Var("next"), Call("+", [Var("result"), Var("next")]), n - 1,
              m + 1, inner, w);
  }

  lemma {:induction false} FibsGrow(i: nat, j: nat)
    requires i <= j
    ensures 0 <= Fib(i) <= Fib(j)
    decreases j
  {
    FibGrows(i);
    if i < j {
      FibsGrow(i, j - 1);
      FibGrows(j - 1);
    }
  }

  lemma TailSees(n: int, a: int, b: int, env: Env, w: World)
    requires TailWorld(env, w)
    ensures var inner := TailEnv(n, a, b, env); TailWorld(inner, w) && TailSeen(n, a, b, inner, w)
  {
    var e0 := Bind("tail_fib", Clo(TAIL_FIB, Global), env);
    var e1 := Bind("n", Num(n), e0);
    var e2 := Bind("result", Num(a), e1);
    forall f: string
      ensures Lookup(TailEnv(n, a, b, env), w, f) ==
                if f == "next" then Ok(Num(b)) else if f == "result" then Ok(Num(a)) else if f == "n" then Ok(Num(n))
                else if f == "tail_fib" then Ok(Clo(TAIL_FIB, Global)) else Lookup(env, w, f)
    {
      LookupPast(e2, w, "next", Num(b), f);
      LookupPast(e1, w, "result", Num(a), f);
      LookupPast(e0, w, "n", Num(n), f);
      LookupPast(env, w, "tail_fib", Clo(TAIL_FIB, Global), f);
    }
    NamesDiffer();
  }

  lemma NamesDiffer()
    ensures "next" != "result" && "next" != "tail_fib" && "result" != "tail_fib" && "next" != "n" && "result" != "n"
    ensures forall f :: f in {"=", "+", "-"} ==> |f| == 1 && f != "n"
  {
    assert |"next"| == 4 && |"result"| == 6 && |"tail_fib"| == 8;
  }

  lemma TailEnters(fuel: nat, e0: Ast, e1: Ast, e2: Ast, n: int, a: int, b: int, env: Env, w: World)
    requires Lookup(env, w, "tail_fib") == Ok(Clo(TAIL_FIB, Global)) && fuel > 0
    requires Eval(Flat, fuel, e0, env, w) == Ok(Num(n)) && Eval(Flat, fuel, e1, env, w) == Ok(Num(a))
    requires Eval(Flat, fuel, e2, env, w) == Ok(Num(b))
    ensures Eval(Flat, fuel, TailCall(e0, e1, e2), env, w) ==
              Eval(Flat, fuel - 1, TAIL_FIB.body, TailEnv(n, a, b, env), w)
  {
    var args, vs := ACons(e0, ACons(e1, ACons(e2, ANil))), [Num(n), Num(a), Num(b)];
    ListOf(e0, [e1, e2]);
    ListOf(e1, [e2]);
    OneArg(fuel, e2, Num(b), env, w);
    assert [e0] + [e1, e2] == [e0, e1, e2] && [e1] + [e2] == [e1, e2];
    assert [Num(a)] + [Num(b)] == [Num(a), Num(b)] && [Num(n)] + [Num(a), Num(b)] == vs;
    BigStep.Calls(fuel, Var("tail_fib"), args, env, w, Clo(TAIL_FIB, Global), vs);
    ThreeOver(vs, Bind("tail_fib", Clo(TAIL_FIB, Global), env));
  }

  lemma ThreeOver(vs: seq<Value>, env: Env)
    requires |vs| == 3
    ensures BigStep.Over(["n", "result", "next"], vs, env) ==
              Bind("next", vs[2], Bind("result", vs[1], Bind("n", vs[0], env)))
  {
    assert ["n", "result", "next"][..2] == ["n", "result"] && vs[..2] == [vs[0], vs[1]];
    assert ["n", "result"][..1] == ["n"] && [vs[0], vs[1]][..1] == [vs[0]];
    OneOver("n", vs[0], env);
  }

  // Both programs mean the n-th Fibonacci number, wherever they and the native functions
  // are visible.
  lemma FibMeans(n: int, env: Env, w: World)
    requires FibWorld(env, w) && IsLong(n) && IsLong(Fib(n))
    ensures BigStep.Means(Call("fib", [Const(Num(n))]), env, w, Num(Fib(n)))
  {
    var fuel := if n < 0 then 1 else n + 1;
    FibIsFib(fuel, Const(Num(n)), n, env, w);
    BigStep.EvalMeans(fuel, Call("fib", [Const(Num(n))]), env, w);
  }

  lemma TailMeans(n: nat, env: Env, w: World)
    requires TailWorld(env, w) && IsLong(n) && IsLong(Fib(n + 1))
    ensures BigStep.Means(TailCall(Const(Num(n)), Const(Num(0)), Const(Num(1))), env, w, Num(Fib(n)))
  {
    TailIsFib(n + 1, Const(Num(n)), Const(Num(0)), Const(Num(1)), n, 0, env, w);
    BigStep.EvalMeans(n + 1, TailCall(Const(Num(n)), Const(Num(0)), Const(Num(1))), env, w);
  }
}
