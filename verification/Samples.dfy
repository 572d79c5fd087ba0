// Global functions that the repository runs its compiler on, each carrying the name that
// it is defined under:
//   (define id (lambda id (x) x))
//   (define const (lambda const (x) (lambda (y) x)))
//   (define fib (lambda fib (n) (if (< n 2) n (+ (fib (- n 2)) (fib (- n 1))))))
//   (define tail_fib (lambda tail_fib (n result next)
//                      (if (= n 0) result (tail_fib (- n 1) next (+ result next)))))
module Samples {
  import opened Lisp
  import opened Closures

  function Call(f: string, args: seq<Ast>): Ast { App(Var(f), List(args)) }

  function List(es: seq<Ast>): Asts { if es == [] then ANil else ACons(es[0], List(es[1..])) }

  const ID := Lambda("id", ["x"], [], Var("x"))

  const CONST := Lambda("const", ["x"], [], Lambda("", ["y"], ["x"], Var("x")))

  const FIB := Lambda("fib", ["n"], [],
                          If(Call("<", [Var("n"), Const(Num(2))]), Var("n"), Call("+", [FibAt(2), FibAt(1)])))

  function FibAt(k: int): Ast { Call("fib", [Call("-", [Var("n"), Const(Num(k))])]) }

  const TAIL_FIB := Lambda("tail_fib", ["n", "result", "next"], [],
                              If(Call("=", [Var("n"), Const(Num(0))]), Var("result"),
                                 Call("tail_fib", [Call("-", [Var("n"), Const(Num(1))]), Var("next"),
                                                   Call("+", [Var("result"), Var("next")])])))

  // The first three are analysed code for any globals that do not have the names of their parameters.
  lemma SamplesOk(names: set<string>)
    requires {"id", "const", "fib", "<", "+", "-"} <= names && {"x", "y", "n"} !! names
    ensures Wf(ID, {}, names) && ToSet(ID.params) !! names && BindsOff(ID.body, names)
    ensures Wf(CONST, {}, names) && ToSet(CONST.params) !! names && BindsOff(CONST.body, names)
    ensures Wf(FIB, {}, names) && ToSet(FIB.params) !! names && BindsOff(FIB.body, names)
    ensures Wf(ID.body, ToSet(ID.params), names) && Wf(FIB.body, ToSet(FIB.params), names)
    ensures Wf(Call("fib", [Const(Num(20))]), {}, names) && BindsOff(Call("fib", [Const(Num(20))]), names)
  {
    OneParam("id", "x");
    OneParam("const", "x");
    OneParam("", "y");
    OneParam("fib", "n");
    var scope := {"n"};
    assert ToSet([]) + Own("fib", ["n"]) == {"n", "fib"} && ToSet([]) + Own("id", ["x"]) == {"x", "id"};
    assert ToSet([]) + Own("const", ["x"]) == {"x", "const"};
    forall k: int ensures Wf(FibAt(k), scope, names) && BindsOff(FibAt(k), names) {
      CallOk("-", [Var("n"), Const(Num(k))], scope, names);
      CallOk("fib", [Call("-", [Var("n"), Const(Num(k))])], scope, names);
    }
    CallOk("<", [Var("n"), Const(Num(2))], scope, names);
    CallOk("+", [FibAt(2), FibAt(1)], scope, names);
    CallOk("fib", [Const(Num(20))], {}, names);
    assert Wf(FIB.body, scope, names) && BindsOff(FIB.body, names);
    WfMore(FIB.body, scope, {"n", "fib"}, names);
    assert Wf(CONST.body, {"x", "const"}, names) && BindsOff(CONST.body, names);
    assert Wf(ID.body, {"x", "id"}, names) && BindsOff(ID.body, names);
  }

  lemma OneParam(self: string, x: string)
    ensures ToSet([x]) == {x} && ToSet([]) == {} && Own(self, [x]) == {x} + if self == "" then {} else {self}
    ensures Distinct([x]) && Distinct([])
  {
  }

  lemma {:induction false} CallOk(f: string, args: seq<Ast>, scope: set<string>, names: set<string>)
    requires f in scope || f in names
    requires forall i :: 0 <= i < |args| ==> Wf(args[i], scope, names) && BindsOff(args[i], names)
    ensures Wf(Call(f, args), scope, names) && BindsOff(Call(f, args), names)
    decreases |args|
  {
    if args != [] { CallOk(f, args[1..], scope, names); }
    assert WfAll(List(args), scope, names) && BindsOffAll(List(args), names);
  }
}
