// From S-expressions to analysed programs: scopes that find out, while the body of a
// lambda is being analysed, which variables the lambda has to capture.
module Analyzer {
  import opened Sexprs
  import opened Lisp
  import opened Closures

  const MAX_ARITY: nat := 13

  // LocalScope and LambdaScope. self is "" for a lambda without a name.
  datatype Frame =
    | Local(vars: set<string>)
    | Lam(self: string, params: seq<string>, capture: seq<string>)

  datatype VarKind = NotFound | GlobalVar | LocalVar

  datatype Analysis = Good(ast: Ast) | Bad

  function Bound(f: Frame): set<string> {
    match f
    case Local(vars) => vars
    case Lam(self, params, _) => Own(self, params)
  }

  // The names that the outermost n scopes bind.
  function Names(fs: seq<Frame>, n: nat): set<string>
    requires n <= |fs|
  {
    if n == 0 then {} else Bound(fs[n - 1]) + Names(fs, n - 1)
  }

  // The names that the scopes from number i to number n - 1 bind.
  function Above(fs: seq<Frame>, i: nat, n: nat): set<string>
    requires i <= n <= |fs|
  {
    if i == n then {} else Bound(fs[n - 1]) + Above(fs, i, n - 1)
  }

  // The names that can be used in the innermost scope without capturing any more.
  function Vis(fs: seq<Frame>, n: nat): set<string>
    requires n <= |fs|
  {
    if n == 0 then {} else
      match fs[n - 1]
      case Local(vars) => vars + Vis(fs, n - 1)
      case Lam(self, params, capture) => Own(self, params) + ToSet(capture)
  }

  // What a lambda has captured so far is visible where the lambda stands.
  ghost predicate FrameOk(fs: seq<Frame>, i: nat)
    requires i < |fs|
  {
    fs[i].Lam? ==>
      && ToSet(fs[i].capture) <= Vis(fs, i) && Distinct(fs[i].capture) && Distinct(fs[i].params)
      && ToSet(fs[i].capture) !! Own(fs[i].self, fs[i].params)
  }

  ghost predicate ScopesOk(fs: seq<Frame>) {
    forall i {:trigger FrameOk(fs, i)} :: 0 <= i < |fs| ==> FrameOk(fs, i)
  }

  // Scopes change only by capturing more.
  ghost predicate FrameGrew(f: Frame, g: Frame) {
    match f
    case Local(vars) => g == f
    case Lam(self, params, capture) =>
        g.Lam? && g.self == self && g.params == params
        && ToSet(capture) <= ToSet(g.capture)
  }

  ghost predicate Grew(fs: seq<Frame>, gs: seq<Frame>) {
    |fs| == |gs| && forall i {:trigger FrameGrew(fs[i], gs[i])} :: 0 <= i < |fs| ==> FrameGrew(fs[i], gs[i])
  }

  // Between fs and gs the names of used were looked up from the innermost of n scopes:
  // the lambda of scope i captured those that are bound outside it and not inside.
  ghost predicate TookAt(fs: seq<Frame>, gs: seq<Frame>, used: set<string>, n: nat, i: nat)
    requires i < n <= |fs| == |gs|
  {
    fs[i].Lam? && gs[i].Lam? ==> ToSet(gs[i].capture) == ToSet(fs[i].capture) + (used - Above(fs, i, n)) * Names(fs, i)
  }

  ghost predicate Took(fs: seq<Frame>, gs: seq<Frame>, used: set<string>, n: nat)
    requires n <= |fs| == |gs|
  {
    forall i {:trigger TookAt(fs, gs, used, n, i)} :: 0 <= i < n ==> TookAt(fs, gs, used, n, i)
  }

  lemma {:induction false} GrewAbove(fs: seq<Frame>, gs: seq<Frame>, i: nat, n: nat)
    requires Grew(fs, gs) && i <= n <= |fs|
    ensures Above(fs, i, n) == Above(gs, i, n)
  {
    if i < n {
      assert FrameGrew(fs[n - 1], gs[n - 1]);
      GrewAbove(fs, gs, i, n - 1);
    }
  }

  lemma TookNothing(fs: seq<Frame>, n: nat)
    requires n <= |fs|
    ensures Took(fs, fs, {}, n)
  {
    forall i | 0 <= i < n ensures TookAt(fs, fs, {}, n, i) {}
  }

  lemma TookTrans(fs: seq<Frame>, gs: seq<Frame>, hs: seq<Frame>, a: set<string>, b: set<string>, n: nat)
    requires Grew(fs, gs) && Grew(gs, hs) && n <= |fs| && Took(fs, gs, a, n) && Took(gs, hs, b, n)
    ensures Took(fs, hs, a + b, n)
  {
    forall i | 0 <= i < n ensures TookAt(fs, hs, a + b, n, i) {
      assert TookAt(fs, gs, a, n, i) && TookAt(gs, hs, b, n, i);
      assert FrameGrew(fs[i], gs[i]) && FrameGrew(gs[i], hs[i]);
      GrewAbove(fs, gs, i, n);
      GrewNames(fs, gs, i);
    }
  }

  // Of a name that is in sight nothing has to be captured.
  lemma {:induction false} InSight(fs: seq<Frame>, n: nat, name: string, i: nat)
    requires ScopesOk(fs) && i < n <= |fs| && name in Vis(fs, n)
    ensures name in Above(fs, i, n) || (fs[i].Lam? ==> name in fs[i].capture)
  {
    assert FrameOk(fs, n - 1);
    if i < n - 1 && name !in Bound(fs[n - 1]) { InSight(fs, n - 1, name, i); }
  }

  lemma TookInSight(fs: seq<Frame>, n: nat, name: string)
    requires ScopesOk(fs) && n <= |fs| && name in Vis(fs, n)
    ensures Took(fs, fs, {name}, n)
  {
    forall i | 0 <= i < n ensures TookAt(fs, fs, {name}, n, i) { InSight(fs, n, name, i); }
  }

  lemma {:induction false} NamesWithin(fs: seq<Frame>, i: nat, n: nat)
    requires i <= n <= |fs|
    ensures Names(fs, i) <= Names(fs, n)
  {
    if i < n { NamesWithin(fs, i, n - 1); }
  }

  // One more scope, which does not bind the name, and hs what it is afterwards.
  lemma TookOuter(fs: seq<Frame>, gs: seq<Frame>, hs: seq<Frame>, name: string, n: nat)
    requires 0 < n <= |fs| == |gs| == |hs| && Took(fs, gs, {name}, n - 1) && name !in Bound(fs[n - 1])
    requires forall i :: 0 <= i < n - 1 ==> hs[i] == gs[i]
    requires fs[n - 1].Lam? && hs[n - 1].Lam? ==>
               ToSet(hs[n - 1].capture) == ToSet(fs[n - 1].capture) + {name} * Names(fs, n - 1)
    ensures Took(fs, hs, {name}, n)
  {
    forall i | 0 <= i < n ensures TookAt(fs, hs, {name}, n, i) {
      if i < n - 1 { assert TookAt(fs, gs, {name}, n - 1, i); }
    }
  }

  // Leaving the scope f.
  lemma TookPop(fs: seq<Frame>, f: Frame, gs: seq<Frame>, used: set<string>)
    requires |gs| == |fs| + 1 && Took(fs + [f], gs, used, |fs| + 1)
    ensures Took(fs, gs[..|fs|], used - Bound(f), |fs|)
    ensures f.Lam? && gs[|fs|].Lam? && f.capture == [] ==>
              ToSet(gs[|fs|].capture) == (used - Own(f.self, f.params)) * Names(fs, |fs|)
  {
    var both, n := fs + [f], |fs|;
    forall i | 0 <= i < n ensures TookAt(fs, gs[..n], used - Bound(f), n, i) {
      assert TookAt(both, gs, used, n + 1, i);
      SameAbove(fs, both, i, n);
      SamePrefix(fs, both, i);
    }
    assert TookAt(both, gs, used, n + 1, n);
    SamePrefix(fs, both, n);
    assert Above(both, n, n + 1) == Bound(f) && ToSet([]) == {};
  }

  lemma {:induction false} SameAbove(fs: seq<Frame>, gs: seq<Frame>, i: nat, n: nat)
    requires i <= n <= |fs| && n <= |gs| && forall j :: 0 <= j < n ==> fs[j] == gs[j]
    ensures Above(fs, i, n) == Above(gs, i, n)
  {
    if i < n { SameAbove(fs, gs, i, n - 1); }
  }

  lemma GrewSelf(fs: seq<Frame>)
    ensures Grew(fs, fs)
  {
  }

  lemma GrewTrans(fs: seq<Frame>, gs: seq<Frame>, hs: seq<Frame>)
    requires Grew(fs, gs) && Grew(gs, hs)
    ensures Grew(fs, hs)
  {
    forall i | 0 <= i < |fs| ensures FrameGrew(fs[i], hs[i]) {
      assert FrameGrew(fs[i], gs[i]) && FrameGrew(gs[i], hs[i]);
    }
  }

  lemma {:induction false} GrewNames(fs: seq<Frame>, gs: seq<Frame>, n: nat)
    requires Grew(fs, gs) && n <= |fs|
    ensures Names(fs, n) == Names(gs, n) && Vis(fs, n) <= Vis(gs, n)
  {
    if n > 0 {
      assert FrameGrew(fs[n - 1], gs[n - 1]);
      GrewNames(fs, gs, n - 1);
    }
  }

  lemma {:induction false} VisNames(fs: seq<Frame>, n: nat)
    requires ScopesOk(fs) && n <= |fs|
    ensures Vis(fs, n) <= Names(fs, n)
  {
    if n > 0 {
      assert FrameOk(fs, n - 1);
      VisNames(fs, n - 1);
    }
  }

  // A scope is looked at only through the scopes outside it.
  lemma {:induction false} SamePrefix(fs: seq<Frame>, gs: seq<Frame>, n: nat)
    requires n <= |fs| && n <= |gs| && forall i :: 0 <= i < n ==> fs[i] == gs[i]
    ensures Names(fs, n) == Names(gs, n) && Vis(fs, n) == Vis(gs, n)
  {
    if n > 0 { SamePrefix(fs, gs, n - 1); }
  }

  // ---------------------------------------------------------------------
  // Which forms are legal, and what they mean.

  function QuoteValue(e: Sexpr): (v: Value)
    ensures Data(v)
  {
    match e
    case Int(n) => Num(n)
    case Real(t) => Flo(t)
    case Char(c) => Chr(c)
    case Str(s) => Value.Str(s)
    case Sym(id) => Value.Sym(id)
    case List(items) => QuoteList(items)
  }

  function QuoteList(items: seq<Sexpr>): (v: Value)
    ensures Data(v)
  {
    if items == [] then VNil else Cons(QuoteValue(items[0]), QuoteList(items[1..]))
  }

  predicate HasHead(items: seq<Sexpr>, id: string) {
    items != [] && items[0].Sym? && items[0].id == id
  }

  predicate IsBinding(b: Sexpr) {
    b.List? && |b.items| == 2 && b.items[0].Sym?
  }

  function BoundName(b: Sexpr): string { if IsBinding(b) then b.items[0].id else "" }

  // The names bound by the first k bindings of a let.
  function BoundNames(items: seq<Sexpr>, k: nat): set<string>
    requires k < |items|
  {
    if k == 0 then {} else BoundNames(items, k - 1) + {BoundName(items[k])}
  }

  predicate AllSymbols(items: seq<Sexpr>) {
    forall p :: p in items ==> p.Sym?
  }

  function SymNames(items: seq<Sexpr>): seq<string>
    requires AllSymbols(items)
  {
    seq(|items|, i requires 0 <= i < |items| => items[i].id)
  }

  // The parts of (lambda self? (params) body).
  predicate LambdaShape(items: seq<Sexpr>) {
    && 3 <= |items| <= 4
    && (items[1].Sym? ==> |items| == 4)
    && var ps := items[if items[1].Sym? then 2 else 1];
       ps.List? && AllSymbols(ps.items)
  }

  function LambdaSelf(items: seq<Sexpr>): string
    requires LambdaShape(items)
  {
    if items[1].Sym? then items[1].id else ""
  }

  function LambdaParams(items: seq<Sexpr>): seq<string>
    requires LambdaShape(items)
  {
    SymNames(items[if items[1].Sym? then 2 else 1].items)
  }

  function LambdaBody(items: seq<Sexpr>): (b: Sexpr)
    requires LambdaShape(items)
    ensures b in items
  {
    items[if items[1].Sym? then 3 else 2]
  }

  // e is a program when the names in names are visible as locals.
  ghost predicate Legal(e: Sexpr, names: set<string>, globals: set<string>)
    decreases e, 1
  {
    match e
    case Sym(x) => x in names || x in globals
    case List(items) =>
      if items == [] then true
      else if HasHead(items, "quote") then |items| == 2
      else if HasHead(items, "if") then |items| == 4 && forall i :: 1 <= i < 4 ==> Legal(items[i], names, globals)
      else if HasHead(items, "let") || HasHead(items, "let*") then
        && |items| >= 3
        && (forall i {:trigger BindingLegal(items, HasHead(items, "let*"), i, names, globals)} ::
           0 < i < |items| - 1 ==>
              BindingLegal(items, HasHead(items, "let*"), i, names, globals))
        && Legal(items[|items| - 1], BoundNames(items, |items| - 2) + names, globals)
      else if HasHead(items, "do") then |items| >= 2 && forall i :: 1 <= i < |items| ==> Legal(items[i], names, globals)
      else if HasHead(items, "lambda") then
        && LambdaShape(items) && Distinct(LambdaParams(items))
        && Legal(LambdaBody(items), Own(LambdaSelf(items), LambdaParams(items)) + names, globals)
      else if HasHead(items, "define") then false
      else |items| - 1 <= MAX_ARITY && forall i :: 0 <= i < |items| ==> Legal(items[i], names, globals)
    case _ => true
  }

  // Binding number i of a let (of a let* if star) is legal.
  ghost predicate BindingLegal(items: seq<Sexpr>, star: bool, i: nat, names: set<string>, globals: set<string>)
    requires 0 < i < |items|
    decreases items[i], 0
  {
    && IsBinding(items[i]) && BoundName(items[i]) !in BoundNames(items, i - 1)
    && Legal(items[i].items[1], (if star then BoundNames(items, i - 1) else {}) + names, globals)
  }

  // a is e analysed, leaving aside which variables are captured (that is Exact).
  ghost predicate Means(e: Sexpr, a: Ast)
    decreases a
  {
    match e
    case Int(n) => a == Const(Num(n))
    case Real(t) => a == Const(Flo(t))
    case Char(c) => a == Const(Chr(c))
    case Str(s) => a == Const(Value.Str(s))
    case Sym(x) => a == Var(x)
    case List(items) =>
      if items == [] then a == Const(VNil)
      else if HasHead(items, "quote") then |items| == 2 && a == Quote(QuoteValue(items[1]))
      else if HasHead(items, "if") then
        |items| == 4 && a.If? && Means(items[1], a.test) && Means(items[2], a.thenBranch)
            && Means(items[3], a.elseBranch)
      else if HasHead(items, "let") then
        |items| >= 3 && a.Let? && MeansLet(items[1..|items| - 1], a.bindings) && Means(items[|items| - 1], a.body)
      else if HasHead(items, "let*") then
        |items| >= 3 && a.LetStar? && MeansLet(items[1..|items| - 1], a.bindings) && Means(items[|items| - 1], a.body)
      else if HasHead(items, "do") then a.Do? && MeansAll(items[1..], a.exprs)
      else if HasHead(items, "lambda") then
        LambdaShape(items) && a.Lambda? && a.self == LambdaSelf(items) && a.params == LambdaParams(items)
            && Means(LambdaBody(items), a.body)
      else if HasHead(items, "define") then false
      else a.App? && Means(items[0], a.fun) && MeansAll(items[1..], a.args)
  }

  ghost predicate MeansAll(es: seq<Sexpr>, asts: Asts)
    decreases asts
  {
    match asts
    case ANil => es == []
    case ACons(a, rest) => es != [] && Means(es[0], a) && MeansAll(es[1..], rest)
  }

  ghost predicate MeansLet(bs: seq<Sexpr>, asts: Bindings)
    decreases asts
  {
    match asts
    case BNil => bs == []
    case BCons(x, a, more) =>
        bs != [] && IsBinding(bs[0]) && BoundName(bs[0]) == x && Means(bs[0].items[1], a)
        && MeansLet(bs[1..], more)
  }

  // The vectors that the analyzer fills, as lists.
  function ToAsts(s: seq<Ast>): Asts {
    if s == [] then ANil else ACons(s[0], ToAsts(s[1..]))
  }

  function ToBindings(s: seq<(string, Ast)>): Bindings {
    if s == [] then BNil else BCons(s[0].0, s[0].1, ToBindings(s[1..]))
  }

  lemma {:induction false} ToAstsOk(es: seq<Sexpr>, s: seq<Ast>, scope: set<string>, known: set<string>,
        globals: set<string>)
    requires |es| == |s| && forall i :: 0 <= i < |s| ==>
             Wf(s[i], scope, globals) && Means(es[i], s[i])
             && Exact(s[i], known)
    ensures WfAll(ToAsts(s), scope, globals) && MeansAll(es, ToAsts(s)) && ExactAll(ToAsts(s), known)
    decreases |s|
  {
    if s != [] { ToAstsOk(es[1..], s[1..], scope, known, globals); }
  }

  lemma FreeThree(s: seq<Ast>)
    requires |s| == 3
    ensures FreeAll(ToAsts(s)) == Free(s[0]) + Free(s[1]) + Free(s[2])
  {
    var t, u := s[1..], s[2..];
    assert t[1..] == u && u[1..] == [];
    assert ToAsts(u) == ACons(s[2], ANil) && ToAsts(t) == ACons(s[1], ToAsts(u)) && ToAsts(s) == ACons(s[0], ToAsts(t));
    assert FreeAll(ToAsts(u)) == Free(s[2]);
  }

  lemma {:induction false} FreeSnoc(s: seq<Ast>, a: Ast)
    ensures FreeAll(ToAsts(s + [a])) == FreeAll(ToAsts(s)) + Free(a)
    decreases |s|
  {
    if s == [] {
      assert [a][1..] == [];
    } else {
      FreeSnoc(s[1..], a);
      assert (s + [a])[1..] == s[1..] + [a];
    }
  }

  lemma {:induction false} ToBindingsOk(bs: seq<Sexpr>, s: seq<(string, Ast)>)
    requires |bs| == |s|
    requires forall i :: 0 <= i < |s| ==>
             IsBinding(bs[i]) && s[i].0 == BoundName(bs[i])
             && Means(bs[i].items[1], s[i].1)
    ensures MeansLet(bs, ToBindings(s))
    decreases |s|
  {
    if s != [] { ToBindingsOk(bs[1..], s[1..]); }
  }

  // The names of the first k of the bindings.
  function NamesOf(s: seq<(string, Ast)>, k: nat): set<string>
    requires k <= |s|
  {
    set i | 0 <= i < k :: s[i].0
  }

  lemma {:induction false} LetOk(s: seq<(string, Ast)>, scope: set<string>, known: set<string>, globals: set<string>)
    requires forall i :: 0 <= i < |s| ==> Wf(s[i].1, scope, globals) && Exact(s[i].1, known)
    ensures WfLet(ToBindings(s), scope, globals) && ExactLet(ToBindings(s), known)
    ensures ToBindings(s).Names() == NamesOf(s, |s|)
    decreases |s|
  {
    if s != [] {
      LetOk(s[1..], scope, known, globals);
      NamesTail(s, |s|);
    }
  }

  lemma NamesTail(s: seq<(string, Ast)>, k: nat)
    requires 0 < k <= |s|
    ensures NamesOf(s, k) == {s[0].0} + NamesOf(s[1..], k - 1)
  {
    forall x | x in NamesOf(s, k) ensures x in {s[0].0} + NamesOf(s[1..], k - 1) {
      var i :| 0 <= i < k && s[i].0 == x;
      if i > 0 { assert s[1..][i - 1] == s[i]; }
    }
    forall x | x in NamesOf(s[1..], k - 1) ensures x in NamesOf(s, k) {
      var i :| 0 <= i < k - 1 && s[1..][i].0 == x;
      assert s[i + 1] == s[1..][i];
    }
  }

  lemma LaterNames(s: seq<(string, Ast)>, i: nat, scope: set<string>)
    requires i + 1 < |s|
    ensures scope + {s[0].0} + NamesOf(s[1..], i) == scope + NamesOf(s, i + 1) && s[1..][i] == s[i + 1]
  {
    NamesTail(s, i + 1);
  }

  lemma {:induction false} LetStarOk(s: seq<(string, Ast)>, scope: set<string>, known: set<string>,
        globals: set<string>)
    requires forall i :: 0 <= i < |s| ==>
             Wf(s[i].1, scope + NamesOf(s, i), globals)
             && Exact(s[i].1, known + NamesOf(s, i))
    ensures WfLetStar(ToBindings(s), scope, globals) && ExactLetStar(ToBindings(s), known)
    ensures ToBindings(s).Names() == NamesOf(s, |s|)
    decreases |s|
  {
    if s != [] {
      assert scope + NamesOf(s, 0) == scope && known + NamesOf(s, 0) == known;
      forall i | 0 <= i < |s| - 1
        ensures Wf(s[1..][i].1, scope + {s[0].0} + NamesOf(s[1..], i), globals)
        ensures Exact(s[1..][i].1, known + {s[0].0} + NamesOf(s[1..], i)) {
        LaterNames(s, i, scope);
        LaterNames(s, i, known);
      }
      LetStarOk(s[1..], scope + {s[0].0}, known + {s[0].0}, globals);
      NamesTail(s, |s|);
    }
  }

  // The free names of the first k right-hand sides, as seen from outside the let.
  function FreeTo(s: seq<(string, Ast)>, star: bool, k: nat): set<string>
    requires k <= |s|
  {
    if k == 0 then {} else FreeTo(s, star, k - 1) + (Free(s[k - 1].1) - if star then NamesOf(s, k - 1) else {})
  }

  lemma {:induction false} FreeToPrefix(s: seq<(string, Ast)>, b: (string, Ast), star: bool, k: nat)
    requires k <= |s|
    ensures FreeTo(s + [b], star, k) == FreeTo(s, star, k) && NamesOf(s + [b], k) == NamesOf(s, k)
  {
    forall j | 0 <= j < k ensures (s + [b])[j] == s[j] {}
    if k > 0 { FreeToPrefix(s, b, star, k - 1); }
  }

  lemma {:induction false} FreeLetIs(s: seq<(string, Ast)>, k: nat)
    requires k <= |s|
    ensures FreeTo(s, false, k) + FreeLet(ToBindings(s[k..])) == FreeLet(ToBindings(s))
  {
    if k == 0 {
      assert s[0..] == s;
    } else {
      FreeLetIs(s, k - 1);
      assert s[k - 1..][1..] == s[k..] && s[k - 1..][0] == s[k - 1];
    }
  }

  lemma {:induction false} FreeLetStarIs(s: seq<(string, Ast)>, k: nat, inner: set<string>)
    requires k <= |s|
    ensures FreeTo(s, true, k) + (FreeLetStar(ToBindings(s[k..]), inner) - NamesOf(s, k))
            == FreeLetStar(ToBindings(s), inner)
  {
    if k == 0 {
      assert s[0..] == s && NamesOf(s, 0) == {};
    } else {
      FreeLetStarIs(s, k - 1, inner);
      assert s[k - 1..][1..] == s[k..] && s[k - 1..][0] == s[k - 1];
      assert NamesOf(s, k) == NamesOf(s, k - 1) + {s[k - 1].0};
    }
  }

  // What a let with these bindings uses.
  lemma FreeOfLet(s: seq<(string, Ast)>, body: Ast, star: bool)
    requires ToBindings(s).Names() == NamesOf(s, |s|)
    ensures FreeTo(s, star, |s|) + (Free(body) - NamesOf(s, |s|))
            == Free(if star then LetStar(ToBindings(s), body) else Let(ToBindings(s), body))
  {
    assert s[|s|..] == [];
    if star { FreeLetStarIs(s, |s|, Free(body)); } else { FreeLetIs(s, |s|); }
  }

  // A captured variable is added to the scope of lambda number n - 1.
  lemma Captured(fs: seq<Frame>, n: nat, name: string)
    requires 0 < n <= |fs| && ScopesOk(fs) && fs[n - 1].Lam? && name in Vis(fs, n - 1)
    requires name !in Own(fs[n - 1].self, fs[n - 1].params) && name !in fs[n - 1].capture
    ensures var gs := fs[n - 1 := fs[n - 1].(capture := fs[n - 1].capture + [name])];
            ScopesOk(gs) && Grew(fs, gs) && name in Vis(gs, n)
  {
    var gs := fs[n - 1 := fs[n - 1].(capture := fs[n - 1].capture + [name])];
    assert Grew(fs, gs) by {
      forall i | 0 <= i < |fs| ensures FrameGrew(fs[i], gs[i]) { }
    }
    forall i | 0 <= i < |gs| ensures FrameOk(gs, i) {
      assert FrameOk(fs, i);
      GrewNames(fs, gs, i);
    }
  }

  lemma PushOk(fs: seq<Frame>, f: Frame)
    requires ScopesOk(fs) && (f.Lam? ==> f.capture == [] && Distinct(f.params))
    ensures ScopesOk(fs + [f]) && Vis(fs + [f], |fs|) == Vis(fs, |fs|) && Names(fs + [f], |fs|) == Names(fs, |fs|)
  {
    SamePrefix(fs, fs + [f], |fs|);
    forall i | 0 <= i < |fs + [f]| ensures FrameOk(fs + [f], i) {
      if i < |fs| {
        assert FrameOk(fs, i);
        SamePrefix(fs, fs + [f], i);
      }
    }
  }

  // Leaving a scope.
  lemma PopOk(fs: seq<Frame>, f: Frame, gs: seq<Frame>)
    requires ScopesOk(gs) && Grew(fs + [f], gs)
    ensures |gs| == |fs| + 1 && FrameGrew(f, gs[|fs|]) && FrameOk(gs, |fs|)
    ensures Grew(fs, gs[..|fs|]) && ScopesOk(gs[..|fs|]) && Vis(gs[..|fs|], |fs|) == Vis(gs, |fs|)
  {
    var hs := gs[..|fs|];
    assert FrameGrew((fs + [f])[|fs|], gs[|fs|]) && FrameOk(gs, |fs|);
    SamePrefix(gs, hs, |fs|);
    forall i | 0 <= i < |hs| ensures FrameOk(hs, i) {
      assert FrameOk(gs, i);
      SamePrefix(gs, hs, i);
    }
    forall i | 0 <= i < |fs| ensures FrameGrew(fs[i], hs[i]) {
      assert FrameGrew((fs + [f])[i], gs[i]);
    }
  }

  // asts[j] is items[lo + j], analysed.
  ghost predicate PartOk(items: seq<Sexpr>, lo: nat, asts: seq<Ast>, j: nat, scope: set<string>, known: set<string>,
        globals: set<string>)
    requires j < |asts| && lo + |asts| <= |items|
  {
    Means(items[lo + j], asts[j]) && Wf(asts[j], scope, globals) && Exact(asts[j], known)
  }

  ghost predicate PartsOk(items: seq<Sexpr>, lo: nat, asts: seq<Ast>, scope: set<string>, known: set<string>,
        globals: set<string>) {
    && lo + |asts| <= |items|
    && forall j {:trigger PartOk(items, lo, asts, j, scope, known, globals)} :: 0 <= j < |asts| ==>
       PartOk(items, lo, asts, j, scope, known, globals)
  }

  // One more, after more variables became visible.
  lemma PartsAdd(items: seq<Sexpr>, lo: nat, asts: seq<Ast>, a: Ast, s: set<string>, t: set<string>,
        known: set<string>, globals: set<string>)
    requires PartsOk(items, lo, asts, s, known, globals) && s <= t && lo + |asts| < |items|
    requires Means(items[lo + |asts|], a) && Wf(a, t, globals) && Exact(a, known)
    ensures PartsOk(items, lo, asts + [a], t, known, globals)
  {
    var more := asts + [a];
    forall j | 0 <= j < |more| ensures PartOk(items, lo, more, j, t, known, globals) {
      if j < |asts| {
        assert PartOk(items, lo, asts, j, s, known, globals);
        WfMore(asts[j], s, t, globals);
      }
    }
  }

  // From number k on, as lists.
  lemma PartsAre(items: seq<Sexpr>, lo: nat, asts: seq<Ast>, k: nat, scope: set<string>, known: set<string>,
        globals: set<string>)
    requires PartsOk(items, lo, asts, scope, known, globals) && k <= |asts| && lo + |asts| == |items|
    ensures WfAll(ToAsts(asts[k..]), scope, globals) && MeansAll(items[lo + k..], ToAsts(asts[k..]))
            && ExactAll(ToAsts(asts[k..]), known)
  {
    var es, s := items[lo + k..], asts[k..];
    forall i | 0 <= i < |s| ensures Wf(s[i], scope, globals) && Means(es[i], s[i]) && Exact(s[i], known) {
      assert PartOk(items, lo, asts, k + i, scope, known, globals);
    }
    ToAstsOk(es, s, scope, known, globals);
  }

  // The bindings before number k are.
  ghost predicate BindsLegal(items: seq<Sexpr>, star: bool, k: nat, names: set<string>, globals: set<string>)
    requires k <= |items|
  {
    forall i {:trigger BindingLegal(items, star, i, names, globals)} :: 0 < i < k ==>
        BindingLegal(items, star, i, names, globals)
  }

  lemma LegalLet(e: Sexpr, star: bool, names: set<string>, globals: set<string>)
    requires e.List? && HasHead(e.items, if star then "let*" else "let")
    ensures Legal(e, names, globals) <==>
      && |e.items| >= 3 && BindsLegal(e.items, star, |e.items| - 1, names, globals)
      && Legal(e.items[|e.items| - 1], BoundNames(e.items, |e.items| - 2) + names, globals)
  {
    assert HasHead(e.items, "let*") == star;
  }

  // The right-hand sides analysed so far are in order.
  ghost predicate WfAt(bs: seq<(string, Ast)>, star: bool, i: nat, scope: set<string>, known: set<string>,
        globals: set<string>)
    requires i < |bs|
  {
    var more := if star then NamesOf(bs, i) else {};
    Wf(bs[i].1, scope + more, globals) && Exact(bs[i].1, known + more)
  }

  ghost predicate BindsWf(bs: seq<(string, Ast)>, star: bool, scope: set<string>, known: set<string>,
        globals: set<string>) {
    forall i {:trigger WfAt(bs, star, i, scope, known, globals)} :: 0 <= i < |bs| ==>
        WfAt(bs, star, i, scope, known, globals)
  }

  lemma BindsMore(bs: seq<(string, Ast)>, star: bool, s: set<string>, t: set<string>, known: set<string>,
        globals: set<string>)
    requires s <= t && BindsWf(bs, star, s, known, globals)
    ensures BindsWf(bs, star, t, known, globals)
  {
    forall i | 0 <= i < |bs| ensures WfAt(bs, star, i, t, known, globals) {
      assert WfAt(bs, star, i, s, known, globals);
      var more := if star then NamesOf(bs, i) else {};
      WfMore(bs[i].1, s + more, t + more, globals);
    }
  }

  lemma BindsStep(bs: seq<(string, Ast)>, star: bool, b: (string, Ast), scope: set<string>, known: set<string>,
        globals: set<string>)
    requires BindsWf(bs, star, scope, known, globals)
    requires var more := if star then NamesOf(bs, |bs|) else {};
             Wf(b.1, scope + more, globals) && Exact(b.1, known + more)
    ensures BindsWf(bs + [b], star, scope, known, globals)
  {
    var more := bs + [b];
    forall i | 0 <= i < |more| ensures WfAt(more, star, i, scope, known, globals) {
      FreeToPrefix(bs, b, star, i);
      if i < |bs| { assert WfAt(bs, star, i, scope, known, globals); }
    }
  }

  lemma BindsDone(bs: seq<(string, Ast)>, star: bool, scope: set<string>, known: set<string>, globals: set<string>)
    requires BindsWf(bs, star, scope, known, globals)
    ensures ToBindings(bs).Names() == NamesOf(bs, |bs|)
    ensures if star then WfLetStar(ToBindings(bs), scope, globals) && ExactLetStar(ToBindings(bs), known)
            else WfLet(ToBindings(bs), scope, globals) && ExactLet(ToBindings(bs), known)
  {
    forall i | 0 <= i < |bs|
      ensures var more := if star then NamesOf(bs, i) else {};
              Wf(bs[i].1, scope + more, globals) && Exact(bs[i].1, known + more) {
      assert WfAt(bs, star, i, scope, known, globals);
    }
    assert scope + {} == scope && known + {} == known;
    if star { LetStarOk(bs, scope, known, globals); } else { LetOk(bs, scope, known, globals); }
  }

  ghost predicate BindingFits(items: seq<Sexpr>, bs: seq<(string, Ast)>, i: nat)
    requires i < |bs| < |items|
  {
    IsBinding(items[1 + i]) && bs[i].0 == BoundName(items[1 + i]) && Means(items[1 + i].items[1], bs[i].1)
  }

  // bs are the bindings of the let e.items, as far as they go.
  ghost predicate BindingsFit(items: seq<Sexpr>, bs: seq<(string, Ast)>)
    requires |bs| < |items|
  {
    forall i {:trigger BindingFits(items, bs, i)} :: 0 <= i < |bs| ==> BindingFits(items, bs, i)
  }

  lemma FitsStep(items: seq<Sexpr>, bs: seq<(string, Ast)>, b: (string, Ast))
    requires |bs| + 1 < |items| && BindingsFit(items, bs)
    requires var e := items[1 + |bs|]; IsBinding(e) && b.0 == BoundName(e) && Means(e.items[1], b.1)
    ensures BindingsFit(items, bs + [b])
  {
    var more := bs + [b];
    forall i | 0 <= i < |more| ensures BindingFits(items, more, i) {
      if i < |bs| { assert BindingFits(items, bs, i); }
    }
  }

  lemma BindingsMean(items: seq<Sexpr>, bs: seq<(string, Ast)>)
    requires |bs| + 2 == |items| && BindingsFit(items, bs)
    ensures MeansLet(items[1..|items| - 1], ToBindings(bs))
  {
    var mid := items[1..|items| - 1];
    forall i | 0 <= i < |bs|
      ensures IsBinding(mid[i]) && bs[i].0 == BoundName(mid[i]) && Means(mid[i].items[1], bs[i].1) {
      assert BindingFits(items, bs, i) && mid[i] == items[1 + i];
    }
    ToBindingsOk(mid, bs);
  }

  lemma {:induction false} BoundAre(items: seq<Sexpr>, bs: seq<(string, Ast)>, k: nat)
    requires k <= |bs| < |items| && BindingsFit(items, bs)
    ensures BoundNames(items, k) == NamesOf(bs, k)
  {
    if k > 0 {
      BoundAre(items, bs, k - 1);
      assert NamesOf(bs, k) == NamesOf(bs, k - 1) + {bs[k - 1].0};
      assert BindingFits(items, bs, k - 1);
    }
  }

  // What is promised of a program analysed while the scopes went from fs to gs: every
  // variable is in sight, and exactly what has to be captured is, by every lambda in it
  // and around it.
  ghost predicate InOrder(a: Ast, fs: seq<Frame>, gs: seq<Frame>, globals: set<string>)
    requires |fs| == |gs|
  {
    Wf(a, Vis(gs, |gs|), globals) && Exact(a, Names(fs, |fs|)) && Took(fs, gs, Free(a), |fs|)
  }

  // The parts of a let, analysed one after the other, make it.
  lemma LetDone(items: seq<Sexpr>, bs: seq<(string, Ast)>, body: Ast, star: bool,
        fs: seq<Frame>, fs1: seq<Frame>, gs: seq<Frame>, globals: set<string>)
    requires |bs| + 2 == |items| && BindingsFit(items, bs) && Grew(fs, fs1) && Grew(fs1, gs)
    requires BindsWf(bs, star, Vis(fs1, |fs1|), Names(fs, |fs|), globals) && Took(fs, fs1, FreeTo(bs, star, |bs|), |fs|)
    requires var vars := BoundNames(items, |bs|);
             && Wf(body, vars + Vis(gs, |gs|), globals) && Exact(body, vars + Names(fs1, |fs1|))
             && Took(fs1, gs, Free(body) - vars, |fs|)
    ensures InOrder(if star then LetStar(ToBindings(bs), body) else Let(ToBindings(bs), body), fs, gs, globals)
  {
    var vars, known := BoundNames(items, |bs|), Names(fs, |fs|);
    GrewNames(fs, fs1, |fs|);
    GrewNames(fs1, gs, |fs|);
    BindsMore(bs, star, Vis(fs1, |fs|), Vis(gs, |fs|), known, globals);
    BindsDone(bs, star, Vis(gs, |fs|), known, globals);
    BoundAre(items, bs, |bs|);
    FreeOfLet(bs, body, star);
    TookTrans(fs, fs1, gs, FreeTo(bs, star, |bs|), Free(body) - vars, |fs|);
    assert vars + Vis(gs, |fs|) == Vis(gs, |fs|) + vars && vars + known == known + vars;
  }

  class Scopes {
    const globals: set<string>
    var frames: seq<Frame>

    constructor (globals: set<string>)
      ensures this.globals == globals && frames == [] && ScopesOk(frames)
    {
      this.globals := globals;
      frames := [];
    }

    // Scope::lookup from the n innermost scopes. What a lambda's own scope does not
    // know, but an outer one does, is captured by every lambda in between.
    method Lookup(name: string, n: nat) returns (k: VarKind)
      requires ScopesOk(frames) && n <= |frames|
      modifies this`frames
      ensures ScopesOk(frames) && Grew(old(frames), frames)
      ensures forall i :: n <= i < |frames| ==> frames[i] == old(frames)[i]
      ensures k == if name in Names(old(frames), n) then LocalVar else if name in globals then GlobalVar else NotFound
      ensures k == LocalVar ==> name in Vis(frames, n)
      ensures Took(old(frames), frames, {name}, n)
      decreases n
    {
      GrewSelf(frames);
      if n == 0 {
        return if name in globals then GlobalVar else NotFound;
      }
      ghost var fs0 := frames;
      var f := frames[n - 1];
      match f
      case Local(vars) =>
        if name in vars {
          TookInSight(frames, n, name);
          return LocalVar;
        }
        k := Lookup(name, n - 1);
        assert FrameGrew(f, frames[n - 1]);
        TookOuter(fs0, frames, frames, name, n);
      case Lam(self, params, capture) =>
        assert FrameOk(frames, n - 1);
        VisNames(frames, n - 1);
        if name in params || (self != "" && name == self) || name in capture {
          TookInSight(frames, n, name);
          return LocalVar;
        }
        k := Lookup(name, n - 1);
        ghost var fs := frames;
        if k == LocalVar {
          Captured(frames, n, name);
          frames := frames[n - 1 := f.(capture := capture + [name])];
          GrewTrans(fs0, fs, frames);
        }
        TookOuter(fs0, fs, frames, name, n);
    }

    ghost function Visible(): set<string>
      reads this
    {
      Vis(frames, |frames|)
    }

    ghost function Known(): set<string>
      reads this
    {
      Names(frames, |frames|)
    }

    // analyzeExpr. The result is Good exactly for legal programs; then it is the
    // program analysed, with every variable in sight where it is used and captured
    // exactly where it has to be.
    method Analyze(e: Sexpr) returns (r: Analysis)
      requires ScopesOk(frames)
      modifies this`frames
      ensures ScopesOk(frames) && Grew(old(frames), frames)
      ensures r.Good? <==> Legal(e, old(Known()), globals)
      ensures r.Good? ==> Means(e, r.ast) && InOrder(r.ast, old(frames), frames, globals)
      decreases e, 2
    {
      GrewSelf(frames);
      TookNothing(frames, |frames|);
      match e
      case Int(n) => return Good(Const(Num(n)));
      case Real(t) => return Good(Const(Flo(t)));
      case Char(c) => return Good(Const(Chr(c)));
      case Str(s) => return Good(Const(Value.Str(s)));
      case Sym(x) =>
        var k := Lookup(x, |frames|);
        return if k == NotFound then Bad else Good(Var(x));
      case List(items) =>
        if items == [] { return Good(Const(VNil)); }
        if HasHead(items, "quote") {
          return if |items| == 2 then Good(Quote(QuoteValue(items[1]))) else Bad;
        }
        if HasHead(items, "if") {
          r := AnalyzeIf(e);
        } else if HasHead(items, "let") {
          r := AnalyzeLet(e, false);
        } else if HasHead(items, "let*") {
          r := AnalyzeLet(e, true);
        } else if HasHead(items, "do") {
          r := AnalyzeDo(e);
        } else if HasHead(items, "lambda") {
          r := AnalyzeLambda(e);
        } else if HasHead(items, "define") {
          return Bad;
        } else {
          r := AnalyzeApplication(e);
        }
    }

    // The elements of a list from number lo on, one after the other.
    method AnalyzeFrom(e: Sexpr, lo: nat) returns (ok: bool, asts: seq<Ast>)
      requires ScopesOk(frames) && e.List? && lo <= |e.items|
      modifies this`frames
      ensures ScopesOk(frames) && Grew(old(frames), frames)
      ensures ok <==> forall i :: lo <= i < |e.items| ==> Legal(e.items[i], old(Known()), globals)
      ensures ok ==> |asts| == |e.items| - lo && PartsOk(e.items, lo, asts, Visible(), old(Known()), globals)
      ensures ok ==> Took(old(frames), frames, FreeAll(ToAsts(asts)), |frames|)
      decreases e, 0
    {
      ok, asts := true, [];
      ghost var fs0, known := frames, Known();
      GrewSelf(frames);
      TookNothing(frames, |frames|);
      var i := lo;
      while i < |e.items|
        invariant lo <= i <= |e.items| && |asts| == i - lo && ScopesOk(frames) && Grew(fs0, frames)
        invariant forall j :: lo <= j < i ==> Legal(e.items[j], known, globals)
        invariant PartsOk(e.items, lo, asts, Visible(), known, globals)
        invariant Took(fs0, frames, FreeAll(ToAsts(asts)), |frames|)
      {
        ghost var fs := frames;
        GrewNames(fs0, frames, |frames|);
        var r := Analyze(e.items[i]);
        GrewTrans(fs0, fs, frames);
        if r.Bad? { return false, []; }
        GrewNames(fs, frames, |frames|);
        PartsAdd(e.items, lo, asts, r.ast, Vis(fs, |fs|), Visible(), known, globals);
        TookTrans(fs0, fs, frames, FreeAll(ToAsts(asts)), Free(r.ast), |frames|);
        FreeSnoc(asts, r.ast);
        asts := asts + [r.ast];
        i := i + 1;
      }
    }

    method AnalyzeIf(e: Sexpr) returns (r: Analysis)
      requires ScopesOk(frames) && e.List? && HasHead(e.items, "if")
      modifies this`frames
      ensures ScopesOk(frames) && Grew(old(frames), frames)
      ensures r.Good? <==> Legal(e, old(Known()), globals)
      ensures r.Good? ==> Means(e, r.ast) && InOrder(r.ast, old(frames), frames, globals)
      decreases e, 1
    {
      GrewSelf(frames);
      if |e.items| != 4 { return Bad; }
      var ok, asts := AnalyzeFrom(e, 1);
      if !ok { return Bad; }
      ghost var vis, known := Visible(), old(Known());
      assert PartOk(e.items, 1, asts, 0, vis, known, globals);
      assert PartOk(e.items, 1, asts, 1, vis, known, globals);
      assert PartOk(e.items, 1, asts, 2, vis, known, globals);
      assert FreeAll(ToAsts(asts)) == Free(asts[0]) + Free(asts[1]) + Free(asts[2]) by { FreeThree(asts); }
      return Good(If(asts[0], asts[1], asts[2]));
    }

    method AnalyzeDo(e: Sexpr) returns (r: Analysis)
      requires ScopesOk(frames) && e.List? && HasHead(e.items, "do")
      modifies this`frames
      ensures ScopesOk(frames) && Grew(old(frames), frames)
      ensures r.Good? <==> Legal(e, old(Known()), globals)
      ensures r.Good? ==> Means(e, r.ast) && InOrder(r.ast, old(frames), frames, globals)
      decreases e, 1
    {
      GrewSelf(frames);
      if |e.items| < 2 { return Bad; }
      var ok, asts := AnalyzeFrom(e, 1);
      if !ok { return Bad; }
      PartsAre(e.items, 1, asts, 0, Visible(), old(Known()), globals);
      assert asts[0..] == asts;
      return Good(Do(ToAsts(asts)));
    }

    // analyzeApplication, without the check of the possible types of the head.
    method AnalyzeApplication(e: Sexpr) returns (r: Analysis)
      requires ScopesOk(frames) && e.List? && e.items != []
      requires !HasHead(e.items, "quote") && !HasHead(e.items, "if") && !HasHead(e.items, "let")
               && !HasHead(e.items, "let*")
      requires !HasHead(e.items, "do") && !HasHead(e.items, "lambda") && !HasHead(e.items, "define")
      modifies this`frames
      ensures ScopesOk(frames) && Grew(old(frames), frames)
      ensures r.Good? <==> Legal(e, old(Known()), globals)
      ensures r.Good? ==> Means(e, r.ast) && InOrder(r.ast, old(frames), frames, globals)
      decreases e, 1
    {
      var ok, asts := AnalyzeFrom(e, 0);
      if !ok || |e.items| - 1 > MAX_ARITY { return Bad; }
      assert PartOk(e.items, 0, asts, 0, Visible(), old(Known()), globals);
      PartsAre(e.items, 0, asts, 1, Visible(), old(Known()), globals);
      return Good(App(asts[0], ToAsts(asts[1..])));
    }

    // The body of a let or lambda, in a scope of its own.
    method AnalyzeBody(body: Sexpr, f: Frame, ghost e: Sexpr) returns (r: Analysis, g: Frame)
      requires ScopesOk(frames) && (f.Lam? ==> f.capture == [] && Distinct(f.params)) && e.List? && body in e.items
      modifies this`frames
      ensures ScopesOk(frames) && Grew(old(frames), frames) && FrameGrew(f, g)
      ensures r.Good? <==> Legal(body, (if f.Local? then f.vars else Own(f.self, f.params)) + old(Known()), globals)
      ensures r.Good? ==> Means(body, r.ast)
      ensures r.Good? && f.Local? ==> Wf(r.ast, f.vars + Visible(), globals)
      ensures f.Lam? ==>
              ToSet(g.capture) <= Visible() && Distinct(g.capture)
              && ToSet(g.capture) !! Own(f.self, f.params)
      ensures r.Good? && f.Lam? ==> Wf(r.ast, Own(f.self, f.params) + ToSet(g.capture), globals)
      ensures r.Good? ==>
              Exact(r.ast, Bound(f) + old(Known()))
              && Took(old(frames), frames, Free(r.ast) - Bound(f), |frames|)
      ensures r.Good? && f.Lam? ==> ToSet(g.capture) == (Free(r.ast) - Own(f.self, f.params)) * old(Known())
      decreases e, 0, 0
    {
      ghost var fs := frames;
      PushOk(frames, f);
      frames := frames + [f];
      ghost var both := frames;
      r := Analyze(body);
      PopOk(fs, f, frames);
      if r.Good? { TookPop(fs, f, frames, Free(r.ast)); }
      assert Names(both, |both|) == Bound(f) + Names(fs, |fs|);
      g := frames[|frames| - 1];
      frames := frames[..|frames| - 1];
    }

    // analyzeLet and, with star, analyzeLetStar.
    method AnalyzeLet(e: Sexpr, star: bool) returns (r: Analysis)
      requires ScopesOk(frames) && e.List? && HasHead(e.items, if star then "let*" else "let")
      modifies this`frames
      ensures ScopesOk(frames) && Grew(old(frames), frames)
      ensures r.Good? <==> Legal(e, old(Known()), globals)
      ensures r.Good? ==> Means(e, r.ast) && InOrder(r.ast, old(frames), frames, globals)
      decreases e, 1
    {
      LegalLet(e, star, Known(), globals);
      GrewSelf(frames);
      if |e.items| < 3 { return Bad; }
      var ok, bs, body := AnalyzeLetParts(e, star);
      if !ok { return Bad; }
      return Good(if star then LetStar(ToBindings(bs), body) else Let(ToBindings(bs), body));
    }

    method AnalyzeLetParts(e: Sexpr, star: bool) returns (ok: bool, bs: seq<(string, Ast)>, body: Ast)
      requires ScopesOk(frames) && e.List? && |e.items| >= 3
      modifies this`frames
      ensures ScopesOk(frames) && Grew(old(frames), frames)
      ensures ok <==> && BindsLegal(e.items, star, |e.items| - 1, old(Known()), globals)
                      && Legal(e.items[|e.items| - 1], BoundNames(e.items, |e.items| - 2) + old(Known()), globals)
      ensures ok ==> MeansLet(e.items[1..|e.items| - 1], ToBindings(bs)) && Means(e.items[|e.items| - 1], body)
      ensures ok ==>
        InOrder(if star then LetStar(ToBindings(bs), body) else Let(ToBindings(bs), body), old(frames), frames, globals)
      decreases e, 0, 2
    {
      ghost var fs, known := frames, Known();
      ok, bs := AnalyzeBindings(e, star, known);
      if !ok { return false, [], Const(VNil); }
      ghost var fs1 := frames;
      GrewNames(fs, frames, |frames|);
      var vars := BoundNames(e.items, |e.items| - 2);
      var r, g := AnalyzeBody(e.items[|e.items| - 1], Local(vars), e);
      GrewTrans(fs, fs1, frames);
      if r.Bad? { return false, [], Const(VNil); }
      body := r.ast;
      BindingsMean(e.items, bs);
      LetDone(e.items, bs, body, star, fs, fs1, frames, globals);
    }

    // The bindings. In a let the right-hand sides see the outer scopes only, in a let*
    // also the variables before.
    method AnalyzeBindings(e: Sexpr, star: bool, ghost known: set<string>) returns (ok: bool, bs: seq<(string, Ast)>)
      requires ScopesOk(frames) && e.List? && |e.items| >= 3 && known == Known()
      modifies this`frames
      ensures ScopesOk(frames) && Grew(old(frames), frames)
      ensures ok <==> BindsLegal(e.items, star, |e.items| - 1, known, globals)
      ensures ok ==> |bs| == |e.items| - 2 && BindingsFit(e.items, bs) && BindsWf(bs, star, Visible(), known, globals)
      ensures ok ==> Took(old(frames), frames, FreeTo(bs, star, |bs|), |frames|)
      decreases e, 0, 1
    {
      ok, bs := true, [];
      GrewSelf(frames);
      TookNothing(frames, |frames|);
      var i := 1;
      while i < |e.items| - 1
        invariant 1 <= i <= |e.items| - 1 && |bs| == i - 1 && ScopesOk(frames) && Grew(old(frames), frames)
                  && Known() == known
        invariant BindsLegal(e.items, star, i, known, globals) && BindingsFit(e.items, bs)
        invariant BindsWf(bs, star, Visible(), known, globals)
                  && Took(old(frames), frames, FreeTo(bs, star, |bs|), |frames|)
      {
        var good;
        good, bs := AnalyzeBinding(e, star, i, bs, known, old(frames));
        if !good { return false, []; }
        i := i + 1;
      }
    }

    method AnalyzeBinding(e: Sexpr, star: bool, i: nat, bs: seq<(string, Ast)>, ghost known: set<string>,
          ghost fs0: seq<Frame>)
      returns (ok: bool, bs2: seq<(string, Ast)>)
      requires ScopesOk(frames) && e.List? && 0 < i < |e.items| - 1 && |bs| == i - 1 && known == Known()
               && Grew(fs0, frames)
      requires BindsLegal(e.items, star, i, known, globals) && BindingsFit(e.items, bs)
      requires BindsWf(bs, star, Visible(), known, globals) && Took(fs0, frames, FreeTo(bs, star, |bs|), |frames|)
      modifies this`frames
      ensures ScopesOk(frames) && Grew(fs0, frames) && Known() == known
      ensures ok <==> BindingLegal(e.items, star, i, known, globals)
      ensures ok ==> |bs2| == i && BindingsFit(e.items, bs2)
      ensures ok ==>
              BindsWf(bs2, star, Visible(), known, globals)
              && Took(fs0, frames, FreeTo(bs2, star, |bs2|), |frames|)
      decreases e, 0, 0
    {
      var b := e.items[i];
      var vars := BoundNames(e.items, i - 1);
      if !IsBinding(b) || BoundName(b) in vars { return false, []; }
      ghost var fs := frames;
      var r := AnalyzeInside(b.items[1], if star then vars else {}, b);
      GrewTrans(fs0, fs, frames);
      GrewNames(fs, frames, |frames|);
      if r.Bad? { return false, []; }
      ghost var bound := if star then vars else {};
      BindsMore(bs, star, Vis(fs, |fs|), Visible(), known, globals);
      BoundAre(e.items, bs, |bs|);
      assert bound + Visible() == Visible() + bound && bound + known == known + bound;
      BindsStep(bs, star, (BoundName(b), r.ast), Visible(), known, globals);
      FitsStep(e.items, bs, (BoundName(b), r.ast));
      TookTrans(fs0, fs, frames, FreeTo(bs, star, |bs|), Free(r.ast) - bound, |frames|);
      FreeToPrefix(bs, (BoundName(b), r.ast), star, |bs|);
      return true, bs + [(BoundName(b), r.ast)];
    }

    // An expression inside a scope that binds vars.
    method AnalyzeInside(body: Sexpr, vars: set<string>, ghost e: Sexpr) returns (r: Analysis)
      requires ScopesOk(frames) && e.List? && body in e.items
      modifies this`frames
      ensures ScopesOk(frames) && Grew(old(frames), frames)
      ensures r.Good? <==> Legal(body, vars + old(Known()), globals)
      ensures r.Good? ==> Means(body, r.ast) && Wf(r.ast, vars + Visible(), globals)
      ensures r.Good? ==> Exact(r.ast, vars + old(Known())) && Took(old(frames), frames, Free(r.ast) - vars, |frames|)
      decreases e, 0, 1
    {
      if vars == {} {
        r := Analyze(body);
        assert vars + old(Known()) == old(Known()) && vars + Visible() == Visible();
        assert r.Good? ==> Free(r.ast) - vars == Free(r.ast);
      } else {
        var g;
        r, g := AnalyzeBody(body, Local(vars), e);
      }
    }

    method AnalyzeLambda(e: Sexpr) returns (r: Analysis)
      requires ScopesOk(frames) && e.List? && HasHead(e.items, "lambda")
      modifies this`frames
      ensures ScopesOk(frames) && Grew(old(frames), frames)
      ensures r.Good? <==> Legal(e, old(Known()), globals)
      ensures r.Good? ==> Means(e, r.ast) && InOrder(r.ast, old(frames), frames, globals)
      decreases e, 1
    {
      GrewSelf(frames);
      if !(3 <= |e.items| <= 4) { return Bad; }
      var self, idx := "", 1;
      if e.items[1].Sym? {
        self, idx := e.items[1].id, 2;
        if |e.items| == 3 { return Bad; }
      }
      var ps := e.items[idx];
      if !ps.List? { return Bad; }
      var ok, params := CheckParams(ps.items);
      if !ok { return Bad; }
      var body, g := AnalyzeBody(e.items[idx + 1], Lam(self, params, []), e);
      if body.Bad? { return Bad; }
      assert Own(self, params) + ToSet(g.capture) == ToSet(g.capture) + Own(self, params);
      assert Own(self, params) + old(Known()) == old(Known()) + Own(self, params);
      return Good(Lambda(self, params, g.capture, body.ast));
    }

    // The parameter list: symbols, each declared once.
    method CheckParams(items: seq<Sexpr>) returns (ok: bool, params: seq<string>)
      ensures ok <==> AllSymbols(items) && Distinct(SymNames(items))
      ensures ok ==> params == SymNames(items)
    {
      ok, params := true, [];
      var i := 0;
      while i < |items|
        invariant 0 <= i <= |items| && |params| == i && Distinct(params)
        invariant forall j :: 0 <= j < i ==> items[j].Sym? && items[j].id == params[j]
      {
        if !items[i].Sym? {
          assert items[i] in items;
          return false, [];
        }
        if items[i].id in params {
          if AllSymbols(items) {
            var j :| 0 <= j < i && params[j] == items[i].id;
            assert SymNames(items)[j] == SymNames(items)[i];
          }
          return false, [];
        }
        params := params + [items[i].id];
        i := i + 1;
      }
      assert AllSymbols(items) && params == SymNames(items);
    }
  }
}
