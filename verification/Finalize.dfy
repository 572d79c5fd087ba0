// Finalization at the end of a collection: weak links to dead objects are
// cleared, everything that finalizable objects refer to is marked, and the
// objects that are then still unmarked are queued.
module Finalize {
  import opened Graphs
  import opened GcHeap
  import opened Mark
  import opened MarkRun
  import opened Options

  // ---------------------------------------------------------------------
  // Closures of sets of objects.

  ghost function Closure(h: Heap, src: set<Obj>): set<Obj> {
    Reached(h.EdgeRel(), src, h.AllObjs())
  }

  ghost predicate ClosedMarks(h: Heap, marked: set<Obj>) {
    EdgeClosed(h.EdgeRel(), marked) && h.RootObjs() <= marked
  }

  ghost predicate AreObjs(h: Heap, s: set<Obj>) {
    forall o :: o in s ==> h.IsObj(o)
  }

  // What o refers to directly.
  ghost function Succ(h: Heap, o: Obj): set<Obj> {
    set p | p in h.AllObjs() && h.Edge(o, p)
  }

  ghost function SuccAll(h: Heap, s: set<Obj>): set<Obj> {
    set p | p in h.AllObjs() && exists o :: o in s && h.Edge(o, p)
  }

  lemma ClosureFacts(h: Heap, src: set<Obj>)
    requires h.Valid() && AreObjs(h, src)
    ensures src <= Closure(h, src) && EdgeClosed(h.EdgeRel(), Closure(h, src)) && AreObjs(h, Closure(h, src))
  {
    forall o | o in src ensures o in h.AllObjs() { AllObjsHasObjs(h, o); }
    forall o, p | o in h.AllObjs() && h.EdgeRel()(o, p) ensures p in h.AllObjs() { AllObjsHasObjs(h, p); }
    ReachedIsLeastClosed(h.EdgeRel(), src, h.AllObjs());
    forall o | o in Closure(h, src) ensures h.IsObj(o) { AllObjsHasObjs(h, o); }
  }

  lemma ClosureLeast(h: Heap, src: set<Obj>, S: set<Obj>)
    requires h.Valid() && AreObjs(h, src) && EdgeClosed(h.EdgeRel(), S) && src <= S
    ensures Closure(h, src) <= S
  {
    forall o | o in src ensures o in h.AllObjs() { AllObjsHasObjs(h, o); }
    ClosedContains(h.EdgeRel(), src, S);
  }

  // A set between src and the closure of src has the same closure.
  lemma ClosureBetween(h: Heap, src: set<Obj>, mid: set<Obj>)
    requires h.Valid() && AreObjs(h, src) && src <= mid <= Closure(h, src)
    ensures Closure(h, mid) == Closure(h, src)
  {
    ClosureFacts(h, src);
    ClosureFacts(h, mid);
    ClosureLeast(h, src, Closure(h, mid));
    ClosureLeast(h, mid, Closure(h, src));
  }

  lemma ClosureMono(h: Heap, a: set<Obj>, b: set<Obj>)
    requires h.Valid() && AreObjs(h, b) && a <= b
    ensures Closure(h, a) <= Closure(h, b)
  {
    ClosureFacts(h, b);
    ClosureLeast(h, a, Closure(h, b));
  }

  lemma ClosureAbsorbs(h: Heap, a: set<Obj>, b: set<Obj>)
    requires h.Valid() && AreObjs(h, a) && AreObjs(h, b)
    ensures Closure(h, Closure(h, a) + b) == Closure(h, a + b)
  {
    ClosureFacts(h, a + b);
    ClosureFacts(h, a);
    ClosureMono(h, a, a + b);
    ClosureBetween(h, a + b, Closure(h, a) + b);
  }

  // ---------------------------------------------------------------------
  // GC_MARK_FO with the normal mark procedure.

  // The marker between two mark phases: the stack is empty and the marks are closed.
  ghost predicate Quiet(m: Marker)
    reads m
  {
    && m.Valid() && m.h.Disjoint()
    && m.state == MsNone && m.stack == []
    && ClosedMarks(m.h, m.marked)
  }

  lemma ClosedIsCovered(h: Heap, marked: set<Obj>)
    requires h.Valid() && ClosedMarks(h, marked)
    ensures Covered(h, marked, [] + [], h.blocks.Keys, AllRoots(h))
  {
    forall o | o in marked && h.IsObj(o) ensures EntryOk(h, marked, [] + [], h.EntryOf(o)) {
      forall a | Covers(h.EntryOf(o), a) ensures Clean(h, marked, a) {
        if h.Target(a).Some? { assert h.EdgeRel()(o, h.Target(a).value); }
      }
    }
    forall r | r in AllRoots(h) ensures EntryOk(h, marked, [] + [], r) {
      forall a | Covers(r, a) ensures Clean(h, marked, a) {
        assert h.RootWord(a);
        if h.Target(a).Some? {
          AllObjsHasObjs(h, h.Target(a).value);
          assert h.Target(a).value in h.RootObjs();
        }
      }
    }
  }

  lemma CoveredIsClosed(h: Heap, marked: set<Obj>, R: set<Entry>)
    requires h.Valid() && AreObjs(h, marked)
    requires Covered(h, marked, [] + [], h.blocks.Keys, R) && AllRoots(h) <= R
    ensures ClosedMarks(h, marked)
  {
    forall o, p | o in marked && h.EdgeRel()(o, p) ensures p in marked {
      var a :| Covers(h.EntryOf(o), a) && h.Target(a) == Some(p);
      assert EntryOk(h, marked, [] + [], h.EntryOf(o));
      assert !Pending([] + [], a);
    }
    forall p | p in h.RootObjs() ensures p in marked {
      var a :| h.RootWord(a) && h.Target(a) == Some(p);
      var r :| (r in h.statics || r in h.stacks) && r.start <= a < r.start + r.words;
      assert RangeEntry(r) in AllRoots(h) && Covers(RangeEntry(r), a);
      assert !Pending([] + [], a);
    }
  }

  lemma CoveredSucc(h: Heap, marked: set<Obj>, p: Obj)
    requires h.Valid() && h.IsObj(p) && EntryOk(h, marked, [] + [], h.EntryOf(p))
    ensures Succ(h, p) <= marked
  {
    forall q | q in Succ(h, p) ensures q in marked {
      var a :| Covers(h.EntryOf(p), a) && h.Target(a) == Some(q);
      assert !Pending([] + [], a);
    }
  }

  lemma SuccInside(h: Heap, p: Obj, S: set<Obj>)
    requires h.Valid() && h.IsObj(p) && Succ(h, p) <= S
    ensures EntryOk(h, S, [], h.EntryOf(p))
  {
    forall a | Covers(h.EntryOf(p), a) ensures Clean(h, S, a) {
      if h.Target(a).Some? {
        AllObjsHasObjs(h, h.Target(a).value);
        assert h.Edge(p, h.Target(a).value);
      }
    }
  }

  // A closed set that contains the marks bounds what marking can add.
  lemma ClosureUpper(h: Heap, marked: set<Obj>, src: set<Obj>)
    requires h.Valid() && AreObjs(h, src) && marked <= src && ClosedMarks(h, marked)
    ensures Upper(h, Closure(h, src)) && src <= Closure(h, src)
  {
    ClosureFacts(h, src);
    ClosedIsCovered(h, marked);
    forall r | r in AllRoots(h) ensures EntryOk(h, Closure(h, src), [], r) {
      assert EntryOk(h, marked, [] + [], r);
      forall a | Covers(r, a) ensures Clean(h, Closure(h, src), a) {
        assert !Pending([] + [], a);
      }
    }
  }

  // Where the marking for p starts.
  ghost function FoStart(h: Heap, marked: set<Obj>, p: Obj): Run
    requires h.IsObj(p)
  {
    Run(marked, if h.EntryOf(p).descr == Length(0) then [] else [h.EntryOf(p)], false)
  }

  // Marking what p refers to overflows the mark stack.
  ghost predicate FoOverflows(h: Heap, size: nat, marked: set<Obj>, p: Obj)
    requires h.Valid() && h.IsObj(p) && INITIAL_MARK_STACK_SIZE <= size
  {
    Overflows(h, size, FoStart(h, marked, p))
  }

  // It cannot when the stack has room for every unmarked object.
  lemma FoFits(h: Heap, size: nat, marked: set<Obj>, p: Obj)
    requires h.Valid() && h.IsObj(p) && INITIAL_MARK_STACK_SIZE <= size && Unmarked(h, marked) < size
    ensures !FoOverflows(h, size, marked, p)
  {
    RoomIsEnough(h, size, FoStart(h, marked, p));
  }

  // GC_normal_finalize_mark_proc: push p without marking it.
  method PushFo(m: Marker, p: Obj)
    requires Quiet(m) && m.h.IsObj(p)
    modifies m`stack, m`state, m`tooSmall
    ensures m.marked == old(m.marked) && m.state == MsNone
    ensures m.Scanning([], m.h.blocks.Keys, AllRoots(m.h) + {m.h.EntryOf(p)}, Closure(m.h, m.marked + Succ(m.h, p)))
    ensures Upper(m.h, Closure(m.h, m.marked + Succ(m.h, p)))
    ensures m.Now() == FoStart(m.h, m.marked, p)
  {
    var e := m.h.EntryOf(p);
    ghost var S := Closure(m.h, m.marked + Succ(m.h, p));
    SuccObjs(m.h, p);
    ClosureUpper(m.h, m.marked, m.marked + Succ(m.h, p));
    SuccInside(m.h, p, S);
    ClosedIsCovered(m.h, m.marked);
    if e.descr != Length(0) {
      m.PushEntry(e);
      GrayPushed(m.h, [], m.stackSize, e, S);
    }
    EntryAdded(m.h, m.marked, m.stack, e);
  }

  lemma SuccObjs(h: Heap, p: Obj)
    ensures AreObjs(h, Succ(h, p))
  {
    forall q | q in Succ(h, p) ensures h.IsObj(q) { AllObjsHasObjs(h, q); }
  }

  lemma EntryAdded(h: Heap, marked: set<Obj>, stack: seq<Entry>, e: Entry)
    requires Covered(h, marked, [] + [], h.blocks.Keys, AllRoots(h))
    requires stack == if e.descr == Length(0) then [] else [e]
    ensures Covered(h, marked, stack + [], h.blocks.Keys, AllRoots(h) + {e})
  {
    assert stack + [] == stack;
    CoveredTransfer(h, marked, [] + [], stack, h.blocks.Keys, AllRoots(h));
    forall a | Covers(e, a) ensures Pending(stack, a) { assert e in stack; }
  }

  // The end of MarkFo when nothing was thrown away.
  lemma FoMarked(h: Heap, m0: set<Obj>, marked: set<Obj>, p: Obj)
    requires h.Valid() && h.IsObj(p) && AreObjs(h, marked)
    requires m0 <= marked <= Closure(h, m0 + Succ(h, p))
    requires Covered(h, marked, [] + [], h.blocks.Keys, AllRoots(h) + {h.EntryOf(p)})
    ensures ClosedMarks(h, marked) && marked == Closure(h, m0 + Succ(h, p))
  {
    CoveredIsClosed(h, marked, AllRoots(h) + {h.EntryOf(p)});
    CoveredSucc(h, marked, p);
    SuccObjs(h, p);
    ClosureLeast(h, m0 + Succ(h, p), marked);
  }

  // The end of MarkFo after an overflow: p is marked too, and a mark phase restores
  // the closure.
  method MarkAgain(m: Marker, p: Obj, ghost m0: set<Obj>)
    requires m.Valid() && m.h.Disjoint() && m.h.IsObj(p)
    requires m.state == MsInvalid && m.objectsAreMarked && m.stack == []
    requires m0 <= m.marked <= Closure(m.h, m0 + Succ(m.h, p)) && ClosedMarks(m.h, m0)
    modifies m
    ensures Quiet(m) && m.h == old(m.h) && m.marked == Closure(m.h, m0 + {p})
  {
    m.SetMarkBit(p);
    ghost var pinned := m.marked;
    PinnedReached(m.h, pinned);
    m.MarkToCompletion(pinned);
    AgainMarked(m.h, m0, pinned, p);
  }

  lemma SuccClosure(h: Heap, m0: set<Obj>, p: Obj)
    requires h.Valid() && h.IsObj(p) && AreObjs(h, m0)
    ensures Closure(h, m0 + Succ(h, p)) <= Closure(h, m0 + {p})
  {
    var C := Closure(h, m0 + {p});
    ClosureFacts(h, m0 + {p});
    SuccObjs(h, p);
    forall q | q in Succ(h, p) ensures q in C { assert h.EdgeRel()(p, q); }
    ClosureLeast(h, m0 + Succ(h, p), C);
  }

  lemma ReachSetBetween(h: Heap, src: set<Obj>, pinned: set<Obj>)
    requires h.Valid() && AreObjs(h, src) && h.RootObjs() <= src <= pinned <= Closure(h, src)
    ensures h.ReachSet(pinned) == Closure(h, src)
  {
    assert h.RootObjs() + pinned == pinned;
    ClosureBetween(h, src, pinned);
  }

  lemma AgainMarked(h: Heap, m0: set<Obj>, pinned: set<Obj>, p: Obj)
    requires h.Valid() && h.IsObj(p) && AreObjs(h, pinned) && ClosedMarks(h, m0)
    requires m0 + {p} <= pinned <= Closure(h, m0 + Succ(h, p)) + {p}
    ensures h.ReachSet(pinned) == Closure(h, m0 + {p}) && ClosedMarks(h, h.ReachSet(pinned))
  {
    SuccClosure(h, m0, p);
    ClosureFacts(h, m0 + {p});
    ReachSetBetween(h, m0 + {p}, pinned);
  }

  // Mark what p refers to, and what that reaches. An overflow of the mark stack is
  // repaired by a new mark phase, but then p itself is marked as well.
  method MarkFo(m: Marker, p: Obj) returns (overflowed: bool)
    requires Quiet(m) && m.h.IsObj(p)
    modifies m
    ensures Quiet(m) && m.h == old(m.h)
    ensures m.marked == Closure(m.h, old(m.marked) + if overflowed then {p} else Succ(m.h, p))
    ensures overflowed <==> FoOverflows(m.h, old(m.stackSize), old(m.marked), p)
    ensures !overflowed ==> m.stackSize == old(m.stackSize)
  {
    ghost var start, size, m0 := FoStart(m.h, m.marked, p), m.stackSize, m.marked;
    PushFo(m, p);
    ghost var n: nat := 0;
    ghost var R := AllRoots(m.h) + {m.h.EntryOf(p)};
    ghost var S := Closure(m.h, m0 + Succ(m.h, p));
    while m.stack != []
      invariant m.h == old(m.h) && m.h.Disjoint() && m0 <= m.marked
      invariant FoMarking(m, R, S, size, start, n)
      decreases Unmarked(m.h, m.marked), Work(m.stack)
    {
      n := MarkOn(m, R, S, size, start, n);
    }
    OverflowsAtEnd(m.h, size, start, n);
    overflowed := m.state != MsNone;
    if overflowed {
      MarkAgain(m, p, m0);
    } else {
      FoMarked(m.h, m0, m.marked, p);
    }
  }

  // The state of the marking for an object after n rounds.
  ghost predicate FoMarking(m: Marker, R: set<Entry>, S: set<Obj>, size: nat, start: Run, n: nat)
    reads m
  {
    && m.Scanning([], m.h.blocks.Keys, R, S) && Upper(m.h, S) && m.stackSize == size && Fits(start, size)
    && (m.state == MsNone || (m.state == MsInvalid && m.objectsAreMarked))
    && m.Now() == Rounds(m.h, size, start, n)
  }

  method MarkOn(m: Marker, ghost R: set<Entry>, ghost S: set<Obj>, ghost size: nat, ghost start: Run, ghost n: nat)
    returns (ghost n2: nat)
    requires FoMarking(m, R, S, size, start, n) && m.stack != []
    modifies m`marked, m`nMarks, m`stack, m`state, m`tooSmall, m`objectsAreMarked
    ensures FoMarking(m, R, S, size, start, n2)
    ensures m.Progress(old(m.marked), old(m.state), Work(old(m.stack)))
  {
    ghost var was := m.Now();
    ghost var k := m.MarkFrom(m.h.blocks.Keys, R, S);
    RoundsAdd(m.h, size, start, n, k);
    n2 := n + k;
  }

  // ---------------------------------------------------------------------
  // Hash tables of registered objects and of disappearing links.

  // A registered object and its size; the base is the hash key.
  datatype FinObj = FinObj(base: Obj, size: nat)

  // A weak link: the word at link is cleared when obj is not marked.
  datatype DLink = DLink(link: int, obj: Obj)

  // All entries of a table, bucket by bucket.
  function Flat<T>(t: seq<seq<T>>): seq<T> {
    if t == [] then [] else Flat(t[..|t| - 1]) + t[|t| - 1]
  }

  // The entries whose objects are in S, and the others, in chain order.
  function Keep(s: seq<FinObj>, S: set<Obj>): seq<FinObj> {
    if s == [] then []
    else Keep(s[..|s| - 1], S) + if s[|s| - 1].base in S then [s[|s| - 1]] else []
  }

  function Rest(s: seq<FinObj>, S: set<Obj>): seq<FinObj> {
    if s == [] then []
    else Rest(s[..|s| - 1], S) + if s[|s| - 1].base in S then [] else [s[|s| - 1]]
  }

  function Reverse<T>(s: seq<T>): seq<T> {
    if s == [] then [] else [s[|s| - 1]] + Reverse(s[..|s| - 1])
  }

  ghost predicate DistinctBases(s: seq<FinObj>) {
    forall i, j {:trigger Differ(s, i, j)} :: 0 <= i < j < |s| ==> Differ(s, i, j)
  }

  ghost predicate Differ(s: seq<FinObj>, i: nat, j: nat)
    requires i < |s| && j < |s|
  {
    s[i].base != s[j].base
  }

  ghost function Bases(s: seq<FinObj>): set<Obj> {
    set f | f in s :: f.base
  }

  // The registered objects without a mark.
  ghost function Dead(s: seq<FinObj>, marked: set<Obj>): set<Obj> {
    set f | f in s && f.base !in marked :: f.base
  }

  lemma FlatNext<T>(t: seq<seq<T>>, i: nat)
    requires i < |t|
    ensures Flat(t[..i + 1]) == Flat(t[..i]) + t[i]
  {
    assert t[..i + 1][..i] == t[..i];
  }

  lemma {:induction false} FlatSplit<T>(t: seq<seq<T>>, i: nat)
    requires i <= |t|
    ensures Flat(t) == Flat(t[..i]) + Flat(t[i..])
  {
    if i == |t| {
      assert t[..i] == t && Flat(t[i..]) == [];
    } else {
      var u := t[..|t| - 1];
      FlatSplit(u, i);
      assert u[..i] == t[..i] && t[i..][..|t| - i - 1] == u[i..];
      assert Flat(t) == Flat(u) + t[|t| - 1];
    }
  }

  // Entry j of bucket i, and the entries visited before it.
  lemma FlatVisited<T>(t: seq<seq<T>>, i: nat, j: nat)
    requires i < |t| && j < |t[i]|
    ensures Flat(t[..i]) + t[i][..j + 1] == (Flat(t[..i]) + t[i][..j]) + [t[i][j]]
    ensures |Flat(t[..i]) + t[i][..j]| < |Flat(t)|
    ensures Flat(t)[|Flat(t[..i]) + t[i][..j]|] == t[i][j]
    ensures (Flat(t[..i]) + t[i][..j]) <= Flat(t)
  {
    FlatSplit(t, i + 1);
    FlatNext(t, i);
    ChainVisited(Flat(t[..i]), t[i], Flat(t[i + 1..]), j);
  }

  lemma ChainVisited<T>(before: seq<T>, chain: seq<T>, after: seq<T>, j: nat)
    requires j < |chain|
    ensures before + chain[..j + 1] == (before + chain[..j]) + [chain[j]]
    ensures |before + chain[..j]| < |(before + chain) + after|
    ensures ((before + chain) + after)[|before + chain[..j]|] == chain[j]
    ensures before + chain[..j] <= (before + chain) + after
  {
    assert chain[..j + 1] == chain[..j] + [chain[j]];
  }

  // Memory after the links to unmarked objects have been cleared.
  function ClearedMem(mem: map<int, int>, s: seq<DLink>, marked: set<Obj>): map<int, int> {
    if s == [] then mem
    else
      var before := ClearedMem(mem, s[..|s| - 1], marked);
      if s[|s| - 1].obj in marked then before else before[s[|s| - 1].link := 0]
  }

  function HeapAfter(h: Heap, s: seq<DLink>, marked: set<Obj>, removeDangling: bool): Heap {
    if removeDangling then h else h.(mem := ClearedMem(h.mem, s, marked))
  }

  predicate LinkStays(d: DLink, resolve: map<int, Obj>, marked: set<Obj>, removeDangling: bool) {
    if removeDangling then d.link in resolve ==> resolve[d.link] in marked else d.obj in marked
  }

  function KeptLinks(s: seq<DLink>, resolve: map<int, Obj>, marked: set<Obj>, removeDangling: bool): seq<DLink> {
    if s == [] then []
    else KeptLinks(s[..|s| - 1], resolve, marked, removeDangling)
         + if LinkStays(s[|s| - 1], resolve, marked, removeDangling) then [s[|s| - 1]] else []
  }

  // The links of a table that stay after one sweep over it, and after a sweep for links
  // to unmarked objects and one for links in unmarked objects.
  ghost predicate TableKept(t: seq<seq<DLink>>, u: seq<seq<DLink>>, resolve: map<int, Obj>, marked: set<Obj>,
        removeDangling: bool) {
    |u| == |t| && forall i :: 0 <= i < |t| ==> u[i] == KeptLinks(t[i], resolve, marked, removeDangling)
  }

  // The same for the first chains.
  ghost predicate KeptSoFar(t: seq<seq<DLink>>, u: seq<seq<DLink>>, resolve: map<int, Obj>, marked: set<Obj>,
        removeDangling: bool) {
    |u| <= |t| && forall i :: 0 <= i < |u| ==> u[i] == KeptLinks(t[i], resolve, marked, removeDangling)
  }

  lemma KeptMore(t: seq<seq<DLink>>, u: seq<seq<DLink>>, chain: seq<DLink>, resolve: map<int, Obj>, marked: set<Obj>,
        removeDangling: bool)
    requires KeptSoFar(t, u, resolve, marked, removeDangling) && |u| < |t|
    requires chain == KeptLinks(t[|u|], resolve, marked, removeDangling)
    ensures KeptSoFar(t, u + [chain], resolve, marked, removeDangling)
  {
  }

  ghost predicate TableKeptTwice(t: seq<seq<DLink>>, u: seq<seq<DLink>>, resolve: map<int, Obj>, marked: set<Obj>,
        marked2: set<Obj>) {
    |u| == |t| && forall i :: 0 <= i < |t| ==>
        u[i] == KeptLinks(KeptLinks(t[i], resolve, marked, false), resolve, marked2, true)
  }

  // Exactly the words that hold a link to an unmarked object change; they become null.
  lemma {:induction false} ClearedMemAt(mem: map<int, int>, s: seq<DLink>, marked: set<Obj>, a: int)
    ensures (exists d :: d in s && d.link == a && d.obj !in marked) ==>
              a in ClearedMem(mem, s, marked) && ClearedMem(mem, s, marked)[a] == 0
    ensures (forall d :: d in s && d.link == a ==> d.obj in marked) ==>
              (a in ClearedMem(mem, s, marked) <==> a in mem) && (a in mem ==> ClearedMem(mem, s, marked)[a] == mem[a])
  {
    if s != [] {
      ClearedMemAt(mem, s[..|s| - 1], marked, a);
      assert s == s[..|s| - 1] + [s[|s| - 1]];
    }
  }

  // One more link of a chain.
  lemma LinkNext(h0: Heap, before: seq<DLink>, chain: seq<DLink>, j: nat, resolve: map<int, Obj>, marked: set<Obj>,
                 removeDangling: bool)
    requires j < |chain|
    ensures HeapAfter(h0, before + chain[..j + 1], marked, removeDangling) ==
              var h := HeapAfter(h0, before + chain[..j], marked, removeDangling);
              if removeDangling || chain[j].obj in marked then h else h.(mem := h.mem[chain[j].link := 0])
    ensures KeptLinks(chain[..j + 1], resolve, marked, removeDangling) ==
              KeptLinks(chain[..j], resolve, marked, removeDangling)
              + if LinkStays(chain[j], resolve, marked, removeDangling) then [chain[j]] else []
  {
    var s := before + chain[..j + 1];
    assert s[..|s| - 1] == before + chain[..j] && s[|s| - 1] == chain[j];
    assert chain[..j + 1][..j] == chain[..j];
  }

  // Clearing a word only removes pointers.
  lemma ClearKeepsQuiet(h: Heap, marked: set<Obj>, a: int)
    requires h.Valid() && ClosedMarks(h, marked) && 0 !in h.resolve
    ensures ClosedMarks(h.(mem := h.mem[a := 0]), marked)
  {
    var g := h.(mem := h.mem[a := 0]);
    forall o, p | o in marked && g.EdgeRel()(o, p) ensures p in marked {
      var b :| Covers(g.EntryOf(o), b) && g.Target(b) == Some(p);
      assert Covers(h.EntryOf(o), b) && h.Target(b) == Some(p);
      assert h.EdgeRel()(o, p);
    }
    forall p | p in g.RootObjs() ensures p in marked {
      var b :| g.RootWord(b) && g.Target(b) == Some(p);
      assert h.RootWord(b) && h.Target(b) == Some(p);
      AllObjsHasObjs(h, p);
      assert p in h.RootObjs();
    }
  }

  lemma {:induction false} KeptLinksFrom(s: seq<DLink>, resolve: map<int, Obj>, marked: set<Obj>, removeDangling: bool)
    ensures forall d :: d in KeptLinks(s, resolve, marked, removeDangling) ==>
            d in s
            && LinkStays(d, resolve, marked, removeDangling)
  {
    if s != [] {
      KeptLinksFrom(s[..|s| - 1], resolve, marked, removeDangling);
      assert s == s[..|s| - 1] + [s[|s| - 1]];
    }
  }

  lemma {:induction false} FlatHas<T>(t: seq<seq<T>>, x: T)
    ensures x in Flat(t) <==> exists i :: 0 <= i < |t| && x in t[i]
  {
    if t != [] {
      FlatHas(t[..|t| - 1], x);
      assert t == t[..|t| - 1] + [t[|t| - 1]];
    }
  }

  // The links lead to objects.
  ghost predicate LinkObjs(blocks: map<nat, Block>, t: seq<seq<DLink>>) {
    forall d :: d in Flat(t) ==> d.obj.blk in blocks && d.obj.idx < |blocks[d.obj.blk].bases|
  }

  // A table of kept links holds only links of the original table.
  lemma FlatKeptLinks(t: seq<seq<DLink>>, u: seq<seq<DLink>>, resolve: map<int, Obj>, marked: set<Obj>,
        removeDangling: bool)
    requires |t| == |u| && forall i :: 0 <= i < |t| ==> u[i] == KeptLinks(t[i], resolve, marked, removeDangling)
    ensures forall d :: d in Flat(u) ==> d in Flat(t)
  {
    forall d | d in Flat(u) ensures d in Flat(t) {
      FlatHas(u, d);
      FlatHas(t, d);
      var i :| 0 <= i < |u| && d in u[i];
      KeptLinksFrom(t[i], resolve, marked, removeDangling);
    }
  }

  lemma KeptInTurn(t: seq<seq<DLink>>, u: seq<seq<DLink>>, v: seq<seq<DLink>>, resolve: map<int, Obj>, marked: set<Obj>,
        marked2: set<Obj>)
    requires TableKept(t, u, resolve, marked, false) && TableKept(u, v, resolve, marked2, true)
    ensures TableKeptTwice(t, v, resolve, marked, marked2)
  {
  }

  // The links left after both sweeps were there before, and lead to marked objects.
  lemma KeptTwice(t: seq<seq<DLink>>, u: seq<seq<DLink>>, resolve: map<int, Obj>, marked: set<Obj>, marked2: set<Obj>)
    requires TableKeptTwice(t, u, resolve, marked, marked2)
    ensures forall d :: d in Flat(u) ==> d in Flat(t) && d.obj in marked
  {
    forall d | d in Flat(u) ensures d in Flat(t) && d.obj in marked {
      FlatHas(u, d);
      FlatHas(t, d);
      var i :| 0 <= i < |u| && d in u[i];
      KeptLinksFrom(KeptLinks(t[i], resolve, marked, false), resolve, marked2, true);
      KeptLinksFrom(t[i], resolve, marked, false);
    }
  }

  ghost function LinkWords(t: seq<seq<DLink>>): set<int> {
    set d | d in Flat(t) :: d.link
  }

  // A sweep over the links nulls some of their words and leaves all others alone.
  lemma HeapAfterReads(h: Heap, t: seq<seq<DLink>>, marked: set<Obj>, a: int)
    ensures var w := HeapAfter(h, Flat(t), marked, false).Read(a);
            w == h.Read(a) || (w == 0 && a in LinkWords(t))
  {
    ClearedMemAt(h.mem, Flat(t), marked, a);
    if d :| d in Flat(t) && d.link == a && d.obj !in marked { assert d.link in LinkWords(t); }
  }

  class Finalizer {
    const m: Marker
    var foHead: seq<seq<FinObj>>
    var finalizeNow: seq<FinObj>
    var foEntries: nat
    var dlHead: seq<seq<DLink>>
    var llHead: seq<seq<DLink>>

    constructor (marker: Marker)
      requires Quiet(marker)
      ensures Valid() && m == marker
      ensures foHead == [] && finalizeNow == [] && dlHead == [] && llHead == []
    {
      m := marker;
      foHead, finalizeNow, foEntries, dlHead, llHead := [], [], 0, [], [];
    }

    ghost predicate Valid()
      reads this, m
    {
      && Quiet(m)
      && (forall f :: f in Flat(foHead) ==> m.h.IsObj(f.base))
      && DistinctBases(Flat(foHead))
      && foEntries == |Flat(foHead)|
    }

    // GC_make_disappearing_links_disappear, for one table of links.
    method MakeLinksDisappear(head: seq<seq<DLink>>, removeDangling: bool) returns (now: seq<seq<DLink>>)
      requires Quiet(m) && 0 !in m.h.resolve && LinkObjs(m.h.blocks, head)
      modifies m`h
      ensures Quiet(m) && m.h == HeapAfter(old(m.h), Flat(head), m.marked, removeDangling)
      ensures |now| == |head|
      ensures forall i :: 0 <= i < |head| ==> now[i] == KeptLinks(head[i], m.h.resolve, m.marked, removeDangling)
    {
      ghost var resolve, marked := m.h.resolve, m.marked;
      now := [];
      var i := 0;
      while i < |head|
        invariant 0 <= i <= |head| && |now| == i && Quiet(m) && m.h.resolve == resolve
        invariant m.h == HeapAfter(old(m.h), Flat(head[..i]), marked, removeDangling)
        invariant KeptSoFar(head, now, resolve, marked, removeDangling)
      {
        var chain := ChainLinksDisappear(head[i], removeDangling, Flat(head[..i]), old(m.h));
        KeptMore(head, now, chain, resolve, marked, removeDangling);
        now := now + [chain];
        FlatNext(head, i);
        i := i + 1;
      }
      assert head[..i] == head;
    }

    method ChainLinksDisappear(links: seq<DLink>, removeDangling: bool, ghost before: seq<DLink>, ghost h0: Heap)
      returns (chain: seq<DLink>)
      requires Quiet(m) && 0 !in m.h.resolve && m.h == HeapAfter(h0, before, m.marked, removeDangling)
      modifies m`h
      ensures Quiet(m) && m.h == HeapAfter(h0, before + links, m.marked, removeDangling)
      ensures chain == KeptLinks(links, m.h.resolve, m.marked, removeDangling)
    {
      chain := [];
      var j := 0;
      assert before + links[..0] == before;
      while j < |links|
        invariant 0 <= j <= |links| && Quiet(m) && 0 !in m.h.resolve
        invariant m.h == HeapAfter(h0, before + links[..j], m.marked, removeDangling)
        invariant chain == KeptLinks(links[..j], m.h.resolve, m.marked, removeDangling)
      {
        LinkNext(h0, before, links, j, m.h.resolve, m.marked, removeDangling);
        if LinkStays(links[j], m.h.resolve, m.marked, removeDangling) {
          chain := chain + [links[j]];
        } else if !removeDangling {
          ClearWord(links[j].link);
        }
        j := j + 1;
      }
      assert links[..j] == links;
    }

    method ClearWord(a: int)
      requires Quiet(m) && 0 !in m.h.resolve
      modifies m`h
      ensures Quiet(m) && m.h == old(m.h).(mem := old(m.h).mem[a := 0])
    {
      ClearKeepsQuiet(m.h, m.marked, a);
      m.h := m.h.(mem := m.h.mem[a := 0]);
    }

    // GC_finalize. With h1 the heap after the short links have been cleared, the queue
    // gets the registered objects that are not in the closure C of what was marked and
    // of what the dead registered objects refer to, or of those themselves that are in
    // over.
    method Finalize() returns (ghost over: set<Obj>, ghost C: set<Obj>, ghost grown: seq<nat>)
      requires Valid() && 0 !in m.h.resolve && LinkObjs(m.h.blocks, dlHead) && LinkObjs(m.h.blocks, llHead)
      modifies this, m
      ensures Valid() && over <= Dead(Flat(old(foHead)), old(m.marked)) && old(m.marked) <= m.marked
      ensures var h1 := HeapAfter(old(m.h), Flat(old(dlHead)), old(m.marked), false);
              && |grown| == |Flat(old(foHead))|
              && (over, m.stackSize) == Visited(h1, old(m.marked), old(m.stackSize), Flat(old(foHead)), grown)
              && C == Closure(h1, Sources(h1, old(m.marked), Flat(old(foHead)), over))
              && m.h == HeapAfter(h1, Flat(old(llHead)), m.marked, false)
      ensures m.marked == C + Bases(Rest(Flat(old(foHead)), C))
      ensures finalizeNow == Reverse(Rest(Flat(old(foHead)), C)) + old(finalizeNow)
      ensures Flat(foHead) == Keep(Flat(old(foHead)), C)
      ensures TableKeptTwice(old(dlHead), dlHead, m.h.resolve, old(m.marked), m.marked)
      ensures TableKeptTwice(old(llHead), llHead, m.h.resolve, m.marked, m.marked)
      ensures Unmarked(old(m.h), old(m.marked)) < old(m.stackSize) ==>
        && over == {}
        && QueueExact(HeapAfter(old(m.h), Flat(old(dlHead)), old(m.marked), false), old(m.marked), Flat(old(foHead)),
             old(finalizeNow), finalizeNow)
    {
      ghost var dl0, m0 := dlHead, m.marked;
      DropShortLinks();
      ghost var dl1 := dlHead;
      over, C, grown := FinalizeObjects();
      DropLinks();
      KeptInTurn(dl0, dl1, dlHead, m.h.resolve, m0, m.marked);
    }

    // The short links to unmarked objects, before anything is marked for finalization.
    method DropShortLinks()
      requires Valid() && 0 !in m.h.resolve && LinkObjs(m.h.blocks, dlHead)
      modifies this`dlHead, m`h
      ensures Valid() && m.h == HeapAfter(old(m.h), Flat(old(dlHead)), m.marked, false)
      ensures TableKept(old(dlHead), dlHead, m.h.resolve, m.marked, false) && LinkObjs(m.h.blocks, dlHead)
      ensures Unmarked(m.h, m.marked) == Unmarked(old(m.h), m.marked)
    {
      ghost var dl0 := dlHead;
      dlHead := MakeLinksDisappear(dlHead, false);
      FlatKeptLinks(dl0, dlHead, m.h.resolve, m.marked, false);
      SameUnmarked(old(m.h), m.h, m.marked);
    }

    // The two passes over the registered objects.
    method FinalizeObjects() returns (ghost over: set<Obj>, ghost C: set<Obj>, ghost grown: seq<nat>)
      requires Valid()
      modifies this`foHead, this`finalizeNow, this`foEntries, m
      ensures Valid() && m.h == old(m.h) && over <= Dead(Flat(old(foHead)), old(m.marked)) && old(m.marked) <= m.marked
      ensures |grown| == |Flat(old(foHead))|
      ensures (over, m.stackSize) == Visited(m.h, old(m.marked), old(m.stackSize), Flat(old(foHead)), grown)
      ensures C == Closure(m.h, Sources(m.h, old(m.marked), Flat(old(foHead)), over))
      ensures m.marked == C + Bases(Rest(Flat(old(foHead)), C))
      ensures finalizeNow == Reverse(Rest(Flat(old(foHead)), C)) + old(finalizeNow)
      ensures Flat(foHead) == Keep(Flat(old(foHead)), C)
      ensures Unmarked(old(m.h), old(m.marked)) < old(m.stackSize) ==>
        over == {} && QueueExact(m.h, old(m.marked), Flat(old(foHead)), old(finalizeNow), finalizeNow)
    {
      ghost var m0, table, queue0 := m.marked, Flat(foHead), finalizeNow;
      over, grown := MarkDescendants();
      ClosureHasSuccs(m.h, m0, table, over, m.marked);
      C := m.marked;
      EnqueueUnreachable();
      FlatKeep(old(foHead), foHead, C);
      if over == {} { QueueIsExact(m.h, m0, table, queue0); }
    }

    // The link tables after the queue is known: dangling short links, then long links.
    method DropLinks()
      requires Valid() && 0 !in m.h.resolve && LinkObjs(m.h.blocks, dlHead) && LinkObjs(m.h.blocks, llHead)
      modifies this`dlHead, this`llHead, m`h
      ensures Valid() && m.h == HeapAfter(old(m.h), Flat(old(llHead)), m.marked, false)
      ensures TableKept(old(dlHead), dlHead, m.h.resolve, m.marked, true)
      ensures TableKeptTwice(old(llHead), llHead, m.h.resolve, m.marked, m.marked)
    {
      dlHead := MakeLinksDisappear(dlHead, true);
      ghost var ll0 := llHead;
      llHead := MakeLinksDisappear(llHead, false);
      FlatKeptLinks(ll0, llHead, m.h.resolve, m.marked, false);
      llHead := MakeLinksDisappear(llHead, true);
    }

    // The first pass of GC_finalize: mark what the unmarked registered objects refer
    // to. over is the set of objects whose marking overflowed the mark stack, grown[i] the
    // size that the stack has when the entry at i has been visited.
    method MarkDescendants() returns (ghost over: set<Obj>, ghost grown: seq<nat>)
      requires Valid()
      modifies m
      ensures Valid() && m.h == old(m.h)
      ensures over <= Dead(Flat(foHead), old(m.marked))
      ensures |grown| == |Flat(foHead)|
      ensures (over, m.stackSize) == Visited(m.h, old(m.marked), old(m.stackSize), Flat(foHead), grown)
      ensures m.marked == Closure(m.h, Sources(m.h, old(m.marked), Flat(foHead), over))
      ensures Unmarked(old(m.h), old(m.marked)) < old(m.stackSize) ==> over == {}
    {
      ghost var m0, size := m.marked, m.stackSize;
      over, grown := {}, [];
      DeadNone(m.h, m0);
      var i := 0;
      while i < |foHead|
        invariant 0 <= i <= |foHead| && Valid() && m.h == old(m.h)
        invariant MarkedFrom(m.h, m.marked, m0, Flat(foHead[..i]), over) && NoneOver(m0, size, over)
        invariant Counted(m0, size, Flat(foHead[..i]), over, grown)
      {
        over, grown := VisitBucket(i, m0, size, over, grown);
        FlatNext(foHead, i);
        i := i + 1;
      }
      assert foHead[..i] == foHead;
    }

    // With room for every object unmarked at the start, nothing has overflowed.
    ghost predicate NoneOver(m0: set<Obj>, size: nat, over: set<Obj>)
      reads this, m
    {
      Unmarked(m.h, m0) < size ==> over == {} && m.stackSize == size
    }

    // over and the size of the stack are what Visited says.
    ghost predicate Counted(m0: set<Obj>, size: nat, seen: seq<FinObj>, over: set<Obj>, grown: seq<nat>)
      reads this, m
    {
      |grown| == |seen| && (over, m.stackSize) == Visited(m.h, m0, size, seen, grown)
    }

    method VisitBucket(i: nat, ghost m0: set<Obj>, ghost size: nat, ghost over0: set<Obj>, ghost grown0: seq<nat>)
      returns (ghost over: set<Obj>, ghost grown: seq<nat>)
      requires Valid() && i < |foHead| && Counted(m0, size, Flat(foHead[..i]), over0, grown0)
      requires MarkedFrom(m.h, m.marked, m0, Flat(foHead[..i]), over0) && NoneOver(m0, size, over0)
      modifies m
      ensures Valid() && m.h == old(m.h)
      ensures MarkedFrom(m.h, m.marked, m0, Flat(foHead[..i]) + foHead[i], over) && NoneOver(m0, size, over)
      ensures Counted(m0, size, Flat(foHead[..i]) + foHead[i], over, grown)
    {
      over, grown := over0, grown0;
      var j := 0;
      assert Flat(foHead[..i]) + foHead[i][..0] == Flat(foHead[..i]);
      while j < |foHead[i]|
        invariant 0 <= j <= |foHead[i]| && Valid() && m.h == old(m.h)
        invariant MarkedFrom(m.h, m.marked, m0, Flat(foHead[..i]) + foHead[i][..j], over) && NoneOver(m0, size, over)
        invariant Counted(m0, size, Flat(foHead[..i]) + foHead[i][..j], over, grown)
      {
        FlatVisited(foHead, i, j);
        NoOverflow(m.h, m.stackSize, m.marked, m0, Flat(foHead[..i]) + foHead[i][..j], over, foHead[i][j].base);
        over, grown := VisitFo(foHead[i][j], m0, size, Flat(foHead[..i]) + foHead[i][..j], over, grown);
        j := j + 1;
      }
      assert foHead[i][..j] == foHead[i];
    }

    method VisitFo(f: FinObj, ghost m0: set<Obj>, ghost size: nat, ghost seen: seq<FinObj>, ghost over0: set<Obj>,
          ghost grown0: seq<nat>)
      returns (ghost over: set<Obj>, ghost grown: seq<nat>)
      requires Valid() && f in Flat(foHead) && Counted(m0, size, seen, over0, grown0)
      requires MarkedFrom(m.h, m.marked, m0, seen, over0)
      modifies m
      ensures Valid() && m.h == old(m.h)
      ensures MarkedFrom(m.h, m.marked, m0, seen + [f], over)
      ensures over == if f.base !in old(m.marked) && FoOverflows(m.h, old(m.stackSize), old(m.marked), f.base)
                      then over0 + {f.base} else over0
      ensures over == over0 ==> m.stackSize == old(m.stackSize)
      ensures Counted(m0, size, seen + [f], over, grown)
    {
      over := over0;
      ghost var h, marked, size0 := m.h, m.marked, m.stackSize;
      if f.base !in m.marked {
        ClosureFacts(m.h, Sources(m.h, m0, seen, over0));
        ghost var before := m.marked;
        var overflowed := MarkFo(m, f.base);
        if overflowed {
          over := over + {f.base};
          NotYetOver(m.h, before, m0, seen, over0, f.base);
          DeadOverflowed(m.h, before, m0, seen, over0, f);
        } else {
          DeadMarked(m.h, before, m0, seen, over0, f);
        }
      } else {
        DeadSkipped(m.h, m.marked, m0, seen, over0, f);
      }
      grown := grown0 + [m.stackSize];
      VisitedNext(h, marked, m0, size, seen, grown0, f, m.stackSize);
    }

    // The second pass of GC_finalize: unmarked registered objects are marked, leave the
    // table and go to the front of the queue.
    method EnqueueUnreachable()
      requires Valid() && SuccAll(m.h, Dead(Flat(foHead), m.marked)) <= m.marked
      modifies this`foHead, this`finalizeNow, this`foEntries, m`marked, m`nMarks
      ensures Valid() && m.h == old(m.h)
      ensures m.marked == old(m.marked) + Bases(Rest(Flat(old(foHead)), old(m.marked)))
      ensures |foHead| == |old(foHead)|
      ensures forall i :: 0 <= i < |foHead| ==> foHead[i] == Keep(old(foHead)[i], old(m.marked))
      ensures finalizeNow == Reverse(Rest(Flat(old(foHead)), old(m.marked))) + old(finalizeNow)
    {
      ghost var C, orig := m.marked, foHead;
      var i := 0;
      while i < |foHead|
        invariant 0 <= i <= |foHead| == |orig|
        invariant forall b :: 0 <= b < i ==> foHead[b] == Keep(orig[b], C)
        invariant forall b :: i <= b < |orig| ==> foHead[b] == orig[b]
        invariant Enqueuing(Flat(orig), C, Flat(orig[..i]), old(finalizeNow)) && m.h == old(m.h)
      {
        FlatNext(orig, i);
        FlatSplit(orig, i + 1);
        EnqueueBucket(i, Flat(orig), Flat(orig[..i]), C, old(finalizeNow));
        i := i + 1;
      }
      assert orig[..i] == orig;
      FlatKeep(orig, foHead, C);
      KeepRestSize(Flat(orig), C);
      KeepDistinct(Flat(orig), C);
    }

    // The state of the second pass when the entries seen of the table orig have been visited.
    ghost predicate Enqueuing(orig: seq<FinObj>, C: set<Obj>, seen: seq<FinObj>, queue0: seq<FinObj>)
      reads this, m
    {
      && Quiet(m) && TableOk(m.h, orig, C)
      && m.marked == C + Bases(Rest(seen, C))
      && finalizeNow == Reverse(Rest(seen, C)) + queue0
      && foEntries + |Rest(seen, C)| == |orig|
    }

    // One chain; before holds the entries of the earlier buckets.
    method EnqueueBucket(i: nat, ghost table: seq<FinObj>, ghost before: seq<FinObj>, ghost C: set<Obj>,
                         ghost queue0: seq<FinObj>)
      requires i < |foHead| && before + foHead[i] <= table
      requires Enqueuing(table, C, before, queue0)
      modifies this`foHead, this`finalizeNow, this`foEntries, m`marked, m`nMarks
      ensures foHead == old(foHead)[i := Keep(old(foHead[i]), C)] && m.h == old(m.h)
      ensures Enqueuing(table, C, before + old(foHead[i]), queue0)
    {
      ghost var orig, fo0 := foHead[i], foHead;
      ChainStart(before, orig, C);
      var chain;
      ghost var k, seen, j;
      chain, j, k, seen := EnqueueChain(i, foHead[i], fo0, before, orig, table, C, queue0);
      ChainEnd(before, orig, k, seen, chain, j, C);
    }

    method EnqueueChain(i: nat, chain0: seq<FinObj>, ghost fo0: seq<seq<FinObj>>, ghost before: seq<FinObj>,
          ghost orig: seq<FinObj>, ghost table: seq<FinObj>, ghost C: set<Obj>, ghost queue0: seq<FinObj>)
      returns (chain: seq<FinObj>, j: nat, ghost k: nat, ghost seen: seq<FinObj>)
      requires i < |fo0| && foHead == fo0 == fo0[i := chain0] && before + orig <= table
      requires ChainAt(before, orig, 0, before, chain0, 0, C) && Enqueuing(table, C, before, queue0)
      modifies this`foHead, this`finalizeNow, this`foEntries, m`marked, m`nMarks
      ensures foHead == fo0[i := chain] && m.h == old(m.h) && j >= |chain|
      ensures ChainAt(before, orig, k, seen, chain, j, C) && Enqueuing(table, C, seen, queue0)
    {
      chain, j, k, seen := chain0, 0, 0, before;
      while j < |chain|
        invariant foHead == fo0[i := chain] && m.h == old(m.h)
        invariant ChainAt(before, orig, k, seen, chain, j, C) && Enqueuing(table, C, seen, queue0)
        decreases |orig| - k
      {
        chain, j, seen := EnqueueAt(i, chain, j, fo0, before, orig, k, seen, table, C, queue0);
        k := k + 1;
      }
    }

    // The entry at j of chain i: it leaves the chain, or the next one is looked at.
    method EnqueueAt(i: nat, chain: seq<FinObj>, j: nat, ghost fo0: seq<seq<FinObj>>, ghost before: seq<FinObj>,
          ghost orig: seq<FinObj>, ghost k: nat, ghost seen: seq<FinObj>, ghost table: seq<FinObj>, ghost C: set<Obj>,
          ghost queue0: seq<FinObj>)
      returns (chain2: seq<FinObj>, j2: nat, ghost seen2: seq<FinObj>)
      requires i < |fo0| && foHead == fo0[i := chain] && j < |chain| && before + orig <= table
      requires ChainAt(before, orig, k, seen, chain, j, C) && Enqueuing(table, C, seen, queue0)
      modifies this`foHead, this`finalizeNow, this`foEntries, m`marked, m`nMarks
      ensures k < |orig| && foHead == fo0[i := chain2] && m.h == old(m.h)
      ensures ChainAt(before, orig, k + 1, seen2, chain2, j2, C) && Enqueuing(table, C, seen2, queue0)
    {
      ChainStep(before, orig, k, seen, chain, j, table, C);
      var enqueued := EnqueueFo(chain[j], table, C, seen, queue0);
      seen2 := seen + [chain[j]];
      if enqueued {
        chain2, j2 := chain[..j] + chain[j + 1..], j;
        foHead := foHead[i := chain2];
      } else {
        chain2, j2 := chain, j + 1;
      }
    }

    method EnqueueFo(f: FinObj, ghost orig: seq<FinObj>, ghost C: set<Obj>, ghost seen: seq<FinObj>,
                     ghost queue0: seq<FinObj>) returns (enqueued: bool)
      requires Enqueuing(orig, C, seen, queue0) && seen + [f] <= orig
      modifies this`finalizeNow, this`foEntries, m`marked, m`nMarks
      ensures Enqueuing(orig, C, seen + [f], queue0) && m.h == old(m.h)
      ensures enqueued <==> f.base !in C
    {
      EnqueueOne(m.h, orig, C, seen, f, queue0);
      enqueued := f.base !in m.marked;
      if enqueued {
        m.SetMarkBit(f.base);
        foEntries := foEntries - 1;
        finalizeNow := [f] + finalizeNow;
      }
    }
  }

  ghost predicate TableOk(h: Heap, table: seq<FinObj>, C: set<Obj>) {
    && h.Valid() && ClosedMarks(h, C)
    && (forall f :: f in table ==> h.IsObj(f.base))
    && DistinctBases(table) && SuccAll(h, Dead(table, C)) <= C
  }

  // One step of the second pass, on values.
  lemma EnqueueOne(h: Heap, table: seq<FinObj>, C: set<Obj>, seen: seq<FinObj>, f: FinObj, queue0: seq<FinObj>)
    requires TableOk(h, table, C) && seen + [f] <= table
    ensures h.IsObj(f.base) && f.base !in Bases(Rest(seen, C))
    ensures f.base in C ==> Rest(seen + [f], C) == Rest(seen, C)
    ensures f.base !in C ==>
              && C + Bases(Rest(seen + [f], C)) == C + Bases(Rest(seen, C)) + {f.base}
              && Reverse(Rest(seen + [f], C)) + queue0 == [f] + (Reverse(Rest(seen, C)) + queue0)
              && |Rest(seen + [f], C)| == |Rest(seen, C)| + 1 <= |table|
    ensures ClosedMarks(h, C + Bases(Rest(seen + [f], C)))
  {
    IsNextEntry(h, table, C, seen, f);
    RestClosed(h, table, C, seen + [f]);
    QueueNext(table, C, seen, f, queue0);
    BasesNext(seen, f, C);
  }

  lemma QueueNext(table: seq<FinObj>, C: set<Obj>, seen: seq<FinObj>, f: FinObj, queue0: seq<FinObj>)
    requires seen + [f] <= table
    ensures f.base in C ==> Rest(seen + [f], C) == Rest(seen, C)
    ensures f.base !in C ==>
              && Reverse(Rest(seen + [f], C)) + queue0 == [f] + (Reverse(Rest(seen, C)) + queue0)
              && |Rest(seen + [f], C)| == |Rest(seen, C)| + 1 <= |table|
  {
    RestSize(table, seen + [f], C);
    RestNext(seen, f, C);
    ConcatAssoc([f], Reverse(Rest(seen, C)), queue0);
  }

  lemma IsNextEntry(h: Heap, table: seq<FinObj>, C: set<Obj>, seen: seq<FinObj>, f: FinObj)
    requires TableOk(h, table, C) && seen + [f] <= table
    ensures h.IsObj(f.base) && f.base !in Bases(Rest(seen, C))
  {
    assert table[|seen|] == f && f in table;
    NotYetQueued(table, seen, f, C);
  }

  lemma RestClosed(h: Heap, table: seq<FinObj>, C: set<Obj>, seen: seq<FinObj>)
    requires TableOk(h, table, C) && seen <= table
    ensures ClosedMarks(h, C + Bases(Rest(seen, C)))
  {
    RestFrom(seen, C);
    forall o, q | o in C + Bases(Rest(seen, C)) && h.EdgeRel()(o, q) ensures q in C {
      if o !in C {
        var f :| f in Rest(seen, C) && f.base == o;
        assert f in table && o in Dead(table, C);
        AllObjsHasObjs(h, q);
        assert q in SuccAll(h, Dead(table, C));
      }
    }
  }

  // The first k entries of the chain orig have been visited; chain is what it is now, j
  // the place in it, and seen all that was visited.
  ghost predicate ChainAt(before: seq<FinObj>, orig: seq<FinObj>, k: nat, seen: seq<FinObj>, chain: seq<FinObj>,
        j: nat, C: set<Obj>) {
    && k <= |orig| && seen == before + orig[..k]
    && j == |Keep(orig[..k], C)| && chain == Keep(orig[..k], C) + orig[k..]
  }

  lemma ChainStart(before: seq<FinObj>, orig: seq<FinObj>, C: set<Obj>)
    ensures ChainAt(before, orig, 0, before, orig, 0, C)
  {
    assert orig[..0] == [] && orig[0..] == orig;
  }

  lemma ChainStep(before: seq<FinObj>, orig: seq<FinObj>, k: nat, seen: seq<FinObj>, chain: seq<FinObj>, j: nat,
        table: seq<FinObj>, C: set<Obj>)
    requires ChainAt(before, orig, k, seen, chain, j, C) && j < |chain| && before + orig <= table
    ensures k < |orig| && seen + [chain[j]] <= table
    ensures chain[j].base !in C ==> ChainAt(before, orig, k + 1, seen + [chain[j]], chain[..j] + chain[j + 1..], j, C)
    ensures chain[j].base in C ==> ChainAt(before, orig, k + 1, seen + [chain[j]], chain, j + 1, C)
  {
    assert chain[j] == orig[k] && orig[..k + 1][..k] == orig[..k];
    assert orig[k..] == [orig[k]] + orig[k + 1..];
    assert before + orig == seen + [orig[k]] + orig[k + 1..];
    assert before + orig[..k + 1] == seen + [orig[k]];
  }

  lemma ChainEnd(before: seq<FinObj>, orig: seq<FinObj>, k: nat, seen: seq<FinObj>, chain: seq<FinObj>, j: nat,
        C: set<Obj>)
    requires ChainAt(before, orig, k, seen, chain, j, C) && j >= |chain|
    ensures seen == before + orig && chain == Keep(orig, C)
  {
    assert k == |orig| && orig[..k] == orig && orig[k..] == [];
  }

  lemma RestNext(seen: seq<FinObj>, f: FinObj, C: set<Obj>)
    ensures Rest(seen + [f], C) == Rest(seen, C) + if f.base in C then [] else [f]
    ensures Reverse(Rest(seen + [f], C)) == (if f.base in C then [] else [f]) + Reverse(Rest(seen, C))
  {
    assert (seen + [f])[..|seen|] == seen;
    ReverseNext(Rest(seen, C), f);
  }

  lemma BasesNext(seen: seq<FinObj>, f: FinObj, C: set<Obj>)
    ensures Bases(Rest(seen + [f], C)) == Bases(Rest(seen, C)) + if f.base in C then {} else {f.base}
  {
    RestFrom(seen, C);
    RestFrom(seen + [f], C);
  }

  lemma ConcatAssoc<T>(a: seq<T>, b: seq<T>, c: seq<T>)
    ensures (a + b) + c == a + (b + c)
  {
  }

  lemma ReverseNext<T>(s: seq<T>, x: T)
    ensures Reverse(s + [x]) == [x] + Reverse(s)
    ensures [] + Reverse(s) == Reverse(s) && s + [] == s
  {
    assert (s + [x])[..|s|] == s;
  }

  lemma {:induction false} RestFrom(s: seq<FinObj>, C: set<Obj>)
    ensures forall f :: f in Rest(s, C) <==> f in s && f.base !in C
    ensures forall f :: f in Keep(s, C) <==> f in s && f.base in C
  {
    if s != [] {
      RestFrom(s[..|s| - 1], C);
      assert s == s[..|s| - 1] + [s[|s| - 1]];
    }
  }

  lemma NotYetQueued(s: seq<FinObj>, seen: seq<FinObj>, f: FinObj, C: set<Obj>)
    requires DistinctBases(s) && seen + [f] <= s
    ensures f.base !in Bases(Rest(seen, C))
  {
    RestFrom(seen, C);
    assert s[|seen|] == f;
    forall g | g in seen ensures g.base != f.base {
      var k :| 0 <= k < |seen| && seen[k] == g;
      assert s[k] == g && Differ(s, k, |seen|);
    }
  }

  lemma {:induction false} KeepRestSize(s: seq<FinObj>, C: set<Obj>)
    ensures |Keep(s, C)| + |Rest(s, C)| == |s|
  {
    if s != [] { KeepRestSize(s[..|s| - 1], C); }
  }

  lemma {:induction false} RestSize(s: seq<FinObj>, prefix: seq<FinObj>, C: set<Obj>)
    requires prefix <= s
    ensures |Rest(prefix, C)| <= |s|
  {
    KeepRestSize(prefix, C);
  }

  lemma {:induction false} KeepDistinct(s: seq<FinObj>, C: set<Obj>)
    requires DistinctBases(s)
    ensures DistinctBases(Keep(s, C)) && forall f :: f in Keep(s, C) ==> f in s
  {
    if s != [] {
      var t, last := s[..|s| - 1], s[|s| - 1];
      assert DistinctBases(t) by {
        forall i, j | 0 <= i < j < |t| ensures Differ(t, i, j) { assert Differ(s, i, j); }
      }
      KeepDistinct(t, C);
      forall f | f in Keep(t, C) ensures f.base != last.base {
        var k :| 0 <= k < |t| && t[k] == f;
        assert Differ(s, k, |t|);
      }
      var u := Keep(s, C);
      forall i, j | 0 <= i < j < |u| ensures Differ(u, i, j) {
        if j < |Keep(t, C)| {
          assert Differ(Keep(t, C), i, j);
        } else {
          assert u[j] == last && u[i] in Keep(t, C);
        }
      }
    }
  }

  lemma {:induction false} KeepConcat(s: seq<FinObj>, t: seq<FinObj>, C: set<Obj>)
    ensures Keep(s + t, C) == Keep(s, C) + Keep(t, C)
    ensures Rest(s + t, C) == Rest(s, C) + Rest(t, C)
  {
    if t == [] {
      assert s + t == s;
    } else {
      assert (s + t)[..|s + t| - 1] == s + t[..|t| - 1];
      KeepConcat(s, t[..|t| - 1], C);
    }
  }

  // Filtering every chain filters the table.
  lemma {:induction false} FlatKeep(t: seq<seq<FinObj>>, u: seq<seq<FinObj>>, C: set<Obj>)
    requires |t| == |u| && forall i :: 0 <= i < |t| ==> u[i] == Keep(t[i], C)
    ensures Flat(u) == Keep(Flat(t), C)
  {
    if t != [] {
      var n := |t| - 1;
      FlatKeep(t[..n], u[..n], C);
      KeepConcat(Flat(t[..n]), t[n], C);
    }
  }

  // Where the marking starts from after the entries seen have been visited.
  ghost function Sources(h: Heap, m0: set<Obj>, seen: seq<FinObj>, over: set<Obj>): set<Obj> {
    m0 + SuccAll(h, Dead(seen, m0)) + over
  }

  ghost predicate MarkedFrom(h: Heap, marked: set<Obj>, m0: set<Obj>, seen: seq<FinObj>, over: set<Obj>) {
    && h.Valid() && AreObjs(h, Sources(h, m0, seen, over)) && over <= Dead(seen, m0)
    && marked == Closure(h, Sources(h, m0, seen, over))
  }

  // The entries whose marking overflows the stack, and the size of the stack afterwards.
  // Where marking overflows at the entry at i, a new stack of size grown[i] may take over.
  ghost function Visited(h: Heap, m0: set<Obj>, size: nat, fs: seq<FinObj>, grown: seq<nat>): (set<Obj>, nat)
    requires |grown| == |fs|
    decreases |fs|
  {
    if fs == [] then ({}, size) else
      var n := |fs| - 1;
      var (over, now) := Visited(h, m0, size, fs[..n], grown[..n]);
      if OverflowsAt(h, now, Closure(h, Sources(h, m0, fs[..n], over)), fs[n].base)
      then (over + {fs[n].base}, grown[n]) else (over, now)
  }

  ghost predicate OverflowsAt(h: Heap, size: nat, marked: set<Obj>, p: Obj) {
    h.Valid() && h.IsObj(p) && INITIAL_MARK_STACK_SIZE <= size && p !in marked && FoOverflows(h, size, marked, p)
  }

  lemma VisitedNext(h: Heap, marked: set<Obj>, m0: set<Obj>, size: nat, seen: seq<FinObj>, grown: seq<nat>,
        f: FinObj, g: nat)
    requires |grown| == |seen|
    requires marked == Closure(h, Sources(h, m0, seen, Visited(h, m0, size, seen, grown).0))
    ensures var (over, now) := Visited(h, m0, size, seen, grown);
            Visited(h, m0, size, seen + [f], grown + [g]) ==
              if OverflowsAt(h, now, marked, f.base) then (over + {f.base}, g) else (over, now)
  {
    assert (seen + [f])[..|seen|] == seen && (grown + [g])[..|grown|] == grown;
  }

  lemma DeadNone(h: Heap, m0: set<Obj>)
    requires h.Valid() && AreObjs(h, m0) && ClosedMarks(h, m0)
    ensures MarkedFrom(h, m0, m0, [], {})
  {
    assert SuccAll(h, Dead([], m0)) == {};
    assert Sources(h, m0, [], {}) == m0;
    ClosureFacts(h, m0);
    ClosureLeast(h, m0, m0);
  }

  // One more entry: its successors become sources unless its object was marked from the start.
  lemma SourcesAdd(h: Heap, m0: set<Obj>, seen: seq<FinObj>, over: set<Obj>, f: FinObj)
    ensures f.base in m0 ==> Dead(seen + [f], m0) == Dead(seen, m0)
    ensures f.base !in m0 ==> Dead(seen + [f], m0) == Dead(seen, m0) + {f.base}
    ensures Sources(h, m0, seen + [f], over) ==
              if f.base in m0 then Sources(h, m0, seen, over) else Sources(h, m0, seen, over) + Succ(h, f.base)
    ensures forall o :: Sources(h, m0, seen + [f], over + {o}) == Sources(h, m0, seen + [f], over) + {o}
  {
    var D := Dead(seen, m0);
    if f.base !in m0 {
      assert Dead(seen + [f], m0) == D + {f.base};
      assert SuccAll(h, D + {f.base}) == SuccAll(h, D) + Succ(h, f.base);
    } else {
      assert Dead(seen + [f], m0) == D;
    }
  }

  lemma DeadMarked(h: Heap, marked: set<Obj>, m0: set<Obj>, seen: seq<FinObj>, over: set<Obj>, f: FinObj)
    requires h.IsObj(f.base) && MarkedFrom(h, marked, m0, seen, over) && f.base !in m0
    ensures MarkedFrom(h, Closure(h, marked + Succ(h, f.base)), m0, seen + [f], over)
  {
    SuccObjs(h, f.base);
    SourcesAdd(h, m0, seen, over, f);
    ClosureAbsorbs(h, Sources(h, m0, seen, over), Succ(h, f.base));
  }

  lemma DeadOverflowed(h: Heap, marked: set<Obj>, m0: set<Obj>, seen: seq<FinObj>, over: set<Obj>, f: FinObj)
    requires h.IsObj(f.base) && MarkedFrom(h, marked, m0, seen, over) && f.base !in m0
    ensures MarkedFrom(h, Closure(h, marked + {f.base}), m0, seen + [f], over + {f.base})
  {
    var src, o := Sources(h, m0, seen, over), f.base;
    SuccObjs(h, o);
    SourcesAdd(h, m0, seen, over, f);
    ClosureAbsorbs(h, src, {o});
    OverSucc(h, src, o);
    assert (src + Succ(h, o)) + {o} == (src + {o}) + Succ(h, o);
  }

  lemma NoOverflow(h: Heap, size: nat, marked: set<Obj>, m0: set<Obj>, seen: seq<FinObj>, over: set<Obj>, o: Obj)
    requires MarkedFrom(h, marked, m0, seen, over) && h.IsObj(o) && INITIAL_MARK_STACK_SIZE <= size
    ensures Unmarked(h, m0) < size ==> !FoOverflows(h, size, marked, o)
  {
    ClosureFacts(h, Sources(h, m0, seen, over));
    MarksGrew(h, m0, marked);
    if Unmarked(h, m0) < size { FoFits(h, size, marked, o); }
  }

  lemma NotYetOver(h: Heap, marked: set<Obj>, m0: set<Obj>, seen: seq<FinObj>, over: set<Obj>, o: Obj)
    requires MarkedFrom(h, marked, m0, seen, over) && o !in marked
    ensures o !in over
  {
    ClosureFacts(h, Sources(h, m0, seen, over));
  }

  lemma OverSucc(h: Heap, src: set<Obj>, o: Obj)
    requires h.Valid() && AreObjs(h, src) && h.IsObj(o)
    ensures Closure(h, (src + {o}) + Succ(h, o)) == Closure(h, src + {o})
  {
    ClosureFacts(h, src + {o});
    forall q | q in Succ(h, o) ensures q in Closure(h, src + {o}) { assert h.EdgeRel()(o, q); }
    ClosureBetween(h, src + {o}, (src + {o}) + Succ(h, o));
  }

  lemma DeadSkipped(h: Heap, marked: set<Obj>, m0: set<Obj>, seen: seq<FinObj>, over: set<Obj>, f: FinObj)
    requires h.IsObj(f.base) && MarkedFrom(h, marked, m0, seen, over) && f.base in marked
    ensures MarkedFrom(h, marked, m0, seen + [f], over)
  {
    var src, o := Sources(h, m0, seen, over), f.base;
    SourcesAdd(h, m0, seen, over, f);
    SuccObjs(h, o);
    SuccOfMember(h, src, o);
  }

  lemma ClosureHasSuccs(h: Heap, m0: set<Obj>, table: seq<FinObj>, over: set<Obj>, C: set<Obj>)
    requires h.Valid() && AreObjs(h, m0) && AreObjs(h, over) && C == Closure(h, Sources(h, m0, table, over))
    ensures m0 <= C && SuccAll(h, Dead(table, C)) <= C
  {
    var src := Sources(h, m0, table, over);
    forall q | q in SuccAll(h, Dead(table, m0)) ensures h.IsObj(q) { AllObjsHasObjs(h, q); }
    ClosureFacts(h, src);
    forall q | q in SuccAll(h, Dead(table, C)) ensures q in C {
      var o :| o in Dead(table, C) && h.Edge(o, q);
      assert o in Dead(table, m0) && q in SuccAll(h, Dead(table, m0));
    }
  }

  lemma SuccOfMember(h: Heap, src: set<Obj>, o: Obj)
    requires h.Valid() && AreObjs(h, src) && o in Closure(h, src)
    ensures Closure(h, src + Succ(h, o)) == Closure(h, src)
  {
    ClosureFacts(h, src);
    forall q | q in Succ(h, o) ensures q in Closure(h, src) { assert h.EdgeRel()(o, q); }
    ClosureBetween(h, src, src + Succ(h, o));
  }

  // ---------------------------------------------------------------------
  // What the queue contains, in terms of pointer paths.

  // o can be reached from u through one or more pointers.
  ghost predicate ReachesPlus(h: Heap, u: Obj, o: Obj) {
    exists path :: IsPath(h.EdgeRel(), path) && |path| >= 2 && path[0] == u && path[|path| - 1] == o
  }

  // A dead registered object is queued if and only if no dead registered object, itself
  // included, leads to it and its own marking did not overflow the mark stack.
  lemma QueuedExactly(h: Heap, m0: set<Obj>, table: seq<FinObj>, over: set<Obj>, o: Obj)
    requires h.Valid() && AreObjs(h, m0) && ClosedMarks(h, m0)
    requires forall f :: f in table ==> h.IsObj(f.base)
    requires over <= Dead(table, m0) && o in Dead(table, m0)
    ensures o !in Closure(h, Sources(h, m0, table, over))
            <==> o !in over && !exists u :: u in Dead(table, m0) && ReachesPlus(h, u, o)
  {
    var src := Sources(h, m0, table, over);
    SourcesInside(h, m0, table, over);
    if u :| u in Dead(table, m0) && ReachesPlus(h, u, o) {
      LedTo(h, m0, table, over, u, o);
    }
    if o in Closure(h, src) {
      var path :| IsPath(h.EdgeRel(), path) && path[0] in src && path[|path| - 1] == o;
      QueueBlocked(h, m0, table, over, path);
    }
  }

  lemma SourcesInside(h: Heap, m0: set<Obj>, table: seq<FinObj>, over: set<Obj>)
    requires h.Valid() && AreObjs(h, m0) && AreObjs(h, over)
    ensures Sources(h, m0, table, over) <= Closure(h, Sources(h, m0, table, over))
    ensures EdgeClosed(h.EdgeRel(), Closure(h, Sources(h, m0, table, over)))
  {
    forall q | q in SuccAll(h, Dead(table, m0)) ensures h.IsObj(q) { AllObjsHasObjs(h, q); }
    ClosureFacts(h, Sources(h, m0, table, over));
  }

  // What a dead registered object leads to is marked.
  lemma LedTo(h: Heap, m0: set<Obj>, table: seq<FinObj>, over: set<Obj>, u: Obj, o: Obj)
    requires h.Valid() && AreObjs(h, m0) && AreObjs(h, over) && u in Dead(table, m0) && ReachesPlus(h, u, o)
    ensures o in Closure(h, Sources(h, m0, table, over))
  {
    var path :| IsPath(h.EdgeRel(), path) && |path| >= 2 && path[0] == u && path[|path| - 1] == o;
    var tail := path[1..];
    assert h.EdgeRel()(path[0], path[1]);
    AllObjsHasObjs(h, path[1]);
    assert tail[0] in SuccAll(h, Dead(table, m0)) && IsPath(h.EdgeRel(), tail);
    SourcesInside(h, m0, table, over);
    PathInside(h.EdgeRel(), Closure(h, Sources(h, m0, table, over)), tail, |tail| - 1);
  }

  // o is to be queued: it is dead, and no dead registered object leads to it.
  ghost predicate Due(h: Heap, m0: set<Obj>, table: seq<FinObj>, o: Obj) {
    o in Dead(table, m0) && !exists u :: u in Dead(table, m0) && ReachesPlus(h, u, o)
  }

  // Exactly the registered objects that are due have been added to the queue.
  ghost predicate QueueExact(h: Heap, m0: set<Obj>, table: seq<FinObj>, queue0: seq<FinObj>, queue: seq<FinObj>) {
    forall f :: f in queue <==> f in queue0 || (f in table && Due(h, m0, table, f.base))
  }

  lemma SameUnmarked(h1: Heap, h2: Heap, marked: set<Obj>)
    requires h1.blocks == h2.blocks
    ensures Unmarked(h1, marked) == Unmarked(h2, marked)
  {
    forall o ensures o in h1.AllObjs() <==> o in h2.AllObjs() {
      AllObjsHasObjs(h1, o);
      AllObjsHasObjs(h2, o);
    }
    assert UnmarkedSet(h1, marked) == UnmarkedSet(h2, marked);
  }

  // What is added to the queue when nothing overflows.
  lemma QueueIsExact(h: Heap, m0: set<Obj>, table: seq<FinObj>, queue0: seq<FinObj>)
    requires h.Valid() && AreObjs(h, m0) && ClosedMarks(h, m0) && forall f :: f in table ==> h.IsObj(f.base)
    ensures var C := Closure(h, Sources(h, m0, table, {}));
            QueueExact(h, m0, table, queue0, Reverse(Rest(table, C)) + queue0)
  {
    var C := Closure(h, Sources(h, m0, table, {}));
    RestFrom(table, C);
    ReverseHas(Rest(table, C));
    ClosureHasSuccs(h, m0, table, {}, C);
    forall f | f in table ensures f.base !in C <==> Due(h, m0, table, f.base) {
      if f.base !in m0 { QueuedExactly(h, m0, table, {}, f.base); }
    }
  }

  lemma {:induction false} ReverseHas<T>(s: seq<T>)
    ensures forall x :: x in Reverse(s) <==> x in s
  {
    if s != [] {
      ReverseHas(s[..|s| - 1]);
      assert s == s[..|s| - 1] + [s[|s| - 1]];
    }
  }

  lemma QueueBlocked(h: Heap, m0: set<Obj>, table: seq<FinObj>, over: set<Obj>, path: seq<Obj>)
    requires h.Valid() && ClosedMarks(h, m0) && over <= Dead(table, m0)
    requires IsPath(h.EdgeRel(), path) && path[0] in Sources(h, m0, table, over)
    ensures var o := path[|path| - 1];
            o in m0 || o in over || exists u :: u in Dead(table, m0) && ReachesPlus(h, u, o)
  {
    var s := path[0];
    if s in m0 {
      PathInside(h.EdgeRel(), m0, path, |path| - 1);
    } else if s in over {
      if |path| > 1 { assert ReachesPlus(h, s, path[|path| - 1]); }
    } else {
      var u :| u in Dead(table, m0) && h.Edge(u, s);
      var longer := [u] + path;
      assert h.EdgeRel()(u, s) && IsPath(h.EdgeRel(), longer);
      assert ReachesPlus(h, u, path[|path| - 1]);
    }
  }

  // Which objects are due does not depend on the order of buckets and chains.
  lemma BucketOrderIrrelevant(h: Heap, m0: set<Obj>, t1: seq<seq<FinObj>>, t2: seq<seq<FinObj>>, f: FinObj)
    requires multiset(Flat(t1)) == multiset(Flat(t2))
    ensures f in Flat(t1) && Due(h, m0, Flat(t1), f.base) <==> f in Flat(t2) && Due(h, m0, Flat(t2), f.base)
  {
    forall g ensures g in Flat(t1) <==> g in Flat(t2) {
      assert g in Flat(t1) <==> g in multiset(Flat(t1));
      assert g in Flat(t2) <==> g in multiset(Flat(t2));
    }
    assert Dead(Flat(t1), m0) == Dead(Flat(t2), m0);
  }

  // Without room an object that nothing refers to can miss its finalization: the head of
  // a list that is as long as the mark stack. It is dead and due, but marking for it
  // overflows the stack, so that it is marked itself.
  lemma OverflowHides(size: nat)
    requires INITIAL_MARK_STACK_SIZE <= size
    ensures var h, p := Spine(size), Obj(1, 0);
            && h.Valid() && h.Disjoint() && ClosedMarks(h, {}) && h.IsObj(p)
            && Due(h, {}, [FinObj(p, 2)], p) && FoOverflows(h, size, {}, p)
            && p in Closure(h, Sources(h, {}, [FinObj(p, 2)], {p}))
  {
    var h, p := Spine(size), Obj(1, 0);
    SpineOverflows(size);
    assert h.EntryOf(p) == Entry(2, Length(2));
    assert p in Dead([FinObj(p, 2)], {}) by { assert FinObj(p, 2) in [FinObj(p, 2)]; }
    forall o ensures !h.Edge(o, p) {
      forall a ensures h.Target(a) != Some(p) { SpineHead(size, a); }
    }
    forall u ensures !ReachesPlus(h, u, p) {
      forall path | IsPath(h.EdgeRel(), path) && |path| >= 2 ensures path[|path| - 1] != p {
        assert h.EdgeRel()(path[|path| - 2], path[|path| - 1]);
      }
    }
    forall q ensures !h.RootRef(q) {}
    assert h.RootObjs() == {};
    AllObjsHasObjs(h, p);
    ReachesSelf(h.EdgeRel(), Sources(h, {}, [FinObj(p, 2)], {p}), p);
  }

  // ---------------------------------------------------------------------
  // GC_grow_table: rehashing into twice as many buckets keeps the entries.

  ghost predicate Hashed(t: seq<seq<FinObj>>, hash: FinObj -> nat) {
    forall i, f :: 0 <= i < |t| && f in t[i] ==> i == hash(f) % |t|
  }

  method GrowTable(table: seq<seq<FinObj>>, hash: FinObj -> nat) returns (bigger: seq<seq<FinObj>>)
    ensures |bigger| == if |table| == 0 then 1 else 2 * |table|
    ensures multiset(Flat(bigger)) == multiset(Flat(table))
    ensures Hashed(bigger, hash)
  {
    var size := if |table| == 0 then 1 else 2 * |table|;
    bigger := seq(size, _ => []);
    FlatEmpty(bigger);
    var i := 0;
    while i < |table|
      invariant 0 <= i <= |table| && |bigger| == size && Hashed(bigger, hash)
      invariant multiset(Flat(bigger)) == multiset(Flat(table[..i]))
    {
      bigger := MoveChain(table[i], bigger, hash);
      FlatNext(table, i);
      i := i + 1;
    }
    assert table[..i] == table;
  }

  method MoveChain(chain: seq<FinObj>, table: seq<seq<FinObj>>, hash: FinObj -> nat) returns (now: seq<seq<FinObj>>)
    requires |table| > 0 && Hashed(table, hash)
    ensures |now| == |table| && Hashed(now, hash)
    ensures multiset(Flat(now)) == multiset(Flat(table)) + multiset(chain)
  {
    now := table;
    var p := chain;
    while p != []
      invariant |now| == |table| && Hashed(now, hash)
      invariant multiset(Flat(now)) + multiset(p) == multiset(Flat(table)) + multiset(chain)
      decreases |p|
    {
      var k := hash(p[0]) % |now|;
      FlatPrepend(now, k, p[0]);
      assert p == [p[0]] + p[1..];
      now := now[k := [p[0]] + now[k]];
      p := p[1..];
    }
  }

  lemma {:induction false} FlatEmpty<T>(t: seq<seq<T>>)
    requires forall i :: 0 <= i < |t| ==> t[i] == []
    ensures Flat(t) == []
  {
    if t != [] { FlatEmpty(t[..|t| - 1]); }
  }

  lemma {:induction false} FlatPrepend<T>(t: seq<seq<T>>, k: nat, x: T)
    requires k < |t|
    ensures multiset(Flat(t[k := [x] + t[k]])) == multiset(Flat(t)) + multiset{x}
  {
    var n := |t| - 1;
    var u := t[k := [x] + t[k]];
    if k == n {
      assert u[..n] == t[..n];
    } else {
      FlatPrepend(t[..n], k, x);
      assert u[..n] == t[..n][k := [x] + t[k]];
    }
  }
}
