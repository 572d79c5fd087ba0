// What the client program can see of the heap. ptrs holds the addresses of the
// words that are genuine pointers, as opposed to integers that merely look like
// one; alive holds at least the objects that genuine pointers lead to.
module Client {
  import opened GcHeap
  import opened Graphs
  import opened Kinds
  import opened Mark
  import opened MarkRun
  import opened Options

  const MAXOBJGRANULES: nat := 128
  const GRANULE_WORDS: nat := 2

  // The kind and size of the objects of a block, and so the free list they belong on.
  datatype Class = Class(kind: Kind, gran: nat) {
    predicate Small() { 0 < gran <= MAXOBJGRANULES }
    function Words(): nat { GRANULE_WORDS * gran }
    // ok_init: the objects on the free list are kept cleared.
    predicate Init() { kind != PtrFree && kind != AUncollectable }
  }

  predicate InExtent(h: Heap, cls: map<nat, Class>, o: Obj, a: int) {
    h.IsObj(o) && o.blk in cls && h.blocks[o.blk].bases[o.idx] <= a < h.blocks[o.blk].bases[o.idx] + cls[o.blk].Words()
  }

  // Objects do not share words.
  ghost predicate Apart(h: Heap, cls: map<nat, Class>, o: Obj, p: Obj) {
    o != p ==> forall a :: InExtent(h, cls, o, a) ==> !InExtent(h, cls, p, a)
  }

  // An object is no root, and the marker scans no words but its own.
  ghost predicate Placed(h: Heap, cls: map<nat, Class>, o: Obj) {
    h.IsObj(o) ==>
      && (forall a :: InExtent(h, cls, o, a) ==> !h.RootWord(a))
      && (forall a :: Covers(h.EntryOf(o), a) ==> InExtent(h, cls, o, a))
  }

  ghost predicate ClassOk(h: Heap, cls: map<nat, Class>, b: nat) {
    b in h.blocks ==>
        b in cls && cls[b].kind == h.blocks[b].kind && 0 < cls[b].gran
        && (cls[b].Small() || |h.blocks[b].bases| == 1)
  }

  ghost predicate Layout(h: Heap, cls: map<nat, Class>) {
    && cls.Keys == h.blocks.Keys && 0 !in h.resolve
    && (forall b {:trigger ClassOk(h, cls, b)} :: ClassOk(h, cls, b))
    && (forall o {:trigger Placed(h, cls, o)} :: Placed(h, cls, o))
    && (forall o, p {:trigger Apart(h, cls, o, p)} :: Apart(h, cls, o, p))
  }

  // The words the client may look at: the roots and the objects it still has.
  ghost predicate Visible(h: Heap, cls: map<nat, Class>, alive: set<Obj>, a: int) {
    h.RootWord(a) || exists o :: o in alive && InExtent(h, cls, o, a)
  }

  // The heap with every word that is no genuine pointer cleared.
  function Precise(h: Heap, ptrs: set<int>): Heap {
    h.(mem := map a | a in h.mem && a in ptrs :: h.mem[a])
  }

  ghost predicate Scanned(h: Heap, alive: set<Obj>, a: int) {
    h.RootWord(a) || exists o :: o in alive && h.IsObj(o) && Covers(h.EntryOf(o), a)
  }

  // The client keeps its pointers where the marker looks for them.
  ghost predicate PtrOk(h: Heap, ptrs: set<int>, alive: set<Obj>, a: int) {
    a in ptrs ==> Scanned(h, alive, a) && h.Target(a).Some?
  }

  // pinned holds the uncollectable objects that the client has not freed.
  ghost predicate ClientOk(h: Heap, ptrs: set<int>, pinned: set<Obj>, alive: set<Obj>) {
    && pinned <= alive && (forall o :: o in alive ==> h.IsObj(o))
    && Upper(Precise(h, ptrs), alive)
    && forall a {:trigger PtrOk(h, ptrs, alive, a)} :: PtrOk(h, ptrs, alive, a)
  }

  // A set that is closed under genuine pointers, and has what the roots point to,
  // holds whatever the client can reach.
  lemma ReachInside(h: Heap, ptrs: set<int>, pinned: set<Obj>, S: set<Obj>)
    requires h.Valid() && pinned <= S && Upper(Precise(h, ptrs), S) && forall o :: o in S ==> h.IsObj(o)
    ensures Precise(h, ptrs).ReachSet(pinned) <= S
  {
    var P := Precise(h, ptrs);
    forall o | o in pinned ensures o in P.AllObjs() { AllObjsHasObjs(P, o); }
    ReachSetFacts(P, pinned);
    forall p | p in P.RootObjs() ensures p in S {
      var a :| P.RootWord(a) && P.Target(a) == Some(p);
      RootClean(P, S, a);
    }
  }

  lemma RootClean(h: Heap, S: set<Obj>, a: int)
    requires Upper(h, S) && h.RootWord(a)
    ensures Clean(h, S, a)
  {
    var r :| (r in h.statics || r in h.stacks) && r.start <= a < r.start + r.words;
    assert RangeEntry(r) in AllRoots(h) && Covers(RangeEntry(r), a);
    assert !Pending([], a);
  }

  lemma PreciseTarget(h: Heap, ptrs: set<int>, a: int)
    requires 0 !in h.resolve && Precise(h, ptrs).Target(a).Some?
    ensures a in ptrs && h.Target(a) == Precise(h, ptrs).Target(a)
  {
  }

  // Marks that are closed under what looks like a pointer contain what genuine pointers
  // lead to, so the part of alive that is marked is still closed.
  lemma MarkedStayAlive(h: Heap, cls: map<nat, Class>, ptrs: set<int>, pinned: set<Obj>, alive: set<Obj>, M: set<Obj>)
    requires h.Valid() && Layout(h, cls) && ClientOk(h, ptrs, pinned, alive)
    requires EdgeClosed(h.EdgeRel(), M) && h.RootObjs() + pinned <= M
    ensures Upper(Precise(h, ptrs), alive * M) && pinned <= alive * M
  {
    var P := Precise(h, ptrs);
    forall x, y | x in alive * M && P.EdgeRel()(x, y) ensures y in alive * M {
      var a :| Covers(P.EntryOf(x), a) && P.Target(a) == Some(y);
      PreciseTarget(h, ptrs, a);
      assert h.EntryOf(x) == P.EntryOf(x);
      assert h.EdgeRel()(x, y) && P.EdgeRel()(x, y);
    }
    forall r | r in AllRoots(P) ensures EntryOk(P, alive * M, [], r) {
      forall a | Covers(r, a) ensures Clean(P, alive * M, a) {
        RootEntry(P, r, a);
        RootClean(P, alive, a);
        if P.Target(a).Some? {
          PreciseTarget(h, ptrs, a);
          assert h.RootWord(a) by { RootEntry(h, r, a); }
          AllObjsHasObjs(h, h.Target(a).value);
          assert h.Target(a).value in h.RootObjs();
        }
      }
    }
  }

  lemma RootEntry(h: Heap, e: Entry, a: int)
    requires e in AllRoots(h) && Covers(e, a)
    ensures h.RootWord(a)
  {
    if r :| r in h.statics && e == RangeEntry(r) {
      assert r in h.statics || r in h.stacks;
    } else {
      var r :| r in h.stacks && e == RangeEntry(r);
      assert r in h.statics || r in h.stacks;
    }
  }

  // Where no genuine pointer appears or changes, nothing new becomes reachable.
  lemma SameEdges(h1: Heap, ptrs1: set<int>, h2: Heap, ptrs2: set<int>, S: set<Obj>)
    requires Upper(Precise(h1, ptrs1), S) && h2.statics == h1.statics && h2.stacks == h1.stacks
    requires forall o :: o in S && h2.IsObj(o) ==> h1.IsObj(o) && h2.EntryOf(o) == h1.EntryOf(o)
    requires forall a :: Precise(h2, ptrs2).Target(a).Some? ==>
               Precise(h1, ptrs1).Target(a) == Precise(h2, ptrs2).Target(a) || Precise(h2, ptrs2).Target(a).value in S
    ensures Upper(Precise(h2, ptrs2), S)
  {
    var P1, P2 := Precise(h1, ptrs1), Precise(h2, ptrs2);
    forall x, y | x in S && P2.EdgeRel()(x, y) ensures y in S {
      var a :| Covers(P2.EntryOf(x), a) && P2.Target(a) == Some(y);
      assert h2.IsObj(x) && h2.EntryOf(x) == P2.EntryOf(x) && P1.EntryOf(x) == h1.EntryOf(x);
      if P1.Target(a) == P2.Target(a) { assert P1.EdgeRel()(x, y); }
    }
    forall r | r in AllRoots(P2) ensures EntryOk(P2, S, [], r) {
      assert EntryOk(P1, S, [], r);
      forall a | Covers(r, a) ensures Clean(P2, S, a) {
        assert !Pending([], a);
      }
    }
  }

  lemma ScannedVisible(h: Heap, cls: map<nat, Class>, alive: set<Obj>, a: int)
    requires Layout(h, cls) && Scanned(h, alive, a)
    ensures Visible(h, cls, alive, a)
  {
    if !h.RootWord(a) {
      var o :| o in alive && h.IsObj(o) && Covers(h.EntryOf(o), a);
      assert Placed(h, cls, o);
    }
  }

  // What a genuine pointer points to is alive.
  lemma TargetAlive(h: Heap, ptrs: set<int>, pinned: set<Obj>, alive: set<Obj>, a: int)
    requires ClientOk(h, ptrs, pinned, alive) && a in ptrs
    ensures h.Target(a).Some? && h.Target(a).value in alive
  {
    var P := Precise(h, ptrs);
    assert PtrOk(h, ptrs, alive, a);
    assert P.Target(a) == h.Target(a);
    if h.RootWord(a) {
      assert P.RootWord(a) by { SameRootWord(h, P, a); }
      RootClean(P, alive, a);
    } else {
      var o :| o in alive && h.IsObj(o) && Covers(h.EntryOf(o), a);
      assert P.EntryOf(o) == h.EntryOf(o);
      assert P.EdgeRel()(o, P.Target(a).value);
    }
  }

  lemma SameRootWord(h1: Heap, h2: Heap, a: int)
    requires h2.statics == h1.statics && h2.stacks == h1.stacks && h1.RootWord(a)
    ensures h2.RootWord(a)
  {
    var r :| (r in h1.statics || r in h1.stacks) && r.start <= a < r.start + r.words;
    assert r in h2.statics || r in h2.stacks;
  }

  // The client's view depends on nothing but the words it sees.
  lemma SameView(h1: Heap, h2: Heap, cls: map<nat, Class>, ptrs: set<int>, pinned: set<Obj>, alive: set<Obj>)
    requires ClientOk(h1, ptrs, pinned, alive) && Layout(h1, cls)
    requires h2 == h1.(mem := h2.mem) && forall a :: Visible(h1, cls, alive, a) ==> h2.Read(a) == h1.Read(a)
    ensures ClientOk(h2, ptrs, pinned, alive)
  {
    forall a ensures PtrOk(h2, ptrs, alive, a) {
      assert PtrOk(h1, ptrs, alive, a);
      if a in ptrs {
        ScannedVisible(h1, cls, alive, a);
        ScannedSame(h1, h2, alive, a);
      }
    }
    forall a | Precise(h2, ptrs).Target(a).Some? ensures Precise(h1, ptrs).Target(a) == Precise(h2, ptrs).Target(a) {
      PreciseTarget(h2, ptrs, a);
      assert PtrOk(h1, ptrs, alive, a);
      ScannedVisible(h1, cls, alive, a);
    }
    SameEdges(h1, ptrs, h2, ptrs, alive);
  }

  lemma ScannedSame(h1: Heap, h2: Heap, alive: set<Obj>, a: int)
    requires h2.statics == h1.statics && h2.stacks == h1.stacks && Scanned(h1, alive, a)
    requires forall o :: o in alive && h1.IsObj(o) ==> h2.IsObj(o) && h2.EntryOf(o) == h1.EntryOf(o)
    ensures Scanned(h2, alive, a)
  {
    if h1.RootWord(a) {
      SameRootWord(h1, h2, a);
    } else {
      var o :| o in alive && h1.IsObj(o) && Covers(h1.EntryOf(o), a);
      assert h2.IsObj(o) && Covers(h2.EntryOf(o), a);
    }
  }

  // Changes that the client cannot see do not change what it can reach.
  lemma SameReach(h1: Heap, h2: Heap, cls: map<nat, Class>, ptrs: set<int>, pinned: set<Obj>, alive: set<Obj>)
    requires h1.Valid() && h2.Valid() && ClientOk(h1, ptrs, pinned, alive) && Layout(h1, cls)
    requires h2 == h1.(mem := h2.mem) && forall a :: Visible(h1, cls, alive, a) ==> h2.Read(a) == h1.Read(a)
    ensures Precise(h1, ptrs).ReachSet(pinned) <= Precise(h2, ptrs).ReachSet(pinned)
  {
    var P2 := Precise(h2, ptrs);
    var R := P2.ReachSet(pinned);
    UpperReach(P2, pinned);
    PinnedReached(P2, pinned);
    forall o | o in R ensures h1.IsObj(o) {
      AllObjsHasObjs(P2, o);
      assert o in P2.AllObjs();
    }
    forall a | Precise(h1, ptrs).Target(a).Some? ensures P2.Target(a) == Precise(h1, ptrs).Target(a) {
      PreciseTarget(h1, ptrs, a);
      assert PtrOk(h1, ptrs, alive, a);
      ScannedVisible(h1, cls, alive, a);
    }
    SameEdges(h2, ptrs, h1, ptrs, R);
    ReachInside(h1, ptrs, pinned, R);
  }

  // The pointers that are left when only the objects in S are.
  ghost function PtrsOf(h: Heap, ptrs: set<int>, S: set<Obj>): set<int> {
    set a | a in ptrs && Scanned(h, S, a)
  }

  lemma FewerAlive(h: Heap, ptrs: set<int>, pinned: set<Obj>, alive: set<Obj>, S: set<Obj>)
    requires ClientOk(h, ptrs, pinned, alive) && 0 !in h.resolve
    requires pinned <= S <= alive && Upper(Precise(h, ptrs), S)
    ensures ClientOk(h, PtrsOf(h, ptrs, S), pinned, S)
  {
    var ptrs2 := PtrsOf(h, ptrs, S);
    forall a ensures PtrOk(h, ptrs2, S, a) {
      assert PtrOk(h, ptrs, alive, a);
    }
    SameEdges(h, ptrs, h, ptrs2, S);
  }

  // Words that become null are pointers no more.
  ghost predicate NulledAt(h: Heap, h2: Heap, a: int) { h2.Read(a) == h.Read(a) || h2.Read(a) == 0 }

  ghost function NonNull(h: Heap, ptrs: set<int>): set<int> {
    set a | a in ptrs && h.Read(a) != 0
  }

  lemma NullsKeepClient(h: Heap, h2: Heap, cls: map<nat, Class>, ptrs: set<int>, pinned: set<Obj>, alive: set<Obj>)
    requires Layout(h, cls) && ClientOk(h, ptrs, pinned, alive) && h2 == h.(mem := h2.mem)
    requires forall a {:trigger NulledAt(h, h2, a)} :: NulledAt(h, h2, a)
    ensures Layout(h2, cls) && ClientOk(h2, NonNull(h2, ptrs), pinned, alive)
  {
    var ptrs2 := NonNull(h2, ptrs);
    SameLayout(h, h2, cls);
    forall a ensures PtrOk(h2, ptrs2, alive, a) {
      assert PtrOk(h, ptrs, alive, a) && NulledAt(h, h2, a);
      if a in ptrs2 { ScannedSame(h, h2, alive, a); }
    }
    forall a | Precise(h2, ptrs2).Target(a).Some? ensures Precise(h, ptrs).Target(a) == Precise(h2, ptrs2).Target(a) {
      PreciseTarget(h2, ptrs2, a);
      assert NulledAt(h, h2, a);
    }
    SameEdges(h, ptrs, h2, ptrs2, alive);
  }

  // The heap without block b: what its addresses referred to is gone.
  function Freed(h: Heap, b: nat): Heap {
    h.(blocks := h.blocks - {b}, resolve := map w | w in h.resolve && h.resolve[w].blk != b :: h.resolve[w])
  }

  lemma FreeKeepsClient(h: Heap, cls: map<nat, Class>, ptrs: set<int>, pinned: set<Obj>, alive: set<Obj>, b: nat)
    requires h.Valid() && Layout(h, cls) && ClientOk(h, ptrs, pinned, alive) && h.Disjoint()
    requires forall o :: o in alive ==> o.blk != b
    ensures Freed(h, b).Valid() && Freed(h, b).Disjoint() && Layout(Freed(h, b), cls - {b})
            && ClientOk(Freed(h, b), ptrs, pinned, alive)
  {
    var h2, cls2 := Freed(h, b), cls - {b};
    forall c ensures ClassOk(h2, cls2, c) { assert ClassOk(h, cls, c); }
    forall o ensures Placed(h2, cls2, o) {
      assert Placed(h, cls, o);
      if h2.IsObj(o) {
        forall a | InExtent(h2, cls2, o, a) ensures !h2.RootWord(a) {
          assert InExtent(h, cls, o, a);
          if h2.RootWord(a) { SameRootWord(h2, h, a); }
        }
        assert h2.EntryOf(o) == h.EntryOf(o);
      }
    }
    forall o, p ensures Apart(h2, cls2, o, p) {
      assert Apart(h, cls, o, p);
      if o != p {
        forall a | InExtent(h2, cls2, o, a) ensures !InExtent(h2, cls2, p, a) {
          assert InExtent(h, cls, o, a);
        }
      }
    }
    forall a ensures PtrOk(h2, ptrs, alive, a) {
      assert PtrOk(h, ptrs, alive, a);
      if a in ptrs {
        TargetAlive(h, ptrs, pinned, alive, a);
        ScannedSame(h, h2, alive, a);
      }
    }
    SameEdges(h, ptrs, h2, ptrs, alive);
  }

  // The heap with the new block b, to whose objects words refer.
  function Grown(h: Heap, b: nat, blk: Block, words: map<int, Obj>): Heap {
    h.(blocks := h.blocks[b := blk], resolve := h.resolve + words)
  }

  lemma GrowKeepsClient(h: Heap, cls: map<nat, Class>, ptrs: set<int>, pinned: set<Obj>, alive: set<Obj>, b: nat,
        blk: Block, words: map<int, Obj>)
    requires Layout(h, cls) && ClientOk(h, ptrs, pinned, alive) && b !in h.blocks && words.Keys !! h.resolve.Keys
             && 0 !in words
    ensures ClientOk(Grown(h, b, blk, words), ptrs, pinned, alive)
  {
    var h2 := Grown(h, b, blk, words);
    forall a ensures PtrOk(h2, ptrs, alive, a) {
      assert PtrOk(h, ptrs, alive, a);
      if a in ptrs {
        TargetAlive(h, ptrs, pinned, alive, a);
        ScannedSame(h, h2, alive, a);
      }
    }
    forall a | Precise(h2, ptrs).Target(a).Some? ensures Precise(h, ptrs).Target(a) == Precise(h2, ptrs).Target(a) {
      GrownTarget(h, ptrs, alive, b, blk, words, a);
    }
    SameEdges(h, ptrs, h2, ptrs, alive);
  }

  lemma GrownTarget(h: Heap, ptrs: set<int>, alive: set<Obj>, b: nat, blk: Block, words: map<int, Obj>, a: int)
    requires words.Keys !! h.resolve.Keys && 0 !in words && 0 !in h.resolve && PtrOk(h, ptrs, alive, a)
    requires Precise(Grown(h, b, blk, words), ptrs).Target(a).Some?
    ensures Precise(h, ptrs).Target(a) == Precise(Grown(h, b, blk, words), ptrs).Target(a)
  {
  }

  // A new object holds no genuine pointers yet.
  lemma AllocKeepsClient(h: Heap, cls: map<nat, Class>, ptrs: set<int>, pinned: set<Obj>, alive: set<Obj>, o: Obj,
        more: set<Obj>)
    requires Layout(h, cls) && ClientOk(h, ptrs, pinned, alive) && h.IsObj(o) && o !in alive && more <= {o}
    ensures ClientOk(h, ptrs, pinned + more, alive + {o})
  {
    var P, S := Precise(h, ptrs), alive + {o};
    forall x, y | x in S && P.EdgeRel()(x, y) ensures y in S {
      var a :| Covers(P.EntryOf(x), a) && P.Target(a) == Some(y);
      PreciseTarget(h, ptrs, a);
      assert P.EntryOf(x) == h.EntryOf(x);
      if x == o { NotScanned(h, cls, ptrs, alive, o, a); }
      TargetAlive(h, ptrs, pinned, alive, a);
    }
    forall r | r in AllRoots(P) ensures EntryOk(P, S, [], r) {
      assert EntryOk(P, alive, [], r);
      forall a | Covers(r, a) ensures Clean(P, S, a) {
        assert !Pending([], a);
      }
    }
    forall a ensures PtrOk(h, ptrs, S, a) {
      assert PtrOk(h, ptrs, alive, a);
      if a in ptrs && !h.RootWord(a) {
        var p :| p in alive && h.IsObj(p) && Covers(h.EntryOf(p), a);
        assert p in S;
      }
    }
  }

  lemma NotScanned(h: Heap, cls: map<nat, Class>, ptrs: set<int>, alive: set<Obj>, o: Obj, a: int)
    requires Layout(h, cls) && h.IsObj(o) && o !in alive && Covers(h.EntryOf(o), a)
    ensures !Scanned(h, alive, a)
  {
    assert Placed(h, cls, o);
    forall p | p in alive && h.IsObj(p) ensures !Covers(h.EntryOf(p), a) {
      assert Placed(h, cls, p) && Apart(h, cls, o, p);
    }
  }

  // ---------------------------------------------------------------------
  // What the collector writes into a free object.

  predicate IsWord(a: int) { true }

  function Words(base: int, n: nat): set<int> {
    set a | IsWord(a) && base <= a < base + n
  }

  // Reclaiming: the first word links to the next free object, the others are cleared
  // where the kind asks for it.
  function Emptied(mem: map<int, int>, base: int, n: nat, link: int, clear: bool): map<int, int> {
    (if clear then map a | a in mem.Keys + Words(base, n) ::
        if a in Words(base, n) then 0 else mem[a] else mem)[base := link]
  }

  // All words of o but the first are zero.
  ghost predicate ClearAt(h: Heap, cls: map<nat, Class>, o: Obj) {
    h.IsObj(o) ==> forall a :: InExtent(h, cls, o, a) && a != h.blocks[o.blk].bases[o.idx] ==> h.Read(a) == 0
  }

  // Cleared objects not in xs stay cleared.
  ghost predicate ClearKeptAt(h1: Heap, h2: Heap, cls: map<nat, Class>, xs: set<Obj>, p: Obj) {
    p !in xs && ClearAt(h1, cls, p) ==> ClearAt(h2, cls, p)
  }

  ghost predicate ClearKept(h1: Heap, h2: Heap, cls: map<nat, Class>, xs: set<Obj>) {
    forall p {:trigger ClearKeptAt(h1, h2, cls, xs, p)} :: ClearKeptAt(h1, h2, cls, xs, p)
  }

  lemma ClearKeptTrans(h1: Heap, h2: Heap, h3: Heap, cls: map<nat, Class>, xs: set<Obj>, ys: set<Obj>)
    requires ClearKept(h1, h2, cls, xs) && ClearKept(h2, h3, cls, ys)
    ensures ClearKept(h1, h3, cls, xs + ys)
  {
    forall p ensures ClearKeptAt(h1, h3, cls, xs + ys, p) {
      assert ClearKeptAt(h1, h2, cls, xs, p) && ClearKeptAt(h2, h3, cls, ys, p);
    }
  }

  ghost predicate SameWord(h1: Heap, h2: Heap, cls: map<nat, Class>, alive: set<Obj>, a: int) {
    Visible(h1, cls, alive, a) ==> h2.Read(a) == h1.Read(a)
  }

  // Nothing that the client can see has changed.
  ghost predicate SameWords(h1: Heap, h2: Heap, cls: map<nat, Class>, alive: set<Obj>) {
    h2 == h1.(mem := h2.mem) && forall a {:trigger SameWord(h1, h2, cls, alive, a)} :: SameWord(h1, h2, cls, alive, a)
  }

  lemma EmptyStep(h: Heap, cls: map<nat, Class>, alive: set<Obj>, o: Obj, link: int, clear: bool, h2: Heap)
    requires Layout(h, cls) && h.IsObj(o) && o !in alive
    requires h2 == h.(mem := Emptied(h.mem, h.blocks[o.blk].bases[o.idx], cls[o.blk].Words(), link, clear))
    ensures SameWords(h, h2, cls, alive)
    ensures clear ==> ClearAt(h2, cls, o)
    ensures ClearKept(h, h2, cls, {o})
  {
    assert ClassOk(h, cls, o.blk) && Placed(h, cls, o);
    forall a | !InExtent(h, cls, o, a) ensures h2.Read(a) == h.Read(a) {
    }
    forall a ensures SameWord(h, h2, cls, alive, a) {
      if InExtent(h, cls, o, a) && Visible(h, cls, alive, a) {
        var p :| p in alive && InExtent(h, cls, p, a);
        assert Apart(h, cls, o, p);
      }
    }
    forall p ensures ClearKeptAt(h, h2, cls, {o}, p) {
      assert Apart(h, cls, o, p);
    }
  }

  lemma SameVisible(h1: Heap, h2: Heap, cls: map<nat, Class>, alive: set<Obj>, a: int)
    requires h2 == h1.(mem := h2.mem)
    ensures Visible(h1, cls, alive, a) <==> Visible(h2, cls, alive, a)
  {
    if h1.RootWord(a) { SameRootWord(h1, h2, a); }
    if h2.RootWord(a) { SameRootWord(h2, h1, a); }
    if o :| o in alive && InExtent(h1, cls, o, a) { assert InExtent(h2, cls, o, a); }
    if o :| o in alive && InExtent(h2, cls, o, a) { assert InExtent(h1, cls, o, a); }
  }

  lemma SameWordsTrans(h1: Heap, h2: Heap, h3: Heap, cls: map<nat, Class>, alive: set<Obj>)
    requires SameWords(h1, h2, cls, alive) && SameWords(h2, h3, cls, alive)
    ensures SameWords(h1, h3, cls, alive)
  {
    forall a ensures SameWord(h1, h3, cls, alive, a) {
      SameVisible(h1, h2, cls, alive, a);
      assert SameWord(h1, h2, cls, alive, a) && SameWord(h2, h3, cls, alive, a);
    }
  }

  lemma SameWordsKeep(h1: Heap, h2: Heap, cls: map<nat, Class>, ptrs: set<int>, pinned: set<Obj>, alive: set<Obj>)
    requires SameWords(h1, h2, cls, alive) && Layout(h1, cls) && ClientOk(h1, ptrs, pinned, alive) && h1.Disjoint()
    ensures Layout(h2, cls) && ClientOk(h2, ptrs, pinned, alive) && h2.Disjoint() && (h1.Valid() ==> h2.Valid())
  {
    forall a | Visible(h1, cls, alive, a) ensures h2.Read(a) == h1.Read(a) {
      assert SameWord(h1, h2, cls, alive, a);
    }
    SameView(h1, h2, cls, ptrs, pinned, alive);
    forall b ensures ClassOk(h2, cls, b) { assert ClassOk(h1, cls, b); }
    forall o ensures Placed(h2, cls, o) {
      assert Placed(h1, cls, o);
      if h2.IsObj(o) {
        forall a | InExtent(h2, cls, o, a) ensures !h2.RootWord(a) {
          assert InExtent(h1, cls, o, a);
          if h2.RootWord(a) { SameRootWord(h2, h1, a); }
        }
        assert h2.EntryOf(o) == h1.EntryOf(o);
      }
    }
    forall o, p ensures Apart(h2, cls, o, p) {
      assert Apart(h1, cls, o, p);
      if o != p {
        forall a | InExtent(h2, cls, o, a) ensures !InExtent(h2, cls, p, a) {
          assert InExtent(h1, cls, o, a);
        }
      }
    }
  }

  // ---------------------------------------------------------------------
  // What the client does.

  // A store into a visible word, of a pointer to a live object or of anything else.
  lemma StoreKeepsClient(h: Heap, cls: map<nat, Class>, ptrs: set<int>, pinned: set<Obj>, alive: set<Obj>, a: int,
        w: int, genuine: bool)
    requires Layout(h, cls) && ClientOk(h, ptrs, pinned, alive) && Visible(h, cls, alive, a)
    requires genuine ==> Scanned(h, alive, a) && w in h.resolve && h.resolve[w] in alive
    ensures var h2 := h.(mem := h.mem[a := w]);
            Layout(h2, cls) && ClientOk(h2, if genuine then ptrs + {a} else ptrs - {a}, pinned, alive)
    ensures ClearKept(h, h.(mem := h.mem[a := w]), cls, alive)
  {
    var h2, ptrs2 := h.(mem := h.mem[a := w]), if genuine then ptrs + {a} else ptrs - {a};
    forall x ensures PtrOk(h2, ptrs2, alive, x) {
      assert PtrOk(h, ptrs, alive, x);
      if x in ptrs2 { ScannedSame(h, h2, alive, x); }
    }
    SameEdges(h, ptrs, h2, ptrs2, alive);
    SameLayout(h, h2, cls);
    forall p ensures ClearKeptAt(h, h2, cls, alive, p) {
      if p !in alive && ClearAt(h, cls, p) {
        forall x | InExtent(h2, cls, p, x) && x != h2.blocks[p.blk].bases[p.idx] ensures h2.Read(x) == 0 {
          assert InExtent(h, cls, p, x);
          NotVisible(h, cls, alive, p, x);
        }
      }
    }
  }

  lemma NotVisible(h: Heap, cls: map<nat, Class>, alive: set<Obj>, p: Obj, a: int)
    requires Layout(h, cls) && p !in alive && InExtent(h, cls, p, a)
    ensures !Visible(h, cls, alive, a)
  {
    assert Placed(h, cls, p);
    forall o | o in alive ensures !InExtent(h, cls, o, a) {
      assert Apart(h, cls, p, o);
    }
  }

  lemma SameLayout(h: Heap, h2: Heap, cls: map<nat, Class>)
    requires Layout(h, cls) && h2 == h.(mem := h2.mem)
    ensures Layout(h2, cls)
  {
    forall b ensures ClassOk(h2, cls, b) { assert ClassOk(h, cls, b); }
    forall o ensures Placed(h2, cls, o) {
      assert Placed(h, cls, o);
      if h2.IsObj(o) {
        forall a | InExtent(h2, cls, o, a) ensures !h2.RootWord(a) {
          assert InExtent(h, cls, o, a);
          if h2.RootWord(a) { SameRootWord(h2, h, a); }
        }
        assert h2.EntryOf(o) == h.EntryOf(o);
      }
    }
    forall o, p ensures Apart(h2, cls, o, p) {
      assert Apart(h, cls, o, p);
      if o != p {
        forall a | InExtent(h2, cls, o, a) ensures !InExtent(h2, cls, p, a) {
          assert InExtent(h, cls, o, a);
        }
      }
    }
  }

  // The stacks grow and shrink; what a new root word happens to hold is no pointer.
  lemma RootsKeepClient(h: Heap, ptrs: set<int>, pinned: set<Obj>, alive: set<Obj>, h2: Heap)
    requires ClientOk(h, ptrs, pinned, alive) && h2 == h.(statics := h2.statics, stacks := h2.stacks) && 0 !in h.resolve
    ensures ClientOk(h2, PtrsOf(h2, ptrs, alive), pinned, alive)
  {
    var ptrs2 := PtrsOf(h2, ptrs, alive);
    var P, P2 := Precise(h, ptrs), Precise(h2, ptrs2);
    forall a | P2.Target(a).Some? ensures P2.Target(a).value in alive {
      PreciseTarget(h2, ptrs2, a);
      TargetAlive(h, ptrs, pinned, alive, a);
    }
    forall x, y | x in alive && P2.EdgeRel()(x, y) ensures y in alive {
      var a :| Covers(P2.EntryOf(x), a) && P2.Target(a) == Some(y);
    }
    forall r | r in AllRoots(P2) ensures EntryOk(P2, alive, [], r) {
    }
    forall a ensures PtrOk(h2, ptrs2, alive, a) {
      assert PtrOk(h, ptrs, alive, a);
    }
  }
}
