// Collections, lazy sweeping and allocation, over whole runs: what the client can
// reach is never put on a free list nor given back to the block manager.
module Collect {
  import opened Client
  import Finalize
  import opened GcHeap
  import opened Graphs
  import opened Kinds
  import opened Mark
  import opened MarkRun
  import opened Options

  // ---------------------------------------------------------------------
  // Free lists and reclaim lists.

  function Fl(fl: map<Class, seq<Obj>>, c: Class): seq<Obj> { if c in fl then fl[c] else [] }

  function Rl(rl: map<Class, seq<nat>>, c: Class): seq<nat> { if c in rl then rl[c] else [] }

  // Block b waits to be swept.
  predicate Queued(cls: map<nat, Class>, rl: map<Class, seq<nat>>, b: nat) {
    b in cls && b in Rl(rl, cls[b])
  }

  ghost predicate NoRepeats<T>(s: seq<T>) {
    forall i, j :: 0 <= i < j < |s| ==> s[i] != s[j]
  }

  // o belongs on list c: the client cannot reach it, and no sweep will find it again.
  ghost predicate FreeObj(h: Heap, marked: set<Obj>, cls: map<nat, Class>, rl: map<Class, seq<nat>>,
        alive: set<Obj>, c: Class, o: Obj) {
    && h.IsObj(o) && o.blk in cls && cls[o.blk] == c && o !in alive && !Queued(cls, rl, o.blk)
    && (c.kind.IsUncollectable() ==> o in marked)
    && (c.Init() ==> ClearAt(h, cls, o))
  }

  ghost predicate FlOk(h: Heap, marked: set<Obj>, cls: map<nat, Class>, fl: map<Class, seq<Obj>>,
        rl: map<Class, seq<nat>>, alive: set<Obj>, c: Class) {
    && NoRepeats(Fl(fl, c))
    && forall o {:trigger FreeObj(h, marked, cls, rl, alive, c, o)} :: o in Fl(fl, c) ==>
       FreeObj(h, marked, cls, rl, alive, c, o)
  }

  ghost predicate RlOk(h: Heap, cls: map<nat, Class>, rl: map<Class, seq<nat>>, c: Class) {
    && NoRepeats(Rl(rl, c))
    && forall b :: b in Rl(rl, c) ==> b in h.blocks && b in cls && cls[b] == c && c.Small()
  }

  // A sweep of o's block would leave it alone.
  ghost predicate Survives(marked: set<Obj>, cls: map<nat, Class>, rl: map<Class, seq<nat>>, alive: set<Obj>, o: Obj) {
    o in alive && Queued(cls, rl, o.blk) ==> o in marked
  }

  ghost predicate PinnedOk(h: Heap, marked: set<Obj>, pinned: set<Obj>, o: Obj) {
    o in pinned ==> h.IsObj(o) && o in marked && h.blocks[o.blk].kind.IsUncollectable()
  }

  ghost predicate ListsOk(h: Heap, marked: set<Obj>, cls: map<nat, Class>, fl: map<Class, seq<Obj>>,
        rl: map<Class, seq<nat>>, alive: set<Obj>) {
    && (forall c {:trigger FlOk(h, marked, cls, fl, rl, alive, c)} :: FlOk(h, marked, cls, fl, rl, alive, c))
    && (forall c {:trigger RlOk(h, cls, rl, c)} :: RlOk(h, cls, rl, c))
  }

  ghost predicate MarksSafe(h: Heap, marked: set<Obj>, cls: map<nat, Class>, rl: map<Class, seq<nat>>,
        pinned: set<Obj>, alive: set<Obj>) {
    && (forall o {:trigger Survives(marked, cls, rl, alive, o)} :: Survives(marked, cls, rl, alive, o))
    && (forall o {:trigger PinnedOk(h, marked, pinned, o)} :: PinnedOk(h, marked, pinned, o))
  }

  // The objects of block b below k that are not marked, last first.
  function FreeOf(marked: set<Obj>, b: nat, k: nat): seq<Obj> {
    if k == 0 then []
    else if Obj(b, k - 1) in marked then FreeOf(marked, b, k - 1)
    else [Obj(b, k - 1)] + FreeOf(marked, b, k - 1)
  }

  // A sweep frees exactly the unmarked objects of the block, each of them once.
  lemma {:induction false} FreeOfExact(marked: set<Obj>, b: nat, k: nat)
    ensures NoRepeats(FreeOf(marked, b, k))
    ensures forall o :: o in FreeOf(marked, b, k) <==> o.blk == b && o.idx < k && o !in marked
  {
    if k > 0 {
      FreeOfExact(marked, b, k - 1);
      var o, rest := Obj(b, k - 1), FreeOf(marked, b, k - 1);
      forall p: Obj | p.blk == b && p.idx < k && p !in marked ensures p == o || p in rest { }
      if o !in marked { NoRepeatsCons(o, rest); }
    }
  }

  // A sweep passes over block b.
  predicate PassedOver(ignoreOld: bool, recent: set<nat>, b: nat) { ignoreOld && b !in recent }

  // What the sweep of block b puts on the free list.
  function PartOf(h: Heap, marked: set<Obj>, ignoreOld: bool, recent: set<nat>, b: nat): seq<Obj> {
    if b in h.blocks && !PassedOver(ignoreOld, recent, b) then FreeOf(marked, b, |h.blocks[b].bases|) else []
  }

  // What sweeping the first n blocks of the queue q puts on the free list, the last first.
  function SweptOf(h: Heap, marked: set<Obj>, q: seq<nat>, n: nat, ignoreOld: bool, recent: set<nat>): seq<Obj>
    requires n <= |q|
  {
    if n == 0 then []
    else PartOf(h, marked, ignoreOld, recent, q[n - 1]) + SweptOf(h, marked, q, n - 1, ignoreOld, recent)
  }

  // It holds exactly the unmarked objects of those of the blocks that are swept.
  lemma {:induction false} SweptOfExact(h: Heap, marked: set<Obj>, q: seq<nat>, n: nat, ignoreOld: bool,
        recent: set<nat>)
    requires n <= |q|
    ensures forall o :: o in SweptOf(h, marked, q, n, ignoreOld, recent) <==>
              o.blk in q[..n] && !PassedOver(ignoreOld, recent, o.blk) && h.IsObj(o) && o !in marked
  {
    if n > 0 {
      SweptOfExact(h, marked, q, n - 1, ignoreOld, recent);
      var b := q[n - 1];
      assert q[..n] == q[..n - 1] + [b];
      if b in h.blocks { FreeOfExact(marked, b, |h.blocks[b].bases|); }
    }
  }

  // There is an object that a sweep of block b finds.
  ghost predicate HasGarbage(h: Heap, marked: set<Obj>, b: nat) {
    exists o: Obj :: o.blk == b && h.IsObj(o) && o !in marked
  }

  // Class c since the time of h0: blocks have left its queue from the front, and those
  // that were not passed over have been swept into its free list.
  ghost predicate SweptTo(h0: Heap, marks0: set<Obj>, fl0: map<Class, seq<Obj>>, rl0: map<Class, seq<nat>>,
      fl: map<Class, seq<Obj>>, rl: map<Class, seq<nat>>, ignoreOld: bool, recent: set<nat>, c: Class) {
    var q, n := Rl(rl0, c), |Rl(rl0, c)| - |Rl(rl, c)|;
    && n >= 0 && Rl(rl, c) == q[n..]
    && Fl(fl, c) == SweptOf(h0, marks0, q, n, ignoreOld, recent) + Fl(fl0, c)
  }

  // A sweep looks at the marks of its own block only.
  lemma {:induction false} FreeOfSame(marked: set<Obj>, marked2: set<Obj>, b: nat, k: nat)
    requires forall o: Obj :: o.blk == b ==> (o in marked <==> o in marked2)
    ensures FreeOf(marked, b, k) == FreeOf(marked2, b, k)
  {
    if k > 0 { FreeOfSame(marked, marked2, b, k - 1); }
  }

  // The marks are those of marks0, and all objects of uncollectable blocks that have been swept.
  ghost predicate MarkNow(h0: Heap, marks0: set<Obj>, rl0: map<Class, seq<nat>>, marked: set<Obj>,
      rl: map<Class, seq<nat>>, cls: map<nat, Class>, ignoreOld: bool, recent: set<nat>, o: Obj) {
    o in marked <==>
      || o in marks0
      || (h0.IsObj(o) && Queued(cls, rl0, o.blk) && !Queued(cls, rl, o.blk) && !PassedOver(ignoreOld, recent, o.blk)
          && cls[o.blk].kind.IsUncollectable())
  }

  ghost predicate MarksNow(h0: Heap, marks0: set<Obj>, rl0: map<Class, seq<nat>>, marked: set<Obj>,
      rl: map<Class, seq<nat>>, cls: map<nat, Class>, ignoreOld: bool, recent: set<nat>) {
    forall o {:trigger MarkNow(h0, marks0, rl0, marked, rl, cls, ignoreOld, recent, o)} ::
      MarkNow(h0, marks0, rl0, marked, rl, cls, ignoreOld, recent, o)
  }

  lemma SameBlockMarks(h0: Heap, marks0: set<Obj>, rl0: map<Class, seq<nat>>, marked: set<Obj>,
        rl: map<Class, seq<nat>>, cls: map<nat, Class>, ignoreOld: bool, recent: set<nat>, b: nat, k: nat)
    requires MarksNow(h0, marks0, rl0, marked, rl, cls, ignoreOld, recent) && Queued(cls, rl, b)
    ensures FreeOf(marked, b, k) == FreeOf(marks0, b, k)
  {
    forall o: Obj | o.blk == b ensures o in marked <==> o in marks0 {
      assert MarkNow(h0, marks0, rl0, marked, rl, cls, ignoreOld, recent, o);
    }
    FreeOfSame(marked, marks0, b, k);
  }

  // One more block has left the queue.
  lemma SweptMore(h0: Heap, marks0: set<Obj>, fl0: map<Class, seq<Obj>>, rl0: map<Class, seq<nat>>,
        fl: map<Class, seq<Obj>>, rl: map<Class, seq<nat>>, ignoreOld: bool, recent: set<nat>, c: Class,
        fl2: map<Class, seq<Obj>>, rl2: map<Class, seq<nat>>)
    requires SweptTo(h0, marks0, fl0, rl0, fl, rl, ignoreOld, recent, c)
    requires Rl(rl, c) != [] && Rl(rl2, c) == Rl(rl, c)[1..]
    requires Fl(fl2, c) == PartOf(h0, marks0, ignoreOld, recent, Rl(rl, c)[0]) + Fl(fl, c)
    ensures SweptTo(h0, marks0, fl0, rl0, fl2, rl2, ignoreOld, recent, c)
  {
    var q, n := Rl(rl0, c), |Rl(rl0, c)| - |Rl(rl, c)|;
    Tail(q, n);
    InThree(PartOf(h0, marks0, ignoreOld, recent, q[n]), SweptOf(h0, marks0, q, n, ignoreOld, recent), Fl(fl0, c));
  }

  lemma Tail<T>(q: seq<T>, n: nat)
    requires n < |q|
    ensures q[n..][0] == q[n] && q[n..][1..] == q[n + 1..]
  {
  }

  lemma InThree<T>(a: seq<T>, b: seq<T>, c: seq<T>)
    ensures a + (b + c) == (a + b) + c
  {
  }

  lemma SweptSame(h0: Heap, marks0: set<Obj>, fl0: map<Class, seq<Obj>>, rl0: map<Class, seq<nat>>,
        fl: map<Class, seq<Obj>>, rl: map<Class, seq<nat>>, ignoreOld: bool, recent: set<nat>, c: Class,
        fl2: map<Class, seq<Obj>>, rl2: map<Class, seq<nat>>)
    requires SweptTo(h0, marks0, fl0, rl0, fl, rl, ignoreOld, recent, c)
    requires Fl(fl2, c) == Fl(fl, c) && Rl(rl2, c) == Rl(rl, c)
    ensures SweptTo(h0, marks0, fl0, rl0, fl2, rl2, ignoreOld, recent, c)
  {
  }

  // What has been taken off the front of a free list since still counts as swept into it.
  lemma StillSwept(h0: Heap, marks0: set<Obj>, fl0: map<Class, seq<Obj>>, rl0: map<Class, seq<nat>>,
        fl: map<Class, seq<Obj>>, rl: map<Class, seq<nat>>, c: Class, left: map<Class, seq<Obj>>, r: Option<Obj>)
    requires SweptTo(h0, marks0, fl0, rl0, fl, rl, false, {}, c)
    requires if r.None? then left == fl
             else Fl(fl, c) != [] && r.value == Fl(fl, c)[0] && left == fl[c := Fl(fl, c)[1..]]
    ensures SweptTo(h0, marks0, fl0, rl0, PutBackOn(left, c, r), rl, false, {}, c)
  {
    assert Fl(fl, c) == Given(r) + Fl(left, c);
  }

  function Given(r: Option<Obj>): seq<Obj> { if r.Some? then [r.value] else [] }

  // The free lists with what the client was given still on them.
  function PutBackOn(left: map<Class, seq<Obj>>, c: Class, r: Option<Obj>): map<Class, seq<Obj>> {
    left[c := Given(r) + Fl(left, c)]
  }

  // Block b of class c leaves the queue; if it is swept and uncollectable all of it is marked.
  lemma MarksOn(h0: Heap, marks0: set<Obj>, rl0: map<Class, seq<nat>>, marked: set<Obj>, rl: map<Class, seq<nat>>,
        cls: map<nat, Class>, ignoreOld: bool, recent: set<nat>, c: Class, marked2: set<Obj>)
    requires MarksNow(h0, marks0, rl0, marked, rl, cls, ignoreOld, recent) && Rl(rl, c) != []
    requires var b := Rl(rl, c)[0];
      && b in h0.blocks && b in cls && cls[b] == c && !Queued(cls, rl[c := Rl(rl, c)[1..]], b) && b in Rl(rl0, c)
      && marked2 == marked + SweepMarks(h0, c, ignoreOld, recent, b)
    ensures MarksNow(h0, marks0, rl0, marked2, rl[c := Rl(rl, c)[1..]], cls, ignoreOld, recent)
  {
    var rl2 := rl[c := Rl(rl, c)[1..]];
    forall o ensures MarkNow(h0, marks0, rl0, marked2, rl2, cls, ignoreOld, recent, o) {
      assert MarkNow(h0, marks0, rl0, marked, rl, cls, ignoreOld, recent, o);
      if o.blk != Rl(rl, c)[0] { assert Queued(cls, rl2, o.blk) <==> Queued(cls, rl, o.blk); }
      else { assert o in BlockObjs(o.blk, |h0.blocks[o.blk].bases|)
          <==> h0.IsObj(o) by { assert o == Obj(o.blk, o.idx); } }
    }
  }

  // The marks that the sweep of block b of class c sets.
  function SweepMarks(h: Heap, c: Class, ignoreOld: bool, recent: set<nat>, b: nat): set<Obj>
    requires b in h.blocks
  {
    if c.kind.IsUncollectable() && !PassedOver(ignoreOld, recent, b) then BlockObjs(b, |h.blocks[b].bases|) else {}
  }

  // At the start nothing has left a queue.
  lemma SweptNone(h: Heap, marked: set<Obj>, fl: map<Class, seq<Obj>>, rl: map<Class, seq<nat>>, cls: map<nat, Class>,
        ignoreOld: bool, recent: set<nat>)
    ensures MarksNow(h, marked, rl, marked, rl, cls, ignoreOld, recent)
    ensures forall c {:trigger SweptTo(h, marked, fl, rl, fl, rl, ignoreOld, recent, c)} ::
              SweptTo(h, marked, fl, rl, fl, rl, ignoreOld, recent, c)
  {
    forall o ensures MarkNow(h, marked, rl, marked, rl, cls, ignoreOld, recent, o) { }
    forall c ensures SweptTo(h, marked, fl, rl, fl, rl, ignoreOld, recent, c) {
      assert Rl(rl, c)[..0] == [] && Rl(rl, c)[0..] == Rl(rl, c);
    }
  }

  // One more block of class c has left its queue, and the other classes are as they were.
  lemma SweptOn(h0: Heap, marks0: set<Obj>, fl0: map<Class, seq<Obj>>, rl0: map<Class, seq<nat>>,
        fl: map<Class, seq<Obj>>, rl: map<Class, seq<nat>>, ignoreOld: bool, recent: set<nat>, c: Class,
        cls: map<nat, Class>, marked: set<Obj>, marked2: set<Obj>, fl2: map<Class, seq<Obj>>)
    requires forall d {:trigger SweptTo(h0, marks0, fl0, rl0, fl, rl, ignoreOld, recent, d)} ::
               SweptTo(h0, marks0, fl0, rl0, fl, rl, ignoreOld, recent, d)
    requires MarksNow(h0, marks0, rl0, marked, rl, cls, ignoreOld, recent) && Rl(rl, c) != []
    requires var b := Rl(rl, c)[0];
      && b in h0.blocks && b in cls && cls[b] == c && !Queued(cls, rl[c := Rl(rl, c)[1..]], b)
      && fl2 == (if PassedOver(ignoreOld, recent, b) then fl
                 else fl[c := FreeOf(marked, b, |h0.blocks[b].bases|) + Fl(fl, c)])
      && marked2 == marked + SweepMarks(h0, c, ignoreOld, recent, b)
    ensures var rl2 := rl[c := Rl(rl, c)[1..]];
      && MarksNow(h0, marks0, rl0, marked2, rl2, cls, ignoreOld, recent)
      && forall d {:trigger SweptTo(h0, marks0, fl0, rl0, fl2, rl2, ignoreOld, recent, d)} ::
           SweptTo(h0, marks0, fl0, rl0, fl2, rl2, ignoreOld, recent, d)
  {
    var b, rl2 := Rl(rl, c)[0], rl[c := Rl(rl, c)[1..]];
    assert SweptTo(h0, marks0, fl0, rl0, fl, rl, ignoreOld, recent, c);
    MarksOn(h0, marks0, rl0, marked, rl, cls, ignoreOld, recent, c, marked2);
    forall d ensures SweptTo(h0, marks0, fl0, rl0, fl2, rl2, ignoreOld, recent, d) {
      assert SweptTo(h0, marks0, fl0, rl0, fl, rl, ignoreOld, recent, d);
      if d == c {
        assert [] + Fl(fl, c) == Fl(fl, c);
        SameBlockMarks(h0, marks0, rl0, marked, rl, cls, ignoreOld, recent, b, |h0.blocks[b].bases|);
        SweptMore(h0, marks0, fl0, rl0, fl, rl, ignoreOld, recent, c, fl2, rl2);
      } else {
        SweptSame(h0, marks0, fl0, rl0, fl, rl, ignoreOld, recent, d, fl2, rl2);
      }
    }
  }

  // The sweep stopped at the first free object: all blocks swept before the last had none.
  ghost predicate NoMoreThanNeeded(h0: Heap, marks0: set<Obj>, fl0: map<Class, seq<Obj>>, rl0: map<Class, seq<nat>>,
      rl: map<Class, seq<nat>>, c: Class) {
    forall n: nat {:trigger SweptOf(h0, marks0, Rl(rl0, c), n, false, {})} ::
      0 < n < |Rl(rl0, c)| && n + 1 == |Rl(rl0, c)| - |Rl(rl, c)| ==>
        Fl(fl0, c) == [] && SweptOf(h0, marks0, Rl(rl0, c), n, false, {}) == []
  }

  // No free object has been found yet.
  ghost predicate Looking(h0: Heap, marks0: set<Obj>, fl0: map<Class, seq<Obj>>, rl0: map<Class, seq<nat>>,
      fl: map<Class, seq<Obj>>, rl: map<Class, seq<nat>>, c: Class) {
    && SweptTo(h0, marks0, fl0, rl0, fl, rl, false, {}, c) && NoMoreThanNeeded(h0, marks0, fl0, rl0, rl, c)
    && (|Rl(rl, c)| < |Rl(rl0, c)| ==> Fl(fl, c) == [])
  }

  lemma LookOn(h0: Heap, marks0: set<Obj>, fl0: map<Class, seq<Obj>>, rl0: map<Class, seq<nat>>,
        fl: map<Class, seq<Obj>>, rl: map<Class, seq<nat>>, fl2: map<Class, seq<Obj>>, rl2: map<Class, seq<nat>>,
        c: Class)
    requires StillLooking(h0, marks0, fl0, rl0, fl, rl, c) && |Rl(rl2, c)| == |Rl(rl, c)| - 1
    requires forall d {:trigger SweptTo(h0, marks0, fl0, rl0, fl2, rl2, false, {}, d)} ::
               SweptTo(h0, marks0, fl0, rl0, fl2, rl2, false, {}, d)
    ensures NoMoreThanNeeded(h0, marks0, fl0, rl0, rl2, c)
    ensures Fl(fl2, c) == [] ==> StillLooking(h0, marks0, fl0, rl0, fl2, rl2, c)
  {
    assert Looking(h0, marks0, fl0, rl0, fl, rl, c);
    NoneYet(h0, marks0, fl0, rl0, fl, rl, c);
    OneMore(h0, marks0, fl0, rl0, rl, rl2, c);
    if Fl(fl2, c) == [] { assert Looking(h0, marks0, fl0, rl0, fl2, rl2, c); }
  }

  // What has been swept held no free object, and the free list was empty before.
  ghost predicate NothingSwept(h0: Heap, marks0: set<Obj>, fl0: map<Class, seq<Obj>>, rl0: map<Class, seq<nat>>,
      rl: map<Class, seq<nat>>, c: Class) {
    var q, n := Rl(rl0, c), |Rl(rl0, c)| - |Rl(rl, c)|;
    0 < n <= |q| ==> Fl(fl0, c) == [] && SweptOf(h0, marks0, q, n, false, {}) == []
  }

  lemma NoneYet(h0: Heap, marks0: set<Obj>, fl0: map<Class, seq<Obj>>, rl0: map<Class, seq<nat>>,
        fl: map<Class, seq<Obj>>, rl: map<Class, seq<nat>>, c: Class)
    requires Looking(h0, marks0, fl0, rl0, fl, rl, c)
    ensures NothingSwept(h0, marks0, fl0, rl0, rl, c)
  {
    var q, n := Rl(rl0, c), |Rl(rl0, c)| - |Rl(rl, c)|;
    if 0 < n <= |q| { BothEmpty(SweptOf(h0, marks0, q, n, false, {}), Fl(fl0, c)); }
  }

  lemma OneMore(h0: Heap, marks0: set<Obj>, fl0: map<Class, seq<Obj>>, rl0: map<Class, seq<nat>>,
        rl: map<Class, seq<nat>>, rl2: map<Class, seq<nat>>, c: Class)
    requires NothingSwept(h0, marks0, fl0, rl0, rl, c) && |Rl(rl2, c)| == |Rl(rl, c)| - 1
    ensures NoMoreThanNeeded(h0, marks0, fl0, rl0, rl2, c)
  {
  }

  lemma BothEmpty<T>(a: seq<T>, b: seq<T>)
    requires |a + b| == 0
    ensures a == [] && b == []
  {
    assert |a + b| == |a| + |b|;
  }

  ghost predicate StillLooking(h0: Heap, marks0: set<Obj>, fl0: map<Class, seq<Obj>>, rl0: map<Class, seq<nat>>,
      fl: map<Class, seq<Obj>>, rl: map<Class, seq<nat>>, c: Class) {
    forall d {:trigger Looking(h0, marks0, fl0, rl0, fl, rl, d)} :: d == c ==> Looking(h0, marks0, fl0, rl0, fl, rl, d)
  }

  lemma LookFirst(h0: Heap, marks0: set<Obj>, fl: map<Class, seq<Obj>>, rl: map<Class, seq<nat>>, c: Class)
    requires forall d {:trigger SweptTo(h0, marks0, fl, rl, fl, rl, false, {}, d)} ::
               SweptTo(h0, marks0, fl, rl, fl, rl, false, {}, d)
    ensures StillLooking(h0, marks0, fl, rl, fl, rl, c)
  {
    assert SweptTo(h0, marks0, fl, rl, fl, rl, false, {}, c);
  }

  lemma LookEnds(h0: Heap, marks0: set<Obj>, fl0: map<Class, seq<Obj>>, rl0: map<Class, seq<nat>>,
        fl: map<Class, seq<Obj>>, rl: map<Class, seq<nat>>, c: Class)
    requires StillLooking(h0, marks0, fl0, rl0, fl, rl, c)
    ensures NoMoreThanNeeded(h0, marks0, fl0, rl0, rl, c)
  {
    assert Looking(h0, marks0, fl0, rl0, fl, rl, c);
  }

  // The free list that is left is empty only if there was nothing to find.
  lemma FoundAny(h0: Heap, marks0: set<Obj>, fl0: map<Class, seq<Obj>>, rl0: map<Class, seq<nat>>,
        fl: map<Class, seq<Obj>>, rl: map<Class, seq<nat>>, c: Class)
    requires SweptTo(h0, marks0, fl0, rl0, fl, rl, false, {}, c) && (Fl(fl, c) != [] || Rl(rl, c) == [])
    ensures Fl(fl, c) != [] <==> Fl(fl0, c) != [] || SomeGarbage(h0, marks0, rl0, c)
  {
    var q, n := Rl(rl0, c), |Rl(rl0, c)| - |Rl(rl, c)|;
    SweptOfExact(h0, marks0, q, n, false, {});
    var s := SweptOf(h0, marks0, q, n, false, {});
    if s != [] {
      assert s[0] in s;
      assert s[0].blk in q && HasGarbage(h0, marks0, s[0].blk);
    }
    if Rl(rl, c) == [] && SomeGarbage(h0, marks0, rl0, c) {
      var b :| b in q && HasGarbage(h0, marks0, b);
      var o: Obj :| o.blk == b && h0.IsObj(o) && o !in marks0;
      assert q[..n] == q && o in s;
    }
  }

  // Some block queued for class c has an unmarked object.
  ghost predicate SomeGarbage(h: Heap, marked: set<Obj>, rl: map<Class, seq<nat>>, c: Class) {
    exists b :: b in Rl(rl, c) && HasGarbage(h, marked, b)
  }

  lemma NoRepeatsCons<T>(x: T, s: seq<T>)
    requires NoRepeats(s) && x !in s
    ensures NoRepeats([x] + s)
  {
  }

  lemma MemMarksOk(h: Heap, h2: Heap, marked: set<Obj>, nMarks: map<nat, nat>)
    requires MarksOk(h, marked, nMarks) && h2 == h.(mem := h2.mem)
    ensures MarksOk(h2, marked, nMarks)
  {
  }

  ghost function Seen(b: nat, k: nat): set<Obj> {
    set i | 0 <= i < k :: Obj(b, i)
  }

  ghost predicate AllClear(h: Heap, cls: map<nat, Class>, s: seq<Obj>) {
    forall o {:trigger ClearAt(h, cls, o)} :: o in s ==> ClearAt(h, cls, o)
  }

  lemma ClearKeptMore(h1: Heap, h2: Heap, cls: map<nat, Class>, xs: set<Obj>, ys: set<Obj>)
    requires ClearKept(h1, h2, cls, xs) && xs <= ys
    ensures ClearKept(h1, h2, cls, ys)
  {
    forall p ensures ClearKeptAt(h1, h2, cls, ys, p) {
      assert ClearKeptAt(h1, h2, cls, xs, p);
    }
  }

  lemma AllClearMore(h1: Heap, h2: Heap, cls: map<nat, Class>, s: seq<Obj>, o: Obj)
    requires ClearKept(h1, h2, cls, {o}) && o !in s
    ensures AllClear(h1, cls, s) ==> AllClear(h2, cls, s)
    ensures AllClear(h1, cls, s) && ClearAt(h2, cls, o) ==> AllClear(h2, cls, [o] + s)
  {
    if AllClear(h1, cls, s) {
      forall p | p in s ensures ClearAt(h2, cls, p) {
        assert ClearAt(h1, cls, p) && ClearKeptAt(h1, h2, cls, {o}, p);
      }
    }
  }

  // Block b contributes nothing to the free lists yet.
  ghost predicate NoneFree(fl: map<Class, seq<Obj>>, b: nat) {
    forall c, o :: o in Fl(fl, c) ==> o.blk != b
  }

  ghost predicate BlockMarked(marked: set<Obj>, alive: set<Obj>, b: nat) {
    forall o :: o in alive && o.blk == b ==> o in marked
  }

  // The lists after block b has been swept into list.
  lemma ListsSwept(h: Heap, marked: set<Obj>, h2: Heap, marked2: set<Obj>, cls: map<nat, Class>,
        fl: map<Class, seq<Obj>>, rl: map<Class, seq<nat>>,
                   alive: set<Obj>, b: nat, list: seq<Obj>)
    requires ListsOk(h, marked, cls, fl, rl, alive) && h2 == h.(mem := h2.mem) && marked <= marked2
    requires b in h.blocks && b in cls && !Queued(cls, rl, b) && NoneFree(fl, b) && BlockMarked(marked, alive, b)
    requires list == FreeOf(marked, b, |h.blocks[b].bases|) + Fl(fl, cls[b])
    requires ClearKept(h, h2, cls, Seen(b, |h.blocks[b].bases|))
    requires cls[b].Init() ==> AllClear(h2, cls, FreeOf(marked, b, |h.blocks[b].bases|))
    requires cls[b].kind.IsUncollectable() ==> forall o :: o in FreeOf(marked, b, |h.blocks[b].bases|) ==> o in marked2
    ensures ListsOk(h2, marked2, cls, fl[cls[b] := list], rl, alive)
  {
    var fl2, freed := fl[cls[b] := list], FreeOf(marked, b, |h.blocks[b].bases|);
    FreeOfExact(marked, b, |h.blocks[b].bases|);
    forall c ensures FlOk(h2, marked2, cls, fl2, rl, alive, c) {
      assert FlOk(h, marked, cls, fl, rl, alive, c);
      forall o | o in Fl(fl2, c) ensures FreeObj(h2, marked2, cls, rl, alive, c, o) {
        if o in Fl(fl, c) {
          assert FreeObj(h, marked, cls, rl, alive, c, o) && ClearKeptAt(h, h2, cls, Seen(b, |h.blocks[b].bases|), o);
        }
      }
    }
    forall c ensures RlOk(h2, cls, rl, c) { assert RlOk(h, cls, rl, c); }
  }

  lemma MoreMarksSafe(h: Heap, h2: Heap, marked: set<Obj>, marked2: set<Obj>, cls: map<nat, Class>,
        rl: map<Class, seq<nat>>, pinned: set<Obj>, alive: set<Obj>)
    requires MarksSafe(h, marked, cls, rl, pinned, alive) && marked <= marked2 && h2 == h.(mem := h2.mem)
    ensures MarksSafe(h2, marked2, cls, rl, pinned, alive)
  {
    forall o ensures Survives(marked2, cls, rl, alive, o) { assert Survives(marked, cls, rl, alive, o); }
    forall o ensures PinnedOk(h2, marked2, pinned, o) { assert PinnedOk(h, marked, pinned, o); }
  }

  lemma LargeMark(h: Heap, marked: set<Obj>, b: nat)
    requires (forall o :: o in marked ==> h.IsObj(o)) && b in h.blocks && |h.blocks[b].bases| == 1
    ensures Obj(b, 0) in marked <==> MarkedOf(marked, b) != {}
  {
    if o :| o in MarkedOf(marked, b) {
      assert o == Obj(b, 0);
    }
    if Obj(b, 0) in marked { assert Obj(b, 0) in MarkedOf(marked, b); }
  }

  // GC_set_hdr_marks
  function BlockObjs(b: nat, n: nat): set<Obj> {
    set i | 0 <= i < n :: Obj(b, i)
  }

  lemma {:induction false} BlockObjsSize(b: nat, n: nat)
    ensures |BlockObjs(b, n)| == n
  {
    if n > 0 {
      BlockObjsSize(b, n - 1);
      assert BlockObjs(b, n) == BlockObjs(b, n - 1) + {Obj(b, n - 1)};
    } else {
      assert BlockObjs(b, 0) == {};
    }
  }

  lemma MarksOkAll(h: Heap, marked: set<Obj>, nMarks: map<nat, nat>, b: nat)
    requires MarksOk(h, marked, nMarks) && b in h.blocks
    ensures MarksOk(h, marked + BlockObjs(b, |h.blocks[b].bases|), nMarks[b := |h.blocks[b].bases|])
  {
    var n := |h.blocks[b].bases|;
    var m2, n2 := marked + BlockObjs(b, n), nMarks[b := n];
    forall c | c in h.blocks ensures c in n2 && n2[c] == |MarkedOf(m2, c)| {
      assert nMarks[c] == |MarkedOf(marked, c)|;
      if c == b {
        forall o | o in MarkedOf(m2, b) ensures o in BlockObjs(b, n) {
          assert o == Obj(b, o.idx);
        }
        assert MarkedOf(m2, b) == BlockObjs(b, n);
        BlockObjsSize(b, n);
      } else {
        assert MarkedOf(m2, c) == MarkedOf(marked, c);
      }
    }
  }

  // Taking the first block off reclaim list c.
  lemma Popped(h: Heap, marked: set<Obj>, cls: map<nat, Class>, fl: map<Class, seq<Obj>>, rl: map<Class, seq<nat>>,
               pinned: set<Obj>, alive: set<Obj>, c: Class)
    requires ListsOk(h, marked, cls, fl, rl, alive) && MarksSafe(h, marked, cls, rl, pinned, alive) && Rl(rl, c) != []
    ensures var b, rl2 := Rl(rl, c)[0], rl[c := Rl(rl, c)[1..]];
            && b in h.blocks && b in cls && cls[b] == c && !Queued(cls, rl2, b) && NoneFree(fl, b)
               && BlockMarked(marked, alive, b)
            && ListsOk(h, marked, cls, fl, rl2, alive) && MarksSafe(h, marked, cls, rl2, pinned, alive)
  {
    var b, rl2 := Rl(rl, c)[0], rl[c := Rl(rl, c)[1..]];
    assert RlOk(h, cls, rl, c);
    forall d ensures FlOk(h, marked, cls, fl, rl2, alive, d) {
      assert FlOk(h, marked, cls, fl, rl, alive, d);
      forall o | o in Fl(fl, d) ensures FreeObj(h, marked, cls, rl2, alive, d, o) {
        assert FreeObj(h, marked, cls, rl, alive, d, o);
      }
    }
    forall d ensures RlOk(h, cls, rl2, d) { assert RlOk(h, cls, rl, d); }
    forall o ensures Survives(marked, cls, rl2, alive, o) { assert Survives(marked, cls, rl, alive, o); }
    forall d, o | o in Fl(fl, d) ensures o.blk != b {
      assert FlOk(h, marked, cls, fl, rl, alive, d) && FreeObj(h, marked, cls, rl, alive, d, o);
    }
    forall o | o in alive && o.blk == b ensures o in marked {
      assert Survives(marked, cls, rl, alive, o);
    }
  }

  // HBLK_OBJS and GC_block_nearly_full
  predicate NearlyFull(nMarks: nat, objs: nat) { nMarks > 7 * objs / 8 }

  predicate Worthwhile(h: Heap, nMarks: map<nat, nat>, cls: map<nat, Class>, b: nat) {
    b in h.blocks && b in cls && b in nMarks && cls[b].Small() && nMarks[b] != 0
        && !NearlyFull(nMarks[b], |h.blocks[b].bases|)
  }

  lemma MarksOkFreed(h: Heap, marked: set<Obj>, nMarks: map<nat, nat>, b: nat)
    requires MarksOk(h, marked, nMarks) && MarkedOf(marked, b) == {} && Freed(h, b).Valid()
    ensures MarksOk(Freed(h, b), marked, nMarks)
  {
    forall o | o in marked ensures Freed(h, b).IsObj(o) {
      assert o.blk == b ==> o in MarkedOf(marked, b);
    }
    forall c | c in Freed(h, b).blocks ensures c in nMarks && nMarks[c] == |MarkedOf(marked, c)| {
      assert |MarkedOf(marked, c)| == nMarks[c];
    }
  }

  lemma ListsFreed(h: Heap, marked: set<Obj>, cls: map<nat, Class>, fl: map<Class, seq<Obj>>, rl: map<Class, seq<nat>>,
                   pinned: set<Obj>, alive: set<Obj>, b: nat)
    requires ListsOk(h, marked, cls, fl, rl, alive) && MarksSafe(h, marked, cls, rl, pinned, alive)
    requires b in cls && !Queued(cls, rl, b) && NoneFree(fl, b) && MarkedOf(marked, b) == {}
    ensures ListsOk(Freed(h, b), marked, cls - {b}, fl, rl, alive)
            && MarksSafe(Freed(h, b), marked, cls - {b}, rl, pinned, alive)
  {
    var h2, cls2 := Freed(h, b), cls - {b};
    forall c ensures FlOk(h2, marked, cls2, fl, rl, alive, c) {
      assert FlOk(h, marked, cls, fl, rl, alive, c);
      forall o | o in Fl(fl, c) ensures FreeObj(h2, marked, cls2, rl, alive, c, o) {
        assert FreeObj(h, marked, cls, rl, alive, c, o) && o.blk != b;
        if c.Init() {
          forall a | InExtent(h2, cls2, o, a) && a != h2.blocks[o.blk].bases[o.idx] ensures h2.Read(a) == 0 {
            assert InExtent(h, cls, o, a);
          }
        }
      }
    }
    forall c ensures RlOk(h2, cls2, rl, c) { assert RlOk(h, cls, rl, c); }
    forall o ensures Survives(marked, cls2, rl, alive, o) { assert Survives(marked, cls, rl, alive, o); }
    forall o ensures PinnedOk(h2, marked, pinned, o) {
      assert PinnedOk(h, marked, pinned, o);
      if o in pinned { assert o.blk == b ==> o in MarkedOf(marked, b); }
    }
  }

  lemma ListsQueued(h: Heap, marked: set<Obj>, cls: map<nat, Class>, fl: map<Class, seq<Obj>>, rl: map<Class, seq<nat>>,
                    pinned: set<Obj>, alive: set<Obj>, b: nat)
    requires ListsOk(h, marked, cls, fl, rl, alive) && MarksSafe(h, marked, cls, rl, pinned, alive) && alive <= marked
    requires b in h.blocks && b in cls && cls[b].Small() && !Queued(cls, rl, b) && NoneFree(fl, b)
    ensures var rl2 := rl[cls[b] := [b] + Rl(rl, cls[b])];
            ListsOk(h, marked, cls, fl, rl2, alive) && MarksSafe(h, marked, cls, rl2, pinned, alive)
  {
    var rl2 := rl[cls[b] := [b] + Rl(rl, cls[b])];
    forall c ensures FlOk(h, marked, cls, fl, rl2, alive, c) {
      assert FlOk(h, marked, cls, fl, rl, alive, c);
      forall o | o in Fl(fl, c) ensures FreeObj(h, marked, cls, rl2, alive, c, o) {
        assert FreeObj(h, marked, cls, rl, alive, c, o) && o.blk != b;
      }
    }
    forall c ensures RlOk(h, cls, rl2, c) { assert RlOk(h, cls, rl, c); }
    forall o ensures Survives(marked, cls, rl2, alive, o) { }
    forall o ensures PinnedOk(h, marked, pinned, o) { assert PinnedOk(h, marked, pinned, o); }
  }

  // With every list empty the only claim left is that pinned objects are marked.
  lemma ListsEmpty(h: Heap, marked: set<Obj>, cls: map<nat, Class>, alive: set<Obj>)
    ensures ListsOk(h, marked, cls, map[], map[], alive)
  {
    forall c ensures FlOk(h, marked, cls, map[], map[], alive, c) { }
    forall c ensures RlOk(h, cls, map[], c) { }
  }

  lemma CountsUnmark(h: Heap, marked: set<Obj>, nMarks: map<nat, nat>, p: Obj)
    requires MarksOk(h, marked, nMarks) && p in marked
    ensures p.blk in nMarks && nMarks[p.blk] > 0 && MarksOk(h, marked - {p}, nMarks[p.blk := nMarks[p.blk] - 1])
  {
    var m := marked - {p};
    assert p in MarkedOf(marked, p.blk) && nMarks[p.blk] == |MarkedOf(marked, p.blk)|;
    assert MarkedOf(m, p.blk) == MarkedOf(marked, p.blk) - {p};
    var n2 := nMarks[p.blk := nMarks[p.blk] - 1];
    forall b | b in h.blocks ensures b in n2 && n2[b] == |MarkedOf(m, b)| {
      assert nMarks[b] == |MarkedOf(marked, b)|;
      if b != p.blk { assert MarkedOf(m, b) == MarkedOf(marked, b); }
    }
  }

  lemma NoneAlive(marked: set<Obj>, alive: set<Obj>, b: nat)
    requires alive <= marked && MarkedOf(marked, b) == {}
    ensures forall o :: o in alive ==> o.blk != b
  {
    forall o | o in alive ensures o.blk != b {
      assert o !in MarkedOf(marked, b);
    }
  }

  // The objects on the free lists.
  ghost predicate OnFl(fl: map<Class, seq<Obj>>, o: Obj) {
    exists c :: o in Fl(fl, c)
  }

  ghost function FlSet(fl: map<Class, seq<Obj>>): set<Obj> {
    set c, o | c in fl && o in fl[c] :: o
  }

  lemma FlDead(h: Heap, marked: set<Obj>, cls: map<nat, Class>, fl: map<Class, seq<Obj>>, rl: map<Class, seq<nat>>,
        alive: set<Obj>)
    requires ListsOk(h, marked, cls, fl, rl, alive)
    ensures FlSet(fl) !! alive && forall o :: o in FlSet(fl) ==> h.IsObj(o)
  {
    forall o | o in FlSet(fl) ensures o !in alive && h.IsObj(o) {
      var c :| c in fl && o in fl[c];
      assert FlOk(h, marked, cls, fl, rl, alive, c) && FreeObj(h, marked, cls, rl, alive, c, o);
    }
  }

  // With nothing queued, marks matter only for pinned and for free uncollectable objects.
  lemma MarksGone(h: Heap, marked: set<Obj>, cls: map<nat, Class>, fl: map<Class, seq<Obj>>, rl: map<Class, seq<nat>>,
                  pinned: set<Obj>, alive: set<Obj>, marked2: set<Obj>)
    requires ListsOk(h, marked, cls, fl, rl, alive) && MarksSafe(h, marked, cls, rl, pinned, alive) && Layout(h, cls)
    requires forall c :: Rl(rl, c) == []
    requires UncollectableOf(h, marked) <= marked2
    ensures ListsOk(h, marked2, cls, fl, rl, alive) && MarksSafe(h, marked2, cls, rl, pinned, alive)
  {
    forall c ensures FlOk(h, marked2, cls, fl, rl, alive, c) {
      assert FlOk(h, marked, cls, fl, rl, alive, c);
      forall o | o in Fl(fl, c) ensures FreeObj(h, marked2, cls, rl, alive, c, o) {
        assert FreeObj(h, marked, cls, rl, alive, c, o) && ClassOk(h, cls, o.blk);
      }
    }
    forall c ensures RlOk(h, cls, rl, c) { }
    forall o ensures Survives(marked2, cls, rl, alive, o) { }
    forall o ensures PinnedOk(h, marked2, pinned, o) { assert PinnedOk(h, marked, pinned, o); }
  }

  lemma PinnedKept(h: Heap, marked: set<Obj>, cls: map<nat, Class>, rl: map<Class, seq<nat>>, pinned: set<Obj>,
        alive: set<Obj>)
    requires MarksSafe(h, marked, cls, rl, pinned, alive)
    ensures pinned <= UncollectableOf(h, marked)
  {
    forall o | o in pinned ensures o in UncollectableOf(h, marked) {
      assert PinnedOk(h, marked, pinned, o);
    }
  }

  lemma ListsTaken(h: Heap, h2: Heap, marked: set<Obj>, cls: map<nat, Class>, fl: map<Class, seq<Obj>>,
        rl: map<Class, seq<nat>>,
                   pinned: set<Obj>, alive: set<Obj>, c: Class)
    requires ListsOk(h, marked, cls, fl, rl, alive) && MarksSafe(h, marked, cls, rl, pinned, alive) && Fl(fl, c) != []
    requires h2 == h.(mem := h2.mem) && ClearKept(h, h2, cls, {Fl(fl, c)[0]}) && Layout(h, cls)
    ensures var o := Fl(fl, c)[0];
            && FreeObj(h, marked, cls, rl, alive, c, o)
            && ListsOk(h2, marked, cls, fl[c := Fl(fl, c)[1..]], rl, alive + {o})
            && MarksSafe(h2, marked, cls, rl, pinned + (if c.kind.IsUncollectable() then {o} else {}), alive + {o})
  {
    var o, fl2 := Fl(fl, c)[0], fl[c := Fl(fl, c)[1..]];
    var pinned2 := pinned + if c.kind.IsUncollectable() then {o} else {};
    assert FlOk(h, marked, cls, fl, rl, alive, c) && FreeObj(h, marked, cls, rl, alive, c, o) && ClassOk(h, cls, o.blk);
    forall d ensures FlOk(h2, marked, cls, fl2, rl, alive + {o}, d) {
      assert FlOk(h, marked, cls, fl, rl, alive, d);
      forall p | p in Fl(fl2, d) ensures FreeObj(h2, marked, cls, rl, alive + {o}, d, p) {
        assert FreeObj(h, marked, cls, rl, alive, d, p) && ClearKeptAt(h, h2, cls, {o}, p);
      }
    }
    forall d ensures RlOk(h2, cls, rl, d) { assert RlOk(h, cls, rl, d); }
    forall p ensures Survives(marked, cls, rl, alive + {o}, p) { assert Survives(marked, cls, rl, alive, p); }
    forall p ensures PinnedOk(h2, marked, pinned2, p) { assert PinnedOk(h, marked, pinned, p); }
  }

  lemma ListsStored(h: Heap, h2: Heap, marked: set<Obj>, cls: map<nat, Class>, fl: map<Class, seq<Obj>>,
        rl: map<Class, seq<nat>>,
                    pinned: set<Obj>, alive: set<Obj>)
    requires ListsOk(h, marked, cls, fl, rl, alive) && MarksSafe(h, marked, cls, rl, pinned, alive)
    requires h2.blocks == h.blocks && ClearKept(h, h2, cls, alive)
    ensures ListsOk(h2, marked, cls, fl, rl, alive) && MarksSafe(h2, marked, cls, rl, pinned, alive)
  {
    forall c ensures FlOk(h2, marked, cls, fl, rl, alive, c) {
      assert FlOk(h, marked, cls, fl, rl, alive, c);
      forall o | o in Fl(fl, c) ensures FreeObj(h2, marked, cls, rl, alive, c, o) {
        assert FreeObj(h, marked, cls, rl, alive, c, o) && ClearKeptAt(h, h2, cls, alive, o);
      }
    }
    forall c ensures RlOk(h2, cls, rl, c) { assert RlOk(h, cls, rl, c); }
    forall o ensures PinnedOk(h2, marked, pinned, o) { assert PinnedOk(h, marked, pinned, o); }
  }

  lemma ListsGrown(h: Heap, marked: set<Obj>, cls: map<nat, Class>, fl: map<Class, seq<Obj>>, rl: map<Class, seq<nat>>,
                   pinned: set<Obj>, alive: set<Obj>, b: nat, blk: Block, words: map<int, Obj>, c: Class)
    requires ListsOk(h, marked, cls, fl, rl, alive) && MarksSafe(h, marked, cls, rl, pinned, alive)
    requires b !in h.blocks && cls.Keys == h.blocks.Keys && forall o :: o in alive ==> h.IsObj(o)
    ensures ListsOk(Grown(h, b, blk, words), marked, cls[b := c], fl, rl, alive)
    ensures MarksSafe(Grown(h, b, blk, words), marked, cls[b := c], rl, pinned, alive)
    ensures !Queued(cls[b := c], rl, b) && NoneFree(fl, b)
  {
    var h2, cls2 := Grown(h, b, blk, words), cls[b := c];
    assert RlOk(h, cls, rl, c);
    forall d ensures FlOk(h2, marked, cls2, fl, rl, alive, d) {
      assert FlOk(h, marked, cls, fl, rl, alive, d);
      forall o | o in Fl(fl, d) ensures FreeObj(h2, marked, cls2, rl, alive, d, o) {
        assert FreeObj(h, marked, cls, rl, alive, d, o);
        if d.Init() {
          forall a | InExtent(h2, cls2, o, a) && a != h2.blocks[o.blk].bases[o.idx] ensures h2.Read(a) == 0 {
            assert InExtent(h, cls, o, a);
          }
        }
      }
    }
    forall d ensures RlOk(h2, cls2, rl, d) { assert RlOk(h, cls, rl, d); }
    forall o ensures Survives(marked, cls2, rl, alive, o) { assert Survives(marked, cls, rl, alive, o); }
    forall o ensures PinnedOk(h2, marked, pinned, o) { assert PinnedOk(h, marked, pinned, o); }
    forall d, o | o in Fl(fl, d) ensures o.blk != b {
      assert FlOk(h, marked, cls, fl, rl, alive, d) && FreeObj(h, marked, cls, rl, alive, d, o);
    }
  }

  lemma MarksOkGrown(h: Heap, marked: set<Obj>, nMarks: map<nat, nat>, b: nat, blk: Block, words: map<int, Obj>)
    requires MarksOk(h, marked, nMarks) && b !in h.blocks && Grown(h, b, blk, words).Valid()
    ensures MarksOk(Grown(h, b, blk, words), marked, nMarks[b := 0]) && MarkedOf(marked, b) == {}
  {
    assert MarkedOf(marked, b) == {};
    forall c | c in Grown(h, b, blk, words).blocks ensures c in nMarks[b := 0]
        && nMarks[b := 0][c] == |MarkedOf(marked, c)| {
      if c != b { assert nMarks[c] == |MarkedOf(marked, c)|; }
    }
  }

  ghost function LinksOf(dl: seq<seq<Finalize.DLink>>, ll: seq<seq<Finalize.DLink>>): set<int> {
    Finalize.LinkWords(dl) + Finalize.LinkWords(ll)
  }

  // The word at a stays as it is, unless it is a weak link that becomes null.
  ghost predicate NulledIn(h: Heap, h2: Heap, links: set<int>, a: int) {
    h2.Read(a) == h.Read(a) || (h2.Read(a) == 0 && a in links)
  }

  ghost predicate NulledWords(h: Heap, h2: Heap, links: set<int>) {
    forall a {:trigger NulledIn(h, h2, links, a)} :: NulledIn(h, h2, links, a)
  }

  ghost predicate Nulled(h: Heap, h2: Heap, links: set<int>) {
    h2 == h.(mem := h2.mem) && NulledWords(h, h2, links)
  }

  // Of the words the client can see only weak links have changed.
  ghost predicate SameButLink(h: Heap, h2: Heap, cls: map<nat, Class>, alive: set<Obj>, links: set<int>, a: int) {
    Visible(h, cls, alive, a) ==> NulledIn(h, h2, links, a)
  }

  ghost predicate SameButLinks(h: Heap, h2: Heap, cls: map<nat, Class>, alive: set<Obj>, links: set<int>) {
    forall a {:trigger SameButLink(h, h2, cls, alive, links, a)} :: SameButLink(h, h2, cls, alive, links, a)
  }

  lemma SameWordsButLinks(h: Heap, h2: Heap, cls: map<nat, Class>, alive: set<Obj>, links: set<int>)
    requires SameWords(h, h2, cls, alive)
    ensures SameButLinks(h, h2, cls, alive, links)
  {
    forall a ensures SameButLink(h, h2, cls, alive, links, a) { assert SameWord(h, h2, cls, alive, a); }
  }

  lemma SameThenLinks(h: Heap, h1: Heap, h2: Heap, cls: map<nat, Class>, alive: set<Obj>, links: set<int>)
    requires SameWords(h, h1, cls, alive) && NulledWords(h1, h2, links)
    ensures SameButLinks(h, h2, cls, alive, links)
  {
    forall a ensures SameButLink(h, h2, cls, alive, links, a) {
      assert SameWord(h, h1, cls, alive, a) && NulledIn(h1, h2, links, a);
    }
  }

  lemma SameMemory(h0: Heap, h1: Heap, h2: Heap, links: set<int>)
    requires NulledWords(h0, h1, links) && h2.mem == h1.mem
    ensures NulledWords(h0, h2, links)
  {
    forall a ensures NulledIn(h0, h2, links, a) { assert NulledIn(h0, h1, links, a); }
  }

  // The course of a collection: the heap, the marks, the free lists and the queues for
  // sweeping when the marking begins, the size of the mark stack and the marks when it
  // ends, what finalization does, and the marks after it.
  datatype Course = Course(h: Heap, before: set<Obj>, fl: map<Class, seq<Obj>>, rl: map<Class, seq<nat>>, size: nat,
      over: set<Obj>, C: set<Obj>, grown: seq<nat>, marked: set<Obj>) {
    // What the marking marks.
    ghost function Marks(): set<Obj> { h.ReachSet(UncollectableOf(h, before)) }

    ghost function Cleared(dl: seq<seq<Finalize.DLink>>): Heap {
      Finalize.HeapAfter(h, Finalize.Flat(dl), Marks(), false)
    }
  }

  // Nothing has happened before the marking, or, if the collection may be stopped, all
  // blocks that waited for it have been swept.
  ghost predicate Started(k: Course, h0: Heap, marks0: set<Obj>, fl0: map<Class, seq<Obj>>, rl0: map<Class, seq<nat>>,
      cls: map<nat, Class>, alive: set<Obj>, mayStop: bool) {
    if mayStop then
      && SameWords(h0, k.h, cls, alive) && (forall c :: Rl(k.rl, c) == [])
      && AllSwept(h0, marks0, fl0, rl0, k.fl, k.rl) && MarksNow(h0, marks0, rl0, k.before, k.rl, cls, false, {})
    else k.h == h0 && k.before == marks0 && k.fl == fl0 && k.rl == rl0
  }

  ghost predicate AllSwept(h0: Heap, marks0: set<Obj>, fl0: map<Class, seq<Obj>>, rl0: map<Class, seq<nat>>,
      fl: map<Class, seq<Obj>>, rl: map<Class, seq<nat>>) {
    forall c {:trigger SweptTo(h0, marks0, fl0, rl0, fl, rl, false, {}, c)} ::
      SweptTo(h0, marks0, fl0, rl0, fl, rl, false, {}, c)
  }

  // k goes on from k0.
  predicate Marked(k0: Course, k: Course) { k.h == k0.h && k.before == k0.before && k.fl == k0.fl && k.rl == k0.rl }

  // Finalization has done to the queue and the tables what it does after such a marking.
  ghost predicate Finalized(k: Course, fo0: seq<Finalize.FinObj>, dl0: seq<seq<Finalize.DLink>>,
      queue0: seq<Finalize.FinObj>, fo: seq<Finalize.FinObj>, queue: seq<Finalize.FinObj>) {
    && |k.grown| == |fo0| && k.over == Finalize.Visited(k.Cleared(dl0), k.Marks(), k.size, fo0, k.grown).0
    && k.C == Finalize.Closure(k.Cleared(dl0), Finalize.Sources(k.Cleared(dl0), k.Marks(), fo0, k.over))
    && k.marked == k.C + Finalize.Bases(Finalize.Rest(fo0, k.C))
    && queue == Finalize.Reverse(Finalize.Rest(fo0, k.C)) + queue0 && fo == Finalize.Keep(fo0, k.C)
    && (Unmarked(k.h, k.Marks()) < k.size ==>
          k.over == {} && Finalize.QueueExact(k.Cleared(dl0), k.Marks(), fo0, queue0, queue))
  }

  // And so to the weak links.
  ghost predicate Unlinked(k: Course, dl0: seq<seq<Finalize.DLink>>, ll0: seq<seq<Finalize.DLink>>,
      dl: seq<seq<Finalize.DLink>>, ll: seq<seq<Finalize.DLink>>, mem: map<int, int>) {
    && mem == Finalize.HeapAfter(k.Cleared(dl0), Finalize.Flat(ll0), k.marked, false).mem
    && Finalize.TableKeptTwice(dl0, dl, k.h.resolve, k.Marks(), k.marked)
    && Finalize.TableKeptTwice(ll0, ll, k.h.resolve, k.marked, k.marked)
  }

  predicate SameClass(cls0: map<nat, Class>, cls: map<nat, Class>, b: nat) {
    b in cls0 && b in cls && cls[b] == cls0[b]
  }

  // Free objects have lost their marks; blocks without marks have been given back, and of
  // the others exactly those that are worth it wait for a sweep.
  ghost predicate Cleaned(k: Course, marked: set<Obj>, nMarks: map<nat, nat>, h: Heap, cls0: map<nat, Class>,
      cls: map<nat, Class>, rl: map<Class, seq<nat>>) {
    && marked == k.marked - FlSet(k.fl)
    && (forall b :: b in h.blocks <==> b in k.h.blocks && MarkedOf(marked, b) != {})
    && (forall b :: b in h.blocks ==> h.blocks[b] == k.h.blocks[b] && SameClass(cls0, cls, b))
    && (forall b :: b in h.blocks ==> (Queued(cls, rl, b) <==> Worthwhile(h, nMarks, cls, b)))
  }

  // A block that is worth a sweep has something to find.
  lemma WorthwhileFinds(h: Heap, marked: set<Obj>, nMarks: map<nat, nat>, cls: map<nat, Class>, b: nat)
    requires MarksOk(h, marked, nMarks) && Worthwhile(h, nMarks, cls, b)
    ensures HasGarbage(h, marked, b)
  {
    var n := |h.blocks[b].bases|;
    assert nMarks[b] == |MarkedOf(marked, b)|;
    if forall o :: o in BlockObjs(b, n) ==> o in marked {
      BlockObjsSize(b, n);
      SizeWithin(BlockObjs(b, n), MarkedOf(marked, b));
    } else {
      var o :| o in BlockObjs(b, n) && o !in marked;
      assert o.blk == b && h.IsObj(o);
    }
  }

  lemma LessApart<T>(s: set<T>, t: set<T>, u: set<T>)
    requires s !! u
    ensures s * t == s * (t - u) && u !! s * t
  {
  }

  lemma SizeWithin<T>(s: set<T>, t: set<T>)
    requires s <= t
    ensures |s| <= |t|
  {
    assert t == s + (t - s);
  }

  // What is new in the queue is still there for the client.
  ghost predicate NewAlive(queue0: seq<Finalize.FinObj>, queue: seq<Finalize.FinObj>, alive: set<Obj>) {
    forall f :: f in queue ==> f in queue0 || f.base in alive
  }

  lemma LinksNulled(h0: Heap, h2: Heap, marks0: set<Obj>, marks2: set<Obj>, dl: seq<seq<Finalize.DLink>>,
        ll: seq<seq<Finalize.DLink>>)
    requires h2 == Finalize.HeapAfter(Finalize.HeapAfter(h0, Finalize.Flat(dl), marks0, false), Finalize.Flat(ll),
             marks2, false)
    ensures Nulled(h0, h2, LinksOf(dl, ll))
  {
    forall a ensures NulledIn(h0, h2, LinksOf(dl, ll), a) {
      Finalize.HeapAfterReads(h0, dl, marks0, a);
      Finalize.HeapAfterReads(Finalize.HeapAfter(h0, Finalize.Flat(dl), marks0, false), ll, marks2, a);
    }
  }

  // What stays in the table, and what goes from there to the queue, has been marked.
  lemma TablesKept(C: set<Obj>, fo0: seq<Finalize.FinObj>, fo: seq<Finalize.FinObj>, queue0: seq<Finalize.FinObj>,
        queue: seq<Finalize.FinObj>, marked: set<Obj>, alive: set<Obj>)
    requires marked == C + Finalize.Bases(Finalize.Rest(fo0, C)) && fo == Finalize.Keep(fo0, C)
    requires queue == Finalize.Reverse(Finalize.Rest(fo0, C)) + queue0 && forall f :: f in fo0 ==> f.base in alive
    ensures forall f :: f in fo ==> f.base in alive * marked
    ensures NewAlive(queue0, queue, alive * marked)
  {
    Finalize.RestFrom(fo0, C);
    Finalize.ReverseHas(Finalize.Rest(fo0, C));
  }

  // The genuine pointers that are left after a mark phase and a finalization.
  lemma LeftToClient(h0: Heap, h: Heap, cls: map<nat, Class>, ptrs: set<int>, pinned: set<Obj>, alive: set<Obj>,
        marked: set<Obj>, links: set<int>) returns (ptrs2: set<int>)
    requires h.Valid() && Layout(h0, cls) && ClientOk(h0, ptrs, pinned, alive) && Nulled(h0, h, links)
    requires EdgeClosed(h.EdgeRel(), marked) && h.RootObjs() + pinned <= marked
    ensures Layout(h, cls) && ClientOk(h, ptrs2, pinned, alive * marked)
  {
    forall a ensures NulledAt(h0, h, a) { assert NulledIn(h0, h, links, a); }
    NullsKeepClient(h0, h, cls, ptrs, pinned, alive);
    MarkedStayAlive(h, cls, NonNull(h, ptrs), pinned, alive, marked);
    FewerAlive(h, NonNull(h, ptrs), pinned, alive, alive * marked);
    ptrs2 := PtrsOf(h, NonNull(h, ptrs), alive * marked);
  }

  lemma MarksClosed(h: Heap, kept: set<Obj>)
    requires h.Valid() && forall o :: o in kept ==> h.IsObj(o)
    ensures Finalize.ClosedMarks(h, h.ReachSet(kept)) && kept <= h.ReachSet(kept)
  {
    forall o | o in kept ensures o in h.AllObjs() { AllObjsHasObjs(h, o); }
    ReachSetFacts(h, kept);
  }

  class Collector {
    const m: Marker
    var cls: map<nat, Class>
    var fl: map<Class, seq<Obj>>     // ok_freelist
    var rl: map<Class, seq<nat>>     // ok_reclaim_list
    ghost var ptrs: set<int>
    ghost var pinned: set<Obj>
    ghost var alive: set<Obj>

    // GC_init: an empty heap.
    constructor (m: Marker)
      requires m.Valid() && m.h.blocks == map[] && m.h.resolve == map[]
      ensures Safe() && this.m == m && alive == {}
    {
      this.m := m;
      cls, fl, rl := map[], map[], map[];
      ptrs, pinned, alive := {}, {}, {};
      new;
      EmptyClient(m.h);
    }

    // The client's objects and the marker's data are in order.
    ghost predicate Sound()
      reads this, m
    {
      m.Valid() && m.h.Disjoint() && Layout(m.h, cls) && ClientOk(m.h, ptrs, pinned, alive)
    }

    // What the client can get at.
    ghost function Reachable(): set<Obj>
      reads this, m
    {
      Precise(m.h, ptrs).ReachSet(pinned)
    }

    // The meaning of safety: what the client can reach are objects of the heap, they
    // are on no free list, and no sweep still to come will free them.
    lemma ReachableIsSafe()
      requires Safe()
      ensures Reachable() <= alive
      ensures forall o :: o in Reachable() ==> m.h.IsObj(o) && !OnFl(fl, o)
      ensures forall o :: o in Reachable() && Queued(cls, rl, o.blk) ==> o in m.marked
    {
      AliveIsSafe({});
      assert pinned + {} == pinned;
    }

    // The same holds of what the client gets at through any objects it may still have,
    // such as those of the finalization queue.
    lemma AliveIsSafe(objs: set<Obj>)
      requires Safe() && objs <= alive
      ensures Precise(m.h, ptrs).ReachSet(pinned + objs) <= alive
      ensures forall o :: o in alive ==> m.h.IsObj(o) && !OnFl(fl, o) && (Queued(cls, rl, o.blk) ==> o in m.marked)
    {
      ReachInside(m.h, ptrs, pinned + objs, alive);
      forall o | o in alive ensures !OnFl(fl, o) && (Queued(cls, rl, o.blk) ==> o in m.marked) {
        forall c ensures o !in Fl(fl, c) {
          assert FlOk(m.h, m.marked, cls, fl, rl, alive, c);
          assert o in Fl(fl, c) ==> FreeObj(m.h, m.marked, cls, rl, alive, c, o);
        }
        assert Survives(m.marked, cls, rl, alive, o);
      }
    }

    ghost predicate Safe()
      reads this, m
    {
      Sound() && ListsOk(m.h, m.marked, cls, fl, rl, alive) && MarksSafe(m.h, m.marked, cls, rl, pinned, alive)
    }

    // ReclaimObjects has seen the first k objects of b.
    ghost predicate Swept(h0: Heap, b: nat, k: nat, list0: seq<Obj>, list: seq<Obj>)
      reads this, m
    {
      && Sound() && SameWords(h0, m.h, cls, alive) && b in cls
      && list == FreeOf(m.marked, b, k) + list0
      && ClearKept(h0, m.h, cls, Seen(b, k))
      && (cls[b].Init() ==> AllClear(m.h, cls, FreeOf(m.marked, b, k)))
    }

    // GC_reclaim_clear and GC_reclaim_uninit on the small-object block b, list being
    // the free list so far.
    method ReclaimObjects(b: nat, c: Class, list0: seq<Obj>) returns (list: seq<Obj>)
      requires Sound() && b in m.h.blocks && b in cls && cls[b] == c
      requires forall o :: o in alive && o.blk == b ==> o in m.marked
      modifies m`h
      ensures Swept(old(m.h), b, |old(m.h).blocks[b].bases|, list0, list)
    {
      list := list0;
      var k := 0;
      var bases := m.h.blocks[b].bases;
      assert FreeOf(m.marked, b, 0) + list0 == list0;
      SameWordsSelf(m.h, cls, alive);
      while k < |bases|
        invariant 0 <= k <= |bases| && Swept(old(m.h), b, k, list0, list)
      {
        list := ReclaimOne(b, k, old(m.h), list0, list);
        k := k + 1;
      }
    }

    method ReclaimOne(b: nat, k: nat, ghost h0: Heap, ghost list0: seq<Obj>, list: seq<Obj>) returns (list2: seq<Obj>)
      requires Swept(h0, b, k, list0, list) && b in m.h.blocks && k < |m.h.blocks[b].bases|
      requires forall o :: o in alive && o.blk == b ==> o in m.marked
      modifies m`h
      ensures Swept(h0, b, k + 1, list0, list2)
    {
      var o := Obj(b, k);
      FreeOfExact(m.marked, b, k);
      assert o in Seen(b, k + 1) && Seen(b, k) <= Seen(b, k + 1);
      if o in m.marked {
        list2 := list;
        assert FreeOf(m.marked, b, k + 1) == FreeOf(m.marked, b, k);
        ClearKeptMore(h0, m.h, cls, Seen(b, k), Seen(b, k + 1));
      } else {
        ghost var h1 := m.h;
        Empty(o, if list == [] then 0 else Base(list[0]));
        list2 := [o] + list;
        SameWordsTrans(h0, h1, m.h, cls, alive);
        ClearKeptTrans(h0, h1, m.h, cls, Seen(b, k), {o});
        ClearKeptMore(h0, m.h, cls, Seen(b, k) + {o}, Seen(b, k + 1));
        AllClearMore(h1, m.h, cls, FreeOf(m.marked, b, k), o);
        assert FreeOf(m.marked, b, k + 1) == [o] + FreeOf(m.marked, b, k);
      }
    }

    // GC_reclaim_small_nonempty_block: sweep b into the free list of its class.
    method ReclaimSmall(b: nat)
      requires Safe() && b in m.h.blocks && b in cls && !Queued(cls, rl, b) && NoneFree(fl, b)
               && BlockMarked(m.marked, alive, b)
      modifies this`fl, m`h, m`marked, m`nMarks
      ensures Safe() && SameWords(old(m.h), m.h, cls, alive)
      ensures fl == old(fl)[cls[b] := FreeOf(old(m.marked), b, |old(m.h).blocks[b].bases|) + Fl(old(fl), cls[b])]
      ensures m.marked == old(m.marked) + if cls[b].kind.IsUncollectable()
              then BlockObjs(b, |old(m.h).blocks[b].bases|) else {}
    {
      var c := cls[b];
      var list := ReclaimObjects(b, c, Fl(fl, c));
      ghost var marks0 := m.marked;
      if c.kind.IsUncollectable() {
        FreeOfExact(m.marked, b, |m.h.blocks[b].bases|);
        MarksOkAll(m.h, m.marked, m.nMarks, b);
        m.marked := m.marked + BlockObjs(b, |m.h.blocks[b].bases|);
        m.nMarks := m.nMarks[b := |m.h.blocks[b].bases|];
      }
      ListsSwept(old(m.h), marks0, m.h, m.marked, cls, fl, rl, alive, b, list);
      MoreMarksSafe(old(m.h), m.h, marks0, m.marked, cls, rl, pinned, alive);
      fl := fl[c := list];
    }

    method Pop(c: Class) returns (b: nat)
      requires Safe() && Rl(rl, c) != []
      modifies this`rl
      ensures Safe() && rl == old(rl)[c := Rl(old(rl), c)[1..]] && b == Rl(old(rl), c)[0]
      ensures b in m.h.blocks && b in cls && cls[b] == c && !Queued(cls, rl, b) && NoneFree(fl, b)
              && BlockMarked(m.marked, alive, b)
    {
      Popped(m.h, m.marked, cls, fl, rl, pinned, alive, c);
      b := rl[c][0];
      rl := rl[c := rl[c][1..]];
    }

    // GC_continue_reclaim: sweep blocks of class c until there is a free object.
    method ContinueReclaim(c: Class)
      requires Safe()
      modifies this`fl, this`rl, m`h, m`marked, m`nMarks
      ensures Safe() && SameWords(old(m.h), m.h, cls, alive)
      ensures Fl(fl, c) != [] || Rl(rl, c) == []
      ensures forall d :: d != c ==> Fl(fl, d) == Fl(old(fl), d) && Rl(rl, d) == Rl(old(rl), d)
      ensures SweptTo(old(m.h), old(m.marked), old(fl), old(rl), fl, rl, false, {}, c)
      ensures Fl(fl, c) != [] <==> Fl(old(fl), c) != [] || SomeGarbage(old(m.h), old(m.marked), old(rl), c)
      ensures NoMoreThanNeeded(old(m.h), old(m.marked), old(fl), old(rl), rl, c)
    {
      ghost var h0, marks0, fl0, rl0 := m.h, m.marked, fl, rl;
      SweptNone(h0, marks0, fl, rl, cls, false, {});
      SameWordsSelf(m.h, cls, alive);
      SweepQueue(c, h0, marks0, fl0, rl0);
      assert SweptTo(h0, marks0, fl0, rl0, fl, rl, false, {}, c);
      FoundAny(h0, marks0, fl0, rl0, fl, rl, c);
    }

    method SweepQueue(c: Class, ghost h0: Heap, ghost marks0: set<Obj>, ghost fl0: map<Class, seq<Obj>>,
          ghost rl0: map<Class, seq<nat>>)
      requires Sweeping(h0, marks0, fl0, rl0, false, {}) && fl == fl0 && rl == rl0
      modifies this`fl, this`rl, m`h, m`marked, m`nMarks
      ensures Sweeping(h0, marks0, fl0, rl0, false, {}) && (Fl(fl, c) != [] || Rl(rl, c) == [])
      ensures OthersSame(fl0, rl0, c) && NoMoreThanNeeded(h0, marks0, fl0, rl0, rl, c)
    {
      LookFirst(h0, marks0, fl0, rl0, c);
      LookEnds(h0, marks0, fl0, rl0, fl, rl, c);
      while Rl(rl, c) != []
        invariant Sweeping(h0, marks0, fl0, rl0, false, {}) && StillLooking(h0, marks0, fl0, rl0, fl, rl, c)
        invariant OthersSame(fl0, rl0, c) && NoMoreThanNeeded(h0, marks0, fl0, rl0, rl, c)
        decreases |Rl(rl, c)|
      {
        SweepOn(c, h0, marks0, fl0, rl0);
        if Fl(fl, c) != [] { return; }
      }
    }

    ghost predicate OthersSame(fl0: map<Class, seq<Obj>>, rl0: map<Class, seq<nat>>, c: Class)
      reads this
    {
      forall d :: d != c ==> Fl(fl, d) == Fl(fl0, d) && Rl(rl, d) == Rl(rl0, d)
    }

    method SweepOn(c: Class, ghost h0: Heap, ghost marks0: set<Obj>, ghost fl0: map<Class, seq<Obj>>,
          ghost rl0: map<Class, seq<nat>>)
      requires Sweeping(h0, marks0, fl0, rl0, false, {}) && StillLooking(h0, marks0, fl0, rl0, fl, rl, c)
      requires OthersSame(fl0, rl0, c) && Rl(rl, c) != []
      modifies this`fl, this`rl, m`h, m`marked, m`nMarks
      ensures Sweeping(h0, marks0, fl0, rl0, false, {}) && |Rl(rl, c)| < |Rl(old(rl), c)|
      ensures OthersSame(fl0, rl0, c) && NoMoreThanNeeded(h0, marks0, fl0, rl0, rl, c)
      ensures Fl(fl, c) == [] ==> StillLooking(h0, marks0, fl0, rl0, fl, rl, c)
    {
      ghost var fl1, rl1 := fl, rl;
      DisposeNext(c, false, {}, h0, marks0, fl0, rl0);
      LookOn(h0, marks0, fl0, rl0, fl1, rl1, fl, rl, c);
    }

    // Sweeping has got somewhere since h0.
    ghost predicate Sweeping(h0: Heap, marks0: set<Obj>, fl0: map<Class, seq<Obj>>, rl0: map<Class, seq<nat>>,
        ignoreOld: bool, recent: set<nat>)
      reads this, m
    {
      && Safe() && SameWords(h0, m.h, cls, alive)
      && MarksNow(h0, marks0, rl0, m.marked, rl, cls, ignoreOld, recent)
      && forall c {:trigger SweptTo(h0, marks0, fl0, rl0, fl, rl, ignoreOld, recent, c)} ::
           SweptTo(h0, marks0, fl0, rl0, fl, rl, ignoreOld, recent, c)
    }

    // The first block queued for class c is swept, unless it is passed over; then its
    // garbage stays where it is until the next collection.
    method DisposeNext(c: Class, ignoreOld: bool, recent: set<nat>, ghost h0: Heap, ghost marks0: set<Obj>,
          ghost fl0: map<Class, seq<Obj>>, ghost rl0: map<Class, seq<nat>>)
      requires Sweeping(h0, marks0, fl0, rl0, ignoreOld, recent) && Rl(rl, c) != []
      modifies this`fl, this`rl, m`h, m`marked, m`nMarks
      ensures Sweeping(h0, marks0, fl0, rl0, ignoreOld, recent)
      ensures rl == old(rl)[c := Rl(old(rl), c)[1..]]
      ensures var b := Rl(old(rl), c)[0];
              && b in old(m.h.blocks) && b in cls && cls[b] == c
              && (if ignoreOld && b !in recent then fl == old(fl) && m.h == old(m.h) && m.marked == old(m.marked)
                  else fl == old(fl)[c := FreeOf(old(m.marked), b, |old(m.h).blocks[b].bases|) + Fl(old(fl), c)])
    {
      ghost var h1, marks1, fl1, rl1 := m.h, m.marked, fl, rl;
      var b := Pop(c);
      if !ignoreOld || b in recent {
        ReclaimSmall(b);
        SameWordsTrans(h0, h1, m.h, cls, alive);
      }
      SweptOn(h0, marks0, fl0, rl0, fl1, rl1, ignoreOld, recent, c, cls, marks1, m.marked, fl);
    }

    // GC_reclaim_all; recent holds the blocks that were swept in the last collection.
    // Each call of the stop function may say stop.
    method ReclaimAll(mayStop: bool, ignoreOld: bool, recent: set<nat>) returns (ok: bool)
      requires Safe()
      modifies this`fl, this`rl, m`h, m`marked, m`nMarks
      ensures Safe() && SameWords(old(m.h), m.h, cls, alive)
      ensures !mayStop ==> ok
      ensures ok ==> forall c :: Rl(rl, c) == []
      ensures Sweeping(old(m.h), old(m.marked), old(fl), old(rl), ignoreOld, recent)
    {
      ghost var h0, marks0, fl0, rl0 := m.h, m.marked, fl, rl;
      SweptNone(h0, marks0, fl, rl, cls, ignoreOld, recent);
      SameWordsSelf(m.h, cls, alive);
      var todo := rl.Keys;
      while todo != {}
        invariant Sweeping(h0, marks0, fl0, rl0, ignoreOld, recent)
        invariant forall c :: c !in todo ==> Rl(rl, c) == []
        decreases todo
      {
        var c :| c in todo;
        while Rl(rl, c) != []
          invariant Sweeping(h0, marks0, fl0, rl0, ignoreOld, recent)
          invariant forall d :: d !in todo ==> Rl(rl, d) == []
          decreases |Rl(rl, c)|
        {
          var stop: bool := *;
          if mayStop && stop { return false; }
          DisposeNext(c, ignoreOld, recent, h0, marks0, fl0, rl0);
        }
        todo := todo - {c};
      }
      return true;
    }

    // GC_freehblk, for a block without marks.
    method FreeBlock(b: nat)
      requires Safe() && alive <= m.marked && b in m.h.blocks && b in cls && !Queued(cls, rl, b) && NoneFree(fl, b)
      requires MarkedOf(m.marked, b) == {}
      modifies this`cls, m`h
      ensures Safe() && m.h == Freed(old(m.h), b) && cls == old(cls) - {b}
    {
      NoneAlive(m.marked, alive, b);
      FreeKeepsClient(m.h, cls, ptrs, pinned, alive, b);
      MarksOkFreed(m.h, m.marked, m.nMarks, b);
      ListsFreed(m.h, m.marked, cls, fl, rl, pinned, alive, b);
      m.h := m.h.(blocks := m.h.blocks - {b},
                  resolve := map w | w in m.h.resolve && m.h.resolve[w].blk != b :: m.h.resolve[w]);
      cls := cls - {b};
    }

    // GC_reclaim_block: free an unmarked block, queue a partly marked one for sweeping.
    method ReclaimBlock(b: nat)
      requires Safe() && alive <= m.marked && b in m.h.blocks && b in cls && !Queued(cls, rl, b) && NoneFree(fl, b)
      modifies this`cls, this`rl, m`h
      ensures Safe()
      ensures MarkedOf(m.marked, b) == {} ==> m.h == Freed(old(m.h), b) && cls == old(cls) - {b} && rl == old(rl)
      ensures MarkedOf(m.marked, b) != {} ==> m.h == old(m.h) && cls == old(cls)
      ensures MarkedOf(m.marked, b) != {} ==>
        rl == if Worthwhile(m.h, m.nMarks, cls, b) then old(rl)[cls[b] := [b] + Rl(old(rl), cls[b])] else old(rl)
    {
      assert ClassOk(m.h, cls, b) && m.nMarks[b] == |MarkedOf(m.marked, b)|;
      var c := cls[b];
      if !c.Small() {
        LargeMark(m.h, m.marked, b);
        if Obj(b, 0) !in m.marked { FreeBlock(b); }
      } else if m.nMarks[b] == 0 {
        FreeBlock(b);
      } else if !NearlyFull(m.nMarks[b], |m.h.blocks[b].bases|) {
        ListsQueued(m.h, m.marked, cls, fl, rl, pinned, alive, b);
        rl := rl[c := [b] + Rl(rl, c)];
      }
    }

    // The start of GC_start_reclaim: free lists and reclaim lists are dropped.
    method DropLists()
      requires Sound() && alive <= m.marked && pinned <= m.marked
      requires forall o :: o in pinned ==> m.h.blocks[o.blk].kind.IsUncollectable()
      modifies this`fl, this`rl
      ensures Safe() && fl == map[] && rl == map[]
    {
      fl, rl := map[], map[];
      ListsEmpty(m.h, m.marked, cls, alive);
      forall o ensures Survives(m.marked, cls, rl, alive, o) { }
      forall o ensures PinnedOk(m.h, m.marked, pinned, o) { }
    }

    // GC_start_reclaim has dealt with the blocks of h0 that are not in todo.
    ghost predicate Reclaiming(h0: Heap, cls0: map<nat, Class>, todo: set<nat>)
      reads this, m
    {
      && (forall b :: b in m.h.blocks <==> b in h0.blocks && (b in todo || MarkedOf(m.marked, b) != {}))
      && (forall b :: b in m.h.blocks ==> m.h.blocks[b] == h0.blocks[b] && SameClass(cls0, cls, b))
      && (forall b :: b in m.h.blocks ==> (Queued(cls, rl, b) <==> b !in todo && Worthwhile(m.h, m.nMarks, cls, b)))
    }

    // GC_start_reclaim: the free lists and reclaim lists are dropped, every block in
    // use is either given back, queued, or left as it is.
    method StartReclaim()
      requires Sound() && alive <= m.marked && pinned <= m.marked
      requires forall o :: o in pinned ==> m.h.blocks[o.blk].kind.IsUncollectable()
      modifies this`cls, this`fl, this`rl, m`h
      ensures Safe() && alive <= m.marked && fl == map[] && m.h.mem == old(m.h.mem)
      ensures Reclaiming(old(m.h), old(cls), {})
    {
      ghost var h0, cls0 := m.h, cls;
      DropLists();
      assert forall b :: b in m.h.blocks ==> ClassOk(m.h, cls, b);
      var todo := m.h.blocks.Keys;
      while todo != {}
        invariant Safe() && alive <= m.marked && fl == map[] && todo <= m.h.blocks.Keys && m.h.mem == h0.mem
        invariant Reclaiming(h0, cls0, todo)
        decreases todo
      {
        var b :| b in todo;
        ReclaimNext(b, h0, cls0, todo);
        todo := todo - {b};
      }
    }

    method ReclaimNext(b: nat, ghost h0: Heap, ghost cls0: map<nat, Class>, ghost todo: set<nat>)
      requires Safe() && alive <= m.marked && fl == map[] && todo <= m.h.blocks.Keys && b in todo
      requires Reclaiming(h0, cls0, todo)
      modifies this`cls, this`rl, m`h
      ensures Safe() && m.h.mem == old(m.h.mem) && todo - {b} <= m.h.blocks.Keys
      ensures Reclaiming(h0, cls0, todo - {b})
    {
      ReclaimBlock(b);
    }

    // GC_clear_fl_marks, for every free list: free objects that something happened to
    // mark are unmarked again.
    method ClearFlMarks()
      requires m.Valid()
      modifies m`marked, m`nMarks
      ensures m.Valid() && m.marked == old(m.marked) - FlSet(fl)
    {
      var todo := fl.Keys;
      while todo != {}
        invariant m.Valid() && todo <= fl.Keys
        invariant forall o :: o in m.marked ==> o in old(m.marked)
        invariant forall c, o :: c in fl && c !in todo && o in fl[c] ==> o !in m.marked
        invariant forall o :: o in old(m.marked) && o !in FlSet(fl) ==> o in m.marked
        decreases todo
      {
        var c :| c in todo;
        ClearListMarks(c);
        todo := todo - {c};
      }
    }

    method ClearListMarks(c: Class)
      requires m.Valid() && c in fl
      modifies m`marked, m`nMarks
      ensures m.Valid() && m.marked == old(m.marked) - (set o | o in fl[c])
    {
      var i := 0;
      while i < |fl[c]|
        invariant 0 <= i <= |fl[c]| && m.Valid() && m.marked == old(m.marked) - (set o | o in fl[c][..i])
      {
        var o := fl[c][i];
        if o in m.marked {
          CountsUnmark(m.h, m.marked, m.nMarks, o);
          m.nMarks := m.nMarks[o.blk := m.nMarks[o.blk] - 1];
          m.marked := m.marked - {o};
        }
        assert fl[c][..i + 1] == fl[c][..i] + [o];
        i := i + 1;
      }
      assert fl[c][..i] == fl[c];
    }

    // The tables of the finalizer hold objects that the client may still have.
    ghost predicate Registered(fin: Finalize.Finalizer)
      reads this, fin
    {
      RegisteredAmong(fin, alive)
    }

    ghost predicate RegisteredAmong(fin: Finalize.Finalizer, objs: set<Obj>)
      reads this, fin
    {
      && fin.m == m
      && Finalize.DistinctBases(Finalize.Flat(fin.foHead)) && fin.foEntries == |Finalize.Flat(fin.foHead)|
      && (forall f :: f in Finalize.Flat(fin.foHead) ==> f.base in objs)
      && (forall d :: d in Finalize.Flat(fin.dlHead) || d in Finalize.Flat(fin.llHead) ==> d.obj in objs)
    }

    // A mark phase has ended.
    ghost predicate AllMarked()
      reads this, m
    {
      Sound() && Finalize.Quiet(m) && pinned <= m.marked
    }

    // GC_finalize on the tables, the words and the marks.
    method Finalization(fin: Finalize.Finalizer, ghost k0: Course) returns (ghost k: Course)
      requires AllMarked() && Registered(fin) && m.h == k0.h && m.marked == k0.Marks()
      modifies m, fin
      ensures m.Valid() && m.h.Disjoint() && Finalize.Quiet(m) && RegisteredAmong(fin, alive * m.marked)
      ensures old(m.marked) <= m.marked && NewAlive(old(fin.finalizeNow), fin.finalizeNow, alive * m.marked)
      ensures Nulled(old(m.h), m.h, LinksOf(old(fin.dlHead), old(fin.llHead)))
      ensures k == k0.(size := old(m.stackSize), over := k.over, C := k.C, grown := k.grown, marked := m.marked)
      ensures Finalized(k, Finalize.Flat(old(fin.foHead)), old(fin.dlHead), old(fin.finalizeNow),
              Finalize.Flat(fin.foHead), fin.finalizeNow)
      ensures Unlinked(k, old(fin.dlHead), old(fin.llHead), fin.dlHead, fin.llHead, m.h.mem)
    {
      ghost var h0, marks0, fo0, dl0, ll0, queue0 := m.h, m.marked, fin.foHead, fin.dlHead, fin.llHead, fin.finalizeNow;
      ghost var size := m.stackSize;
      ghost var over, C, grown := fin.Finalize();
      k := k0.(size := size, over := over, C := C, grown := grown, marked := m.marked);
      LinksNulled(h0, m.h, marks0, m.marked, dl0, ll0);
      TablesKept(C, Finalize.Flat(fo0), Finalize.Flat(fin.foHead), queue0, fin.finalizeNow, m.marked, alive);
      Finalize.KeptTwice(dl0, fin.dlHead, m.h.resolve, marks0, m.marked);
      Finalize.KeptTwice(ll0, fin.llHead, m.h.resolve, m.marked, m.marked);
    }

    // And what that means for the client: what it marks for the queue is not lost.
    method RunFinalizers(fin: Finalize.Finalizer, ghost k0: Course) returns (ghost k: Course)
      requires AllMarked() && Registered(fin) && m.h == k0.h && m.marked == k0.Marks()
      modifies this`ptrs, this`alive, m, fin
      ensures AllMarked() && Registered(fin) && old(m.marked) <= m.marked
      ensures alive == old(alive) * m.marked && old(Reachable()) <= alive
      ensures NewAlive(old(fin.finalizeNow), fin.finalizeNow, alive)
      ensures Nulled(old(m.h), m.h, LinksOf(old(fin.dlHead), old(fin.llHead)))
      ensures k == k0.(size := old(m.stackSize), over := k.over, C := k.C, grown := k.grown, marked := m.marked)
      ensures Finalized(k, Finalize.Flat(old(fin.foHead)), old(fin.dlHead), old(fin.finalizeNow),
              Finalize.Flat(fin.foHead), fin.finalizeNow)
      ensures Unlinked(k, old(fin.dlHead), old(fin.llHead), fin.dlHead, fin.llHead, m.h.mem)
    {
      ghost var h0, links := m.h, LinksOf(fin.dlHead, fin.llHead);
      MarkedStayAlive(m.h, cls, ptrs, pinned, alive, m.marked);
      ReachInside(m.h, ptrs, pinned, alive * m.marked);
      k := Finalization(fin, k0);
      ptrs := LeftToClient(h0, m.h, cls, ptrs, pinned, alive, m.marked, links);
      alive := alive * m.marked;
    }

    // The rest of GC_finish_collection: free objects lose their marks, and sweeping begins.
    method BeginSweep()
      requires AllMarked() && alive <= m.marked && FlSet(fl) !! alive
      requires forall o :: o in pinned ==> m.h.blocks[o.blk].kind.IsUncollectable()
      modifies this`cls, this`fl, this`rl, m`h, m`marked, m`nMarks
      ensures Safe() && alive <= m.marked && fl == map[] && m.marked == old(m.marked) - FlSet(old(fl))
      ensures m.h.mem == old(m.h.mem) && Reclaiming(old(m.h), old(cls), {})
    {
      ClearFlMarks();
      StartReclaim();
    }

    // GC_finish_collection, find_leak off.
    method FinishCollection(fin: Finalize.Finalizer, ghost k0: Course) returns (ghost k: Course)
      requires AllMarked() && Registered(fin) && FlSet(fl) !! alive
      requires forall o :: o in pinned ==> m.h.blocks[o.blk].kind.IsUncollectable()
      requires m.h == k0.h && m.marked == k0.Marks() && fl == k0.fl
      modifies this`cls, this`fl, this`rl, this`ptrs, this`alive, m, fin
      ensures Safe() && Registered(fin) && alive == old(alive) * m.marked && fl == map[]
      ensures old(Reachable()) <= alive
      ensures NewAlive(old(fin.finalizeNow), fin.finalizeNow, alive)
      ensures NulledWords(old(m.h), m.h, LinksOf(old(fin.dlHead), old(fin.llHead)))
      ensures k == k0.(size := old(m.stackSize), over := k.over, C := k.C, grown := k.grown, marked := k.marked)
      ensures Finalized(k, Finalize.Flat(old(fin.foHead)), old(fin.dlHead), old(fin.finalizeNow),
              Finalize.Flat(fin.foHead), fin.finalizeNow)
      ensures Unlinked(k, old(fin.dlHead), old(fin.llHead), fin.dlHead, fin.llHead, m.h.mem)
      ensures Cleaned(k, m.marked, m.nMarks, m.h, old(cls), cls, rl)
    {
      ghost var h0, links := m.h, LinksOf(fin.dlHead, fin.llHead);
      k := RunFinalizers(fin, k0);
      ghost var h1, cls0, alive1 := m.h, cls, alive;
      LessApart(old(alive), m.marked, FlSet(fl));
      BeginSweep();
      assert alive == alive1;
      SameMemory(h0, h1, m.h, links);
      NowCleaned(k, h1, cls0);
    }

    lemma NowCleaned(k: Course, h1: Heap, cls0: map<nat, Class>)
      requires Reclaiming(h1, cls0, {}) && h1.blocks == k.h.blocks && m.marked == k.marked - FlSet(k.fl)
      ensures Cleaned(k, m.marked, m.nMarks, m.h, cls0, cls, rl)
    {
    }

    // GC_stopped_mark: false if the stop function said to give up.
    method StoppedMark(mayStop: bool) returns (ok: bool)
      requires m.Valid() && m.MarkInv(m.marked) && m.state == MsInvalid && !m.objectsAreMarked
      modifies m`marked, m`nMarks, m`stack, m`stackSize, m`state, m`tooSmall, m`scanPtr, m`objectsAreMarked
      ensures m.Valid() && old(m.marked) <= m.marked && (!mayStop ==> ok) && m.stackSize >= old(m.stackSize)
      ensures ok ==> m.state == MsNone && m.stack == [] && m.marked == m.h.ReachSet(old(m.marked))
    {
      ghost var kept := m.marked;
      m.InitiateGc(kept);
      while true
        invariant m.Valid() && m.MarkInv(kept) && m.stackSize >= old(m.stackSize)
        decreases Unmarked(m.h, m.marked), m.Rank(), ScanLeft(m.h, m.scanPtr), Work(m.stack)
      {
        var stop: bool := *;
        if mayStop && stop { return false; }
        var grow: bool := *;
        var done := m.MarkSome(kept, grow);
        if done {
          PinnedReached(m.h, kept);
          return true;
        }
      }
    }

    // The marking of a collection: all mark bits but those of uncollectable objects are
    // cleared first. If it is given up, those are the ones that count.
    method MarkStopped(mayStop: bool) returns (ok: bool)
      requires Safe() && (mayStop ==> forall c :: Rl(rl, c) == [])
      modifies m`marked, m`nMarks, m`stack, m`stackSize, m`state, m`tooSmall, m`scanPtr, m`objectsAreMarked
      ensures (!mayStop ==> ok) && m.stackSize >= old(m.stackSize)
      ensures if ok then AllMarked() else Safe()
      ensures ok ==> m.marked == m.h.ReachSet(UncollectableOf(m.h, old(m.marked)))
      ensures FlSet(fl) !! alive && forall o :: o in pinned ==>
              o.blk in m.h.blocks
              && m.h.blocks[o.blk].kind.IsUncollectable()
    {
      ghost var marks := m.marked;
      PinnedKept(m.h, m.marked, cls, rl, pinned, alive);
      FlDead(m.h, m.marked, cls, fl, rl, alive);
      m.InvalidateMarkState();
      m.ClearMarks();
      ghost var kept := m.marked;
      ok := StoppedMark(mayStop);
      if ok {
        MarksClosed(m.h, kept);
      } else {
        m.InvalidateMarkState();
        MarksGone(m.h, marks, cls, fl, rl, pinned, alive, m.marked);
      }
    }

    // What comes before the marking: the stop function is asked, and if there is one
    // that may fire all blocks that wait for it are swept.
    method SweepFirst(mayStop: bool) returns (go: bool)
      requires Safe()
      modifies this`fl, this`rl, m`h, m`marked, m`nMarks
      ensures Safe() && SameWords(old(m.h), m.h, cls, alive) && old(Reachable()) <= Reachable() <= alive
      ensures (!mayStop ==> go) && (go && mayStop ==> forall c :: Rl(rl, c) == [])
      ensures Sweeping(old(m.h), old(m.marked), old(fl), old(rl), false, {})
      ensures go && !mayStop ==> m.h == old(m.h) && m.marked == old(m.marked) && fl == old(fl) && rl == old(rl)
    {
      var stop: bool := *;
      go := true;
      SameWordsSelf(m.h, cls, alive);
      SweptNone(m.h, m.marked, fl, rl, cls, false, {});
      if mayStop {
        if stop {
          go := false;
        } else {
          go := ReclaimAll(mayStop, false, {});
        }
      }
      SameWordsReach(old(m.h), m.h, cls, ptrs, pinned, alive);
      ReachInside(m.h, ptrs, pinned, alive);
    }

    // The marking and, if it is not given up, the rest.
    method MarkAndFinish(mayStop: bool, fin: Finalize.Finalizer, ghost k0: Course) returns (ok: bool, ghost k: Course)
      requires Safe() && Registered(fin) && (mayStop ==> forall c :: Rl(rl, c) == [])
      requires k0.h == m.h && k0.before == m.marked && k0.fl == fl
      modifies this`cls, this`fl, this`rl, this`ptrs, this`alive, m, fin
      ensures Safe() && Registered(fin) && (!mayStop ==> ok)
      ensures !ok ==> alive == old(alive) && cls == old(cls) && fl == old(fl) && rl == old(rl) && m.h == old(m.h)
      ensures !ok ==> unchanged(fin) && ptrs == old(ptrs)
      ensures ok ==> alive == old(alive) * m.marked && fl == map[] && old(Reachable()) <= alive
      ensures ok ==> NewAlive(old(fin.finalizeNow), fin.finalizeNow, alive)
      ensures ok ==> NulledWords(old(m.h), m.h, LinksOf(old(fin.dlHead), old(fin.llHead)))
      ensures ok ==> Marked(k0, k) && k.size >= old(m.stackSize)
      ensures ok ==> Finalized(k, Finalize.Flat(old(fin.foHead)), old(fin.dlHead), old(fin.finalizeNow),
                     Finalize.Flat(fin.foHead), fin.finalizeNow)
      ensures ok ==> Unlinked(k, old(fin.dlHead), old(fin.llHead), fin.dlHead, fin.llHead, m.h.mem)
      ensures ok ==> Cleaned(k, m.marked, m.nMarks, m.h, old(cls), cls, rl)
    {
      k := k0;
      ok := MarkStopped(mayStop);
      if ok { k := FinishCollection(fin, k0); }
    }

    // GC_try_to_collect_inner, not incremental. mayStop says that the stop function
    // is not GC_never_stop_func; it may then fire at any of its calls. A collection that
    // is not given up follows its whole course k.
    method TryToCollect(mayStop: bool, fin: Finalize.Finalizer) returns (ok: bool, ghost k: Course)
      requires Safe() && Registered(fin)
      modifies this`cls, this`fl, this`rl, this`ptrs, this`alive, m, fin
      ensures Safe() && Registered(fin) && alive <= old(alive) && old(Reachable()) <= alive && (!mayStop ==> ok)
      ensures SameButLinks(old(m.h), m.h, old(cls), old(alive), LinksOf(old(fin.dlHead), old(fin.llHead)))
      ensures !ok ==> alive == old(alive) && cls == old(cls) && SameWords(old(m.h), m.h, cls, alive) && unchanged(fin)
      ensures !ok ==> AllSwept(old(m.h), old(m.marked), old(fl), old(rl), fl, rl)
      ensures ok ==> alive == old(alive) * m.marked && fl == map[]
      ensures ok ==> NewAlive(old(fin.finalizeNow), fin.finalizeNow, alive)
      ensures ok ==> Started(k, old(m.h), old(m.marked), old(fl), old(rl), old(cls), old(alive), mayStop)
      ensures ok ==> k.size >= old(m.stackSize)
      ensures ok ==> Finalized(k, Finalize.Flat(old(fin.foHead)), old(fin.dlHead), old(fin.finalizeNow),
                     Finalize.Flat(fin.foHead), fin.finalizeNow)
      ensures ok ==> Unlinked(k, old(fin.dlHead), old(fin.llHead), fin.dlHead, fin.llHead, m.h.mem)
      ensures ok ==> Cleaned(k, m.marked, m.nMarks, m.h, old(cls), cls, rl)
    {
      ghost var h0, cls0, alive0, links := m.h, cls, alive, LinksOf(fin.dlHead, fin.llHead);
      ok := SweepFirst(mayStop);
      SameWordsButLinks(h0, m.h, cls, alive, links);
      k := Course(m.h, m.marked, fl, rl, 0, {}, {}, [], {});
      if ok {
        ghost var h1 := m.h;
        ok, k := MarkAndFinish(mayStop, fin, k);
        if ok { SameThenLinks(h0, h1, m.h, cls0, alive0, links); }
      }
    }

    // The end of an allocation: the first object of free list c goes to the client.
    method TakeFree(c: Class) returns (o: Obj)
      requires Safe() && Fl(fl, c) != []
      modifies this`fl, this`alive, this`pinned, m`h
      ensures Safe() && o == Fl(old(fl), c)[0] && fl == old(fl)[c := Fl(old(fl), c)[1..]]
      ensures o !in old(alive) && alive == old(alive) + {o} && m.h.IsObj(o)
      ensures SameWords(old(m.h), m.h, cls, old(alive))
      ensures c.Init() ==> forall a :: InExtent(m.h, cls, o, a) ==> m.h.Read(a) == 0
    {
      assert FlOk(m.h, m.marked, cls, fl, rl, alive, c);
      o := fl[c][0];
      assert FreeObj(m.h, m.marked, cls, rl, alive, c, o);
      ghost var h0 := m.h;
      if c.kind == PtrFree {
        SameWordsSelf(m.h, cls, alive);
        forall p ensures ClearKeptAt(m.h, m.h, cls, {o}, p) { }
      } else {
        m.h := m.h.(mem := m.h.mem[m.h.blocks[o.blk].bases[o.idx] := 0]);
        assert m.h.mem == Emptied(h0.mem, h0.blocks[o.blk].bases[o.idx], cls[o.blk].Words(), 0, false);
        EmptyStep(h0, cls, alive, o, 0, false, m.h);
        SameWordsKeep(h0, m.h, cls, ptrs, pinned, alive);
        MemMarksOk(h0, m.h, m.marked, m.nMarks);
        assert c.Init() ==> ClearAt(h0, cls, o) && forall a :: InExtent(m.h, cls, o, a) <==> InExtent(h0, cls, o, a);
      }
      ListsTaken(h0, m.h, m.marked, cls, fl, rl, pinned, alive, c);
      AllocKeepsClient(m.h, cls, ptrs, pinned, alive, o, if c.kind.IsUncollectable() then {o} else {});
      fl := fl[c := fl[c][1..]];
      pinned := pinned + if c.kind.IsUncollectable() then {o} else {};
      alive := alive + {o};
    }

    // Sweep for class c if its free list is empty.
    method Refill(c: Class)
      requires Safe()
      modifies this`fl, this`rl, m`h, m`marked, m`nMarks
      ensures Safe() && SameWords(old(m.h), m.h, cls, alive)
      ensures Fl(fl, c) == [] ==> Rl(rl, c) == []
      ensures Fl(fl, c) != [] <==> Fl(old(fl), c) != [] || SomeGarbage(old(m.h), old(m.marked), old(rl), c)
      ensures SweptTo(old(m.h), old(m.marked), old(fl), old(rl), fl, rl, false, {}, c)
      ensures if Fl(old(fl), c) != [] then rl == old(rl)
              else NoMoreThanNeeded(old(m.h), old(m.marked), old(fl), old(rl), rl, c)
      ensures forall d :: d != c ==> Fl(fl, d) == Fl(old(fl), d) && Rl(rl, d) == Rl(old(rl), d)
    {
      if Fl(fl, c) == [] {
        ContinueReclaim(c);
      } else {
        SameWordsSelf(m.h, cls, alive);
        SweptNone(m.h, m.marked, fl, rl, cls, false, {});
        assert SweptTo(m.h, m.marked, fl, rl, fl, rl, false, {}, c);
      }
    }

    // GC_allocobj as far as sweeping gets it: None exactly if the free list is empty and
    // every block of class c that waits for a sweep is full.
    method AllocObj(c: Class) returns (r: Option<Obj>)
      requires Safe()
      modifies this`fl, this`rl, this`alive, this`pinned, m`h, m`marked, m`nMarks
      ensures Safe() && SameWords(old(m.h), m.h, cls, old(alive))
      ensures r.None? ==> alive == old(alive) && Fl(fl, c) == [] && Rl(rl, c) == []
      ensures r.Some? <==> Fl(old(fl), c) != [] || SomeGarbage(old(m.h), old(m.marked), old(rl), c)
      ensures SweptTo(old(m.h), old(m.marked), old(fl), old(rl), PutBackOn(fl, c, r), rl, false, {}, c)
      ensures if Fl(old(fl), c) != [] then rl == old(rl)
              else NoMoreThanNeeded(old(m.h), old(m.marked), old(fl), old(rl), rl, c)
      ensures forall d :: d != c ==> Fl(fl, d) == Fl(old(fl), d) && Rl(rl, d) == Rl(old(rl), d)
      ensures r.Some? ==> r.value !in old(alive) && alive == old(alive) + {r.value} && m.h.IsObj(r.value)
      ensures r.Some? && c.Init() ==> forall a :: InExtent(m.h, cls, r.value, a) ==> m.h.Read(a) == 0
    {
      ghost var h0, marks0, fl0, rl0 := m.h, m.marked, fl, rl;
      Refill(c);
      if Fl(fl, c) == [] {
        StillSwept(h0, marks0, fl0, rl0, fl, rl, c, fl, None);
        return None;
      }
      ghost var h1, fl1, rl1 := m.h, fl, rl;
      var o := TakeFree(c);
      r := Some(o);
      assert rl == rl1;
      StillSwept(h0, marks0, fl0, rl0, fl1, rl1, c, fl, r);
      SameWordsTrans(h0, h1, m.h, cls, old(alive));
    }

    // A block that the block manager can hand out.
    ghost predicate Fits(b: nat, blk: Block, words: map<int, Obj>, c: Class)
      reads this, m
    {
      var h2 := Grown(m.h, b, blk, words);
      && b !in m.h.blocks && blk.kind == c.kind && h2.Valid() && h2.Disjoint() && Layout(h2, cls[b := c])
      && words.Keys !! m.h.resolve.Keys && forall w :: w in words ==> m.least <= w < m.greatest
    }

    method AddBlock(b: nat, blk: Block, words: map<int, Obj>, c: Class)
      requires Safe() && Fits(b, blk, words, c)
      modifies this`cls, m`h, m`nMarks
      ensures Safe() && m.h == Grown(old(m.h), b, blk, words) && cls == old(cls)[b := c]
      ensures !Queued(cls, rl, b) && NoneFree(fl, b) && BlockMarked(m.marked, alive, b) && MarkedOf(m.marked, b) == {}
      ensures forall o :: o in alive ==> o.blk != b
    {
      GrowKeepsClient(m.h, cls, ptrs, pinned, alive, b, blk, words);
      ListsGrown(m.h, m.marked, cls, fl, rl, pinned, alive, b, blk, words, c);
      MarksOkGrown(m.h, m.marked, m.nMarks, b, blk, words);
      m.h := Grown(m.h, b, blk, words);
      m.nMarks := m.nMarks[b := 0];
      cls := cls[b := c];
    }

    // GC_new_hblk: a new block of small objects, all of which go on the free list.
    // Building that list is like sweeping a block without marks.
    method NewHblk(b: nat, blk: Block, words: map<int, Obj>, c: Class)
      requires Safe() && Fits(b, blk, words, c) && c.Small()
      modifies this`cls, this`fl, m`h, m`marked, m`nMarks
      ensures Safe() && cls == old(cls)[b := c]
      ensures fl == old(fl)[c := FreeOf({}, b, |blk.bases|) + Fl(old(fl), c)]
    {
      AddBlock(b, blk, words, c);
      NoMarksFreeAll(m.marked, b, |blk.bases|);
      ReclaimSmall(b);
    }

    // GC_alloc_large: a block with one object, which goes to the client at once.
    method AllocLarge(b: nat, blk: Block, words: map<int, Obj>, c: Class) returns (o: Obj)
      requires Safe() && Fits(b, blk, words, c) && !c.Small()
      modifies this`cls, this`alive, this`pinned, m`h, m`marked, m`nMarks
      ensures Safe() && cls == old(cls)[b := c] && o == Obj(b, 0)
      ensures o !in old(alive) && alive == old(alive) + {o} && m.h.IsObj(o)
      ensures c.kind.IsUncollectable() ==> o in m.marked
    {
      AddBlock(b, blk, words, c);
      o := Obj(b, 0);
      assert ClassOk(m.h, cls, b);
      GiveLarge(o, c);
    }

    // The one object of a block that is on no list goes to the client.
    method GiveLarge(o: Obj, c: Class)
      requires Safe() && m.h.IsObj(o) && o !in alive && o.blk in cls && cls[o.blk] == c
               && m.h.blocks[o.blk].kind == c.kind
      requires NoneFree(fl, o.blk) && !Queued(cls, rl, o.blk)
      modifies this`alive, this`pinned, m`h, m`marked, m`nMarks
      ensures Safe() && alive == old(alive) + {o} && m.h.blocks == old(m.h.blocks)
      ensures c.kind.IsUncollectable() ==> o in m.marked
    {
      ghost var h0, marks0 := m.h, m.marked;
      Empty(o, 0);
      if c.kind.IsUncollectable() { m.SetMarkBit(o); }
      ListsLarge(h0, m.h, marks0, m.marked, cls, fl, rl, pinned, alive, c, o);
      AllocKeepsClient(m.h, cls, ptrs, pinned, alive, o, if c.kind.IsUncollectable() then {o} else {});
      pinned := pinned + if c.kind.IsUncollectable() then {o} else {};
      alive := alive + {o};
    }

    // The client writes w at a: a pointer to an object it has, or anything else.
    method Store(a: int, w: int, ghost genuine: bool)
      requires Safe() && Visible(m.h, cls, alive, a)
      requires genuine ==> Scanned(m.h, alive, a) && w in m.h.resolve && m.h.resolve[w] in alive
      modifies this`ptrs, m`h
      ensures Safe() && m.h == old(m.h).(mem := old(m.h).mem[a := w]) && alive == old(alive)
      ensures ptrs == if genuine then old(ptrs) + {a} else old(ptrs) - {a}
    {
      StoreKeepsClient(m.h, cls, ptrs, pinned, alive, a, w, genuine);
      ghost var h0 := m.h;
      m.h := m.h.(mem := m.h.mem[a := w]);
      ptrs := if genuine then ptrs + {a} else ptrs - {a};
      MemMarksOk(h0, m.h, m.marked, m.nMarks);
      ListsStored(h0, m.h, m.marked, cls, fl, rl, pinned, alive);
    }

    // The root ranges change: calls and returns, new threads, new static data.
    method SetRoots(statics: seq<Range>, stacks: seq<Range>)
      requires Safe() && |statics| <= INITIAL_MARK_STACK_SIZE / 2
               && Layout(m.h.(statics := statics, stacks := stacks), cls)
      modifies this`ptrs, m`h
      ensures Safe() && m.h == old(m.h).(statics := statics, stacks := stacks) && alive == old(alive)
              && ptrs <= old(ptrs)
    {
      ghost var h0 := m.h;
      m.h := m.h.(statics := statics, stacks := stacks);
      RootsKeepClient(h0, ptrs, pinned, alive, m.h);
      ptrs := PtrsOf(m.h, ptrs, alive);
      RootsMarksOk(h0, m.h, m.marked, m.nMarks);
      RootsClear(h0, m.h, cls, alive);
      ListsStored(h0, m.h, m.marked, cls, fl, rl, pinned, alive);
    }

    function Base(o: Obj): int
      reads m
    {
      if m.h.IsObj(o) then m.h.blocks[o.blk].bases[o.idx] else 0
    }

    // One object goes on the list: its words are cleared, its first word is the link.
    method Empty(o: Obj, link: int)
      requires Sound() && m.h.IsObj(o) && o !in alive
      modifies m`h
      ensures Sound() && SameWords(old(m.h), m.h, cls, alive)
      ensures o.blk in cls && (cls[o.blk].Init() ==> ClearAt(m.h, cls, o))
      ensures ClearKept(old(m.h), m.h, cls, {o}) && cls == old(cls)
    {
      var base := m.h.blocks[o.blk].bases[o.idx];
      ghost var h0 := m.h;
      m.h := m.h.(mem := Emptied(m.h.mem, base, cls[o.blk].Words(), link, cls[o.blk].Init()));
      EmptyStep(h0, cls, alive, o, link, cls[o.blk].Init(), m.h);
      SameWordsKeep(h0, m.h, cls, ptrs, pinned, alive);
      MemMarksOk(h0, m.h, m.marked, m.nMarks);
    }
  }

  lemma SameWordsReach(h1: Heap, h2: Heap, cls: map<nat, Class>, ptrs: set<int>, pinned: set<Obj>, alive: set<Obj>)
    requires h1.Valid() && h2.Valid() && ClientOk(h1, ptrs, pinned, alive) && Layout(h1, cls)
             && SameWords(h1, h2, cls, alive)
    ensures Precise(h1, ptrs).ReachSet(pinned) <= Precise(h2, ptrs).ReachSet(pinned)
  {
    forall a | Visible(h1, cls, alive, a) ensures h2.Read(a) == h1.Read(a) {
      assert SameWord(h1, h2, cls, alive, a);
    }
    SameReach(h1, h2, cls, ptrs, pinned, alive);
  }

  lemma RootsMarksOk(h: Heap, h2: Heap, marked: set<Obj>, nMarks: map<nat, nat>)
    requires MarksOk(h, marked, nMarks) && h.Disjoint() && h2 == h.(statics := h2.statics, stacks := h2.stacks)
    ensures MarksOk(h2, marked, nMarks) && h2.Disjoint()
  {
  }

  lemma RootsClear(h: Heap, h2: Heap, cls: map<nat, Class>, alive: set<Obj>)
    requires h2 == h.(statics := h2.statics, stacks := h2.stacks)
    ensures ClearKept(h, h2, cls, alive)
  {
    forall p ensures ClearKeptAt(h, h2, cls, alive, p) {
      assert forall a :: InExtent(h2, cls, p, a) <==> InExtent(h, cls, p, a);
    }
  }

  lemma {:induction false} NoMarksFreeAll(marked: set<Obj>, b: nat, k: nat)
    requires MarkedOf(marked, b) == {}
    ensures FreeOf(marked, b, k) == FreeOf({}, b, k)
  {
    if k > 0 {
      NoMarksFreeAll(marked, b, k - 1);
      assert Obj(b, k - 1) !in MarkedOf(marked, b);
    }
  }

  lemma ListsLarge(h: Heap, h2: Heap, marked: set<Obj>, marked2: set<Obj>, cls: map<nat, Class>,
        fl: map<Class, seq<Obj>>, rl: map<Class, seq<nat>>,
                   pinned: set<Obj>, alive: set<Obj>, c: Class, o: Obj)
    requires ListsOk(h, marked, cls, fl, rl, alive) && MarksSafe(h, marked, cls, rl, pinned, alive)
    requires h2 == h.(mem := h2.mem) && ClearKept(h, h2, cls, {o}) && marked <= marked2 && h.IsObj(o)
             && h.blocks[o.blk].kind == c.kind
    requires NoneFree(fl, o.blk) && !Queued(cls, rl, o.blk) && (c.kind.IsUncollectable() ==> o in marked2)
    ensures ListsOk(h2, marked2, cls, fl, rl, alive + {o})
    ensures MarksSafe(h2, marked2, cls, rl, pinned + (if c.kind.IsUncollectable() then {o} else {}), alive + {o})
  {
    var pinned2 := pinned + if c.kind.IsUncollectable() then {o} else {};
    forall d ensures FlOk(h2, marked2, cls, fl, rl, alive + {o}, d) {
      assert FlOk(h, marked, cls, fl, rl, alive, d);
      forall p | p in Fl(fl, d) ensures FreeObj(h2, marked2, cls, rl, alive + {o}, d, p) {
        assert FreeObj(h, marked, cls, rl, alive, d, p) && ClearKeptAt(h, h2, cls, {o}, p);
      }
    }
    forall d ensures RlOk(h2, cls, rl, d) { assert RlOk(h, cls, rl, d); }
    forall p ensures Survives(marked2, cls, rl, alive + {o}, p) { assert Survives(marked, cls, rl, alive, p); }
    forall p ensures PinnedOk(h2, marked2, pinned2, p) { assert PinnedOk(h, marked, pinned, p); }
  }

  lemma EmptyClient(h: Heap)
    requires h.blocks == map[] && h.resolve == map[]
    ensures Layout(h, map[]) && ClientOk(h, {}, {}, {})
  {
    forall r | r in AllRoots(Precise(h, {})) ensures EntryOk(Precise(h, {}), {}, [], r) {
    }
  }

  lemma SameWordsSelf(h: Heap, cls: map<nat, Class>, alive: set<Obj>)
    ensures SameWords(h, h, cls, alive)
  {
    forall a ensures SameWord(h, h, cls, alive, a) {
    }
  }
}
