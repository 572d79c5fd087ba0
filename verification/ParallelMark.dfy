// The parallel marker: the collecting thread and its helpers share one global mark
// stack and steal from it, mark from stacks of their own, and return what they cannot
// keep. All of them interleave freely; what is done under the mark lock is one step.
module ParallelMark {
  import opened Graphs
  import opened Sets

  // The heap, fixed while marking; sizes of the stacks; helpers besides the collector;
  // and by how much an entry counts when it is stolen.
  datatype Config = Config(edges: map<int, set<int>>, weight: map<int, nat>, stackSize: nat, localSize: nat,
      markersM1: nat) {
    function Children(x: int): set<int> { if x in edges then edges[x] else {} }
    function Weight(x: int): nat { if x in weight then weight[x] else 0 }
  }

  const ENTRIES_TO_GET: nat := 5

  // An entry of the global stack; one that was stolen has a zero descriptor.
  datatype Slot = Slot(obj: int, live: bool)

  // Where a marker is, with its registers.
  datatype Pc =
    | Outside                                          // has not joined
    | Loop                                             // about to read the first nonempty entry
    | Sync(g: nat)                                     // read g
    | ReadTop                                          // about to read the top of the global stack
    | Lock                                             // found nothing, about to look again with the lock
    | Steal(p: nat, hi: nat, i: nat, max: nat)         // looking at entry p
    | Taken(p: nat, hi: nat, i: nat, max: nat)         // read a descriptor at p, about to clear it
    | Working(popped: bool)                            // at its own stack; popped: has marked from it
    | Scanning(x: int, todo: set<int>)                 // children of x to look at
    | Unmarked(x: int, todo: set<int>, c: int)         // found c unmarked
    | Marked(x: int, todo: set<int>, c: int)           // marked c, about to push it
    | Notify(again: bool)                              // returned entries, about to wake the others
    | Check                                            // no longer active, with the lock
    | Asleep
    | Done

  // mine is the index from which this marker still has to look.
  datatype Marker = Marker(pc: Pc, mine: nat, local: seq<int>)

  datatype State = State(stack: seq<Slot>, first: nat, active: nat, helpers: nat, wanted: bool,
                         invalid: bool, returned: bool, marked: set<int>, crew: map<int, Marker>)

  datatype Step =
    | Join(h: int) | ReadFirst(h: int) | SyncFirst(h: int) | LoadTop(h: int) | LookAgain(h: int)
    | NextEntry(h: int) | ClearEntry(h: int)
    | Pop(h: int) | Visit(h: int, c: int) | SetMark(h: int) | Push(h: int, dropped: nat) | EndScan(h: int)
    | Rest(h: int) | Share(h: int) | WakeAll(h: int) | Settle(h: int) | Return

  const MAIN := 0

  predicate Active(pc: Pc) { !pc.Outside? && !pc.Check? && !pc.Asleep? && !pc.Done? }

  function At(s: State, h: int): Pc { if h in s.crew then s.crew[h].pc else Outside }

  predicate Enabled(cf: Config, s: State, st: Step) {
    match st
    case Join(h) => h in s.crew && h != MAIN && At(s, h).Outside? && s.wanted && s.helpers <= cf.markersM1
    case ReadFirst(h) => At(s, h).Loop?
    case SyncFirst(h) => At(s, h).Sync?
    case LoadTop(h) => At(s, h).ReadTop?
    case LookAgain(h) => At(s, h).Lock?
    case NextEntry(h) => At(s, h).Steal? && At(s, h).p <= At(s, h).hi <= |s.stack|
    case ClearEntry(h) => At(s, h).Taken? && At(s, h).p < |s.stack|
    case Pop(h) => At(s, h).Working? && s.crew[h].local != []
    case Visit(h, c) => At(s, h).Scanning? && c in At(s, h).todo
    case SetMark(h) => At(s, h).Unmarked?
    case Push(h, dropped) => At(s, h).Marked? && dropped <= |s.crew[h].local|
    case EndScan(h) => At(s, h).Scanning? && At(s, h).todo == {}
    case Rest(h) =>
      && At(s, h).Working?
      && (s.crew[h].local == [] || (At(s, h).popped && |s.crew[h].local| - 1 >= cf.localSize / 2))
    case Share(h) => At(s, h).Working? && At(s, h).popped && |s.crew[h].local| > 2
    case WakeAll(h) => At(s, h).Notify?
    case Settle(h) => At(s, h).Check?
    case Return => At(s, MAIN).Done? && s.helpers == 0 && !s.returned
  }

  function Put(s: State, h: int, m: Marker): State { s.(crew := s.crew[h := m]) }

  function Go(s: State, h: int, pc: Pc): State
    requires h in s.crew
  {
    Put(s, h, s.crew[h].(pc := pc))
  }

  function Slots(xs: seq<int>): seq<Slot> { seq(|xs|, i requires 0 <= i < |xs| => Slot(xs[i], true)) }

  // GC_return_mark_stack: what does not fit is dropped.
  function Deposit(cf: Config, s: State, xs: seq<int>): State {
    if |s.stack| + |xs| > cf.stackSize then s.(invalid := true) else s.(stack := s.stack + Slots(xs))
  }

  function Wake(m: Marker): Marker { if m.pc.Asleep? then m.(pc := Check) else m }

  function Broadcast(s: State): State { s.(crew := map h | h in s.crew :: Wake(s.crew[h])) }

  function StartSteal(s: State, h: int): Pc
    requires h in s.crew
  {
    var n := |s.stack| - s.crew[h].mine;
    Steal(s.crew[h].mine, |s.stack|, 0, if n < 2 * ENTRIES_TO_GET then 1 else ENTRIES_TO_GET)
  }

  // Steps of three kinds: looking for entries to steal, marking from the own stack, and
  // the rest, which change the counters or wake others.
  predicate Indexes(st: Step) {
    st.Join? || st.ReadFirst? || st.SyncFirst? || st.LoadTop? || st.LookAgain? || st.NextEntry? || st.ClearEntry?
  }

  predicate Marks(st: Step) { st.Pop? || st.Visit? || st.SetMark? || st.Push? || st.EndScan? }

  // Looking for entries to steal.
  function Find(cf: Config, s: State, st: Step): State
    requires Enabled(cf, s, st) && Indexes(st)
  {
    match st
    case Join(h) => Put(s, h, Marker(Loop, s.first, [])).(active := s.active + 1, helpers := s.helpers + 1)
    case ReadFirst(h) => Go(s, h, Sync(s.first))
    case SyncFirst(h) =>
      var m, g := s.crew[h], s.crew[h].pc.g;
      if m.mine < g then Put(s, h, m.(mine := g, pc := ReadTop))
      else if g < m.mine && s.first == g then Go(s, h, ReadTop).(first := m.mine)   // compare and swap
      else Go(s, h, ReadTop)
    case LoadTop(h) => Go(s, h, if |s.stack| <= s.crew[h].mine then Lock else StartSteal(s, h))
    case LookAgain(h) =>
      if |s.stack| <= s.crew[h].mine then
        var s1 := Go(s, h, Check).(active := if s.active > 0 then s.active - 1 else 0);
        if s1.active == 0 then Broadcast(s1) else s1
      else Go(s, h, StartSteal(s, h))
    case NextEntry(h) =>
      var pc := s.crew[h].pc;
      if pc.p < pc.hi && pc.i <= pc.max then
        Go(s, h, if s.stack[pc.p].live then Taken(pc.p, pc.hi, pc.i, pc.max) else Steal(pc.p + 1, pc.hi, pc.i, pc.max))
      else Put(s, h, s.crew[h].(pc := Working(false), mine := pc.p))
    case ClearEntry(h) =>
      var m, pc, x := s.crew[h], s.crew[h].pc, s.stack[s.crew[h].pc.p].obj;
      Put(s, h, m.(pc := Steal(pc.p + 1, pc.hi, pc.i + 1 + cf.Weight(x), pc.max), local := m.local + [x]))
        .(stack := s.stack[pc.p := Slot(x, false)])
  }

  // Marking from the own stack.
  function Mark(cf: Config, s: State, st: Step): State
    requires Enabled(cf, s, st) && Marks(st)
  {
    match st
    case Pop(h) =>
      var m := s.crew[h];
      var x := m.local[|m.local| - 1];
      Put(s, h, m.(pc := Scanning(x, cf.Children(x)), local := m.local[..|m.local| - 1]))
    case Visit(h, c) =>
      var pc := s.crew[h].pc;
      Go(s, h, if c in s.marked then Scanning(pc.x, pc.todo - {c}) else Unmarked(pc.x, pc.todo, c))
    case SetMark(h) =>
      var pc := s.crew[h].pc;
      Go(s, h, Marked(pc.x, pc.todo, pc.c)).(marked := s.marked + {pc.c})
    case Push(h, dropped) =>
      var m, pc := s.crew[h], s.crew[h].pc;
      if |m.local| < cf.localSize
      then Put(s, h, m.(pc := Scanning(pc.x, pc.todo - {pc.c}), local := m.local + [pc.c]))
      else Put(s, h, m.(pc := Scanning(pc.x, pc.todo - {pc.c}),
          local := m.local[..|m.local| - dropped])).(invalid := true)
    case EndScan(h) => Go(s, h, Working(true))
  }

  // Returning entries, waking, and coming to an end.
  function Leave(cf: Config, s: State, st: Step): State
    requires Enabled(cf, s, st) && !Indexes(st) && !Marks(st)
  {
    match st
    case Rest(h) =>
      var m := s.crew[h];
      if m.local == [] then Go(s, h, Loop)
      else Deposit(cf, Put(s, h, m.(pc := Notify(false), local := [])), m.local)
    case Share(h) =>
      var m := s.crew[h];
      var k := (|m.local| - 1) / 2;
      Deposit(cf, Put(s, h, m.(pc := Notify(true), local := m.local[k..])), m.local[..k])
    case WakeAll(h) => Broadcast(Go(s, h, if s.crew[h].pc.again then Working(false) else Loop))
    case Settle(h) =>
      if s.first < |s.stack| then Go(s, h, Loop).(active := s.active + 1)
      else if s.active > 0 then Go(s, h, Asleep)
      else
        var s1 := Go(s, h, Done).(helpers := if s.helpers > 0 then s.helpers - 1 else 0);
        if h == MAIN then s1.(wanted := false) else s1
    case Return => s.(returned := true)
  }

  function Apply(cf: Config, s: State, st: Step): State
    requires Enabled(cf, s, st)
  {
    if Indexes(st) then Find(cf, s, st) else if Marks(st) then Mark(cf, s, st) else Leave(cf, s, st)
  }

  // ---------------------------------------------------------------------
  // The invariant.

  // No live entry below n.
  predicate Dead(s: State, n: nat) { n <= |s.stack| && forall i :: 0 <= i < n ==> !s.stack[i].live }

  predicate DeadAt(s: State, h: int) {
    h in s.crew ==>
      var m := s.crew[h];
      && Dead(s, m.mine)
      && (m.pc.Sync? ==> Dead(s, m.pc.g))
      && (m.pc.Steal? || m.pc.Taken? ==> m.mine <= m.pc.p <= m.pc.hi <= |s.stack| && Dead(s, m.pc.p))
      && (m.pc.Taken? ==> m.pc.p < m.pc.hi)
  }

  predicate Holds(pc: Pc) { pc.Taken? || pc.Scanning? || pc.Unmarked? || pc.Marked? }

  predicate LocalOk(cf: Config, s: State, h: int) {
    h in s.crew ==>
      var m := s.crew[h];
      && (m.local != [] ==>
         m.pc.Steal? || m.pc.Taken? || m.pc.Working? || m.pc.Scanning? || m.pc.Unmarked?
         || m.pc.Marked? || m.pc == Notify(true))
      && (m.pc.Scanning? || m.pc.Unmarked? || m.pc.Marked? ==> cf.Children(m.pc.x) - m.pc.todo <= s.marked)
      && (m.pc.Unmarked? || m.pc.Marked? ==> m.pc.c in m.pc.todo)
      && (m.pc.Marked? ==> m.pc.c in s.marked)
  }

  // The places where an object can wait for its children to be marked.
  datatype Place = OnStack(i: nat) | OnLocal(h: int) | InScan(h: int) | InHand(h: int)

  predicate Waits(cf: Config, s: State, x: int, at: Place) {
    match at
    case OnStack(i) => i < |s.stack| && s.stack[i] == Slot(x, true)
    case OnLocal(h) => h in s.crew && x in s.crew[h].local
    case InScan(h) => h in s.crew && (s.crew[h].pc.Scanning? || s.crew[h].pc.Unmarked? || s.crew[h].pc.Marked?)
        && s.crew[h].pc.x == x
    case InHand(h) => h in s.crew && s.crew[h].pc.Marked? && s.crew[h].pc.c == x
  }

  // No work is lost: a marked object waits somewhere or its children are marked.
  ghost predicate Kept(cf: Config, s: State, x: int) {
    cf.Children(x) <= s.marked || exists at :: Waits(cf, s, x, at)
  }

  ghost predicate AllKept(cf: Config, s: State) {
    s.invalid || forall x {:trigger Kept(cf, s, x)} :: x in s.marked ==> Kept(cf, s, x)
  }

  function Actives(s: State): set<int> { set h | h in s.crew && Active(s.crew[h].pc) }

  predicate InPhase(pc: Pc) { !pc.Outside? && !pc.Done? }

  function Joined(s: State): set<int> { set h | h in s.crew && InPhase(s.crew[h].pc) }

  // No entry is left anywhere, and nobody has one in hand.
  predicate Quiet(s: State) {
    Dead(s, |s.stack|) && forall h :: h in s.crew ==> s.crew[h].local == [] && !Holds(s.crew[h].pc)
  }

  predicate SomeDone(s: State) { exists h :: h in s.crew && s.crew[h].pc.Done? }

  predicate Notifying(s: State) { exists h :: h in s.crew && s.crew[h].pc.Notify? }

  predicate Sleeping(s: State) { exists h :: h in s.crew && s.crew[h].pc.Asleep? }

  ghost predicate Inv(cf: Config, s: State) {
    && Dead(s, s.first) && MainOk(s)
    && CountsRight(s)
    && (forall h {:trigger DeadAt(s, h)} :: DeadAt(s, h))
    && (forall h {:trigger LocalOk(cf, s, h)} :: LocalOk(cf, s, h))
    && AllKept(cf, s)
    && (SomeDone(s) ==> Quiet(s))
    // A sleeper has something to wait for.
    && SleepOk(s)
  }

  // At the start the entries of the global stack are all there is to do, and the
  // collecting thread is about to look at the first.
  ghost predicate Init(cf: Config, s: State) {
    && s.first == 0 && s.active == 1 && s.helpers == 1 && s.wanted && !s.invalid && !s.returned
    && MAIN in s.crew && s.crew[MAIN] == Marker(Loop, 0, [])
    && (forall i :: 0 <= i < |s.stack| ==> s.stack[i].obj in s.marked)
    && (forall h :: h in s.crew && h != MAIN ==> s.crew[h].pc.Outside? && s.crew[h].mine == 0 && s.crew[h].local == [])
    && forall x {:trigger Kept(cf, s, x)} :: x in s.marked ==>
       cf.Children(x) <= s.marked
       || exists i :: 0 <= i < |s.stack| && s.stack[i] == Slot(x, true)
  }

  lemma InitInv(cf: Config, s: State)
    requires Init(cf, s)
    ensures Inv(cf, s)
  {
    forall h ensures (h in Actives(s) <==> h == MAIN) && (h in Joined(s) <==> h == MAIN) {}
    assert Actives(s) == {MAIN} && Joined(s) == {MAIN};
    forall h ensures DeadAt(s, h) && LocalOk(cf, s, h) {}
    forall x | x in s.marked ensures Kept(cf, s, x) {
      if i :| 0 <= i < |s.stack| && s.stack[i] == Slot(x, true) { assert Waits(cf, s, x, OnStack(i)); }
    }
  }

  // ---------------------------------------------------------------------
  // Every step keeps the invariant.

  // Entries only die, and new ones come on top.
  predicate StackGrows(s: State, s2: State) {
    |s.stack| <= |s2.stack| && forall i :: 0 <= i < |s.stack| ==> s2.stack[i] == s.stack[i] || !s2.stack[i].live
  }

  lemma StackStep(cf: Config, s: State, st: Step)
    requires Enabled(cf, s, st)
    ensures StackGrows(s, Apply(cf, s, st))
  {
  }

  // The marker h stays as it is, or is woken.
  predicate Untouched(s: State, s2: State, h: int) {
    && (h in s2.crew <==> h in s.crew)
    && (h in s.crew ==> s2.crew[h] == s.crew[h] || (s.crew[h].pc.Asleep? && s2.crew[h] == s.crew[h].(pc := Check)))
  }

  lemma OthersFinding(cf: Config, s: State, st: Step, h: int)
    requires Enabled(cf, s, st) && Indexes(st) && h != st.h
    ensures Untouched(s, Apply(cf, s, st), h)
  {
  }

  lemma OthersMarking(cf: Config, s: State, st: Step, h: int)
    requires Enabled(cf, s, st) && Marks(st) && h != st.h
    ensures Untouched(s, Apply(cf, s, st), h)
  {
  }

  lemma OthersLeaving(cf: Config, s: State, st: Step, h: int)
    requires Enabled(cf, s, st) && !Indexes(st) && !Marks(st) && (st == Return || h != st.h)
    ensures Untouched(s, Apply(cf, s, st), h)
  {
  }

  // A step changes one marker, and may wake others.
  lemma Others(cf: Config, s: State, st: Step, h: int)
    requires Enabled(cf, s, st) && (st == Return || h != st.h)
    ensures Untouched(s, Apply(cf, s, st), h)
  {
    if Indexes(st) {
      OthersFinding(cf, s, st, h);
    } else if Marks(st) {
      OthersMarking(cf, s, st, h);
    } else {
      OthersLeaving(cf, s, st, h);
    }
  }

  lemma FirstStep(cf: Config, s: State, st: Step)
    requires Inv(cf, s) && Enabled(cf, s, st)
    ensures Dead(Apply(cf, s, st), Apply(cf, s, st).first)
  {
    if st != Return { assert DeadAt(s, st.h); }
    StackStep(cf, s, st);
  }

  lemma NextDead(cf: Config, s: State, st: Step)
    requires st.NextEntry? && Enabled(cf, s, st) && DeadAt(s, st.h)
    ensures DeadAt(Find(cf, s, st), st.h)
  {
  }

  lemma ClearDead(cf: Config, s: State, st: Step)
    requires st.ClearEntry? && Enabled(cf, s, st) && DeadAt(s, st.h)
    ensures DeadAt(Find(cf, s, st), st.h)
  {
    StackStep(cf, s, st);
  }

  lemma LookDead(cf: Config, s: State, st: Step)
    requires st.LoadTop? || st.LookAgain?
    requires Enabled(cf, s, st) && DeadAt(s, st.h)
    ensures DeadAt(Find(cf, s, st), st.h)
  {
  }

  lemma ReadDead(cf: Config, s: State, st: Step)
    requires st.Join? || st.ReadFirst? || st.SyncFirst?
    requires Dead(s, s.first) && Enabled(cf, s, st) && DeadAt(s, st.h)
    ensures DeadAt(Find(cf, s, st), st.h)
  {
  }

  lemma IndexStep(cf: Config, s: State, st: Step)
    requires Dead(s, s.first) && Indexes(st) && Enabled(cf, s, st) && DeadAt(s, st.h)
    ensures DeadAt(Apply(cf, s, st), st.h)
  {
    if st.NextEntry? {
      NextDead(cf, s, st);
    } else if st.ClearEntry? {
      ClearDead(cf, s, st);
    } else if st.LoadTop? || st.LookAgain? {
      LookDead(cf, s, st);
    } else {
      ReadDead(cf, s, st);
    }
  }

  lemma OwnDeadStep(cf: Config, s: State, st: Step)
    requires Dead(s, s.first) && st != Return && Enabled(cf, s, st) && DeadAt(s, st.h)
    ensures DeadAt(Apply(cf, s, st), st.h)
  {
    if Indexes(st) {
      IndexStep(cf, s, st);
    } else {
      StackStep(cf, s, st);
      var m, m2 := s.crew[st.h], Apply(cf, s, st).crew[st.h];
      assert m2.mine == m.mine && !m2.pc.Sync? && !m2.pc.Steal? && !m2.pc.Taken?;
    }
  }

  lemma DeadStep(cf: Config, s: State, st: Step, h: int)
    requires Inv(cf, s) && Enabled(cf, s, st)
    ensures DeadAt(Apply(cf, s, st), h)
  {
    assert DeadAt(s, h);
    if st != Return && h == st.h {
      OwnDeadStep(cf, s, st);
    } else {
      Others(cf, s, st, h);
      StackStep(cf, s, st);
    }
  }

  lemma MarkedGrows(cf: Config, s: State, st: Step)
    requires Enabled(cf, s, st)
    ensures s.marked <= Apply(cf, s, st).marked
  {
  }

  lemma LocalStays(cf: Config, s: State, s2: State, h: int)
    requires LocalOk(cf, s, h) && Untouched(s, s2, h) && s.marked <= s2.marked
    ensures LocalOk(cf, s2, h)
  {
  }

  lemma LocalFind(cf: Config, s: State, st: Step)
    requires Enabled(cf, s, st) && Indexes(st) && LocalOk(cf, s, st.h)
    ensures LocalOk(cf, Find(cf, s, st), st.h)
  {
  }

  lemma LocalMark(cf: Config, s: State, st: Step)
    requires Enabled(cf, s, st) && Marks(st) && LocalOk(cf, s, st.h)
    ensures LocalOk(cf, Mark(cf, s, st), st.h)
  {
  }

  lemma LocalLeave(cf: Config, s: State, st: Step)
    requires Enabled(cf, s, st) && !Indexes(st) && !Marks(st) && st != Return && LocalOk(cf, s, st.h)
    ensures LocalOk(cf, Leave(cf, s, st), st.h)
  {
  }

  lemma LocalStep(cf: Config, s: State, st: Step, h: int)
    requires LocalOk(cf, s, h) && Enabled(cf, s, st)
    ensures LocalOk(cf, Apply(cf, s, st), h)
  {
    if st == Return || h != st.h {
      Others(cf, s, st, h);
      MarkedGrows(cf, s, st);
      LocalStays(cf, s, Apply(cf, s, st), h);
    } else if Indexes(st) {
      LocalFind(cf, s, st);
    } else if Marks(st) {
      LocalMark(cf, s, st);
    } else {
      LocalLeave(cf, s, st);
    }
  }

  // Where an object waits after the step.
  lemma PlaceStolen(cf: Config, s: State, st: Step, x: int, at: Place)
    requires Enabled(cf, s, st) && st.ClearEntry? && LocalOk(cf, s, st.h) && DeadAt(s, st.h) && Waits(cf, s, x, at)
    ensures Kept(cf, Find(cf, s, st), x)
  {
    var s2 := Find(cf, s, st);
    if at == OnStack(s.crew[st.h].pc.p) {
      assert Waits(cf, s2, x, OnLocal(st.h));
    } else {
      assert Waits(cf, s2, x, at);
    }
  }

  lemma PlaceFind(cf: Config, s: State, st: Step, x: int, at: Place)
    requires Enabled(cf, s, st) && Indexes(st) && LocalOk(cf, s, st.h) && DeadAt(s, st.h) && Waits(cf, s, x, at)
    ensures Kept(cf, Find(cf, s, st), x)
  {
    if st.ClearEntry? {
      PlaceStolen(cf, s, st, x, at);
    } else {
      assert Find(cf, s, st).stack == s.stack;
      assert Waits(cf, Find(cf, s, st), x, at);
    }
  }

  lemma PlaceMark(cf: Config, s: State, st: Step, x: int, at: Place)
    requires Enabled(cf, s, st) && Marks(st) && LocalOk(cf, s, st.h) && Waits(cf, s, x, at)
    requires !Mark(cf, s, st).invalid
    ensures Kept(cf, Mark(cf, s, st), x)
  {
    var s2 := Mark(cf, s, st);
    if st.Pop? && at == OnLocal(st.h) && x == s.crew[st.h].local[|s.crew[st.h].local| - 1] {
      assert Waits(cf, s2, x, InScan(st.h));
    } else if st.Push? && at == InHand(st.h) {
      assert Waits(cf, s2, x, OnLocal(st.h));
    } else if st.EndScan? && at == InScan(st.h) {
      assert cf.Children(x) <= s2.marked;
    } else {
      assert Waits(cf, s2, x, at);
    }
  }

  lemma PlaceReturned(cf: Config, s: State, st: Step, x: int, at: Place)
    requires Enabled(cf, s, st) && (st.Rest? || st.Share?) && Waits(cf, s, x, at) && at == OnLocal(st.h)
    requires !Leave(cf, s, st).invalid
    ensures Kept(cf, Leave(cf, s, st), x)
  {
    var s2, local := Leave(cf, s, st), s.crew[st.h].local;
    var j :| 0 <= j < |local| && local[j] == x;
    var k := if st.Rest? then |local| else (|local| - 1) / 2;
    if j < k {
      assert s2.stack[|s.stack| + j] == Slot(x, true);
      assert Waits(cf, s2, x, OnStack(|s.stack| + j));
    } else {
      assert s2.crew[st.h].local[j - k] == x;
      assert Waits(cf, s2, x, OnLocal(st.h));
    }
  }

  lemma PlaceLeave(cf: Config, s: State, st: Step, x: int, at: Place)
    requires Enabled(cf, s, st) && !Indexes(st) && !Marks(st) && Waits(cf, s, x, at)
    requires st != Return ==> LocalOk(cf, s, st.h)
    requires !Leave(cf, s, st).invalid
    ensures Kept(cf, Leave(cf, s, st), x)
  {
    if (st.Rest? || st.Share?) && at == OnLocal(st.h) {
      PlaceReturned(cf, s, st, x, at);
    } else {
      assert Waits(cf, Leave(cf, s, st), x, at);
    }
  }

  lemma PlaceStep(cf: Config, s: State, st: Step, x: int, at: Place)
    requires Enabled(cf, s, st) && Waits(cf, s, x, at) && !Apply(cf, s, st).invalid
    requires st != Return ==> LocalOk(cf, s, st.h) && DeadAt(s, st.h)
    ensures Kept(cf, Apply(cf, s, st), x)
  {
    if Indexes(st) {
      PlaceFind(cf, s, st, x, at);
    } else if Marks(st) {
      PlaceMark(cf, s, st, x, at);
    } else {
      PlaceLeave(cf, s, st, x, at);
    }
  }

  lemma KeptStep(cf: Config, s: State, st: Step)
    requires Inv(cf, s) && Enabled(cf, s, st)
    ensures AllKept(cf, Apply(cf, s, st))
  {
    var s2 := Apply(cf, s, st);
    if !s2.invalid {
      forall x | x in s2.marked ensures Kept(cf, s2, x) {
        if x in s.marked {
          assert Kept(cf, s, x);
          if !(cf.Children(x) <= s.marked) {
            var at :| Waits(cf, s, x, at);
            if st != Return { assert LocalOk(cf, s, st.h) && DeadAt(s, st.h); }
            PlaceStep(cf, s, st, x, at);
          }
        } else {
          assert Waits(cf, s2, x, InHand(st.h));
        }
      }
    }
  }

  lemma Change<T>(a: set<T>, b: set<T>, h: T)
    requires forall k {:trigger k in b} :: k in b && k != h ==> k in a
    requires forall k {:trigger k in a} :: k in a && k != h ==> k in b
    ensures |b| == |a| + (if h in b then 1 else 0) - (if h in a then 1 else 0)
  {
    if (h in a) == (h in b) {
      assert b == a;
    } else if h in b {
      assert b == a + {h};
    } else {
      assert a == b + {h};
    }
  }

  // The counters follow what the marker h does.
  predicate Counted(s: State, s2: State, h: int) {
    && h in s.crew && h in s2.crew
    && s2.active == s.active + (if Active(s2.crew[h].pc) then 1 else 0) - (if Active(s.crew[h].pc) then 1 else 0)
    && s2.helpers == s.helpers + (if InPhase(s2.crew[h].pc) then 1 else 0) - (if InPhase(s.crew[h].pc) then 1 else 0)
  }

  lemma CountFind(cf: Config, s: State, st: Step)
    requires Enabled(cf, s, st) && Indexes(st) && (Active(At(s, st.h)) ==> s.active > 0)
    ensures Counted(s, Find(cf, s, st), st.h)
  {
  }

  lemma CountMark(cf: Config, s: State, st: Step)
    requires Enabled(cf, s, st) && Marks(st)
    ensures Counted(s, Mark(cf, s, st), st.h)
  {
  }

  lemma CountLeave(cf: Config, s: State, st: Step)
    requires Enabled(cf, s, st) && !Indexes(st) && !Marks(st) && st != Return
             && (InPhase(At(s, st.h)) ==> s.helpers > 0)
    ensures Counted(s, Leave(cf, s, st), st.h)
  {
  }

  lemma OwnCount(cf: Config, s: State, st: Step)
    requires Enabled(cf, s, st) && st != Return
    requires (Active(At(s, st.h)) ==> s.active > 0) && (InPhase(At(s, st.h)) ==> s.helpers > 0)
    ensures Counted(s, Apply(cf, s, st), st.h)
  {
    if Indexes(st) {
      CountFind(cf, s, st);
    } else if Marks(st) {
      CountMark(cf, s, st);
    } else {
      CountLeave(cf, s, st);
    }
  }

  predicate CountsRight(s: State) { s.active == |Actives(s)| && s.helpers == |Joined(s)| }

  lemma Recount(s: State, s2: State, h: int)
    requires CountsRight(s) && Counted(s, s2, h)
    requires forall k {:trigger Untouched(s, s2, k)} :: k != h ==> Untouched(s, s2, k)
    ensures CountsRight(s2)
  {
    forall k | k != h ensures (k in Actives(s2) <==> k in Actives(s)) && (k in Joined(s2) <==> k in Joined(s)) {
      assert Untouched(s, s2, k);
    }
    Change(Actives(s), Actives(s2), h);
    Change(Joined(s), Joined(s2), h);
  }

  lemma CountStep(cf: Config, s: State, st: Step)
    requires CountsRight(s) && Enabled(cf, s, st)
    ensures CountsRight(Apply(cf, s, st))
  {
    var s2 := Apply(cf, s, st);
    if st == Return {
      assert Actives(s2) == Actives(s) && Joined(s2) == Joined(s);
    } else {
      forall h | h != st.h ensures Untouched(s, s2, h) { Others(cf, s, st, h); }
      assert Active(At(s, st.h)) ==> st.h in Actives(s);
      assert InPhase(At(s, st.h)) ==> st.h in Joined(s);
      OwnCount(cf, s, st);
      Recount(s, s2, st.h);
    }
  }

  // The last to leave finds nothing left.
  lemma ExitQuiet(cf: Config, s: State, st: Step)
    requires Inv(cf, s) && Enabled(cf, s, st) && st.Settle? && Apply(cf, s, st).crew[st.h].pc.Done?
    ensures Quiet(Apply(cf, s, st))
  {
    assert Actives(s) == {};
    forall h | h in s.crew ensures s.crew[h].local == [] && !Holds(s.crew[h].pc) {
      assert LocalOk(cf, s, h);
      assert h !in Actives(s);
    }
  }

  // Nothing is left in the marker h, and the global stack is as it was.
  predicate QuietAt(s: State, s2: State, h: int) {
    s2.stack == s.stack && h in s2.crew && s2.crew[h].local == [] && !Holds(s2.crew[h].pc)
  }

  lemma QuietFind(cf: Config, s: State, st: Step)
    requires Enabled(cf, s, st) && Indexes(st) && Quiet(s) && LocalOk(cf, s, st.h)
    ensures QuietAt(s, Find(cf, s, st), st.h)
  {
  }

  lemma QuietLeave(cf: Config, s: State, st: Step)
    requires Enabled(cf, s, st) && !Indexes(st) && !Marks(st) && st != Return && Quiet(s) && LocalOk(cf, s, st.h)
    ensures QuietAt(s, Leave(cf, s, st), st.h)
  {
  }

  lemma OwnQuiet(cf: Config, s: State, st: Step)
    requires Enabled(cf, s, st) && Quiet(s) && st != Return && LocalOk(cf, s, st.h)
    ensures QuietAt(s, Apply(cf, s, st), st.h)
  {
    if Indexes(st) {
      QuietFind(cf, s, st);
    } else {
      assert !Marks(st);
      QuietLeave(cf, s, st);
    }
  }

  lemma StaysQuiet(cf: Config, s: State, st: Step)
    requires Enabled(cf, s, st) && Quiet(s) && (st != Return ==> LocalOk(cf, s, st.h))
    ensures Quiet(Apply(cf, s, st))
  {
    var s2 := Apply(cf, s, st);
    if st != Return { OwnQuiet(cf, s, st); }
    forall h | h in s2.crew ensures s2.crew[h].local == [] && !Holds(s2.crew[h].pc) {
      if st == Return || h != st.h {
        Others(cf, s, st, h);
        assert Untouched(s, s2, h);
      }
    }
  }

  lemma QuietStep(cf: Config, s: State, st: Step)
    requires Inv(cf, s) && Enabled(cf, s, st)
    ensures var s2 := Apply(cf, s, st); SomeDone(s2) ==> Quiet(s2)
  {
    var s2 := Apply(cf, s, st);
    if SomeDone(s) {
      if st != Return { assert LocalOk(cf, s, st.h); }
      StaysQuiet(cf, s, st);
    } else if SomeDone(s2) {
      var h :| h in s2.crew && s2.crew[h].pc.Done?;
      if st == Return || h != st.h { Others(cf, s, st, h); }
      ExitQuiet(cf, s, st);
    }
  }

  // What a sleeper waits for, as long as nobody is about to wake it.
  predicate Awaited(s: State) { s.active > 0 && s.first >= |s.stack| }

  lemma AwaitedStep(cf: Config, s: State, st: Step)
    requires Enabled(cf, s, st) && Awaited(s)
    ensures var s2 := Apply(cf, s, st); Awaited(s2) || Notifying(s2) || !Sleeping(s2)
  {
    var s2 := Apply(cf, s, st);
    if st.Rest? || st.Share? { assert s2.stack == s.stack || s2.crew[st.h].pc.Notify?; }
  }

  lemma NotifyingStep(cf: Config, s: State, st: Step)
    requires Enabled(cf, s, st) && Notifying(s)
    ensures var s2 := Apply(cf, s, st); Notifying(s2) || !Sleeping(s2)
  {
    var k :| k in s.crew && s.crew[k].pc.Notify?;
    if st == Return || k != st.h { Others(cf, s, st, k); assert Apply(cf, s, st).crew[k].pc.Notify?; }
  }

  // Whoever falls asleep has something to wait for.
  lemma FallsAsleep(cf: Config, s: State, st: Step)
    requires Enabled(cf, s, st) && !Indexes(st) && !Marks(st) && st != Return
    ensures At(Leave(cf, s, st), st.h).Asleep? ==> Awaited(Leave(cf, s, st))
  {
  }

  lemma FindsAwake(cf: Config, s: State, st: Step)
    requires Enabled(cf, s, st) && Indexes(st)
    ensures !At(Find(cf, s, st), st.h).Asleep?
  {
  }

  lemma MarksAwake(cf: Config, s: State, st: Step)
    requires Enabled(cf, s, st) && Marks(st)
    ensures !At(Mark(cf, s, st), st.h).Asleep?
  {
  }

  lemma OwnSleep(cf: Config, s: State, st: Step)
    requires Enabled(cf, s, st) && st != Return
    ensures At(Apply(cf, s, st), st.h).Asleep? ==> Awaited(Apply(cf, s, st))
  {
    if Indexes(st) {
      FindsAwake(cf, s, st);
    } else if Marks(st) {
      MarksAwake(cf, s, st);
    } else {
      FallsAsleep(cf, s, st);
    }
  }

  predicate SleepOk(s: State) { Sleeping(s) ==> Awaited(s) || Notifying(s) }

  lemma SleepStep(cf: Config, s: State, st: Step)
    requires SleepOk(s) && Enabled(cf, s, st)
    ensures SleepOk(Apply(cf, s, st))
  {
    var s2 := Apply(cf, s, st);
    if Awaited(s) {
      AwaitedStep(cf, s, st);
    } else if Notifying(s) {
      NotifyingStep(cf, s, st);
    } else if z :| z in s2.crew && s2.crew[z].pc.Asleep? {
      if st != Return && z == st.h {
        OwnSleep(cf, s, st);
      } else {
        Others(cf, s, st, z);
      }
    }
  }

  // Helpers are wanted until the collecting thread is done, and it returns last.
  predicate MainOk(s: State) {
    && MAIN in s.crew && !At(s, MAIN).Outside?
    && (s.wanted <==> !At(s, MAIN).Done?) && (s.returned ==> s.helpers == 0 && At(s, MAIN).Done?)
  }

  lemma MainStep(cf: Config, s: State, st: Step)
    requires MainOk(s) && Enabled(cf, s, st) && (s.helpers == 0 ==> forall h :: h in s.crew ==> !InPhase(s.crew[h].pc))
    ensures MainOk(Apply(cf, s, st))
  {
    if st == Return || st.h != MAIN { Others(cf, s, st, MAIN); }
  }

  lemma StepInv(cf: Config, s: State, st: Step)
    requires Inv(cf, s) && Enabled(cf, s, st)
    ensures Inv(cf, Apply(cf, s, st))
  {
    var s2 := Apply(cf, s, st);
    forall h ensures DeadAt(s2, h) && LocalOk(cf, s2, h) {
      DeadStep(cf, s, st, h);
      assert LocalOk(cf, s, h);
      LocalStep(cf, s, st, h);
    }
    FirstStep(cf, s, st);
    KeptStep(cf, s, st);
    CountStep(cf, s, st);
    QuietStep(cf, s, st);
    SleepStep(cf, s, st);
    if s.helpers == 0 {
      assert Joined(s) == {};
      forall h | h in s.crew ensures !InPhase(s.crew[h].pc) { assert h !in Joined(s); }
    }
    MainStep(cf, s, st);
  }

  // ---------------------------------------------------------------------
  // Nothing is marked that need not be: marking stays inside any closed set of objects.

  ghost function Edge(cf: Config): (int, int) -> bool { (x, y) => y in cf.Children(x) }

  ghost predicate MarkerInside(m: Marker, S: set<int>) {
    && (forall x :: x in m.local ==> x in S)
    && (m.pc.Scanning? || m.pc.Unmarked? || m.pc.Marked? ==> m.pc.todo <= S)
    && (m.pc.Unmarked? || m.pc.Marked? ==> m.pc.c in S)
  }

  ghost predicate CrewInside(s: State, S: set<int>) {
    forall h {:trigger s.crew[h]} :: h in s.crew ==> MarkerInside(s.crew[h], S)
  }

  ghost predicate StackInside(s: State, S: set<int>) { forall i :: 0 <= i < |s.stack| ==> s.stack[i].obj in S }

  ghost predicate Inside(s: State, S: set<int>) {
    s.marked <= S && StackInside(s, S) && CrewInside(s, S)
  }

  lemma StolenInside(cf: Config, s: State, st: Step, S: set<int>)
    requires Enabled(cf, s, st) && st.ClearEntry? && StackInside(s, S) && MarkerInside(s.crew[st.h], S)
    ensures MarkerInside(Find(cf, s, st).crew[st.h], S)
  {
  }

  lemma FindInside(cf: Config, s: State, st: Step, S: set<int>)
    requires Enabled(cf, s, st) && Indexes(st) && StackInside(s, S)
    requires st.Join? || MarkerInside(s.crew[st.h], S)
    ensures MarkerInside(Find(cf, s, st).crew[st.h], S)
  {
    if st.ClearEntry? { StolenInside(cf, s, st, S); }
  }

  lemma MarkInside(cf: Config, s: State, st: Step, S: set<int>)
    requires Enabled(cf, s, st) && Marks(st) && EdgeClosed(Edge(cf), S) && MarkerInside(s.crew[st.h], S)
    ensures MarkerInside(Mark(cf, s, st).crew[st.h], S)
  {
    if st.Pop? {
      var local := s.crew[st.h].local;
      var x := local[|local| - 1];
      forall y | y in cf.Children(x) ensures y in S { assert x in S && Edge(cf)(x, y); }
    }
  }

  lemma ShareInside(cf: Config, s: State, st: Step, S: set<int>)
    requires Enabled(cf, s, st) && (st.Rest? || st.Share?) && MarkerInside(s.crew[st.h], S)
    ensures MarkerInside(Leave(cf, s, st).crew[st.h], S)
  {
  }

  lemma LeaveInside(cf: Config, s: State, st: Step, S: set<int>)
    requires Enabled(cf, s, st) && !Indexes(st) && !Marks(st) && st != Return && MarkerInside(s.crew[st.h], S)
    ensures MarkerInside(Leave(cf, s, st).crew[st.h], S)
  {
    if st.Rest? || st.Share? { ShareInside(cf, s, st, S); }
  }

  lemma OwnInside(cf: Config, s: State, st: Step, S: set<int>)
    requires Enabled(cf, s, st) && st != Return && EdgeClosed(Edge(cf), S) && StackInside(s, S)
    requires st.Join? || MarkerInside(s.crew[st.h], S)
    ensures MarkerInside(Apply(cf, s, st).crew[st.h], S)
  {
    if Indexes(st) {
      FindInside(cf, s, st, S);
    } else if Marks(st) {
      MarkInside(cf, s, st, S);
    } else {
      LeaveInside(cf, s, st, S);
    }
  }

  lemma ReturnedInside(cf: Config, s: State, st: Step, S: set<int>)
    requires Enabled(cf, s, st) && (st.Rest? || st.Share?) && StackInside(s, S) && MarkerInside(s.crew[st.h], S)
    ensures StackInside(Leave(cf, s, st), S)
  {
    var s2, local := Leave(cf, s, st), s.crew[st.h].local;
    forall i | 0 <= i < |s2.stack| ensures s2.stack[i].obj in S {
      if i >= |s.stack| { assert s2.stack[i].obj == local[i - |s.stack|]; }
    }
  }

  lemma CrewStep(cf: Config, s: State, st: Step, S: set<int>)
    requires Enabled(cf, s, st) && EdgeClosed(Edge(cf), S) && Inside(s, S)
    ensures CrewInside(Apply(cf, s, st), S)
  {
    var s2 := Apply(cf, s, st);
    forall h | h in s2.crew ensures MarkerInside(s2.crew[h], S) {
      if st == Return || h != st.h {
        Others(cf, s, st, h);
        assert Untouched(s, s2, h);
      } else {
        OwnInside(cf, s, st, S);
      }
    }
  }

  lemma InsideStep(cf: Config, s: State, st: Step, S: set<int>)
    requires Enabled(cf, s, st) && EdgeClosed(Edge(cf), S) && Inside(s, S)
    ensures Inside(Apply(cf, s, st), S)
  {
    CrewStep(cf, s, st, S);
    if st.Rest? || st.Share? {
      assert MarkerInside(s.crew[st.h], S);
      ReturnedInside(cf, s, st, S);
    }
  }

  // ---------------------------------------------------------------------
  // The theorems.

  ghost predicate Next(cf: Config, s: State, s2: State) { exists st :: Enabled(cf, s, st) && s2 == Apply(cf, s, st) }

  ghost predicate Run(cf: Config, ss: seq<State>) {
    && ss != [] && Init(cf, ss[0])
    && forall i :: 0 <= i < |ss| - 1 ==> Next(cf, ss[i], ss[i + 1])
  }

  lemma NextInv(cf: Config, s: State, s2: State)
    requires Inv(cf, s) && Next(cf, s, s2)
    ensures Inv(cf, s2) && s.marked <= s2.marked
  {
    var st :| Enabled(cf, s, st) && s2 == Apply(cf, s, st);
    StepInv(cf, s, st);
    MarkedGrows(cf, s, st);
  }

  lemma {:induction false} RunInv(cf: Config, ss: seq<State>, i: nat)
    requires Run(cf, ss) && i < |ss|
    ensures Inv(cf, ss[i]) && ss[0].marked <= ss[i].marked
  {
    if i == 0 {
      InitInv(cf, ss[0]);
    } else {
      RunInv(cf, ss, i - 1);
      assert Next(cf, ss[i - 1], ss[i - 1 + 1]);
      NextInv(cf, ss[i - 1], ss[i]);
    }
  }

  lemma {:induction false} RunInside(cf: Config, ss: seq<State>, i: nat, S: set<int>)
    requires Run(cf, ss) && i < |ss| && EdgeClosed(Edge(cf), S) && ss[0].marked <= S
    ensures Inside(ss[i], S)
  {
    if i > 0 {
      RunInside(cf, ss, i - 1, S);
      assert Next(cf, ss[i - 1], ss[i - 1 + 1]);
      var st :| Enabled(cf, ss[i - 1], st) && ss[i] == Apply(cf, ss[i - 1], st);
      InsideStep(cf, ss[i - 1], st, S);
    } else {
      assert CrewInside(ss[0], S);
    }
  }

  // When the collector returns, all stacks are empty; and unless the mark state is
  // invalid, exactly what the objects marked at the start reach is marked.
  lemma MarkingIsDone(cf: Config, ss: seq<State>, i: nat, all: set<int>)
    requires Run(cf, ss) && i < |ss| && ss[i].returned && EdgeClosed(Edge(cf), all) && ss[0].marked <= all
    ensures Quiet(ss[i]) && forall h :: h in ss[i].crew ==> ss[i].crew[h].pc.Outside? || ss[i].crew[h].pc.Done?
    ensures ss[i].marked <= Reached(Edge(cf), ss[0].marked, all)
    ensures ss[i].invalid || ss[i].marked == Reached(Edge(cf), ss[0].marked, all)
  {
    RunInv(cf, ss, i);
    var s, R := ss[i], Reached(Edge(cf), ss[0].marked, all);
    ReachedIsLeastClosed(Edge(cf), ss[0].marked, all);
    RunInside(cf, ss, i, R);
    assert SomeDone(s);
    forall h | h in s.crew ensures s.crew[h].pc.Outside?
        || s.crew[h].pc.Done? {
      assert Joined(s) == {};
      assert h !in Joined(s);
    }
    if !s.invalid {
      forall x, y | x in s.marked && Edge(cf)(x, y) ensures y in s.marked {
        assert Kept(cf, s, x);
        assert forall at :: !Waits(cf, s, x, at);
      }
      assert EdgeClosed(Edge(cf), s.marked);
    }
  }

  // Nobody waits for ever: until the collector returns somebody can go on.
  lemma SomebodyMoves(cf: Config, s: State) returns (st: Step)
    requires Inv(cf, s) && !s.returned
    ensures Enabled(cf, s, st) && !st.Join?
  {
    if h :| h in s.crew && Active(s.crew[h].pc) {
      assert DeadAt(s, h) && LocalOk(cf, s, h);
      match s.crew[h].pc
      case Loop => st := ReadFirst(h);
      case Sync(_) => st := SyncFirst(h);
      case ReadTop => st := LoadTop(h);
      case Lock => st := LookAgain(h);
      case Steal(_, _, _, _) => st := NextEntry(h);
      case Taken(_, _, _, _) => st := ClearEntry(h);
      case Working(_) => st := if s.crew[h].local == [] then Rest(h) else Pop(h);
      case Scanning(_, todo) => if todo == {} { st := EndScan(h); } else { st := Visit(h, AnyOf(todo)); }
      case Unmarked(_, _, _) => st := SetMark(h);
      case Marked(_, _, _) => st := Push(h, 0);
      case Notify(_) => st := WakeAll(h);
    } else if h :| h in s.crew && s.crew[h].pc.Check? {
      st := Settle(h);
    } else {
      if Actives(s) != {} { var k := AnyOf(Actives(s)); assert false; }
      assert !Sleeping(s);
      if Joined(s) != {} { var k := AnyOf(Joined(s)); assert false; }
      st := Return;
    }
  }
}
