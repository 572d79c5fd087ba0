// Parallel marking ends under every schedule: whatever the markers do in whatever order,
// each step uses up some of what is left to be done.
module ParallelEnds {
  import opened Graphs
  import opened ParallelMark
  import opened Sets

  // ---------------------------------------------------------------------
  // Sums over the crew.

  ghost function Sum(crew: map<int, Marker>, ts: set<int>, f: Marker -> nat): nat
    requires ts <= crew.Keys
  {
    if ts == {} then 0 else f(crew[AnyOf(ts)]) + Sum(crew, ts - {AnyOf(ts)}, f)
  }

  ghost function Total(crew: map<int, Marker>, f: Marker -> nat): nat { Sum(crew, crew.Keys, f) }

  lemma {:induction false} SumSplit(crew: map<int, Marker>, ts: set<int>, f: Marker -> nat, t: int)
    requires t in ts && ts <= crew.Keys
    ensures Sum(crew, ts, f) == f(crew[t]) + Sum(crew, ts - {t}, f)
  {
    var u := AnyOf(ts);
    if u != t {
      SumSplit(crew, ts - {u}, f, t);
      SumSplit(crew, ts - {t}, f, u);
      assert ts - {u} - {t} == ts - {t} - {u};
    }
  }

  predicate AtMost(crew: map<int, Marker>, f: Marker -> nat, crew2: map<int, Marker>, g: Marker -> nat, slack: nat,
      t: int)
    requires t in crew && t in crew2
  {
    g(crew2[t]) <= f(crew[t]) + slack
  }

  lemma {:induction false} SumUp(crew: map<int, Marker>, f: Marker -> nat, crew2: map<int, Marker>, g: Marker -> nat,
        slack: nat, ts: set<int>)
    requires ts <= crew.Keys && ts <= crew2.Keys
    requires forall t {:trigger AtMost(crew, f, crew2, g, slack, t)} :: t in ts ==> AtMost(crew, f, crew2, g, slack, t)
    ensures Sum(crew2, ts, g) <= Sum(crew, ts, f) + slack * |ts|
  {
    if ts != {} {
      var t := AnyOf(ts);
      SumSplit(crew, ts, f, t);
      SumUp(crew, f, crew2, g, slack, ts - {t});
      assert AtMost(crew, f, crew2, g, slack, t) && |ts| == |ts - {t}| + 1;
      assert slack * |ts| == slack * |ts - {t}| + slack;
    }
  }

  // All but h go up by slack at most.
  lemma TotalBut(crew: map<int, Marker>, f: Marker -> nat, crew2: map<int, Marker>, g: Marker -> nat, slack: nat,
        h: int)
    requires h in crew && crew2.Keys == crew.Keys
    requires forall t {:trigger AtMost(crew, f, crew2, g, slack, t)} ::
               t in crew && t != h ==> AtMost(crew, f, crew2, g, slack, t)
    ensures Total(crew2, g) <= Total(crew, f) - f(crew[h]) + g(crew2[h]) + slack * (|crew.Keys| - 1)
  {
    var ts := crew.Keys;
    SumSplit(crew, ts, f, h);
    SumSplit(crew2, ts, g, h);
    SumUp(crew, f, crew2, g, slack, ts - {h});
    assert |ts - {h}| == |ts| - 1;
  }

  // ---------------------------------------------------------------------
  // What is left to be done. The global stack only grows, and no further than its size;
  // the markers' places in it only move up; and every marker finds a child unmarked at
  // most once in a row.

  function Pos(m: Marker): nat {
    if m.pc.Outside? then 0 else if m.pc.Steal? || m.pc.Taken? then m.pc.p else m.mine
  }

  function Ahead(m: Marker, room: nat): nat { if Pos(m) <= room then room - Pos(m) else 0 }

  // About to push a child that another marker has marked meanwhile.
  function Again(m: Marker, marked: set<int>): nat { if m.pc.Unmarked? && m.pc.c in marked then 1 else 0 }

  function Entries(m: Marker): nat { |m.local| + if m.pc.Marked? then 1 else 0 }

  function Todo(m: Marker): nat { if m.pc.Scanning? || m.pc.Unmarked? || m.pc.Marked? then |m.pc.todo| else 0 }

  // How far a marker is from leaving, if nothing else changes. n is the size of the crew.
  function Rank(m: Marker, first: nat, top: nat, n: nat): nat {
    match m.pc
    case Done => 0
    case Asleep => if first < top then n + 9 else 1
    case Check => if first < top then n + 10 else 2
    case Taken(p, _, _, _) => if p == m.mine then 3 else 2 * n + 17
    case Steal(p, _, _, _) => if p == m.mine then 4 else 2 * n + 18
    case Lock => if first < m.mine then 2 * n + 11 else n + 5
    case ReadTop => if first < m.mine then 2 * n + 12 else n + 6
    case Sync(g) => if g < first then 2 * n + 13 else n + 7
    case Loop => n + 8
    case Working(_) => 2 * n + 14
    case Unmarked(_, _, _) => 2 * n + 15
    case Marked(_, _, _) => 2 * n + 15
    case Scanning(_, _) => 2 * n + 16
    case Notify(_) => 3 * n + 20
    case Outside => 3 * n + 30
  }

  function AheadOf(room: nat): Marker -> nat { m => Ahead(m, room) }

  function AgainOf(marked: set<int>): Marker -> nat { m => Again(m, marked) }

  function RankOf(first: nat, top: nat, n: nat): Marker -> nat { m => Rank(m, first, top, n) }

  function Minus(a: nat, b: nat): nat { if b <= a then a - b else 0 }

  // In order of weight: room on the global stack, entries ahead of the markers, objects
  // that may still be pushed, entries, children to look at, steps to take.
  datatype Work = Work(room: nat, ahead: nat, unmarked: nat, entries: nat, todo: nat, steps: nat)

  ghost function ToMark(s: State, all: set<int>): nat {
    |s.crew.Keys| * |all - s.marked| + Total(s.crew, AgainOf(s.marked))
  }

  ghost function WorkOf(s: State, all: set<int>, room: nat): Work {
    var n := |s.crew.Keys|;
    Work(Minus(room, |s.stack|), Minus(room, s.first) + Total(s.crew, AheadOf(room)),
         ToMark(s, all), Total(s.crew, Entries), Total(s.crew, Todo),
         Total(s.crew, RankOf(s.first, |s.stack|, n)) + if s.returned then 0 else 1)
  }

  predicate Less(w: Work, v: Work) {
    || w.room < v.room
    || (w.room == v.room &&
        (w.ahead < v.ahead ||
         (w.ahead == v.ahead &&
          (w.unmarked < v.unmarked ||
           (w.unmarked == v.unmarked &&
            (w.entries < v.entries ||
             (w.entries == v.entries && (w.todo < v.todo || (w.todo == v.todo && w.steps < v.steps)))))))))
  }

  // ---------------------------------------------------------------------
  // What else holds along a run.

  // A marker that starts to steal finds an entry, and none has read what is not there yet.
  predicate FreshAt(s: State, h: int) {
    h in s.crew ==>
      var m := s.crew[h];
      && ((m.pc.Steal? || m.pc.Taken?) && m.pc.p == m.mine ==> m.pc.p < m.pc.hi && m.pc.i == 0)
      && (m.pc.Sync? ==> m.pc.g <= s.first)
  }

  ghost predicate Going(cf: Config, s: State, all: set<int>, room: nat) {
    && Inv(cf, s) && Inside(s, all) && EdgeClosed(Edge(cf), all)
    && |s.stack| <= room && cf.stackSize <= room
    && forall h {:trigger FreshAt(s, h)} :: FreshAt(s, h)
  }

  lemma FirstGrows(cf: Config, s: State, st: Step)
    requires Enabled(cf, s, st)
    ensures s.first <= Apply(cf, s, st).first
  {
    if Indexes(st) {
      FirstFound(cf, s, st);
    } else if Marks(st) {
      assert Mark(cf, s, st).first == s.first;
    } else {
      assert Leave(cf, s, st).first == s.first;
    }
  }

  lemma FirstFound(cf: Config, s: State, st: Step)
    requires Enabled(cf, s, st) && Indexes(st)
    ensures s.first <= Find(cf, s, st).first && |Find(cf, s, st).stack| == |s.stack|
  {
  }

  lemma FreshFind(cf: Config, s: State, st: Step)
    requires Enabled(cf, s, st) && Indexes(st) && FreshAt(s, st.h) && DeadAt(s, st.h)
    ensures FreshAt(Find(cf, s, st), st.h)
  {
  }

  lemma FreshElse(cf: Config, s: State, st: Step)
    requires Enabled(cf, s, st) && !Indexes(st) && st != Return
    ensures FreshAt(Apply(cf, s, st), st.h)
  {
    var m2 := Apply(cf, s, st).crew[st.h];
    assert !m2.pc.Sync? && !m2.pc.Steal? && !m2.pc.Taken?;
  }

  lemma FreshStep(cf: Config, s: State, st: Step, h: int)
    requires Enabled(cf, s, st) && FreshAt(s, h) && DeadAt(s, h)
    ensures FreshAt(Apply(cf, s, st), h)
  {
    if st == Return || h != st.h {
      Others(cf, s, st, h);
      FirstGrows(cf, s, st);
    } else if Indexes(st) {
      FreshFind(cf, s, st);
    } else {
      FreshElse(cf, s, st);
    }
  }

  lemma RoomStep(cf: Config, s: State, st: Step, room: nat)
    requires Enabled(cf, s, st) && |s.stack| <= room && cf.stackSize <= room
    ensures |s.stack| <= |Apply(cf, s, st).stack| <= room
  {
    if Indexes(st) {
      FirstFound(cf, s, st);
    } else if Marks(st) {
      assert Mark(cf, s, st).stack == s.stack;
    } else {
      RoomLeft(cf, s, st, room);
    }
  }

  lemma RoomLeft(cf: Config, s: State, st: Step, room: nat)
    requires Enabled(cf, s, st) && !Indexes(st) && !Marks(st) && |s.stack| <= room && cf.stackSize <= room
    ensures |s.stack| <= |Leave(cf, s, st).stack| <= room
  {
  }

  lemma GoingStep(cf: Config, s: State, st: Step, all: set<int>, room: nat)
    requires Going(cf, s, all, room) && Enabled(cf, s, st)
    ensures Going(cf, Apply(cf, s, st), all, room)
  {
    StepInv(cf, s, st);
    InsideStep(cf, s, st, all);
    RoomStep(cf, s, st, room);
    forall h ensures FreshAt(Apply(cf, s, st), h) {
      assert FreshAt(s, h) && DeadAt(s, h);
      FreshStep(cf, s, st, h);
    }
  }

  // ---------------------------------------------------------------------
  // What one marker does makes the work less.

  // Nothing changes but the marker h and whom it wakes.
  ghost predicate Frame(s: State, s2: State, h: int) {
    && h in s.crew && s2.crew.Keys == s.crew.Keys && s2.returned == s.returned
    && forall t {:trigger Untouched(s, s2, t)} :: t != h ==> Untouched(s, s2, t)
  }

  predicate WakesNone(s: State, s2: State) {
    forall t :: t in s.crew && t in s2.crew ==> !(s.crew[t].pc.Asleep? && s2.crew[t].pc.Check?)
  }

  // No index goes down, and none leaves the stack.
  ghost predicate Onward(s: State, s2: State, h: int, room: nat)
    requires Frame(s, s2, h)
  {
    var m, m2 := s.crew[h], s2.crew[h];
    && |s.stack| <= |s2.stack| <= room && s.first <= s2.first <= room && Pos(m) <= Pos(m2) <= room
  }

  // The marker h is closer to leaving, by enough to make up for those it wakes.
  ghost predicate Quieter(s: State, s2: State, h: int)
    requires Frame(s, s2, h)
  {
    var m, m2, n := s.crew[h], s2.crew[h], |s.crew.Keys|;
    && |s.stack| == |s2.stack| && s.first == s2.first
    && Rank(m2, s.first, |s.stack|, n) + (if WakesNone(s, s2) then 1 else n) <= Rank(m, s.first, |s.stack|, n)
  }

  // It has fewer entries, or as many and fewer children to look at, or as many of both.
  ghost predicate Fewer(s: State, s2: State, h: int)
    requires Frame(s, s2, h)
  {
    var m, m2 := s.crew[h], s2.crew[h];
    && s2.marked == s.marked && Again(m2, s.marked) <= Again(m, s.marked)
    && (Entries(m2) < Entries(m) || (Entries(m2) == Entries(m) &&
        (Todo(m2) < Todo(m) || (Todo(m2) == Todo(m) && Quieter(s, s2, h)))))
  }

  // It marks what it found unmarked.
  predicate MarksOne(s: State, s2: State, h: int)
    requires h in s.crew && h in s2.crew
  {
    var m, m2 := s.crew[h], s2.crew[h];
    m.pc.Unmarked? && !m2.pc.Unmarked? && s2.marked == s.marked + {m.pc.c}
  }

  // The marker h gets on, and so the whole does.
  ghost predicate Better(s: State, s2: State, h: int, room: nat) {
    && Frame(s, s2, h) && Onward(s, s2, h, room)
    && (|s.stack| < |s2.stack| || s.first < s2.first || Pos(s.crew[h]) < Pos(s2.crew[h])
        || MarksOne(s, s2, h) || Fewer(s, s2, h))
  }

  lemma AheadLess(s: State, s2: State, h: int, room: nat)
    requires Frame(s, s2, h) && Onward(s, s2, h, room)
    ensures var v, w := Minus(room, s.first) + Total(s.crew, AheadOf(room)),
                Minus(room, s2.first) + Total(s2.crew, AheadOf(room));
            w <= v && (s.first < s2.first || Pos(s.crew[h]) < Pos(s2.crew[h]) ==> w < v)
  {
    var f := AheadOf(room);
    forall t | t in s.crew && t != h ensures AtMost(s.crew, f, s2.crew, f, 0, t) { assert Untouched(s, s2, t); }
    TotalBut(s.crew, f, s2.crew, f, 0, h);
  }

  lemma EntriesLess(s: State, s2: State, h: int)
    requires Frame(s, s2, h)
    ensures Total(s2.crew, Entries) <= Total(s.crew, Entries) - Entries(s.crew[h]) + Entries(s2.crew[h])
    ensures Total(s2.crew, Todo) <= Total(s.crew, Todo) - Todo(s.crew[h]) + Todo(s2.crew[h])
  {
    forall t | t in s.crew && t != h
      ensures AtMost(s.crew, Entries, s2.crew, Entries, 0, t) && AtMost(s.crew, Todo, s2.crew, Todo, 0, t)
    {
      assert Untouched(s, s2, t);
    }
    TotalBut(s.crew, Entries, s2.crew, Entries, 0, h);
    TotalBut(s.crew, Todo, s2.crew, Todo, 0, h);
  }

  lemma StepsLess(s: State, s2: State, h: int)
    requires Frame(s, s2, h) && Quieter(s, s2, h)
    ensures var n := |s.crew.Keys|;
            Total(s2.crew, RankOf(s2.first, |s2.stack|, n)) < Total(s.crew, RankOf(s.first, |s.stack|, n))
  {
    var n := |s.crew.Keys|;
    var f, slack := RankOf(s.first, |s.stack|, n), if WakesNone(s, s2) then 0 else 1;
    forall t | t in s.crew && t != h ensures AtMost(s.crew, f, s2.crew, f, slack, t) { assert Untouched(s, s2, t); }
    TotalBut(s.crew, f, s2.crew, f, slack, h);
  }

  lemma SameMarks(s: State, s2: State, h: int)
    requires Frame(s, s2, h) && s2.marked == s.marked && Again(s2.crew[h], s.marked) <= Again(s.crew[h], s.marked)
    ensures Total(s2.crew, AgainOf(s2.marked)) <= Total(s.crew, AgainOf(s.marked))
  {
    var f := AgainOf(s.marked);
    forall t | t in s.crew && t != h ensures AtMost(s.crew, f, s2.crew, f, 0, t) { assert Untouched(s, s2, t); }
    TotalBut(s.crew, f, s2.crew, f, 0, h);
  }

  // A mark counts once for each marker: the others may have found the object unmarked.
  lemma MarkLess(s: State, s2: State, h: int, all: set<int>)
    requires Frame(s, s2, h) && MarksOne(s, s2, h) && s.crew[h].pc.c in all
    ensures ToMark(s2, all) < ToMark(s, all)
  {
    var n, c := |s.crew.Keys|, s.crew[h].pc.c;
    if c in s.marked {
      assert s2.marked == s.marked;
      OthersAgain(s, s2, h, 0);
    } else {
      assert all - s.marked == (all - s2.marked) + {c};
      OneMore(n, |all - s2.marked|, |all - s.marked|);
      OthersAgain(s, s2, h, 1);
    }
  }

  lemma OneMore(n: nat, a: nat, b: nat)
    requires b == a + 1
    ensures n * b == n * a + n
  {
  }

  lemma OthersAgain(s: State, s2: State, h: int, slack: nat)
    requires Frame(s, s2, h) && MarksOne(s, s2, h) && (slack == 0 ==> s2.marked == s.marked)
    ensures Total(s2.crew, AgainOf(s2.marked)) <=
              Total(s.crew, AgainOf(s.marked)) - Again(s.crew[h], s.marked) + slack * (|s.crew.Keys| - 1)
  {
    var f, g := AgainOf(s.marked), AgainOf(s2.marked);
    forall t | t in s.crew && t != h ensures AtMost(s.crew, f, s2.crew, g, slack, t) { assert Untouched(s, s2, t); }
    TotalBut(s.crew, f, s2.crew, g, slack, h);
  }

  lemma BetterIsLess(s: State, s2: State, h: int, all: set<int>, room: nat)
    requires Better(s, s2, h, room) && (s.crew[h].pc.Unmarked? ==> s.crew[h].pc.c in all)
    ensures Less(WorkOf(s2, all, room), WorkOf(s, all, room))
  {
    AheadLess(s, s2, h, room);
    if MarksOne(s, s2, h) {
      MarkLess(s, s2, h, all);
    } else if Fewer(s, s2, h) {
      SameMarks(s, s2, h);
      EntriesLess(s, s2, h);
      if Quieter(s, s2, h) { StepsLess(s, s2, h); }
    }
  }

  // ---------------------------------------------------------------------
  // Every step is such.

  predicate Wakes(st: Step) { st.WakeAll? || st.LookAgain? }

  lemma SameFind(cf: Config, s: State, st: Step, t: int)
    requires Enabled(cf, s, st) && Indexes(st) && !Wakes(st) && t in s.crew && t != st.h
    ensures t in Find(cf, s, st).crew && Find(cf, s, st).crew[t] == s.crew[t]
  {
  }

  lemma SameMark(cf: Config, s: State, st: Step, t: int)
    requires Enabled(cf, s, st) && Marks(st) && t in s.crew && t != st.h
    ensures t in Mark(cf, s, st).crew && Mark(cf, s, st).crew[t] == s.crew[t]
  {
  }

  lemma SameLeave(cf: Config, s: State, st: Step, t: int)
    requires Enabled(cf, s, st) && !Indexes(st) && !Marks(st) && !Wakes(st) && t in s.crew
             && (st == Return || t != st.h)
    ensures t in Leave(cf, s, st).crew && Leave(cf, s, st).crew[t] == s.crew[t]
  {
  }

  lemma NoneWoken(cf: Config, s: State, st: Step)
    requires Enabled(cf, s, st) && !Wakes(st)
    ensures WakesNone(s, Apply(cf, s, st))
  {
    var s2 := Apply(cf, s, st);
    forall t | t in s.crew && t in s2.crew ensures !(s.crew[t].pc.Asleep? && s2.crew[t].pc.Check?) {
      if st != Return && t == st.h {
        assert !s.crew[t].pc.Asleep?;
      } else if Indexes(st) {
        SameFind(cf, s, st, t);
      } else if Marks(st) {
        SameMark(cf, s, st, t);
      } else {
        SameLeave(cf, s, st, t);
      }
    }
  }

  lemma Returned(cf: Config, s: State, st: Step)
    requires Enabled(cf, s, st) && st != Return
    ensures Apply(cf, s, st).returned == s.returned && st.h in s.crew
  {
  }

  lemma FrameStep(cf: Config, s: State, st: Step)
    requires Enabled(cf, s, st) && st != Return
    ensures Frame(s, Apply(cf, s, st), st.h)
  {
    var s2 := Apply(cf, s, st);
    Returned(cf, s, st);
    OwnStays(cf, s, st);
    forall t | t != st.h ensures Untouched(s, s2, t) { Others(cf, s, st, t); }
    forall t ensures t in s2.crew <==> t in s.crew { if t != st.h { assert Untouched(s, s2, t); } }
    assert s2.crew.Keys == s.crew.Keys;
  }

  lemma OwnStays(cf: Config, s: State, st: Step)
    requires Enabled(cf, s, st) && st != Return
    ensures st.h in Apply(cf, s, st).crew
  {
    if Indexes(st) {
      assert st.h in Find(cf, s, st).crew;
    } else if Marks(st) {
      assert st.h in Mark(cf, s, st).crew;
    } else {
      assert st.h in Leave(cf, s, st).crew;
    }
  }

  lemma FindPos(cf: Config, s: State, st: Step)
    requires Enabled(cf, s, st) && Indexes(st) && DeadAt(s, st.h)
    ensures Pos(s.crew[st.h]) <= Pos(Find(cf, s, st).crew[st.h])
  {
    if st.NextEntry? || st.ClearEntry? { StealPos(cf, s, st); }
  }

  lemma StealPos(cf: Config, s: State, st: Step)
    requires Enabled(cf, s, st) && (st.NextEntry? || st.ClearEntry?)
    ensures Pos(s.crew[st.h]) <= Pos(Find(cf, s, st).crew[st.h])
  {
  }

  lemma OnwardStep(cf: Config, s: State, st: Step, all: set<int>, room: nat)
    requires Going(cf, s, all, room) && Enabled(cf, s, st) && st != Return && Frame(s, Apply(cf, s, st), st.h)
    ensures Onward(s, Apply(cf, s, st), st.h, room)
  {
    var s2 := Apply(cf, s, st);
    GoingStep(cf, s, st, all, room);
    StackStep(cf, s, st);
    FirstGrows(cf, s, st);
    assert DeadAt(s, st.h) && DeadAt(s2, st.h);
    PosInside(s2, st.h);
    if Indexes(st) {
      FindPos(cf, s, st);
    } else if Marks(st) {
      MarkPos(cf, s, st);
    } else {
      LeavePos(cf, s, st);
    }
  }

  lemma PosInside(s: State, h: int)
    requires h in s.crew && DeadAt(s, h)
    ensures Pos(s.crew[h]) <= |s.stack|
  {
  }

  lemma MarkPos(cf: Config, s: State, st: Step)
    requires Enabled(cf, s, st) && Marks(st)
    ensures Pos(s.crew[st.h]) == Pos(Mark(cf, s, st).crew[st.h])
  {
  }

  lemma LeavePos(cf: Config, s: State, st: Step)
    requires Enabled(cf, s, st) && !Indexes(st) && !Marks(st) && st != Return
    ensures Pos(s.crew[st.h]) == Pos(Leave(cf, s, st).crew[st.h])
  {
  }

  // Up to the look at the top of the global stack.
  lemma ReadBetter(cf: Config, s: State, st: Step)
    requires Enabled(cf, s, st) && (st.Join? || st.ReadFirst? || st.SyncFirst?)
    requires LocalOk(cf, s, st.h) && FreshAt(s, st.h) && Frame(s, Find(cf, s, st), st.h)
             && WakesNone(s, Find(cf, s, st))
    ensures var s2 := Find(cf, s, st);
            s.first < s2.first || Pos(s.crew[st.h]) < Pos(s2.crew[st.h]) || Fewer(s, s2, st.h)
  {
  }

  lemma LoadBetter(cf: Config, s: State, st: Step)
    requires Enabled(cf, s, st) && st.LoadTop? && Frame(s, Find(cf, s, st), st.h) && WakesNone(s, Find(cf, s, st))
    ensures Fewer(s, Find(cf, s, st), st.h)
  {
  }

  lemma LookBetter(cf: Config, s: State, st: Step)
    requires Enabled(cf, s, st) && st.LookAgain? && Frame(s, Find(cf, s, st), st.h)
    ensures Fewer(s, Find(cf, s, st), st.h)
  {
    assert |s.crew.Keys| > 0;
    LookRest(cf, s, st);
    LookRank(cf, s, st, |s.crew.Keys|);
  }

  // Nothing changes but where the marker h is.
  predicate Moved(s: State, s2: State, h: int) {
    && s2.stack == s.stack && s2.first == s.first && s2.marked == s.marked && h in s.crew && h in s2.crew
    && Entries(s2.crew[h]) == Entries(s.crew[h]) && Todo(s2.crew[h]) == Todo(s.crew[h]) && !s2.crew[h].pc.Unmarked?
  }

  lemma LookRest(cf: Config, s: State, st: Step)
    requires Enabled(cf, s, st) && st.LookAgain?
    ensures Moved(s, Find(cf, s, st), st.h)
  {
  }

  lemma LookRank(cf: Config, s: State, st: Step, n: nat)
    requires Enabled(cf, s, st) && st.LookAgain?
    ensures Rank(Find(cf, s, st).crew[st.h], s.first, |s.stack|, n) + n < Rank(s.crew[st.h], s.first, |s.stack|, n)
  {
  }

  lemma StealBetter(cf: Config, s: State, st: Step)
    requires Enabled(cf, s, st) && (st.NextEntry? || st.ClearEntry?) && DeadAt(s, st.h) && FreshAt(s, st.h)
    requires Frame(s, Find(cf, s, st), st.h) && WakesNone(s, Find(cf, s, st))
    ensures var s2 := Find(cf, s, st); Pos(s.crew[st.h]) < Pos(s2.crew[st.h]) || Fewer(s, s2, st.h)
  {
  }

  lemma MarkBetter(cf: Config, s: State, st: Step)
    requires Enabled(cf, s, st) && Marks(st) && LocalOk(cf, s, st.h)
    requires Frame(s, Mark(cf, s, st), st.h) && WakesNone(s, Mark(cf, s, st))
    ensures var s2 := Mark(cf, s, st); MarksOne(s, s2, st.h) || Fewer(s, s2, st.h)
  {
    if st.Visit? {
      VisitBetter(cf, s, st);
    } else if st.Push? {
      PushBetter(cf, s, st);
    } else if st.SetMark? {
      assert MarksOne(s, Mark(cf, s, st), st.h);
    } else {
      ScanBetter(cf, s, st);
    }
  }

  lemma VisitBetter(cf: Config, s: State, st: Step)
    requires Enabled(cf, s, st) && st.Visit? && Frame(s, Mark(cf, s, st), st.h) && WakesNone(s, Mark(cf, s, st))
    ensures Fewer(s, Mark(cf, s, st), st.h)
  {
  }

  lemma PushBetter(cf: Config, s: State, st: Step)
    requires Enabled(cf, s, st) && st.Push? && LocalOk(cf, s, st.h) && Frame(s, Mark(cf, s, st), st.h)
    ensures Fewer(s, Mark(cf, s, st), st.h)
  {
  }

  lemma ScanBetter(cf: Config, s: State, st: Step)
    requires Enabled(cf, s, st) && (st.Pop? || st.EndScan?)
    requires Frame(s, Mark(cf, s, st), st.h) && WakesNone(s, Mark(cf, s, st))
    ensures Fewer(s, Mark(cf, s, st), st.h)
  {
  }

  lemma ReturnBetter(cf: Config, s: State, st: Step)
    requires Enabled(cf, s, st) && (st.Rest? || st.Share?)
    requires Frame(s, Leave(cf, s, st), st.h) && WakesNone(s, Leave(cf, s, st))
    ensures var s2 := Leave(cf, s, st); |s.stack| < |s2.stack| || Fewer(s, s2, st.h)
  {
  }

  lemma WakeBetter(cf: Config, s: State, st: Step)
    requires Enabled(cf, s, st) && st.WakeAll? && Frame(s, Leave(cf, s, st), st.h)
    ensures Fewer(s, Leave(cf, s, st), st.h)
  {
    assert |s.crew.Keys| > 0;
  }

  lemma SettleBetter(cf: Config, s: State, st: Step)
    requires Enabled(cf, s, st) && st.Settle? && Frame(s, Leave(cf, s, st), st.h) && WakesNone(s, Leave(cf, s, st))
    ensures Fewer(s, Leave(cf, s, st), st.h)
  {
    SettleRest(cf, s, st);
    SettleRank(cf, s, st, |s.crew.Keys|);
  }

  lemma SettleRest(cf: Config, s: State, st: Step)
    requires Enabled(cf, s, st) && st.Settle?
    ensures Moved(s, Leave(cf, s, st), st.h)
  {
  }

  lemma SettleRank(cf: Config, s: State, st: Step, n: nat)
    requires Enabled(cf, s, st) && st.Settle?
    ensures Rank(Leave(cf, s, st).crew[st.h], s.first, |s.stack|, n) < Rank(s.crew[st.h], s.first, |s.stack|, n)
  {
  }

  lemma StepBetter(cf: Config, s: State, st: Step, all: set<int>, room: nat)
    requires Going(cf, s, all, room) && Enabled(cf, s, st) && st != Return
    ensures Better(s, Apply(cf, s, st), st.h, room)
  {
    FrameStep(cf, s, st);
    OnwardStep(cf, s, st, all, room);
    if !Wakes(st) { NoneWoken(cf, s, st); }
    assert LocalOk(cf, s, st.h) && DeadAt(s, st.h) && FreshAt(s, st.h);
    if st.Join? || st.ReadFirst? || st.SyncFirst? {
      ReadBetter(cf, s, st);
    } else if st.LoadTop? {
      LoadBetter(cf, s, st);
    } else if st.LookAgain? {
      LookBetter(cf, s, st);
    } else if Indexes(st) {
      StealBetter(cf, s, st);
    } else if Marks(st) {
      MarkBetter(cf, s, st);
    } else if st.Rest? || st.Share? {
      ReturnBetter(cf, s, st);
    } else if st.WakeAll? {
      WakeBetter(cf, s, st);
    } else {
      SettleBetter(cf, s, st);
    }
  }

  // Every step leaves less to be done.
  lemma StepLess(cf: Config, s: State, st: Step, all: set<int>, room: nat)
    requires Going(cf, s, all, room) && Enabled(cf, s, st)
    ensures Going(cf, Apply(cf, s, st), all, room)
    ensures Less(WorkOf(Apply(cf, s, st), all, room), WorkOf(s, all, room))
  {
    GoingStep(cf, s, st, all, room);
    if st != Return {
      StepBetter(cf, s, st, all, room);
      assert MarkerInside(s.crew[st.h], all);
      BetterIsLess(s, Apply(cf, s, st), st.h, all, room);
    }
  }

  // ---------------------------------------------------------------------
  // The theorem.

  // From a member that is fine and not the last, it goes on to one that is fine and less.
  predicate Descends(works: nat -> Work, fine: nat -> bool, last: nat -> bool, k: nat) {
    fine(k) && !last(k) ==> fine(k + 1) && Less(works(k + 1), works(k))
  }

  // What goes down at every step comes to an end.
  lemma {:induction false} Descent(works: nat -> Work, fine: nat -> bool, last: nat -> bool, i: nat) returns (j: nat)
    requires fine(i) && forall k: nat {:trigger Descends(works, fine, last, k)} :: Descends(works, fine, last, k)
    ensures i <= j && last(j) && forall k: nat :: i <= k < j ==> !last(k)
    decreases works(i).room, works(i).ahead, works(i).unmarked, works(i).entries, works(i).todo, works(i).steps
  {
    if last(i) {
      j := i;
    } else {
      assert Descends(works, fine, last, i);
      j := Descent(works, fine, last, i + 1);
    }
  }

  // A run goes on until the collector has returned.
  ghost predicate GoesOn(cf: Config, run: nat -> State, i: nat) { run(i).returned || Next(cf, run(i), run(i + 1)) }

  lemma LessNext(cf: Config, s: State, s2: State, all: set<int>, room: nat)
    requires Going(cf, s, all, room) && Next(cf, s, s2)
    ensures Going(cf, s2, all, room) && Less(WorkOf(s2, all, room), WorkOf(s, all, room))
  {
    var st :| Enabled(cf, s, st) && s2 == Apply(cf, s, st);
    StepLess(cf, s, st, all, room);
  }

  lemma Ends(cf: Config, run: nat -> State, all: set<int>, room: nat) returns (j: nat)
    requires Going(cf, run(0), all, room)
    requires forall k: nat {:trigger GoesOn(cf, run, k)} :: GoesOn(cf, run, k)
    ensures run(j).returned && forall k: nat :: k < j ==> !run(k).returned
  {
    var works: nat -> Work := (k: nat) => WorkOf(run(k), all, room);
    var fine: nat -> bool := (k: nat) => Going(cf, run(k), all, room);
    var last: nat -> bool := (k: nat) => run(k).returned;
    forall k: nat ensures Descends(works, fine, last, k) {
      assert GoesOn(cf, run, k);
      if fine(k) && !last(k) { LessNext(cf, run(k), run(k + 1), all, room); }
    }
    j := Descent(works, fine, last, 0);
    forall k: nat | k < j ensures !run(k).returned { assert !last(k); }
  }

  // However the steps interleave, the collector returns, and then nothing is left to be
  // done: unless the mark state is invalid, exactly what is reachable is marked.
  lemma MarkingEnds(cf: Config, run: nat -> State, all: set<int>) returns (j: nat)
    requires Init(cf, run(0)) && EdgeClosed(Edge(cf), all) && run(0).marked <= all
    requires forall k: nat {:trigger GoesOn(cf, run, k)} :: GoesOn(cf, run, k)
    ensures run(j).returned && Quiet(run(j)) && forall k: nat :: k < j ==> !run(k).returned
    ensures run(j).marked <= Reached(Edge(cf), run(0).marked, all)
    ensures run(j).invalid || run(j).marked == Reached(Edge(cf), run(0).marked, all)
  {
    var room := |run(0).stack| + cf.stackSize;
    StartGoing(cf, run(0), all, room);
    j := Ends(cf, run, all, room);
    var ss := seq(j + 1, k requires 0 <= k <= j => run(k));
    forall k | 0 <= k < j ensures Next(cf, ss[k], ss[k + 1]) { assert GoesOn(cf, run, k); }
    MarkingIsDone(cf, ss, j, all);
  }

  lemma StartGoing(cf: Config, s: State, all: set<int>, room: nat)
    requires Init(cf, s) && EdgeClosed(Edge(cf), all) && s.marked <= all
    requires |s.stack| <= room && cf.stackSize <= room
    ensures Going(cf, s, all, room)
  {
    InitInv(cf, s);
    forall h ensures FreshAt(s, h) {}
    assert CrewInside(s, all) && StackInside(s, all);
  }
}
