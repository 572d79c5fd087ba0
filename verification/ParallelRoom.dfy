// How large the stacks of the parallel marker have to be. A run is invalid only if an
// entry was dropped for want of room, and there are sizes at which none ever is.
module ParallelRoom {
  import opened Graphs
  import opened ParallelEnds
  import opened ParallelMark
  import opened Sets

  // ---------------------------------------------------------------------
  // When a step makes the state invalid, and what a return does otherwise.

  // What a step returns to the global stack.
  function Given(s: State, st: Step): seq<int> {
    match st
    case Rest(h) => if h in s.crew then s.crew[h].local else []
    case Share(h) => if h in s.crew && s.crew[h].local != [] then s.crew[h].local[..(|s.crew[h].local| - 1) / 2] else []
    case _ => []
  }

  // The global stack cannot take what is returned, or a marker's own stack what is pushed.
  predicate NoRoom(cf: Config, s: State, st: Step) {
    || (Given(s, st) != [] && |s.stack| + |Given(s, st)| > cf.stackSize)
    || (st.Push? && st.h in s.crew && |s.crew[st.h].local| >= cf.localSize)
  }

  // A step makes the state invalid exactly if there is no room.
  lemma InvalidWhen(cf: Config, s: State, st: Step)
    requires Enabled(cf, s, st)
    ensures Apply(cf, s, st).invalid <==> s.invalid || NoRoom(cf, s, st)
  {
    if Indexes(st) {
      FindKeepsValid(cf, s, st);
    } else if Marks(st) {
      MarkInvalid(cf, s, st);
    } else {
      LeaveInvalid(cf, s, st);
    }
  }

  lemma FindKeepsValid(cf: Config, s: State, st: Step)
    requires Enabled(cf, s, st) && Indexes(st)
    ensures Find(cf, s, st).invalid == s.invalid
  {
  }

  lemma MarkInvalid(cf: Config, s: State, st: Step)
    requires Enabled(cf, s, st) && Marks(st)
    ensures Mark(cf, s, st).invalid <==> s.invalid || NoRoom(cf, s, st)
  {
  }

  lemma LeaveInvalid(cf: Config, s: State, st: Step)
    requires Enabled(cf, s, st) && !Indexes(st) && !Marks(st)
    ensures Leave(cf, s, st).invalid <==> s.invalid || NoRoom(cf, s, st)
  {
  }

  // What is returned and fits waits on the global stack, on top of what was there, and
  // the marker keeps the rest.
  lemma ReturnedWaits(cf: Config, s: State, st: Step)
    requires Enabled(cf, s, st) && (st.Rest? || st.Share?) && !NoRoom(cf, s, st)
    ensures var s2, xs := Apply(cf, s, st), Given(s, st);
      && s.stack <= s2.stack && |s2.stack| == |s.stack| + |xs|
      && (forall j :: 0 <= j < |xs| ==> Waits(cf, s2, xs[j], OnStack(|s.stack| + j)))
      && st.h in s2.crew && xs + s2.crew[st.h].local == s.crew[st.h].local
  {
    var s2, xs := Leave(cf, s, st), Given(s, st);
    assert s2.stack == s.stack + Slots(xs);
    forall j | 0 <= j < |xs| ensures Waits(cf, s2, xs[j], OnStack(|s.stack| + j)) {
      assert s2.stack[|s.stack| + j] == Slots(xs)[j];
    }
  }

  // ---------------------------------------------------------------------
  // A marker's own stack. It steals a handful of entries when it is empty, and pushes
  // each object at most once.

  const HANDFUL: nat := ENTRIES_TO_GET + 1

  ghost predicate OwnFits(s: State, h: int, all: set<int>, cap: nat) {
    h in s.crew ==>
      var m := s.crew[h];
      && (m.pc.Steal? ==> |m.local| <= m.pc.i && |m.local| <= HANDFUL && m.pc.max <= ENTRIES_TO_GET)
      && (m.pc.Taken? ==> |m.local| <= m.pc.i <= m.pc.max <= ENTRIES_TO_GET)
      && Entries(m) + Again(m, s.marked) + |all - s.marked| <= cap
  }

  ghost predicate OwnsFit(s: State, all: set<int>, cap: nat) {
    && HANDFUL + |all - s.marked| <= cap
    && forall h {:trigger OwnFits(s, h, all, cap)} :: OwnFits(s, h, all, cap)
  }

  lemma OwnFind(cf: Config, s: State, st: Step, all: set<int>, cap: nat)
    requires Enabled(cf, s, st) && Indexes(st) && OwnFits(s, st.h, all, cap) && LocalOk(cf, s, st.h)
    requires HANDFUL + |all - s.marked| <= cap
    ensures OwnFits(Find(cf, s, st), st.h, all, cap)
  {
    if st.NextEntry? || st.ClearEntry? { OwnSteal(cf, s, st, all, cap); }
  }

  lemma OwnSteal(cf: Config, s: State, st: Step, all: set<int>, cap: nat)
    requires Enabled(cf, s, st) && (st.NextEntry? || st.ClearEntry?) && OwnFits(s, st.h, all, cap)
    requires HANDFUL + |all - s.marked| <= cap
    ensures OwnFits(Find(cf, s, st), st.h, all, cap)
  {
  }

  lemma LessOne<T>(a: set<T>, m: set<T>, c: T)
    ensures |a - (m + {c})| == |a - m| - (if c in a && c !in m then 1 else 0)
  {
    if c in a && c !in m {
      assert a - m == (a - (m + {c})) + {c};
    } else {
      assert a - m == a - (m + {c});
    }
  }

  lemma OwnMark(cf: Config, s: State, st: Step, all: set<int>, cap: nat)
    requires Enabled(cf, s, st) && Marks(st) && OwnFits(s, st.h, all, cap) && MarkerInside(s.crew[st.h], all)
    requires cap <= cf.localSize
    ensures OwnFits(Mark(cf, s, st), st.h, all, cap) && !NoRoom(cf, s, st)
  {
    if st.SetMark? { LessOne(all, s.marked, s.crew[st.h].pc.c); }
  }

  // It goes on with no more entries than it has.
  predicate NoMore(s: State, s2: State, h: int) {
    && h in s.crew && h in s2.crew && s2.marked == s.marked
    && Entries(s2.crew[h]) <= Entries(s.crew[h]) && !s2.crew[h].pc.Unmarked?
    && !s2.crew[h].pc.Steal? && !s2.crew[h].pc.Taken?
  }

  lemma LeaveNoMore(cf: Config, s: State, st: Step)
    requires Enabled(cf, s, st) && !Indexes(st) && !Marks(st) && st != Return
    ensures NoMore(s, Leave(cf, s, st), st.h)
  {
    if st.Rest? || st.Share? { ReturnNoMore(cf, s, st); }
  }

  lemma ReturnNoMore(cf: Config, s: State, st: Step)
    requires Enabled(cf, s, st) && (st.Rest? || st.Share?)
    ensures NoMore(s, Leave(cf, s, st), st.h)
  {
  }

  // What the others do leaves no less room.
  lemma OwnStays(s: State, s2: State, h: int, all: set<int>, cap: nat)
    requires OwnFits(s, h, all, cap) && Untouched(s, s2, h)
    requires h in s.crew ==> MarkerInside(s.crew[h], all)
    requires s2.marked == s.marked || exists c :: s2.marked == s.marked + {c}
    ensures OwnFits(s2, h, all, cap)
  {
    if s2.marked != s.marked {
      var c :| s2.marked == s.marked + {c};
      LessOne(all, s.marked, c);
    }
  }

  // At most one more object is marked.
  lemma MarksOneMore(cf: Config, s: State, st: Step)
    requires Enabled(cf, s, st)
    ensures var s2 := Apply(cf, s, st); s2.marked == s.marked || (exists c :: s2.marked == s.marked + {c})
  {
    if Marks(st) {
      if st.SetMark? { assert Mark(cf, s, st).marked == s.marked + {s.crew[st.h].pc.c}; }
    }
  }

  lemma OwnStep(cf: Config, s: State, st: Step, all: set<int>, cap: nat)
    requires Inv(cf, s) && Inside(s, all) && Enabled(cf, s, st) && OwnsFit(s, all, cap) && cap <= cf.localSize
    ensures OwnsFit(Apply(cf, s, st), all, cap)
    ensures !(st.Push? && NoRoom(cf, s, st))
  {
    var s2 := Apply(cf, s, st);
    MarksOneMore(cf, s, st);
    if s2.marked != s.marked {
      var c :| s2.marked == s.marked + {c};
      LessOne(all, s.marked, c);
    }
    forall h ensures OwnFits(s2, h, all, cap) {
      assert OwnFits(s, h, all, cap) && LocalOk(cf, s, h);
      if st == Return || h != st.h {
        Others(cf, s, st, h);
        OwnStays(s, s2, h, all, cap);
      } else {
        OwnOwn(cf, s, st, all, cap);
      }
    }
    if st.Push? { assert OwnFits(s, st.h, all, cap); }
  }

  lemma OwnOwn(cf: Config, s: State, st: Step, all: set<int>, cap: nat)
    requires Enabled(cf, s, st) && st != Return && LocalOk(cf, s, st.h) && OwnFits(s, st.h, all, cap)
    requires HANDFUL + |all - s.marked| <= cap <= cf.localSize && st.h in s.crew && MarkerInside(s.crew[st.h], all)
    ensures OwnFits(Apply(cf, s, st), st.h, all, cap)
  {
    if Indexes(st) {
      OwnFind(cf, s, st, all, cap);
    } else if Marks(st) {
      OwnMark(cf, s, st, all, cap);
    } else {
      LeaveNoMore(cf, s, st);
    }
  }

  // ---------------------------------------------------------------------
  // The global stack. Its slots are not used again in a run, so it has to hold all that
  // is ever returned. Between two returns a marker scans an entry, and of those there are
  // no more than there were at the start, are pushed, or are stolen twice: two markers
  // may both read an entry before either has cleared it.

  ghost function Live(stack: seq<Slot>): nat {
    if stack == [] then 0 else Live(stack[..|stack| - 1]) + if stack[|stack| - 1].live then 1 else 0
  }

  lemma {:induction false} LiveMore(stack: seq<Slot>, xs: seq<int>)
    ensures Live(stack + Slots(xs)) == Live(stack) + |xs|
  {
    var whole := stack + Slots(xs);
    if xs == [] {
      assert whole == stack;
    } else {
      var init := xs[..|xs| - 1];
      LiveMore(stack, init);
      assert whole[..|whole| - 1] == stack + Slots(init);
    }
  }

  lemma {:induction false} LiveCleared(stack: seq<Slot>, p: nat, x: int)
    requires p < |stack|
    ensures Live(stack[p := Slot(x, false)]) == Live(stack) - (if stack[p].live then 1 else 0)
    decreases |stack|
  {
    var stack2, last := stack[p := Slot(x, false)], |stack| - 1;
    if p == last {
      assert stack2[..last] == stack[..last];
    } else {
      LiveCleared(stack[..last], p, x);
      assert stack2[..last] == stack[..last][p := Slot(x, false)];
    }
  }

  // Clearing an entry that another marker has taken.
  predicate TakenTwice(s: State, st: Step) {
    st.ClearEntry? && At(s, st.h).Taken? && At(s, st.h).p < |s.stack| && !s.stack[At(s, st.h).p].live
  }

  // The entries there are and those that may still be pushed.
  ghost function Stock(s: State, all: set<int>): nat { Live(s.stack) + Total(s.crew, Entries) + ToMark(s, all) }

  // It has scanned an entry since it last returned any.
  function Credit(m: Marker): nat {
    if m.pc.Scanning? || m.pc.Unmarked? || m.pc.Marked? || m.pc == Working(true) then 1 else 0
  }

  lemma CreditLess(s: State, s2: State, h: int)
    requires Frame(s, s2, h)
    ensures Total(s2.crew, Credit) <= Total(s.crew, Credit) - Credit(s.crew[h]) + Credit(s2.crew[h])
  {
    forall t | t in s.crew && t != h ensures AtMost(s.crew, Credit, s2.crew, Credit, 0, t) {
      assert Untouched(s, s2, t);
    }
    TotalBut(s.crew, Credit, s2.crew, Credit, 0, h);
  }

  lemma PartOfTotal(crew: map<int, Marker>, f: Marker -> nat, h: int)
    requires h in crew
    ensures f(crew[h]) <= Total(crew, f)
  {
    SumSplit(crew, crew.Keys, f, h);
  }

  // Nothing is marked; with what the marker h gains and loses the stock does not grow.
  lemma StockSame(s: State, s2: State, h: int, all: set<int>)
    requires Frame(s, s2, h) && s2.marked == s.marked && Again(s2.crew[h], s.marked) <= Again(s.crew[h], s.marked)
    ensures Stock(s2, all) - Live(s2.stack) <=
              Stock(s, all) - Live(s.stack) - Entries(s.crew[h]) + Entries(s2.crew[h])
    ensures Total(s2.crew, Credit) <= Total(s.crew, Credit) - Credit(s.crew[h]) + Credit(s2.crew[h])
  {
    EntriesLess(s, s2, h);
    SameMarks(s, s2, h);
    CreditLess(s, s2, h);
  }

  // A step that finds entries marks nothing and returns nothing.
  predicate Finds(s: State, s2: State, h: int) {
    && h in s.crew && h in s2.crew && s2.marked == s.marked
    && Again(s2.crew[h], s.marked) <= Again(s.crew[h], s.marked) && Credit(s2.crew[h]) <= Credit(s.crew[h])
  }

  lemma FindFinds(cf: Config, s: State, st: Step)
    requires Enabled(cf, s, st) && Indexes(st) && !st.ClearEntry? && LocalOk(cf, s, st.h)
    ensures var s2 := Find(cf, s, st);
            Finds(s, s2, st.h) && s2.stack == s.stack && Entries(s2.crew[st.h]) == Entries(s.crew[st.h])
  {
    if st.NextEntry? { NextFinds(cf, s, st); }
  }

  lemma NextFinds(cf: Config, s: State, st: Step)
    requires Enabled(cf, s, st) && st.NextEntry?
    ensures var s2 := Find(cf, s, st);
            Finds(s, s2, st.h) && s2.stack == s.stack && Entries(s2.crew[st.h]) == Entries(s.crew[st.h])
  {
  }

  lemma ClearFinds(cf: Config, s: State, st: Step)
    requires Enabled(cf, s, st) && st.ClearEntry?
    ensures var s2, p := Find(cf, s, st), s.crew[st.h].pc.p;
      && Finds(s, s2, st.h) && Entries(s2.crew[st.h]) == Entries(s.crew[st.h]) + 1
      && s2.stack == s.stack[p := Slot(s.stack[p].obj, false)]
  {
  }

  lemma StockFind(cf: Config, s: State, st: Step, all: set<int>)
    requires Enabled(cf, s, st) && Indexes(st) && LocalOk(cf, s, st.h) && Frame(s, Find(cf, s, st), st.h)
    ensures var s2 := Find(cf, s, st);
      && |s2.stack| == |s.stack| && Total(s2.crew, Credit) <= Total(s.crew, Credit)
      && Stock(s2, all) <= Stock(s, all) + if TakenTwice(s, st) then 1 else 0
  {
    var s2 := Find(cf, s, st);
    if st.ClearEntry? {
      var p := s.crew[st.h].pc.p;
      ClearFinds(cf, s, st);
      LiveCleared(s.stack, p, s.stack[p].obj);
    } else {
      FindFinds(cf, s, st);
    }
    StockSame(s, s2, st.h, all);
  }

  // Marking from its own stack the marker uses up what it scans.
  predicate Scans(s: State, s2: State, h: int) {
    && h in s.crew && h in s2.crew && s2.marked == s.marked && s2.stack == s.stack
    && Again(s2.crew[h], s.marked) <= Again(s.crew[h], s.marked) && Entries(s2.crew[h]) <= Entries(s.crew[h])
    && Entries(s2.crew[h]) + Credit(s2.crew[h]) <= Entries(s.crew[h]) + Credit(s.crew[h])
  }

  lemma MarkScans(cf: Config, s: State, st: Step)
    requires Enabled(cf, s, st) && Marks(st) && !st.SetMark? && !NoRoom(cf, s, st)
    ensures Scans(s, Mark(cf, s, st), st.h)
  {
  }

  lemma StockMark(cf: Config, s: State, st: Step, all: set<int>)
    requires Enabled(cf, s, st) && Marks(st) && !NoRoom(cf, s, st) && Frame(s, Mark(cf, s, st), st.h)
    requires MarkerInside(s.crew[st.h], all)
    ensures var s2 := Mark(cf, s, st);
      && s2.stack == s.stack && Stock(s2, all) <= Stock(s, all)
      && Stock(s2, all) + Total(s2.crew, Credit) <= Stock(s, all) + Total(s.crew, Credit)
  {
    var s2 := Mark(cf, s, st);
    if st.SetMark? {
      assert MarksOne(s, s2, st.h);
      MarkLess(s, s2, st.h, all);
      EntriesLess(s, s2, st.h);
      CreditLess(s, s2, st.h);
    } else {
      MarkScans(cf, s, st);
      StockSame(s, s2, st.h, all);
    }
  }

  // A return moves entries and uses up the credit of the marker.
  lemma ReturnMoves(cf: Config, s: State, st: Step)
    requires Enabled(cf, s, st) && (st.Rest? || st.Share?) && !NoRoom(cf, s, st)
    ensures var s2, xs := Leave(cf, s, st), Given(s, st);
      && st.h in s.crew && st.h in s2.crew && s2.stack == s.stack + Slots(xs) && s2.marked == s.marked
      && Entries(s2.crew[st.h]) + |xs| == Entries(s.crew[st.h])
      && Credit(s2.crew[st.h]) == 0 && (xs != [] ==> Credit(s.crew[st.h]) == 1) && !s2.crew[st.h].pc.Unmarked?
  {
    if Given(s, st) == [] { assert s.stack + Slots(Given(s, st)) == s.stack; }
  }

  lemma ElseKeeps(cf: Config, s: State, st: Step)
    requires Enabled(cf, s, st) && (st.WakeAll? || st.Settle?)
    ensures var s2 := Leave(cf, s, st);
      && st.h in s.crew && st.h in s2.crew && s2.stack == s.stack && s2.marked == s.marked
      && Entries(s2.crew[st.h]) == Entries(s.crew[st.h]) && Credit(s2.crew[st.h]) == 0
      && !s2.crew[st.h].pc.Unmarked?
  {
  }

  lemma StockLeave(cf: Config, s: State, st: Step, all: set<int>)
    requires Enabled(cf, s, st) && !Indexes(st) && !Marks(st) && st != Return && !NoRoom(cf, s, st)
    requires Frame(s, Leave(cf, s, st), st.h)
    ensures var s2, k := Leave(cf, s, st), |Given(s, st)|;
      && |s2.stack| == |s.stack| + k && Stock(s2, all) <= Stock(s, all)
      && Total(s2.crew, Credit) + (if k > 0 then 1 else 0) <= Total(s.crew, Credit)
  {
    var s2 := Leave(cf, s, st);
    if st.Rest? || st.Share? {
      ReturnMoves(cf, s, st);
      LiveMore(s.stack, Given(s, st));
    } else {
      ElseKeeps(cf, s, st);
    }
    StockSame(s, s2, st.h, all);
  }

  // With most entries at any time, and twice of them still to be stolen twice, room slots
  // are enough for what is still returned.
  ghost predicate Enough(s: State, all: set<int>, most: nat, twice: nat, room: nat) {
    && Stock(s, all) + twice <= most
    && |s.stack| + most * (Stock(s, all) + Total(s.crew, Credit) + twice) <= room
  }

  lemma Scaled(most: nat, a: nat, b: nat)
    requires a <= b
    ensures most * a <= most * b
  {
  }

  lemma GivenFits(s: State, st: Step, all: set<int>, most: nat, twice: nat, room: nat)
    requires Enough(s, all, most, twice, room) && Given(s, st) != []
    requires st.h in s.crew && Credit(s.crew[st.h]) == 1
    ensures |s.stack| + |Given(s, st)| <= room
  {
    PartOfTotal(s.crew, Entries, st.h);
    PartOfTotal(s.crew, Credit, st.h);
    Scaled(most, 1, Stock(s, all) + Total(s.crew, Credit) + twice);
  }

  lemma RoomAfter(most: nat, stack: nat, given: nat, stock: nat, credit: nat, stack2: nat, stock2: nat, credit2: nat,
        room: nat)
    requires stack + most * (stock + credit) <= room && stack2 == stack + given && given <= most
    requires stock2 + credit2 + (if given > 0 then 1 else 0) <= stock + credit
    ensures stack2 + most * (stock2 + credit2) <= room
  {
    var k := if given > 0 then 1 else 0;
    Scaled(most, stock2 + credit2 + k, stock + credit);
    assert most * (stock2 + credit2 + k) == most * (stock2 + credit2) + most * k;
  }

  // What a step takes of the room: it returns given entries, and more is 1 if it steals
  // an entry that was stolen already.
  ghost predicate Uses(s: State, s2: State, all: set<int>, given: nat, more: nat) {
    && |s2.stack| == |s.stack| + given && given <= Stock(s, all) && Stock(s2, all) <= Stock(s, all) + more
    && Stock(s2, all) + Total(s2.crew, Credit) + (if given > 0 then 1 else 0) <=
         Stock(s, all) + Total(s.crew, Credit) + more
  }

  lemma StepUses(cf: Config, s: State, st: Step, all: set<int>)
    requires Enabled(cf, s, st) && !NoRoom(cf, s, st) && st != Return
    requires Frame(s, Apply(cf, s, st), st.h) && LocalOk(cf, s, st.h) && MarkerInside(s.crew[st.h], all)
    ensures Uses(s, Apply(cf, s, st), all, |Given(s, st)|, if TakenTwice(s, st) then 1 else 0)
  {
    if Indexes(st) {
      StockFind(cf, s, st, all);
    } else if Marks(st) {
      StockMark(cf, s, st, all);
    } else {
      StockLeave(cf, s, st, all);
      PartOfTotal(s.crew, Entries, st.h);
      if st.Rest? || st.Share? { ReturnMoves(cf, s, st); }
    }
  }

  lemma UsedUp(s: State, s2: State, all: set<int>, given: nat, more: nat, most: nat, twice: nat, room: nat)
    requires Enough(s, all, most, twice, room) && Uses(s, s2, all, given, more) && more <= twice
    ensures Enough(s2, all, most, twice - more, room)
  {
    RoomAfter(most, |s.stack|, given, Stock(s, all) + twice, Total(s.crew, Credit), |s2.stack|,
              Stock(s2, all) + (twice - more), Total(s2.crew, Credit), room);
  }

  lemma EnoughStep(cf: Config, s: State, st: Step, all: set<int>, most: nat, twice: nat, room: nat)
    requires Inv(cf, s) && Inside(s, all) && Enabled(cf, s, st) && !NoRoom(cf, s, st)
    requires Enough(s, all, most, twice, room) && (TakenTwice(s, st) ==> twice > 0)
    ensures Enough(Apply(cf, s, st), all, most, if TakenTwice(s, st) then twice - 1 else twice, room)
  {
    if st != Return {
      assert LocalOk(cf, s, st.h);
      FrameStep(cf, s, st);
      assert MarkerInside(s.crew[st.h], all);
      StepUses(cf, s, st, all);
      UsedUp(s, Apply(cf, s, st), all, |Given(s, st)|, if TakenTwice(s, st) then 1 else 0, most, twice, room);
    } else {
      assert Stock(Apply(cf, s, st), all) == Stock(s, all);
    }
  }

  // ---------------------------------------------------------------------
  // The theorems.

  // A run with its steps.
  ghost predicate Steps(cf: Config, ss: seq<State>, sts: seq<Step>) {
    && |ss| == |sts| + 1 && Init(cf, ss[0])
    && forall i {:trigger StepAt(cf, ss, sts, i)} :: 0 <= i < |sts| ==> StepAt(cf, ss, sts, i)
  }

  predicate StepAt(cf: Config, ss: seq<State>, sts: seq<Step>, i: int)
    requires 0 <= i < |sts| == |ss| - 1
  {
    Enabled(cf, ss[i], sts[i]) && ss[i + 1] == Apply(cf, ss[i], sts[i])
  }

  // A run is invalid if and only if at some step there was no room.
  lemma {:induction false} InvalidRun(cf: Config, ss: seq<State>, sts: seq<Step>, i: nat)
    requires Steps(cf, ss, sts) && i < |ss|
    ensures ss[i].invalid <==> exists k :: 0 <= k < i && NoRoom(cf, ss[k], sts[k])
  {
    if i > 0 {
      InvalidRun(cf, ss, sts, i - 1);
      assert StepAt(cf, ss, sts, i - 1);
      InvalidWhen(cf, ss[i - 1], sts[i - 1]);
    }
  }

  // How often in the first i steps an entry is stolen that was stolen already.
  function StolenTwice(ss: seq<State>, sts: seq<Step>, i: nat): nat
    requires i <= |sts| <= |ss|
  {
    if i == 0 then 0 else StolenTwice(ss, sts, i - 1) + if TakenTwice(ss[i - 1], sts[i - 1]) then 1 else 0
  }

  lemma {:induction false} StolenGrows(ss: seq<State>, sts: seq<Step>, i: nat, j: nat)
    requires i <= j <= |sts| <= |ss|
    ensures StolenTwice(ss, sts, i) <= StolenTwice(ss, sts, j)
  {
    if i < j { StolenGrows(ss, sts, i, j - 1); }
  }

  // The entries at the start, those that may be pushed, by every marker once, and those
  // stolen twice.
  ghost function Most(s: State, all: set<int>, twice: nat): nat {
    Live(s.stack) + |s.crew.Keys| * |all - s.marked| + twice
  }

  // Stacks that are large enough for every run in which at most twice entries are stolen
  // that were stolen already.
  ghost predicate LargeEnough(cf: Config, s: State, all: set<int>, twice: nat) {
    && HANDFUL + |all - s.marked| <= cf.localSize
    && |s.stack| + Most(s, all, twice) * Most(s, all, twice) <= cf.stackSize
  }

  lemma {:induction false} SumZero(crew: map<int, Marker>, ts: set<int>, f: Marker -> nat)
    requires ts <= crew.Keys && forall t :: t in ts ==> f(crew[t]) == 0
    ensures Sum(crew, ts, f) == 0
  {
    if ts != {} {
      SumSplit(crew, ts, f, AnyOf(ts));
      SumZero(crew, ts - {AnyOf(ts)}, f);
    }
  }

  lemma EnoughAtStart(cf: Config, s: State, all: set<int>, twice: nat)
    requires Init(cf, s) && LargeEnough(cf, s, all, twice)
    ensures Enough(s, all, Most(s, all, twice), twice, cf.stackSize)
    ensures OwnsFit(s, all, HANDFUL + |all - s.marked|)
  {
    SumZero(s.crew, s.crew.Keys, Entries);
    SumZero(s.crew, s.crew.Keys, Credit);
    SumZero(s.crew, s.crew.Keys, AgainOf(s.marked));
    var cap := HANDFUL + |all - s.marked|;
    forall h ensures OwnFits(s, h, all, cap) {}
  }

  // What is kept along a run with room.
  ghost predicate Roomy(cf: Config, s: State, all: set<int>, cap: nat, most: nat, twice: nat) {
    && Inv(cf, s) && Inside(s, all) && !s.invalid
    && OwnsFit(s, all, cap) && Enough(s, all, most, twice, cf.stackSize)
  }

  lemma RoomyStep(cf: Config, s: State, st: Step, s2: State, all: set<int>, cap: nat, most: nat, twice: nat, left: nat)
    requires RoomyIs(cf, s, all, cap, most, twice) && EdgeClosed(Edge(cf), all)
    requires Enabled(cf, s, st) && s2 == Apply(cf, s, st)
    requires cap <= cf.localSize && twice == left + if TakenTwice(s, st) then 1 else 0
    ensures RoomyIs(cf, s2, all, cap, most, left)
  {
    assert Roomy(cf, s, all, cap, most, twice);
    StepInv(cf, s, st);
    InsideStep(cf, s, st, all);
    OwnStep(cf, s, st, all, cap);
    if Given(s, st) != [] { GivenFits(s, st, all, most, twice, cf.stackSize); }
    InvalidWhen(cf, s, st);
    EnoughStep(cf, s, st, all, most, twice, cf.stackSize);
  }

  ghost predicate RoomyAt(cf: Config, ss: seq<State>, sts: seq<Step>, i: nat, all: set<int>, cap: nat, most: nat,
      twice: nat)
    requires |ss| == |sts| + 1 && i < |ss|
  {
    StolenTwice(ss, sts, i) <= twice && RoomyIs(cf, ss[i], all, cap, most, twice - StolenTwice(ss, sts, i))
  }

  // The same, to be looked into on demand.
  ghost predicate RoomyIs(cf: Config, s: State, all: set<int>, cap: nat, most: nat, left: nat) {
    forall t {:trigger Roomy(cf, t, all, cap, most, left)} :: t == s ==> Roomy(cf, t, all, cap, most, left)
  }

  lemma RoomyAtStart(cf: Config, s: State, all: set<int>, twice: nat)
    requires Init(cf, s) && EdgeClosed(Edge(cf), all) && s.marked <= all && LargeEnough(cf, s, all, twice)
    ensures RoomyIs(cf, s, all, HANDFUL + |all - s.marked|, Most(s, all, twice), twice)
  {
    InitInv(cf, s);
    assert CrewInside(s, all) && StackInside(s, all);
    EnoughAtStart(cf, s, all, twice);
  }

  lemma RoomyNext(cf: Config, ss: seq<State>, sts: seq<Step>, i: nat, all: set<int>, cap: nat, most: nat, twice: nat)
    requires |ss| == |sts| + 1 && 0 < i <= |sts| && RoomyAt(cf, ss, sts, i - 1, all, cap, most, twice)
    requires StepAt(cf, ss, sts, i - 1)
    requires EdgeClosed(Edge(cf), all) && cap <= cf.localSize && StolenTwice(ss, sts, i) <= twice
    ensures RoomyAt(cf, ss, sts, i, all, cap, most, twice)
  {
    var had, left := twice - StolenTwice(ss, sts, i - 1), twice - StolenTwice(ss, sts, i);
    RoomyStep(cf, ss[i - 1], sts[i - 1], ss[i], all, cap, most, had, left);
  }

  lemma {:induction false} StaysRoomy(cf: Config, ss: seq<State>, sts: seq<Step>, i: nat, all: set<int>, cap: nat,
        most: nat, twice: nat)
    requires Steps(cf, ss, sts) && i < |ss| && EdgeClosed(Edge(cf), all) && cap <= cf.localSize
    requires RoomyIs(cf, ss[0], all, cap, most, twice) && StolenTwice(ss, sts, |sts|) <= twice
    ensures RoomyAt(cf, ss, sts, i, all, cap, most, twice)
  {
    if i > 0 {
      StaysRoomy(cf, ss, sts, i - 1, all, cap, most, twice);
      assert StepAt(cf, ss, sts, i - 1);
      StolenGrows(ss, sts, i, |sts|);
      RoomyNext(cf, ss, sts, i, all, cap, most, twice);
    }
  }

  // With stacks that large no interleaving drops an entry.
  lemma RoomIsEnough(cf: Config, ss: seq<State>, sts: seq<Step>, i: nat, all: set<int>, twice: nat)
    requires Steps(cf, ss, sts) && i < |ss| && EdgeClosed(Edge(cf), all) && ss[0].marked <= all
    requires LargeEnough(cf, ss[0], all, twice) && StolenTwice(ss, sts, |sts|) <= twice
    ensures !ss[i].invalid
  {
    RoomyAtStart(cf, ss[0], all, twice);
    var cap, most := HANDFUL + |all - ss[0].marked|, Most(ss[0], all, twice);
    StaysRoomy(cf, ss, sts, i, all, cap, most, twice);
    assert Roomy(cf, ss[i], all, cap, most, twice - StolenTwice(ss, sts, i));
  }

  function States(run: nat -> State, k: nat): seq<State> { seq(k + 1, i requires 0 <= i <= k => run(i)) }

  function Chosen(steps: nat -> Step, k: nat): seq<Step> { seq(k, i requires 0 <= i < k => steps(i)) }

  ghost predicate StepsOn(cf: Config, run: nat -> State, steps: nat -> Step, k: nat) {
    run(k).returned || (Enabled(cf, run(k), steps(k)) && run(k + 1) == Apply(cf, run(k), steps(k)))
  }

  // Then every interleaving ends, and with exactly what is reachable marked.
  lemma MarksExactly(cf: Config, run: nat -> State, steps: nat -> Step, all: set<int>, twice: nat) returns (j: nat)
    requires Init(cf, run(0)) && EdgeClosed(Edge(cf), all) && run(0).marked <= all
    requires forall k: nat {:trigger StepsOn(cf, run, steps, k)} :: StepsOn(cf, run, steps, k)
    requires LargeEnough(cf, run(0), all, twice)
    requires forall k: nat {:trigger StolenTwice(States(run, k), Chosen(steps, k), k)} ::
               StolenTwice(States(run, k), Chosen(steps, k), k) <= twice
    ensures run(j).returned && Quiet(run(j)) && run(j).marked == Reached(Edge(cf), run(0).marked, all)
  {
    forall k: nat ensures GoesOn(cf, run, k) { assert StepsOn(cf, run, steps, k); }
    j := MarkingEnds(cf, run, all);
    var ss, sts := States(run, j), Chosen(steps, j);
    forall i | 0 <= i < j ensures StepAt(cf, ss, sts, i) { assert StepsOn(cf, run, steps, i); }
    RoomIsEnough(cf, ss, sts, j, all, twice);
  }
}
