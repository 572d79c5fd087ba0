// Stopping the world with signals: the collector, which holds the allocation lock, and
// the threads it suspends, as a system of steps that interleave freely. Signals are
// reliable and not retried.
module StopWorld {
  import opened Sets

  // Where a thread is. From Entered on it is in the suspend handler.
  datatype Pc =
    | Running     // in its own code
    | Entered     // the suspend signal was delivered
    | Counted     // the stop count is read
    | Stored      // its stack pointer is saved
    | Posted      // it acknowledged the stop
    | Waiting     // in sigsuspend
    | Woken       // out of sigsuspend
    | SawStopped  // it found the world stopped, and is about to compare the counts

  // One bit for each pending signal. Of its acknowledgements a thread remembers the
  // stops they were for; sp is its stack pointer, as its own code moves it.
  datatype Thread = Thread(pc: Pc, my: nat, lastStop: nat, sp: int, stackPtr: int,
                           suspend: bool, restart: bool, finished: bool, blocked: bool, acks: seq<nat>)

  // The collector, run by the thread self.
  datatype Phase =
    | Idle                                          // nobody collects
    | Begun(self: int)                              // the stop count is new
    | Sending(self: int, todo: set<int>, n: nat)    // n signals sent, threads of todo to visit
    | Barrier(self: int, left: nat)                 // acknowledgements to wait for
    | Halted(self: int)                             // the world is stopped
    | Restarting(self: int, todo: set<int>)         // threads of todo to restart

  datatype State = State(threads: map<int, Thread>, stopCount: nat, worldIsStopped: bool, sem: nat, phase: Phase)

  datatype Step =
    // A thread's own code; it blocks, unblocks, starts and finishes with the lock held.
    | Mutate(t: int, sp: int) | Block(t: int) | Unblock(t: int) | Start(t: int, sp: int) | Finish(t: int)
    | IgnoreRestart(t: int)
    // The suspend handler.
    | Deliver(t: int) | ReadCount(t: int) | Compare(t: int) | Post(t: int) | Record(t: int)
    | Wake(t: int) | WakeAnyhow(t: int) | SeeFlag(t: int) | SeeCount(t: int)
    // The collector.
    | Begin(self: int) | RaiseFlag | Send(t: int) | EndSending | Await | Return | LowerFlag | Resume(t: int)
    | EndResuming

  predicate IsOwn(st: Step) { st.Mutate? || st.Block? || st.Unblock? || st.Start? || st.Finish? }

  predicate IsHandler(st: Step) {
    st.Deliver? || st.ReadCount? || st.Compare? || st.Post? || st.Record? || st.Wake? || st.WakeAnyhow? || st.SeeFlag?
        || st.SeeCount?
  }

  predicate Live(th: Thread) { !th.finished && !th.blocked }

  predicate InHandler(th: Thread) { !th.pc.Running? }

  predicate At(s: State, t: int, pc: Pc) { t in s.threads && s.threads[t].pc == pc }

  // What a thread can do in its own code.
  predicate Free(s: State, t: int) { At(s, t, Running) && Live(s.threads[t]) && (s.phase.Idle? || t != s.phase.self) }

  predicate Enabled(s: State, st: Step) {
    match st
    case Mutate(t, _) => Free(s, t)
    case Block(t) => Free(s, t) && s.phase.Idle?
    case Unblock(t) => At(s, t, Running) && s.threads[t].blocked && !s.threads[t].finished && s.phase.Idle?
    case Start(t, _) => t !in s.threads && s.phase.Idle?
    case Finish(t) => Free(s, t) && s.phase.Idle?
    case IgnoreRestart(t) => At(s, t, Running) && s.threads[t].restart
    case Deliver(t) => At(s, t, Running) && s.threads[t].suspend
    case ReadCount(t) => At(s, t, Entered)
    case Compare(t) => At(s, t, Counted)
    case Post(t) => At(s, t, Stored)
    case Record(t) => At(s, t, Posted)
    case Wake(t) => At(s, t, Waiting) && s.threads[t].restart
    case WakeAnyhow(t) => At(s, t, Waiting)
    case SeeFlag(t) => At(s, t, Woken)
    case SeeCount(t) => At(s, t, SawStopped)
    case Begin(t) => Free(s, t) && s.phase.Idle?
    case RaiseFlag => s.phase.Begun?
    case Send(t) => s.phase.Sending? && t in s.phase.todo && t in s.threads
    case EndSending => s.phase.Sending? && s.phase.todo == {}
    case Await => s.phase.Barrier? && s.phase.left > 0 && s.sem > 0
    case Return => s.phase.Barrier? && s.phase.left == 0
    case LowerFlag => s.phase.Halted?
    case Resume(t) => s.phase.Restarting? && t in s.phase.todo && t in s.threads
    case EndResuming => s.phase.Restarting? && s.phase.todo == {}
  }

  function Put(s: State, t: int, th: Thread): State { s.(threads := s.threads[t := th]) }

  function Apply(s: State, st: Step): State
    requires Enabled(s, st)
  {
    match st
    case Mutate(t, sp) => Put(s, t, s.threads[t].(sp := sp))
    case Block(t) => Put(s, t, s.threads[t].(stackPtr := s.threads[t].sp, blocked := true))
    case Unblock(t) => Put(s, t, s.threads[t].(blocked := false))
    case Start(t, sp) => Put(s, t, Thread(Running, 0, 0, sp, sp, false, false, false, false, []))
    case Finish(t) => Put(s, t, s.threads[t].(finished := true))
    case IgnoreRestart(t) => Put(s, t, s.threads[t].(restart := false))
    case Deliver(t) => Put(s, t, s.threads[t].(pc := Entered, suspend := false))
    case ReadCount(t) => Put(s, t, s.threads[t].(pc := Counted, my := s.stopCount))
    case Compare(t) =>
      var th := s.threads[t];
      // A signal that was seen before is a duplicate.
      if th.lastStop == th.my then Put(s, t, th.(pc := Running))
      else Put(s, t, th.(pc := Stored, stackPtr := th.sp))
    case Post(t) => Put(s, t, s.threads[t].(pc := Posted,
        acks := s.threads[t].acks + [s.threads[t].my])).(sem := s.sem + 1)
    case Record(t) => Put(s, t, s.threads[t].(pc := Waiting, lastStop := s.threads[t].my))
    case Wake(t) => Put(s, t, s.threads[t].(pc := Woken, restart := false))
    case WakeAnyhow(t) => Put(s, t, s.threads[t].(pc := Woken))
    case SeeFlag(t) => Put(s, t, s.threads[t].(pc := if s.worldIsStopped then SawStopped else Running))
    case SeeCount(t) => Put(s, t, s.threads[t].(pc := if s.stopCount == s.threads[t].my then Waiting else Running))
    case Begin(t) => s.(stopCount := s.stopCount + 2, phase := Begun(t))
    case RaiseFlag => s.(worldIsStopped := true, phase := Sending(s.phase.self, s.threads.Keys - {s.phase.self}, 0))
    case Send(t) =>
      var th, todo := s.threads[t], s.phase.todo - {t};
      if !Live(th) || th.lastStop == s.stopCount then s.(phase := Sending(s.phase.self, todo, s.phase.n))
      else Put(s, t, th.(suspend := true)).(phase := Sending(s.phase.self, todo, s.phase.n + 1))
    case EndSending => s.(phase := Barrier(s.phase.self, s.phase.n))
    case Await => s.(sem := s.sem - 1, phase := Barrier(s.phase.self, s.phase.left - 1))
    case Return => s.(phase := Halted(s.phase.self))
    case LowerFlag => s.(worldIsStopped := false, phase := Restarting(s.phase.self, s.threads.Keys - {s.phase.self}))
    case Resume(t) =>
      var th, todo := s.threads[t], s.phase.todo - {t};
      if !Live(th) then s.(phase := Restarting(s.phase.self, todo))
      else Put(s, t, th.(restart := true)).(phase := Restarting(s.phase.self, todo))
    case EndResuming => s.(phase := Idle)
  }

  predicate Init(s: State) {
    && s.stopCount == 0 && !s.worldIsStopped && s.sem == 0 && s.phase.Idle?
    && forall t :: t in s.threads ==> Fresh(s.threads[t])
  }

  predicate Fresh(th: Thread) {
    th.pc.Running? && th.lastStop == 0 && th.acks == [] && !th.suspend && !th.restart && !th.blocked
  }

  // ---------------------------------------------------------------------
  // The invariant.

  // The thread has still to acknowledge the stop.
  predicate Owes(th: Thread) { th.suspend || th.pc.Entered? || th.pc.Counted? || th.pc.Stored? }

  // The thread acknowledged some stop and has not left the handler since.
  predicate Acked(th: Thread) { th.pc.Posted? || th.pc.Waiting? || th.pc.Woken? || th.pc.SawStopped? }

  // The thread acknowledged the current stop and is in the handler still.
  predicate Stopped(th: Thread, count: nat) { Acked(th) && th.my == count }

  predicate Increasing(a: seq<nat>) { forall i, j :: 0 <= i < j < |a| ==> a[i] < a[j] }

  function Top(a: seq<nat>): nat { if a == [] then 0 else a[|a| - 1] }

  // A restart has been or will be sent.
  predicate RestartDue(s: State, t: int) {
    t in s.threads && (s.threads[t].restart || (s.phase.Restarting? && t in s.phase.todo))
  }

  // The thread was visited by the stop under way.
  predicate Visited(s: State, t: int) {
    (s.phase.Sending? && t !in s.phase.todo) || s.phase.Barrier? || s.phase.Halted?
  }

  predicate Unvisited(s: State, t: int) { s.phase.Begun? || (s.phase.Sending? && t in s.phase.todo) }

  // The thread is going to sleep, or sleeps, for a stop that is over.
  predicate MustWake(s: State, th: Thread) {
    && (th.pc.Posted? || th.pc.Waiting? || (th.pc.SawStopped? && th.my == s.stopCount))
    && !(th.my == s.stopCount && s.worldIsStopped)
  }

  predicate ThreadOk(s: State, t: int) {
    t in s.threads ==>
      var th := s.threads[t];
      && th.lastStop <= s.stopCount
      && Increasing(th.acks) && Top(th.acks) == (if th.pc.Posted? then th.my else th.lastStop)
      && (th.pc.Posted? ==> th.lastStop < th.my)
      && (InHandler(th) || th.suspend ==> Live(th) && (s.phase.Idle? || t != s.phase.self))
      && (th.suspend ==> !Owes(th.(suspend := false)))
      && (Owes(th) ==> (s.phase.Sending? || s.phase.Barrier?) && Visited(s, t) && th.lastStop < s.stopCount)
      && (th.pc.Counted? || th.pc.Stored? ==> th.my == s.stopCount)
      && (th.pc.Stored? || Acked(th) ==> th.stackPtr == th.sp)
      && (Acked(th) ==> th.my <= s.stopCount && (!th.pc.Posted? ==> th.lastStop == th.my))
      && (Unvisited(s, t) ==> th.lastStop < s.stopCount && (Acked(th) ==> th.my < s.stopCount))
      && (th.suspend && Acked(th) ==> th.my < s.stopCount)
      && (Live(th) && Visited(s, t) && t != s.phase.self ==> Owes(th) || Stopped(th, s.stopCount))
      && (th.blocked ==> th.stackPtr == th.sp)
      && (MustWake(s, th) ==> RestartDue(s, t))
  }

  function Owing(s: State): set<int> { set t | t in s.threads && Owes(s.threads[t]) }

  // Acknowledgements posted and not yet waited for, and those still owed, are what the
  // collector has to wait for.
  predicate AcksOk(s: State) {
    match s.phase
    case Sending(_, _, n) => s.sem + |Owing(s)| == n
    case Barrier(_, left) => s.sem + |Owing(s)| == left
    case _ => s.sem == 0
  }

  predicate PhaseOk(s: State) {
    && s.worldIsStopped == (s.phase.Sending? || s.phase.Barrier? || s.phase.Halted?)
    && (!s.phase.Idle? ==> Free(s.(phase := Idle), s.phase.self) && s.stopCount > 0)
    && (s.phase.Sending? ==> s.phase.todo <= s.threads.Keys - {s.phase.self})
    && (s.phase.Restarting? ==> s.phase.todo <= s.threads.Keys - {s.phase.self})
  }

  ghost predicate Inv(s: State) {
    PhaseOk(s) && AcksOk(s) && forall t {:trigger ThreadOk(s, t)} :: ThreadOk(s, t)
  }

  lemma InitInv(s: State)
    requires Init(s)
    ensures Inv(s)
  {
    forall t ensures ThreadOk(s, t) { assert t in s.threads ==> Fresh(s.threads[t]); }
  }

  lemma SameThread(s: State, s2: State, t: int)
    requires ThreadOk(s, t) && s2.stopCount == s.stopCount && s2.worldIsStopped == s.worldIsStopped
             && s2.phase == s.phase
    requires t in s2.threads ==> t in s.threads && s2.threads[t] == s.threads[t]
    ensures ThreadOk(s2, t)
  {
  }

  lemma OwnInv(s: State, st: Step)
    requires Inv(s) && Enabled(s, st) && (IsOwn(st) || st.IgnoreRestart?)
    ensures Inv(Apply(s, st))
  {
    var s2 := Apply(s, st);
    forall t ensures ThreadOk(s2, t) {
      assert ThreadOk(s, t);
      if t != st.t { SameThread(s, s2, t); }
    }
    assert Owing(s2) == Owing(s);
  }

  lemma AckingThread(s: State, st: Step)
    requires IsHandler(st) && PhaseOk(s) && Enabled(s, st) && ThreadOk(s, st.t)
    requires st.Deliver? || st.ReadCount? || st.Compare? || st.Post?
    ensures ThreadOk(Apply(s, st), st.t) && (!st.Post? ==> Owes(Apply(s, st).threads[st.t]) == Owes(s.threads[st.t]))
  {
  }

  lemma HandlerThread(s: State, st: Step)
    requires PhaseOk(s) && Enabled(s, st) && IsHandler(st) && ThreadOk(s, st.t)
    ensures ThreadOk(Apply(s, st), st.t) && (!st.Post? ==> Owes(Apply(s, st).threads[st.t]) == Owes(s.threads[st.t]))
  {
    if st.Deliver? || st.ReadCount? || st.Compare? || st.Post? { AckingThread(s, st); }
  }

  lemma HandlerOwing(s: State, st: Step)
    requires Enabled(s, st) && IsHandler(st) && ThreadOk(s, st.t)
    requires !st.Post? ==> Owes(Apply(s, st).threads[st.t]) == Owes(s.threads[st.t])
    ensures Owing(Apply(s, st)) == if st.Post? then Owing(s) - {st.t} else Owing(s)
  {
  }

  lemma HandlerInv(s: State, st: Step)
    requires Inv(s) && Enabled(s, st) && IsHandler(st)
    ensures Inv(Apply(s, st))
  {
    var s2 := Apply(s, st);
    assert ThreadOk(s, st.t);
    HandlerThread(s, st);
    forall t ensures ThreadOk(s2, t) {
      assert ThreadOk(s, t);
      if t != st.t { SameThread(s, s2, t); }
    }
    HandlerOwing(s, st);
  }

  lemma CollectorThread(s: State, st: Step, t: int)
    requires PhaseOk(s) && ThreadOk(s, t) && Enabled(s, st)
             && (st.Begin? || st.RaiseFlag? || st.LowerFlag? || st.EndResuming?)
    ensures ThreadOk(Apply(s, st), t)
  {
  }

  lemma WaitingThread(s: State, st: Step, t: int)
    requires PhaseOk(s) && ThreadOk(s, t) && Enabled(s, st)
             && (st.EndSending? || st.Await? || (st.Return? && !(t in s.threads && Owes(s.threads[t]))))
    ensures ThreadOk(Apply(s, st), t)
  {
  }

  lemma SentThread(s: State, st: Step, t: int)
    requires PhaseOk(s) && ThreadOk(s, t) && Enabled(s, st) && st.Send?
    ensures ThreadOk(Apply(s, st), t)
  {
  }

  lemma ResumedThread(s: State, st: Step, t: int)
    requires PhaseOk(s) && ThreadOk(s, t) && Enabled(s, st) && st.Resume?
    ensures ThreadOk(Apply(s, st), t)
  {
  }

  lemma NobodyOwes(s: State, st: Step)
    requires Inv(s) && Enabled(s, st) && (st.RaiseFlag? || st.Return?)
    ensures Owing(s) == {}
  {
    if st.RaiseFlag? {
      forall t ensures t !in Owing(s) { assert ThreadOk(s, t); }
    }
  }

  lemma CollectorOwing(s: State, st: Step)
    requires Enabled(s, st) && !IsOwn(st) && !IsHandler(st) && !st.IgnoreRestart?
    requires st.Send? ==> ThreadOk(s, st.t) && st.t in s.phase.todo
    ensures Owing(Apply(s, st)) ==
            if st.Send? && Live(s.threads[st.t]) && s.threads[st.t].lastStop != s.stopCount then Owing(s) + {st.t}
                else Owing(s)
  {
  }

  lemma CollectorAcks(s: State, st: Step)
    requires Inv(s) && Enabled(s, st) && !IsOwn(st) && !IsHandler(st) && !st.IgnoreRestart?
    ensures AcksOk(Apply(s, st))
  {
    if st.Send? { assert ThreadOk(s, st.t); }
    if st.RaiseFlag? || st.Return? { NobodyOwes(s, st); }
    CollectorOwing(s, st);
  }

  lemma CollectorInv(s: State, st: Step)
    requires Inv(s) && Enabled(s, st) && !IsOwn(st) && !IsHandler(st) && !st.IgnoreRestart?
    ensures Inv(Apply(s, st))
  {
    if st.RaiseFlag? || st.Return? { NobodyOwes(s, st); }
    forall t ensures ThreadOk(Apply(s, st), t) {
      assert ThreadOk(s, t);
      if st.Send? {
        SentThread(s, st, t);
      } else if st.Resume? {
        ResumedThread(s, st, t);
      } else if st.EndSending? || st.Await? || st.Return? {
        assert st.Return? ==> t !in Owing(s);
        WaitingThread(s, st, t);
      } else {
        CollectorThread(s, st, t);
      }
    }
    CollectorAcks(s, st);
  }

  lemma StepInv(s: State, st: Step)
    requires Inv(s) && Enabled(s, st)
    ensures Inv(Apply(s, st))
  {
    if IsOwn(st) || st.IgnoreRestart? { OwnInv(s, st); }
    else if IsHandler(st) { HandlerInv(s, st); }
    else { CollectorInv(s, st); }
  }

  // ---------------------------------------------------------------------
  // The theorems.

  // States that follow each other by some interleaving of steps.
  ghost predicate Next(s: State, s2: State) { exists st :: Enabled(s, st) && s2 == Apply(s, st) }

  ghost predicate Run(ss: seq<State>) {
    && ss != [] && Init(ss[0])
    && forall i :: 0 <= i < |ss| - 1 ==> Next(ss[i], ss[i + 1])
  }

  lemma {:induction false} RunInv(ss: seq<State>, i: nat)
    requires Run(ss) && i < |ss|
    ensures Inv(ss[i])
  {
    if i == 0 {
      InitInv(ss[0]);
    } else {
      RunInv(ss, i - 1);
      assert Next(ss[i - 1], ss[i - 1 + 1]);
      var st :| Enabled(ss[i - 1], st) && ss[i] == Apply(ss[i - 1], st);
      StepInv(ss[i - 1], st);
    }
  }

  // The thread sits in the suspend handler; where its stack ends is known; it posted
  // one acknowledgement for this stop, and none after.
  predicate IsStopped(th: Thread, stop: nat) {
    && InHandler(th) && th.stackPtr == th.sp
    && th.acks != [] && th.acks[|th.acks| - 1] == stop && stop !in th.acks[..|th.acks| - 1]
  }

  // Whatever the interleaving, when the world is stopped every other live thread that is
  // not blocked is stopped, the blocked ones are known too, and no acknowledgement is
  // left over.
  lemma WorldStops(ss: seq<State>, i: nat)
    requires Run(ss) && i < |ss| && ss[i].phase.Halted?
    ensures ss[i].sem == 0
    ensures forall t :: t in ss[i].threads && t != ss[i].phase.self && Live(ss[i].threads[t]) ==>
            IsStopped(ss[i].threads[t], ss[i].stopCount)
    ensures forall t :: t in ss[i].threads && ss[i].threads[t].blocked ==>
            ss[i].threads[t].stackPtr == ss[i].threads[t].sp
  {
    RunInv(ss, i);
    var s := ss[i];
    forall t | t in s.threads ensures t != s.phase.self && Live(s.threads[t]) ==> IsStopped(s.threads[t], s.stopCount) {
      assert ThreadOk(s, t);
    }
    forall t | t in s.threads && s.threads[t].blocked
        ensures s.threads[t].stackPtr == s.threads[t].sp { assert ThreadOk(s, t); }
  }

  // And until it is restarted no thread moves.
  lemma NothingMoves(ss: seq<State>, i: nat, st: Step)
    requires Run(ss) && i < |ss| && ss[i].phase.Halted? && Enabled(ss[i], st)
    ensures !IsOwn(st) && var s2 := Apply(ss[i], st);
            forall t :: t in ss[i].threads ==>
                t in s2.threads && s2.threads[t].sp == ss[i].threads[t].sp
                && s2.threads[t].stackPtr == ss[i].threads[t].stackPtr
  {
    WorldStops(ss, i);
    RunInv(ss, i);
    if IsHandler(st) { assert ThreadOk(ss[i], st.t); }
  }

  // The collector does not wait in vain: somebody owes an acknowledgement.
  lemma SomebodyOwes(s: State) returns (t: int)
    requires Inv(s) && s.phase.Barrier? && s.phase.left > 0 && s.sem == 0
    ensures t in s.threads && Owes(s.threads[t])
  {
    assert (forall u :: u in s.threads ==> !Owes(s.threads[u])) ==> Owing(s) == {};
    t :| t in s.threads && Owes(s.threads[t]);
  }

  // A thread that owes an acknowledgement, or stays in the handler for a stop that is
  // over.
  predicate MustMove(s: State, t: int) {
    && t in s.threads
    && (Owes(s.threads[t]) || (Acked(s.threads[t]) && !(s.threads[t].my == s.stopCount && s.worldIsStopped)))
  }

  // Steps that such a thread has left.
  function Work(s: State, t: int): nat
    requires t in s.threads
  {
    match s.threads[t].pc
    case Posted => 9
    case SawStopped => if s.threads[t].my == s.stopCount then 8 else 5
    case Waiting => 7
    case Woken => 6
    case Running => 4
    case Entered => 3
    case Counted => 2
    case Stored => 1
  }

  // It is never stuck: the handler can go on, a thread that sleeps by a restart signal
  // that it has or that the collector can send.
  lemma CanMove(s: State, t: int) returns (st: Step)
    requires Inv(s) && MustMove(s, t)
    ensures Enabled(s, st) && (if IsHandler(st) then st.t == t && !st.WakeAnyhow? else st == Resume(t))
  {
    assert ThreadOk(s, t);
    match s.threads[t].pc
    case Running => st := Deliver(t);
    case Entered => st := ReadCount(t);
    case Counted => st := Compare(t);
    case Stored => st := Post(t);
    case Posted => st := Record(t);
    case Waiting => st := if s.threads[t].restart then Wake(t) else Resume(t);
    case Woken => st := SeeFlag(t);
    case SawStopped => st := SeeCount(t);
  }

  predicate Closer(s: State, s2: State, t: int) { MustMove(s2, t) ==> t in s.threads && Work(s2, t) <= Work(s, t) }

  lemma HandlerCloser(s: State, st: Step)
    requires IsHandler(st) && PhaseOk(s) && ThreadOk(s, st.t) && MustMove(s, st.t) && Enabled(s, st)
    ensures var s2 := Apply(s, st); MustMove(s2, st.t) ==> Work(s2, st.t) < Work(s, st.t)
  {
  }

  lemma OthersCloser(s: State, st: Step, t: int)
    requires MustMove(s, t) && Enabled(s, st) && (IsOwn(st) || IsHandler(st) || st.IgnoreRestart?)
    requires IsHandler(st) ==> st.t != t
    ensures Closer(s, Apply(s, st), t)
  {
  }

  lemma CollectorCloser(s: State, st: Step, t: int)
    requires ThreadOk(s, t) && MustMove(s, t) && Enabled(s, st) && !IsOwn(st) && !IsHandler(st) && !st.IgnoreRestart?
    ensures Closer(s, Apply(s, st), t)
  {
  }

  // And nothing that others do delays it: its own steps in the handler bring it closer.
  lemma ComesCloser(s: State, st: Step, t: int)
    requires Inv(s) && MustMove(s, t) && Enabled(s, st)
    ensures var s2 := Apply(s, st);
            MustMove(s2, t) ==> Work(s2, t) <= Work(s, t) && (IsHandler(st) && st.t == t ==> Work(s2, t) < Work(s, t))
  {
    assert ThreadOk(s, t);
    if IsHandler(st) && st.t == t {
      HandlerCloser(s, st);
    } else if IsOwn(st) || IsHandler(st) || st.IgnoreRestart? {
      OthersCloser(s, st, t);
    } else {
      CollectorCloser(s, st, t);
    }
  }

  // ---------------------------------------------------------------------
  // GC_stop_world returns.

  // The stop has begun and has not returned.
  predicate Stopping(s: State) { s.phase.Begun? || s.phase.Sending? || s.phase.Barrier? }

  // Steps by which the stop gets on: those of the collector, and the handler's in a
  // thread that has to acknowledge this stop or to leave an old one.
  predicate Useful(s: State, st: Step) {
    if IsHandler(st) then MustMove(s, st.t) else !IsOwn(st) && !st.IgnoreRestart?
  }

  // Until the collector waits for acknowledgements no more, somebody can take one.
  lemma StopGoesOn(s: State) returns (st: Step)
    requires Inv(s) && Stopping(s)
    ensures Enabled(s, st) && Useful(s, st)
  {
    match s.phase
    case Begun(_) => st := RaiseFlag;
    case Sending(_, todo, _) =>
      if todo == {} {
        st := EndSending;
      } else {
        st := Send(AnyOf(todo));
      }
    case Barrier(_, left) =>
      if left == 0 {
        st := Return;
      } else if s.sem > 0 {
        st := Await;
      } else {
        var t := SomebodyOwes(s);
        st := CanMove(s, t);
      }
  }

  // Steps that a thread, the threads ts and the collector have left at most.
  function Left(s: State, t: int): nat { if MustMove(s, t) then Work(s, t) else 0 }

  ghost function LeftOf(s: State, ts: set<int>): nat {
    if ts == {} then 0 else Left(s, AnyOf(ts)) + LeftOf(s, ts - {AnyOf(ts)})
  }

  function Ahead(p: Phase, threads: nat): nat {
    match p
    case Begun(_) => 11 * threads + 2
    case Sending(_, todo, n) => 11 * |todo| + n + 2
    case Barrier(_, left) => left + 1
    case _ => 0
  }

  ghost function Budget(s: State): nat { Ahead(s.phase, |s.threads|) + LeftOf(s, s.threads.Keys) }

  lemma {:induction false} LeftSplit(s: State, ts: set<int>, t: int)
    requires t in ts
    ensures LeftOf(s, ts) == Left(s, t) + LeftOf(s, ts - {t})
  {
    var u := AnyOf(ts);
    if u != t {
      LeftSplit(s, ts - {u}, t);
      LeftSplit(s, ts - {t}, u);
      assert ts - {u} - {t} == ts - {t} - {u};
    }
  }

  predicate NoMore(s: State, s2: State, t: int) { Left(s2, t) <= Left(s, t) }

  lemma {:induction false} LeftShrinks(s: State, s2: State, ts: set<int>)
    requires forall t {:trigger NoMore(s, s2, t)} :: t in ts ==> NoMore(s, s2, t)
    ensures LeftOf(s2, ts) <= LeftOf(s, ts)
  {
    if ts != {} {
      var t := AnyOf(ts);
      LeftSplit(s2, ts, t);
      LeftShrinks(s, s2, ts - {t});
      assert NoMore(s, s2, t);
    }
  }

  lemma LeftButOne(s: State, s2: State, ts: set<int>, t: int)
    requires t in ts && forall u {:trigger NoMore(s, s2, u)} :: u in ts && u != t ==> NoMore(s, s2, u)
    ensures LeftOf(s2, ts) <= LeftOf(s, ts) + Left(s2, t) - Left(s, t)
  {
    LeftSplit(s, ts, t);
    LeftSplit(s2, ts, t);
    LeftShrinks(s, s2, ts - {t});
  }

  lemma OwnSpends(s: State, st: Step, t: int)
    requires Inv(s) && Enabled(s, st) && (IsOwn(st) || st.IgnoreRestart?)
    ensures NoMore(s, Apply(s, st), t)
  {
  }

  // A thread that is stopped keeps its place, even if a signal gets it out of its sleep.
  lemma StoppedStays(s: State, st: Step)
    requires IsHandler(st) && PhaseOk(s) && ThreadOk(s, st.t) && Enabled(s, st) && !MustMove(s, st.t)
    ensures !MustMove(Apply(s, st), st.t)
  {
  }

  lemma HandlerSpends(s: State, st: Step, t: int)
    requires Inv(s) && Enabled(s, st) && IsHandler(st)
    ensures NoMore(s, Apply(s, st), t) && (t == st.t && MustMove(s, t) ==> Left(Apply(s, st), t) < Left(s, t))
  {
    assert ThreadOk(s, st.t);
    if t == st.t {
      if MustMove(s, t) { HandlerCloser(s, st); } else { StoppedStays(s, st); }
    }
  }

  lemma CollectorSpends(s: State, st: Step, t: int)
    requires Inv(s) && Enabled(s, st) && !IsOwn(st) && !IsHandler(st) && !st.IgnoreRestart? && !st.LowerFlag?
    ensures (st.Send? && st.t == t) || NoMore(s, Apply(s, st), t)
  {
    assert ThreadOk(s, t);
  }

  predicate Spent(s: State, s2: State) { s2.threads.Keys == s.threads.Keys && |s2.threads| == |s.threads| }

  lemma SameThreads(s: State, st: Step)
    requires Stopping(s) && Enabled(s, st)
    ensures Spent(s, Apply(s, st))
  {
    var s2 := Apply(s, st);
    assert s2.threads.Keys == s.threads.Keys;
    assert |s.threads| == |s.threads.Keys| && |s2.threads| == |s2.threads.Keys|;
  }

  lemma SpendsAll(s: State, st: Step)
    requires Inv(s) && Enabled(s, st) && !st.Send? && !st.LowerFlag?
    ensures LeftOf(Apply(s, st), s.threads.Keys) <= LeftOf(s, s.threads.Keys)
    ensures IsHandler(st) && MustMove(s, st.t) ==> LeftOf(Apply(s, st), s.threads.Keys) < LeftOf(s, s.threads.Keys)
  {
    var s2, ts := Apply(s, st), s.threads.Keys;
    forall t ensures NoMore(s, s2, t) {
      if IsOwn(st) || st.IgnoreRestart? {
        OwnSpends(s, st, t);
      } else if IsHandler(st) {
        HandlerSpends(s, st, t);
      } else {
        CollectorSpends(s, st, t);
      }
    }
    LeftShrinks(s, s2, ts);
    if IsHandler(st) && MustMove(s, st.t) {
      HandlerSpends(s, st, st.t);
      LeftButOne(s, s2, ts, st.t);
    }
  }

  lemma SendSpends(s: State, st: Step)
    requires Inv(s) && Stopping(s) && Enabled(s, st) && st.Send?
    ensures LeftOf(Apply(s, st), s.threads.Keys) <= LeftOf(s, s.threads.Keys) + 9
  {
    var s2, ts := Apply(s, st), s.threads.Keys;
    forall t | t != st.t ensures NoMore(s, s2, t) { CollectorSpends(s, st, t); }
    LeftButOne(s, s2, ts, st.t);
  }

  lemma AheadStep(s: State, st: Step)
    requires PhaseOk(s) && Stopping(s) && Enabled(s, st)
    ensures var s2, n := Apply(s, st), |s.threads|;
            && Ahead(s2.phase, n) <= Ahead(s.phase, n)
            && (!IsOwn(st) && !IsHandler(st) && !st.IgnoreRestart? ==> Ahead(s2.phase, n) < Ahead(s.phase, n))
            && (st.Send? ==> Ahead(s2.phase, n) + 10 <= Ahead(s.phase, n))
  {
    if st.RaiseFlag? {
      var others := s.threads.Keys - {s.phase.self};
      assert s.threads.Keys == others + {s.phase.self};
    }
  }

  // No step gives more to do, and a useful one leaves less.
  lemma BudgetStep(s: State, st: Step)
    requires Inv(s) && Stopping(s) && Enabled(s, st)
    ensures Budget(Apply(s, st)) <= Budget(s) && (Useful(s, st) ==> Budget(Apply(s, st)) < Budget(s))
  {
    SameThreads(s, st);
    AheadStep(s, st);
    if st.Send? { SendSpends(s, st); } else { SpendsAll(s, st); }
  }

  ghost predicate Trace(ss: seq<State>, sts: seq<Step>) {
    |ss| == |sts| + 1 && forall i :: 0 <= i < |sts| ==> Enabled(ss[i], sts[i]) && ss[i + 1] == Apply(ss[i], sts[i])
  }

  function UsefulSteps(ss: seq<State>, sts: seq<Step>, n: nat): nat
    requires n <= |sts| && n <= |ss|
  {
    if n == 0 then 0 else UsefulSteps(ss, sts, n - 1) + if Useful(ss[n - 1], sts[n - 1]) then 1 else 0
  }

  // However the steps interleave, at most as many useful ones as the budget allows are
  // taken before the world is stopped.
  lemma {:induction false} StopReturns(ss: seq<State>, sts: seq<Step>, n: nat)
    requires Trace(ss, sts) && Inv(ss[0]) && n <= |sts|
    requires forall i :: 0 <= i < n ==> Stopping(ss[i])
    ensures Inv(ss[n]) && UsefulSteps(ss, sts, n) + Budget(ss[n]) <= Budget(ss[0])
  {
    if n > 0 {
      StopReturns(ss, sts, n - 1);
      StepInv(ss[n - 1], sts[n - 1]);
      BudgetStep(ss[n - 1], sts[n - 1]);
    }
  }

  // ---------------------------------------------------------------------
  // The world is restarted.

  // The world is stopped, or the restart has begun, and no other stop since.
  predicate Resuming(s: State) { s.phase.Halted? || s.phase.Restarting? || s.phase.Idle? }

  // The collector is done and every thread is back in its own code.
  predicate Resumed(s: State) { s.phase.Idle? && forall t :: t in s.threads ==> s.threads[t].pc.Running? }

  // Until then somebody can take a step by which the restart gets on.
  lemma RestartGoesOn(s: State) returns (st: Step)
    requires Inv(s) && Resuming(s) && !Resumed(s)
    ensures Enabled(s, st) && Useful(s, st) && Resuming(Apply(s, st))
  {
    match s.phase
    case Halted(_) => st := LowerFlag;
    case Restarting(_, todo) =>
      if todo == {} {
        st := EndResuming;
      } else {
        st := Resume(AnyOf(todo));
      }
    case Idle =>
      var t :| t in s.threads && !s.threads[t].pc.Running?;
      assert ThreadOk(s, t);
      st := CanMove(s, t);
  }

  // What the collector has left to do; when it lowers the flag every thread may have up
  // to nine steps to take.
  function ToResume(p: Phase, threads: nat): nat {
    match p
    case Halted(_) => 10 * threads + 2
    case Restarting(_, todo) => |todo| + 1
    case _ => 0
  }

  ghost function ResumeBudget(s: State): nat { ToResume(s.phase, |s.threads|) + LeftOf(s, s.threads.Keys) }

  lemma {:induction false} LeftAtMost(s: State, ts: set<int>)
    ensures LeftOf(s, ts) <= 9 * |ts|
  {
    if ts != {} {
      LeftAtMost(s, ts - {AnyOf(ts)});
      assert |ts| == |ts - {AnyOf(ts)}| + 1;
    }
  }

  lemma LowerSpends(s: State)
    requires PhaseOk(s) && s.phase.Halted?
    ensures ResumeBudget(Apply(s, LowerFlag)) < ResumeBudget(s)
  {
    var s2, ts := Apply(s, LowerFlag), s.threads.Keys;
    LeftAtMost(s2, ts);
    assert ts == (ts - {s.phase.self}) + {s.phase.self} && |s.threads| == |ts|;
  }

  // A new thread has nothing left to do.
  lemma StartSpends(s: State, st: Step)
    requires Inv(s) && Enabled(s, st) && st.Start?
    ensures LeftOf(Apply(s, st), Apply(s, st).threads.Keys) <= LeftOf(s, s.threads.Keys)
  {
    var s2, ts := Apply(s, st), s.threads.Keys;
    SpendsAll(s, st);
    LeftSplit(s2, s2.threads.Keys, st.t);
    assert s2.threads.Keys - {st.t} == ts;
  }

  // No step gives more to do, and a useful one leaves less.
  lemma ResumeStep(s: State, st: Step)
    requires Inv(s) && Resuming(s) && Enabled(s, st) && Resuming(Apply(s, st))
    ensures ResumeBudget(Apply(s, st)) <= ResumeBudget(s)
    ensures Useful(s, st) ==> ResumeBudget(Apply(s, st)) < ResumeBudget(s)
  {
    if st.LowerFlag? {
      LowerSpends(s);
    } else if st.Start? {
      StartSpends(s, st);
    } else {
      var s2 := Apply(s, st);
      SpendsAll(s, st);
      assert s2.threads.Keys == s.threads.Keys;
      assert |s.threads| == |s.threads.Keys| && |s2.threads| == |s2.threads.Keys|;
    }
  }

  // However the steps interleave, at most as many useful ones as this budget allows are
  // taken before the world has been restarted.
  lemma {:induction false} RestartReturns(ss: seq<State>, sts: seq<Step>, n: nat)
    requires Trace(ss, sts) && Inv(ss[0]) && n <= |sts|
    requires forall i {:trigger Resuming(ss[i])} :: 0 <= i <= n ==> Resuming(ss[i])
    ensures Inv(ss[n]) && UsefulSteps(ss, sts, n) + ResumeBudget(ss[n]) <= ResumeBudget(ss[0])
    ensures ResumeBudget(ss[n]) == 0 ==> Resumed(ss[n])
  {
    if n > 0 {
      RestartReturns(ss, sts, n - 1);
      assert Resuming(ss[n - 1]) && Resuming(ss[n]);
      StepInv(ss[n - 1], sts[n - 1]);
      ResumeStep(ss[n - 1], sts[n - 1]);
    }
    NothingLeft(ss[n]);
  }

  lemma NothingLeft(s: State)
    requires Inv(s) && Resuming(s)
    ensures ResumeBudget(s) == 0 ==> Resumed(s)
  {
    if !Resumed(s) {
      var st := RestartGoesOn(s);
      ResumeStep(s, st);
    }
  }
}
