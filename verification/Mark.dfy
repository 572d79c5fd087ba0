// The mark phase: a state machine over a bounded mark stack. An overflow
// throws entries away; marking then rescans the heap for marked objects.
module Mark {
  import opened GcHeap
  import opened Graphs
  import opened Kinds
  import opened MarkRun
  import opened Options

  const INITIAL_MARK_STACK_SIZE: nat := 4096
  const WORD_BYTES: nat := 8
  const WORDSZ: nat := 64
  const HBLK_BYTES: nat := 4096

  datatype MarkState = MsNone | PushUncollectable | RootsPushed | PartiallyInvalid | MsInvalid

  // ---------------------------------------------------------------------
  // The marker invariant, on values.

  // The word at a refers to nothing, or to a marked object.
  ghost predicate Clean(h: Heap, marked: set<Obj>, a: int) {
    h.Target(a).Some? ==> h.Target(a).value in marked
  }

  ghost predicate Pending(gray: seq<Entry>, a: int) {
    exists e :: e in gray && Covers(e, a)
  }

  // Every word that e covers is clean or still waits on the stack.
  ghost predicate EntryOk(h: Heap, marked: set<Obj>, gray: seq<Entry>, e: Entry) {
    forall a :: Covers(e, a) ==> Clean(h, marked, a) || Pending(gray, a)
  }

  function RangeEntry(r: Range): Entry { Entry(r.start, Length(r.words)) }

  // The marked objects of the blocks in D and the entries in R refer only to
  // marked or pending objects.
  ghost predicate Covered(h: Heap, marked: set<Obj>, gray: seq<Entry>, D: set<nat>, R: set<Entry>) {
    && (forall o :: o in marked && o.blk in D && h.IsObj(o) ==> EntryOk(h, marked, gray, h.EntryOf(o)))
    && (forall r :: r in R ==> EntryOk(h, marked, gray, r))
  }

  // S is closed under pointers and contains what the roots refer to: an upper
  // bound on what may be marked.
  ghost predicate Upper(h: Heap, S: set<Obj>) {
    && EdgeClosed(h.EdgeRel(), S)
    && (forall r :: r in AllRoots(h) ==> EntryOk(h, S, [], r))
  }

  ghost predicate GrayInside(h: Heap, gray: seq<Entry>, S: set<Obj>) {
    forall e :: e in gray ==> EntryOk(h, S, [], e)
  }

  // What each state promises: which blocks, and whether the roots, are covered.
  ghost function DoneBlocks(h: Heap, st: MarkState, scan: nat): set<nat> {
    match st
    case MsInvalid => {}
    case PartiallyInvalid => set b | b in h.blocks && b < scan
    case PushUncollectable => set b | b in h.blocks && (b < scan || h.blocks[b].kind != Uncollectable)
    case _ => h.blocks.Keys
  }

  ghost function DoneRoots(h: Heap, st: MarkState): set<Entry> {
    if st.MsNone? || st.RootsPushed? then AllRoots(h) else {}
  }

  ghost function AllRoots(h: Heap): set<Entry> {
    (set r | r in h.statics :: RangeEntry(r)) + (set r | r in h.stacks :: RangeEntry(r))
  }

  lemma CoveredTransfer(h: Heap, marked: set<Obj>, g1: seq<Entry>, g2: seq<Entry>, D: set<nat>, R: set<Entry>)
    requires Covered(h, marked, g1, D, R)
    requires forall a :: Pending(g1, a) ==> Clean(h, marked, a) || Pending(g2, a)
    ensures Covered(h, marked, g2, D, R)
  {
    forall o | o in marked && o.blk in D && h.IsObj(o) ensures EntryOk(h, marked, g2, h.EntryOf(o)) {
      assert EntryOk(h, marked, g1, h.EntryOf(o));
    }
    forall r | r in R ensures EntryOk(h, marked, g2, r) {
      assert EntryOk(h, marked, g1, r);
    }
  }

  // Marking p keeps everything covered when the entry of p is pending.
  lemma CoveredMark(h: Heap, marked: set<Obj>, g1: seq<Entry>, g2: seq<Entry>, D: set<nat>, R: set<Entry>, p: Obj)
    requires h.IsObj(p) && Covered(h, marked, g1, D, R)
    requires forall a :: Pending(g1, a) ==> Pending(g2, a)
    requires forall a :: Covers(h.EntryOf(p), a) ==> Pending(g2, a)
    ensures Covered(h, marked + {p}, g2, D, R)
  {
    var m := marked + {p};
    forall o | o in m && o.blk in D && h.IsObj(o) ensures EntryOk(h, m, g2, h.EntryOf(o)) {
      if o in marked {
        assert EntryOk(h, marked, g1, h.EntryOf(o));
      }
    }
    forall r | r in R ensures EntryOk(h, m, g2, r) {
      assert EntryOk(h, marked, g1, r);
    }
  }

  lemma ObjEntryInside(h: Heap, S: set<Obj>, p: Obj)
    requires Upper(h, S) && h.IsObj(p) && p in S
    ensures EntryOk(h, S, [], h.EntryOf(p))
  {
    forall a | Covers(h.EntryOf(p), a) ensures Clean(h, S, a) {
      if h.Target(a).Some? {
        assert h.EdgeRel()(p, h.Target(a).value);
      }
    }
  }

  lemma PendingConcat(s: seq<Entry>, x: seq<Entry>, a: int)
    ensures Pending(s + x, a) <==> Pending(s, a) || Pending(x, a)
  {
    if Pending(s, a) {
      var e :| e in s && Covers(e, a);
      assert e in s + x;
    }
    if Pending(x, a) {
      var e :| e in x && Covers(e, a);
      assert e in s + x;
    }
  }

  // Work that is not on the stack may be traded for other work or for clean words.
  lemma CoveredTrade(h: Heap, marked: set<Obj>, s: seq<Entry>, x1: seq<Entry>, x2: seq<Entry>,
                     D: set<nat>, R: set<Entry>)
    requires Covered(h, marked, s + x1, D, R)
    requires forall a :: Pending(x1, a) ==> Clean(h, marked, a) || Pending(x2, a)
    ensures Covered(h, marked, s + x2, D, R)
  {
    forall a | Pending(s + x1, a) ensures Clean(h, marked, a) || Pending(s + x2, a) {
      PendingConcat(s, x1, a);
      PendingConcat(s, x2, a);
    }
    CoveredTransfer(h, marked, s + x1, s + x2, D, R);
  }

  lemma PushMoves(s: seq<Entry>, size: nat, e: Entry, rest: seq<Entry>)
    requires MARK_STACK_DISCARDS <= size && |s| < size
    ensures Pushed(s, size, e) + rest == s + ([e] + rest)
  {
  }

  lemma GrayPushed(h: Heap, before: seq<Entry>, size: nat, e: Entry, S: set<Obj>)
    requires MARK_STACK_DISCARDS <= size && |before| <= size
    requires GrayInside(h, before, S) && EntryOk(h, S, [], e)
    ensures GrayInside(h, Pushed(before, size, e), S)
  {
    forall x | x in Pushed(before, size, e) ensures EntryOk(h, S, [], x) {
      assert x in before || x == e;
    }
  }

  // Marking p and pushing it, without overflow. Pointer-free objects are not pushed.
  lemma CoveredPush(h: Heap, marked: set<Obj>, before: seq<Entry>, after: seq<Entry>, extra: seq<Entry>,
                    D: set<nat>, R: set<Entry>, p: Obj)
    requires h.IsObj(p) && Covered(h, marked, before + extra, D, R)
    requires if h.EntryOf(p).descr == Length(0) then after == before else after == before + [h.EntryOf(p)]
    ensures Covered(h, marked + {p}, after + extra, D, R)
  {
    forall a | Pending(before + extra, a) ensures Pending(after + extra, a) {
      var e :| e in before + extra && Covers(e, a);
      assert e in after + extra;
    }
    forall a | Covers(h.EntryOf(p), a) ensures Pending(after + extra, a) {
      assert h.EntryOf(p) in after + extra;
    }
    CoveredMark(h, marked, before + extra, after + extra, D, R, p);
  }

  // ---------------------------------------------------------------------
  // Termination measure.

  ghost function Weight(e: Entry): nat {
    match e.descr
    case Length(n) => n + 1
    case Bitmap(bits) => |bits| + 1
  }

  ghost function Work(s: seq<Entry>): nat {
    if s == [] then 0 else Work(s[..|s| - 1]) + Weight(s[|s| - 1])
  }

  lemma WorkPush(s: seq<Entry>, e: Entry)
    ensures Work(s + [e]) == Work(s) + Weight(e)
  {
    assert (s + [e])[..|s|] == s;
  }

  lemma UnmarkedLess(h: Heap, m1: set<Obj>, m2: set<Obj>)
    requires m1 < m2 && forall o :: o in m2 ==> h.IsObj(o)
    ensures Unmarked(h, m2) < Unmarked(h, m1)
  {
    var o :| o in m2 && o !in m1;
    AllObjsHasObjs(h, o);
    ProperSubsetSize(UnmarkedSet(h, m2), UnmarkedSet(h, m1), o);
  }

  lemma MarksGrew(h: Heap, m1: set<Obj>, m2: set<Obj>)
    requires m1 <= m2 && forall o :: o in m2 ==> h.IsObj(o)
    ensures m1 == m2 || Unmarked(h, m2) < Unmarked(h, m1)
  {
    if m1 != m2 { UnmarkedLess(h, m1, m2); }
  }

  lemma ProperSubsetSize<T>(a: set<T>, b: set<T>, x: T)
    requires a <= b && x in b && x !in a
    ensures |a| < |b|
  {
    assert b == a + (b - a);
    assert |b| == |a| + |b - a|;
  }

  ghost function MarkedOf(marked: set<Obj>, b: nat): set<Obj> {
    set o | o in marked && o.blk == b
  }

  ghost predicate Counts(h: Heap, marked: set<Obj>, nMarks: map<nat, nat>) {
    forall b {:trigger MarkedOf(marked, b)} {:trigger b in nMarks} :: b in h.blocks ==>
        b in nMarks
        && nMarks[b] == |MarkedOf(marked, b)|
  }

  lemma CountsMark(h: Heap, marked: set<Obj>, nMarks: map<nat, nat>, p: Obj)
    requires Counts(h, marked, nMarks) && p !in marked && p.blk in h.blocks
    ensures p.blk in nMarks && Counts(h, marked + {p}, nMarks[p.blk := nMarks[p.blk] + 1])
  {
    var m := marked + {p};
    forall b | b in h.blocks ensures |MarkedOf(m, b)| == nMarks[p.blk := nMarks[p.blk] + 1][b] {
      if b == p.blk {
        assert MarkedOf(m, b) == MarkedOf(marked, b) + {p};
      } else {
        assert MarkedOf(m, b) == MarkedOf(marked, b);
      }
    }
  }

  // Mark bits and counts agree with the heap.
  ghost predicate MarksOk(h: Heap, marked: set<Obj>, nMarks: map<nat, nat>) {
    h.Valid() && (forall o :: o in marked ==> h.IsObj(o)) && Counts(h, marked, nMarks)
  }

  lemma MarksOkMark(h: Heap, marked: set<Obj>, nMarks: map<nat, nat>, p: Obj)
    requires MarksOk(h, marked, nMarks) && h.IsObj(p) && p !in marked
    ensures p.blk in nMarks && MarksOk(h, marked + {p}, nMarks[p.blk := nMarks[p.blk] + 1])
  {
    CountsMark(h, marked, nMarks, p);
  }

  lemma ObjPushed(h: Heap, stack: seq<Entry>, size: nat, S: set<Obj>, p: Obj)
    requires MARK_STACK_DISCARDS <= size && |stack| <= size
    requires Upper(h, S) && GrayInside(h, stack, S) && h.IsObj(p) && p in S
    ensures GrayInside(h, Pushed(stack, size, h.EntryOf(p)), S)
  {
    ObjEntryInside(h, S, p);
    GrayPushed(h, stack, size, h.EntryOf(p), S);
  }

  class Marker {
    var h: Heap
    var least: int            // GC_least_plausible_heap_addr
    var greatest: int         // GC_greatest_plausible_heap_addr
    var marked: set<Obj>      // the mark bits (hb_marks) of all headers
    var nMarks: map<nat, nat> // hb_n_marks, by block
    var state: MarkState
    var stack: seq<Entry>
    var stackSize: nat
    var tooSmall: bool
    var scanPtr: nat          // hblk address, 0 is the null pointer
    var objectsAreMarked: bool

    ghost predicate Valid()
      reads this
    {
      && MarksOk(h, marked, nMarks)
      && (forall w :: w in h.resolve ==> least <= w < greatest)
      && INITIAL_MARK_STACK_SIZE <= stackSize
      && |stack| <= stackSize
      && |h.statics| <= INITIAL_MARK_STACK_SIZE / 2
    }

    ghost function Now(): Run
      reads this
    {
      Run(marked, stack, state == MsInvalid)
    }

    // The store of an entry, with GC_signal_mark_stack_overflow when there is no room.
    method PushEntry(e: Entry)
      requires |stack| <= stackSize && INITIAL_MARK_STACK_SIZE <= stackSize
      modifies this`stack, this`state, this`tooSmall
      ensures stack == Pushed(old(stack), stackSize, e) && |stack| <= stackSize
      ensures old(|stack|) < stackSize ==> state == old(state) && tooSmall == old(tooSmall)
      ensures old(|stack|) == stackSize ==> state == MsInvalid && tooSmall
    {
      if |stack| >= stackSize {
        state := MsInvalid;
        tooSmall := true;
        stack := stack[..stackSize - MARK_STACK_DISCARDS];
      }
      stack := stack + [e];
    }

    // GC_push_contents_hdr: mark what w refers to and push it, unless it is marked.
    // extra is the part of the caller's work that is not on the stack.
    method PushContents(w: int, ghost extra: seq<Entry>, ghost D: set<nat>, ghost R: set<Entry>, ghost S: set<Obj>)
      requires Valid()
      requires state != MsInvalid ==> Covered(h, marked, stack + extra, D, R)
      requires marked <= S && Upper(h, S) && GrayInside(h, stack, S)
      requires w in h.resolve ==> h.resolve[w] in S
      modifies this`marked, this`nMarks, this`stack, this`state, this`tooSmall
      ensures Valid()
      ensures state != MsInvalid ==> Covered(h, marked, stack + extra, D, R)
      ensures marked <= S && GrayInside(h, stack, S)
      ensures marked == old(marked) + if w in h.resolve then {h.resolve[w]} else {}
      ensures stack == if marked != old(marked) && h.EntryOf(h.resolve[w]).descr != Length(0)
                       then Pushed(old(stack), stackSize, h.EntryOf(h.resolve[w])) else old(stack)
      ensures state == old(state) || (state == MsInvalid && old(|stack|) == stackSize && marked != old(marked))
      ensures Now() == Touch(h, stackSize, old(Now()), w)
    {
      if h.Resolve(w).None? { return; }
      var p := h.Resolve(w).value;
      if p in marked { return; }
      var e := h.EntryOf(p);
      MarksOkMark(h, marked, nMarks, p);
      ObjPushed(h, stack, stackSize, S, p);
      ghost var m0, before := marked, stack;
      marked := marked + {p};
      nMarks := nMarks[p.blk := nMarks[p.blk] + 1];
      if e.descr != Length(0) {
        PushEntry(e);
      }
      if state != MsInvalid {
        CoveredPush(h, m0, before, stack, extra, D, R, p);
      }
    }

    // What scanning keeps: x is the part of the scanner's work that is not on the stack.
    ghost predicate Scanning(x: seq<Entry>, D: set<nat>, R: set<Entry>, S: set<Obj>)
      reads this
    {
      && Valid()
      && (state != MsInvalid ==> Covered(h, marked, stack + x, D, R))
      && marked <= S && GrayInside(h, stack, S)
    }

    // Nothing changes without a newly marked object.
    ghost predicate Since(m0: set<Obj>, st0: MarkState, stack0: seq<Entry>)
      reads this
    {
      && m0 <= marked
      && (state == st0 || state == MsInvalid)
      && (marked == m0 ==> state == st0 && stack == stack0)
    }

    // One word of a range: push what it refers to if it may be a heap address. The
    // word then no longer counts as work: x1 shrinks to x2.
    method ScanWord(a: int, ghost x1: seq<Entry>, ghost x2: seq<Entry>, ghost D: set<nat>, ghost R: set<Entry>,
          ghost S: set<Obj>)
      requires Scanning(x1, D, R, S) && Upper(h, S) && Clean(h, S, a)
      requires forall b :: Pending(x1, b) ==> b == a || Pending(x2, b)
      modifies this`marked, this`nMarks, this`stack, this`state, this`tooSmall
      ensures Scanning(x2, D, R, S) && Since(old(marked), old(state), old(stack))
      ensures Now() == Touch(h, stackSize, old(Now()), h.Read(a))
    {
      var current := h.Read(a);
      if least <= current < greatest {
        PushContents(current, x1, D, R, S);
      }
      if state != MsInvalid {
        CoveredTrade(h, marked, stack, x1, x2, D, R);
      }
    }

    // The scan of the words lo .. hi inside GC_mark_from: the last plausible word is
    // remembered as deferred and pushed after all the others.
    method ScanRange(lo: int, hi: int, ghost D: set<nat>, ghost R: set<Entry>, ghost S: set<Obj>)
      requires lo <= hi
      requires Scanning([Entry(lo, Length(hi + 1 - lo))], D, R, S) && Upper(h, S)
      requires EntryOk(h, S, [], Entry(lo, Length(hi + 1 - lo)))
      modifies this`marked, this`nMarks, this`stack, this`state, this`tooSmall
      ensures Scanning([], D, R, S) && Since(old(marked), old(state), old(stack))
      ensures Now() == Words(h, stackSize, old(Now()), lo, hi + 1 - lo)
    {
      ghost var whole := Entry(lo, Length(hi + 1 - lo));
      var limit, found := FindDeferred(lo, hi);
      if !found {
        IdleWords(h, stackSize, Now(), lo, 0, hi + 1 - lo);
        if state != MsInvalid { CoveredTrade(h, marked, stack, [whole], [], D, R); }
        return;
      }
      if state != MsInvalid {
        TradeTail(h, marked, stack, lo, limit, hi, D, R);
      }
      ScanToDeferred(lo, limit, hi, D, R, S);
      IdleWords(h, stackSize, old(Now()), lo, limit + 2 - lo, hi - (limit + 1));
    }

    // The words up to the deferred one, and that one last.
    method ScanToDeferred(lo: int, limit: int, ghost hi: int, ghost D: set<nat>, ghost R: set<Entry>, ghost S: set<Obj>)
      requires lo <= limit + 1 <= hi
      requires Scanning([Entry(lo, Length(limit + 1 - lo)), Entry(limit + 1, Length(1))], D, R, S) && Upper(h, S)
      requires EntryOk(h, S, [], Entry(lo, Length(hi + 1 - lo)))
      modifies this`marked, this`nMarks, this`stack, this`state, this`tooSmall
      ensures Scanning([], D, R, S) && Since(old(marked), old(state), old(stack))
      ensures Now() == Words(h, stackSize, old(Now()), lo, limit + 2 - lo)
    {
      ScanWords(lo, limit, hi, D, R, S);
      InsideWord(h, S, Entry(lo, Length(hi + 1 - lo)), limit + 1);
      ScanWord(limit + 1, [Entry(limit + 1, Length(0)), Entry(limit + 1, Length(1))], [], D, R, S);
    }

    // The words from lo to cur have been scanned in order since start; those up to limit, and
    // then the deferred one, are still to be scanned.
    ghost predicate HasGotTo(lo: int, cur: int, limit: int, start: Run, st0: MarkState, D: set<nat>, R: set<Entry>,
        S: set<Obj>)
      requires lo <= cur <= limit + 1
      reads this
    {
      && Scanning([Entry(cur, Length(limit + 1 - cur)), Entry(limit + 1, Length(1))], D, R, S)
      && Since(start.marked, st0, start.stack)
      && Fits(start, stackSize) && Now() == Words(h, stackSize, start, lo, cur - lo)
    }

    // The words before the deferred one.
    method ScanWords(lo: int, limit: int, ghost hi: int, ghost D: set<nat>, ghost R: set<Entry>, ghost S: set<Obj>)
      requires lo <= limit + 1 <= hi
      requires Scanning([Entry(lo, Length(limit + 1 - lo)), Entry(limit + 1, Length(1))], D, R, S) && Upper(h, S)
      requires EntryOk(h, S, [], Entry(lo, Length(hi + 1 - lo)))
      modifies this`marked, this`nMarks, this`stack, this`state, this`tooSmall
      ensures Scanning([Entry(limit + 1, Length(0)), Entry(limit + 1, Length(1))], D, R, S)
      ensures Since(old(marked), old(state), old(stack))
      ensures Now() == Words(h, stackSize, old(Now()), lo, limit + 1 - lo)
    {
      ScanEach(lo, limit, Entry(lo, Length(hi + 1 - lo)), Now(), state, D, R, S);
    }

    method ScanEach(lo: int, limit: int, ghost whole: Entry, ghost start: Run, ghost st0: MarkState, ghost D: set<nat>,
          ghost R: set<Entry>, ghost S: set<Obj>)
      requires whole.start == lo <= limit + 1 && EntryOk(h, S, [], whole) && Upper(h, S)
      requires forall a :: lo <= a <= limit ==> Covers(whole, a)
      requires HasGotTo(lo, lo, limit, start, st0, D, R, S)
      modifies this`marked, this`nMarks, this`stack, this`state, this`tooSmall
      ensures HasGotTo(lo, limit + 1, limit, start, st0, D, R, S)
    {
      var cur := lo;
      while cur <= limit
        invariant lo <= cur <= limit + 1 && HasGotTo(lo, cur, limit, start, st0, D, R, S)
      {
        ScanCur(lo, cur, limit, whole, start, st0, D, R, S);
        cur := cur + 1;
      }
    }

    method ScanCur(ghost lo: int, cur: int, limit: int, ghost whole: Entry, ghost start: Run, ghost st0: MarkState,
          ghost D: set<nat>, ghost R: set<Entry>, ghost S: set<Obj>)
      requires whole.start == lo <= cur <= limit && Covers(whole, cur) && EntryOk(h, S, [], whole) && Upper(h, S)
      requires HasGotTo(lo, cur, limit, start, st0, D, R, S)
      modifies this`marked, this`nMarks, this`stack, this`state, this`tooSmall
      ensures HasGotTo(lo, cur + 1, limit, start, st0, D, R, S)
    {
      ghost var last := Entry(limit + 1, Length(1));
      ghost var rest, next := Entry(cur, Length(limit + 1 - cur)), Entry(cur + 1, Length(limit - cur));
      InsideWord(h, S, whole, cur);
      DropFirst(cur, limit, rest, next, last);
      ScanWord(cur, [rest, last], [next, last], D, R, S);
    }

    // The downward search for the last plausible word of lo .. hi: it is at limit + 1.
    method FindDeferred(lo: int, hi: int) returns (limit: int, found: bool)
      requires lo <= hi && Valid()
      ensures forall a :: limit + 1 < a <= hi ==> h.Target(a).None?
      ensures found ==> least <= h.Read(limit + 1) < greatest
      ensures if found then lo <= limit + 1 <= hi else limit == lo - 1 && h.Target(lo).None?
    {
      limit := hi;
      while true
        invariant lo <= limit <= hi
        invariant forall a :: limit < a <= hi ==> h.Target(a).None?
        decreases limit - lo
      {
        var deferred := h.Read(limit);
        limit := limit - 1;
        if least <= deferred < greatest { return limit, true; }
        assert h.Target(limit + 1).None?;
        if lo > limit { return limit, false; }
      }
    }

    // A new object is marked, or the stack holds less work than before.
    ghost predicate Progress(m0: set<Obj>, st0: MarkState, work0: nat)
      reads this
    {
      && m0 <= marked
      && (state == st0 || state == MsInvalid)
      && (Unmarked(h, marked) < Unmarked(h, m0) || (marked == m0 && state == st0 && Work(stack) < work0))
    }

    // One round of GC_mark_from: take the top entry, scan it or the first part of it.
    method MarkTop(ghost D: set<nat>, ghost R: set<Entry>, ghost S: set<Obj>) returns (cost: nat)
      requires Scanning([], D, R, S) && Upper(h, S) && stack != []
      modifies this`marked, this`nMarks, this`stack, this`state, this`tooSmall
      ensures Scanning([], D, R, S) && Progress(old(marked), old(state), Work(old(stack)))
      ensures Now() == Round(h, stackSize, old(Now()))
    {
      var top := stack[|stack| - 1];
      var below := stack[..|stack| - 1];
      ghost var all := stack;
      assert stack + [] == below + [top];
      assert EntryOk(h, S, [], top);
      match top.descr
      case Length(n) =>
        if n >= SPLIT_RANGE_WORDS {
          SplitAndScan(top, below, D, R, S);
          cost := (SPLIT_RANGE_WORDS - 1) * WORD_BYTES;
        } else {
          stack := below;
          if n == 0 {
            if state != MsInvalid { CoveredTrade(h, marked, below, [top], [], D, R); }
            return 0;
          }
          cost := n * WORD_BYTES;
          ScanRange(top.start, top.start + n - 1, D, R, S);
          MarksGrew(h, old(marked), marked);
        }
      case Bitmap(bits) =>
        stack := below;
        cost := WORDSZ / 2 * WORD_BYTES;
        ScanBitmap(top.start, bits, D, R, S);
        MarksGrew(h, old(marked), marked);
    }

    // The first part of a large range; the rest is left on the stack.
    method SplitAndScan(top: Entry, below: seq<Entry>, ghost D: set<nat>, ghost R: set<Entry>, ghost S: set<Obj>)
      requires Scanning([], D, R, S) && Upper(h, S) && stack == below + [top]
      requires top.descr.Length? && top.descr.words >= SPLIT_RANGE_WORDS
      modifies this`marked, this`nMarks, this`stack, this`state, this`tooSmall
      ensures Scanning([], D, R, S) && Progress(old(marked), old(state), Work(old(stack)))
      ensures Now() == Round(h, stackSize, old(Now()))
    {
      KeepRest(top, below, D, R, S);
      ScanRange(top.start, top.start + SPLIT_RANGE_WORDS - 2, D, R, S);
      MarksGrew(h, old(marked), marked);
    }

    method KeepRest(top: Entry, below: seq<Entry>, ghost D: set<nat>, ghost R: set<Entry>, ghost S: set<Obj>)
      requires Scanning([], D, R, S) && Upper(h, S) && stack == below + [top]
      requires top.descr.Length? && top.descr.words >= SPLIT_RANGE_WORDS
      modifies this`stack
      ensures var part := Entry(top.start, Length(SPLIT_RANGE_WORDS - 1));
              Scanning([part], D, R, S) && EntryOk(h, S, [], part)
      ensures Work(stack) < Work(old(stack))
      ensures Round(h, stackSize, old(Now())) == Words(h, stackSize, Now(), top.start, SPLIT_RANGE_WORDS - 1)
    {
      ghost var part := Entry(top.start, Length(SPLIT_RANGE_WORDS - 1));
      var rest := Entry(top.start + SPLIT_RANGE_WORDS - 1, Length(top.descr.words - (SPLIT_RANGE_WORDS - 1)));
      assert stack + [] == below + [top] && stack[..|stack| - 1] == below;
      stack := below + [rest];
      SplitTop(h, marked, below, top, rest, part, S, D, R, state != MsInvalid);
      WorkPush(below, rest);
      WorkPush(below, top);
    }

    // After n rounds from start.
    ghost predicate Going(start: Run, st0: MarkState, n: nat)
      requires h.Valid() && Fits(start, stackSize)
      reads this
    {
      && Now() == Rounds(h, stackSize, start, n)
      && if n == 0 then marked == start.marked && stack == start.stack && state == st0
         else Progress(start.marked, st0, Work(start.stack))
    }

    // GC_mark_from on the global mark stack.
    method MarkFrom(ghost D: set<nat>, ghost R: set<Entry>, ghost S: set<Obj>) returns (ghost n: nat)
      requires Scanning([], D, R, S) && Upper(h, S)
      modifies this`marked, this`nMarks, this`stack, this`state, this`tooSmall, this`objectsAreMarked
      ensures Scanning([], D, R, S) && objectsAreMarked
      ensures if old(stack) == [] then stack == [] && marked == old(marked) && state == old(state)
              else Progress(old(marked), old(state), Work(old(stack)))
      ensures Now() == Rounds(h, stackSize, old(Now()), n)
    {
      var credit: int := HBLK_BYTES;
      n := 0;
      ghost var start, st0 := Now(), state;
      objectsAreMarked := true;
      while stack != [] && credit >= 0
        invariant Scanning([], D, R, S) && objectsAreMarked && Going(start, st0, n)
        invariant (n == 0 ==> credit == HBLK_BYTES) && (start.stack == [] ==> n == 0)
        decreases Unmarked(h, marked), Work(stack)
      {
        var cost := MarkNext(start, st0, n, D, R, S);
        credit := credit - cost;
        n := n + 1;
      }
    }

    method MarkNext(ghost start: Run, ghost st0: MarkState, ghost n: nat, ghost D: set<nat>, ghost R: set<Entry>,
          ghost S: set<Obj>) returns (cost: nat)
      requires Scanning([], D, R, S) && Upper(h, S) && stack != [] && Fits(start, stackSize) && Going(start, st0, n)
      modifies this`marked, this`nMarks, this`stack, this`state, this`tooSmall
      ensures Scanning([], D, R, S) && Going(start, st0, n + 1)
      ensures Progress(old(marked), old(state), Work(old(stack)))
    {
      cost := MarkTop(D, R, S);
    }

    // GC_push_marked: push the marked objects of block b.
    method PushMarked(b: nat, ghost D: set<nat>, ghost R: set<Entry>, ghost S: set<Obj>)
      requires Scanning([], D, R, S) && Upper(h, S) && b in h.blocks
      requires |stack| + MAX_BLOCK_OBJS <= stackSize
      modifies this`stack, this`state, this`tooSmall, this`objectsAreMarked
      ensures Scanning([], D + {b}, R, S)
      ensures state == old(state) && |stack| <= old(|stack|) + MAX_BLOCK_OBJS
      ensures objectsAreMarked || (stack == old(stack) && objectsAreMarked == old(objectsAreMarked))
    {
      var blk := h.blocks[b];
      BlockPending(h, marked, stack, D, R, b, state != MsInvalid);
      if blk.descr == Length(0) || nMarks[b] == 0 {
        if state != MsInvalid { NothingPending(h, marked, nMarks, stack, D, R, b); }
        return;
      }
      objectsAreMarked := true;
      var k := 0;
      assert h.blocks[b].Valid();
      while k < |blk.bases|
        invariant 0 <= k <= |blk.bases| && objectsAreMarked
        invariant Scanning(MarkedEntries(h, marked, b, k), D + {b}, R, S)
        invariant state == old(state) && |stack| <= old(|stack|) + k
      {
        if Obj(b, k) in marked {
          PushMarkedObj(b, k, D + {b}, R, S);
        }
        k := k + 1;
      }
    }

    // GC_push_obj for a marked object.
    method PushMarkedObj(b: nat, k: nat, ghost D: set<nat>, ghost R: set<Entry>, ghost S: set<Obj>)
      requires b in h.blocks && k < |h.blocks[b].bases| && Obj(b, k) in marked
      requires Scanning(MarkedEntries(h, marked, b, k), D, R, S) && Upper(h, S)
      requires |stack| < stackSize
      modifies this`stack, this`state, this`tooSmall
      ensures Scanning(MarkedEntries(h, marked, b, k + 1), D, R, S)
      ensures state == old(state) && |stack| == old(|stack|) + 1
    {
      var e := h.EntryOf(Obj(b, k));
      ObjPushed(h, stack, stackSize, S, Obj(b, k));
      PushMoves(stack, stackSize, e, MarkedEntries(h, marked, b, k + 1));
      PushEntry(e);
    }

    // GC_push_next_marked, in the states MS_INVALID and MS_PARTIALLY_INVALID.
    method PushNextMarked(ghost S: set<Obj>) returns (b: nat)
      requires Scanning([], DoneBlocks(h, state, scanPtr), {}, S) && Upper(h, S) && h.Disjoint()
      requires state.PartiallyInvalid? || state.MsInvalid?
      requires |stack| + MAX_BLOCK_OBJS <= stackSize
      modifies this`stack, this`state, this`tooSmall, this`objectsAreMarked, this`scanPtr
      ensures state == old(state)
      ensures b != 0 ==> Scanning([], DoneBlocks(h, state, scanPtr), {}, S)
                         && scanPtr != 0 && ScanLeft(h, scanPtr) < ScanLeft(h, old(scanPtr))
      ensures b == 0 ==> scanPtr == 0 && Scanning([], h.blocks.Keys, {}, S)
                         && stack == old(stack) && objectsAreMarked == old(objectsAreMarked)
      ensures objectsAreMarked || (stack == old(stack) && objectsAreMarked == old(objectsAreMarked))
    {
      ghost var scan0, D := scanPtr, DoneBlocks(h, state, scanPtr);
      b := NextUsed(h.blocks, scanPtr);
      if b == 0 {
        if state == PartiallyInvalid { DoneAll(h, marked, stack, scan0); }
        scanPtr := 0;
      } else {
        PushMarked(b, D, {}, S);
        scanPtr := b + h.blocks[b].len;
        ScanAdvances(h, scan0, b);
        if state == PartiallyInvalid { DoneAdvances(h, marked, stack, scan0, b); }
      }
    }

    // GC_push_next_marked_uncollectable: blocks of other kinds are skipped.
    method PushNextMarkedUncollectable(ghost S: set<Obj>) returns (b: nat)
      requires Scanning([], DoneBlocks(h, PushUncollectable, scanPtr), {}, S) && Upper(h, S) && h.Disjoint()
      requires |stack| + MAX_BLOCK_OBJS <= stackSize
      modifies this`stack, this`state, this`tooSmall, this`objectsAreMarked, this`scanPtr
      ensures b == 0 ==> scanPtr == 0 && Scanning([], h.blocks.Keys, {}, S)
                         && stack == old(stack) && objectsAreMarked == old(objectsAreMarked)
      ensures b != 0 ==> Scanning([], DoneBlocks(h, PushUncollectable, scanPtr), {}, S)
                         && scanPtr != 0 && ScanLeft(h, scanPtr) < ScanLeft(h, old(scanPtr))
      ensures state == old(state) && |stack| <= old(|stack|) + MAX_BLOCK_OBJS
      ensures objectsAreMarked || (stack == old(stack) && objectsAreMarked == old(objectsAreMarked))
    {
      ghost var D := DoneBlocks(h, PushUncollectable, scanPtr);
      b := NextUncollectable();
      if b == 0 {
        if state != MsInvalid { CoveredLess(h, marked, stack + [], D, {}, h.blocks.Keys, {}); }
        scanPtr := 0;
      } else {
        PushMarked(b, D, {}, S);
        scanPtr := b + h.blocks[b].len;
        if state != MsInvalid { DoneUncollectable(h, marked, stack, old(scanPtr), b); }
      }
    }

    method NextUncollectable() returns (b: nat)
      requires h.Valid() && h.Disjoint()
      ensures forall c :: c in h.blocks && scanPtr <= c && (b == 0 || c < b) ==> h.blocks[c].kind != Uncollectable
      ensures b != 0 ==> b in h.blocks && scanPtr <= b && h.blocks[b].kind == Uncollectable
      ensures b != 0 ==> ScanLeft(h, b + h.blocks[b].len) < ScanLeft(h, scanPtr)
    {
      var hb := scanPtr;
      while true
        invariant forall c :: c in h.blocks && scanPtr <= c < hb ==> h.blocks[c].kind != Uncollectable
        invariant scanPtr <= hb && ScanLeft(h, hb) <= ScanLeft(h, scanPtr)
        decreases ScanLeft(h, hb)
      {
        b := NextUsed(h.blocks, hb);
        if b == 0 { return; }
        ScanAdvances(h, hb, b);
        OnlyBetween(h, hb, b);
        if h.blocks[b].kind == Uncollectable { return; }
        hb := b + h.blocks[b].len;
      }
    }

    // GC_push_all
    method PushAll(r: Range, ghost D: set<nat>, ghost R: set<Entry>, ghost S: set<Obj>)
      requires Scanning([], D, R, S) && EntryOk(h, S, [], RangeEntry(r)) && |stack| < stackSize
      modifies this`stack, this`state, this`tooSmall
      ensures Scanning([], D, R + {RangeEntry(r)}, S) && state == old(state) && |stack| <= old(|stack|) + 1
    {
      if r.words == 0 { return; }
      ghost var before := stack;
      GrayPushed(h, stack, stackSize, RangeEntry(r), S);
      PushEntry(RangeEntry(r));
      if state != MsInvalid {
        RangePending(h, marked, before, stack, D, R, r);
      }
    }

    // GC_push_all_eager: the words are scanned at once, not put on the stack.
    method PushAllEager(r: Range, ghost D: set<nat>, ghost R: set<Entry>, ghost S: set<Obj>)
      requires Scanning([], D, R, S) && Upper(h, S) && EntryOk(h, S, [], RangeEntry(r))
      modifies this`marked, this`nMarks, this`stack, this`state, this`tooSmall
      ensures Scanning([], D, R + {RangeEntry(r)}, S) && Since(old(marked), old(state), old(stack))
    {
      if state != MsInvalid {
        EagerStart(h, marked, stack, D, R, r);
      }
      var p := r.start;
      while p < r.start + r.words
        invariant r.start <= p <= r.start + r.words
        invariant Scanning([Entry(p, Length(r.start + r.words - p))], D, R + {RangeEntry(r)}, S)
        invariant Since(old(marked), old(state), old(stack))
      {
        InsideWord(h, S, RangeEntry(r), p);
        ScanNext(p, r.start + r.words - p, D, R + {RangeEntry(r)}, S);
        p := p + 1;
      }
      if state != MsInvalid {
        CoveredTrade(h, marked, stack, [Entry(p, Length(0))], [], D, R + {RangeEntry(r)});
      }
    }

    method ScanNext(p: int, ghost n: nat, ghost D: set<nat>, ghost R: set<Entry>, ghost S: set<Obj>)
      requires 0 < n && Scanning([Entry(p, Length(n))], D, R, S) && Upper(h, S) && Clean(h, S, p)
      modifies this`marked, this`nMarks, this`stack, this`state, this`tooSmall
      ensures Scanning([Entry(p + 1, Length(n - 1))], D, R, S) && Since(old(marked), old(state), old(stack))
    {
      ghost var e, next := Entry(p, Length(n)), Entry(p + 1, Length(n - 1));
      DropWord(p, e, next);
      ScanWord(p, [e], [next], D, R, S);
    }

    // GC_push_roots: static data first, then the stacks, which may overflow.
    method PushRoots(ghost S: set<Obj>)
      requires Scanning([], h.blocks.Keys, {}, S) && Upper(h, S)
      requires |stack| <= stackSize / 4
      modifies this`marked, this`nMarks, this`stack, this`state, this`tooSmall
      ensures Scanning([], h.blocks.Keys, AllRoots(h), S)
      ensures old(marked) <= marked && (state == old(state) || state == MsInvalid)
      ensures marked == old(marked) ==> state == old(state)
    {
      ghost var R := PushStatics(S);
      ghost var all := PushStacks(R, S);
      if state != MsInvalid {
        CoveredLess(h, marked, stack + [], h.blocks.Keys, all, h.blocks.Keys, AllRoots(h));
      }
    }

    method PushStatics(ghost S: set<Obj>) returns (ghost R: set<Entry>)
      requires Scanning([], h.blocks.Keys, {}, S) && Upper(h, S)
      requires |stack| <= stackSize / 4
      modifies this`stack, this`state, this`tooSmall
      ensures Scanning([], h.blocks.Keys, R, S) && state == old(state)
      ensures forall r :: r in h.statics ==> RangeEntry(r) in R
    {
      R := {};
      var i := 0;
      while i < |h.statics|
        invariant 0 <= i <= |h.statics| && |stack| <= stackSize / 4 + i
        invariant forall j :: 0 <= j < i ==> RangeEntry(h.statics[j]) in R
        invariant Scanning([], h.blocks.Keys, R, S) && state == old(state)
      {
        assert RangeEntry(h.statics[i]) in AllRoots(h);
        PushAll(h.statics[i], h.blocks.Keys, R, S);
        R := R + {RangeEntry(h.statics[i])};
        i := i + 1;
      }
    }

    method PushStacks(ghost R0: set<Entry>, ghost S: set<Obj>) returns (ghost R: set<Entry>)
      requires Scanning([], h.blocks.Keys, R0, S) && Upper(h, S)
      modifies this`marked, this`nMarks, this`stack, this`state, this`tooSmall
      ensures Scanning([], h.blocks.Keys, R, S)
      ensures R0 <= R && forall r :: r in h.stacks ==> RangeEntry(r) in R
      ensures old(marked) <= marked && (state == old(state) || state == MsInvalid)
      ensures marked == old(marked) ==> state == old(state)
    {
      R := R0;
      var i := 0;
      while i < |h.stacks|
        invariant 0 <= i <= |h.stacks|
        invariant R0 <= R && forall j :: 0 <= j < i ==> RangeEntry(h.stacks[j]) in R
        invariant Scanning([], h.blocks.Keys, R, S)
        invariant old(marked) <= marked && (state == old(state) || state == MsInvalid)
        invariant marked == old(marked) ==> state == old(state)
      {
        assert RangeEntry(h.stacks[i]) in AllRoots(h);
        PushAllStack(h.stacks[i], h.blocks.Keys, R, S);
        R := R + {RangeEntry(h.stacks[i])};
        i := i + 1;
      }
    }

    // GC_push_all_stack
    method PushAllStack(r: Range, ghost D: set<nat>, ghost R: set<Entry>, ghost S: set<Obj>)
      requires Scanning([], D, R, S) && Upper(h, S) && EntryOk(h, S, [], RangeEntry(r))
      modifies this`marked, this`nMarks, this`stack, this`state, this`tooSmall
      ensures Scanning([], D, R + {RangeEntry(r)}, S)
      ensures old(marked) <= marked && (state == old(state) || state == MsInvalid)
      ensures marked == old(marked) ==> state == old(state)
    {
      if |stack| - 1 < stackSize - INITIAL_MARK_STACK_SIZE / 8 {
        PushAll(r, D, R, S);
      } else {
        PushAllEager(r, D, R, S);
      }
    }

    // alloc_mark_stack; grow says whether the memory was obtained.
    method AllocMarkStack(n: nat, grow: bool)
      modifies this`stack, this`stackSize, this`tooSmall
      ensures stack == [] && !tooSmall && stackSize == if grow then n else old(stackSize)
    {
      tooSmall := false;
      if grow { stackSize := n; }
      stack := [];
    }

    // What holds between two calls of GC_mark_some. The pinned objects are those that
    // stay marked through the clearing of the mark bits: the uncollectable ones.
    ghost predicate MarkInv(pinned: set<Obj>)
      reads this
    {
      && h.Disjoint() && state != MsNone && pinned <= marked
      && Scanning([], DoneBlocks(h, state, scanPtr), DoneRoots(h, state), h.ReachSet(pinned))
      && (state.PartiallyInvalid? ==> objectsAreMarked)
      && (!objectsAreMarked ==>
            && ((state.MsInvalid? && scanPtr == 0) || state.PushUncollectable?)
            && stack == [] && forall o :: o in marked ==> h.blocks[o.blk].kind.IsUncollectable())
    }

    ghost function Rank(): nat
      reads this
    {
      match state
      case MsInvalid => if !objectsAreMarked then 6 else if scanPtr != 0 then 4 else 3
      case PushUncollectable => 5
      case PartiallyInvalid => 2
      case RootsPushed => 1
      case MsNone => 0
    }

    // The measure of marking went down lexicographically.
    ghost predicate Nearer(u: nat, r: nat, s: nat, w: nat)
      reads this
    {
      || Unmarked(h, marked) < u
      || (Unmarked(h, marked) == u && (
            || Rank() < r
            || (Rank() == r && (ScanLeft(h, scanPtr) < s || (ScanLeft(h, scanPtr) == s && Work(stack) < w)))))
    }

    // The mark stack has overflowed and is empty, and this is where a larger one is made.
    predicate WantsRoom()
      reads this
    {
      && tooSmall && stack == []
      && (state == RootsPushed || (state == MsInvalid && objectsAreMarked && scanPtr == 0))
    }

    // GC_mark_some: a bounded step of marking; true when a mark phase is finished.
    method MarkSome(ghost pinned: set<Obj>, grow: bool) returns (done: bool)
      requires Valid() && (state != MsNone ==> MarkInv(pinned))
      modifies this`marked, this`nMarks, this`stack, this`stackSize, this`state, this`tooSmall, this`scanPtr,
               this`objectsAreMarked
      ensures Valid()
      ensures old(state) == MsNone ==> !done && state == MsNone && marked == old(marked)
      ensures done ==> state == MsNone && stack == [] && marked == h.ReachSet(pinned)
      ensures stackSize == if grow && old(WantsRoom()) then 2 * old(stackSize) else old(stackSize)
      ensures old(state) != MsNone && !done ==>
                MarkInv(pinned)
                && Nearer(Unmarked(h, old(marked)), old(Rank()), ScanLeft(h, old(scanPtr)), Work(old(stack)))
    {
      if state == MsNone { return false; }
      ghost var S := h.ReachSet(pinned);
      UpperReach(h, pinned);
      done := false;
      if state == PushUncollectable {
        UncollectableStep(pinned);
      } else if state == RootsPushed {
        if stack != [] {
          ghost var n := MarkFrom(DoneBlocks(h, state, scanPtr), DoneRoots(h, state), S);
        } else {
          state := MsNone;
          if tooSmall { AllocMarkStack(2 * stackSize, grow); }
          MarkedIsReached(h, pinned, marked);
          done := true;
        }
      } else {
        InvalidStep(pinned, grow);
      }
    }

    // case MS_PUSH_UNCOLLECTABLE of GC_mark_some
    method UncollectableStep(ghost pinned: set<Obj>)
      requires MarkInv(pinned) && state == PushUncollectable && Upper(h, h.ReachSet(pinned))
      modifies this`marked, this`nMarks, this`stack, this`state, this`tooSmall, this`scanPtr, this`objectsAreMarked
      ensures MarkInv(pinned)
      ensures Nearer(Unmarked(h, old(marked)), old(Rank()), ScanLeft(h, old(scanPtr)), Work(old(stack)))
    {
      ghost var S := h.ReachSet(pinned);
      if |stack| - 1 >= stackSize / 4 {
        ghost var n := MarkFrom(DoneBlocks(h, state, scanPtr), {}, S);
      } else {
        var b := PushNextMarkedUncollectable(S);
        if b == 0 { RootsStep(pinned); }
      }
    }

    // Push the roots and, unless that overflows, enter MS_ROOTS_PUSHED.
    method RootsStep(ghost pinned: set<Obj>)
      requires Scanning([], h.blocks.Keys, {}, h.ReachSet(pinned)) && Upper(h, h.ReachSet(pinned))
      requires h.Disjoint() && pinned <= marked && |stack| <= stackSize / 4
      requires scanPtr == 0 && (state.PushUncollectable? || state.PartiallyInvalid?)
      modifies this`marked, this`nMarks, this`stack, this`state, this`tooSmall, this`objectsAreMarked
      ensures MarkInv(pinned)
      ensures Unmarked(h, marked) < Unmarked(h, old(marked)) || (marked == old(marked) && state == RootsPushed)
    {
      PushRoots(h.ReachSet(pinned));
      MarksGrew(h, old(marked), marked);
      objectsAreMarked := true;
      if state != MsInvalid { state := RootsPushed; }
    }

    // cases MS_INVALID and MS_PARTIALLY_INVALID of GC_mark_some
    method InvalidStep(ghost pinned: set<Obj>, grow: bool)
      requires MarkInv(pinned) && (state.MsInvalid? || state.PartiallyInvalid?) && Upper(h, h.ReachSet(pinned))
      modifies this`marked, this`nMarks, this`stack, this`stackSize, this`state, this`tooSmall, this`scanPtr,
               this`objectsAreMarked
      ensures MarkInv(pinned)
      ensures stackSize == if grow && old(WantsRoom()) then 2 * old(stackSize) else old(stackSize)
      ensures Nearer(Unmarked(h, old(marked)), old(Rank()), ScanLeft(h, old(scanPtr)), Work(old(stack)))
    {
      ghost var S := h.ReachSet(pinned);
      if !objectsAreMarked {
        state := PushUncollectable;
        NoMarksYet(h, marked);
        return;
      }
      if stack != [] {
        ghost var n := MarkFrom(DoneBlocks(h, state, scanPtr), {}, S);
        return;
      }
      RescanStep(pinned, grow);
    }

    // The same when the mark stack is empty: a new scan of the heap begins, or the scan
    // under way goes on.
    method RescanStep(ghost pinned: set<Obj>, grow: bool)
      requires MarkInv(pinned) && (state.MsInvalid? || state.PartiallyInvalid?) && Upper(h, h.ReachSet(pinned))
      requires objectsAreMarked && stack == []
      modifies this`marked, this`nMarks, this`stack, this`stackSize, this`state, this`tooSmall, this`scanPtr,
               this`objectsAreMarked
      ensures MarkInv(pinned)
      ensures stackSize == if grow && old(WantsRoom()) then 2 * old(stackSize) else old(stackSize)
      ensures Nearer(Unmarked(h, old(marked)), old(Rank()), ScanLeft(h, old(scanPtr)), Work(old(stack)))
    {
      if scanPtr == 0 && state == MsInvalid {
        if tooSmall { AllocMarkStack(2 * stackSize, grow); }
        state := PartiallyInvalid;
        NothingDone(h, marked);
      }
      ScanStep(pinned);
    }

    // Push the marked objects of the next block; after the last block, push the roots.
    method ScanStep(ghost pinned: set<Obj>)
      requires MarkInv(pinned) && stack == [] && objectsAreMarked && Upper(h, h.ReachSet(pinned))
      requires state.PartiallyInvalid? || (state.MsInvalid? && scanPtr != 0)
      modifies this`marked, this`nMarks, this`stack, this`state, this`tooSmall, this`scanPtr, this`objectsAreMarked
      ensures MarkInv(pinned)
      ensures || Unmarked(h, marked) < Unmarked(h, old(marked))
              || (marked == old(marked) && state == old(state) && scanPtr != 0 && objectsAreMarked
                  && ScanLeft(h, scanPtr) < ScanLeft(h, old(scanPtr)))
              || (marked == old(marked) && Rank() < old(Rank()))
    {
      var b := PushNextMarked(h.ReachSet(pinned));
      if b == 0 && state == PartiallyInvalid {
        RootsStep(pinned);
      }
    }

    // A whole mark phase: the loop of GC_stopped_mark with a stop function that never
    // fires. It terminates, and marks exactly what can be reached.
    method MarkToCompletion(ghost pinned: set<Obj>)
      requires Valid() && MarkInv(pinned)
      modifies this`marked, this`nMarks, this`stack, this`stackSize, this`state, this`tooSmall, this`scanPtr,
               this`objectsAreMarked
      ensures Valid() && state == MsNone && stack == [] && marked == h.ReachSet(pinned)
      ensures stackSize >= old(stackSize)
    {
      var done := false;
      while !done
        invariant stackSize >= old(stackSize)
        invariant Valid() && if done then state == MsNone && stack == [] && marked == h.ReachSet(pinned)
                  else MarkInv(pinned)
        decreases !done, Unmarked(h, marked), Rank(), ScanLeft(h, scanPtr), Work(stack)
      {
        var grow: bool := *;
        done := MarkSome(pinned, grow);
      }
    }

    // GC_invalidate_mark_state
    method InvalidateMarkState()
      modifies this`state, this`stack
      ensures state == MsInvalid && stack == []
    {
      state := MsInvalid;
      stack := [];
    }

    // GC_clear_marks: the mark bits of uncollectable objects stay.
    method ClearMarks()
      requires Valid() && stack == [] && h.Disjoint()
      modifies this`marked, this`nMarks, this`state, this`scanPtr, this`objectsAreMarked
      ensures Valid() && MarkInv(marked)
      ensures marked == UncollectableOf(h, old(marked))
      ensures state == MsInvalid && scanPtr == 0 && !objectsAreMarked
    {
      var todo := h.blocks.Keys;
      while todo != {}
        invariant todo <= h.blocks.Keys && MarksOk(h, marked, nMarks)
        invariant marked == set o | o in old(marked) && (o.blk in todo || h.blocks[o.blk].kind.IsUncollectable())
        decreases todo
      {
        var b :| b in todo;
        if !h.blocks[b].kind.IsUncollectable() {
          MarksOkClear(h, marked, nMarks, b);
          marked := WithoutBlock(marked, b);
          nMarks := nMarks[b := 0];
        }
        todo := todo - {b};
      }
      objectsAreMarked := false;
      state := MsInvalid;
      scanPtr := 0;
      PinnedReached(h, marked);
    }

    // GC_initiate_gc for a full collection.
    method InitiateGc(ghost pinned: set<Obj>)
      requires Valid() && MarkInv(pinned) && state == MsInvalid && !objectsAreMarked
      modifies this`scanPtr
      ensures Valid() && MarkInv(pinned) && scanPtr == 0
    {
      scanPtr := 0;
    }

    // GC_set_mark_bit
    method SetMarkBit(p: Obj)
      requires Valid() && h.IsObj(p)
      modifies this`marked, this`nMarks
      ensures Valid() && marked == old(marked) + {p}
    {
      if p !in marked {
        MarksOkMark(h, marked, nMarks, p);
        marked := marked + {p};
        nMarks := nMarks[p.blk := nMarks[p.blk] + 1];
      }
    }

    // The GC_DS_BITMAP case of GC_mark_from.
    method ScanBitmap(start: int, bits: seq<bool>, ghost D: set<nat>, ghost R: set<Entry>, ghost S: set<Obj>)
      requires Scanning([Entry(start, Bitmap(bits))], D, R, S) && Upper(h, S)
      requires EntryOk(h, S, [], Entry(start, Bitmap(bits)))
      modifies this`marked, this`nMarks, this`stack, this`state, this`tooSmall
      ensures Scanning([], D, R, S) && Since(old(marked), old(state), old(stack))
      ensures Now() == Bits(h, stackSize, old(Now()), start, bits)
    {
      var cur := start;
      var descr := bits;
      while descr != []
        invariant start <= cur <= start + |bits| && descr == bits[cur - start..]
        invariant Scanning([Entry(cur, Bitmap(descr))], D, R, S) && Since(old(marked), old(state), old(stack))
        invariant Bits(h, stackSize, Now(), cur, descr) == Bits(h, stackSize, old(Now()), start, bits)
        decreases |descr|
      {
        ghost var e, next := Entry(cur, Bitmap(descr)), Entry(cur + 1, Bitmap(descr[1..]));
        DropBit(cur, descr);
        if descr[0] {
          InsideWord(h, S, Entry(start, Bitmap(bits)), cur);
          ScanWord(cur, [e], [next], D, R, S);
        } else if state != MsInvalid {
          CoveredTrade(h, marked, stack, [e], [next], D, R);
        }
        descr := descr[1..];
        cur := cur + 1;
      }
      if state != MsInvalid {
        CoveredTrade(h, marked, stack, [Entry(cur, Bitmap(descr))], [], D, R);
      }
    }
  }

  // The entries of the marked objects of block b from number k on.
  ghost function MarkedEntries(h: Heap, marked: set<Obj>, b: nat, k: nat): seq<Entry>
    requires b in h.blocks && k <= |h.blocks[b].bases|
    decreases |h.blocks[b].bases| - k
  {
    if k == |h.blocks[b].bases| then []
    else if Obj(b, k) in marked then [h.EntryOf(Obj(b, k))] + MarkedEntries(h, marked, b, k + 1)
    else MarkedEntries(h, marked, b, k + 1)
  }

  lemma {:induction false} MarkedEntriesHave(h: Heap, marked: set<Obj>, b: nat, k: nat, j: nat)
    requires b in h.blocks && k <= j < |h.blocks[b].bases| && Obj(b, j) in marked
    ensures h.EntryOf(Obj(b, j)) in MarkedEntries(h, marked, b, k)
    decreases j - k
  {
    if k < j { MarkedEntriesHave(h, marked, b, k + 1, j); }
  }

  lemma BlockPending(h: Heap, marked: set<Obj>, stack: seq<Entry>, D: set<nat>, R: set<Entry>, b: nat, valid: bool)
    requires b in h.blocks
    requires valid ==> Covered(h, marked, stack + [], D, R)
    ensures valid ==> Covered(h, marked, stack + MarkedEntries(h, marked, b, 0), D + {b}, R)
  {
    if valid {
      var g := stack + MarkedEntries(h, marked, b, 0);
      forall a | Pending(stack + [], a) ensures Pending(g, a) {
        PendingConcat(stack, MarkedEntries(h, marked, b, 0), a);
        PendingConcat(stack, [], a);
      }
      CoveredTransfer(h, marked, stack + [], g, D, R);
      forall o | o in marked && o.blk == b && h.IsObj(o) ensures EntryOk(h, marked, g, h.EntryOf(o)) {
        MarkedEntriesHave(h, marked, b, 0, o.idx);
        assert o == Obj(b, o.idx) && h.EntryOf(o) in g;
      }
    }
  }

  // A block with no pointers or without marks needs no work.
  lemma NothingPending(h: Heap, marked: set<Obj>, nMarks: map<nat, nat>, stack: seq<Entry>, D: set<nat>,
        R: set<Entry>, b: nat)
    requires b in h.blocks && Counts(h, marked, nMarks) && b in nMarks
    requires h.blocks[b].descr == Length(0) || nMarks[b] == 0
    requires Covered(h, marked, stack + [], D, R)
    ensures Covered(h, marked, stack + [], D + {b}, R)
  {
    forall o | o in marked && o.blk == b && h.IsObj(o) ensures EntryOk(h, marked, stack + [], h.EntryOf(o)) {
      assert o in MarkedOf(marked, b);
    }
  }

  lemma CoveredLess(h: Heap, marked: set<Obj>, g: seq<Entry>, D: set<nat>, R: set<Entry>, D2: set<nat>, R2: set<Entry>)
    requires Covered(h, marked, g, D, R) && R2 <= R
    requires forall b :: b in D2 && b in h.blocks ==> b in D
    ensures Covered(h, marked, g, D2, R2)
  {
    forall o | o in marked && o.blk in D2 && h.IsObj(o) ensures EntryOk(h, marked, g, h.EntryOf(o)) {
      assert o.blk in D;
    }
  }

  // The number of blocks that a scan has still to visit.
  ghost function ScanLeft(h: Heap, scan: nat): nat {
    |BlocksFrom(h, scan)|
  }

  ghost function BlocksFrom(h: Heap, scan: nat): set<nat> {
    set b | b in h.blocks && b >= scan
  }

  lemma ScanAdvances(h: Heap, scan: nat, b: nat)
    requires h.Valid() && b in h.blocks && scan <= b
    ensures ScanLeft(h, b + h.blocks[b].len) < ScanLeft(h, scan)
  {
    ProperSubsetSize(BlocksFrom(h, b + h.blocks[b].len), BlocksFrom(h, scan), b);
  }

  lemma RangePending(h: Heap, marked: set<Obj>, before: seq<Entry>, after: seq<Entry>, D: set<nat>, R: set<Entry>,
        r: Range)
    requires Covered(h, marked, before + [], D, R) && after == before + [RangeEntry(r)]
    ensures Covered(h, marked, after + [], D, R + {RangeEntry(r)})
  {
    assert before + [] == before && after + [] == after;
    forall a | Pending(before, a) ensures Pending(after, a) {
      PendingConcat(before, [RangeEntry(r)], a);
    }
    CoveredTransfer(h, marked, before, after, D, R);
    assert RangeEntry(r) in after;
  }

  lemma DropWord(p: int, e: Entry, next: Entry)
    requires e.descr.Length? && e.start == p && e.descr.words > 0
    requires next == Entry(p + 1, Length(e.descr.words - 1))
    ensures forall a :: Pending([e], a) ==> a == p || Pending([next], a)
  {
    forall a | Pending([e], a) && a != p ensures Pending([next], a) {
      assert Covers(e, a) && next in [next] && Covers(next, a);
    }
  }

  lemma UpperReach(h: Heap, pinned: set<Obj>)
    requires h.Valid() && forall o :: o in pinned ==> h.IsObj(o)
    ensures Upper(h, h.ReachSet(pinned))
  {
    forall o | o in pinned ensures o in h.AllObjs() { AllObjsHasObjs(h, o); }
    ReachSetFacts(h, pinned);
    forall r | r in AllRoots(h) ensures EntryOk(h, h.ReachSet(pinned), [], r) {
      forall a | Covers(r, a) ensures Clean(h, h.ReachSet(pinned), a) {
        assert h.RootWord(a);
        if h.Target(a).Some? {
          AllObjsHasObjs(h, h.Target(a).value);
          assert h.Target(a).value in h.RootObjs();
        }
      }
    }
  }

  // With an empty stack, covered blocks and roots make the marked objects closed.
  lemma MarkedIsReached(h: Heap, pinned: set<Obj>, marked: set<Obj>)
    requires h.Valid() && pinned <= marked <= h.ReachSet(pinned)
    requires forall o :: o in marked ==> h.IsObj(o)
    requires Covered(h, marked, [] + [], h.blocks.Keys, AllRoots(h))
    ensures marked == h.ReachSet(pinned)
  {
    forall o, p | o in marked && h.EdgeRel()(o, p) ensures p in marked {
      var a :| Covers(h.EntryOf(o), a) && h.Target(a) == Some(p);
      assert EntryOk(h, marked, [] + [], h.EntryOf(o));
      assert !Pending([] + [], a);
    }
    forall p | p in h.RootObjs() ensures p in marked {
      var a :| h.RootWord(a) && h.Target(a) == Some(p);
      var r :| (r in h.statics || r in h.stacks) && r.start <= a < r.start + r.words;
      assert RangeEntry(r) in AllRoots(h) && Covers(RangeEntry(r), a);
      assert !Pending([] + [], a);
    }
    forall o | o in pinned ensures o in h.AllObjs() { AllObjsHasObjs(h, o); }
    ReachSetFacts(h, pinned);
    assert EdgeClosed(h.EdgeRel(), marked) && h.RootObjs() + pinned <= marked;
  }

  lemma NoMarksYet(h: Heap, marked: set<Obj>)
    requires h.Valid() && forall o :: o in marked ==> h.IsObj(o) && h.blocks[o.blk].kind.IsUncollectable()
    ensures Covered(h, marked, [] + [], DoneBlocks(h, PushUncollectable, 0), {})
  {
  }

  lemma NothingDone(h: Heap, marked: set<Obj>)
    requires h.Valid()
    ensures Covered(h, marked, [] + [], DoneBlocks(h, PartiallyInvalid, 0), {})
  {
  }

  // b is the only block that a scan passes when it moves from scan to the end of b.
  lemma OnlyBetween(h: Heap, scan: nat, b: nat)
    requires h.Valid() && h.Disjoint() && b in h.blocks
    requires forall c :: c in h.blocks && scan <= c ==> b <= c
    ensures forall c :: c in h.blocks && scan <= c < b + h.blocks[b].len ==> c == b
  {
    forall c | c in h.blocks && scan <= c < b + h.blocks[b].len ensures c == b {
      assert Precedes(b, c) <==> b < c;
    }
  }

  lemma DoneAdvances(h: Heap, marked: set<Obj>, stack: seq<Entry>, scan: nat, b: nat)
    requires h.Valid() && h.Disjoint() && b == NextUsed(h.blocks, scan) && b != 0
    requires Covered(h, marked, stack + [], DoneBlocks(h, PartiallyInvalid, scan) + {b}, {})
    ensures Covered(h, marked, stack + [], DoneBlocks(h, PartiallyInvalid, b + h.blocks[b].len), {})
  {
    OnlyBetween(h, scan, b);
    CoveredLess(h, marked, stack + [], DoneBlocks(h, PartiallyInvalid, scan) + {b}, {},
                DoneBlocks(h, PartiallyInvalid, b + h.blocks[b].len), {});
  }

  lemma DoneUncollectable(h: Heap, marked: set<Obj>, stack: seq<Entry>, scan: nat, b: nat)
    requires h.Valid() && h.Disjoint() && b in h.blocks
    requires forall c :: c in h.blocks && scan <= c < b ==> h.blocks[c].kind != Uncollectable
    requires Covered(h, marked, stack + [], DoneBlocks(h, PushUncollectable, scan) + {b}, {})
    ensures Covered(h, marked, stack + [], DoneBlocks(h, PushUncollectable, b + h.blocks[b].len), {})
  {
    OnlyBetween(h, b, b);
    CoveredLess(h, marked, stack + [], DoneBlocks(h, PushUncollectable, scan) + {b}, {},
                DoneBlocks(h, PushUncollectable, b + h.blocks[b].len), {});
  }

  lemma DoneAll(h: Heap, marked: set<Obj>, stack: seq<Entry>, scan: nat)
    requires h.Valid() && NextUsed(h.blocks, scan) == 0
    requires Covered(h, marked, stack + [], DoneBlocks(h, PartiallyInvalid, scan), {})
    ensures Covered(h, marked, stack + [], h.blocks.Keys, {})
  {
    CoveredLess(h, marked, stack + [], DoneBlocks(h, PartiallyInvalid, scan), {}, h.blocks.Keys, {});
  }

  lemma EagerStart(h: Heap, marked: set<Obj>, stack: seq<Entry>, D: set<nat>, R: set<Entry>, r: Range)
    requires Covered(h, marked, stack + [], D, R)
    ensures Covered(h, marked, stack + [RangeEntry(r)], D, R + {RangeEntry(r)})
  {
    RangePending(h, marked, stack, stack + [RangeEntry(r)], D, R, r);
    assert (stack + [RangeEntry(r)]) + [] == stack + [RangeEntry(r)];
  }

  ghost function UncollectableOf(h: Heap, marked: set<Obj>): set<Obj> {
    set o | o in marked && o.blk in h.blocks && h.blocks[o.blk].kind.IsUncollectable()
  }

  function WithoutBlock(marked: set<Obj>, b: nat): set<Obj> {
    set o | o in marked && o.blk != b
  }

  lemma MarksOkClear(h: Heap, marked: set<Obj>, nMarks: map<nat, nat>, b: nat)
    requires MarksOk(h, marked, nMarks) && b in h.blocks
    ensures MarksOk(h, WithoutBlock(marked, b), nMarks[b := 0])
  {
    var m := WithoutBlock(marked, b);
    forall c | c in h.blocks ensures c in nMarks[b := 0] && nMarks[b := 0][c] == |MarkedOf(m, c)| {
      assert |MarkedOf(marked, c)| == nMarks[c];
      if c == b {
        assert MarkedOf(m, c) == {};
      } else {
        assert MarkedOf(m, c) == MarkedOf(marked, c);
      }
    }
  }

  lemma PinnedReached(h: Heap, pinned: set<Obj>)
    requires h.Valid() && forall o :: o in pinned ==> h.IsObj(o)
    ensures pinned <= h.ReachSet(pinned)
  {
    forall o | o in pinned ensures o in h.AllObjs() { AllObjsHasObjs(h, o); }
    ReachSetFacts(h, pinned);
  }

  lemma InsideWord(h: Heap, S: set<Obj>, e: Entry, a: int)
    requires EntryOk(h, S, [], e) && Covers(e, a)
    ensures Clean(h, S, a)
  {
    assert !Pending([], a);
  }

  lemma SplitTop(h: Heap, marked: set<Obj>, below: seq<Entry>, top: Entry, rest: Entry, part: Entry, S: set<Obj>,
                 D: set<nat>, R: set<Entry>, valid: bool)
    requires top.descr.Length? && top.descr.words >= SPLIT_RANGE_WORDS
    requires part == Entry(top.start, Length(SPLIT_RANGE_WORDS - 1))
    requires rest == Entry(top.start + SPLIT_RANGE_WORDS - 1, Length(top.descr.words - (SPLIT_RANGE_WORDS - 1)))
    requires valid ==> Covered(h, marked, below + [top], D, R)
    requires GrayInside(h, below + [top], S)
    ensures valid ==> Covered(h, marked, (below + [rest]) + [part], D, R)
    ensures GrayInside(h, below + [rest], S) && EntryOk(h, S, [], part)
  {
    assert forall a :: Covers(part, a) || Covers(rest, a) <==> Covers(top, a);
    assert top in below + [top] && forall e :: e in below ==> e in below + [top];
    assert EntryOk(h, S, [], top);
    if valid {
      forall a | Pending([top], a) ensures Clean(h, marked, a) || Pending([rest, part], a) {
        assert rest in [rest, part] && part in [rest, part];
      }
      CoveredTrade(h, marked, below, [top], [rest, part], D, R);
      assert below + [rest, part] == (below + [rest]) + [part];
    }
  }

  lemma DropFirst(cur: int, limit: int, rest: Entry, next: Entry, last: Entry)
    requires cur <= limit
    requires rest == Entry(cur, Length(limit + 1 - cur)) && next == Entry(cur + 1, Length(limit - cur))
    ensures forall a :: Pending([rest, last], a) ==> a == cur || Pending([next, last], a)
  {
    forall a | Pending([rest, last], a) && a != cur ensures Pending([next, last], a) {
      assert next in [next, last] && last in [next, last];
      if Covers(rest, a) { assert Covers(next, a); }
    }
  }

  lemma DropBit(cur: int, descr: seq<bool>)
    requires descr != []
    ensures forall a :: Pending([Entry(cur, Bitmap(descr))], a) ==>
                          (a == cur && descr[0]) || Pending([Entry(cur + 1, Bitmap(descr[1..]))], a)
  {
    var e, next := Entry(cur, Bitmap(descr)), Entry(cur + 1, Bitmap(descr[1..]));
    forall a | Pending([e], a) ensures (a == cur && descr[0]) || Pending([next], a) {
      assert Covers(e, a);
      if a != cur { assert next in [next] && Covers(next, a); }
    }
  }

  // Words above limit + 1 refer to nothing; the word at limit + 1 is deferred.
  lemma TradeTail(h: Heap, marked: set<Obj>, stack: seq<Entry>, lo: int, limit: int, hi: int, D: set<nat>,
        R: set<Entry>)
    requires lo <= limit + 1 <= hi
    requires forall a :: limit + 1 < a <= hi ==> h.Target(a).None?
    requires Covered(h, marked, stack + [Entry(lo, Length(hi + 1 - lo))], D, R)
    ensures Covered(h, marked, stack + [Entry(lo, Length(limit + 1 - lo)), Entry(limit + 1, Length(1))], D, R)
  {
    var whole, rest, last := Entry(lo, Length(hi + 1 - lo)), Entry(lo, Length(limit + 1 - lo)),
        Entry(limit + 1, Length(1));
    forall a | Pending([whole], a) ensures Clean(h, marked, a) || Pending([rest, last], a) {
      assert Covers(whole, a) && rest in [rest, last] && last in [rest, last];
    }
    CoveredTrade(h, marked, stack, [whole], [rest, last], D, R);
  }
}
