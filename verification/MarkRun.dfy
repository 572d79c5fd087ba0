// What marking from the mark stack does, step by step, as functions: which objects get
// marked, what the stack holds, and whether it overflowed.
module MarkRun {
  import opened GcHeap
  import opened Kinds
  import opened Options

  const MARK_STACK_DISCARDS: nat := 512
  const SPLIT_RANGE_WORDS: nat := 128

  // The mark stack after a push: a full stack loses its top entries.
  function Pushed(s: seq<Entry>, size: nat, e: Entry): seq<Entry>
    requires MARK_STACK_DISCARDS <= size && |s| <= size
  {
    if |s| < size then s + [e] else s[..size - MARK_STACK_DISCARDS] + [e]
  }

  datatype Run = Run(marked: set<Obj>, stack: seq<Entry>, over: bool)

  predicate Fits(s: Run, size: nat) { MARK_STACK_DISCARDS <= size && |s.stack| <= size }

  // The word w is found: what it refers to is marked and, if it holds pointers, pushed.
  ghost function Touch(h: Heap, size: nat, s: Run, w: int): (t: Run)
    requires h.Valid() && Fits(s, size)
    ensures Fits(t, size) && s.marked <= t.marked && (s.over ==> t.over)
  {
    if w !in h.resolve || h.resolve[w] in s.marked then s else
      var p := h.resolve[w];
      var e := h.EntryOf(p);
      if e.descr == Length(0) then Run(s.marked + {p}, s.stack, s.over)
      else Run(s.marked + {p}, Pushed(s.stack, size, e), s.over || |s.stack| == size)
  }

  // The n words from lo on.
  ghost function Words(h: Heap, size: nat, s: Run, lo: int, n: nat): (t: Run)
    requires h.Valid() && Fits(s, size)
    ensures Fits(t, size) && s.marked <= t.marked && (s.over ==> t.over)
  {
    if n == 0 then s else Touch(h, size, Words(h, size, s, lo, n - 1), h.Read(lo + n - 1))
  }

  // The words from start on that bits selects.
  ghost function Bits(h: Heap, size: nat, s: Run, start: int, bits: seq<bool>): (t: Run)
    requires h.Valid() && Fits(s, size)
    ensures Fits(t, size) && s.marked <= t.marked && (s.over ==> t.over)
    decreases |bits|
  {
    if bits == [] then s else
      Bits(h, size, if bits[0] then Touch(h, size, s, h.Read(start)) else s, start + 1, bits[1..])
  }

  // One round of GC_mark_from: the top entry, or the first part of a long one.
  ghost function Round(h: Heap, size: nat, s: Run): (t: Run)
    requires h.Valid() && Fits(s, size)
    ensures Fits(t, size) && s.marked <= t.marked && (s.over ==> t.over)
  {
    if s.stack == [] then s else
      var top, below := s.stack[|s.stack| - 1], s.stack[..|s.stack| - 1];
      match top.descr
      case Bitmap(bits) => Bits(h, size, Run(s.marked, below, s.over), top.start, bits)
      case Length(n) =>
        if n < SPLIT_RANGE_WORDS then Words(h, size, Run(s.marked, below, s.over), top.start, n)
        else
          var rest := Entry(top.start + SPLIT_RANGE_WORDS - 1, Length(n - (SPLIT_RANGE_WORDS - 1)));
          Words(h, size, Run(s.marked, below + [rest], s.over), top.start, SPLIT_RANGE_WORDS - 1)
  }

  ghost function Rounds(h: Heap, size: nat, s: Run, n: nat): (t: Run)
    requires h.Valid() && Fits(s, size)
    ensures Fits(t, size) && s.marked <= t.marked && (s.over ==> t.over)
  {
    if n == 0 then s else Round(h, size, Rounds(h, size, s, n - 1))
  }

  // Words that refer to nothing change nothing.
  lemma {:induction false} IdleWords(h: Heap, size: nat, s: Run, lo: int, n: nat, k: nat)
    requires h.Valid() && Fits(s, size) && forall a :: lo + n <= a < lo + n + k ==> h.Target(a).None?
    ensures Words(h, size, s, lo, n + k) == Words(h, size, s, lo, n)
  {
    if k > 0 {
      IdleWords(h, size, s, lo, n, k - 1);
      assert h.Target(lo + n + k - 1).None?;
    }
  }

  lemma {:induction false} RoundsAdd(h: Heap, size: nat, s: Run, n: nat, k: nat)
    requires h.Valid() && Fits(s, size)
    ensures Rounds(h, size, s, n + k) == Rounds(h, size, Rounds(h, size, s, n), k)
  {
    if k > 0 { RoundsAdd(h, size, s, n, k - 1); }
  }

  // Marking is over when the stack is empty.
  lemma {:induction false} RoundsStop(h: Heap, size: nat, s: Run, k: nat)
    requires h.Valid() && Fits(s, size) && s.stack == []
    ensures Rounds(h, size, s, k) == s
  {
    if k > 0 { RoundsStop(h, size, s, k - 1); }
  }

  // Marking from s overflows the stack at some time.
  ghost predicate Overflows(h: Heap, size: nat, s: Run)
    requires h.Valid() && Fits(s, size)
  {
    exists n: nat :: Rounds(h, size, s, n).over
  }

  // Whether it does is known when the stack is empty.
  lemma OverflowsAtEnd(h: Heap, size: nat, s: Run, n: nat)
    requires h.Valid() && Fits(s, size) && Rounds(h, size, s, n).stack == []
    ensures Overflows(h, size, s) <==> Rounds(h, size, s, n).over
  {
    if k: nat :| Rounds(h, size, s, k).over {
      if k <= n {
        RoundsAdd(h, size, s, k, n - k);
      } else {
        RoundsAdd(h, size, s, n, k - n);
        RoundsStop(h, size, Rounds(h, size, s, n), k - n);
      }
    }
  }

  // ---------------------------------------------------------------------
  // A stack with room for every unmarked object does not overflow.

  ghost function UnmarkedSet(h: Heap, marked: set<Obj>): set<Obj> {
    set o | o in h.AllObjs() && o !in marked
  }

  ghost function Unmarked(h: Heap, marked: set<Obj>): nat {
    |UnmarkedSet(h, marked)|
  }

  ghost predicate Room(h: Heap, size: nat, s: Run) {
    !s.over && |s.stack| + Unmarked(h, s.marked) <= size
  }

  lemma TouchRoom(h: Heap, size: nat, s: Run, w: int)
    requires h.Valid() && Fits(s, size) && Room(h, size, s)
    ensures Room(h, size, Touch(h, size, s, w))
  {
    if w in h.resolve && h.resolve[w] !in s.marked {
      var p := h.resolve[w];
      AllObjsHasObjs(h, p);
      assert UnmarkedSet(h, s.marked) == UnmarkedSet(h, s.marked + {p}) + {p};
    }
  }

  lemma {:induction false} WordsRoom(h: Heap, size: nat, s: Run, lo: int, n: nat)
    requires h.Valid() && Fits(s, size) && Room(h, size, s)
    ensures Room(h, size, Words(h, size, s, lo, n))
  {
    if n > 0 {
      WordsRoom(h, size, s, lo, n - 1);
      TouchRoom(h, size, Words(h, size, s, lo, n - 1), h.Read(lo + n - 1));
    }
  }

  lemma {:induction false} BitsRoom(h: Heap, size: nat, s: Run, start: int, bits: seq<bool>)
    requires h.Valid() && Fits(s, size) && Room(h, size, s)
    ensures Room(h, size, Bits(h, size, s, start, bits))
    decreases |bits|
  {
    if bits != [] {
      TouchRoom(h, size, s, h.Read(start));
      BitsRoom(h, size, if bits[0] then Touch(h, size, s, h.Read(start)) else s, start + 1, bits[1..]);
    }
  }

  lemma RoundRoom(h: Heap, size: nat, s: Run)
    requires h.Valid() && Fits(s, size) && Room(h, size, s)
    ensures Room(h, size, Round(h, size, s))
  {
    if s.stack != [] {
      var top, below := s.stack[|s.stack| - 1], s.stack[..|s.stack| - 1];
      match top.descr
      case Bitmap(bits) => BitsRoom(h, size, Run(s.marked, below, s.over), top.start, bits);
      case Length(n) =>
        if n < SPLIT_RANGE_WORDS {
          WordsRoom(h, size, Run(s.marked, below, s.over), top.start, n);
        } else {
          var rest := Entry(top.start + SPLIT_RANGE_WORDS - 1, Length(n - (SPLIT_RANGE_WORDS - 1)));
          WordsRoom(h, size, Run(s.marked, below + [rest], s.over), top.start, SPLIT_RANGE_WORDS - 1);
        }
    }
  }

  lemma {:induction false} RoundsRoom(h: Heap, size: nat, s: Run, n: nat)
    requires h.Valid() && Fits(s, size) && Room(h, size, s)
    ensures Room(h, size, Rounds(h, size, s, n))
  {
    if n > 0 {
      RoundsRoom(h, size, s, n - 1);
      RoundRoom(h, size, Rounds(h, size, s, n - 1));
    }
  }

  lemma RoomIsEnough(h: Heap, size: nat, s: Run)
    requires h.Valid() && Fits(s, size) && Room(h, size, s)
    ensures !Overflows(h, size, s)
  {
    forall n: nat ensures !Rounds(h, size, s, n).over { RoundsRoom(h, size, s, n); }
  }

  // ---------------------------------------------------------------------
  // A heap in which it overflows: a list of n cells, the objects of the odd blocks, each
  // of which refers to a leaf with room for pointers and then to the next cell. The leaves
  // stay on the stack while the cells are followed.

  predicate InCell(a: int) { a % 4 >= 2 }

  function Spine(n: nat): Heap {
    Heap(map a: int | 2 <= a < 4 * n + 2 && InCell(a) :: if a % 4 == 2 then a + 2 else a + 3,
         map b: nat | 1 <= b <= 2 * n + 1 :: Block(1, Normal, Length(2), [2 * b]),
         map w: int | 2 <= w <= 4 * n + 2 && w % 2 == 0 :: Obj(w / 2, 0),
         [], [])
  }

  lemma SpineValid(n: nat)
    ensures Spine(n).Valid() && Spine(n).Disjoint()
  {
    var h := Spine(n);
    forall w | w in h.resolve ensures h.IsObj(h.resolve[w]) { assert 1 <= w / 2 <= 2 * n + 1; }
  }

  lemma SpineWords(n: nat, k: nat)
    requires k < n
    ensures var h := Spine(n);
            h.Target(4 * k + 2) == Some(Obj(2 * k + 2, 0)) && h.Target(4 * k + 3) == Some(Obj(2 * k + 3, 0))
  {
    assert InCell(4 * k + 2) && InCell(4 * k + 3);
    assert Spine(n).Read(4 * k + 2) == 4 * k + 4 && Spine(n).Read(4 * k + 3) == 4 * k + 6;
  }

  // Nothing refers to the first cell.
  lemma SpineHead(n: nat, a: int)
    ensures Spine(n).Target(a) != Some(Obj(1, 0))
  {
  }

  // The state when k cells have been followed.
  ghost predicate SpineAt(n: nat, s: Run, k: nat) {
    && k <= n && !s.over && |s.stack| == k + 1 && s.stack[k] == Entry(4 * k + 2, Length(2))
    && forall o :: o in s.marked ==> o.blk <= 2 * k + 1
  }

  lemma SpineRound(n: nat, size: nat, s: Run, k: nat)
    requires Spine(n).Valid() && Fits(s, size) && SpineAt(n, s, k) && k < n && k < size
    ensures var t := Round(Spine(n), size, s); if k + 1 < size then SpineAt(n, t, k + 1) else t.over
  {
    var h, below := Spine(n), s.stack[..k];
    SpineWords(n, k);
    var s0 := Run(s.marked, below, s.over);
    var s1 := Words(h, size, s0, 4 * k + 2, 1);
    assert Words(h, size, s0, 4 * k + 2, 0) == s0;
    assert s1 == Touch(h, size, s0, h.Read(4 * k + 2));
    assert h.EntryOf(Obj(2 * k + 2, 0)) == Entry(4 * k + 4, Length(2))
        && h.EntryOf(Obj(2 * k + 3, 0)) == Entry(4 * k + 6, Length(2));
    assert s1 == Run(s.marked + {Obj(2 * k + 2, 0)}, below + [Entry(4 * k + 4, Length(2))], false);
    assert Words(h, size, s0, 4 * k + 2, 2) == Touch(h, size, s1, h.Read(4 * k + 3));
  }

  lemma {:induction false} SpineRounds(n: nat, size: nat, s: Run, k: nat)
    requires Spine(n).Valid() && Fits(s, size) && SpineAt(n, s, 0) && k < size && k <= n
    ensures SpineAt(n, Rounds(Spine(n), size, s, k), k)
  {
    if k > 0 {
      SpineRounds(n, size, s, k - 1);
      SpineRound(n, size, Rounds(Spine(n), size, s, k - 1), k - 1);
    }
  }

  // Whatever its size, a stack overflows on a list that is as long.
  lemma SpineOverflows(size: nat)
    requires MARK_STACK_DISCARDS <= size
    ensures Spine(size).Valid() && Spine(size).Disjoint()
    ensures Overflows(Spine(size), size, Run({}, [Entry(2, Length(2))], false))
  {
    SpineValid(size);
    var s := Run({}, [Entry(2, Length(2))], false);
    SpineRounds(size, size, s, size - 1);
    SpineRound(size, size, Rounds(Spine(size), size, s, size - 1), size - 1);
    assert Rounds(Spine(size), size, s, size).over;
  }
}
