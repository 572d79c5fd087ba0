// The heap as the marker sees it while the world is stopped: the used blocks
// with their objects, the words in memory, the root ranges, and the objects
// that words refer to.
module GcHeap {
  import opened Graphs
  import opened Kinds
  import opened Options

  // Mark descriptors: a length in words, or one bit per word. Length(0) is the
  // descriptor of pointer-free objects.
  datatype Descr = Length(words: nat) | Bitmap(bits: seq<bool>)

  // A mark stack entry: the words at start that descr selects are to be scanned.
  datatype Entry = Entry(start: int, descr: Descr)

  datatype Range = Range(start: int, words: nat)

  predicate Covers(e: Entry, a: int) {
    match e.descr
    case Length(n) => e.start <= a < e.start + n
    case Bitmap(bits) => 0 <= a - e.start < |bits| && bits[a - e.start]
  }

  // A small-object block holds at most HBLKSIZE / GRANULE_BYTES objects.
  const MAX_BLOCK_OBJS: nat := 256

  // A used block: len is in heap blocks (hblks); bases are the addresses of its
  // objects, in mark bit order.
  datatype Block = Block(len: nat, kind: Kind, descr: Descr, bases: seq<int>) {
    ghost predicate Valid() {
      && len > 0
      && |bases| <= MAX_BLOCK_OBJS
      && (kind.PtrFree? || kind.AUncollectable? ==> descr == Length(0))
    }
  }

  predicate Precedes(b: nat, c: nat) { b < c }

  // An object is named by its block and its mark bit number.
  datatype Obj = Obj(blk: nat, idx: nat)

  // blocks is indexed by hblk address.
  datatype Heap = Heap(mem: map<int, int>, blocks: map<nat, Block>, resolve: map<int, Obj>,
                       statics: seq<Range>, stacks: seq<Range>) {
    ghost predicate Valid() {
      && (forall b :: b in blocks ==> b > 0 && blocks[b].Valid())
      && (forall w :: w in resolve ==> IsObj(resolve[w]))
    }

    // Blocks do not overlap.
    ghost predicate Disjoint() {
      forall b, c {:trigger Precedes(b, c)} :: b in blocks && c in blocks && Precedes(b, c) ==> b + blocks[b].len <= c
    }

    predicate IsObj(o: Obj) { o.blk in blocks && o.idx < |blocks[o.blk].bases| }

    function EntryOf(o: Obj): Entry
      requires IsObj(o)
    {
      Entry(blocks[o.blk].bases[o.idx], blocks[o.blk].descr)
    }

    function Read(a: int): int { if a in mem then mem[a] else 0 }

    // The object, if any, that the word w refers to.
    function Resolve(w: int): Option<Obj> {
      if w in resolve then Some(resolve[w]) else None
    }

    function Target(a: int): Option<Obj> { Resolve(Read(a)) }

    // o has a scanned word that refers to p.
    ghost predicate Edge(o: Obj, p: Obj) {
      IsObj(o) && exists a :: Covers(EntryOf(o), a) && Target(a) == Some(p)
    }

    ghost predicate RootWord(a: int) {
      exists r :: (r in statics || r in stacks) && r.start <= a < r.start + r.words
    }

    ghost predicate RootRef(p: Obj) {
      exists a :: RootWord(a) && Target(a) == Some(p)
    }

    ghost function AllObjs(): (s: set<Obj>) {
      set b, k | b in blocks && 0 <= k < |blocks[b].bases| :: Obj(b, k)
    }

    // The objects that the roots refer to.
    ghost function RootObjs(): set<Obj> {
      set p | p in AllObjs() && RootRef(p)
    }

    ghost function EdgeRel(): (Obj, Obj) -> bool {
      (o, p) => Edge(o, p)
    }

    // What a full marking has to find: everything that the roots and the pinned
    // objects reach.
    ghost function ReachSet(pinned: set<Obj>): set<Obj> {
      Reached(EdgeRel(), RootObjs() + pinned, AllObjs())
    }
  }

  lemma AllObjsHasObjs(h: Heap, o: Obj)
    ensures o in h.AllObjs() <==> h.IsObj(o)
  {
    if h.IsObj(o) { assert o == Obj(o.blk, o.idx); }
  }

  // GC_next_used_block: the first used block at or above hblk h, or 0.
  function NextUsed(blocks: map<nat, Block>, h: nat): (b: nat)
    requires 0 !in blocks
    ensures b == 0 ==> forall c :: c in blocks ==> c < h
    ensures b != 0 ==> b in blocks && h <= b && forall c :: c in blocks && h <= c ==> b <= c
  {
    if exists c :: c in blocks && h <= c then
      LeastKey(blocks.Keys, h);
      var b :| b in blocks && h <= b && forall c :: c in blocks && h <= c ==> b <= c;
      b
    else 0
  }

  lemma LeastKey(keys: set<nat>, h: nat)
    requires exists c :: c in keys && h <= c
    ensures exists b :: b in keys && h <= b && forall c :: c in keys && h <= c ==> b <= c
  {
    var c :| c in keys && h <= c;
    LeastKeyBelow(keys, h, c);
  }

  lemma LeastKeyBelow(keys: set<nat>, h: nat, c: nat)
    requires c in keys && h <= c
    ensures exists b :: b in keys && h <= b && forall x :: x in keys && h <= x ==> b <= x
    decreases c
  {
    if d :| d in keys && h <= d < c {
      LeastKeyBelow(keys, h, d);
    }
  }

  lemma ReachSetFacts(h: Heap, pinned: set<Obj>)
    requires h.Valid() && pinned <= h.AllObjs()
    ensures pinned <= h.ReachSet(pinned) && h.RootObjs() <= h.ReachSet(pinned)
    ensures EdgeClosed(h.EdgeRel(), h.ReachSet(pinned))
    ensures forall S :: EdgeClosed(h.EdgeRel(), S) && h.RootObjs() + pinned <= S ==> h.ReachSet(pinned) <= S
  {
    forall o, p | o in h.AllObjs() && h.EdgeRel()(o, p) ensures p in h.AllObjs() {
      AllObjsHasObjs(h, p);
    }
    ReachedIsLeastClosed(h.EdgeRel(), h.RootObjs() + pinned, h.AllObjs());
  }
}
