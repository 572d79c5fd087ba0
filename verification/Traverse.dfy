// GC_apply_to_all_blocks with the callback that matters: one that frees blocks, and
// with them coalesces neighbours and removes headers, while the traversal runs.
module Traverse {
  import opened FreeLists
  import opened BlockMap
  import opened BlockShape
  import opened BlockAlloc
  import opened HeaderIndex

  // The traversal has gone past b: indices in ascending order, slots in descending.
  predicate Passed(k: nat, j: int, b: nat) { Key(b) < k || (Key(b) == k && Slot(b) > j) }

  ghost predicate VisitOk(hdrs: map<nat, Hdr>, bin: map<nat, nat>, visited: seq<nat>, k: nat, j: int, b: nat) {
    b in visited <==> InUse(hdrs, bin, b) && Passed(k, j, b)
  }

  // The blocks visited so far are those in use at the start that have been passed.
  ghost predicate VisitsOk(hdrs: map<nat, Hdr>, bin: map<nat, nat>, visited: seq<nat>, k: nat, j: int) {
    && (forall b {:trigger VisitOk(hdrs, bin, visited, k, j, b)} :: VisitOk(hdrs, bin, visited, k, j, b))
    && forall i, l :: 0 <= i < l < |visited| ==> visited[i] != visited[l]
  }

  function FreedOf(visited: seq<nat>, unmarked: set<nat>): set<nat> {
    set b | b in visited && b in unmarked
  }

  // Slots from x down to y hold no block in use, so none is missed.
  lemma SkipOver(h0: map<nat, Hdr>, bin0: map<nat, nat>, h1: map<nat, Hdr>, bin1: map<nat, nat>, visited: seq<nat>,
        unmarked: set<nat>, k: nat, j: int, j2: int)
    requires VisitsOk(h0, bin0, visited, k, j) && Kept(h0, bin0, h1, bin1, FreedOf(visited, unmarked))
             && j2 <= j < BOTTOM_SZ
    requires forall b :: Key(b) == k && j2 < Slot(b) <= j ==> !InUse(h1, bin1, b)
    ensures VisitsOk(h0, bin0, visited, k, j2)
  {
    forall b ensures VisitOk(h0, bin0, visited, k, j2, b) {
      assert VisitOk(h0, bin0, visited, k, j, b);
      if b !in visited { assert KeptAt(h0, bin0, h1, bin1, b); }
    }
  }

  lemma VisitOne(h0: map<nat, Hdr>, bin0: map<nat, nat>, h1: map<nat, Hdr>, bin1: map<nat, nat>, visited: seq<nat>,
        unmarked: set<nat>, k: nat, j: int)
    requires VisitsOk(h0, bin0, visited, k, j) && Kept(h0, bin0, h1, bin1, FreedOf(visited, unmarked))
             && 0 <= j < BOTTOM_SZ
    requires InUse(h1, bin1, Addr(k, j))
    ensures VisitsOk(h0, bin0, visited + [Addr(k, j)], k, j - 1) && InUse(h0, bin0, Addr(k, j))
            && Addr(k, j) !in visited
  {
    var x: nat := Addr(k, j);
    assert Key(x) == k && Slot(x) == j;
    assert VisitOk(h0, bin0, visited, k, j, x) && KeptAt(h0, bin0, h1, bin1, x);
    var more, j2 := visited + [x], j - 1;
    forall b ensures VisitOk(h0, bin0, more, k, j2, b) {
      assert VisitOk(h0, bin0, visited, k, j, b);
      assert Addr(Key(b), Slot(b)) == b;
    }
  }

  // From the end of one bottom index to the start of the next.
  lemma NextIndex(h0: map<nat, Hdr>, bin0: map<nat, nat>, visited: seq<nat>, keys: seq<nat>, i: nat, j: int)
    requires i + 1 < |keys| && j < 0 && VisitsOk(h0, bin0, visited, keys[i], j)
    requires forall a, b :: 0 <= a < b < |keys| ==> keys[a] < keys[b]
    requires forall x :: x in h0 ==> Key(x) in keys
    ensures VisitsOk(h0, bin0, visited, keys[i + 1], BOTTOM_SZ - 1)
  {
    var k2, j2 := keys[i + 1], BOTTOM_SZ - 1;
    forall b ensures VisitOk(h0, bin0, visited, k2, j2, b) {
      assert VisitOk(h0, bin0, visited, keys[i], j, b);
      if b in h0 {
        var a :| 0 <= a < |keys| && keys[a] == Key(b);
      }
    }
  }

  // State of the traversal.
  ghost predicate Going(bm: BlockManager, h0: map<nat, Hdr>, bin0: map<nat, nat>, heap: set<nat>, visited: seq<nat>,
        unmarked: set<nat>, k: nat, j: int)
    reads bm
  {
    && bm.Settled(0) && bm.owner.Keys == heap && VisitsOk(h0, bin0, visited, k, j)
    && Kept(h0, bin0, bm.hdrs, bm.bin, FreedOf(visited, unmarked))
       && AllUnused(bm.hdrs, bm.bin, FreedOf(visited, unmarked))
  }

  // GC_reclaim_block on a block in use, which is freed if nothing in it is marked.
  method VisitUsed(bm: BlockManager, k: nat, j: nat, unmarked: set<nat>, visited: seq<nat>, ghost h0: map<nat, Hdr>,
        ghost bin0: map<nat, nat>, ghost heap: set<nat>) returns (visited2: seq<nat>)
    requires Going(bm, h0, bin0, heap, visited, unmarked, k, j) && j < BOTTOM_SZ
    requires Addr(k, j) in bm.hdrs && !bm.hdrs[Addr(k, j)].free
    modifies bm
    ensures Going(bm, h0, bin0, heap, visited2, unmarked, k, j - 1)
    ensures bm.heapSize == old(bm.heapSize) && bm.sects == old(bm.sects)
    ensures visited2 == visited + [Addr(k, j)]
    ensures if Addr(k, j) in unmarked then !InUse(bm.hdrs, bm.bin, Addr(k, j)) else unchanged(bm)
  {
    var x: nat := Addr(k, j);
    assert BlockOk(bm.hdrs, bm.lens, bm.bin, x, 0) && Key(x) == k && Slot(x) == j;
    VisitOne(h0, bin0, bm.hdrs, bm.bin, visited, unmarked, k, j);
    visited2 := visited + [x];
    if x in unmarked {
      ghost var h1, bin1 := bm.hdrs, bm.bin;
      var duplicate := bm.Freehblk(x, 0);
      FreedMore(h0, bin0, h1, bin1, bm.hdrs, bm.bin, visited, unmarked, x);
    } else {
      assert FreedOf(visited2, unmarked) == FreedOf(visited, unmarked);
    }
  }

  // A cell without a block in use: how far down the slot moves.
  method PassCell(bm: BlockManager, k: nat, j: nat, ghost unmarked: set<nat>, ghost visited: seq<nat>,
        ghost h0: map<nat, Hdr>, ghost bin0: map<nat, nat>, ghost heap: set<nat>) returns (j2: int)
    requires Going(bm, h0, bin0, heap, visited, unmarked, k, j) && j < BOTTOM_SZ
    requires Addr(k, j) in bm.hdrs ==> bm.hdrs[Addr(k, j)].free
    ensures Going(bm, h0, bin0, heap, visited, unmarked, k, j2) && j2 < j
    ensures j2 == if Addr(k, j) in bm.hdrs || Addr(k, j) !in bm.jumps then j - 1 else j - bm.jumps[Addr(k, j)]
  {
    var x: nat := Addr(k, j);
    assert BlockOk(bm.hdrs, bm.lens, bm.bin, x, 0) && JumpOk(bm.jumps, bm.owner, Idle(bm.bin, 0), x);
    if x in bm.hdrs || x !in bm.jumps {
      j2 := j - 1;
      OneAddress(k, j);
    } else {
      JumpOver(bm.lens, bm.owner, bm.jumps, Idle(bm.bin, 0), x);
      j2 := j - bm.jumps[x];
      AddressesBetween(bm.lens.Keys, k, j, x - bm.jumps[x]);
    }
    SkipOver(h0, bin0, bm.hdrs, bm.bin, visited, unmarked, k, j, j2);
  }

  // One cell: a block in use is visited and one slot passed, a forwarding count tells how
  // many slots to pass, and any other cell is passed.
  method VisitCell(bm: BlockManager, k: nat, j: nat, unmarked: set<nat>, visited: seq<nat>, ghost h0: map<nat, Hdr>,
        ghost bin0: map<nat, nat>, ghost heap: set<nat>)
    returns (j2: int, visited2: seq<nat>)
    requires Going(bm, h0, bin0, heap, visited, unmarked, k, j) && j < BOTTOM_SZ
    modifies bm
    ensures Going(bm, h0, bin0, heap, visited2, unmarked, k, j2) && j2 < j
    ensures bm.heapSize == old(bm.heapSize) && bm.sects == old(bm.sects)
    ensures var x, h, c := Addr(k, j), old(bm.hdrs), old(bm.jumps);
            && j2 == (if x in h || x !in c then j - 1 else j - c[x])
            && visited2 == (if x in h && !h[x].free then visited + [x] else visited)
            && if x in h && !h[x].free && x in unmarked then !InUse(bm.hdrs, bm.bin, x) else unchanged(bm)
  {
    var x: nat := Addr(k, j);
    if x in bm.hdrs && !bm.hdrs[x].free {
      j2 := j - 1;
      visited2 := VisitUsed(bm, k, j, unmarked, visited, h0, bin0, heap);
    } else {
      j2 := PassCell(bm, k, j, unmarked, visited, h0, bin0, heap);
      visited2 := visited;
    }
  }

  lemma OneAddress(k: nat, j: nat)
    requires j < BOTTOM_SZ
    ensures forall b :: Key(b) == k && j - 1 < Slot(b) <= j ==> b == Addr(k, j)
  {
    forall b: nat | Key(b) == k && j - 1 < Slot(b) <= j ensures b == Addr(k, j) {
      assert Addr(Key(b), Slot(b)) == b;
    }
  }

  lemma AddressesBetween(keys: set<nat>, k: nat, j: nat, y: nat)
    requires y < Addr(k, j) && forall b :: b in keys && y < b <= Addr(k, j) ==> false
    ensures forall b :: Key(b) == k && j - (Addr(k, j) - y) < Slot(b) <= j ==> b !in keys
  {
    forall b: nat | Key(b) == k && j - (Addr(k, j) - y) < Slot(b) <= j ensures b !in keys {
      assert Addr(Key(b), Slot(b)) == b;
    }
  }

  lemma FreedMore(h0: map<nat, Hdr>, bin0: map<nat, nat>, h1: map<nat, Hdr>, bin1: map<nat, nat>, h2: map<nat, Hdr>,
        bin2: map<nat, nat>,
                  visited: seq<nat>, unmarked: set<nat>, x: nat)
    requires Kept(h0, bin0, h1, bin1, FreedOf(visited, unmarked)) && AllUnused(h1, bin1, FreedOf(visited, unmarked))
    requires Kept(h1, bin1, h2, bin2, {x}) && !InUse(h2, bin2, x) && x in unmarked
    ensures Kept(h0, bin0, h2, bin2, FreedOf(visited + [x], unmarked))
            && AllUnused(h2, bin2, FreedOf(visited + [x], unmarked))
  {
    KeptTrans(h0, bin0, h1, bin1, h2, bin2, FreedOf(visited, unmarked), {x});
    assert FreedOf(visited + [x], unmarked) == FreedOf(visited, unmarked) + {x};
    forall d | d in FreedOf(visited + [x], unmarked) ensures !InUse(h2, bin2, d) {
      if d != x { assert KeptAt(h1, bin1, h2, bin2, d); }
    }
  }

  // Every block in use at the start is visited exactly once, no free block ever is, and
  // exactly the unmarked ones are gone afterwards.
  method ApplyToAllBlocks(bm: BlockManager, keys: seq<nat>, unmarked: set<nat>) returns (visited: seq<nat>)
    requires bm.Settled(0)
    requires forall a, b :: 0 <= a < b < |keys| ==> keys[a] < keys[b]
    requires forall x :: x in bm.hdrs ==> Key(x) in keys
    modifies bm
    ensures bm.Settled(0) && bm.owner.Keys == old(bm.owner.Keys) && bm.heapSize == old(bm.heapSize)
            && bm.sects == old(bm.sects)
    ensures forall b :: b in visited <==> InUse(old(bm.hdrs), old(bm.bin), b)
    ensures forall i, l :: 0 <= i < l < |visited| ==> visited[i] != visited[l]
    ensures Kept(old(bm.hdrs), old(bm.bin), bm.hdrs, bm.bin, FreedOf(visited, unmarked))
    ensures forall b :: b in visited ==> (b in unmarked <==> !InUse(bm.hdrs, bm.bin, b))
  {
    visited := [];
    KeptSelf(bm.hdrs, bm.bin, FreedOf(visited, unmarked));
    ghost var h0, bin0, heap := bm.hdrs, bm.bin, bm.owner.Keys;
    if keys == [] { return; }
    FirstIndex(h0, bin0, keys);
    var i := 0;
    ghost var end: int := 0;
    while i < |keys|
      invariant 0 <= i <= |keys| && bm.heapSize == old(bm.heapSize) && bm.sects == old(bm.sects)
      invariant if i < |keys| then Going(bm, h0, bin0, heap, visited, unmarked, keys[i], BOTTOM_SZ - 1)
                else end < 0 && Going(bm, h0, bin0, heap, visited, unmarked, keys[|keys| - 1], end)
    {
      var j: int := BOTTOM_SZ - 1;
      while j >= 0
        invariant j < BOTTOM_SZ && Going(bm, h0, bin0, heap, visited, unmarked, keys[i], j)
        invariant bm.heapSize == old(bm.heapSize) && bm.sects == old(bm.sects)
        decreases j
      {
        j, visited := VisitCell(bm, keys[i], j, unmarked, visited, h0, bin0, heap);
      }
      if i + 1 < |keys| { NextIndex(h0, bin0, visited, keys, i, j); }
      end := j;
      i := i + 1;
    }
    LastIndex(h0, bin0, visited, keys, end);
    forall b | b in visited ensures b in unmarked <==> !InUse(bm.hdrs, bm.bin, b) {
      if b !in unmarked { assert KeptAt(h0, bin0, bm.hdrs, bm.bin, b); }
    }
  }

  lemma FirstIndex(h0: map<nat, Hdr>, bin0: map<nat, nat>, keys: seq<nat>)
    requires keys != [] && forall a, b :: 0 <= a < b < |keys| ==> keys[a] < keys[b]
    requires forall x :: x in h0 ==> Key(x) in keys
    ensures VisitsOk(h0, bin0, [], keys[0], BOTTOM_SZ - 1)
  {
    var none: seq<nat> := [];
    var k, j := keys[0], BOTTOM_SZ - 1;
    forall b ensures VisitOk(h0, bin0, none, k, j, b) {
      if b in h0 {
        var a :| 0 <= a < |keys| && keys[a] == Key(b);
      }
    }
  }

  lemma LastIndex(h0: map<nat, Hdr>, bin0: map<nat, nat>, visited: seq<nat>, keys: seq<nat>, j: int)
    requires keys != [] && j < 0 && VisitsOk(h0, bin0, visited, keys[|keys| - 1], j)
    requires forall a, b :: 0 <= a < b < |keys| ==> keys[a] < keys[b]
    requires forall x :: x in h0 ==> Key(x) in keys
    ensures forall b :: b in visited <==> InUse(h0, bin0, b)
  {
    forall b ensures b in visited <==> InUse(h0, bin0, b) {
      assert VisitOk(h0, bin0, visited, keys[|keys| - 1], j, b);
      if b in h0 {
        var a :| 0 <= a < |keys| && keys[a] == Key(b);
      }
    }
  }
}
