// The heap-block manager: best-effort first fit over the segregated free lists,
// splitting around black-listed blocks, and coalescing when a block is freed.
module BlockAlloc {
  import opened BlockMap
  import opened BlockShape
  import opened FreeLists
  import opened Kinds

  class BlockManager {
    const blLimit: nat
    const maxSects: nat
    var hdrs: map<nat, Hdr>
    var jumps: map<nat, nat>
    var head: seq<nat>
    var freeBytes: seq<nat>
    var largeFree: nat
    var heapSize: nat
    var bytesDropped: nat
    var dropCount: nat
    var sects: seq<(nat, nat)>
    ghost var lens: map<nat, nat>
    ghost var owner: map<nat, nat>
    ghost var bin: map<nat, nat>
    ghost var stamp: map<nat, nat>
    ghost var clock: nat

    ghost predicate Lists()
      reads this
    {
      && Linked(hdrs, head, bin, stamp, clock)
      && |head| == |freeBytes| == N_HBLK_FLS + 1
      && SumsOk(freeBytes, lens, bin)
    }

    ghost predicate Inv(x: nat)
      reads this
    {
      HeapOk(hdrs, jumps, head, freeBytes, lens, owner, bin, stamp, clock, x)
    }

    ghost predicate Settled(x: nat)
      reads this
    {
      Inv(x) && largeFree == FreeTotal(lens, bin) && Coalesced(lens, owner, bin)
    }

    ghost predicate Valid()
      reads this
    {
      Settled(0) && heapSize == Bytes(|owner.Keys|) && SectsOk(sects, owner)
    }

    constructor (blLimit: nat, maxSects: nat)
      ensures Valid() && hdrs == map[] && heapSize == 0
      ensures this.blLimit == blLimit && this.maxSects == maxSects
    {
      this.blLimit, this.maxSects := blLimit, maxSects;
      hdrs, jumps, sects := map[], map[], [];
      head, freeBytes := seq(N_HBLK_FLS + 1, _ => 0), seq(N_HBLK_FLS + 1, _ => 0);
      largeFree, heapSize, bytesDropped, dropCount := 0, 0, 0, 0;
      lens, owner, bin, stamp, clock := map[], map[], map[], map[], 0;
      new;
      EmptyHeap(head, freeBytes);
    }

    // Conservation: every byte of the heap is in a block in use or counted as free.
    lemma UsedPlusFree()
      requires Valid()
      ensures bin.Keys <= lens.Keys && lens.Keys == hdrs.Keys
      ensures Bytes(SumOf(lens.Keys - bin.Keys, lens)) + largeFree == heapSize
    {
      UsedFreeSum(lens, owner, bin);
    }

    // GC_remove_from_fl_at
    method RemoveFromFlAt(b: nat, index: nat)
      requires Lists() && b in bin && bin[b] == index && b in hdrs && hdrs[b].sz == Bytes(lens[b])
      modifies this`hdrs, this`head, this`freeBytes, this`bin
      ensures Lists() && bin == old(bin) - {b}
      ensures b in hdrs && Relinked(old(hdrs), hdrs, old(bin), b) && hdrs[b] == old(hdrs[b])
      ensures hdrs == Unlinked(old(hdrs), b)
      ensures FreeTotal(lens, bin) + Bytes(lens[b]) == FreeTotal(lens, old(bin))
    {
      UnlinkKeeps(hdrs, head, bin, stamp, clock, b);
      SumsRemove(freeBytes, lens, bin, b);
      assert LinkOk(hdrs, head, bin, stamp, clock, b);
      var hhdr, hs := hdrs[b], hdrs;
      if hhdr.prev == 0 {
        head := head[index := hhdr.next];
      } else {
        hs := hs[hhdr.prev := hs[hhdr.prev].(next := hhdr.next)];
      }
      freeBytes := freeBytes[index := freeBytes[index] - hhdr.sz];
      if hhdr.next != 0 {
        hs := hs[hhdr.next := hs[hhdr.next].(prev := hhdr.prev)];
      }
      hdrs := hs;
      bin := bin - {b};
    }

    // GC_add_to_fl
    method AddToFl(h: nat)
      requires Lists() && h in hdrs && h in lens && h > 0 && h !in bin && hdrs[h].sz == Bytes(lens[h])
      modifies this`hdrs, this`head, this`freeBytes, this`bin, this`stamp, this`clock
      ensures Lists() && bin == old(bin)[h := FlFromBlocks(lens[h])] && head == old(head)[FlFromBlocks(lens[h]) := h]
      ensures Relinked(old(hdrs), hdrs, old(bin), h)
      ensures h in hdrs && hdrs[h].sz == old(hdrs[h].sz) && hdrs[h].free
      ensures FreeTotal(lens, bin) == FreeTotal(lens, old(bin)) + Bytes(lens[h])
    {
      var index := FlFromBlocks(DivHblk(hdrs[h].sz));
      LinkKeeps(hdrs, head, bin, stamp, clock, index, h);
      SumsAdd(freeBytes, lens, bin, h, index);
      assert HeadOk(hdrs, head, bin, index);
      var second := head[index];
      var hs := hdrs[h := hdrs[h].(next := second, prev := 0, free := true)];
      if second != 0 {
        hs := hs[second := hs[second].(prev := h)];
      }
      head := head[index := h];
      freeBytes := freeBytes[index := freeBytes[index] + hs[h].sz];
      hdrs := hs;
      bin, stamp, clock := bin[h := index], stamp[h := clock], clock + 1;
    }

    // GC_install_counts
    method InstallCounts(h: nat, n: nat)
      modifies this`jumps
      ensures jumps == old(jumps) + Counts(h, n)
    {
      var p := h + 1;
      while p < h + n
        invariant p <= h + n || p == h + 1
        invariant jumps == old(jumps) + Counts(h, p - h)
      {
        CountsStep(h, p - h);
        UpdateSum(old(jumps), Counts(h, p - h), p, Count(p, h));
        jumps := jumps[p := if p - h > MAX_JUMP then MAX_JUMP else p - h];
        p := p + 1;
      }
      assert p - h == n || (n <= 1 && p - h == 1);
    }

    // GC_remove_counts
    method RemoveCounts(h: nat, n: nat)
      modifies this`jumps
      ensures jumps == old(jumps) - Range(h + 1, h + n)
    {
      var p := h + 1;
      while p < h + n
        invariant p <= h + n || p == h + 1
        invariant jumps == old(jumps) - Range(h + 1, p)
      {
        jumps := jumps - {p};
        p := p + 1;
      }
      assert Range(h + 1, p) == Range(h + 1, h + n);
    }

    // Follow the counts from x to the header of its block.
    method Chase(x: nat, ghost idle: set<nat>) returns (p: nat)
      requires Tiled(lens, owner) && JumpsOk(jumps, owner, idle)
      ensures p !in jumps && p <= x
      ensures p == x || (x in owner && p in owner && owner[p] == owner[x])
    {
      p := x;
      while p in jumps
        invariant p <= x && (p == x || (x in owner && p in owner && owner[p] == owner[x]))
        decreases p
      {
        JumpStep(lens, owner, jumps, idle, p);
        p := p - jumps[p];
      }
    }

    // GC_free_block_ending_at: by the counts if h - 1 has one, by a search for the
    // previous header if not.
    method FreeBlockEndingAt(h: nat) returns (r: nat)
      requires Inv(h) && h in lens && h !in bin
      ensures PrevIs(lens, bin, h, r)
    {
      assert Owned(lens, owner, h) && Housed(lens, owner, h - 1);
      var p := Chase(h - 1, Idle(bin, h));
      EndsAt(lens, owner, bin, h);
      if p in hdrs {
        assert Owned(lens, owner, p) && BlockOk(hdrs, lens, bin, p, h);
        TilesDisjoint(lens, owner, p, h);
        return if hdrs[p].free then p else 0;
      }
      assert hdrs.Keys == lens.Keys;
      p := PrevBlock(hdrs.Keys, h - 1);
      if p != 0 && hdrs[p].free && p + DivHblk(hdrs[p].sz) == h {
        assert BlockOk(hdrs, lens, bin, p, h);
        return p;
      }
      if p in bin {
        assert BlockOk(hdrs, lens, bin, p, h);
        assert DivHblk(hdrs[p].sz) == lens[p];
      }
      return 0;
    }

    // The header of b takes over the block of c, whose header goes.
    method Fuse(b: nat, c: nat)
      requires b in hdrs && c in hdrs && b in lens && c in lens && b != c
      requires HeapOk(MergedHdrs(hdrs, b, c), jumps, head, freeBytes, MergedLens(lens, b, c),
                 Paint(owner, c, c + lens[c], b), bin, stamp, clock, b)
      modifies this`hdrs, this`lens, this`owner
      ensures Inv(b) && hdrs == MergedHdrs(old(hdrs), b, c) && lens == MergedLens(old(lens), b, c)
      ensures owner == Paint(old(owner), c, c + old(lens)[c], b)
    {
      hdrs := hdrs[b := hdrs[b].(sz := hdrs[b].sz + hdrs[c].sz)];
      hdrs := hdrs - {c};
      assert hdrs == MergedHdrs(old(hdrs), b, c);
      owner, lens := Paint(owner, c, c + lens[c], b), MergedLens(lens, b, c);
    }

    // Merge the free block that follows b into b.
    method AbsorbNext(b: nat, next: nat)
      requires Inv(b) && b in hdrs && b !in bin && hdrs[b].sz == Bytes(lens[b])
      requires next in bin && next == b + lens[b] && Bytes(lens[b] + lens[next]) < SIGN_LIMIT
      modifies this`hdrs, this`head, this`freeBytes, this`bin, this`lens, this`owner
      ensures Inv(b) && b in hdrs && b !in bin && hdrs[b].sz == Bytes(lens[b])
      ensures bin == old(bin) - {next} && lens == MergedLens(old(lens), b, next)
      ensures owner == Paint(old(owner), next, next + old(lens)[next], b)
      ensures Kept(old(hdrs), old(bin), hdrs, bin, {b})
      ensures FreeTotal(lens, bin) + Bytes(old(lens[next])) == old(FreeTotal(lens, bin))
    {
      assert BlockOk(hdrs, lens, bin, next, b);
      RemoveFromFlAt(next, FlFromBlocks(DivHblk(hdrs[next].sz)));
      MergeHeap(old(hdrs), hdrs, jumps, head, freeBytes, lens, owner, old(bin), stamp, clock, b, next, b, next, {b});
      Fuse(b, next);
    }

    // Merge b into the free block that ends where it starts.
    method AbsorbIntoPrev(prev: nat, b: nat)
      requires Inv(b) && b in hdrs && b !in bin && hdrs[b].sz == Bytes(lens[b])
      requires prev in bin && b == prev + lens[prev] && Bytes(lens[prev] + lens[b]) < SIGN_LIMIT
      modifies this`hdrs, this`head, this`freeBytes, this`bin, this`lens, this`owner
      ensures Inv(prev) && prev in hdrs && prev !in bin && hdrs[prev].sz == Bytes(lens[prev])
      ensures bin == old(bin) - {prev} && lens == MergedLens(old(lens), prev, b)
      ensures owner == Paint(old(owner), b, b + old(lens)[b], prev)
      ensures Kept(old(hdrs), old(bin), hdrs, bin, {prev, b})
      ensures FreeTotal(lens, bin) + Bytes(old(lens[prev])) == old(FreeTotal(lens, bin))
    {
      assert BlockOk(hdrs, lens, bin, prev, b);
      RemoveFromFlAt(prev, FlFromBlocks(DivHblk(hdrs[prev].sz)));
      MergeHeap(old(hdrs), hdrs, jumps, head, freeBytes, lens, owner, old(bin), stamp, clock, prev, b, b, prev,
          {prev, b});
      Fuse(prev, b);
    }

    // First half of GC_freehblk's merging.
    method MergeWithNext(b: nat, ghost prev: nat)
      requires Inv(b) && b in hdrs && b !in bin && hdrs[b].sz == Bytes(lens[b]) && Coalesced(lens, owner, bin)
      requires PrevIs(lens, bin, b, prev)
      modifies this`hdrs, this`head, this`freeBytes, this`bin, this`lens, this`owner
      ensures Inv(b) && b in hdrs && b !in bin && hdrs[b].sz == Bytes(lens[b]) && owner.Keys == old(owner.Keys)
      ensures PrevIs(lens, bin, b, prev)
      ensures Small(owner.Keys) ==> Around(lens, bin, b)
      ensures Lost(old(lens), lens, b + old(lens[b]), b + old(lens[b]))
      ensures Kept(old(hdrs), old(bin), hdrs, bin, {b})
      ensures FreeTotal(lens, bin) + Bytes(lens[b]) == old(FreeTotal(lens, bin)) + Bytes(old(lens[b]))
    {
      var next := b + DivHblk(hdrs[b].sz);
      assert BlockOk(hdrs, lens, bin, next, b) && BlockOk(hdrs, lens, bin, b, b) && Owned(lens, owner, b);
      if Small(owner.Keys) { AroundNext(lens, bin, b, next); }
      if next in hdrs && hdrs[next].free {
        MergeFits(lens, owner, b, next);
        if hdrs[b].sz + hdrs[next].sz < SIGN_LIMIT {
          PrevKept(lens, bin, b, next, prev);
          AbsorbNext(b, next);
          return;
        }
      }
      KeptSelf(hdrs, bin, {b});
    }

    // Second half, prev being the result of GC_free_block_ending_at(b). y is the
    // block that is now to be put on a free list.
    method MergeWithPrev(b: nat, prev: nat, ghost h0: map<nat, Hdr>, ghost bin0: map<nat, nat>) returns (y: nat)
      requires Inv(b) && b in hdrs && b !in bin && hdrs[b].sz == Bytes(lens[b])
      requires PrevIs(lens, bin, b, prev) && Kept(h0, bin0, hdrs, bin, {b})
      requires Small(owner.Keys) ==> Around(lens, bin, b)
      modifies this`hdrs, this`head, this`freeBytes, this`bin, this`lens, this`owner
      ensures Inv(y) && y in hdrs && y !in bin && hdrs[y].sz == Bytes(lens[y]) && owner.Keys == old(owner.Keys)
      ensures Small(owner.Keys) ==> Around(lens, bin, y) && forall c :: EndsElsewhere(lens, bin, y, c)
      ensures Kept(h0, bin0, hdrs, bin, {b, y})
      ensures y != b ==> y == prev && prev != 0 && b !in hdrs
      ensures Lost(old(lens), lens, b, b)
      ensures FreeTotal(lens, bin) + Bytes(lens[y]) == old(FreeTotal(lens, bin)) + Bytes(old(lens[b]))
    {
      y := b;
      if prev != 0 {
        MergeFits(lens, owner, prev, b);
        assert BlockOk(hdrs, lens, bin, prev, b);
        if Small(owner.Keys) { AroundPrev(lens, bin, prev, b); }
        if hdrs[b].sz + hdrs[prev].sz < SIGN_LIMIT {
          AbsorbIntoPrev(prev, b);
          KeptTrans(h0, bin0, old(hdrs), old(bin), hdrs, bin, {b}, {prev, b});
          assert {b} + {prev, b} == {b, prev};
          return prev;
        }
      }
      assert {b} == {b, y};
    }

    // What GC_freehblk does to the block itself.
    method TakeBack(b: nat, ghost x: nat) returns (duplicate: bool)
      requires Settled(x) && b in hdrs
      requires x == 0 || (x == b && b !in bin && !hdrs[b].free && hdrs[b].sz == Bytes(lens[b]))
      modifies this`hdrs, this`jumps
      ensures duplicate <==> b in bin
      ensures duplicate ==> hdrs == old(hdrs) && jumps == old(jumps)
      ensures !duplicate ==> Inv(b) && b in hdrs && hdrs[b].sz == Bytes(lens[b]) && Kept(old(hdrs), bin, hdrs, bin, {b})
      ensures !duplicate ==> hdrs.Keys == old(hdrs.Keys) && jumps == old(jumps) - Range(b + 1, b + lens[b])
    {
      assert BlockOk(hdrs, lens, bin, b, x) && Owned(lens, owner, 0);
      var n := hdrs[b].Len();
      RemoveCounts(b, n);
      CountsRemoved(old(jumps), lens, owner, Idle(bin, x), b);
      if hdrs[b].free {
        hdrs := hdrs[b := hdrs[b].(sz := Bytes(n))];
        return true;
      }
      hdrs := hdrs[b := hdrs[b].(sz := Bytes(n), free := true)];
      KeptOne(old(hdrs), hdrs, bin, b);
      LinkedAgree(old(hdrs), hdrs, head, bin, stamp, clock);
      forall d ensures BlockOk(hdrs, lens, bin, d, b) {
        assert BlockOk(old(hdrs), lens, bin, d, x);
      }
      assert Idle(bin, x) + {b} == Idle(bin, b);
      return false;
    }

    // Merge b, which is in transit, with its free neighbours; y is the result, middle
    // what the blocks are in between.
    method Merge(b: nat) returns (y: nat, ghost middle: map<nat, nat>)
      requires Inv(b) && b in hdrs && b !in bin && hdrs[b].sz == Bytes(lens[b]) && Coalesced(lens, owner, bin)
      modifies this`hdrs, this`head, this`freeBytes, this`bin, this`lens, this`owner
      ensures Inv(y) && y in hdrs && y !in bin && hdrs[y].sz == Bytes(lens[y]) && owner.Keys == old(owner.Keys)
      ensures Small(owner.Keys) ==> Around(lens, bin, y) && forall c :: EndsElsewhere(lens, bin, y, c)
      ensures Kept(old(hdrs), old(bin), hdrs, bin, {b, y})
      ensures y != b ==> y in old(bin) && b !in hdrs
      ensures Lost(old(lens), middle, b + old(lens[b]), b + old(lens[b])) && Lost(middle, lens, b, b)
      ensures FreeTotal(lens, bin) + Bytes(lens[y]) == old(FreeTotal(lens, bin)) + Bytes(old(lens[b]))
    {
      var prev := FreeBlockEndingAt(b);
      assert prev == 0 || prev in bin;
      MergeWithNext(b, prev);
      middle := lens;
      y := MergeWithPrev(b, prev, old(hdrs), old(bin));
    }

    // Put y, which is in transit and has been merged as far as possible, on its list.
    method Enlist(y: nat)
      requires Inv(y) && y in hdrs && y !in bin && hdrs[y].sz == Bytes(lens[y])
      requires Small(owner.Keys) ==> Around(lens, bin, y) && forall c :: EndsElsewhere(lens, bin, y, c)
      modifies this`hdrs, this`head, this`freeBytes, this`bin, this`stamp, this`clock
      ensures Inv(0) && Coalesced(lens, owner, bin) && y in bin
      ensures Kept(old(hdrs), old(bin), hdrs, bin, {y})
      ensures FreeTotal(lens, bin) == FreeTotal(lens, old(bin)) + Bytes(lens[y])
    {
      assert Owned(lens, owner, y) && Owned(lens, owner, 0);
      AddToFl(y);
      ShapeFree(old(hdrs), hdrs, lens, old(bin), y);
      CoalescedAdd(lens, owner, old(bin), y, bin[y]);
      assert Idle(bin, 0) == Idle(old(bin), y);
    }

    // GC_freehblk. Freeing a free block is the one case it refuses, before any change.
    method Freehblk(b: nat, ghost x: nat) returns (duplicate: bool)
      requires Settled(x) && b in hdrs
      requires x == 0 || (x == b && b !in bin && !hdrs[b].free && hdrs[b].sz == Bytes(lens[b]))
      modifies this`hdrs, this`jumps, this`head, this`freeBytes, this`bin, this`lens, this`owner, this`stamp,
               this`clock, this`largeFree
      ensures duplicate <==> b in old(bin)
      ensures duplicate ==> unchanged(this)
      ensures !duplicate ==>
        && Settled(0) && owner.Keys == old(owner.Keys)
        && Kept(old(hdrs), old(bin), hdrs, bin, {b}) && !InUse(hdrs, bin, b)
        && largeFree == old(largeFree) + Bytes(old(lens[b]))
        && Lost(old(lens), lens, b, b + old(lens[b]))
        && jumps == old(jumps) - Range(b + 1, b + old(lens[b]))
    {
      duplicate := TakeBack(b, x);
      if duplicate { return; }
      ghost var h1, bin1 := hdrs, bin;
      var size := hdrs[b].sz;
      var y;
      ghost var middle;
      y, middle := Merge(b);
      LostBoth(old(lens), middle, lens, b, b + old(lens[b]));
      ghost var h2, bin2 := hdrs, bin;
      largeFree := largeFree + size;
      Enlist(y);
      KeptFreed(old(hdrs), h1, bin1, h2, bin2, hdrs, bin, b, y);
    }

    // First part of GC_split_block: n, with the tail of h, replaces h on list index.
    method ReplaceOnList(h: nat, n: nat, index: nat)
      requires Lists() && h in bin && bin[h] == index && h in hdrs && h < n < h + lens[h] && n !in hdrs && n !in lens
               && n !in bin
      requires hdrs[h].sz == Bytes(lens[h])
      modifies this`hdrs, this`head, this`freeBytes, this`bin, this`lens, this`stamp
      ensures lens == SplitLens(old(lens), h, n) && bin == (old(bin) - {h})[n := index]
      ensures Lists() && FreeTotal(lens, bin) == old(FreeTotal(lens, bin)) - Bytes(n - h)
      ensures hdrs.Keys == old(hdrs.Keys) + {n} && hdrs[h].sz == Bytes(n - h) && hdrs[n].sz == Bytes(lens[n])
              && hdrs[n].free
      ensures SameExcept(old(hdrs), hdrs, old(bin), h)
    {
      var hhdr, hSize := hdrs[h], Bytes(n - h);
      var nhdr := Hdr(hhdr.sz - hSize, true, Normal, hhdr.prev, hhdr.next);
      ReplacedSame(hdrs, head, bin, stamp, clock, h, n, nhdr, hSize);
      SumsSplit(freeBytes, lens, bin, h, n);
      Relink(h, n, index, nhdr);
      freeBytes := freeBytes[index := freeBytes[index] - hSize];
      hdrs := hdrs[h := hhdr.(sz := hSize)];
      bin, stamp := (bin - {h})[n := index], stamp[n := stamp[h]];
      lens := SplitLens(lens, h, n);
    }

    // The neighbours of h on list index, or the head of the list, refer to n instead.
    method Relink(h: nat, n: nat, index: nat, nhdr: Hdr)
      requires Linked(hdrs, head, bin, stamp, clock) && h in bin && bin[h] == index && h in hdrs && n !in hdrs
      requires nhdr.prev == hdrs[h].prev && nhdr.next == hdrs[h].next
      modifies this`hdrs, this`head
      ensures index < |old(head)| && h in old(hdrs) && hdrs == Replaced(old(hdrs), h, n, nhdr)
      ensures head == if old(hdrs)[h].prev == 0 then old(head)[index := n] else old(head)
    {
      assert LinkOk(hdrs, head, bin, stamp, clock, h);
      hdrs := hdrs[n := nhdr];
      if nhdr.prev != 0 {
        hdrs := hdrs[nhdr.prev := hdrs[nhdr.prev].(next := n)];
      } else {
        head := head[index := n];
      }
      if nhdr.next != 0 {
        hdrs := hdrs[nhdr.next := hdrs[nhdr.next].(prev := n)];
      }
    }

    // GC_split_block: n takes the place of h on its list, whatever its size, and h
    // goes to the list for what is left of it.
    method SplitBlock(h: nat, n: nat, index: nat)
      requires Inv(0) && h in bin && bin[h] == index && h < n < h + lens[h]
      modifies this`hdrs, this`head, this`freeBytes, this`bin, this`lens, this`owner, this`stamp, this`clock
      ensures Inv(n) && n in bin && n !in old(lens)
      ensures lens == SplitLens(old(lens), h, n) && owner == Paint(old(owner), n, h + old(lens[h]), n)
      ensures bin == (old(bin) - {h})[n := index][h := FlFromBlocks(n - h)]
      ensures Kept(old(hdrs), old(bin), hdrs, bin, {})
      ensures FreeTotal(lens, bin) == old(FreeTotal(lens, bin))
    {
      assert BlockOk(hdrs, lens, bin, h, 0);
      ghost var bin2 := Rebinned(bin, h, n, index);
      SplitIdle(jumps, lens, owner, bin, bin2, h, n, 0, n);
      owner := Paint(owner, n, h + lens[h], n);
      ReplaceOnList(h, n, index);
      ghost var hm := hdrs;
      AddToFl(h);
      assert bin == bin2;
      SplitShape(old(hdrs), hm, hdrs, old(lens), old(bin), h, n);
    }

    // Last part of GC_get_first_part: the rest of h becomes a block of its own.
    method ListRest(h: nat, rest: nat, bytes: nat)
      requires Inv(h) && h in lens && h !in bin && h < rest < h + lens[h] && bytes == Bytes(h + lens[h] - rest)
      modifies this`hdrs, this`head, this`freeBytes, this`bin, this`lens, this`owner, this`stamp, this`clock
      ensures Inv(h) && lens == SplitLens(old(lens), h, rest)
              && owner == Paint(old(owner), rest, h + old(lens[h]), rest)
      ensures bin == old(bin)[rest := FlFromBlocks(old(lens)[h] - (rest - h))]
      ensures Kept(old(hdrs), old(bin), hdrs, bin, {})
      ensures FreeTotal(lens, bin) == old(FreeTotal(lens, bin)) + bytes
    {
      ghost var hdrs0, lens0, bin0 := hdrs, lens, bin;
      SplitIdle(jumps, lens, owner, bin, bin[rest := FlFromBlocks(lens[h] - (rest - h))], h, rest, h, h);
      RestLists(hdrs, head, freeBytes, lens, bin, stamp, clock, h, rest, bytes);
      hdrs := hdrs[rest := Hdr(bytes, false, Normal, 0, 0)];
      owner, lens := Paint(owner, rest, h + lens[h], rest), SplitLens(lens, h, rest);
      ghost var hs := hdrs;
      AddToFl(rest);
      RestShape(hdrs0, hs, hdrs, lens0, bin0, h, rest);
    }

    // GC_get_first_part. The caller fills in the header of h.
    method GetFirstPart(h: nat, blocks: nat, index: nat)
      requires Inv(h) && h in bin && bin[h] == index && 0 < blocks <= lens[h]
      modifies this`hdrs, this`head, this`freeBytes, this`bin, this`lens, this`owner, this`stamp, this`clock
      ensures Inv(h) && h in lens && h !in bin && lens[h] == blocks
      ensures lens == if blocks == old(lens[h]) then old(lens) else SplitLens(old(lens), h, h + blocks)
      ensures bin == if blocks == old(lens[h]) then old(bin) - {h}
              else (old(bin) - {h})[h + blocks := FlFromBlocks(old(lens[h]) - blocks)]
      ensures owner.Keys == old(owner.Keys) && Kept(old(hdrs), old(bin), hdrs, bin, {h})
      ensures FreeTotal(lens, bin) + Bytes(blocks) == old(FreeTotal(lens, bin))
    {
      assert BlockOk(hdrs, lens, bin, h, h);
      var total := hdrs[h].sz;
      RemoveFromFlAt(h, index);
      UnlinkedShape(old(hdrs), hdrs, lens, old(bin), h);
      assert Idle(bin, h) == Idle(old(bin), h);
      if total != Bytes(blocks) {
        ghost var h1, bin1 := hdrs, bin;
        ListRest(h, h + blocks, total - Bytes(blocks));
        KeptTrans(old(hdrs), old(bin), h1, bin1, hdrs, bin, {h}, {});
        assert {h} + {} == {h};
      }
    }

    // The end of GC_allochblk_nth: forwarding counts and header for the block p.
    method PutToUse(p: nat, sz: nat, kind: Kind)
      requires Inv(p) && p in hdrs && p !in bin && Blocks(sz) == lens[p]
      modifies this`hdrs, this`jumps
      ensures Inv(0) && p in hdrs && hdrs[p].sz == sz && hdrs[p].kind == kind && !hdrs[p].free
      ensures jumps == old(jumps) + Counts(p, Blocks(sz))
      ensures Kept(old(hdrs), bin, hdrs, bin, {p})
    {
      InstallCounts(p, Blocks(sz));
      assert BlockOk(hdrs, lens, bin, p, p);
      assert Idle(bin, 0) == Idle(bin, p) - {p};
      CountsInstalled(old(jumps), lens, owner, Idle(bin, p), Idle(bin, 0), p);
      hdrs := hdrs[p := hdrs[p].(sz := sz, kind := kind, free := false)];
      LinkedAgree(old(hdrs), hdrs, head, bin, stamp, clock);
      KeptOne(old(hdrs), hdrs, bin, p);
      forall d ensures BlockOk(hdrs, lens, bin, d, 0) {
        assert BlockOk(old(hdrs), lens, bin, d, p);
      }
    }

    // Cut the free block h of list index at p, unless p is its start.
    method SplitAt(h: nat, p: nat, index: nat)
      requires Inv(0) && h in bin && bin[h] == index && h <= p < h + lens[h]
      modifies this`hdrs, this`head, this`freeBytes, this`bin, this`lens, this`owner, this`stamp, this`clock
      ensures Inv(p) && p in bin && bin[p] == index && owner.Keys == old(owner.Keys)
      ensures Cut(old(lens), old(bin), lens, bin, h, p) && Gained(old(lens), lens, p, p)
      ensures Kept(old(hdrs), old(bin), hdrs, bin, {}) && FreeTotal(lens, bin) == old(FreeTotal(lens, bin))
    {
      if p != h {
        SplitBlock(h, p, index);
      } else {
        ShapeWeaken(hdrs, lens, bin, h);
        assert Idle(bin, 0) == Idle(bin, h);
        KeptSelf(hdrs, bin, {});
      }
      forall b: nat ensures CutAt(old(lens), old(bin), lens, bin, h, p, b) && GainedAt(old(lens), lens, p, p, b) {
      }
    }

    // Make the first blocks of h, which may be on the list of another size, a block in use.
    method TakePart(h: nat, sz: nat, kind: Kind, index: nat)
      requires Inv(h) && h in bin && bin[h] == index && 0 < sz && Blocks(sz) <= lens[h]
      modifies this`hdrs, this`jumps, this`head, this`freeBytes, this`bin, this`lens, this`owner, this`stamp, this`clock
      ensures Inv(0) && h in lens && lens[h] == Blocks(sz) && owner.Keys == old(owner.Keys)
      ensures InUse(hdrs, bin, h) && hdrs[h].sz == sz && hdrs[h].kind == kind
      ensures Part(old(lens), old(bin), lens, bin, h, lens[h])
      ensures Gained(old(lens), lens, h, CutPoint(old(lens[h]), h, lens[h]))
      ensures jumps == old(jumps) + Counts(h, lens[h])
      ensures Kept(old(hdrs), old(bin), hdrs, bin, {h})
      ensures FreeTotal(lens, bin) + Bytes(lens[h]) == old(FreeTotal(lens, bin))
    {
      GetFirstPart(h, Blocks(sz), index);
      ghost var h1 := hdrs;
      PutToUse(h, sz, kind);
      KeptTrans(old(hdrs), old(bin), h1, bin, hdrs, bin, {h}, {h});
      assert {h} + {h} == {h};
      ghost var rest := CutPoint(old(lens[h]), h, lens[h]);
      forall b: nat ensures PartAt(old(lens), old(bin), lens, bin, h, lens[h], b)
          && GainedAt(old(lens), lens, h, rest, b) {
      }
    }

    // Cut p, need blocks inside the free block h of list index, out of it; lens1 and bin1
    // are what the blocks and lists are in between.
    method CutOut(h: nat, p: nat, sz: nat, kind: Kind, index: nat)
      returns (ghost lens1: map<nat, nat>, ghost bin1: map<nat, nat>)
      requires Inv(0) && h in bin && bin[h] == index && 0 < sz && h <= p && p + Blocks(sz) <= h + lens[h]
      modifies this`hdrs, this`jumps, this`head, this`freeBytes, this`bin, this`lens, this`owner, this`stamp, this`clock
      ensures Inv(0) && owner.Keys == old(owner.Keys)
      ensures InUse(hdrs, bin, p) && hdrs[p].sz == sz && hdrs[p].kind == kind && !InUse(old(hdrs), old(bin), p)
      ensures p in lens && lens[p] == Blocks(sz) && Kept(old(hdrs), old(bin), hdrs, bin, {p})
      ensures Cut(old(lens), old(bin), lens1, bin1, h, p) && Part(lens1, bin1, lens, bin, p, lens[p])
      ensures Gained(old(lens), lens1, p, p) && Gained(lens1, lens, p, CutPoint(lens1[p], p, lens[p]))
      ensures jumps == old(jumps) + Counts(p, lens[p])
      ensures FreeTotal(lens, bin) + Bytes(lens[p]) == old(FreeTotal(lens, bin))
    {
      SplitAt(h, p, index);
      ghost var h1 := hdrs;
      lens1, bin1 := lens, bin;
      assert KeptAt(old(hdrs), old(bin), h1, bin1, p);
      TakePart(p, sz, kind, index);
      KeptTrans(old(hdrs), old(bin), h1, bin1, hdrs, bin, {}, {p});
      assert {} + {p} == {p};
    }

    // Make p, need blocks inside the free block h of list index, a block in use.
    method Carve(h: nat, p: nat, sz: nat, kind: Kind, index: nat)
      requires Settled(0) && h in bin && bin[h] == index && 0 < sz && h <= p && p + Blocks(sz) <= h + lens[h]
      modifies this`hdrs, this`jumps, this`head, this`freeBytes, this`bin, this`lens, this`owner, this`stamp,
               this`clock, this`largeFree
      ensures Settled(0) && owner.Keys == old(owner.Keys)
      ensures InUse(hdrs, bin, p) && hdrs[p].sz == sz && hdrs[p].kind == kind && !InUse(old(hdrs), old(bin), p)
      ensures p in lens && lens[p] == Blocks(sz)
      ensures h in old(lens) && Gained(old(lens), lens, p, CutPoint(h + old(lens[h]) - p, p, lens[p]))
      ensures jumps == old(jumps) + Counts(p, lens[p])
      ensures Kept(old(hdrs), old(bin), hdrs, bin, {p})
      ensures largeFree + Bytes(lens[p]) == old(largeFree)
    {
      ghost var lens1, bin1 := CutOut(h, p, sz, kind, index);
      largeFree := largeFree - Bytes(Blocks(sz));
      assert lens1[p] == h + old(lens[h]) - p;
      GainedBoth(old(lens), lens1, lens, p, CutPoint(lens1[p], p, lens[p]));
      if Small(owner.Keys) {
        CarveApart(old(lens), old(owner), old(bin), h, p, Blocks(sz), lens1, bin1, lens, bin);
      }
    }

    // One more single block of the block being dropped, which began at h when the
    // state was h0, l0, bin0.
    method DropOne(x: nat, ghost h: nat, ghost h0: map<nat, Hdr>, ghost l0: map<nat, nat>, ghost bin0: map<nat, nat>)
      requires Inv(x) && x in hdrs && x !in bin && 1 < lens[x] && hdrs[x].sz == HBLKSIZE && hdrs[x].kind == PtrFree
               && !hdrs[x].free
      requires h <= x && Kept(h0, bin0, hdrs, bin, Range(h, x + 1)) && AllDropped(hdrs, bin, h, x + 1)
               && LensAgree(l0, lens, bin)
      modifies this`hdrs, this`lens, this`owner
      ensures Inv(x + 1) && x + 1 in hdrs && x + 1 !in bin && hdrs[x + 1] == DROPPED && x + 1 !in old(hdrs)
      ensures x in old(lens) && lens == SplitLens(old(lens), x, x + 1) && owner.Keys == old(owner.Keys)
      ensures hdrs == old(hdrs)[x + 1 := DROPPED]
      ensures FreeTotal(lens, bin) == old(FreeTotal(lens, bin))
      ensures Kept(h0, bin0, hdrs, bin, Range(h, x + 2)) && AllDropped(hdrs, bin, h, x + 2) && LensAgree(l0, lens, bin)
    {
      DropJumps(jumps, lens, owner, bin, x);
      DropShape(hdrs, lens, bin, x);
      SumsAgree(freeBytes, lens, SplitLens(lens, x, x + 1), bin);
      LinkedAgree(hdrs, hdrs[x + 1 := DROPPED], head, bin, stamp, clock);
      AgreeSplit(l0, lens, bin, x, x + 1);
      KeptTrans(h0, bin0, hdrs, bin, hdrs[x + 1 := DROPPED], bin, Range(h, x + 1), {x + 1});
      assert Range(h, x + 1) + {x + 1} == Range(h, x + 2);
      DroppedMore(hdrs, bin, h, x + 1);
      hdrs := hdrs[x + 1 := DROPPED];
      owner, lens := Paint(owner, x + 1, x + lens[x], x + 1), SplitLens(lens, x, x + 1);
    }

    // The headers of all the single blocks but the first.
    method DropRest(h: nat, limit: nat, ghost h0: map<nat, Hdr>, ghost l0: map<nat, nat>, ghost bin0: map<nat, nat>)
      requires Inv(h) && h in hdrs && h !in bin && lens[h] == limit - h > 0 && hdrs[h].sz == HBLKSIZE
               && hdrs[h].kind == PtrFree && !hdrs[h].free
      requires Kept(h0, bin0, hdrs, bin, {h}) && LensAgree(l0, lens, bin)
      modifies this`hdrs, this`lens, this`owner
      ensures Inv(0) && owner.Keys == old(owner.Keys) && LensAgree(l0, lens, bin)
      ensures hdrs.Keys == old(hdrs.Keys) + Range(h, limit)
      ensures Kept(h0, bin0, hdrs, bin, Range(h, limit)) && AllDropped(hdrs, bin, h, limit)
      ensures FreeTotal(lens, bin) == old(FreeTotal(lens, bin))
      ensures forall b :: b in old(hdrs) ==> b in hdrs && hdrs[b] == old(hdrs)[b]
    {
      assert Range(h, h + 1) == {h};
      var g := h + 1;
      while g < limit
        invariant h < g <= limit && Inv(g - 1) && g - 1 in hdrs && g - 1 !in bin && lens[g - 1] == limit - (g - 1)
        invariant hdrs[g - 1].sz == HBLKSIZE && hdrs[g - 1].kind == PtrFree && !hdrs[g - 1].free
        invariant owner.Keys == old(owner.Keys) && LensAgree(l0, lens, bin)
        invariant hdrs.Keys == old(hdrs.Keys) + Range(h, g)
        invariant Kept(h0, bin0, hdrs, bin, Range(h, g)) && AllDropped(hdrs, bin, h, g)
        invariant FreeTotal(lens, bin) == old(FreeTotal(lens, bin))
        invariant forall b :: b in old(hdrs) ==> b in hdrs && hdrs[b] == old(hdrs)[b]
      {
        DropOne(g - 1, h, h0, l0, bin0);
        g := g + 1;
      }
      SingleDone(hdrs, jumps, lens, owner, bin, limit - 1);
    }

    method DropStart(h: nat, index: nat)
      requires Inv(0) && h in bin && bin[h] == index
      modifies this`hdrs, this`head, this`freeBytes, this`bin
      ensures Inv(h) && h in hdrs && h !in bin && hdrs[h].sz == HBLKSIZE && hdrs[h].kind == PtrFree && !hdrs[h].free
      ensures bin == old(bin) - {h} && Kept(old(hdrs), old(bin), hdrs, bin, {h})
      ensures FreeTotal(lens, bin) + Bytes(lens[h]) == old(FreeTotal(lens, bin))
      ensures h in old(hdrs) && var p := old(hdrs)[h].prev; p != 0 ==>
              p in hdrs && p in bin && bin[p] == index
              && hdrs[p].next == old(hdrs)[h].next
    {
      assert BlockOk(hdrs, lens, bin, h, 0);
      UnlinkedPrev(hdrs, head, bin, stamp, clock, h);
      RemoveFromFlAt(h, index);
      DropHdr(old(hdrs), hdrs, lens, head, old(bin), stamp, clock, h);
      assert Idle(bin, h) == Idle(old(bin), 0);
      hdrs := hdrs[h := hdrs[h].(sz := HBLKSIZE, kind := PtrFree, free := false)];
    }

    // The free block h becomes single blocks in use.
    method DropHeaders(h: nat, index: nat) returns (total: nat)
      requires Settled(0) && h in bin && bin[h] == index
      modifies this`hdrs, this`head, this`freeBytes, this`bin, this`lens, this`owner
      ensures Inv(0) && owner.Keys == old(owner.Keys) && bin == old(bin) - {h} && LensAgree(old(lens), lens, bin)
      ensures hdrs.Keys == old(hdrs.Keys) + Range(h, h + old(lens[h]))
      ensures total == Bytes(old(lens[h])) && FreeTotal(lens, bin) + total == old(FreeTotal(lens, bin))
      ensures Kept(old(hdrs), old(bin), hdrs, bin, Range(h, h + old(lens[h])))
              && AllDropped(hdrs, bin, h, h + old(lens[h]))
      ensures h in old(hdrs) && var p := old(hdrs)[h].prev;
              p != 0 ==> p in hdrs && p in bin && bin[p] == index && hdrs[p].next == old(hdrs)[h].next
    {
      assert BlockOk(hdrs, lens, bin, h, 0) && Owned(lens, owner, h);
      ghost var hdrs0, lens0, bin0 := hdrs, lens, bin;
      total := hdrs[h].sz;
      DropStart(h, index);
      AgreeSelf(lens, bin);
      DropRest(h, h + DivHblk(total), hdrs0, lens0, bin0);
    }

    // Take the free block h out of the heap's free space, as single blocks in use.
    method DropBlock(h: nat, index: nat)
      requires Settled(0) && h in bin && bin[h] == index
      modifies this`hdrs, this`head, this`freeBytes, this`bin, this`lens, this`owner, this`largeFree, this`bytesDropped
      ensures Settled(0) && owner.Keys == old(owner.Keys) && bin == old(bin) - {h} && LensAgree(old(lens), lens, bin)
      ensures hdrs.Keys == old(hdrs.Keys) + Range(h, h + old(lens[h]))
      ensures Kept(old(hdrs), old(bin), hdrs, bin, Range(h, h + old(lens[h])))
              && AllDropped(hdrs, bin, h, h + old(lens[h]))
      ensures largeFree + Bytes(old(lens[h])) == old(largeFree)
              && bytesDropped == old(bytesDropped) + Bytes(old(lens[h]))
      ensures h in old(hdrs) && var p := old(hdrs)[h].prev;
              p != 0 ==> p in hdrs && p in bin && bin[p] == index && hdrs[p].next == old(hdrs)[h].next
    {
      ghost var lens0, owner0, bin0 := lens, owner, bin;
      var total := DropHeaders(h, index);
      largeFree := largeFree - total;
      bytesDropped := bytesDropped + total;
      ApartShrunk(lens0, owner0, bin0, lens, owner, bin);
    }

    // What GC_allochblk_nth makes of the free block b.
    method Judge(b: nat, r: Request, maySplit: bool, black: set<nat>) returns (v: Verdict)
      requires Inv(0) && b in bin && 0 < r.sz && b in lens
      ensures v.Take? ==> b <= v.p && v.p + r.Need() <= b + lens[b]
      ensures v.Take? ==> b in hdrs && (lens[b] == r.Need() || (maySplit && !Better(r, black, lens, b, hdrs[b].next)))
      ensures v.Take? && !r.Exempt() ==> IsBlackListed(black, v.p, r.Eff()) == 0 || Huge(r, lens[b], blLimit)
      ensures v.Skip? ==> b in hdrs && var n := hdrs[b].next;
        || (n != 0 && n in lens && Sure(r, maySplit, black, n, lens[n]))
        || (!Usable(r, maySplit, black, blLimit, b, lens[b]) && !Sure(r, maySplit, black, b, lens[b]))
      ensures v.Drop? ==>
        && !Usable(r, maySplit, black, blLimit, b, lens[b]) && !Sure(r, maySplit, black, b, lens[b])
        && forall d :: d in Range(b, b + lens[b]) ==> d in black
    {
      assert BlockOk(hdrs, lens, bin, b, 0) && LinkOk(hdrs, head, bin, stamp, clock, b);
      var need := r.Need();
      var avail := DivHblk(hdrs[b].sz);
      if avail < need { return Skip; }
      if avail != need {
        if !maySplit { return Skip; }
        var next := hdrs[b].next;
        if next != 0 {
          assert BlockOk(hdrs, lens, bin, next, 0);
          var nextLen := DivHblk(hdrs[next].sz);
          if nextLen < avail && nextLen >= need && IsBlackListed(black, next, need) == 0 { return Skip; }
        }
      }
      if r.Exempt() { return Take(b); }
      var p := FindStart(black, b, avail, need, r.Eff());
      if avail - (p - b) >= need { return Take(p); }
      if Huge(r, avail, blLimit) { return Take(b); }
      assert IsBlackListed(black, b, r.Eff()) != 0;
      if avail == p - b && need == 1 {
        AllBlack(black, b, p);
        return Drop;
      }
      return Skip;
    }

    lemma StampKeys()
      requires Lists()
      ensures bin.Keys <= stamp.Keys && bin.Keys <= lens.Keys && bin.Keys <= hdrs.Keys
    {
      forall b | b in bin ensures b in stamp && b in hdrs {
        assert LinkOk(hdrs, head, bin, stamp, clock, b);
      }
    }

    ghost function Now(): Snap
      reads this
    {
      Snap(hdrs, lens, owner, bin, largeFree + bytesDropped)
    }

    // Since o, the blocks in newly have been put to use, all but h dropped.
    ghost predicate Since(o: Snap, newly: set<nat>, h: nat, black: set<nat>)
      reads this
    {
      && owner.Keys == o.owner.Keys
      && Kept(o.hdrs, o.bin, hdrs, bin, newly) && AllUnused(o.hdrs, o.bin, newly)
      && Drops(hdrs, bin, black, newly - {h})
    }

    // Block h serves the request.
    ghost predicate Serves(r: Request, h: nat, black: set<nat>)
      reads this
    {
      && h in lens && lens[h] == r.Need() && InUse(hdrs, bin, h) && hdrs[h].sz == r.sz && hdrs[h].kind == r.kind
      && (r.Exempt() || IsBlackListed(black, h, r.Eff()) == 0 || Bytes(r.Need()) > blLimit)
    }

    method TakeIt(b: nat, p: nat, r: Request, n: nat, black: set<nat>, ghost o: Snap, ghost newly: set<nat>)
      requires Settled(0) && b in bin && bin[b] == n && 0 < r.sz && b <= p && p + r.Need() <= b + lens[b] && p != 0
      requires r.Exempt() || IsBlackListed(black, p, r.Eff()) == 0 || Bytes(r.Need()) > blLimit
      requires Since(o, newly, 0, black) && 0 !in newly && o.total == largeFree + bytesDropped
      modifies this`hdrs, this`jumps, this`head, this`freeBytes, this`bin, this`lens, this`owner, this`stamp,
               this`clock, this`largeFree
      ensures Settled(0) && Since(o, newly + {p}, p, black) && Serves(r, p, black)
      ensures largeFree + Bytes(r.Need()) + bytesDropped == o.total
    {
      ghost var h1, bin1 := hdrs, bin;
      Carve(b, p, r.sz, r.kind, n);
      assert newly - {0} == newly;
      KeptTrans(o.hdrs, o.bin, h1, bin1, hdrs, bin, newly, {p});
      UnusedBack(o.hdrs, o.bin, h1, bin1, black, newly, {p});
      DropsKept(h1, bin1, hdrs, bin, black, {p}, newly);
      assert newly + {p} - {p} <= newly;
    }

    method DropIt(b: nat, n: nat, black: set<nat>, ghost o: Snap, ghost newly: set<nat>)
      returns (ghost newly2: set<nat>)
      requires Settled(0) && b in bin && bin[b] == n
      requires forall d :: d in Range(b, b + lens[b]) ==> d in black
      requires Since(o, newly, 0, black) && 0 !in newly
      modifies this`hdrs, this`head, this`freeBytes, this`bin, this`lens, this`owner, this`largeFree, this`bytesDropped
      ensures Settled(0) && Since(o, newly2, 0, black) && 0 !in newly2
      ensures largeFree + bytesDropped == old(largeFree + bytesDropped)
      ensures bin == old(bin) - {b} && Shrunk(old(lens), old(bin), lens, bin)
      ensures b in old(hdrs) && var p := old(hdrs)[b].prev; p != 0 ==>
              p in hdrs && p in bin && bin[p] == n
              && hdrs[p].next == old(hdrs)[b].next
    {
      ghost var h1, bin1, xs := hdrs, bin, Range(b, b + lens[b]);
      newly2 := newly + xs;
      UnusedInside(hdrs, lens, owner, bin, b);
      assert Owned(lens, owner, b);
      DropBlock(b, n);
      assert newly - {0} == newly && newly2 - {0} == newly2;
      KeptTrans(o.hdrs, o.bin, h1, bin1, hdrs, bin, newly, xs);
      UnusedBack(o.hdrs, o.bin, h1, bin1, black, newly, xs);
      DropsKept(h1, bin1, hdrs, bin, black, xs, newly);
      assert Drops(hdrs, bin, black, xs);
      forall c ensures ShrunkAt(old(lens), old(bin), lens, bin, c) {
        assert AgreeAt(old(lens), lens, bin, c);
      }
    }

    // Go past block b, dropping it if it is the fourth that is black-listed all over.
    // restart says that the search must begin again.
    method PassBy(b: nat, drop: bool, r: Request, n: nat, maySplit: bool, black: set<nat>, ghost o: Snap,
          ghost newly: set<nat>)
      returns (next: nat, restart: bool, ghost newly2: set<nat>)
      requires Settled(0) && Since(o, newly, 0, black) && 0 !in newly && b in bin && bin[b] == n && b in hdrs
               && b in stamp
      requires Ahead(r, maySplit, black, blLimit, lens, bin, stamp, n, hdrs[b].next) && Shrunk(o.lens, o.bin, lens, bin)
      requires drop ==> forall d :: d in Range(b, b + lens[b]) ==> d in black
      modifies this`hdrs, this`head, this`freeBytes, this`bin, this`lens, this`owner, this`largeFree,
               this`bytesDropped, this`dropCount
      ensures Settled(0) && Since(o, newly2, 0, black) && 0 !in newly2
      ensures largeFree + bytesDropped == old(largeFree + bytesDropped)
      ensures Shrunk(o.lens, o.bin, lens, bin) && |bin| <= |old(bin)| && (restart ==> |bin| < |old(bin)|)
      ensures !restart ==> Ahead(r, maySplit, black, blLimit, lens, bin, stamp, n, next)
      ensures !restart && next != 0 ==> next in bin && bin[next] == n && next in stamp && stamp[next] < stamp[b]
    {
      next, restart, newly2 := hdrs[b].next, false, newly;
      assert LinkOk(hdrs, head, bin, stamp, clock, b);
      if drop {
        dropCount := dropCount + 1;
        if dropCount % 4 == 0 {
          var prev := hdrs[b].prev;
          ghost var lens1, bin1 := lens, bin;
          Fewer(bin, b);
          newly2 := DropIt(b, n, black, o, newly);
          ShrunkTrans(o.lens, o.bin, lens1, bin1, lens, bin);
          AheadShrunk(r, maySplit, black, blLimit, lens1, bin1, lens, bin, stamp, n, next);
          if prev == 0 {
            restart := true;
          } else {
            next := hdrs[prev].next;
          }
        }
      }
    }

    // GC_allochblk_nth: search list n. newly holds the blocks put to use, the result
    // and those dropped.
    method AllochblkNth(r: Request, n: nat, maySplit: bool, black: set<nat>) returns (h: nat, ghost newly: set<nat>)
      requires Settled(0) && 0 < r.sz && n <= N_HBLK_FLS
      modifies this`hdrs, this`jumps, this`head, this`freeBytes, this`bin, this`lens, this`owner, this`stamp,
               this`clock, this`largeFree, this`bytesDropped, this`dropCount
      ensures Settled(0) && Since(old(Now()), newly, h, black) && 0 !in newly
      ensures largeFree + (if h != 0 then Bytes(r.Need()) else 0) + bytesDropped == old(largeFree + bytesDropped)
      ensures h != 0 ==> h in newly && Serves(r, h, black)
      ensures h == 0 ==> NothingFor(r, maySplit, black, blLimit, lens, bin, n) && Shrunk(old(lens), old(bin), lens, bin)
      ensures h != 0 ==> FromList(old(lens), old(bin), n, maySplit, h, r.Need())
      decreases |bin|, 0
    {
      newly := {};
      h := 0;
      ghost var o := Now();
      AheadFirst(r, maySplit, black, blLimit, lens, hdrs, head, bin, stamp, clock, n);
      KeptSelf(hdrs, bin, {});
      ShrunkSelf(lens, bin);
      var b := head[n];
      while b != 0
        invariant Settled(0) && Since(o, newly, 0, black) && 0 !in newly && o.total == largeFree + bytesDropped
        invariant Shrunk(o.lens, o.bin, lens, bin) && |bin| <= |o.bin|
        invariant b != 0 ==> b in bin && bin[b] == n
        invariant Ahead(r, maySplit, black, blLimit, lens, bin, stamp, n, b)
        decreases if b == 0 || b !in stamp then 0 else 1 + stamp[b]
      {
        assert LinkOk(hdrs, head, bin, stamp, clock, b);
        var v := Judge(b, r, maySplit, black);
        if v.Take? {
          h := v.p;
          assert Owned(lens, owner, b);
          FromThis(o.lens, o.bin, lens, bin, n, maySplit, h, r.Need(), b);
          TakeIt(b, h, r, n, black, o, newly);
          newly := newly + {h};
          return;
        }
        ghost var next := hdrs[b].next;
        if !(next != 0 && next in lens && Sure(r, maySplit, black, next, lens[next])) {
          AheadNext(r, maySplit, black, blLimit, lens, hdrs, head, bin, stamp, clock, n, b);
        }
        var restart;
        b, restart, newly := PassBy(b, v.Drop?, r, n, maySplit, black, o, newly);
        if restart {
          ghost var lens2, bin2 := lens, bin;
          h, newly := SearchOn(r, n, maySplit, black, o, newly);
          Restarted(o.lens, o.bin, lens2, bin2, lens, bin, n, maySplit, h, r.Need());
          return;
        }
      }
      AheadNone(r, maySplit, black, blLimit, lens, bin, stamp, n);
    }

    // A search of list n that carries on from an earlier state o.
    method SearchOn(r: Request, n: nat, maySplit: bool, black: set<nat>, ghost o: Snap,
          ghost newly: set<nat>) returns (h: nat, ghost newly2: set<nat>)
      requires Settled(0) && 0 < r.sz && n <= N_HBLK_FLS
      requires Since(o, newly, 0, black) && 0 !in newly && o.total == largeFree + bytesDropped
      modifies this`hdrs, this`jumps, this`head, this`freeBytes, this`bin, this`lens, this`owner, this`stamp,
               this`clock, this`largeFree, this`bytesDropped, this`dropCount
      ensures Settled(0) && Since(o, newly2, h, black) && 0 !in newly2
      ensures largeFree + (if h != 0 then Bytes(r.Need()) else 0) + bytesDropped == o.total
      ensures h != 0 ==> h in newly2 && Serves(r, h, black)
      ensures h == 0 ==> NothingFor(r, maySplit, black, blLimit, lens, bin, n) && Shrunk(old(lens), old(bin), lens, bin)
      ensures h != 0 ==> FromList(old(lens), old(bin), n, maySplit, h, r.Need())
      decreases |bin|, 1
    {
      ghost var h1, bin1 := hdrs, bin;
      ghost var more;
      h, more := AllochblkNth(r, n, maySplit, black);
      newly2 := newly + more;
      assert newly - {0} == newly;
      KeptTrans(o.hdrs, o.bin, h1, bin1, hdrs, bin, newly, more);
      UnusedBack(o.hdrs, o.bin, h1, bin1, black, newly, more);
      DropsKept(h1, bin1, hdrs, bin, black, more, newly);
    }

    // GC_enough_large_bytes_left: the largest n such that the lists from n on hold
    // enough for the large objects there have been, or 0.
    method EnoughLargeBytesLeft(largeAllocd: nat, maxLargeAllocd: nat) returns (n: nat)
      requires |freeBytes| == N_HBLK_FLS + 1
      ensures n <= N_HBLK_FLS && (n == 0 || largeAllocd + SumFrom(freeBytes, n) >= maxLargeAllocd)
      ensures forall m :: n < m <= N_HBLK_FLS ==> largeAllocd + SumFrom(freeBytes, m) < maxLargeAllocd
    {
      var bytes, i := largeAllocd, N_HBLK_FLS as int;
      while i >= 0
        invariant -1 <= i <= N_HBLK_FLS && bytes == largeAllocd + SumFrom(freeBytes, i + 1)
        invariant forall m: nat :: i < m <= N_HBLK_FLS ==> largeAllocd + SumFrom(freeBytes, m) < maxLargeAllocd
      {
        bytes := bytes + freeBytes[i];
        if bytes >= maxLargeAllocd { return i; }
        i := i - 1;
      }
      return 0;
    }

    // The largest list that GC_allochblk may search: all when the whole heap may be used,
    // none when finalizers free much memory, else those that leave enough large blocks.
    method SplitLimit(mode: Mode, largeAllocd: nat, maxLargeAllocd: nat) returns (limit: nat)
      requires |freeBytes| == N_HBLK_FLS + 1
      ensures IsLimit(mode, freeBytes, largeAllocd, maxLargeAllocd, limit)
    {
      limit := N_HBLK_FLS;
      if mode == FinalizerHeavy {
        limit := 0;
      } else if mode == Steady {
        limit := EnoughLargeBytesLeft(largeAllocd, maxLargeAllocd);
      }
    }

    // Search the lists from first to limit, carrying on from an earlier state o in which
    // list exact was searched. at is the state in which list n gave the result.
    method SearchLists(r: Request, first: nat, limit: nat, black: set<nat>, ghost o: Snap, ghost newly0: set<nat>,
          ghost exact: nat) returns (h: nat, ghost newly: set<nat>, ghost n: nat, ghost at: Snap)
      requires Settled(0) && 0 < r.sz && limit <= N_HBLK_FLS
      requires Since(o, newly0, 0, black) && 0 !in newly0 && o.total == largeFree + bytesDropped
      requires Shrunk(o.lens, o.bin, lens, bin) && NothingFor(r, false, black, blLimit, lens, bin, exact)
      modifies this`hdrs, this`jumps, this`head, this`freeBytes, this`bin, this`lens, this`owner, this`stamp, this`clock
      modifies this`largeFree, this`bytesDropped, this`dropCount
      ensures Settled(0) && Since(o, newly, h, black) && 0 !in newly
      ensures largeFree + (if h != 0 then Bytes(r.Need()) else 0) + bytesDropped == o.total
      ensures h != 0 ==> h in newly && Serves(r, h, black)
      ensures h == 0 ==> Shrunk(o.lens, o.bin, lens, bin) && NothingFor(r, false, black, blLimit, lens, bin, exact)
      ensures h == 0 ==> NothingBetween(r, black, blLimit, lens, bin, first, limit + 1)
      ensures h != 0 ==> first <= n <= limit && FirstFit(r, black, blLimit, o, at, exact, first, n, h)
    {
      h, newly, n, at := 0, newly0, first, Now();
      var start := first;
      while start <= limit
        invariant first <= start && (start <= limit + 1 || start == first) && Settled(0) && h == 0
        invariant Since(o, newly, 0, black) && 0 !in newly && o.total == largeFree + bytesDropped
        invariant Shrunk(o.lens, o.bin, lens, bin) && NothingFor(r, false, black, blLimit, lens, bin, exact)
        invariant NothingBetween(r, black, blLimit, lens, bin, first, start)
      {
        n, at := start, Now();
        h, newly := SearchOn(r, start, true, black, o, newly);
        if h != 0 { return; }
        StillNothing(r, black, blLimit, at.lens, at.bin, lens, bin, exact, first, start);
        ShrunkTrans(o.lens, o.bin, at.lens, at.bin, lens, bin);
        start := start + 1;
      }
    }

    // The lists after the exact matches have been tried on list exact in vain.
    method SearchRest(r: Request, exact: nat, mode: Mode, black: set<nat>, largeAllocd: nat, maxLargeAllocd: nat,
          ghost o: Snap, ghost newly0: set<nat>) returns (h: nat, ghost newly: set<nat>, ghost s: Search)
      requires Settled(0) && 0 < r.sz && exact <= N_HBLK_FLS
      requires Since(o, newly0, 0, black) && 0 !in newly0 && o.total == largeFree + bytesDropped
      requires Shrunk(o.lens, o.bin, lens, bin) && NothingFor(r, false, black, blLimit, lens, bin, exact)
      modifies this`hdrs, this`jumps, this`head, this`freeBytes, this`bin, this`lens, this`owner, this`stamp, this`clock
      modifies this`largeFree, this`bytesDropped, this`dropCount
      ensures Settled(0) && Since(o, newly, h, black) && 0 !in newly
      ensures largeFree + (if h != 0 then Bytes(r.Need()) else 0) + bytesDropped == o.total
      ensures h != 0 ==> h in newly && Serves(r, h, black)
      ensures s.mid == old(Now()) && s.sums == old(freeBytes)
      ensures IsLimit(mode, s.sums, largeAllocd, maxLargeAllocd, s.limit)
      ensures h == 0 ==> Shrunk(o.lens, o.bin, lens, bin) && NothingFor(r, false, black, blLimit, lens, bin, exact)
      ensures h == 0 ==> NothingBetween(r, black, blLimit, lens, bin, NextList(exact), s.limit + 1)
      ensures h != 0 ==> NextList(exact) <= s.list <= s.limit
                         && FirstFit(r, black, blLimit, o, s.at, exact, NextList(exact), s.list, h)
    {
      var limit := SplitLimit(mode, largeAllocd, maxLargeAllocd);
      ghost var mid, sums := Now(), freeBytes;
      ghost var n, at;
      var start := exact;
      if start < UNIQUE_THRESHOLD {
        start := start + 1;
      }
      h, newly, n, at := SearchLists(r, start, limit, black, o, newly0, exact);
      s := Search(mid, sums, limit, n, at);
    }

    // GC_allochblk. mode fixes the split limit: the whole heap, finalizer-heavy or steady.
    // Exact matches come first, then the lists in order up to the limit.
    method Allochblk(r: Request, mode: Mode, black: set<nat>, largeAllocd: nat,
          maxLargeAllocd: nat) returns (h: nat, ghost newly: set<nat>, ghost s: Search)
      requires Settled(0) && 0 < r.sz
      modifies this`hdrs, this`jumps, this`head, this`freeBytes, this`bin, this`lens, this`owner, this`stamp, this`clock
      modifies this`largeFree, this`bytesDropped, this`dropCount
      ensures Settled(0) && Since(old(Now()), newly, h, black) && 0 !in newly
      ensures largeFree + (if h != 0 then Bytes(r.Need()) else 0) + bytesDropped == old(largeFree + bytesDropped)
      ensures h != 0 ==> h in newly && Serves(r, h, black)
      ensures h != 0 ==> forall x :: h <= x < h + r.Need() ==> x in old(owner) && old(owner)[x] in old(bin)
      ensures h == 0 && mode == WholeHeap ==> NothingAnywhere(r, black, blLimit, lens, bin)
      ensures h == 0 ==> Shrunk(old(lens), old(bin), lens, bin)
      ensures Bytes(r.Need()) < SIGN_LIMIT ==> var exact := FlFromBlocks(r.Need());
        || (h != 0 && FromList(old(lens), old(bin), exact, false, h, r.Need()))
        || (SearchedMid(old(Now()), s, r, black, blLimit, exact)
            && IsLimit(mode, s.sums, largeAllocd, maxLargeAllocd, s.limit)
            && if h == 0
               then NothingFor(r, false, black, blLimit, lens, bin, exact)
                    && NothingBetween(r, black, blLimit, lens, bin, NextList(exact), s.limit + 1)
               else NextList(exact) <= s.list <= s.limit
                    && FirstFit(r, black, blLimit, old(Now()), s.at, exact, NextList(exact), s.list, h))
    {
      var blocks := r.Need();
      newly := {};
      h := 0;
      ghost var o := Now();
      s := Search(o, freeBytes, 0, 0, o);
      if Bytes(blocks) >= SIGN_LIMIT {
        KeptSelf(hdrs, bin, {});
        ShrunkSelf(lens, bin);
        TooLarge(r, black, blLimit, hdrs, lens, head, bin, stamp, clock);
        return;
      }
      var start := FlFromBlocks(blocks);
      h, newly := AllochblkNth(r, start, false, black);
      if h == 0 {
        h, newly, s := SearchRest(r, start, mode, black, largeAllocd, maxLargeAllocd, o, newly);
      }
      if h != 0 {
        WasFree(o.hdrs, o.lens, o.owner, o.bin, hdrs, lens, owner, bin, newly, h);
      } else if mode == WholeHeap {
        StampKeys();
        SearchedAll(r, black, blLimit, hdrs, lens, bin);
      }
    }

    // Header and address space of a new, not yet free, block.
    method Install(p: nat, n: nat)
      requires Settled(0) && 1 < p && 0 < n && Bytes(n) < SIGN_LIMIT && Beside(owner, p, n)
      modifies this`hdrs, this`lens, this`owner
      ensures Settled(p) && p in hdrs && p !in bin && !hdrs[p].free && lens[p] == n && hdrs[p].sz == Bytes(lens[p])
      ensures Extended(old(owner), owner.Keys, p, n) && |owner.Keys| == |old(owner).Keys| + n
      ensures Gained(old(lens), lens, p, p)
      ensures Kept(old(hdrs), bin, hdrs, bin, {p}) && !InUse(old(hdrs), bin, p)
    {
      var hs := hdrs[p := Hdr(Bytes(n), false, Normal, 0, 0)];
      ghost var l2, o2 := InstallOk(hdrs, jumps, head, freeBytes, lens, owner, bin, stamp, clock, p, n, hs);
      hdrs := hs;
      lens := l2;
      owner := o2;
    }

    // The addresses that GC_add_to_heap really takes out of n blocks from p on.
    static function First(p: nat): nat { if p < 2 then 2 else p }
    static function Limit(p: nat, n: nat): nat { if p + n == ADDRESS_BLOCKS then p + n - 1 else p + n }

    // What GC_add_to_heap does with the section it has settled on.
    method AddSection(p: nat, n: nat)
      requires Valid() && 1 < p && 0 < n && Bytes(n) < SIGN_LIMIT && Beside(owner, p, n)
      modifies this
      ensures Valid() && sects == old(sects) + [(p, n)]
      ensures Extended(old(owner), owner.Keys, p, n)
      ensures largeFree == old(largeFree) + Bytes(n) && heapSize == old(heapSize) + Bytes(n)
      ensures Kept(old(hdrs), old(bin), hdrs, bin, {})
    {
      Install(p, n);
      ghost var h1, bin1 := hdrs, bin;
      var duplicate := Freehblk(p, p);
      sects := sects + [(p, n)];
      heapSize := heapSize + Bytes(n);
      SectAdded(old(sects), old(owner), owner, p, n);
      KeptNew(old(hdrs), h1, bin1, hdrs, bin, p);
    }

    // GC_add_to_heap, which aborts when there are too many sections already.
    method AddToHeap(p0: nat, n0: nat) returns (added: bool)
      requires Valid() && 0 < n0 && p0 + n0 <= ADDRESS_BLOCKS && Bytes(n0) < SIGN_LIMIT && Beside(owner, p0, n0)
      modifies this
      ensures Valid()
      ensures added <==> |old(sects)| < maxSects && First(p0) < Limit(p0, n0)
      ensures !added ==> unchanged(this)
      ensures added ==> var n := Limit(p0, n0) - First(p0);
        && Extended(old(owner), owner.Keys, First(p0), n)
        && largeFree == old(largeFree) + Bytes(n)
        && Kept(old(hdrs), old(bin), hdrs, bin, {})
    {
      if |sects| >= maxSects { return false; }
      var p, n := Trim(p0, n0);
      if n == 0 { return false; }
      BesidePart(owner, p0, n0, p, n);
      AddSection(p, n);
      return true;
    }

    // Neither the blocks near address zero nor the last one of the address space are used.
    static method Trim(p0: nat, n0: nat) returns (p: nat, n: nat)
      requires 0 < n0 && p0 + n0 <= ADDRESS_BLOCKS
      ensures if First(p0) < Limit(p0, n0) then p == First(p0) && n == Limit(p0, n0) - p else n == 0
    {
      p, n := p0, n0;
      while p <= 1
        invariant p + n == p0 + n0 && 0 < n && p0 <= p <= First(p0)
      {
        p, n := p + 1, n - 1;
        if n == 0 { return; }
      }
      if p + n == ADDRESS_BLOCKS {
        n := n - 1;
      }
    }
  }
}
