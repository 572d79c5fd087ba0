// What holds of the blocks of the heap, in use, free or in transit, and what each
// step of the block manager does to it.
module BlockShape {
  import opened BlockMap
  import opened FreeLists
  import opened Kinds

  // One header against its length. x is a block in transit: unlinked, half
  // filled in, or on the list of another size.
  ghost predicate BlockOk(hdrs: map<nat, Hdr>, lens: map<nat, nat>, bin: map<nat, nat>, b: nat, x: nat) {
    b in hdrs ==>
      && 0 < b && b in lens
      && Bytes(lens[b]) < SIGN_LIMIT
      && (b in bin ==> hdrs[b].sz == Bytes(lens[b]))
      && (b != x ==>
            && hdrs[b].Len() == lens[b]
            && (hdrs[b].free <==> b in bin)
            && (b in bin ==> bin[b] == FlFromBlocks(lens[b])))
  }

  // The blocks without forwarding counts.
  function Idle(bin: map<nat, nat>, x: nat): set<nat> {
    bin.Keys + {0, x}
  }

  ghost predicate ShapeOk(hdrs: map<nat, Hdr>, lens: map<nat, nat>, bin: map<nat, nat>, x: nat) {
    lens.Keys == hdrs.Keys && forall b :: BlockOk(hdrs, lens, bin, b, x)
  }

  // No two adjacent blocks are free, as long as the whole heap stays below the
  // limit under which blocks can always be merged.
  ghost predicate Small(heap: set<nat>) {
    Bytes(|heap|) < SIGN_LIMIT
  }

  ghost predicate Coalesced(lens: map<nat, nat>, owner: map<nat, nat>, bin: map<nat, nat>)
    requires bin.Keys <= lens.Keys
  {
    Small(owner.Keys) ==> forall b :: Apart(lens, bin, b)
  }

  ghost predicate Apart(lens: map<nat, nat>, bin: map<nat, nat>, b: nat)
    requires bin.Keys <= lens.Keys
  {
    b in bin ==> b + lens[b] !in bin
  }

  // Block b is not a free block that ends at y.
  ghost predicate EndsElsewhere(lens: map<nat, nat>, bin: map<nat, nat>, y: nat, b: nat)
    requires bin.Keys <= lens.Keys
  {
    b in bin ==> b + lens[b] != y
  }

  // Relinking touches nothing but the links, and only those of listed blocks.
  ghost predicate SameBut(h1: map<nat, Hdr>, h2: map<nat, Hdr>, bin: map<nat, nat>, c: nat)
    requires h1.Keys == h2.Keys
  {
    c in h1 ==>
      if c in bin then h2[c].sz == h1[c].sz && h2[c].free == h1[c].free && h2[c].kind == h1[c].kind
      else h2[c] == h1[c]
  }

  ghost predicate Relinked(h1: map<nat, Hdr>, h2: map<nat, Hdr>, bin: map<nat, nat>, b: nat) {
    h1.Keys == h2.Keys && forall c {:trigger SameBut(h1, h2, bin, c)} :: c != b ==> SameBut(h1, h2, bin, c)
  }

  // Linked looks only at the links of listed blocks.
  lemma LinkedAgree(h1: map<nat, Hdr>, h2: map<nat, Hdr>, head: seq<nat>, bin: map<nat, nat>, stamp: map<nat, nat>,
        clock: nat)
    requires Linked(h1, head, bin, stamp, clock)
    requires forall b :: b in bin && b in h1 ==> b in h2 && h2[b].prev == h1[b].prev && h2[b].next == h1[b].next
    ensures Linked(h2, head, bin, stamp, clock)
  {
    forall b | b in bin ensures LinkOk(h2, head, bin, stamp, clock, b) {
      assert LinkOk(h1, head, bin, stamp, clock, b);
    }
    forall i | 0 <= i < |head| ensures HeadOk(h2, head, bin, i) {
      assert HeadOk(h1, head, bin, i);
    }
  }

  // The counter of list bin[h] when n takes the place of h there and keeps only its tail.
  lemma SumsSplit(freeBytes: seq<nat>, lens: map<nat, nat>, bin: map<nat, nat>, h: nat, n: nat)
    requires SumsOk(freeBytes, lens, bin) && h in bin && bin[h] < |freeBytes| && n !in bin && n !in lens
             && h < n < h + lens[h]
    ensures freeBytes[bin[h]] >= Bytes(lens[h])
    ensures SumsOk(freeBytes[bin[h] := freeBytes[bin[h]] - Bytes(n - h)], SplitLens(lens, h, n),
            (bin - {h})[n := bin[h]])
    ensures FreeTotal(SplitLens(lens, h, n), (bin - {h})[n := bin[h]]) == FreeTotal(lens, bin) - Bytes(n - h)
  {
    var i, l2 := bin[h], SplitLens(lens, h, n);
    SumsRemove(freeBytes, lens, bin, h);
    var fb1 := freeBytes[i := freeBytes[i] - Bytes(lens[h])];
    SumsAgree(fb1, lens, l2, bin - {h});
    SumsAdd(fb1, l2, bin - {h}, n, i);
    assert fb1[i := fb1[i] + Bytes(l2[n])] == freeBytes[i := freeBytes[i] - Bytes(n - h)];
  }

  // Joining or cutting idle blocks leaves the forwarding counts right.
  lemma MergeMap(jumps: map<nat, nat>, lens: map<nat, nat>, owner: map<nat, nat>, idle: set<nat>, idle2: set<nat>,
        b: nat, c: nat)
    requires Tiled(lens, owner) && JumpsOk(jumps, owner, idle) && b in lens && c in lens && c == b + lens[b]
    requires b in idle && c in idle && idle2 == idle - {c}
    ensures Tiled(MergedLens(lens, b, c), Paint(owner, c, c + lens[c], b))
    ensures JumpsOk(jumps, Paint(owner, c, c + lens[c], b), idle2)
  {
    MergeTiled(lens, owner, b, c);
    var o2 := Paint(owner, c, c + lens[c], b);
    assert Owned(lens, owner, b) && Owned(lens, owner, c);
    forall x: nat ensures Counted(o2, idle2, x) <==> Counted(owner, idle, x) {
      assert Housed(lens, owner, x);
      assert c <= x < c + lens[c] ==> x in owner && owner[x] == c;
    }
    JumpsIdle(jumps, owner, idle, o2, idle2);
  }

  lemma SplitMap(jumps: map<nat, nat>, lens: map<nat, nat>, owner: map<nat, nat>, idle: set<nat>, idle2: set<nat>,
        b: nat, n: nat)
    requires Tiled(lens, owner) && JumpsOk(jumps, owner, idle) && b in lens && b < n < b + lens[b]
    requires b in idle && idle2 == idle + {n}
    ensures n !in lens && n in owner
    ensures Tiled(SplitLens(lens, b, n), Paint(owner, n, b + lens[b], n))
    ensures JumpsOk(jumps, Paint(owner, n, b + lens[b], n), idle2)
  {
    SplitTiled(lens, owner, b, n);
    var o2 := Paint(owner, n, b + lens[b], n);
    assert Owned(lens, owner, b) && Owned(lens, owner, n);
    forall x: nat ensures Counted(o2, idle2, x) <==> Counted(owner, idle, x) {
      assert Housed(lens, owner, x);
      assert owner[n] == b && (b <= x < b + lens[b] ==> x in owner && owner[x] == b);
    }
    JumpsIdle(jumps, owner, idle, o2, idle2);
  }

  predicate InUse(hdrs: map<nat, Hdr>, bin: map<nat, nat>, b: nat) {
    b in hdrs && b !in bin
  }

  ghost predicate KeptAt(h1: map<nat, Hdr>, bin1: map<nat, nat>, h2: map<nat, Hdr>, bin2: map<nat, nat>, b: nat) {
    && (InUse(h1, bin1, b) <==> InUse(h2, bin2, b))
    && (InUse(h1, bin1, b) ==> h2[b] == h1[b])
  }

  // The same blocks are in use, with the same headers, except for those in xs.
  ghost predicate Kept(h1: map<nat, Hdr>, bin1: map<nat, nat>, h2: map<nat, Hdr>, bin2: map<nat, nat>, xs: set<nat>) {
    forall b {:trigger KeptAt(h1, bin1, h2, bin2, b)} :: b !in xs ==> KeptAt(h1, bin1, h2, bin2, b)
  }

  lemma KeptTrans(h1: map<nat, Hdr>, bin1: map<nat, nat>, h2: map<nat, Hdr>, bin2: map<nat, nat>, h3: map<nat, Hdr>,
        bin3: map<nat, nat>, xs: set<nat>, ys: set<nat>)
    requires Kept(h1, bin1, h2, bin2, xs) && Kept(h2, bin2, h3, bin3, ys)
    ensures Kept(h1, bin1, h3, bin3, xs + ys)
  {
    forall b | b !in xs + ys ensures KeptAt(h1, bin1, h3, bin3, b) {
      assert KeptAt(h1, bin1, h2, bin2, b) && KeptAt(h2, bin2, h3, bin3, b);
    }
  }

  // p was in use neither before nor after.
  lemma KeptNew(h0: map<nat, Hdr>, h1: map<nat, Hdr>, bin1: map<nat, nat>, h2: map<nat, Hdr>, bin2: map<nat, nat>,
        p: nat)
    requires Kept(h0, bin1, h1, bin1, {p}) && Kept(h1, bin1, h2, bin2, {p}) && !InUse(h0, bin1, p)
             && !InUse(h2, bin2, p)
    ensures Kept(h0, bin1, h2, bin2, {})
  {
    forall b ensures KeptAt(h0, bin1, h2, bin2, b) {
      assert b != p ==> KeptAt(h0, bin1, h1, bin1, b) && KeptAt(h1, bin1, h2, bin2, b);
    }
  }

  // A block in use before and after holds the same addresses before and after.
  lemma UseKept(h1: map<nat, Hdr>, lens1: map<nat, nat>, owner1: map<nat, nat>, bin1: map<nat, nat>,
                h2: map<nat, Hdr>, lens2: map<nat, nat>, owner2: map<nat, nat>, bin2: map<nat, nat>, xs: set<nat>,
                z: nat)
    requires ShapeOk(h1, lens1, bin1, 0) && ShapeOk(h2, lens2, bin2, 0) && Tiled(lens1, owner1) && Tiled(lens2, owner2)
    requires Kept(h1, bin1, h2, bin2, xs) && z in owner1 && z in owner2 && owner1[z] !in bin1 && owner1[z] !in xs
    ensures owner2[z] == owner1[z] && owner2[z] !in bin2
  {
    var d := owner1[z];
    assert Housed(lens1, owner1, z) && Owned(lens1, owner1, d);
    assert KeptAt(h1, bin1, h2, bin2, d);
    assert BlockOk(h1, lens1, bin1, d, 0) && BlockOk(h2, lens2, bin2, d, 0);
    assert Owned(lens2, owner2, d);
  }

  function MergedHdrs(hdrs: map<nat, Hdr>, b: nat, c: nat): map<nat, Hdr>
    requires b in hdrs && c in hdrs
  {
    (hdrs - {c})[b := hdrs[b].(sz := hdrs[b].sz + hdrs[c].sz)]
  }

  // y is the one of b and c that was on a free list and has been unlinked from it.
  lemma MergeShape(hdrs: map<nat, Hdr>, hm: map<nat, Hdr>, lens: map<nat, nat>, bin: map<nat, nat>, b: nat, c: nat,
        x: nat, y: nat)
    requires ShapeOk(hdrs, lens, bin, x) && b in hdrs && c in hdrs && b != c && {x, y} == {b, c} && x !in bin
             && y in bin
    requires Bytes(lens[b] + lens[c]) < SIGN_LIMIT
    requires Relinked(hdrs, hm, bin, y) && hm[y] == hdrs[y] && x in hdrs && hdrs[x].sz == Bytes(lens[x])
    ensures MergedHdrs(hm, b, c)[b].sz == Bytes(MergedLens(lens, b, c)[b])
    ensures ShapeOk(MergedHdrs(hm, b, c), MergedLens(lens, b, c), bin - {y}, b)
    ensures Kept(hdrs, bin, MergedHdrs(hm, b, c), bin - {y}, {b, x})
  {
    var h2, l2, bin2 := MergedHdrs(hm, b, c), MergedLens(lens, b, c), bin - {y};
    assert SameBut(hdrs, hm, bin, x) && BlockOk(hdrs, lens, bin, y, x);
    forall d ensures BlockOk(h2, l2, bin2, d, b) {
      assert BlockOk(hdrs, lens, bin, d, x) && (d != y ==> SameBut(hdrs, hm, bin, d));
    }
    forall d | d !in {b, x} ensures KeptAt(hdrs, bin, h2, bin2, d) {
      assert BlockOk(hdrs, lens, bin, d, x) && (d != y ==> SameBut(hdrs, hm, bin, d));
    }
  }

  lemma MergeLists(hm: map<nat, Hdr>, lens: map<nat, nat>, head: seq<nat>, freeBytes: seq<nat>, bin: map<nat, nat>,
        stamp: map<nat, nat>, clock: nat, b: nat, c: nat)
    requires Linked(hm, head, bin, stamp, clock) && SumsOk(freeBytes, lens, bin)
    requires b in hm && c in hm && b in lens && c in lens && b !in bin && c !in bin && bin.Keys <= hm.Keys
    ensures Linked(MergedHdrs(hm, b, c), head, bin, stamp, clock)
    ensures SumsOk(freeBytes, MergedLens(lens, b, c), bin)
    ensures FreeTotal(MergedLens(lens, b, c), bin) == FreeTotal(lens, bin)
  {
    LinkedAgree(hm, MergedHdrs(hm, b, c), head, bin, stamp, clock);
    SumsAgree(freeBytes, lens, MergedLens(lens, b, c), bin);
  }

  // b and c become one block, y being the one that was free and x the one in transit.
  lemma MergeIdle(jumps: map<nat, nat>, lens: map<nat, nat>, owner: map<nat, nat>, bin: map<nat, nat>,
        b: nat, c: nat, x: nat, y: nat)
    requires Tiled(lens, owner) && JumpsOk(jumps, owner, Idle(bin, x)) && b in lens && c in lens && c == b + lens[b]
    requires (x == b && y == c) || (x == c && y == b)
    requires x !in bin && y in bin && b != c
    ensures Tiled(MergedLens(lens, b, c), Paint(owner, c, c + lens[c], b))
    ensures JumpsOk(jumps, Paint(owner, c, c + lens[c], b), Idle(bin - {y}, b))
  {
    assert Idle(bin - {y}, b) == Idle(bin, x) - {c};
    MergeMap(jumps, lens, owner, Idle(bin, x), Idle(bin - {y}, b), b, c);
  }

  lemma MergeHeap(hdrs: map<nat, Hdr>, hm: map<nat, Hdr>, jumps: map<nat, nat>, head: seq<nat>, freeBytes: seq<nat>,
        lens: map<nat, nat>, owner: map<nat, nat>, bin: map<nat, nat>, stamp: map<nat, nat>, clock: nat, b: nat, c: nat,
        x: nat, y: nat, xs: set<nat>)
    requires ShapeOk(hdrs, lens, bin, x) && Tiled(lens, owner) && JumpsOk(jumps, owner, Idle(bin, x))
    requires b in hdrs && c in hdrs && c == b + lens[b] && x !in bin && y in bin && b != c
    requires (x == b && y == c) || (x == c && y == b)
    requires Bytes(lens[b] + lens[c]) < SIGN_LIMIT && hdrs[x].sz == Bytes(lens[x]) && b in xs && x in xs
    requires Relinked(hdrs, hm, bin, y) && hm[y] == hdrs[y] && bin.Keys <= hm.Keys
    requires Linked(hm, head, bin - {y}, stamp, clock) && SumsOk(freeBytes, lens, bin - {y})
    requires |head| == |freeBytes| == N_HBLK_FLS + 1
    ensures HeapOk(MergedHdrs(hm, b, c), jumps, head, freeBytes, MergedLens(lens, b, c),
            Paint(owner, c, c + lens[c], b),
              bin - {y}, stamp, clock, b)
    ensures MergedHdrs(hm, b, c)[b].sz == Bytes(MergedLens(lens, b, c)[b])
    ensures Kept(hdrs, bin, MergedHdrs(hm, b, c), bin - {y}, xs)
    ensures FreeTotal(MergedLens(lens, b, c), bin - {y}) == FreeTotal(lens, bin - {y})
  {
    MergeIdle(jumps, lens, owner, bin, b, c, x, y);
    MergeShape(hdrs, hm, lens, bin, b, c, x, y);
    MergeLists(hm, lens, head, freeBytes, bin - {y}, stamp, clock, b, c);
  }

  // The lists after n took the place of h on list index and h went to a list of its own.
  function Rebinned(bin: map<nat, nat>, h: nat, n: nat, index: nat): (r: map<nat, nat>)
    requires h in bin && h < n
    ensures r.Keys == bin.Keys + {n}
  {
    (bin - {h})[n := index][h := FlFromBlocks(n - h)]
  }

  // n is cut off from b and goes with the idle ones.
  lemma SplitIdle(jumps: map<nat, nat>, lens: map<nat, nat>, owner: map<nat, nat>, bin: map<nat, nat>,
        bin2: map<nat, nat>,
        b: nat, n: nat, x: nat, y: nat)
    requires Tiled(lens, owner) && JumpsOk(jumps, owner, Idle(bin, x)) && b in lens && b < n < b + lens[b]
    requires b in Idle(bin, x) && bin2.Keys == bin.Keys + {n} && (y == x || (x == 0 && y == n))
    ensures n !in lens && n in owner
    ensures Tiled(SplitLens(lens, b, n), Paint(owner, n, b + lens[b], n))
    ensures JumpsOk(jumps, Paint(owner, n, b + lens[b], n), Idle(bin2, y))
  {
    assert Idle(bin2, y) == Idle(bin, x) + {n};
    SplitMap(jumps, lens, owner, Idle(bin, x), Idle(bin2, y), b, n);
  }

  // After the two merges below, no free block touches y.
  lemma AroundNext(lens: map<nat, nat>, bin: map<nat, nat>, b: nat, next: nat)
    requires bin.Keys <= lens.Keys && b in lens && b !in bin && next == b + lens[b]
    requires forall c :: Apart(lens, bin, c)
    ensures next in bin ==> Around(MergedLens(lens, b, next), bin - {next}, b)
    ensures next !in bin ==> Around(lens, bin, b)
  {
    if next in bin {
      assert Apart(lens, bin, next);
      forall c ensures Apart(MergedLens(lens, b, next), bin - {next}, c) {
        assert Apart(lens, bin, c);
      }
    }
  }

  lemma AroundPrev(lens: map<nat, nat>, bin: map<nat, nat>, prev: nat, b: nat)
    requires bin.Keys <= lens.Keys && b in lens && b !in bin && prev in bin && prev + lens[prev] == b
             && Around(lens, bin, b)
    ensures Around(MergedLens(lens, prev, b), bin - {prev}, prev)
    ensures forall c :: EndsElsewhere(MergedLens(lens, prev, b), bin - {prev}, prev, c)
  {
    forall c ensures Apart(MergedLens(lens, prev, b), bin - {prev}, c) {
      assert Apart(lens, bin, c);
    }
    forall c ensures EndsElsewhere(MergedLens(lens, prev, b), bin - {prev}, prev, c) {
      assert Apart(lens, bin, c);
    }
  }

  // Marking block b free, or no longer in transit.
  lemma ShapeFree(hdrs: map<nat, Hdr>, h2: map<nat, Hdr>, lens: map<nat, nat>, bin: map<nat, nat>, b: nat)
    requires ShapeOk(hdrs, lens, bin, b) && b in hdrs && b !in bin && Relinked(hdrs, h2, bin, b)
    requires h2[b].sz == Bytes(lens[b]) && h2[b].free
    ensures ShapeOk(h2, lens, bin[b := FlFromBlocks(lens[b])], 0)
    ensures Kept(hdrs, bin, h2, bin[b := FlFromBlocks(lens[b])], {b})
  {
    var bin2 := bin[b := FlFromBlocks(lens[b])];
    forall d ensures BlockOk(h2, lens, bin2, d, 0) {
      assert BlockOk(hdrs, lens, bin, d, b) && (d != b ==> SameBut(hdrs, h2, bin, d));
    }
    forall d | d != b ensures KeptAt(hdrs, bin, h2, bin2, d) {
      assert SameBut(hdrs, h2, bin, d);
    }
  }

  lemma UpdateSum(m: map<nat, nat>, n: map<nat, nat>, k: nat, v: nat)
    ensures (m + n)[k := v] == m + n[k := v]
  {
  }

  // Free blocks around y, which is about to become free, once its merges are done.
  ghost predicate Around(lens: map<nat, nat>, bin: map<nat, nat>, y: nat)
    requires bin.Keys <= lens.Keys && y in lens
  {
    y + lens[y] !in bin && forall b :: Apart(lens, bin, b)
  }

  lemma KeptSelf(hdrs: map<nat, Hdr>, bin: map<nat, nat>, xs: set<nat>)
    ensures Kept(hdrs, bin, hdrs, bin, xs)
  {
    forall b | b !in xs ensures KeptAt(hdrs, bin, hdrs, bin, b) {
    }
  }

  // Two adjacent blocks are no longer than the heap.
  lemma MergeFits(lens: map<nat, nat>, owner: map<nat, nat>, b: nat, c: nat)
    requires Tiled(lens, owner) && b in lens && c in lens && c == b + lens[b]
    ensures lens[b] + lens[c] <= |owner.Keys|
  {
    assert Owned(lens, owner, b) && Owned(lens, owner, c);
    RunFits(owner, b, c + lens[c]);
  }

  // The block that ends at h, if there is one, is the one that holds h - 1.
  lemma EndsAt(lens: map<nat, nat>, owner: map<nat, nat>, bin: map<nat, nat>, h: nat)
    requires Tiled(lens, owner) && bin.Keys <= lens.Keys && h > 0
    ensures forall b :: b in bin && b + lens[b] == h ==>
            b > 1 && h - 1 in owner && owner[h - 1] == b
            && PrevBlock(lens.Keys, h - 1) == b
  {
    forall b | b in bin && b + lens[b] == h
      ensures b > 1 && h - 1 in owner && owner[h - 1] == b && PrevBlock(lens.Keys, h - 1) == b
    {
      assert Owned(lens, owner, b);
      var c := PrevBlock(lens.Keys, h - 1);
      if b < c { TilesDisjoint(lens, owner, b, c); }
    }
  }

  // The counts of block b go, and b with them from the blocks that have counts.
  lemma CountsRemoved(jumps: map<nat, nat>, lens: map<nat, nat>, owner: map<nat, nat>, idle: set<nat>, b: nat)
    requires Tiled(lens, owner) && JumpsOk(jumps, owner, idle) && b in lens
    ensures JumpsOk(jumps - Range(b + 1, b + lens[b]), owner, idle + {b})
    ensures b in idle ==> jumps - Range(b + 1, b + lens[b]) == jumps
  {
    assert Owned(lens, owner, b);
    var j2 := jumps - Range(b + 1, b + lens[b]);
    forall x: nat ensures JumpOk(j2, owner, idle + {b}, x) {
      assert JumpOk(jumps, owner, idle, x) && Housed(lens, owner, x);
    }
    forall x | x in jumps && b in idle ensures x in j2 {
      assert JumpOk(jumps, owner, idle, x) && Housed(lens, owner, x);
    }
  }

  lemma CountsInstalled(jumps: map<nat, nat>, lens: map<nat, nat>, owner: map<nat, nat>, idle: set<nat>,
        idle2: set<nat>, b: nat)
    requires Tiled(lens, owner) && JumpsOk(jumps, owner, idle) && b in lens && b in idle && idle2 == idle - {b}
    ensures JumpsOk(jumps + Counts(b, lens[b]), owner, idle2)
  {
    assert Owned(lens, owner, b);
    var cs := Counts(b, lens[b]);
    forall x: nat ensures JumpOk(jumps + cs, owner, idle2, x) {
      assert JumpOk(jumps, owner, idle, x) && Housed(lens, owner, x);
      CountsAt(b, lens[b], x);
      assert b <= x < b + lens[b] ==> x in owner && owner[x] == b;
      assert x in owner && owner[x] == b ==> b <= x < b + lens[b];
    }
  }

  // prev is the free block that ends at b, or 0 if there is none.
  ghost predicate PrevIs(lens: map<nat, nat>, bin: map<nat, nat>, b: nat, prev: nat)
    requires bin.Keys <= lens.Keys
  {
    if prev != 0 then prev in bin && prev + lens[prev] == b else forall c :: EndsElsewhere(lens, bin, b, c)
  }

  lemma PrevKept(lens: map<nat, nat>, bin: map<nat, nat>, b: nat, next: nat, prev: nat)
    requires bin.Keys <= lens.Keys && b in lens && next in lens && b !in bin && next != b && PrevIs(lens, bin, b, prev)
             && next != prev
    ensures PrevIs(MergedLens(lens, b, next), bin - {next}, b, prev)
  {
    forall c | prev == 0 ensures EndsElsewhere(MergedLens(lens, b, next), bin - {next}, b, c) {
      assert EndsElsewhere(lens, bin, b, c);
    }
  }

  lemma CoalescedAdd(lens: map<nat, nat>, owner: map<nat, nat>, bin: map<nat, nat>, y: nat, i: nat)
    requires bin.Keys <= lens.Keys && y in lens && 0 < lens[y]
    requires Small(owner.Keys) ==> Around(lens, bin, y) && forall c :: EndsElsewhere(lens, bin, y, c)
    ensures Coalesced(lens, owner, bin[y := i])
  {
    if Small(owner.Keys) {
      var bin2 := bin[y := i];
      forall c ensures Apart(lens, bin2, c) {
        assert Apart(lens, bin, c) && EndsElsewhere(lens, bin, y, c);
      }
    }
  }

  lemma KeptOne(h1: map<nat, Hdr>, h2: map<nat, Hdr>, bin: map<nat, nat>, x: nat)
    requires x in h1 && x in h2 && h1 == h2[x := h1[x]]
    ensures Kept(h1, bin, h2, bin, {x})
  {
    forall b | b !in {x} ensures KeptAt(h1, bin, h2, bin, b) {
    }
  }

  // Unused before and after, y is no exception.
  lemma KeptDrop(h1: map<nat, Hdr>, bin1: map<nat, nat>, h2: map<nat, Hdr>, bin2: map<nat, nat>, xs: set<nat>,
        ys: set<nat>)
    requires Kept(h1, bin1, h2, bin2, xs)
    requires forall y :: y in xs && y !in ys ==> !InUse(h1, bin1, y) && !InUse(h2, bin2, y)
    ensures Kept(h1, bin1, h2, bin2, ys)
  {
    forall b | b !in ys ensures KeptAt(h1, bin1, h2, bin2, b) {
      if b !in xs { assert KeptAt(h1, bin1, h2, bin2, b); }
    }
  }

  lemma KeptFreed(h0: map<nat, Hdr>, h1: map<nat, Hdr>, bin1: map<nat, nat>, h2: map<nat, Hdr>, bin2: map<nat, nat>,
                  h3: map<nat, Hdr>, bin3: map<nat, nat>, b: nat, y: nat)
    requires Kept(h0, bin1, h1, bin1, {b}) && Kept(h1, bin1, h2, bin2, {b, y}) && Kept(h2, bin2, h3, bin3, {y})
    requires y in bin3 && (y != b ==> y in bin1 && b !in h2)
    ensures Kept(h0, bin1, h3, bin3, {b}) && !InUse(h3, bin3, b)
  {
    KeptTrans(h0, bin1, h1, bin1, h2, bin2, {b}, {b, y});
    KeptTrans(h0, bin1, h2, bin2, h3, bin3, {b} + {b, y}, {y});
    assert b == y || KeptAt(h2, bin2, h3, bin3, b);
    KeptDrop(h0, bin1, h3, bin3, {b} + {b, y} + {y}, {b});
  }

  // Block h cut at n, h relisted by size, n in its old place: h3 after the relinking.
  lemma SplitShape(hdrs: map<nat, Hdr>, hm: map<nat, Hdr>, h3: map<nat, Hdr>, lens: map<nat, nat>,
        bin: map<nat, nat>, h: nat, n: nat)
    requires ShapeOk(hdrs, lens, bin, 0) && h in bin && h in hdrs && n !in hdrs && h < n < h + lens[h]
             && bin.Keys <= hdrs.Keys
    requires hm.Keys == hdrs.Keys + {n} && h3.Keys == hm.Keys && hm[h].sz == Bytes(n - h)
    requires hm[n].sz == Bytes(h + lens[h] - n) && hm[n].free && h3[h].free && h3[h].sz == hm[h].sz && h != 0
    requires SameExcept(hdrs, hm, bin, h)
    requires Relinked(hm, h3, (bin - {h})[n := bin[h]], h)
    ensures ShapeOk(h3, SplitLens(lens, h, n), (bin - {h})[n := bin[h]][h := FlFromBlocks(n - h)], n)
    ensures Kept(hdrs, bin, h3, (bin - {h})[n := bin[h]][h := FlFromBlocks(n - h)], {})
  {
    var bin2 := (bin - {h})[n := bin[h]];
    var l4, bin4 := SplitLens(lens, h, n), bin2[h := FlFromBlocks(n - h)];
    assert SameBut(hm, h3, bin2, n) && BlockOk(hdrs, lens, bin, h, 0);
    forall d ensures BlockOk(h3, l4, bin4, d, n) {
      assert BlockOk(hdrs, lens, bin, d, 0) && (d != h ==> SameBut(hm, h3, bin2, d));
      assert d != h ==> SameAs(hdrs, hm, bin, d);
    }
    forall d ensures KeptAt(hdrs, bin, h3, bin4, d) {
      assert d != h ==> SameBut(hm, h3, bin2, d);
      assert d != h ==> SameAs(hdrs, hm, bin, d);
    }
  }

  ghost predicate SameAs(h1: map<nat, Hdr>, h2: map<nat, Hdr>, bin: map<nat, nat>, c: nat) {
    c in h1 ==> (c in h2 &&
      if c in bin then h2[c].sz == h1[c].sz && h2[c].free == h1[c].free && h2[c].kind == h1[c].kind
      else h2[c] == h1[c])
  }

  ghost predicate SameExcept(h1: map<nat, Hdr>, h2: map<nat, Hdr>, bin: map<nat, nat>, h: nat) {
    forall d {:trigger SameAs(h1, h2, bin, d)} :: d != h ==> SameAs(h1, h2, bin, d)
  }

  lemma ReplacedSame(hdrs: map<nat, Hdr>, head: seq<nat>, bin: map<nat, nat>, stamp: map<nat, nat>, clock: nat,
        h: nat, n: nat, nhdr: Hdr, sz: nat)
    requires Linked(hdrs, head, bin, stamp, clock) && h in bin && h in hdrs && n !in hdrs && n !in bin && n != 0
    ensures bin[h] < |head| && h in stamp
    ensures var h2 := Replaced(hdrs, h, n, nhdr)[h := hdrs[h].(sz := sz)];
            && h2.Keys == hdrs.Keys + {n} && h2[n].sz == nhdr.sz && h2[n].free == nhdr.free
               && SameExcept(hdrs, h2, bin, h)
            && Linked(h2, if hdrs[h].prev == 0 then head[bin[h] := n] else head, (bin - {h})[n := bin[h]],
               stamp[n := stamp[h]], clock)
  {
    assert LinkOk(hdrs, head, bin, stamp, clock, h);
    ReplaceKeeps(hdrs, head, bin, stamp, clock, h, n, nhdr);
    var h1 := Replaced(hdrs, h, n, nhdr);
    LinkedAgree(h1, h1[h := hdrs[h].(sz := sz)], if hdrs[h].prev == 0 then head[bin[h] := n] else head,
        (bin - {h})[n := bin[h]], stamp[n := stamp[h]], clock);
  }

  // Block h, in transit, cut at rest, and rest listed: h3 after the relinking.
  lemma RestLists(hdrs: map<nat, Hdr>, head: seq<nat>, freeBytes: seq<nat>, lens: map<nat, nat>, bin: map<nat, nat>,
        stamp: map<nat, nat>, clock: nat, h: nat, rest: nat, bytes: nat)
    requires Linked(hdrs, head, bin, stamp, clock) && SumsOk(freeBytes, lens, bin) && bin.Keys <= lens.Keys == hdrs.Keys
    requires h in lens && h !in bin && h < rest < h + lens[h] && rest !in lens
    ensures var hs := hdrs[rest := Hdr(bytes, false, Normal, 0, 0)];
            Linked(hs, head, bin, stamp, clock) && hs - {rest} == hdrs
    ensures SumsOk(freeBytes, SplitLens(lens, h, rest), bin)
            && FreeTotal(SplitLens(lens, h, rest), bin) == FreeTotal(lens, bin)
  {
    SumsAgree(freeBytes, lens, SplitLens(lens, h, rest), bin);
    LinkedAgree(hdrs, hdrs[rest := Hdr(bytes, false, Normal, 0, 0)], head, bin, stamp, clock);
  }

  lemma RestShape(hdrs: map<nat, Hdr>, h2: map<nat, Hdr>, h3: map<nat, Hdr>, lens: map<nat, nat>,
        bin: map<nat, nat>, h: nat, rest: nat)
    requires ShapeOk(hdrs, lens, bin, h) && h in hdrs && h !in bin && rest !in hdrs && h < rest < h + lens[h]
             && bin.Keys <= hdrs.Keys
    requires h2.Keys == hdrs.Keys + {rest} && h2 - {rest} == hdrs && Relinked(h2, h3, bin, rest)
    requires h3[rest].sz == Bytes(h + lens[h] - rest) && h3[rest].free
    ensures ShapeOk(h3, SplitLens(lens, h, rest), bin[rest := FlFromBlocks(h + lens[h] - rest)], h)
    ensures Kept(hdrs, bin, h3, bin[rest := FlFromBlocks(h + lens[h] - rest)], {})
  {
    var l4, bin4 := SplitLens(lens, h, rest), bin[rest := FlFromBlocks(h + lens[h] - rest)];
    assert BlockOk(hdrs, lens, bin, h, h);
    forall d ensures BlockOk(h3, l4, bin4, d, h) {
      assert BlockOk(hdrs, lens, bin, d, h);
      if d in hdrs { assert SameBut(h2, h3, bin, d) && h2[d] == (h2 - {rest})[d]; }
    }
    forall d ensures KeptAt(hdrs, bin, h3, bin4, d) {
      if d in hdrs { assert SameBut(h2, h3, bin, d) && h2[d] == (h2 - {rest})[d]; }
    }
  }

  lemma UnlinkedShape(hdrs: map<nat, Hdr>, h1: map<nat, Hdr>, lens: map<nat, nat>, bin: map<nat, nat>, h: nat)
    requires ShapeOk(hdrs, lens, bin, h) && h in bin && h in hdrs && Relinked(hdrs, h1, bin, h)
    ensures ShapeOk(h1, lens, bin - {h}, h)
    ensures Kept(hdrs, bin, h1, bin - {h}, {h})
  {
    forall d ensures BlockOk(h1, lens, bin - {h}, d, h) {
      assert BlockOk(hdrs, lens, bin, d, h) && (d != h ==> SameBut(hdrs, h1, bin, d));
    }
    forall d | d !in {h} ensures KeptAt(hdrs, bin, h1, bin - {h}, d) {
      assert SameBut(hdrs, h1, bin, d);
    }
  }

  // The free blocks after h has been cut at p.
  ghost predicate CutAt(lens: map<nat, nat>, bin: map<nat, nat>, lens2: map<nat, nat>, bin2: map<nat, nat>, h: nat,
        p: nat, b: nat)
    requires h in lens && p in lens2
  {
    b in bin2 ==> (b in lens2 &&
      ((b in bin && b in lens && b != h && b != p && lens2[b] == lens[b]) || (b == h && h < p && lens2[b] == p - h)
          || b == p))
  }

  ghost predicate Cut(lens: map<nat, nat>, bin: map<nat, nat>, lens2: map<nat, nat>, bin2: map<nat, nat>, h: nat,
        p: nat) {
    h in lens && p in lens2 && h <= p && p + lens2[p] == h + lens[h]
        && forall b :: CutAt(lens, bin, lens2, bin2, h, p, b)
  }

  // The free blocks after need blocks of p have been put to use.
  ghost predicate PartAt(lens: map<nat, nat>, bin: map<nat, nat>, lens2: map<nat, nat>, bin2: map<nat, nat>, p: nat,
        need: nat, b: nat)
    requires p in lens
  {
    b in bin2 ==> (b in lens2 &&
      ((b in bin && b in lens && b != p && lens2[b] == lens[b])
          || (b == p + need && need < lens[p] && lens2[b] == lens[p] - need)))
  }

  ghost predicate Part(lens: map<nat, nat>, bin: map<nat, nat>, lens2: map<nat, nat>, bin2: map<nat, nat>, p: nat,
        need: nat) {
    p in lens && 0 < need <= lens[p] && forall b :: PartAt(lens, bin, lens2, bin2, p, need, b)
  }

  // Where the rest begins when the first n of the len blocks at p are cut off.
  function CutPoint(len: int, p: nat, n: nat): nat { if n < len then p + n else p }

  predicate GainedAt(lens: map<nat, nat>, lens2: map<nat, nat>, x: nat, y: nat, b: nat) {
    b in lens2 <==> b in lens || b == x || b == y
  }

  // There are new blocks at x and y, unless there were before, and all others are still there.
  ghost predicate Gained(lens: map<nat, nat>, lens2: map<nat, nat>, x: nat, y: nat) {
    forall b {:trigger GainedAt(lens, lens2, x, y, b)} :: GainedAt(lens, lens2, x, y, b)
  }

  lemma GainedBoth(lens: map<nat, nat>, lens1: map<nat, nat>, lens2: map<nat, nat>, p: nat, y: nat)
    requires Gained(lens, lens1, p, p) && Gained(lens1, lens2, p, y)
    ensures Gained(lens, lens2, p, y)
  {
    forall b ensures GainedAt(lens, lens2, p, y, b) {
      assert GainedAt(lens, lens1, p, p, b) && GainedAt(lens1, lens2, p, y, b);
    }
  }

  predicate LostAt(lens: map<nat, nat>, lens2: map<nat, nat>, x: nat, y: nat, b: nat) {
    (b in lens2 ==> b in lens) && (b in lens ==> b in lens2 || b == x || b == y)
  }

  // No blocks but those at x and y have gone, and there are no new ones.
  ghost predicate Lost(lens: map<nat, nat>, lens2: map<nat, nat>, x: nat, y: nat) {
    forall b {:trigger LostAt(lens, lens2, x, y, b)} :: LostAt(lens, lens2, x, y, b)
  }

  lemma LostBoth(lens: map<nat, nat>, lens1: map<nat, nat>, lens2: map<nat, nat>, x: nat, y: nat)
    requires Lost(lens, lens1, y, y) && Lost(lens1, lens2, x, x)
    ensures Lost(lens, lens2, x, y)
  {
    forall b ensures LostAt(lens, lens2, x, y, b) {
      assert LostAt(lens, lens1, y, y, b) && LostAt(lens1, lens2, x, x, b);
    }
  }

  // What is left before and after touches no other free block.
  lemma CarveApart(lens: map<nat, nat>, owner: map<nat, nat>, bin: map<nat, nat>, h: nat, p: nat, need: nat,
                   lens1: map<nat, nat>, bin1: map<nat, nat>, lens2: map<nat, nat>, bin2: map<nat, nat>)
    requires Tiled(lens, owner) && bin.Keys <= lens.Keys && h in bin && bin2.Keys <= lens2.Keys
    requires Cut(lens, bin, lens1, bin1, h, p) && Part(lens1, bin1, lens2, bin2, p, need)
    requires forall b :: Apart(lens, bin, b)
    ensures forall b :: Apart(lens2, bin2, b)
  {
    forall b: nat ensures Apart(lens2, bin2, b) {
      if b in bin2 {
        ApartFragment(lens, owner, bin, h, p, need, lens1, bin1, lens2, bin2, b);
      }
    }
  }

  lemma ApartFragment(lens: map<nat, nat>, owner: map<nat, nat>, bin: map<nat, nat>, h: nat, p: nat, need: nat,
                      lens1: map<nat, nat>, bin1: map<nat, nat>, lens2: map<nat, nat>, bin2: map<nat, nat>, b: nat)
    requires Tiled(lens, owner) && bin.Keys <= lens.Keys && h in bin && bin2.Keys <= lens2.Keys && b in bin2
    requires Cut(lens, bin, lens1, bin1, h, p) && Part(lens1, bin1, lens2, bin2, p, need)
    requires forall c :: Apart(lens, bin, c)
    ensures Apart(lens2, bin2, b)
  {
    var c := b + lens2[b];
    assert PartAt(lens1, bin1, lens2, bin2, p, need, b) && CutAt(lens, bin, lens1, bin1, h, p, b);
    assert PartAt(lens1, bin1, lens2, bin2, p, need, c) && CutAt(lens, bin, lens1, bin1, h, p, c);
    assert Apart(lens, bin, b) && Apart(lens, bin, h) && Owned(lens, owner, h) && Owned(lens, owner, c)
        && Owned(lens, owner, b);
    if b in bin && b < h { TilesDisjoint(lens, owner, b, h); }
    if b in bin && h < b { TilesDisjoint(lens, owner, h, b); }
    if c in bin && h < c { TilesDisjoint(lens, owner, h, c); }
  }

  lemma ShapeWeaken(hdrs: map<nat, Hdr>, lens: map<nat, nat>, bin: map<nat, nat>, h: nat)
    requires ShapeOk(hdrs, lens, bin, 0)
    ensures ShapeOk(hdrs, lens, bin, h)
  {
    forall b ensures BlockOk(hdrs, lens, bin, b, h) {
      assert BlockOk(hdrs, lens, bin, b, 0);
    }
  }

  // The neighbour in front of h on its list when h has been taken off it.
  lemma UnlinkedPrev(hdrs: map<nat, Hdr>, head: seq<nat>, bin: map<nat, nat>, stamp: map<nat, nat>, clock: nat, h: nat)
    requires Linked(hdrs, head, bin, stamp, clock) && h in bin
    ensures h in hdrs && var p := hdrs[h].prev;
            p != 0 ==>
                p != h && p in Unlinked(hdrs, h) && p in bin && bin[p] == bin[h]
                && Unlinked(hdrs, h)[p].next == hdrs[h].next
  {
    assert LinkOk(hdrs, head, bin, stamp, clock, h);
    var p := hdrs[h].prev;
    if p != 0 { assert LinkOk(hdrs, head, bin, stamp, clock, p); }
    if hdrs[h].next != 0 { assert LinkOk(hdrs, head, bin, stamp, clock, hdrs[h].next); }
  }

  // h, taken off its list, becomes a block in use.
  lemma DropHdr(hdrs: map<nat, Hdr>, h1: map<nat, Hdr>, lens: map<nat, nat>, head: seq<nat>, bin: map<nat, nat>,
        stamp: map<nat, nat>, clock: nat, h: nat)
    requires ShapeOk(hdrs, lens, bin, 0) && h in bin && h in hdrs && Relinked(hdrs, h1, bin, h)
    requires Linked(h1, head, bin - {h}, stamp, clock)
    ensures var h2 := h1[h := h1[h].(sz := HBLKSIZE, kind := PtrFree, free := false)];
            && ShapeOk(h2, lens, bin - {h}, h) && Linked(h2, head, bin - {h}, stamp, clock)
            && Kept(hdrs, bin, h2, bin - {h}, {h})
  {
    ShapeWeaken(hdrs, lens, bin, h);
    UnlinkedShape(hdrs, h1, lens, bin, h);
    var h2 := h1[h := h1[h].(sz := HBLKSIZE, kind := PtrFree, free := false)];
    LinkedAgree(h1, h2, head, bin - {h}, stamp, clock);
    forall d ensures BlockOk(h2, lens, bin - {h}, d, h) {
      assert BlockOk(h1, lens, bin - {h}, d, h);
    }
    forall d | d !in {h} ensures KeptAt(hdrs, bin, h2, bin - {h}, d) {
      assert KeptAt(hdrs, bin, h1, bin - {h}, d);
    }
  }

  // The header of a dropped block of one.
  const DROPPED: Hdr := Hdr(HBLKSIZE, false, PtrFree, 0, 0)

  ghost predicate Dropped(hdrs: map<nat, Hdr>, bin: map<nat, nat>, b: nat) {
    InUse(hdrs, bin, b) && hdrs[b].sz == HBLKSIZE && hdrs[b].kind == PtrFree
  }

  ghost predicate AllDropped(hdrs: map<nat, Hdr>, bin: map<nat, nat>, lo: nat, hi: nat) {
    forall d :: lo <= d < hi ==> Dropped(hdrs, bin, d)
  }

  lemma DroppedMore(hdrs: map<nat, Hdr>, bin: map<nat, nat>, lo: nat, g: nat)
    requires AllDropped(hdrs, bin, lo, g) && g !in bin
    ensures AllDropped(hdrs[g := DROPPED], bin, lo, g + 1)
  {
    var h2 := hdrs[g := DROPPED];
    forall d | lo <= d < g + 1 ensures Dropped(h2, bin, d) {
      assert d < g ==> Dropped(hdrs, bin, d);
    }
  }

  // x, of which all but the first block is still to be dropped, is cut after that block.
  lemma DropShape(hdrs: map<nat, Hdr>, lens: map<nat, nat>, bin: map<nat, nat>, x: nat)
    requires ShapeOk(hdrs, lens, bin, x) && x in hdrs && x !in bin && 1 < lens[x] && x + 1 !in lens
             && bin.Keys <= hdrs.Keys
    requires hdrs[x].sz == HBLKSIZE && !hdrs[x].free
    ensures ShapeOk(hdrs[x + 1 := DROPPED], SplitLens(lens, x, x + 1), bin, x + 1)
    ensures Kept(hdrs, bin, hdrs[x + 1 := DROPPED], bin, {x + 1})
  {
    var h2, l2 := hdrs[x + 1 := DROPPED], SplitLens(lens, x, x + 1);
    assert BlockOk(hdrs, lens, bin, x, x);
    var g := x + 1;
    forall d ensures BlockOk(h2, l2, bin, d, g) {
      assert BlockOk(hdrs, lens, bin, d, x);
    }
    forall d | d !in {g} ensures KeptAt(hdrs, bin, h2, bin, d) {
    }
  }

  lemma DropJumps(jumps: map<nat, nat>, lens: map<nat, nat>, owner: map<nat, nat>, bin: map<nat, nat>, x: nat)
    requires Tiled(lens, owner) && JumpsOk(jumps, owner, Idle(bin, x)) && x in lens && x !in bin && 1 < lens[x]
             && bin.Keys <= lens.Keys
    ensures x + 1 !in lens
    ensures Tiled(SplitLens(lens, x, x + 1), Paint(owner, x + 1, x + lens[x], x + 1))
    ensures JumpsOk(jumps, Paint(owner, x + 1, x + lens[x], x + 1), Idle(bin, x + 1))
  {
    var l2, o2 := SplitLens(lens, x, x + 1), Paint(owner, x + 1, x + lens[x], x + 1);
    SplitMap(jumps, lens, owner, Idle(bin, x), Idle(bin, x) + {x + 1}, x, x + 1);
    assert Owned(lens, owner, x);
    assert Idle(bin, x + 1) == Idle(bin, x) + {x + 1} - {x};
    CountsInstalled(jumps, l2, o2, Idle(bin, x) + {x + 1}, Idle(bin, x + 1), x);
    assert jumps + Counts(x, 1) == jumps;
  }

  ghost predicate AgreeAt(l1: map<nat, nat>, l2: map<nat, nat>, bin: map<nat, nat>, b: nat) {
    b in bin ==> b in l1 && b in l2 && l2[b] == l1[b]
  }

  ghost predicate LensAgree(l1: map<nat, nat>, l2: map<nat, nat>, bin: map<nat, nat>) {
    forall b :: AgreeAt(l1, l2, bin, b)
  }

  lemma AgreeSelf(lens: map<nat, nat>, bin: map<nat, nat>)
    requires bin.Keys <= lens.Keys
    ensures LensAgree(lens, lens, bin)
  {
    forall b ensures AgreeAt(lens, lens, bin, b) {
    }
  }

  // A split of a block that is not free leaves the lengths of the free ones alone.
  lemma AgreeSplit(l0: map<nat, nat>, lens: map<nat, nat>, bin: map<nat, nat>, x: nat, n: nat)
    requires LensAgree(l0, lens, bin) && x in lens && x !in bin && x < n < x + lens[x] && n !in lens
    ensures LensAgree(l0, SplitLens(lens, x, n), bin)
  {
    forall b ensures AgreeAt(l0, SplitLens(lens, x, n), bin, b) {
      assert AgreeAt(l0, lens, bin, b);
    }
  }

  lemma ApartShrunk(lens: map<nat, nat>, owner: map<nat, nat>, bin: map<nat, nat>, lens2: map<nat, nat>,
        owner2: map<nat, nat>, bin2: map<nat, nat>)
    requires bin.Keys <= lens.Keys && bin2.Keys <= lens2.Keys && Coalesced(lens, owner, bin)
             && owner2.Keys == owner.Keys
    requires bin2.Keys <= bin.Keys && LensAgree(lens, lens2, bin2)
    ensures Coalesced(lens2, owner2, bin2)
  {
    if Small(owner2.Keys) {
      forall b: nat ensures Apart(lens2, bin2, b) {
        assert Apart(lens, bin, b) && AgreeAt(lens, lens2, bin2, b);
      }
    }
  }

  // A single block in use needs no forwarding counts, so it need not stay in transit.
  lemma SingleDone(hdrs: map<nat, Hdr>, jumps: map<nat, nat>, lens: map<nat, nat>, owner: map<nat, nat>,
        bin: map<nat, nat>, x: nat)
    requires ShapeOk(hdrs, lens, bin, x) && Tiled(lens, owner) && JumpsOk(jumps, owner, Idle(bin, x))
    requires x in hdrs && x !in bin && lens[x] == 1 && hdrs[x].sz == HBLKSIZE && !hdrs[x].free
    ensures ShapeOk(hdrs, lens, bin, 0) && JumpsOk(jumps, owner, Idle(bin, 0))
  {
    forall d ensures BlockOk(hdrs, lens, bin, d, 0) {
      assert BlockOk(hdrs, lens, bin, d, x);
    }
    assert BlockOk(hdrs, lens, bin, x, x);
    assert Idle(bin, 0) == Idle(bin, x) - {x};
    CountsInstalled(jumps, lens, owner, Idle(bin, x), Idle(bin, 0), x);
    assert jumps + Counts(x, 1) == jumps;
  }

  // ---------------------------------------------------------------------
  // The search for a block.

  const MAX_BLACK_LIST_BLOCKS: nat := 2

  datatype Request = Request(sz: nat, kind: Kind, ignoreOffPage: bool) {
    function Need(): nat { Blocks(sz) }

    // How much of the block must not be black-listed.
    function Eff(): nat { if ignoreOffPage then 1 else Need() }

    predicate Exempt() { kind.IsUncollectable() || (kind == PtrFree && Need() <= MAX_BLACK_LIST_BLOCKS) }
  }

  // GC_is_black_listed: 0, or the first address from which the n blocks might not be.
  function IsBlackListed(black: set<nat>, h: nat, n: nat): (r: nat)
    ensures r == 0 <==> forall x :: h <= x < h + n ==> x !in black
    ensures r != 0 ==> h < r <= h + n && r - 1 in black
    decreases n
  {
    if n == 0 then 0 else if h in black then h + 1 else IsBlackListed(black, h + 1, n - 1)
  }

  // Every start in [lo, hi) is black-listed.
  ghost predicate NoClear(black: set<nat>, lo: nat, hi: int, n: nat) {
    forall p: nat :: lo <= p < hi ==> IsBlackListed(black, p, n) != 0
  }

  // Too large to give up on because of the black list.
  predicate Huge(r: Request, len: nat, blLimit: nat) {
    r.Need() <= len && Bytes(r.Need()) > blLimit && Bytes(len - r.Need()) > blLimit
  }

  // A free block of length len at b can serve the request.
  ghost predicate Usable(r: Request, maySplit: bool, black: set<nat>, blLimit: nat, b: nat, len: nat) {
    && (if maySplit then r.Need() <= len else r.Need() == len)
    && (r.Exempt() || Huge(r, len, blLimit) || !NoClear(black, b, b + len - r.Need() + 1, r.Eff()))
  }

  // A block that will be taken when the search comes to it, or else its successor will.
  predicate Sure(r: Request, maySplit: bool, black: set<nat>, b: nat, len: nat) {
    maySplit && r.Need() <= len && IsBlackListed(black, b, r.Need()) == 0
  }

  // The next block on the list is smaller, and large enough and clear from its start.
  predicate Better(r: Request, black: set<nat>, lens: map<nat, nat>, b: nat, next: nat) {
    && next != 0 && next in lens && b in lens && r.Need() <= lens[next] < lens[b]
    && IsBlackListed(black, next, r.Need()) == 0
  }

  datatype Verdict = Skip | Take(p: nat) | Drop

  // The first start at or after h that is not black-listed, or one from which need
  // blocks no longer fit.
  method FindStart(black: set<nat>, h: nat, len: nat, need: nat, eff: nat) returns (p: nat)
    requires 0 < need <= len && 0 < eff <= need
    ensures h <= p <= h + len && NoClear(black, h, p, eff)
    ensures p <= h + len - need ==> IsBlackListed(black, p, eff) == 0
  {
    p := h;
    while p <= h + len - need
      invariant h <= p <= h + len && NoClear(black, h, p, eff)
    {
      var next := IsBlackListed(black, p, eff);
      if next == 0 { return; }
      assert NoClear(black, p, next, eff) by {
        forall q: nat | p <= q < next ensures IsBlackListed(black, q, eff) != 0 {
          assert q <= next - 1 < q + eff;
        }
      }
      p := next;
    }
  }

  lemma AllBlack(black: set<nat>, lo: nat, hi: nat)
    requires NoClear(black, lo, hi, 1)
    ensures forall d :: d in Range(lo, hi) ==> d in black
  {
    forall d | d in Range(lo, hi) ensures d in black {
      assert IsBlackListed(black, d, 1) != 0;
    }
  }

  ghost predicate AllUnused(hdrs: map<nat, Hdr>, bin: map<nat, nat>, s: set<nat>) {
    forall d :: d in s ==> !InUse(hdrs, bin, d)
  }

  // Every block of s is a dropped, black-listed single block.
  ghost predicate Drops(hdrs: map<nat, Hdr>, bin: map<nat, nat>, black: set<nat>, s: set<nat>) {
    forall d :: d in s ==> Dropped(hdrs, bin, d) && d in black
  }

  lemma DropsKept(h1: map<nat, Hdr>, bin1: map<nat, nat>, h2: map<nat, Hdr>, bin2: map<nat, nat>, black: set<nat>,
        xs: set<nat>, ds: set<nat>)
    requires Drops(h1, bin1, black, ds) && Kept(h1, bin1, h2, bin2, xs) && AllUnused(h1, bin1, xs)
    ensures Drops(h2, bin2, black, ds)
  {
    forall d | d in ds ensures Dropped(h2, bin2, d) && d in black {
      assert Dropped(h1, bin1, d) && KeptAt(h1, bin1, h2, bin2, d);
    }
  }

  lemma UnusedBack(h1: map<nat, Hdr>, bin1: map<nat, nat>, h2: map<nat, Hdr>, bin2: map<nat, nat>, black: set<nat>,
        ds: set<nat>, xs: set<nat>)
    requires Kept(h1, bin1, h2, bin2, ds) && AllUnused(h1, bin1, ds) && Drops(h2, bin2, black, ds)
             && AllUnused(h2, bin2, xs)
    ensures AllUnused(h1, bin1, ds + xs)
  {
    forall d | d in ds + xs ensures !InUse(h1, bin1, d) {
      if d !in ds { assert KeptAt(h1, bin1, h2, bin2, d); }
    }
  }

  // No block in use starts inside a free block.
  lemma UnusedInside(hdrs: map<nat, Hdr>, lens: map<nat, nat>, owner: map<nat, nat>, bin: map<nat, nat>, h: nat)
    requires Tiled(lens, owner) && lens.Keys == hdrs.Keys && h in bin && h in lens
    ensures AllUnused(hdrs, bin, Range(h, h + lens[h]))
  {
    assert Owned(lens, owner, h);
    forall d | d in Range(h, h + lens[h]) ensures !InUse(hdrs, bin, d) {
      assert Owned(lens, owner, d) && owner[d] == h;
    }
  }

  // Free blocks have only disappeared.
  ghost predicate Shrunk(lens: map<nat, nat>, bin: map<nat, nat>, lens2: map<nat, nat>, bin2: map<nat, nat>) {
    forall b :: ShrunkAt(lens, bin, lens2, bin2, b)
  }

  ghost predicate ShrunkAt(lens: map<nat, nat>, bin: map<nat, nat>, lens2: map<nat, nat>, bin2: map<nat, nat>, b: nat) {
    b in bin2 ==> b in bin && bin2[b] == bin[b] && b in lens && b in lens2 && lens2[b] == lens[b]
  }

  lemma ShrunkSelf(lens: map<nat, nat>, bin: map<nat, nat>)
    requires bin.Keys <= lens.Keys
    ensures Shrunk(lens, bin, lens, bin)
  {
    forall b ensures ShrunkAt(lens, bin, lens, bin, b) {
    }
  }

  lemma ShrunkTrans(l1: map<nat, nat>, bin1: map<nat, nat>, l2: map<nat, nat>, bin2: map<nat, nat>,
        l3: map<nat, nat>, bin3: map<nat, nat>)
    requires Shrunk(l1, bin1, l2, bin2) && Shrunk(l2, bin2, l3, bin3)
    ensures Shrunk(l1, bin1, l3, bin3)
  {
    forall b ensures ShrunkAt(l1, bin1, l3, bin3, b) {
      assert ShrunkAt(l1, bin1, l2, bin2, b) && ShrunkAt(l2, bin2, l3, bin3, b);
    }
  }

  datatype Snap = Snap(hdrs: map<nat, Hdr>, lens: map<nat, nat>, owner: map<nat, nat>, bin: map<nat, nat>, total: nat)

  // The need blocks at h were part of the free block b of list n, or all of it.
  predicate PartOf(lens: map<nat, nat>, bin: map<nat, nat>, n: nat, maySplit: bool, h: nat, need: nat, b: nat) {
    && b in bin && bin[b] == n && b in lens && b <= h && h + need <= b + lens[b]
    && (maySplit || lens[b] == need)
  }

  ghost predicate FromList(lens: map<nat, nat>, bin: map<nat, nat>, n: nat, maySplit: bool, h: nat, need: nat) {
    exists b :: PartOf(lens, bin, n, maySplit, h, need, b)
  }

  lemma FromShrunk(lens: map<nat, nat>, bin: map<nat, nat>, lens2: map<nat, nat>, bin2: map<nat, nat>, n: nat,
        maySplit: bool, h: nat, need: nat)
    requires Shrunk(lens, bin, lens2, bin2) && FromList(lens2, bin2, n, maySplit, h, need)
    ensures FromList(lens, bin, n, maySplit, h, need)
  {
    var b :| PartOf(lens2, bin2, n, maySplit, h, need, b);
    assert ShrunkAt(lens, bin, lens2, bin2, b) && PartOf(lens, bin, n, maySplit, h, need, b);
  }

  // A search that begins again after blocks have been dropped.
  lemma Restarted(l0: map<nat, nat>, bin0: map<nat, nat>, l1: map<nat, nat>, bin1: map<nat, nat>, l2: map<nat, nat>,
        bin2: map<nat, nat>, n: nat, maySplit: bool, h: nat, need: nat)
    requires Shrunk(l0, bin0, l1, bin1)
    requires if h == 0 then Shrunk(l1, bin1, l2, bin2) else FromList(l1, bin1, n, maySplit, h, need)
    ensures if h == 0 then Shrunk(l0, bin0, l2, bin2) else FromList(l0, bin0, n, maySplit, h, need)
  {
    if h == 0 {
      ShrunkTrans(l0, bin0, l1, bin1, l2, bin2);
    } else {
      FromShrunk(l0, bin0, l1, bin1, n, maySplit, h, need);
    }
  }

  lemma FromThis(lens: map<nat, nat>, bin: map<nat, nat>, lens2: map<nat, nat>, bin2: map<nat, nat>, n: nat,
        maySplit: bool, h: nat, need: nat, b: nat)
    requires Shrunk(lens, bin, lens2, bin2) && PartOf(lens2, bin2, n, maySplit, h, need, b)
    ensures FromList(lens, bin, n, maySplit, h, need)
  {
    FromShrunk(lens, bin, lens2, bin2, n, maySplit, h, need);
  }

  // How a search goes: the state and the sums of the lists when the exact matches have
  // been tried, the last list that may be searched then, and the list that gives the
  // result, with the state in which its search begins.
  datatype Search = Search(mid: Snap, sums: seq<nat>, limit: nat, list: nat, at: Snap)

  // Free block c is not on list n, or of no use.
  ghost predicate NothingAt(r: Request, maySplit: bool, black: set<nat>, blLimit: nat, lens: map<nat, nat>,
        bin: map<nat, nat>, n: nat, c: nat)
    requires bin.Keys <= lens.Keys
  {
    c in bin && bin[c] == n ==> !Usable(r, maySplit, black, blLimit, c, lens[c])
  }

  ghost predicate NothingFor(r: Request, maySplit: bool, black: set<nat>, blLimit: nat, lens: map<nat, nat>,
        bin: map<nat, nat>, n: nat)
    requires bin.Keys <= lens.Keys
  {
    forall c :: NothingAt(r, maySplit, black, blLimit, lens, bin, n, c)
  }

  lemma NothingShrunk(r: Request, maySplit: bool, black: set<nat>, blLimit: nat, lens: map<nat, nat>,
        bin: map<nat, nat>,
                      lens2: map<nat, nat>, bin2: map<nat, nat>, n: nat)
    requires bin.Keys <= lens.Keys && bin2.Keys <= lens2.Keys && Shrunk(lens, bin, lens2, bin2)
    requires NothingFor(r, maySplit, black, blLimit, lens, bin, n)
    ensures NothingFor(r, maySplit, black, blLimit, lens2, bin2, n)
  {
    forall c ensures NothingAt(r, maySplit, black, blLimit, lens2, bin2, n, c) {
      assert NothingAt(r, maySplit, black, blLimit, lens, bin, n, c) && ShrunkAt(lens, bin, lens2, bin2, c);
    }
  }

  // What the search on list n has left to find: everything useful is at or after b,
  // or else b itself is sure to be useful.
  ghost predicate Ahead(r: Request, maySplit: bool, black: set<nat>, blLimit: nat, lens: map<nat, nat>,
        bin: map<nat, nat>, stamp: map<nat, nat>, n: nat, b: nat)
    requires bin.Keys <= lens.Keys
  {
    || (b != 0 && b in lens && Sure(r, maySplit, black, b, lens[b]))
    || forall c :: NotBefore(r, maySplit, black, blLimit, lens, bin, stamp, n, b, c)
  }

  ghost predicate NotBefore(r: Request, maySplit: bool, black: set<nat>, blLimit: nat, lens: map<nat, nat>,
        bin: map<nat, nat>, stamp: map<nat, nat>, n: nat, b: nat, c: nat)
    requires bin.Keys <= lens.Keys
  {
    c in bin && bin[c] == n && Usable(r, maySplit, black, blLimit, c, lens[c]) ==>
        b != 0 && b in stamp && c in stamp
        && stamp[c] <= stamp[b]
  }

  lemma AheadFirst(r: Request, maySplit: bool, black: set<nat>, blLimit: nat, lens: map<nat, nat>,
                   hdrs: map<nat, Hdr>, head: seq<nat>, bin: map<nat, nat>, stamp: map<nat, nat>, clock: nat, n: nat)
    requires Linked(hdrs, head, bin, stamp, clock) && bin.Keys <= lens.Keys && n < |head|
    ensures Ahead(r, maySplit, black, blLimit, lens, bin, stamp, n, head[n])
    ensures head[n] != 0 ==> head[n] in bin && bin[head[n]] == n
  {
    assert HeadOk(hdrs, head, bin, n);
    forall c ensures NotBefore(r, maySplit, black, blLimit, lens, bin, stamp, n, head[n], c) {
      if c in bin && bin[c] == n { HeadIsNewest(hdrs, head, bin, stamp, clock, c); }
    }
  }

  // Passing from b, of no use, to its successor.
  lemma AheadNext(r: Request, maySplit: bool, black: set<nat>, blLimit: nat, lens: map<nat, nat>,
                  hdrs: map<nat, Hdr>, head: seq<nat>, bin: map<nat, nat>, stamp: map<nat, nat>, clock: nat, n: nat,
                  b: nat)
    requires Linked(hdrs, head, bin, stamp, clock) && bin.Keys <= lens.Keys && b in bin && bin[b] == n
    requires Ahead(r, maySplit, black, blLimit, lens, bin, stamp, n, b)
    requires !Usable(r, maySplit, black, blLimit, b, lens[b]) && !Sure(r, maySplit, black, b, lens[b])
    ensures b in hdrs && Ahead(r, maySplit, black, blLimit, lens, bin, stamp, n, hdrs[b].next)
  {
    assert LinkOk(hdrs, head, bin, stamp, clock, b);
    forall c ensures NotBefore(r, maySplit, black, blLimit, lens, bin, stamp, n, hdrs[b].next, c) {
      assert NotBefore(r, maySplit, black, blLimit, lens, bin, stamp, n, b, c);
      if c in bin && bin[c] == n && c != b && c in stamp && stamp[c] <= stamp[b] {
        NextIsNearest(hdrs, head, bin, stamp, clock, b, c);
      }
    }
  }

  // Blocks that disappear take nothing useful along.
  lemma AheadShrunk(r: Request, maySplit: bool, black: set<nat>, blLimit: nat, lens: map<nat, nat>, bin: map<nat, nat>,
                    lens2: map<nat, nat>, bin2: map<nat, nat>, stamp: map<nat, nat>, n: nat, b: nat)
    requires bin.Keys <= lens.Keys && bin2.Keys <= lens2.Keys && Shrunk(lens, bin, lens2, bin2)
             && (b != 0 ==> b in bin2)
    requires Ahead(r, maySplit, black, blLimit, lens, bin, stamp, n, b)
    ensures Ahead(r, maySplit, black, blLimit, lens2, bin2, stamp, n, b)
  {
    assert ShrunkAt(lens, bin, lens2, bin2, b);
    if !(b != 0 && b in lens && Sure(r, maySplit, black, b, lens[b])) {
      forall c ensures NotBefore(r, maySplit, black, blLimit, lens2, bin2, stamp, n, b, c) {
        assert NotBefore(r, maySplit, black, blLimit, lens, bin, stamp, n, b, c) && ShrunkAt(lens, bin, lens2, bin2, c);
      }
    }
  }

  lemma AheadNone(r: Request, maySplit: bool, black: set<nat>, blLimit: nat, lens: map<nat, nat>,
        bin: map<nat, nat>, stamp: map<nat, nat>, n: nat)
    requires bin.Keys <= lens.Keys && Ahead(r, maySplit, black, blLimit, lens, bin, stamp, n, 0)
    ensures NothingFor(r, maySplit, black, blLimit, lens, bin, n)
  {
    forall c ensures NothingAt(r, maySplit, black, blLimit, lens, bin, n, c) {
      assert NotBefore(r, maySplit, black, blLimit, lens, bin, stamp, n, 0, c);
    }
  }

  lemma Fewer(bin: map<nat, nat>, b: nat)
    requires b in bin
    ensures |bin - {b}| < |bin|
  {
    assert (bin - {b}).Keys == bin.Keys - {b};
  }

  ghost predicate NothingBetween(r: Request, black: set<nat>, blLimit: nat, lens: map<nat, nat>, bin: map<nat, nat>,
        lo: nat, hi: nat)
    requires bin.Keys <= lens.Keys
  {
    forall i :: lo <= i < hi ==> NothingFor(r, true, black, blLimit, lens, bin, i)
  }

  // No free block, on any list, can serve the request.
  ghost predicate NothingAnywhere(r: Request, black: set<nat>, blLimit: nat, lens: map<nat, nat>, bin: map<nat, nat>)
    requires bin.Keys <= lens.Keys
  {
    forall c :: c in bin ==> !Usable(r, true, black, blLimit, c, lens[c])
  }

  lemma BetweenShrunk(r: Request, black: set<nat>, blLimit: nat, lens: map<nat, nat>, bin: map<nat, nat>,
        lens2: map<nat, nat>, bin2: map<nat, nat>, lo: nat, hi: nat)
    requires bin.Keys <= lens.Keys && bin2.Keys <= lens2.Keys && Shrunk(lens, bin, lens2, bin2)
    requires NothingBetween(r, black, blLimit, lens, bin, lo, hi)
    ensures NothingBetween(r, black, blLimit, lens2, bin2, lo, hi)
  {
    forall i | lo <= i < hi ensures NothingFor(r, true, black, blLimit, lens2, bin2, i) {
      NothingShrunk(r, true, black, blLimit, lens, bin, lens2, bin2, i);
    }
  }

  // One more list has been searched.
  lemma StillNothing(r: Request, black: set<nat>, blLimit: nat, lens: map<nat, nat>, bin: map<nat, nat>,
        lens2: map<nat, nat>, bin2: map<nat, nat>, exact: nat, lo: nat, hi: nat)
    requires bin.Keys <= lens.Keys && bin2.Keys <= lens2.Keys && Shrunk(lens, bin, lens2, bin2) && lo <= hi
    requires NothingFor(r, false, black, blLimit, lens, bin, exact)
    requires NothingBetween(r, black, blLimit, lens, bin, lo, hi)
    requires NothingFor(r, true, black, blLimit, lens2, bin2, hi)
    ensures NothingFor(r, false, black, blLimit, lens2, bin2, exact)
    ensures NothingBetween(r, black, blLimit, lens2, bin2, lo, hi + 1)
  {
    NothingShrunk(r, false, black, blLimit, lens, bin, lens2, bin2, exact);
    BetweenShrunk(r, black, blLimit, lens, bin, lens2, bin2, lo, hi);
  }

  // The lists below the request's own hold only blocks that are too small, and while
  // each list holds one size its own list holds only exact matches.
  lemma SearchedAll(r: Request, black: set<nat>, blLimit: nat, hdrs: map<nat, Hdr>, lens: map<nat, nat>,
        bin: map<nat, nat>)
    requires ShapeOk(hdrs, lens, bin, 0) && bin.Keys <= hdrs.Keys
    requires NothingFor(r, false, black, blLimit, lens, bin, FlFromBlocks(r.Need()))
    requires NothingBetween(r, black, blLimit, lens, bin,
               if FlFromBlocks(r.Need()) < UNIQUE_THRESHOLD then FlFromBlocks(r.Need()) + 1
                   else FlFromBlocks(r.Need()), N_HBLK_FLS + 1)
    ensures NothingAnywhere(r, black, blLimit, lens, bin)
  {
    forall c | c in bin ensures !Usable(r, true, black, blLimit, c, lens[c]) {
      assert BlockOk(hdrs, lens, bin, c, 0);
      var i := FlFromBlocks(lens[c]);
      FlMonotone(r.Need(), lens[c]);
      assert NothingAt(r, false, black, blLimit, lens, bin, FlFromBlocks(r.Need()), c);
      if FlFromBlocks(r.Need()) < i || UNIQUE_THRESHOLD <= i {
        assert r.Need() <= lens[c] ==> NothingFor(r, true, black, blLimit, lens, bin, i);
        assert r.Need() <= lens[c] ==> NothingAt(r, true, black, blLimit, lens, bin, i, c);
      }
    }
  }

  // With nothing black-listed, a free block is useful exactly when it is large enough.
  lemma UsableClear(r: Request, blLimit: nat, b: nat, len: nat)
    ensures Usable(r, true, {}, blLimit, b, len) <==> r.Need() <= len
  {
    if r.Need() <= len {
      assert IsBlackListed({}, b, r.Eff()) == 0;
    }
  }

  // What a request was given had been free.
  lemma WasFree(h1: map<nat, Hdr>, lens1: map<nat, nat>, owner1: map<nat, nat>, bin1: map<nat, nat>,
                h2: map<nat, Hdr>, lens2: map<nat, nat>, owner2: map<nat, nat>, bin2: map<nat, nat>, newly: set<nat>,
                h: nat)
    requires ShapeOk(h1, lens1, bin1, 0) && ShapeOk(h2, lens2, bin2, 0) && Tiled(lens1, owner1) && Tiled(lens2, owner2)
             && owner1.Keys == owner2.Keys
    requires Kept(h1, bin1, h2, bin2, newly) && AllUnused(h1, bin1, newly) && h in newly && h in lens2
    ensures forall x :: h <= x < h + lens2[h] ==> x in owner1 && owner1[x] in bin1
  {
    assert Owned(lens2, owner2, h);
    forall x | h <= x < h + lens2[h] ensures x in owner1 && owner1[x] in bin1 {
      assert owner2[x] == h && Housed(lens1, owner1, x);
      if owner1[x] !in bin1 {
        assert InUse(h1, bin1, owner1[x]);
        UseKept(h1, lens1, owner1, bin1, h2, lens2, owner2, bin2, newly, x);
      }
    }
  }

  // No block is as large as a request beyond the sign limit.
  lemma TooLarge(r: Request, black: set<nat>, blLimit: nat, hdrs: map<nat, Hdr>, lens: map<nat, nat>, head: seq<nat>,
        bin: map<nat, nat>, stamp: map<nat, nat>, clock: nat)
    requires Linked(hdrs, head, bin, stamp, clock) && ShapeOk(hdrs, lens, bin, 0) && bin.Keys <= lens.Keys
    requires Bytes(r.Need()) >= SIGN_LIMIT
    ensures NothingAnywhere(r, black, blLimit, lens, bin)
  {
    forall c | c in bin ensures lens[c] < r.Need() {
      assert LinkOk(hdrs, head, bin, stamp, clock, c) && BlockOk(hdrs, lens, bin, c, 0);
    }
  }

  function SumFrom(freeBytes: seq<nat>, n: nat): nat
    requires n <= |freeBytes|
    decreases |freeBytes| - n
  {
    if n == |freeBytes| then 0 else freeBytes[n] + SumFrom(freeBytes, n + 1)
  }

  // How far down the lists the search may go in the steady state.
  datatype Mode = WholeHeap | FinalizerHeavy | Steady

  // The last list that may be searched in this mode, when sums are the free bytes on the lists.
  ghost predicate IsLimit(mode: Mode, sums: seq<nat>, largeAllocd: nat, maxLargeAllocd: nat, limit: nat) {
    && |sums| == N_HBLK_FLS + 1 && limit <= N_HBLK_FLS
    && match mode
       case WholeHeap => limit == N_HBLK_FLS
       case FinalizerHeavy => limit == 0
       case Steady =>
         && (limit == 0 || largeAllocd + SumFrom(sums, limit) >= maxLargeAllocd)
         && forall m: nat :: limit < m <= N_HBLK_FLS ==> largeAllocd + SumFrom(sums, m) < maxLargeAllocd
  }

  // The list after the one with the exact matches: below the threshold all of its blocks
  // have been tried.
  function NextList(exact: nat): nat { if exact < UNIQUE_THRESHOLD then exact + 1 else exact }

  // The exact matches have been tried in vain, which may have dropped blocks.
  ghost predicate SearchedMid(o: Snap, s: Search, r: Request, black: set<nat>, blLimit: nat, exact: nat) {
    && s.mid.bin.Keys <= s.mid.lens.Keys && Shrunk(o.lens, o.bin, s.mid.lens, s.mid.bin)
    && SumsOk(s.sums, s.mid.lens, s.mid.bin) && NothingFor(r, false, black, blLimit, s.mid.lens, s.mid.bin, exact)
  }

  // The block at h comes from list n, which was searched in state at, and no list before
  // it had anything.
  ghost predicate FirstFit(r: Request, black: set<nat>, blLimit: nat, o: Snap, at: Snap, exact: nat, first: nat,
      n: nat, h: nat) {
    && at.bin.Keys <= at.lens.Keys && Shrunk(o.lens, o.bin, at.lens, at.bin)
    && NothingFor(r, false, black, blLimit, at.lens, at.bin, exact)
    && NothingBetween(r, black, blLimit, at.lens, at.bin, first, n)
    && FromList(at.lens, at.bin, n, true, h, r.Need())
  }

  // The heap is made of exactly the addresses of the sections.
  ghost predicate InSects(sects: seq<(nat, nat)>, x: nat) {
    exists i :: 0 <= i < |sects| && sects[i].0 <= x < sects[i].0 + sects[i].1
  }

  ghost predicate SectAt(sects: seq<(nat, nat)>, owner: map<nat, nat>, x: nat) {
    x in owner <==> InSects(sects, x)
  }

  ghost predicate SectsOk(sects: seq<(nat, nat)>, owner: map<nat, nat>) {
    forall x :: SectAt(sects, owner, x)
  }

  // The heap has become larger by [p, p + n).
  ghost predicate ExtendedAt(owner: map<nat, nat>, heap: set<nat>, p: nat, n: nat, x: nat) {
    x in heap <==> x in owner || p <= x < p + n
  }

  ghost predicate Extended(owner: map<nat, nat>, heap: set<nat>, p: nat, n: nat) {
    forall x :: ExtendedAt(owner, heap, p, n, x)
  }

  lemma InstallShape(hdrs: map<nat, Hdr>, lens: map<nat, nat>, bin: map<nat, nat>, p: nat, n: nat)
    requires ShapeOk(hdrs, lens, bin, 0) && p !in lens && p !in bin && 1 < p && 0 < n && Bytes(n) < SIGN_LIMIT
    ensures ShapeOk(hdrs[p := Hdr(Bytes(n), false, Normal, 0, 0)], lens[p := n], bin, p)
    ensures Kept(hdrs, bin, hdrs[p := Hdr(Bytes(n), false, Normal, 0, 0)], bin, {p})
  {
    var h2, l2 := hdrs[p := Hdr(Bytes(n), false, Normal, 0, 0)], lens[p := n];
    forall d ensures BlockOk(h2, l2, bin, d, p) {
      assert BlockOk(hdrs, lens, bin, d, 0);
    }
    forall d | d !in {p} ensures KeptAt(hdrs, bin, h2, bin, d) {
    }
  }

  lemma InstallLists(hdrs: map<nat, Hdr>, lens: map<nat, nat>, head: seq<nat>, freeBytes: seq<nat>,
        bin: map<nat, nat>, stamp: map<nat, nat>, clock: nat, p: nat, n: nat)
    requires Linked(hdrs, head, bin, stamp, clock) && SumsOk(freeBytes, lens, bin) && p !in bin
    ensures Linked(hdrs[p := Hdr(Bytes(n), false, Normal, 0, 0)], head, bin, stamp, clock)
    ensures SumsOk(freeBytes, lens[p := n], bin) && FreeTotal(lens[p := n], bin) == FreeTotal(lens, bin)
  {
    SumsAgree(freeBytes, lens, lens[p := n], bin);
    LinkedAgree(hdrs, hdrs[p := Hdr(Bytes(n), false, Normal, 0, 0)], head, bin, stamp, clock);
  }

  lemma InstallJumps(jumps: map<nat, nat>, lens: map<nat, nat>, owner: map<nat, nat>, bin: map<nat, nat>,
        s: set<nat>, p: nat)
    requires Tiled(lens, owner) && JumpsOk(jumps, owner, Idle(bin, 0)) && p !in lens && s !! owner.Keys
    ensures JumpsOk(jumps, owner + Painted(s, p), Idle(bin, p))
  {
    var o2 := owner + Painted(s, p);
    assert Owned(lens, owner, 0);
    forall x: nat ensures JumpOk(jumps, o2, Idle(bin, p), x) {
      assert JumpOk(jumps, owner, Idle(bin, 0), x) && Housed(lens, owner, x);
    }
  }

  lemma InstallApart(lens: map<nat, nat>, owner: map<nat, nat>, bin: map<nat, nat>, o2: map<nat, nat>, p: nat, n: nat)
    requires bin.Keys <= lens.Keys && Coalesced(lens, owner, bin) && p !in lens && |owner.Keys| <= |o2.Keys|
    ensures Coalesced(lens[p := n], o2, bin)
  {
    if Small(o2.Keys) {
      var l2 := lens[p := n];
      forall b: nat ensures Apart(l2, bin, b) {
        assert Apart(lens, bin, b);
      }
    }
  }

  lemma PaintedSize(owner: map<nat, nat>, s: set<nat>, p: nat)
    requires s !! owner.Keys
    ensures |(owner + Painted(s, p)).Keys| == |owner.Keys| + |s|
  {
    assert (owner + Painted(s, p)).Keys == owner.Keys + s;
    assert |owner.Keys + s| == |owner.Keys| + |s|;
  }

  function Grown(owner: map<nat, nat>, p: nat, n: nat): map<nat, nat> {
    owner + Painted(Range(p, p + n), p)
  }

  ghost predicate BesideAt(owner: map<nat, nat>, p: nat, n: nat, x: nat) {
    p <= x < p + n ==> x !in owner
  }

  ghost predicate Beside(owner: map<nat, nat>, p: nat, n: nat) {
    forall x :: BesideAt(owner, p, n, x)
  }

  lemma BesideRange(owner: map<nat, nat>, p: nat, n: nat)
    requires Beside(owner, p, n)
    ensures Range(p, p + n) !! owner.Keys
  {
    forall x | x in Range(p, p + n) ensures x !in owner {
      assert BesideAt(owner, p, n, x);
    }
  }

  lemma BesidePart(owner: map<nat, nat>, p0: nat, n0: nat, p: nat, n: nat)
    requires Beside(owner, p0, n0) && p0 <= p && p + n <= p0 + n0
    ensures Beside(owner, p, n)
  {
    forall x: nat ensures BesideAt(owner, p, n, x) {
      assert BesideAt(owner, p0, n0, x);
    }
  }

  lemma RangeGrown(owner: map<nat, nat>, p: nat, n: nat)
    requires Range(p, p + n) !! owner.Keys && |Range(p, p + n)| == n
    ensures |Grown(owner, p, n).Keys| == |owner.Keys| + n
  {
    PaintedSize(owner, Range(p, p + n), p);
  }

  lemma GrownSize(owner: map<nat, nat>, p: nat, n: nat)
    requires Beside(owner, p, n)
    ensures |Grown(owner, p, n).Keys| == |owner.Keys| + n
  {
    assert |Range(p, p + n)| == n by { RangeSize(p, p + n); }
    assert Range(p, p + n) !! owner.Keys by { BesideRange(owner, p, n); }
    RangeGrown(owner, p, n);
  }

  lemma InstallMap(jumps: map<nat, nat>, lens: map<nat, nat>, owner: map<nat, nat>, bin: map<nat, nat>, p: nat, n: nat)
    requires Tiled(lens, owner) && JumpsOk(jumps, owner, Idle(bin, 0)) && bin.Keys <= lens.Keys
             && Coalesced(lens, owner, bin)
    requires 1 < p && 0 < n && Beside(owner, p, n)
    ensures p !in lens && Tiled(lens[p := n], Grown(owner, p, n)) && JumpsOk(jumps, Grown(owner, p, n), Idle(bin, p))
    ensures |Grown(owner, p, n).Keys| == |owner.Keys| + n && Coalesced(lens[p := n], Grown(owner, p, n), bin)
  {
    BesideRange(owner, p, n);
    AddTiled(lens, owner, p, n);
    InstallJumps(jumps, lens, owner, bin, Range(p, p + n), p);
    GrownSize(owner, p, n);
    InstallApart(lens, owner, bin, Grown(owner, p, n), p, n);
  }

  // What holds of the heap when nothing but x is in transit.
  ghost predicate HeapOk(hdrs: map<nat, Hdr>, jumps: map<nat, nat>, head: seq<nat>, freeBytes: seq<nat>,
                         lens: map<nat, nat>, owner: map<nat, nat>, bin: map<nat, nat>, stamp: map<nat, nat>,
                         clock: nat, x: nat)
  {
    && Linked(hdrs, head, bin, stamp, clock) && |head| == |freeBytes| == N_HBLK_FLS + 1 && SumsOk(freeBytes, lens, bin)
    && ShapeOk(hdrs, lens, bin, x) && Tiled(lens, owner) && JumpsOk(jumps, owner, Idle(bin, x))
  }

  lemma InstallOk(hdrs: map<nat, Hdr>, jumps: map<nat, nat>, head: seq<nat>, freeBytes: seq<nat>,
                  lens: map<nat, nat>, owner: map<nat, nat>, bin: map<nat, nat>, stamp: map<nat, nat>, clock: nat,
                  p: nat, n: nat,
                  h2: map<nat, Hdr>) returns (l2: map<nat, nat>, o2: map<nat, nat>)
    requires HeapOk(hdrs, jumps, head, freeBytes, lens, owner, bin, stamp, clock, 0) && bin.Keys <= lens.Keys
             && Coalesced(lens, owner, bin)
    requires 1 < p && 0 < n && Bytes(n) < SIGN_LIMIT && Beside(owner, p, n)
    requires h2 == hdrs[p := Hdr(Bytes(n), false, Normal, 0, 0)]
    ensures bin.Keys <= l2.Keys && HeapOk(h2, jumps, head, freeBytes, l2, o2, bin, stamp, clock, p)
    ensures Coalesced(l2, o2, bin) && FreeTotal(l2, bin) == FreeTotal(lens, bin)
    ensures p !in hdrs && p in h2 && p !in bin && !h2[p].free && p in l2 && l2[p] == n && h2[p].sz == Bytes(l2[p])
            && Kept(hdrs, bin, h2, bin, {p})
    ensures Extended(owner, o2.Keys, p, n) && |o2.Keys| == |owner.Keys| + n
  {
    l2, o2 := lens[p := n], Grown(owner, p, n);
    InstallMap(jumps, lens, owner, bin, p, n);
    InstallShape(hdrs, lens, bin, p, n);
    InstallLists(hdrs, lens, head, freeBytes, bin, stamp, clock, p, n);
    forall x: nat ensures ExtendedAt(owner, o2.Keys, p, n, x) {
    }
  }

  lemma SectAdded(sects: seq<(nat, nat)>, owner: map<nat, nat>, owner2: map<nat, nat>, p: nat, n: nat)
    requires SectsOk(sects, owner) && Extended(owner, owner2.Keys, p, n)
    ensures SectsOk(sects + [(p, n)], owner2)
  {
    var s2 := sects + [(p, n)];
    forall x ensures SectAt(s2, owner2, x) {
      assert SectAt(sects, owner, x) && ExtendedAt(owner, owner2.Keys, p, n, x);
      assert s2[|sects|] == (p, n);
      if InSects(sects, x) {
        var i :| 0 <= i < |sects| && sects[i].0 <= x < sects[i].0 + sects[i].1;
        assert s2[i] == sects[i];
      }
    }
  }

  lemma SplitSum(s: set<nat>, part: set<nat>, lens: map<nat, nat>)
    requires part <= s <= lens.Keys
    ensures SumOf(s - part, lens) + SumOf(part, lens) == SumOf(s, lens)
  {
    SumUnion(s - part, part, lens);
    assert s - part + part == s;
  }

  lemma UsedFreeSum(lens: map<nat, nat>, owner: map<nat, nat>, bin: map<nat, nat>)
    requires Tiled(lens, owner) && bin.Keys <= lens.Keys
    ensures SumOf(lens.Keys - bin.Keys, lens) + SumOf(bin.Keys, lens) == |owner.Keys|
  {
    TilesSum(lens, owner);
    SplitSum(lens.Keys, bin.Keys, lens);
  }

  lemma EmptyHeap(head: seq<nat>, freeBytes: seq<nat>)
    requires |head| == |freeBytes| == N_HBLK_FLS + 1 && forall i :: 0 <= i <= N_HBLK_FLS ==>
             head[i] == 0
             && freeBytes[i] == 0
    ensures Linked(map[], head, map[], map[], 0) && SumsOk(freeBytes, map[], map[])
    ensures ShapeOk(map[], map[], map[], 0) && Tiled(map[], map[]) && JumpsOk(map[], map[], Idle(map[], 0))
    ensures FreeTotal(map[], map[]) == 0 && Coalesced(map[], map[], map[])
  {
    forall i | 0 <= i < |freeBytes| ensures SumOk(freeBytes, map[], map[], i) {
      assert OnFl(map[], i) == {};
    }
  }
}
