// The heap-block manager together with the index of headers: whatever the manager does
// to its blocks, the index, changed as GC_install_header and the like change it, goes on
// to agree with it.
module IndexedHeap {
  import opened BlockAlloc
  import opened BlockMap
  import opened BlockShape
  import opened FreeLists
  import opened HeaderIndex
  import opened Kinds

  // A cell that holds a header refers to it: it shows what the header says now.
  function Shown(c: Cell, x: int, hdrs: map<nat, Hdr>): Cell {
    if c.Header? && x >= 0 && x in hdrs then Header(hdrs[x]) else c
  }

  function Refreshed(top: map<nat, seq<Cell>>, hdrs: map<nat, Hdr>): map<nat, seq<Cell>> {
    map k | k in top :: seq(|top[k]|, j requires 0 <= j < |top[k]| => Shown(top[k][j], Addr(k, j), hdrs))
  }

  lemma RefreshedOk(top: map<nat, seq<Cell>>, asc: map<nat, int>, desc: map<nat, int>, first: int, last: int,
        hs: map<nat, Hdr>, hdrs: map<nat, Hdr>, jumps: map<nat, nat>)
    requires LinksOk(top, asc, desc, first, last) && Represents(top, hs, jumps) && hs.Keys == hdrs.Keys
    ensures LinksOk(Refreshed(top, hdrs), asc, desc, first, last) && Represents(Refreshed(top, hdrs), hdrs, jumps)
  {
    var top2 := Refreshed(top, hdrs);
    assert top2.Keys == top.Keys;
    forall k ensures LinkOkAt(top2, asc, desc, k) { assert LinkOkAt(top, asc, desc, k); }
    forall x ensures CellOk(top2, hdrs, jumps, x) {
      assert CellOk(top, hs, jumps, x) && Addr(Key(x), Slot(x)) == x;
      assert x in hs <==> x in hdrs;
    }
  }

  // What the index needs to know of the blocks: no count stands where a block begins, nor
  // inside of a free block, and blocks begin only where the manager says so.
  lemma NoCount(jumps: map<nat, nat>, lens: map<nat, nat>, owner: map<nat, nat>, idle: set<nat>, b: nat, x: nat)
    requires Tiled(lens, owner) && JumpsOk(jumps, owner, idle) && b in lens && b <= x < b + lens[b]
    requires x == b || b in idle
    ensures x !in jumps
  {
    assert Owned(lens, owner, b) && JumpOk(jumps, owner, idle, x);
  }

  lemma BlockStarts(jumps: map<nat, nat>, lens: map<nat, nat>, owner: map<nat, nat>, idle: set<nat>, b: nat)
    requires Tiled(lens, owner) && JumpsOk(jumps, owner, idle) && b in lens
    ensures b !in jumps
  {
    assert Owned(lens, owner, b);
    NoCount(jumps, lens, owner, idle, b, b);
  }

  lemma NoneInside(lens: map<nat, nat>, owner: map<nat, nat>, b: nat, x: nat)
    requires Tiled(lens, owner) && b in lens && b < x < b + lens[b]
    ensures x !in lens
  {
    if x in lens { TilesDisjoint(lens, owner, b, x); }
  }

  lemma NoCounts(jumps: map<nat, nat>, lens: map<nat, nat>, owner: map<nat, nat>, idle: set<nat>, b: nat)
    requires Tiled(lens, owner) && JumpsOk(jumps, owner, idle) && b in lens && b in idle
    ensures forall x :: b <= x < b + lens[b] ==> x !in jumps
  {
    forall x | b <= x < b + lens[b] ensures x !in jumps { NoCount(jumps, lens, owner, idle, b, x); }
  }

  lemma NoneInsideOf(lens: map<nat, nat>, owner: map<nat, nat>, b: nat)
    requires Tiled(lens, owner) && b in lens
    ensures forall x :: b < x < b + lens[b] ==> x !in lens
  {
    forall x | b < x < b + lens[b] ensures x !in lens { NoneInside(lens, owner, b, x); }
  }

  lemma LostKeys(lens: map<nat, nat>, lens2: map<nat, nat>, b: nat, next: nat, hs: set<nat>)
    requires Lost(lens, lens2, b, next)
    requires hs == lens.Keys - (if next in lens2 then {} else {next}) - if b in lens2 then {} else {b}
    ensures hs == lens2.Keys
  {
    forall x ensures x in hs <==> x in lens2 {
      assert LostAt(lens, lens2, b, next, x);
    }
  }

  lemma GainedKeys(lens: map<nat, nat>, lens2: map<nat, nat>, p: nat, y: nat)
    requires Gained(lens, lens2, p, y)
    ensures lens2.Keys == lens.Keys + {p, y}
  {
    forall x ensures x in lens2 <==> x in lens.Keys + {p, y} {
      assert GainedAt(lens, lens2, p, y, x);
    }
  }

  lemma NoHeapNoCounts(jumps: map<nat, nat>, lens: map<nat, nat>, owner: map<nat, nat>, idle: set<nat>)
    requires Tiled(lens, owner) && JumpsOk(jumps, owner, idle) && lens == map[]
    ensures jumps == map[]
  {
    forall x ensures x !in jumps { assert JumpOk(jumps, owner, idle, x) && Housed(lens, owner, x); }
  }

  class BlockHeap {
    const bm: BlockManager
    const ix: Index

    ghost predicate Agrees(x: nat)
      reads this, bm, ix
    {
      bm.Settled(x) && ix.Valid() && Represents(ix.top, bm.hdrs, bm.jumps)
    }

    constructor (blLimit: nat, maxSects: nat)
      ensures Agrees(0) && fresh(bm) && fresh(ix) && bm.hdrs == map[]
    {
      bm := new BlockManager(blLimit, maxSects);
      ix := new Index();
      new;
      assert bm.jumps == map[] by { NoHeapNoCounts(bm.jumps, bm.lens, bm.owner, Idle(bm.bin, 0)); }
    }

    // The headers themselves are shared by the manager and the index.
    method Share(ghost hs: map<nat, Hdr>)
      requires ix.Valid() && Represents(ix.top, hs, bm.jumps) && hs.Keys == bm.hdrs.Keys
      modifies ix`top
      ensures ix.Valid() && Represents(ix.top, bm.hdrs, bm.jumps)
    {
      RefreshedOk(ix.top, ix.asc, ix.desc, ix.first, ix.last, hs, bm.hdrs, bm.jumps);
      ix.top := Refreshed(ix.top, bm.hdrs);
    }

    // GC_freehblk: the counts of b go, and the headers that are merged into others.
    method Free(b: nat, ghost x: nat) returns (duplicate: bool)
      requires Agrees(x) && b in bm.hdrs
      requires x == 0 || (x == b && b !in bm.bin && !bm.hdrs[b].free && bm.hdrs[b].sz == Bytes(bm.lens[b]))
      modifies bm, ix
      ensures Agrees(0) && (duplicate <==> b in old(bm.bin))
      ensures !duplicate ==>
        && bm.owner.Keys == old(bm.owner.Keys)
        && Kept(old(bm.hdrs), old(bm.bin), bm.hdrs, bm.bin, {b}) && !InUse(bm.hdrs, bm.bin, b)
        && bm.largeFree == old(bm.largeFree) + Bytes(old(bm.lens[b]))
    {
      ghost var h0, j0, l0 := bm.hdrs, bm.jumps, bm.lens;
      assert BlockOk(h0, l0, bm.bin, b, x) && Owned(l0, bm.owner, b);
      NoneInsideOf(l0, bm.owner, b);
      BlockStarts(j0, l0, bm.owner, Idle(bm.bin, x), b);
      var n := bm.hdrs[b].Len();
      var next := b + n;
      var follows := next in bm.hdrs;
      if follows { BlockStarts(j0, l0, bm.owner, Idle(bm.bin, x), next); }
      duplicate := bm.Freehblk(b, x);
      if !duplicate { Unindex(b, n, follows, h0, j0, l0); }
    }

    method Unindex(b: nat, n: nat, follows: bool, ghost h0: map<nat, Hdr>, ghost j0: map<nat, nat>,
          ghost l0: map<nat, nat>)
      requires bm.hdrs.Keys == bm.lens.Keys && l0.Keys == h0.Keys && b in h0 && 0 < n && (follows <==> b + n in h0)
      requires Lost(l0, bm.lens, b, b + n) && bm.jumps == j0 - Range(b + 1, b + n) && b !in j0
      requires (follows ==> b + n !in j0) && forall x :: b < x < b + n ==> x !in h0
      requires ix.Valid() && Represents(ix.top, h0, j0)
      modifies ix
      ensures ix.Valid() && Represents(ix.top, bm.hdrs, bm.jumps)
    {
      ix.RemoveCounts(b, n, h0, j0);
      ghost var hs := h0;
      if follows && b + n !in bm.hdrs {
        ix.RemoveHeader(b + n, hs, bm.jumps);
        hs := hs - {b + n};
      }
      if b !in bm.hdrs {
        ix.RemoveHeader(b, hs, bm.jumps);
        hs := hs - {b};
      }
      LostKeys(l0, bm.lens, b, b + n, hs.Keys);
      Share(hs);
    }

    // The part of GC_allochblk_nth that cuts p out of the free block h: new headers for
    // p and for the rest, and counts for p.
    method Carve(h: nat, p: nat, sz: nat, kind: Kind, index: nat)
      requires Agrees(0) && h in bm.bin && bm.bin[h] == index && 0 < sz && h in bm.lens
      requires h <= p && p + Blocks(sz) <= h + bm.lens[h]
      modifies bm, ix
      ensures Agrees(0) && InUse(bm.hdrs, bm.bin, p) && bm.hdrs[p].sz == sz && bm.hdrs[p].kind == kind
      ensures Kept(old(bm.hdrs), old(bm.bin), bm.hdrs, bm.bin, {p})
    {
      ghost var h0, j0, l0 := bm.hdrs, bm.jumps, bm.lens;
      assert BlockOk(h0, l0, bm.bin, h, 0);
      NoneInsideOf(l0, bm.owner, h);
      NoCounts(j0, l0, bm.owner, Idle(bm.bin, 0), h);
      var n, end := Blocks(sz), h + bm.hdrs[h].Len();
      bm.Carve(h, p, sz, kind, index);
      GainedKeys(l0, bm.lens, p, CutPoint(end - p, p, n));
      Indexed(h, p, n, end, h0, j0);
    }

    method Indexed(h: nat, p: nat, n: nat, end: nat, ghost h0: map<nat, Hdr>, ghost j0: map<nat, nat>)
      requires h in h0 && h <= p && 0 < n && p + n <= end
      requires bm.hdrs.Keys == h0.Keys + {p, CutPoint(end - p, p, n)} && bm.jumps == j0 + Counts(p, n)
      requires forall x :: h < x < end ==> x !in h0
      requires forall x :: h <= x < end ==> x !in j0
      requires ix.Valid() && Represents(ix.top, h0, j0)
      modifies ix
      ensures ix.Valid() && Represents(ix.top, bm.hdrs, bm.jumps)
    {
      ghost var hs := h0;
      if p != h {
        ix.InstallHeader(p, bm.hdrs[p], hs, j0);
        hs := hs[p := bm.hdrs[p]];
      }
      var rest := CutPoint(end - p, p, n);
      if rest != p {
        ix.InstallHeader(rest, bm.hdrs[rest], hs, j0);
        hs := hs[rest := bm.hdrs[rest]];
      }
      ix.InstallCounts(p, n, hs, j0);
      Share(hs);
    }

    // The part that takes a black-listed free block apart: a header for each block.
    method Drop(h: nat, index: nat)
      requires Agrees(0) && h in bm.bin && bm.bin[h] == index && h in bm.lens
      modifies bm, ix
      ensures Agrees(0) && AllDropped(bm.hdrs, bm.bin, h, h + old(bm.lens[h]))
    {
      ghost var h0, j0, l0 := bm.hdrs, bm.jumps, bm.lens;
      assert BlockOk(h0, l0, bm.bin, h, 0);
      NoneInsideOf(l0, bm.owner, h);
      NoCounts(j0, l0, bm.owner, Idle(bm.bin, 0), h);
      assert Owned(l0, bm.owner, h);
      var n := bm.hdrs[h].Len();
      bm.DropBlock(h, index);
      InstallEach(h, n, h0);
    }

    method InstallEach(h: nat, n: nat, ghost h0: map<nat, Hdr>)
      requires bm.hdrs.Keys == h0.Keys + Range(h, h + n) && h in h0 && 0 < n
      requires forall x :: h <= x < h + n ==> x !in bm.jumps
      requires ix.Valid() && Represents(ix.top, h0, bm.jumps)
      modifies ix
      ensures ix.Valid() && Represents(ix.top, bm.hdrs, bm.jumps)
    {
      ghost var hs := h0;
      var x := h + 1;
      while x < h + n
        invariant h < x <= h + n && hs.Keys == h0.Keys + Range(h, x)
        invariant ix.Valid() && Represents(ix.top, hs, bm.jumps)
      {
        ix.InstallHeader(x, bm.hdrs[x], hs, bm.jumps);
        hs := hs[x := bm.hdrs[x]];
        x := x + 1;
      }
      Share(hs);
    }

    // New address space: a block with a header, which is freed at once.
    method Add(p: nat, n: nat)
      requires Agrees(0) && 1 < p && 0 < n && Bytes(n) < SIGN_LIMIT && Beside(bm.owner, p, n)
      modifies bm, ix
      ensures Agrees(0) && bm.largeFree == old(bm.largeFree) + Bytes(n)
      ensures Extended(old(bm.owner), bm.owner.Keys, p, n)
    {
      ghost var h0, j0, l0 := bm.hdrs, bm.jumps, bm.lens;
      assert BesideAt(bm.owner, p, n, p) && JumpOk(j0, bm.owner, Idle(bm.bin, 0), p);
      bm.Install(p, n);
      GainedKeys(l0, bm.lens, p, p);
      ix.InstallHeader(p, bm.hdrs[p], h0, j0);
      Share(h0[p := bm.hdrs[p]]);
      var duplicate := Free(p, p);
    }

    // GC_base, whatever has been done before.
    method Base(a: nat) returns (r: nat)
      requires Agrees(0) && forall b :: b in Used(bm.hdrs) ==> 0 < bm.hdrs[b].sz && bm.hdrs[b].sz % GRANULE_BYTES == 0
      ensures r != 0 ==> exists b, i :: ObjectAt(bm.hdrs, b, i, r, a)
      ensures r == 0 ==> forall b, i, s :: !ObjectAt(bm.hdrs, b, i, s, a)
    {
      r := ix.Base(a, bm.hdrs, bm.jumps, bm.lens, bm.owner, bm.bin);
    }
  }
}
