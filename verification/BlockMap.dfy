// How the blocks of the heap divide it up, and the forwarding counts that let an
// address inside a block find the block's header. All addresses count heap blocks.
module BlockMap {
  import opened FreeLists

  const MAX_JUMP: nat := HBLKSIZE - 1
  const SIGN_LIMIT: nat := 0x8000_0000_0000_0000
  const ADDRESS_BLOCKS: nat := 0x10_0000_0000_0000

  ghost predicate Owned(lens: map<nat, nat>, owner: map<nat, nat>, b: nat) {
    b in lens ==> 1 < b && 0 < lens[b] && forall x :: b <= x < b + lens[b] ==> x in owner && owner[x] == b
  }

  ghost predicate Housed(lens: map<nat, nat>, owner: map<nat, nat>, x: nat) {
    x in owner ==> owner[x] in lens && owner[x] <= x < owner[x] + lens[owner[x]]
  }

  // The blocks with these lengths tile the heap owner.Keys: owner maps every
  // address of the heap to the one block that holds it.
  ghost predicate Tiled(lens: map<nat, nat>, owner: map<nat, nat>) {
    && (forall b :: Owned(lens, owner, b))
    && (forall x :: Housed(lens, owner, x))
  }

  // Give the addresses of [lo, hi) to block b.
  function Paint(owner: map<nat, nat>, lo: nat, hi: nat, b: nat): map<nat, nat> {
    map x | x in owner :: if lo <= x < hi then b else owner[x]
  }

  function SplitLens(lens: map<nat, nat>, b: nat, n: nat): map<nat, nat>
    requires b in lens && b < n < b + lens[b]
  {
    lens[b := n - b][n := b + lens[b] - n]
  }

  function MergedLens(lens: map<nat, nat>, b: nat, c: nat): map<nat, nat>
    requires b in lens && c in lens
  {
    (lens - {c})[b := lens[b] + lens[c]]
  }

  lemma SplitTiled(lens: map<nat, nat>, owner: map<nat, nat>, b: nat, n: nat)
    requires Tiled(lens, owner) && b in lens && b < n < b + lens[b]
    ensures n !in lens && n in owner
    ensures Tiled(SplitLens(lens, b, n), Paint(owner, n, b + lens[b], n))
  {
    var l2, o2 := SplitLens(lens, b, n), Paint(owner, n, b + lens[b], n);
    assert Owned(lens, owner, b) && Owned(lens, owner, n);
    assert owner[n] == b;
    forall c ensures Owned(l2, o2, c) {
      assert Owned(lens, owner, c);
    }
    forall x ensures Housed(l2, o2, x) {
      assert Housed(lens, owner, x);
    }
  }

  lemma MergeTiled(lens: map<nat, nat>, owner: map<nat, nat>, b: nat, c: nat)
    requires Tiled(lens, owner) && b in lens && c == b + lens[b] && c in lens
    ensures Tiled(MergedLens(lens, b, c), Paint(owner, c, c + lens[c], b))
  {
    var l2, o2 := MergedLens(lens, b, c), Paint(owner, c, c + lens[c], b);
    assert Owned(lens, owner, b) && Owned(lens, owner, c);
    forall d ensures Owned(l2, o2, d) {
      assert Owned(lens, owner, d);
    }
    forall x ensures Housed(l2, o2, x) {
      assert Housed(lens, owner, x);
    }
  }

  function Painted(s: set<nat>, b: nat): map<nat, nat> {
    map x | x in s :: b
  }

  lemma AddTiled(lens: map<nat, nat>, owner: map<nat, nat>, b: nat, n: nat)
    requires Tiled(lens, owner) && 1 < b && 0 < n && Range(b, b + n) !! owner.Keys
    ensures b !in lens
    ensures Tiled(lens[b := n], owner + Painted(Range(b, b + n), b))
  {
    assert b in Range(b, b + n);
    var l2, o2 := lens[b := n], owner + Painted(Range(b, b + n), b);
    assert Owned(lens, owner, b);
    forall d ensures Owned(l2, o2, d) {
      assert Owned(lens, owner, d);
    }
    forall x ensures Housed(l2, o2, x) {
      assert Housed(lens, owner, x);
    }
  }

  // Different blocks do not overlap.
  lemma TilesDisjoint(lens: map<nat, nat>, owner: map<nat, nat>, b: nat, c: nat)
    requires Tiled(lens, owner) && b in lens && c in lens && b < c
    ensures b + lens[b] <= c
  {
    assert Owned(lens, owner, b) && Owned(lens, owner, c);
    assert c in owner && owner[c] == c;
  }

  predicate IsAddress(x: nat) { true }

  function Range(lo: nat, hi: nat): (r: set<nat>)
    ensures forall x :: x in r <==> lo <= x < hi
  {
    set x: nat | IsAddress(x) && lo <= x < hi
  }

  lemma {:induction false} RangeSize(lo: nat, hi: nat)
    requires lo <= hi
    ensures |Range(lo, hi)| == hi - lo
    decreases hi - lo
  {
    if lo < hi {
      assert Range(lo, hi) == {lo} + Range(lo + 1, hi);
      RangeSize(lo + 1, hi);
    } else {
      assert Range(lo, hi) == {};
    }
  }

  lemma SubsetSize<T>(s: set<T>, t: set<T>)
    requires s <= t
    ensures |s| <= |t|
  {
    assert t == s + (t - s);
  }

  // The heap is no smaller than any stretch of it.
  lemma RunFits(owner: map<nat, nat>, lo: nat, hi: nat)
    requires lo <= hi && forall x :: lo <= x < hi ==> x in owner
    ensures hi - lo <= |owner.Keys|
  {
    RangeSize(lo, hi);
    SubsetSize(Range(lo, hi), owner.Keys);
  }

  lemma RemoveTile(lens: map<nat, nat>, owner: map<nat, nat>, b: nat)
    requires Tiled(lens, owner) && b in lens
    ensures Tiled(lens - {b}, owner - Range(b, b + lens[b]))
  {
    var rest, restOwner := lens - {b}, owner - Range(b, b + lens[b]);
    assert Owned(lens, owner, b);
    forall c ensures Owned(rest, restOwner, c) {
      assert Owned(lens, owner, c);
      if c in rest {
        forall x | c <= x < c + lens[c] ensures x in restOwner {
          assert owner[x] == c;
        }
      }
    }
    forall x ensures Housed(rest, restOwner, x) {
      assert Housed(lens, owner, x);
    }
  }

  lemma CutSize(owner: map<nat, nat>, s: set<nat>)
    requires s <= owner.Keys
    ensures |owner.Keys| == |(owner - s).Keys| + |s|
  {
    var rest := owner.Keys - s;
    assert (owner - s).Keys == rest;
    assert owner.Keys == rest + s;
  }

  lemma HousedAt(lens: map<nat, nat>, owner: map<nat, nat>, x: nat)
    requires Tiled(lens, owner) && x in owner
    ensures owner[x] in lens && owner[x] <= x < owner[x] + lens[owner[x]]
  {
    assert Housed(lens, owner, x);
  }

  lemma TileSize(lens: map<nat, nat>, owner: map<nat, nat>, b: nat)
    requires Tiled(lens, owner) && b in lens
    ensures |owner.Keys| == |(owner - Range(b, b + lens[b])).Keys| + lens[b]
  {
    var s := Range(b, b + lens[b]);
    assert s <= owner.Keys by { assert Owned(lens, owner, b); }
    assert |s| == lens[b] by { RangeSize(b, b + lens[b]); }
    CutSize(owner, s);
  }

  lemma SumWithout(lens: map<nat, nat>, b: nat)
    requires b in lens
    ensures SumOf(lens.Keys, lens) == lens[b] + SumOf((lens - {b}).Keys, lens - {b})
  {
    SumTake(lens.Keys, lens, b);
    assert (lens - {b}).Keys == lens.Keys - {b};
    SumAgree(lens.Keys - {b}, lens, lens - {b});
  }

  // Conservation: the lengths of the blocks of a tiled heap add up to its size.
  lemma {:induction false} TilesSum(lens: map<nat, nat>, owner: map<nat, nat>)
    requires Tiled(lens, owner)
    ensures SumOf(lens.Keys, lens) == |owner.Keys|
    decreases |lens|
  {
    if b :| b in lens {
      RemoveTile(lens, owner, b);
      TilesSum(lens - {b}, owner - Range(b, b + lens[b]));
      TileSize(lens, owner, b);
      SumWithout(lens, b);
    } else {
      if x :| x in owner {
        HousedAt(lens, owner, x);
      } else {
        assert owner.Keys == {};
      }
    }
  }

  // ---------------------------------------------------------------------
  // Forwarding counts. idle holds the blocks that have none: the free ones.

  function Count(x: nat, b: nat): nat
    requires b <= x
  {
    if x - b > MAX_JUMP then MAX_JUMP else x - b
  }

  function Counts(b: nat, n: nat): map<nat, nat> {
    map x | x in Range(b + 1, b + n) :: Count(x, b)
  }

  lemma CountsAt(b: nat, n: nat, x: nat)
    ensures x in Counts(b, n) <==> b < x < b + n
    ensures x in Counts(b, n) ==> Counts(b, n)[x] == Count(x, b)
  {
    assert x in Range(b + 1, b + n) <==> b + 1 <= x < b + n;
  }

  lemma CountsStep(b: nat, n: nat)
    requires n > 0
    ensures Counts(b, n + 1) == Counts(b, n)[b + n := Count(b + n, b)]
  {
  }

  ghost predicate Counted(owner: map<nat, nat>, idle: set<nat>, x: nat) {
    x in owner && owner[x] < x && owner[x] !in idle
  }

  ghost predicate JumpOk(jumps: map<nat, nat>, owner: map<nat, nat>, idle: set<nat>, x: nat) {
    && (x in jumps <==> Counted(owner, idle, x))
    && (x in jumps ==> jumps[x] == Count(x, owner[x]))
  }

  ghost predicate JumpsOk(jumps: map<nat, nat>, owner: map<nat, nat>, idle: set<nat>) {
    forall x :: JumpOk(jumps, owner, idle, x)
  }

  // The counts say nothing about idle blocks, so these may be cut and joined.
  lemma JumpsIdle(jumps: map<nat, nat>, owner: map<nat, nat>, idle: set<nat>, owner2: map<nat, nat>, idle2: set<nat>)
    requires JumpsOk(jumps, owner, idle)
    requires forall x :: Counted(owner2, idle2, x) <==> Counted(owner, idle, x)
    requires forall x :: Counted(owner, idle, x) && x in owner2 ==> owner2[x] == owner[x]
    ensures JumpsOk(jumps, owner2, idle2)
  {
    forall x: nat ensures JumpOk(jumps, owner2, idle2, x) {
      assert JumpOk(jumps, owner, idle, x);
    }
  }

  // Following a count stays inside the block and moves strictly towards its header.
  lemma JumpStep(lens: map<nat, nat>, owner: map<nat, nat>, jumps: map<nat, nat>, idle: set<nat>, x: nat)
    requires Tiled(lens, owner) && JumpsOk(jumps, owner, idle) && x in jumps
    ensures x in owner && 0 < jumps[x] <= x && owner[x] <= x - jumps[x]
    ensures x - jumps[x] in owner && owner[x - jumps[x]] == owner[x]
  {
    assert JumpOk(jumps, owner, idle, x);
    assert Housed(lens, owner, x);
    assert Owned(lens, owner, owner[x]);
  }

  // ---------------------------------------------------------------------

  // GC_prev_block: the greatest block at or below h, or 0.
  function PrevBlock(blocks: set<nat>, h: nat): (r: nat)
    ensures r <= h && (r == 0 || r in blocks)
    ensures forall b :: b in blocks && b <= h ==> b <= r
  {
    if h in blocks || h == 0 then h else PrevBlock(blocks, h - 1)
  }

  // GC_next_used_block: the least block of a finite set at or above h, or 0.
  ghost predicate IsNext(blocks: set<nat>, h: nat, r: nat) {
    if r == 0 then forall b :: b in blocks && h <= b ==> b == 0
    else r in blocks && h <= r && forall b :: b in blocks && h <= b ==> r <= b
  }
}
