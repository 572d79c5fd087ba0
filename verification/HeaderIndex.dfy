// The two-level index from block addresses to headers: bottom indices of cells,
// found by key and linked in ascending and in descending order of their keys.
module HeaderIndex {
  import opened FreeLists
  import opened BlockMap
  import opened BlockShape

  // BOTTOM_SZ is 1024.
  function Key(x: nat): nat { x / 1024 }

  function Slot(x: nat): nat { x % 1024 }

  function Addr(k: nat, j: int): int { 1024 * k + j }
  const BOTTOM_SZ: nat := 1024

  // A cell is 0, a forwarding count, or a header.
  datatype Cell = Nil | Jump(n: nat) | Header(hdr: Hdr)

  // Keys are natural numbers, so -1 can stand for the null link.
  const NULL: int := -1

  ghost predicate IsNextKey(keys: set<nat>, k: int, n: int) {
    if n == NULL then forall x :: x in keys ==> x <= k
    else n >= 0 && n in keys && n > k && forall x :: x in keys && x > k ==> x >= n
  }

  ghost predicate IsPrevKey(keys: set<nat>, k: int, n: int) {
    if n == NULL then forall x :: x in keys ==> x >= k
    else n >= 0 && n in keys && n < k && forall x :: x in keys && x < k ==> x <= n
  }

  ghost predicate IsLast(keys: set<nat>, n: int) {
    if n == NULL then keys == {} else n >= 0 && n in keys && forall x :: x in keys ==> x <= n
  }

  function CellOf(top: map<nat, seq<Cell>>, x: nat): Cell {
    if Key(x) in top && |top[Key(x)]| == BOTTOM_SZ then top[Key(x)][Slot(x)] else Nil
  }

  function Entry(hdrs: map<nat, Hdr>, jumps: map<nat, nat>, x: nat): Cell {
    if x in hdrs then Header(hdrs[x]) else if x in jumps then Jump(jumps[x]) else Nil
  }

  ghost predicate CellOk(top: map<nat, seq<Cell>>, hdrs: map<nat, Hdr>, jumps: map<nat, nat>, x: nat) {
    CellOf(top, x) == Entry(hdrs, jumps, x)
  }

  // The cells hold exactly these headers and counts.
  ghost predicate Represents(top: map<nat, seq<Cell>>, hdrs: map<nat, Hdr>, jumps: map<nat, nat>) {
    forall x {:trigger CellOk(top, hdrs, jumps, x)} :: CellOk(top, hdrs, jumps, x)
  }

  ghost predicate LinkOkAt(top: map<nat, seq<Cell>>, asc: map<nat, int>, desc: map<nat, int>, k: nat) {
    k in top ==>
        |top[k]| == BOTTOM_SZ && k in asc && k in desc && IsNextKey(top.Keys, k, asc[k])
        && IsPrevKey(top.Keys, k, desc[k])
  }

  ghost predicate LinksOk(top: map<nat, seq<Cell>>, asc: map<nat, int>, desc: map<nat, int>, first: int, last: int) {
    && (forall k {:trigger LinkOkAt(top, asc, desc, k)} :: LinkOkAt(top, asc, desc, k))
    && IsNextKey(top.Keys, -1, first) && IsLast(top.Keys, last)
  }

  const EMPTY_CELLS: seq<Cell> := seq(BOTTOM_SZ, _ => Nil)

  // A new bottom index, linked in between pi and p.
  lemma LinkNew(top: map<nat, seq<Cell>>, asc: map<nat, int>, desc: map<nat, int>, first: int, last: int, hi: nat,
        pi: int, p: int)
    requires LinksOk(top, asc, desc, first, last) && hi !in top
    requires IsPrevKey(top.Keys, hi, pi) && IsNextKey(top.Keys, hi, p)
    ensures var asc2 := (if pi == NULL then asc else asc[pi := hi])[hi := p];
            var desc2 := (if p == NULL then desc else desc[p := hi])[hi := pi];
            LinksOk(top[hi := EMPTY_CELLS], asc2, desc2, if pi == NULL then hi else first,
                if p == NULL then hi else last)
  {
    var top2 := top[hi := EMPTY_CELLS];
    var asc2 := (if pi == NULL then asc else asc[pi := hi])[hi := p];
    var desc2 := (if p == NULL then desc else desc[p := hi])[hi := pi];
    if pi != NULL { assert LinkOkAt(top, asc, desc, pi); }
    if p != NULL { assert LinkOkAt(top, asc, desc, p); }
    forall k ensures LinkOkAt(top2, asc2, desc2, k) {
      assert LinkOkAt(top, asc, desc, k);
    }
  }

  lemma NewCells(top: map<nat, seq<Cell>>, hdrs: map<nat, Hdr>, jumps: map<nat, nat>, hi: nat)
    requires Represents(top, hdrs, jumps) && hi !in top
    ensures Represents(top[hi := EMPTY_CELLS], hdrs, jumps)
  {
    var top2 := top[hi := EMPTY_CELLS];
    forall x ensures CellOk(top2, hdrs, jumps, x) {
      assert CellOk(top, hdrs, jumps, x);
    }
  }

  function WithCell(top: map<nat, seq<Cell>>, x: nat, c: Cell): map<nat, seq<Cell>> {
    if Key(x) in top && |top[Key(x)]| == BOTTOM_SZ then top[Key(x) := top[Key(x)][Slot(x) := c]] else top
  }

  lemma KeepLinks(top: map<nat, seq<Cell>>, asc: map<nat, int>, desc: map<nat, int>, first: int, last: int, x: nat,
        c: Cell)
    requires LinksOk(top, asc, desc, first, last)
    ensures LinksOk(WithCell(top, x, c), asc, desc, first, last) && WithCell(top, x, c).Keys == top.Keys
  {
    assert WithCell(top, x, c).Keys == top.Keys;
    forall k ensures LinkOkAt(WithCell(top, x, c), asc, desc, k) {
      assert LinkOkAt(top, asc, desc, k);
    }
  }

  lemma SetOne(top: map<nat, seq<Cell>>, hdrs: map<nat, Hdr>, jumps: map<nat, nat>, hdrs2: map<nat, Hdr>,
        jumps2: map<nat, nat>, x: nat, c: Cell)
    requires Represents(top, hdrs, jumps) && (Key(x) in top ==> |top[Key(x)]| == BOTTOM_SZ)
             && (Key(x) in top || c == Nil)
    requires Entry(hdrs2, jumps2, x) == c && forall y :: y != x ==> Entry(hdrs2, jumps2, y) == Entry(hdrs, jumps, y)
    ensures Represents(WithCell(top, x, c), hdrs2, jumps2)
  {
    var top2 := WithCell(top, x, c);
    forall y ensures CellOk(top2, hdrs2, jumps2, y) {
      assert CellOk(top, hdrs, jumps, y);
      assert Addr(Key(y), Slot(y)) == y && Addr(Key(x), Slot(x)) == x;
    }
  }

  // No header lies between an address and the one its count leads to.
  lemma JumpOver(lens: map<nat, nat>, owner: map<nat, nat>, jumps: map<nat, nat>, idle: set<nat>, x: nat)
    requires Tiled(lens, owner) && JumpsOk(jumps, owner, idle) && x in jumps
    ensures 0 < jumps[x] <= x && forall b :: b in lens && x - jumps[x] < b <= x ==> false
  {
    JumpStep(lens, owner, jumps, idle, x);
    assert Housed(lens, owner, x);
    forall b | b in lens ensures !(x - jumps[x] < b <= x) {
      if owner[x] < b { TilesDisjoint(lens, owner, owner[x], b); }
    }
  }

  lemma CountsGrow(jumps: map<nat, nat>, h: nat, i: nat)
    requires i > 0
    ensures jumps + Counts(h, i + 1) == (jumps + Counts(h, i))[h + i := Count(h + i, h)]
  {
    CountsStep(h, i);
    UpdateSum(jumps, Counts(h, i), h + i, Count(h + i, h));
  }

  const GRANULE_BYTES: nat := 16

  // The blocks in use.
  function Used(hdrs: map<nat, Hdr>): set<nat> {
    set b | b in hdrs && !hdrs[b].free
  }

  // s is the start of object number i of block b, and the byte p lies in that object.
  ghost predicate ObjectAt(hdrs: map<nat, Hdr>, b: nat, i: nat, s: nat, p: nat) {
    && b in Used(hdrs) && s == Bytes(b) + i * hdrs[b].sz && s <= p < s + hdrs[b].sz
    && if hdrs[b].sz > HBLKSIZE then i == 0 else s + hdrs[b].sz <= Bytes(b + 1)
  }

  // The block that holds an object's byte owns the byte's heap block.
  lemma HolderOwns(hdrs: map<nat, Hdr>, lens: map<nat, nat>, owner: map<nat, nat>, bin: map<nat, nat>, p: nat)
    requires ShapeOk(hdrs, lens, bin, 0) && Tiled(lens, owner)
    ensures forall b, i, s :: ObjectAt(hdrs, b, i, s, p) ==> DivHblk(p) in owner && owner[DivHblk(p)] == b && b !in bin
  {
    forall b: nat, i: nat, s: nat | ObjectAt(hdrs, b, i, s, p) ensures DivHblk(p) in owner && owner[DivHblk(p)] == b
        && b !in bin {
      assert BlockOk(hdrs, lens, bin, b, 0) && Owned(lens, owner, b);
      assert 0 <= i * hdrs[b].sz;
      assert b <= DivHblk(p) < b + lens[b];
    }
  }

  lemma NilHolds(top: map<nat, seq<Cell>>, hdrs: map<nat, Hdr>, jumps: map<nat, nat>, lens: map<nat, nat>,
        owner: map<nat, nat>, bin: map<nat, nat>, p: nat)
    requires ShapeOk(hdrs, lens, bin, 0) && Tiled(lens, owner) && Represents(top, hdrs, jumps)
             && JumpsOk(jumps, owner, Idle(bin, 0)) && CellOf(top, DivHblk(p)) == Nil
    requires forall b, i, s :: ObjectAt(hdrs, b, i, s, p) ==> DivHblk(p) in owner && owner[DivHblk(p)] == b && b !in bin
    ensures forall b, i, s :: !ObjectAt(hdrs, b, i, s, p)
  {
    var h := DivHblk(p);
    assert CellOk(top, hdrs, jumps, h) && JumpOk(jumps, owner, Idle(bin, 0), h) && Housed(lens, owner, h);
    if h in owner { assert BlockOk(hdrs, lens, bin, owner[h], 0); }
  }

  lemma StillInside(hdrs: map<nat, Hdr>, jumps: map<nat, nat>, lens: map<nat, nat>, owner: map<nat, nat>,
        bin: map<nat, nat>, x: nat, y: nat)
    requires ShapeOk(hdrs, lens, bin, 0) && Tiled(lens, owner) && JumpsOk(jumps, owner, Idle(bin, 0))
    requires x in jumps && y in owner && x in owner && owner[y] == owner[x]
    ensures Entry(hdrs, jumps, y) != Nil
  {
    assert JumpOk(jumps, owner, Idle(bin, 0), x) && JumpOk(jumps, owner, Idle(bin, 0), y) && Housed(lens, owner, y);
  }

  lemma PageOffset(b: nat, o: nat)
    requires o < 4096
    ensures var r := Bytes(b) + o; (r - r % 8) % 4096 == o - o % 8 && r - r % 8 == Bytes(b) + (o - o % 8)
  {
    var r := Bytes(b) + o;
    assert r % 8 == o % 8 by { assert r == 8 * (512 * b) + o; }
    InPage(b, o - o % 8);
  }

  lemma InPage(b: nat, w: nat)
    requires w < 4096
    ensures (4096 * b + w) % 4096 == w
  {
  }

  // Rounding down to a word and then to a multiple of the object size finds the
  // object, sizes being multiples of the word.
  lemma ObjectStart(o: nat, sz: nat)
    requires 0 < sz && sz % GRANULE_BYTES == 0
    ensures var w, i := o - o % 8, (o - o % 8) / sz;
            w - w % sz == i * sz && i * sz <= o < i * sz + sz && (o < sz ==> i == 0)
  {
    var w, i := o - o % 8, (o - o % 8) / sz;
    DivParts(w, sz);
    MultipleOf8(sz, i);
    NextWord(o, i * sz + sz);
  }

  lemma DivParts(w: nat, sz: nat)
    requires 0 < sz
    ensures w == (w / sz) * sz + w % sz && w % sz < sz && (w < sz ==> w / sz == 0)
  {
  }

  // The word of o lies below a multiple of the word exactly when o does.
  lemma NextWord(o: nat, limit: nat)
    requires limit % 8 == 0
    ensures o - o % 8 < limit ==> o < limit
  {
  }

  lemma {:induction false} MultipleOf8(sz: nat, i: nat)
    requires sz % GRANULE_BYTES == 0
    ensures (i * sz) % 8 == 0 && (i * sz + sz) % 8 == 0
    decreases i
  {
    if i > 0 {
      MultipleOf8(sz, i - 1);
      assert i * sz == (i - 1) * sz + sz;
    }
  }

  lemma SameIndex(o: nat, sz: nat, i: nat, j: nat)
    requires i * sz <= o < i * sz + sz && j * sz <= o < j * sz + sz
    ensures i == j
  {
    MulGap(i, j, sz);
    MulGap(j, i, sz);
  }

  lemma MulGap(i: nat, j: nat, sz: nat)
    ensures i < j ==> i * sz + sz <= j * sz
  {
    if i < j {
      var d := j - i - 1;
      assert 0 <= d * sz;
      assert j * sz == (i + 1 + d) * sz == i * sz + sz + d * sz;
    }
  }

  // The address p, or the start of block b if p is not in its first heap block, rounded
  // down to a word and then to an object of sz bytes.
  method Start(p: nat, b: nat, sz: nat) returns (r: nat)
    requires b <= DivHblk(p) && 0 < sz && sz % GRANULE_BYTES == 0
    ensures var o := (if b == DivHblk(p) then p else Bytes(b)) - Bytes(b);
            o < 4096 && r == Bytes(b) + (o - o % 8) / sz * sz
  {
    r := if b == DivHblk(p) then p else Bytes(b);
    ghost var o := r - Bytes(b);
    PageOffset(b, o);
    ObjectStart(o, sz);
    r := r - r % 8;
    var displ := r % 4096 % sz;
    r := r - displ;
  }

  class Index {
    var top: map<nat, seq<Cell>>   // GC_top_index
    var asc: map<nat, int>         // asc_link
    var desc: map<nat, int>        // desc_link
    var first: int                 // GC_all_bottom_indices
    var last: int                  // GC_all_bottom_indices_end

    ghost predicate Valid()
      reads this
    {
      LinksOk(top, asc, desc, first, last)
    }

    constructor ()
      ensures Valid() && Represents(top, map[], map[])
    {
      top, asc, desc := map[], map[], map[];
      first, last := NULL, NULL;
    }

    // get_index: make sure that there is a bottom index for address x.
    method GetIndex(x: nat, ghost hdrs: map<nat, Hdr>, ghost jumps: map<nat, nat>)
      requires Valid() && Represents(top, hdrs, jumps)
      modifies this
      ensures Valid() && Represents(top, hdrs, jumps) && top.Keys == old(top.Keys) + {Key(x)}
    {
      var hi := Key(x);
      if hi in top {
        assert top.Keys == top.Keys + {Key(x)};
        return;
      }
      var pi, p := NULL, first;
      while p != NULL && p < hi
        invariant IsNextKey(top.Keys, pi, p) && (pi == NULL || (pi >= 0 && pi in top && pi < hi))
        decreases if p == NULL then 0 else 1 + hi - p
      {
        assert LinkOkAt(top, asc, desc, p);
        pi, p := p, asc[p];
      }
      LinkNew(top, asc, desc, first, last, hi, pi, p);
      NewCells(top, hdrs, jumps, hi);
      asc := (if pi == NULL then asc else asc[pi := hi])[hi := p];
      desc := (if p == NULL then desc else desc[p := hi])[hi := pi];
      if pi == NULL { first := hi; }
      if p == NULL { last := hi; }
      top := top[hi := EMPTY_CELLS];
    }

    // SET_HDR. A cell of GC_all_nils may only be set to 0.
    method SetHdr(x: nat, c: Cell, ghost hdrs: map<nat, Hdr>, ghost jumps: map<nat, nat>,
          ghost hdrs2: map<nat, Hdr>, ghost jumps2: map<nat, nat>)
      requires Valid() && Represents(top, hdrs, jumps) && (Key(x) in top || c == Nil)
      requires Entry(hdrs2, jumps2, x) == c && forall y :: y != x ==> Entry(hdrs2, jumps2, y) == Entry(hdrs, jumps, y)
      modifies this`top
      ensures Valid() && Represents(top, hdrs2, jumps2) && top.Keys == old(top.Keys)
    {
      assert LinkOkAt(top, asc, desc, Key(x));
      SetOne(top, hdrs, jumps, hdrs2, jumps2, x, c);
      KeepLinks(top, asc, desc, first, last, x, c);
      if Key(x) in top {
        top := top[Key(x) := top[Key(x)][Slot(x) := c]];
      }
    }

    // GC_install_header
    method InstallHeader(x: nat, h: Hdr, ghost hdrs: map<nat, Hdr>, ghost jumps: map<nat, nat>)
      requires Valid() && Represents(top, hdrs, jumps) && x !in jumps
      modifies this
      ensures Valid() && Represents(top, hdrs[x := h], jumps)
    {
      GetIndex(x, hdrs, jumps);
      SetHdr(x, Header(h), hdrs, jumps, hdrs[x := h], jumps);
    }

    // GC_remove_header
    method RemoveHeader(x: nat, ghost hdrs: map<nat, Hdr>, ghost jumps: map<nat, nat>)
      requires Valid() && Represents(top, hdrs, jumps) && x !in jumps
      modifies this`top
      ensures Valid() && Represents(top, hdrs - {x}, jumps)
    {
      SetHdr(x, Nil, hdrs, jumps, hdrs - {x}, jumps);
    }

    // The bottom indices for the blocks from h to h + n - 1.
    method GetIndices(h: nat, n: nat, ghost hdrs: map<nat, Hdr>, ghost jumps: map<nat, nat>)
      requires Valid() && Represents(top, hdrs, jumps) && 0 < n
      modifies this
      ensures Valid() && Represents(top, hdrs, jumps)
      ensures forall x :: h <= x < h + n ==> Key(x) in top
    {
      var p := h;
      while p < h + n
        invariant Valid() && Represents(top, hdrs, jumps) && h <= p && Slot(p) == Slot(h)
        invariant forall k :: Key(h) <= k < Key(p) ==> k in top
        decreases h + n - p
      {
        GetIndex(p, hdrs, jumps);
        p := p + BOTTOM_SZ;
      }
      GetIndex(h + n - 1, hdrs, jumps);
    }

    // GC_install_counts. The bottom indices that the counts need are made first, so
    // that no count is written into GC_all_nils.
    method InstallCounts(h: nat, n: nat, ghost hdrs: map<nat, Hdr>, ghost jumps: map<nat, nat>)
      requires Valid() && Represents(top, hdrs, jumps) && 0 < n
      requires forall x :: h < x < h + n ==> x !in hdrs
      modifies this
      ensures Valid() && Represents(top, hdrs, jumps + Counts(h, n))
    {
      GetIndices(h, n, hdrs, jumps);
      var p := h + 1;
      assert jumps + Counts(h, 1) == jumps;
      while p < h + n
        invariant h < p <= h + n && Valid() && Represents(top, hdrs, jumps + Counts(h, p - h))
        invariant forall x :: h <= x < h + n ==> Key(x) in top
      {
        PutCount(h, p, hdrs, jumps);
        p := p + 1;
      }
    }

    method PutCount(h: nat, p: nat, ghost hdrs: map<nat, Hdr>, ghost jumps: map<nat, nat>)
      requires h < p && Valid() && Represents(top, hdrs, jumps + Counts(h, p - h)) && p !in hdrs && Key(p) in top
      modifies this`top
      ensures Valid() && Represents(top, hdrs, jumps + Counts(h, p - h + 1)) && top.Keys == old(top.Keys)
    {
      var i := p - h;
      ghost var js, js2 := jumps + Counts(h, i), jumps + Counts(h, i + 1);
      CountsGrow(jumps, h, i);
      SetHdr(p, Jump(if i > MAX_JUMP then MAX_JUMP else i), hdrs, js, hdrs, js2);
    }

    // GC_remove_counts
    method RemoveCounts(h: nat, n: nat, ghost hdrs: map<nat, Hdr>, ghost jumps: map<nat, nat>)
      requires Valid() && Represents(top, hdrs, jumps) && forall x :: h < x < h + n ==> x !in hdrs
      modifies this`top
      ensures Valid() && Represents(top, hdrs, jumps - Range(h + 1, h + n))
    {
      var p := h + 1;
      assert jumps - Range(h + 1, p) == jumps;
      while p < h + n
        invariant h < p && (p <= h + n || p == h + 1) && Valid() && Represents(top, hdrs, jumps - Range(h + 1, p))
      {
        SetHdr(p, Nil, hdrs, jumps - Range(h + 1, p), hdrs, jumps - Range(h + 1, p + 1));
        p := p + 1;
      }
      assert Range(h + 1, p) == Range(h + 1, h + n);
    }

    // The bottom index in which the search for the header before h starts, and the slot.
    method StartPrev(h: nat, ghost hdrs: map<nat, Hdr>, ghost jumps: map<nat, nat>) returns (bi: int, j: int)
      requires Valid() && Represents(top, hdrs, jumps)
      ensures bi == NULL || (bi >= 0 && bi in top && bi <= Key(h) && 0 <= j < BOTTOM_SZ && Addr(bi, j) <= h)
      ensures forall b :: b in hdrs && b <= h ==> bi != NULL && b <= Addr(bi, j)
    {
      bi, j := Key(h), Slot(h);
      if Key(h) !in top {
        bi := last;
        while bi != NULL && bi > Key(h)
          invariant bi == NULL || (bi >= 0 && bi in top)
          invariant forall x :: x in top && x <= Key(h) ==> x <= bi
          decreases bi
        {
          assert LinkOkAt(top, asc, desc, bi);
          bi := desc[bi];
        }
        j := BOTTOM_SZ - 1;
        forall b | b in hdrs && b <= h ensures bi != NULL && b <= Addr(bi, j) {
          assert CellOk(top, hdrs, jumps, b) && Addr(Key(b), Slot(b)) == b;
        }
      }
    }

    // GC_prev_block: the last header at or below h.
    method PrevBlockOf(h: nat, ghost hdrs: map<nat, Hdr>, ghost jumps: map<nat, nat>, ghost lens: map<nat, nat>,
          ghost owner: map<nat, nat>, ghost idle: set<nat>) returns (r: nat)
      requires Valid() && Represents(top, hdrs, jumps)
      requires hdrs.Keys == lens.Keys && Tiled(lens, owner) && JumpsOk(jumps, owner, idle)
      ensures r == PrevBlock(hdrs.Keys, h)
    {
      var bi, j := StartPrev(h, hdrs, jumps);
      while bi != NULL
        invariant bi == NULL || (bi >= 0 && bi in top && bi <= Key(h) && -1 <= j < BOTTOM_SZ && Addr(bi, j) <= h)
        invariant forall b :: b in hdrs && b <= h ==> bi != NULL && b <= Addr(bi, j)
        decreases bi
      {
        while j >= 0
          invariant j < BOTTOM_SZ && Addr(bi, j) <= h
          invariant forall b :: b in hdrs && b <= h ==> b <= Addr(bi, j)
          decreases j
        {
          ghost var x := Addr(bi, j);
          assert LinkOkAt(top, asc, desc, bi) && CellOk(top, hdrs, jumps, x);
          match top[bi][j]
          case Nil =>
            j := j - 1;
          case Jump(n) =>
            JumpOver(lens, owner, jumps, idle, x);
            j := j - n;
          case Header(_) =>
            return Addr(bi, j);
        }
        assert LinkOkAt(top, asc, desc, bi);
        forall b | b in hdrs && b <= h ensures desc[bi] != NULL && b <= Addr(desc[bi], BOTTOM_SZ - 1) {
          assert CellOk(top, hdrs, jumps, b) && Addr(Key(b), Slot(b)) == b;
        }
        bi, j := desc[bi], BOTTOM_SZ - 1;
      }
      return 0;
    }

    // The bottom index in which the search for the next used block starts, and the slot.
    method StartNext(h: nat, ghost hdrs: map<nat, Hdr>, ghost jumps: map<nat, nat>) returns (bi: int, j: nat)
      requires Valid() && Represents(top, hdrs, jumps)
      ensures bi == NULL || (bi >= 0 && bi in top && j < BOTTOM_SZ && h <= Addr(bi, j))
      ensures forall b :: b in hdrs && h <= b ==> bi != NULL && Addr(bi, j) <= b
    {
      bi, j := Key(h), Slot(h);
      if Key(h) !in top {
        bi := first;
        while bi != NULL && bi < Key(h)
          invariant bi == NULL || (bi >= 0 && bi in top)
          invariant forall x :: x in top && x >= Key(h) ==> bi != NULL && bi <= x
          decreases if bi == NULL then 0 else 1 + Key(h) - bi
        {
          assert LinkOkAt(top, asc, desc, bi);
          bi := asc[bi];
        }
        j := 0;
        forall b | b in hdrs && h <= b ensures bi != NULL && Addr(bi, j) <= b {
          assert CellOk(top, hdrs, jumps, b) && Addr(Key(b), Slot(b)) == b;
        }
      }
    }

    // GC_next_used_block: the first block in use at or above h.
    method NextUsedBlock(h: nat, ghost hdrs: map<nat, Hdr>, ghost jumps: map<nat, nat>, ghost lens: map<nat, nat>,
          ghost owner: map<nat, nat>, ghost bin: map<nat, nat>) returns (r: nat)
      requires Valid() && Represents(top, hdrs, jumps)
      requires ShapeOk(hdrs, lens, bin, 0) && Tiled(lens, owner)
      ensures IsNext(Used(hdrs), h, r)
    {
      var bi, j := StartNext(h, hdrs, jumps);
      while bi != NULL
        invariant bi == NULL || (bi >= 0 && bi in top && 0 <= j < BOTTOM_SZ && h <= Addr(bi, j))
        invariant forall b :: b in Used(hdrs) && h <= b ==> bi != NULL && Addr(bi, j) <= b
        decreases if bi == NULL then 0 else 1 + last - bi
      {
        while j < BOTTOM_SZ
          invariant 0 <= j && h <= Addr(bi, j)
          invariant forall b :: b in Used(hdrs) && h <= b ==> Addr(bi, j) <= b
          decreases BOTTOM_SZ - j
        {
          ghost var x: nat := Addr(bi, j);
          assert LinkOkAt(top, asc, desc, bi) && CellOk(top, hdrs, jumps, x) && BlockOk(hdrs, lens, bin, x, 0)
              && Owned(lens, owner, x);
          match top[bi][j]
          case Header(hdr) =>
            if !hdr.free { return Addr(bi, j); }
            forall b | b in Used(hdrs) && x <= b ensures x + lens[x] <= b {
              TilesDisjoint(lens, owner, x, b);
            }
            j := j + DivHblk(hdr.sz);
          case _ =>
            j := j + 1;
        }
        assert LinkOkAt(top, asc, desc, bi);
        forall b | b in Used(hdrs) && h <= b ensures asc[bi] != NULL && Addr(asc[bi], 0) <= b {
          assert CellOk(top, hdrs, jumps, b) && Addr(Key(b), Slot(b)) == b;
        }
        bi, j := asc[bi], 0;
      }
      return 0;
    }

    // The loop of GC_base: from the header entry of p's block to its header.
    method ToHeader(h0: nat, ghost hdrs: map<nat, Hdr>, ghost jumps: map<nat, nat>, ghost lens: map<nat, nat>,
          ghost owner: map<nat, nat>, ghost bin: map<nat, nat>) returns (h: nat)
      requires Valid() && Represents(top, hdrs, jumps) && ShapeOk(hdrs, lens, bin, 0) && Tiled(lens, owner)
               && JumpsOk(jumps, owner, Idle(bin, 0))
      requires CellOf(top, h0) != Nil
      ensures h in hdrs && h0 in owner && owner[h0] == h && CellOf(top, h) == Header(hdrs[h])
    {
      h := h0;
      assert CellOk(top, hdrs, jumps, h) && JumpOk(jumps, owner, Idle(bin, 0), h) && Owned(lens, owner, h);
      while !CellOf(top, h).Header?
        invariant h in owner && h0 in owner && owner[h] == owner[h0] && CellOf(top, h) == Entry(hdrs, jumps, h) != Nil
        decreases h
      {
        JumpStep(lens, owner, jumps, Idle(bin, 0), h);
        StillInside(hdrs, jumps, lens, owner, bin, h, h - CellOf(top, h).n);
        h := h - CellOf(top, h).n;
        assert CellOk(top, hdrs, jumps, h);
      }
      assert Owned(lens, owner, h);
    }

    // GC_base, on byte addresses: the start of the object that holds p, or 0.
    method Base(p: nat, ghost hdrs: map<nat, Hdr>, ghost jumps: map<nat, nat>, ghost lens: map<nat, nat>,
          ghost owner: map<nat, nat>, ghost bin: map<nat, nat>) returns (r: nat)
      requires Valid() && Represents(top, hdrs, jumps)
      requires ShapeOk(hdrs, lens, bin, 0) && Tiled(lens, owner) && JumpsOk(jumps, owner, Idle(bin, 0))
      requires forall b :: b in Used(hdrs) ==> 0 < hdrs[b].sz && hdrs[b].sz % GRANULE_BYTES == 0
      ensures r != 0 ==> exists b, i :: ObjectAt(hdrs, b, i, r, p)
      ensures r == 0 ==> forall b, i, s :: !ObjectAt(hdrs, b, i, s, p)
    {
      var h := DivHblk(p);
      HolderOwns(hdrs, lens, owner, bin, p);
      if CellOf(top, h) == Nil {
        NilHolds(top, hdrs, jumps, lens, owner, bin, p);
        return 0;
      }
      var b := ToHeader(h, hdrs, jumps, lens, owner, bin);
      if CellOf(top, b).hdr.free { return 0; }
      var sz := CellOf(top, b).hdr.sz;
      assert BlockOk(hdrs, lens, bin, b, 0) && Housed(lens, owner, h);
      ghost var o := (if b == h then p else Bytes(b)) - Bytes(b);
      r := Start(p, b, sz);
      ObjectStart(o, sz);
      var limit := r + sz;
      if limit > Bytes(b + 1) && sz <= HBLKSIZE {
        forall i, s ensures !ObjectAt(hdrs, b, i, s, p) {
          if ObjectAt(hdrs, b, i, s, p) { SameIndex(o, sz, (o - o % 8) / sz, i); }
        }
        return 0;
      }
      if p >= limit {
        return 0;
      }
      assert ObjectAt(hdrs, b, (o - o % 8) / sz, r, p);
    }
  }
}
