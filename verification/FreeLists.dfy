// The segregated, doubly linked lists of free heap blocks. Sizes and addresses
// are in heap blocks (hblks) except where a name says bytes; address 0 is null.
module FreeLists {
  import opened Kinds

  const HBLKSIZE: nat := 4096
  const UNIQUE_THRESHOLD: nat := 32
  const HUGE_THRESHOLD: nat := 256
  const FL_COMPRESSION: nat := 8
  const N_HBLK_FLS: nat := (HUGE_THRESHOLD - UNIQUE_THRESHOLD) / FL_COMPRESSION + UNIQUE_THRESHOLD

  // The bytes of n blocks, the blocks in a number of bytes, and the blocks needed for
  // an object of sz bytes (divHBLKSZ, OBJ_SZ_TO_BLOCKS). Linear in a literal HBLKSIZE.
  function Bytes(n: nat): nat { 4096 * n }

  function DivHblk(bytes: nat): nat { bytes / 4096 }

  function Blocks(sz: nat): nat { (sz + 4095) / 4096 }

  // A block header: sz is in bytes, a multiple of HBLKSIZE when the block is free.
  // The links are meaningful only while the block is on a free list.
  datatype Hdr = Hdr(sz: nat, free: bool, kind: Kind, prev: nat, next: nat) {
    // OBJ_SZ_TO_BLOCKS
    function Len(): nat { Blocks(sz) }
  }

  // GC_hblk_fl_from_blocks
  function FlFromBlocks(n: nat): (i: nat)
    ensures i <= N_HBLK_FLS
  {
    if n <= UNIQUE_THRESHOLD then n
    else if n >= HUGE_THRESHOLD then N_HBLK_FLS
    else (n - UNIQUE_THRESHOLD) / FL_COMPRESSION + UNIQUE_THRESHOLD
  }

  // Larger blocks never go to earlier lists, and below the threshold a list holds one size.
  lemma FlMonotone(m: nat, n: nat)
    ensures m <= n ==> FlFromBlocks(m) <= FlFromBlocks(n)
    ensures FlFromBlocks(m) == FlFromBlocks(n) && FlFromBlocks(m) < UNIQUE_THRESHOLD ==> m == n
  {
    if UNIQUE_THRESHOLD < m <= n < HUGE_THRESHOLD {
      assert (m - UNIQUE_THRESHOLD) / FL_COMPRESSION <= (n - UNIQUE_THRESHOLD) / FL_COMPRESSION;
    }
  }

  // ---------------------------------------------------------------------
  // Sums over finite sets of blocks.

  ghost function SumOf(s: set<nat>, w: map<nat, nat>): nat
    requires s <= w.Keys
  {
    if s == {} then 0 else
      var x :| x in s;
      w[x] + SumOf(s - {x}, w)
  }

  lemma {:induction false} SumTake(s: set<nat>, w: map<nat, nat>, x: nat)
    requires s <= w.Keys && x in s
    ensures SumOf(s, w) == w[x] + SumOf(s - {x}, w)
    decreases s
  {
    var y :| y in s && SumOf(s, w) == w[y] + SumOf(s - {y}, w);
    if x != y {
      SumTake(s - {y}, w, x);
      SumTake(s - {x}, w, y);
      assert s - {y} - {x} == s - {x} - {y};
    }
  }

  lemma {:induction false} SumAgree(s: set<nat>, v: map<nat, nat>, w: map<nat, nat>)
    requires s <= v.Keys && s <= w.Keys && forall x :: x in s ==> v[x] == w[x]
    ensures SumOf(s, v) == SumOf(s, w)
    decreases s
  {
    if x :| x in s {
      SumTake(s, v, x);
      SumTake(s, w, x);
      SumAgree(s - {x}, v, w);
    }
  }

  lemma {:induction false} SumUnion(s: set<nat>, t: set<nat>, w: map<nat, nat>)
    requires s <= w.Keys && t <= w.Keys && s !! t
    ensures SumOf(s + t, w) == SumOf(s, w) + SumOf(t, w)
    decreases s
  {
    if x :| x in s {
      SumTake(s, w, x);
      SumTake(s + t, w, x);
      assert (s + t) - {x} == (s - {x}) + t;
      SumUnion(s - {x}, t, w);
    } else {
      assert s + t == t;
    }
  }

  // ---------------------------------------------------------------------
  // The byte counter of every list. lens gives the length of every block.

  function OnFl(bin: map<nat, nat>, i: nat): set<nat> {
    set b | b in bin && bin[b] == i
  }

  ghost predicate SumOk(freeBytes: seq<nat>, lens: map<nat, nat>, bin: map<nat, nat>, i: nat)
    requires bin.Keys <= lens.Keys && i < |freeBytes|
  {
    freeBytes[i] == Bytes(SumOf(OnFl(bin, i), lens))
  }

  ghost predicate SumsOk(freeBytes: seq<nat>, lens: map<nat, nat>, bin: map<nat, nat>) {
    bin.Keys <= lens.Keys && forall i {:trigger SumOk(freeBytes, lens, bin, i)} :: 0 <= i < |freeBytes| ==>
        SumOk(freeBytes, lens, bin, i)
  }

  ghost function FreeTotal(lens: map<nat, nat>, bin: map<nat, nat>): nat
    requires bin.Keys <= lens.Keys
  {
    Bytes(SumOf(bin.Keys, lens))
  }

  lemma SumsRemove(freeBytes: seq<nat>, lens: map<nat, nat>, bin: map<nat, nat>, b: nat)
    requires SumsOk(freeBytes, lens, bin) && b in bin && bin[b] < |freeBytes|
    ensures freeBytes[bin[b]] >= Bytes(lens[b])
    ensures SumsOk(freeBytes[bin[b] := freeBytes[bin[b]] - Bytes(lens[b])], lens, bin - {b})
    ensures FreeTotal(lens, bin) == FreeTotal(lens, bin - {b}) + Bytes(lens[b])
  {
    var i := bin[b];
    assert SumOk(freeBytes, lens, bin, i);
    SumTake(OnFl(bin, i), lens, b);
    SumTake(bin.Keys, lens, b);
    assert (bin - {b}).Keys == bin.Keys - {b};
    var fb2 := freeBytes[i := freeBytes[i] - Bytes(lens[b])];
    forall j | 0 <= j < |fb2| ensures SumOk(fb2, lens, bin - {b}, j) {
      assert SumOk(freeBytes, lens, bin, j);
      if j == i {
        assert OnFl(bin - {b}, i) == OnFl(bin, i) - {b};
      } else {
        assert OnFl(bin - {b}, j) == OnFl(bin, j);
      }
    }
  }

  lemma SumsAdd(freeBytes: seq<nat>, lens: map<nat, nat>, bin: map<nat, nat>, b: nat, i: nat)
    requires SumsOk(freeBytes, lens, bin) && b in lens && b !in bin && i < |freeBytes|
    ensures SumsOk(freeBytes[i := freeBytes[i] + Bytes(lens[b])], lens, bin[b := i])
    ensures FreeTotal(lens, bin[b := i]) == FreeTotal(lens, bin) + Bytes(lens[b])
  {
    var bin2, fb2 := bin[b := i], freeBytes[i := freeBytes[i] + Bytes(lens[b])];
    SumTake(bin2.Keys, lens, b);
    assert bin2.Keys - {b} == bin.Keys;
    forall j | 0 <= j < |fb2| ensures SumOk(fb2, lens, bin2, j) {
      assert SumOk(freeBytes, lens, bin, j);
      if j == i {
        SumTake(OnFl(bin2, i), lens, b);
        assert OnFl(bin2, i) - {b} == OnFl(bin, i);
      } else {
        assert OnFl(bin2, j) == OnFl(bin, j);
      }
    }
  }

  // Only the lengths of listed blocks matter.
  lemma SumsAgree(freeBytes: seq<nat>, lens: map<nat, nat>, lens2: map<nat, nat>, bin: map<nat, nat>)
    requires SumsOk(freeBytes, lens, bin)
    requires forall b :: b in bin ==> b in lens2 && b in lens && lens2[b] == lens[b]
    ensures SumsOk(freeBytes, lens2, bin)
    ensures FreeTotal(lens2, bin) == FreeTotal(lens, bin)
  {
    SumAgree(bin.Keys, lens, lens2);
    forall i | 0 <= i < |freeBytes| ensures SumOk(freeBytes, lens2, bin, i) {
      assert SumOk(freeBytes, lens, bin, i);
      SumAgree(OnFl(bin, i), lens, lens2);
    }
  }

  // ---------------------------------------------------------------------
  // Well-linked lists. bin gives, for every block that is on a list, which list;
  // stamp orders the blocks of a list, newest first.

  ghost predicate LinkOk(hdrs: map<nat, Hdr>, head: seq<nat>, bin: map<nat, nat>, stamp: map<nat, nat>, clock: nat,
        b: nat) {
    && b in bin && b > 0 && b in hdrs && b in stamp && stamp[b] < clock && bin[b] < |head|
    && (hdrs[b].prev == 0 ==> head[bin[b]] == b)
    && (hdrs[b].prev != 0 ==>
          var p := hdrs[b].prev;
          p in bin && p in hdrs && bin[p] == bin[b] && hdrs[p].next == b)
    && (hdrs[b].next != 0 ==>
          var n := hdrs[b].next;
          n in bin && n in hdrs && bin[n] == bin[b] && hdrs[n].prev == b && n in stamp && stamp[n] < stamp[b])
  }

  ghost predicate HeadOk(hdrs: map<nat, Hdr>, head: seq<nat>, bin: map<nat, nat>, i: nat)
    requires i < |head|
  {
    head[i] != 0 ==> head[i] in bin && head[i] in hdrs && bin[head[i]] == i && hdrs[head[i]].prev == 0
  }

  ghost predicate Linked(hdrs: map<nat, Hdr>, head: seq<nat>, bin: map<nat, nat>, stamp: map<nat, nat>, clock: nat) {
    && (forall b {:trigger LinkOk(hdrs, head, bin, stamp, clock, b)} :: b in bin ==>
       LinkOk(hdrs, head, bin, stamp, clock, b))
    && (forall i {:trigger HeadOk(hdrs, head, bin, i)} :: 0 <= i < |head| ==> HeadOk(hdrs, head, bin, i))
  }

  // Unlinking b.
  function Unlinked(hdrs: map<nat, Hdr>, b: nat): map<nat, Hdr>
    requires b in hdrs
  {
    var p, n := hdrs[b].prev, hdrs[b].next;
    var h1 := if p != 0 && p in hdrs then hdrs[p := hdrs[p].(next := n)] else hdrs;
    if n != 0 && n in h1 then h1[n := h1[n].(prev := p)] else h1
  }

  lemma UnlinkKeeps(hdrs: map<nat, Hdr>, head: seq<nat>, bin: map<nat, nat>, stamp: map<nat, nat>, clock: nat, b: nat)
    requires Linked(hdrs, head, bin, stamp, clock) && b in bin
    ensures b in hdrs && bin[b] < |head|
    ensures Linked(Unlinked(hdrs, b), if hdrs[b].prev == 0 then head[bin[b] := hdrs[b].next] else head, bin - {b},
            stamp, clock)
  {
    assert LinkOk(hdrs, head, bin, stamp, clock, b);
    var i, p, n := bin[b], hdrs[b].prev, hdrs[b].next;
    var h2, hd2, bin2 := Unlinked(hdrs, b), if p == 0 then head[i := n] else head, bin - {b};
    if p != 0 { assert LinkOk(hdrs, head, bin, stamp, clock, p); }
    if n != 0 { assert LinkOk(hdrs, head, bin, stamp, clock, n); }
    forall c | c in bin2 ensures LinkOk(h2, hd2, bin2, stamp, clock, c) {
      assert LinkOk(hdrs, head, bin, stamp, clock, c);
      var cp, cn := hdrs[c].prev, hdrs[c].next;
      if cp != 0 { assert LinkOk(hdrs, head, bin, stamp, clock, cp); }
      if cn != 0 { assert LinkOk(hdrs, head, bin, stamp, clock, cn); }
    }
    forall j | 0 <= j < |hd2| ensures HeadOk(h2, hd2, bin2, j) {
      assert HeadOk(hdrs, head, bin, j);
      if head[j] != 0 { assert LinkOk(hdrs, head, bin, stamp, clock, head[j]); }
    }
  }

  // Linking b in front of list i.
  function LinkedIn(hdrs: map<nat, Hdr>, head: seq<nat>, i: nat, b: nat): map<nat, Hdr>
    requires b in hdrs && i < |head|
  {
    var second := head[i];
    var h1 := hdrs[b := hdrs[b].(next := second, prev := 0, free := true)];
    if second != 0 && second in h1 then h1[second := h1[second].(prev := b)] else h1
  }

  lemma LinkKeeps(hdrs: map<nat, Hdr>, head: seq<nat>, bin: map<nat, nat>, stamp: map<nat, nat>, clock: nat, i: nat,
        b: nat)
    requires Linked(hdrs, head, bin, stamp, clock) && i < |head| && b in hdrs && b > 0 && b !in bin
    ensures Linked(LinkedIn(hdrs, head, i, b), head[i := b], bin[b := i], stamp[b := clock], clock + 1)
  {
    var h2, hd2, bin2, st2 := LinkedIn(hdrs, head, i, b), head[i := b], bin[b := i], stamp[b := clock];
    assert HeadOk(hdrs, head, bin, i);
    if head[i] != 0 { assert LinkOk(hdrs, head, bin, stamp, clock, head[i]); }
    forall c | c in bin2 ensures LinkOk(h2, hd2, bin2, st2, clock + 1, c) {
      if c != b {
        assert LinkOk(hdrs, head, bin, stamp, clock, c);
        var cp, cn := hdrs[c].prev, hdrs[c].next;
        if cp != 0 { assert LinkOk(hdrs, head, bin, stamp, clock, cp); }
        if cn != 0 { assert LinkOk(hdrs, head, bin, stamp, clock, cn); }
      }
    }
    forall j | 0 <= j < |hd2| ensures HeadOk(h2, hd2, bin2, j) {
      assert HeadOk(hdrs, head, bin, j);
    }
  }

  // ---------------------------------------------------------------------
  // The list that starts at b, as the traversal by the next links sees it.

  ghost function ListFrom(hdrs: map<nat, Hdr>, head: seq<nat>, bin: map<nat, nat>, stamp: map<nat, nat>, clock: nat,
        b: nat): seq<nat>
    requires Linked(hdrs, head, bin, stamp, clock) && (b == 0 || b in bin)
    decreases if b == 0 then 0 else 1 + (if b in stamp then stamp[b] else 0)
  {
    if b == 0 then [] else
      assert LinkOk(hdrs, head, bin, stamp, clock, b);
      [b] + ListFrom(hdrs, head, bin, stamp, clock, hdrs[b].next)
  }

  // Traversing list i from its head meets exactly the blocks that bin assigns to i,
  // each of them once.
  lemma ListIsBin(hdrs: map<nat, Hdr>, head: seq<nat>, bin: map<nat, nat>, stamp: map<nat, nat>, clock: nat, i: nat)
    requires Linked(hdrs, head, bin, stamp, clock) && i < |head|
    ensures head[i] == 0 || head[i] in bin
    ensures var list := ListFrom(hdrs, head, bin, stamp, clock, head[i]);
            && (forall b :: b in list <==> b in bin && bin[b] == i)
            && (forall j, k :: 0 <= j < k < |list| ==> list[j] != list[k])
  {
    assert HeadOk(hdrs, head, bin, i);
    var list := ListFrom(hdrs, head, bin, stamp, clock, head[i]);
    ListInBin(hdrs, head, bin, stamp, clock, head[i], i);
    forall b | b in bin && bin[b] == i ensures b in list {
      OnList(hdrs, head, bin, stamp, clock, b);
    }
  }

  lemma {:induction false} ListInBin(hdrs: map<nat, Hdr>, head: seq<nat>, bin: map<nat, nat>, stamp: map<nat, nat>,
        clock: nat, b: nat, i: nat)
    requires Linked(hdrs, head, bin, stamp, clock) && (b == 0 || (b in bin && bin[b] == i))
    ensures var list := ListFrom(hdrs, head, bin, stamp, clock, b);
            && (forall c :: c in list ==> c in bin && c in stamp && bin[c] == i && b in stamp && stamp[c] <= stamp[b])
            && (forall j, k :: 0 <= j < k < |list| ==> list[j] != list[k])
    decreases if b == 0 then 0 else 1 + (if b in stamp then stamp[b] else 0)
  {
    if b != 0 {
      assert LinkOk(hdrs, head, bin, stamp, clock, b);
      ListInBin(hdrs, head, bin, stamp, clock, hdrs[b].next, i);
    }
  }

  lemma {:induction false} OnList(hdrs: map<nat, Hdr>, head: seq<nat>, bin: map<nat, nat>, stamp: map<nat, nat>,
        clock: nat, b: nat)
    requires Linked(hdrs, head, bin, stamp, clock) && b in bin
    ensures bin[b] < |head| && (head[bin[b]] == 0 || head[bin[b]] in bin)
    ensures b in ListFrom(hdrs, head, bin, stamp, clock, head[bin[b]])
    decreases clock - (if b in stamp then stamp[b] else 0)
  {
    assert LinkOk(hdrs, head, bin, stamp, clock, b);
    var p := hdrs[b].prev;
    if p != 0 {
      assert LinkOk(hdrs, head, bin, stamp, clock, p);
      OnList(hdrs, head, bin, stamp, clock, p);
      NextOnList(hdrs, head, bin, stamp, clock, head[bin[b]], p);
    }
  }

  lemma {:induction false} NextOnList(hdrs: map<nat, Hdr>, head: seq<nat>, bin: map<nat, nat>, stamp: map<nat, nat>,
        clock: nat, b: nat, p: nat)
    requires Linked(hdrs, head, bin, stamp, clock) && (b == 0 || b in bin)
    requires p in hdrs && p in ListFrom(hdrs, head, bin, stamp, clock, b) && hdrs[p].next != 0
    ensures hdrs[p].next in ListFrom(hdrs, head, bin, stamp, clock, b)
    decreases if b == 0 then 0 else 1 + (if b in stamp then stamp[b] else 0)
  {
    if b != 0 {
      assert LinkOk(hdrs, head, bin, stamp, clock, b);
      if p != b {
        NextOnList(hdrs, head, bin, stamp, clock, hdrs[b].next, p);
      }
    }
  }

  // Between a block and its successor there is no block of the same list.
  lemma NextIsNearest(hdrs: map<nat, Hdr>, head: seq<nat>, bin: map<nat, nat>, stamp: map<nat, nat>, clock: nat,
        b: nat, c: nat)
    requires Linked(hdrs, head, bin, stamp, clock) && b in bin && c in bin && bin[c] == bin[b]
    requires b in hdrs && b in stamp && c in stamp && stamp[c] <= stamp[b] && b != c
    ensures var n := hdrs[b].next; n != 0 && n in stamp && stamp[c] <= stamp[n]
  {
    assert LinkOk(hdrs, head, bin, stamp, clock, b);
    OnList(hdrs, head, bin, stamp, clock, b);
    OnList(hdrs, head, bin, stamp, clock, c);
    assert HeadOk(hdrs, head, bin, bin[b]);
    Nearest(hdrs, head, bin, stamp, clock, head[bin[b]], b, c);
  }

  lemma {:induction false} Nearest(hdrs: map<nat, Hdr>, head: seq<nat>, bin: map<nat, nat>, stamp: map<nat, nat>,
        clock: nat, s: nat, b: nat, c: nat)
    requires Linked(hdrs, head, bin, stamp, clock) && (s == 0 || s in bin)
    requires b in hdrs && b in bin && b in stamp && c in stamp && stamp[c] <= stamp[b] && b != c
    requires b in ListFrom(hdrs, head, bin, stamp, clock, s) && c in ListFrom(hdrs, head, bin, stamp, clock, s)
    ensures var n := hdrs[b].next; n != 0 && n in stamp && stamp[c] <= stamp[n]
    decreases if s == 0 then 0 else 1 + (if s in stamp then stamp[s] else 0)
  {
    if s != 0 {
      assert LinkOk(hdrs, head, bin, stamp, clock, s);
      ListInBin(hdrs, head, bin, stamp, clock, hdrs[s].next, bin[s]);
      if s != b && s != c {
        Nearest(hdrs, head, bin, stamp, clock, hdrs[s].next, b, c);
      }
    }
  }

  lemma HeadIsNewest(hdrs: map<nat, Hdr>, head: seq<nat>, bin: map<nat, nat>, stamp: map<nat, nat>, clock: nat, c: nat)
    requires Linked(hdrs, head, bin, stamp, clock) && c in bin
    ensures bin[c] < |head| && head[bin[c]] != 0 && c in stamp && head[bin[c]] in stamp
            && stamp[c] <= stamp[head[bin[c]]]
  {
    assert LinkOk(hdrs, head, bin, stamp, clock, c);
    OnList(hdrs, head, bin, stamp, clock, c);
    assert HeadOk(hdrs, head, bin, bin[c]);
    ListInBin(hdrs, head, bin, stamp, clock, head[bin[c]], bin[c]);
  }

  // Putting n in the place of h.
  function Replaced(hdrs: map<nat, Hdr>, h: nat, n: nat, nhdr: Hdr): map<nat, Hdr>
    requires h in hdrs
  {
    var prev, next := hdrs[h].prev, hdrs[h].next;
    var h0 := hdrs[n := nhdr.(prev := prev, next := next)];
    var h1 := if prev != 0 && prev in h0 then h0[prev := h0[prev].(next := n)] else h0;
    if next != 0 && next in h1 then h1[next := h1[next].(prev := n)] else h1
  }

  lemma ReplaceLink(hdrs: map<nat, Hdr>, head: seq<nat>, bin: map<nat, nat>, stamp: map<nat, nat>, clock: nat,
        h: nat, n: nat, nhdr: Hdr, c: nat)
    requires Linked(hdrs, head, bin, stamp, clock) && h in bin && n !in bin && n != 0 && c in bin && c != h
    requires h in hdrs && h in stamp && bin[h] < |head|
    ensures LinkOk(Replaced(hdrs, h, n, nhdr), if hdrs[h].prev == 0 then head[bin[h] := n] else head,
                   (bin - {h})[n := bin[h]], stamp[n := stamp[h]], clock, c)
  {
    assert LinkOk(hdrs, head, bin, stamp, clock, h) && LinkOk(hdrs, head, bin, stamp, clock, c);
    var p, x := hdrs[h].prev, hdrs[h].next;
    if p != 0 { assert LinkOk(hdrs, head, bin, stamp, clock, p); }
    if x != 0 { assert LinkOk(hdrs, head, bin, stamp, clock, x); }
    if hdrs[c].prev != 0 { assert LinkOk(hdrs, head, bin, stamp, clock, hdrs[c].prev); }
    if hdrs[c].next != 0 { assert LinkOk(hdrs, head, bin, stamp, clock, hdrs[c].next); }
  }

  lemma ReplaceKeeps(hdrs: map<nat, Hdr>, head: seq<nat>, bin: map<nat, nat>, stamp: map<nat, nat>, clock: nat,
        h: nat, n: nat, nhdr: Hdr)
    requires Linked(hdrs, head, bin, stamp, clock) && h in bin && n !in bin && n != 0
    ensures h in hdrs && h in stamp && bin[h] < |head|
    ensures Linked(Replaced(hdrs, h, n, nhdr), if hdrs[h].prev == 0 then head[bin[h] := n] else head,
                   (bin - {h})[n := bin[h]], stamp[n := stamp[h]], clock)
  {
    assert LinkOk(hdrs, head, bin, stamp, clock, h);
    var p, x := hdrs[h].prev, hdrs[h].next;
    var h2, hd2 := Replaced(hdrs, h, n, nhdr), if p == 0 then head[bin[h] := n] else head;
    var bin2, st2 := (bin - {h})[n := bin[h]], stamp[n := stamp[h]];
    assert LinkOk(h2, hd2, bin2, st2, clock, n) by {
      if p != 0 { assert LinkOk(hdrs, head, bin, stamp, clock, p); }
      if x != 0 { assert LinkOk(hdrs, head, bin, stamp, clock, x); }
    }
    forall c | c in bin2 ensures LinkOk(h2, hd2, bin2, st2, clock, c) {
      if c != n { ReplaceLink(hdrs, head, bin, stamp, clock, h, n, nhdr, c); }
    }
    forall j | 0 <= j < |hd2| ensures HeadOk(h2, hd2, bin2, j) {
      assert HeadOk(hdrs, head, bin, j);
      if head[j] != 0 { assert LinkOk(hdrs, head, bin, stamp, clock, head[j]); }
    }
  }
}
