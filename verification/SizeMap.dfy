// The size map: for each small size in bytes, the size in granules, of 16 bytes, of the
// objects that serve it, filled in on demand.
module SizeMap {

  const TINY_FREELISTS: nat := 25
  const MAXOBJBYTES: nat := 2048
  const MAXOBJGRANULES: nat := 128
  const HBLK_GRANULES: nat := 256

  function RoundedUpGranules(lb: nat, extra: nat): nat { (lb + 15 + extra) / 16 }

  function Even(n: nat): nat { n - n % 2 }

  // An entry is large enough for its size and one extra byte, if that is wanted. Beyond
  // the tiny sizes it is even, and the largest even size of which as many objects fit in
  // a block.
  predicate EntryOk(m: seq<nat>, extra: nat, j: nat) {
    j < |m| && m[j] != 0 ==>
      && 16 * m[j] >= j + extra && m[j] <= MAXOBJGRANULES
      && (16 * (TINY_FREELISTS - 1) < j + extra ==> m[j] % 2 == 0 && HBLK_GRANULES / (m[j] + 2) < HBLK_GRANULES / m[j])
  }

  // The filled entries that end at n, where the next entry is not filled, are at least a
  // quarter of those up to n.
  predicate SectionOk(m: seq<nat>, n: nat, j: nat) {
    n < |m| && m[n] != 0 && (n + 1 < |m| ==> m[n + 1] == 0) && j <= n && 4 * (n - j) < n ==> m[j] != 0
  }

  ghost predicate MapOk(m: seq<nat>, extra: nat) {
    && |m| == MAXOBJBYTES + 1 && extra <= 1
    && (forall j: nat {:trigger EntryOk(m, extra, j)} :: EntryOk(m, extra, j))
    && (forall n: nat, j: nat {:trigger SectionOk(m, n, j)} :: SectionOk(m, n, j))
    && (forall j {:trigger m[j]} :: 0 <= j <= 16 * (TINY_FREELISTS - 1) - extra ==> m[j] != 0)
  }

  // An even number of granules, as large as the number of objects in a block permits.
  function Fitting(granules: nat): nat
    requires granules > 0
  {
    var even := if Even(granules + 1) > MAXOBJGRANULES then MAXOBJGRANULES else Even(granules + 1);
    Even(HBLK_GRANULES / (HBLK_GRANULES / even))
  }

  lemma FittingOk(granules: nat, least: nat)
    requires 24 < least <= granules && least <= MAXOBJGRANULES
    ensures var g := Fitting(granules);
            least <= g <= MAXOBJGRANULES && g % 2 == 0 && HBLK_GRANULES / (g + 2) < HBLK_GRANULES / g
  {
    var even := if Even(granules + 1) > MAXOBJGRANULES then MAXOBJGRANULES else Even(granules + 1);
    SameNumber(even, HBLK_GRANULES / even, Fitting(granules));
  }

  // A block holds n objects of g granules, and as many of g2.
  lemma SameNumber(g: nat, n: nat, g2: nat)
    requires 24 < g <= MAXOBJGRANULES && g % 2 == 0 && n == HBLK_GRANULES / g && g2 == Even(HBLK_GRANULES / n)
    ensures n >= 2 && g <= g2 <= MAXOBJGRANULES && g2 % 2 == 0
    ensures HBLK_GRANULES / g2 == n && HBLK_GRANULES / (g2 + 2) < n
  {
    DivBounds(HBLK_GRANULES, g);
    CountBounds(g, n);
    LargestFor(g, n, g2);
  }

  lemma DivBounds(a: nat, d: nat)
    requires 0 < d
    ensures (a / d) * d <= a < (a / d) * d + d
  {
  }

  lemma CountBounds(g: nat, n: nat)
    requires 26 <= g <= MAXOBJGRANULES && n * g <= HBLK_GRANULES < n * g + g
    ensures 2 <= n <= 9
  {
    Times(n, 1, g);
    Times(10, n, g);
  }

  lemma Times(a: nat, b: nat, g: nat)
    ensures a <= b ==> a * g <= b * g
  {
  }

  // For each number of objects, the largest even size.
  lemma LargestFor(g: nat, n: nat, g2: nat)
    requires 2 <= n <= 9 && n * g <= HBLK_GRANULES && g % 2 == 0 && g2 == Even(HBLK_GRANULES / n)
    ensures g <= g2 <= MAXOBJGRANULES && g2 % 2 == 0
    ensures HBLK_GRANULES / g2 == n && HBLK_GRANULES / (g2 + 2) < n
  {
    if n == 2 {} else if n == 3 {} else if n == 4 {} else if n == 5 {} else if n == 6 {} else if n == 7 {}
        else if n == 8 {} else {}
  }

  // m2 is m with the entries from low to high set to g.
  predicate Filled(m: seq<nat>, m2: seq<nat>, low: nat, high: nat, g: nat) {
    |m2| == |m| && forall j {:trigger m2[j]} :: 0 <= j < |m| ==> m2[j] == if low <= j <= high then g else m[j]
  }

  // Filling upwards from an unfilled entry that starts the map's quarter below high, or
  // that follows a filled entry.
  lemma FillKeeps(m: seq<nat>, m2: seq<nat>, extra: nat, low: nat, high: nat, g: nat)
    requires MapOk(m, extra) && Filled(m, m2, low, high, g)
    requires 16 * (TINY_FREELISTS - 1) < low + extra && low <= high < |m| && m[low] == 0 && g != 0
             && 16 * g == high + extra
    requires g <= MAXOBJGRANULES && g % 2 == 0 && HBLK_GRANULES / (g + 2) < HBLK_GRANULES / g
    requires m[low - 1] != 0 || 4 * low <= 3 * (high + extra)
    ensures MapOk(m2, extra)
  {
    forall j: nat ensures EntryOk(m2, extra, j) { assert EntryOk(m, extra, j); }
    forall n: nat, j: nat ensures SectionOk(m2, n, j) {
      assert SectionOk(m, n, j);
      assert SectionOk(m, low - 1, j);
    }
  }

  // The first entry from low on that is not filled.
  function FirstFree(m: seq<nat>, low: nat): (r: nat)
    ensures low <= r && (low <= |m| ==> r <= |m|) && (r < |m| ==> m[r] == 0)
    ensures forall j :: low <= j < r && j < |m| ==> m[j] != 0
    decreases |m| - low
  {
    if low >= |m| || m[low] == 0 then low else FirstFree(m, low + 1)
  }

  function MuchBelow(bytes: nat): nat { bytes - bytes / 4 }

  function JustBelow(bytes: nat): nat { bytes - bytes / 8 }

  function Larger(granules: nat): nat { granules + granules / 8 }

  // From where to fill the map to serve i, and for how many granules: close to i where
  // entries just below it are filled, and further down where they are not.
  function Choice(m: seq<nat>, i: nat, extra: nat): (nat, nat) {
    var orig := RoundedUpGranules(i, extra);
    if JustBelow(16 * orig) < |m| && m[JustBelow(16 * orig)] != 0 then
      var low := FirstFree(m, JustBelow(16 * orig) + 1);
      var wanted := Larger(RoundedUpGranules(low, extra));
      (low, if wanted < orig then orig else wanted)
    else (FirstFree(m, MuchBelow(16 * orig)), orig)
  }

  // m2 is m, extended for i.
  predicate Extended(m: seq<nat>, m2: seq<nat>, i: nat, extra: nat) {
    var (low, wanted) := Choice(m, i, extra);
    wanted > 0 && 16 * Fitting(wanted) >= extra && Filled(m, m2, low, 16 * Fitting(wanted) - extra, Fitting(wanted))
  }

  lemma Below(i: nat, extra: nat)
    requires 16 * (TINY_FREELISTS - 1) < i + extra <= MAXOBJBYTES && extra <= 1
    ensures var orig := RoundedUpGranules(i, extra);
            && 24 < orig <= MAXOBJGRANULES && i + extra <= 16 * orig <= i + extra + 15
            && MuchBelow(16 * orig) <= i && JustBelow(16 * orig) < i
            && 4 * MuchBelow(16 * orig) == 48 * orig
  {
  }

  lemma ChoiceOk(m: seq<nat>, i: nat, extra: nat)
    requires MapOk(m, extra) && i + extra <= MAXOBJBYTES && m[i] == 0
    ensures var (low, wanted) := Choice(m, i, extra); var orig := RoundedUpGranules(i, extra);
            && 24 < orig <= wanted && orig <= MAXOBJGRANULES && i + extra <= 16 * orig
            && low <= i && m[low] == 0 && 16 * (TINY_FREELISTS - 1) < low + extra
            && (m[low - 1] != 0 || low == MuchBelow(16 * orig))
  {
    Below(i, extra);
  }

  lemma ExtendedOk(m: seq<nat>, m2: seq<nat>, i: nat, extra: nat)
    requires MapOk(m, extra) && i + extra <= MAXOBJBYTES && m[i] == 0 && Extended(m, m2, i, extra)
    ensures MapOk(m2, extra) && m2[i] != 0
  {
    ChoiceOk(m, i, extra);
    Below(i, extra);
    var (low, wanted) := Choice(m, i, extra);
    FittingOk(wanted, RoundedUpGranules(i, extra));
    FillKeeps(m, m2, extra, low, 16 * Fitting(wanted) - extra, Fitting(wanted));
  }

  class Map {
    const extra: nat
    const sizes: array<nat>

    ghost predicate Valid()
      reads this, sizes
    {
      MapOk(sizes[..], extra)
    }

    constructor (allInterior: bool)
      ensures Valid() && fresh(sizes) && extra == if allInterior then 1 else 0
      ensures forall j :: 0 <= j <= MAXOBJBYTES ==> (sizes[j] != 0 <==> j + extra <= 16 * (TINY_FREELISTS - 1))
    {
      extra := if allInterior then 1 else 0;
      sizes := new nat[MAXOBJBYTES + 1](_ => 0);
      new;
      sizes[0] := 1;
      var i := 1;
      while i <= 16 * (TINY_FREELISTS - 1) - extra
        invariant 1 <= i <= 16 * (TINY_FREELISTS - 1) - extra + 1
        invariant sizes[0] == 1
        invariant forall j :: 0 < j < i ==> sizes[j] == RoundedUpGranules(j, extra)
        invariant forall j :: i <= j <= MAXOBJBYTES ==> sizes[j] == 0
      {
        sizes[i] := RoundedUpGranules(i, extra);
        i := i + 1;
      }
    }

    // GC_extend_size_map, for a small size without an entry.
    method Extend(i: nat)
      requires Valid() && i + extra <= MAXOBJBYTES && sizes[i] == 0
      modifies sizes
      ensures Valid() && sizes[i] != 0 && Extended(old(sizes[..]), sizes[..], i, extra)
    {
      ghost var m := sizes[..];
      ChoiceOk(m, i, extra);
      var low, granules := Choose(i);
      FittingOk(granules, RoundedUpGranules(i, extra));
      granules := Round(granules);
      Fill(low, 16 * granules - extra, granules);
      ExtendedOk(m, sizes[..], i, extra);
    }

    // From where to fill the map, and for how many granules.
    method Choose(i: nat) returns (low: nat, granules: nat)
      requires Valid() && i + extra <= MAXOBJBYTES && sizes[i] == 0
      ensures (low, granules) == Choice(sizes[..], i, extra)
    {
      ChoiceOk(sizes[..], i, extra);
      Below(i, extra);
      var orig := RoundedUpGranules(i, extra);
      if sizes[JustBelow(16 * orig)] == 0 {
        low := FirstUnfilled(MuchBelow(16 * orig), i);
        granules := orig;
      } else {
        low := FirstUnfilled(JustBelow(16 * orig) + 1, i);
        granules := Larger(RoundedUpGranules(low, extra));
        if granules < orig { granules := orig; }
      }
    }

    static method Round(granules: nat) returns (g: nat)
      requires granules > 0
      ensures g == Fitting(granules)
    {
      g := Even(granules + 1);
      if g > MAXOBJGRANULES { g := MAXOBJGRANULES; }
      var number := HBLK_GRANULES / g;
      g := Even(HBLK_GRANULES / number);
    }

    method FirstUnfilled(start: nat, i: nat) returns (low: nat)
      requires start <= i <= MAXOBJBYTES && sizes.Length == MAXOBJBYTES + 1 && sizes[i] == 0
      ensures start <= low <= i && sizes[low] == 0 && low == FirstFree(sizes[..], start)
    {
      low := start;
      while sizes[low] != 0
        decreases i - low
        invariant start <= low <= i && forall j :: start <= j < low ==> sizes[j] != 0
      {
        low := low + 1;
      }
    }

    method Fill(low: nat, high: nat, g: nat)
      requires low <= high < sizes.Length
      modifies sizes
      ensures Filled(old(sizes[..]), sizes[..], low, high, g)
    {
      var k := low;
      while k <= high
        invariant low <= k <= high + 1
        invariant forall j :: 0 <= j < sizes.Length ==> sizes[j] == if low <= j < k then g else old(sizes[j])
      {
        sizes[k] := g;
        k := k + 1;
      }
    }
  }
}
