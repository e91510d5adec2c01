/** What the greedy third pass of pmm_init puts on the free lists: exactly the
    maximal aligned runs of non-reserved pages inside one memory-map entry. */
module BuddyInit {
  import opened Dyadic
  import opened BuddySpec

  datatype MapEntry = MapEntry(base: nat, length: nat, usable: bool)

  /** Pages lo .. hi-1. */
  datatype Region = Region(lo: nat, hi: nat)

  /** Whole pages of a map entry above the first megabyte. */
  function Clip(e: MapEntry): (r: Region)
    ensures r.lo >= 256
    ensures e.base <= r.lo * 4096 && r.hi * 4096 <= e.base + e.length
  {
    var base := (e.base + 4095) / 4096;
    Region(if base < 256 then 256 else base, (e.base + e.length) / 4096)
  }

  ghost predicate InRegion(r: Region, q: nat) {
    r.lo <= q < r.hi
  }

  ghost predicate Avail(reserved: seq<bool>, r: Region, q: nat) {
    InRegion(r, q) && q < |reserved| && !reserved[q]
  }

  /** An aligned run of 2^k available pages. */
  ghost predicate Fits(reserved: seq<bool>, r: Region, p: nat, k: nat) {
    Aligned(p, k) && forall q: nat :: InRun(q, Block(p, k)) ==> Avail(reserved, r, q)
  }

  ghost predicate Maximal(reserved: seq<bool>, r: Region, p: nat, k: nat) {
    && k <= MAX_ORDER
    && Fits(reserved, r, p, k)
    && (k < MAX_ORDER ==> !Fits(reserved, r, Down(p, k + 1), k + 1))
  }

  ghost predicate Disjoint(regions: seq<Region>) {
    forall i, j, q :: 0 <= i < |regions| && 0 <= j < |regions| && InRegion(regions[i], q) && InRegion(regions[j], q)
      ==> i == j
  }

  ghost predicate MaximalIn(reserved: seq<bool>, regions: seq<Region>, p: nat, k: nat) {
    exists i :: 0 <= i < |regions| && Maximal(reserved, regions[i], p, k)
  }

  /** The lists hold exactly the maximal runs of the given regions. */
  ghost predicate HoldsMaximal(lists: Lists, reserved: seq<bool>, regions: seq<Region>) {
    && |lists| == MAX_ORDER + 1
    && (forall k: nat, p: nat :: k <= MAX_ORDER ==> (p in lists[k] <==> MaximalIn(reserved, regions, p, k)))
  }

  lemma FitsBelow(reserved: seq<bool>, r: Region, q: nat, j: nat, k: nat)
    requires j <= k && Fits(reserved, r, Down(q, k), k)
    ensures Fits(reserved, r, Down(q, j), j)
  {
    DownDown(q, j, j);
    forall x: nat | InRun(x, Block(Down(q, j), j))
      ensures Avail(reserved, r, x)
    {
      RunMembers(x, Down(q, j), j);
      DownDown(x, j, k);
      DownDown(q, j, k);
      assert InRun(x, Block(Down(q, k), k));
    }
  }

  /** No fitting run around a page is larger than its maximal run. */
  lemma MaximalIsLargest(reserved: seq<bool>, r: Region, q: nat, j: nat, k: nat)
    requires Maximal(reserved, r, Down(q, j), j) && Fits(reserved, r, Down(q, k), k) && k <= MAX_ORDER
    ensures k <= j
  {
    DownDown(q, j, j + 1);
    if j < k {
      FitsBelow(reserved, r, q, j + 1, k);
    }
  }

  /** Every available page lies in a maximal run. */
  lemma {:induction false} SomeMaximal(reserved: seq<bool>, r: Region, q: nat, k: nat) returns (j: nat)
    requires k <= MAX_ORDER && Fits(reserved, r, Down(q, k), k)
    ensures j <= MAX_ORDER && Maximal(reserved, r, Down(q, j), j)
    decreases MAX_ORDER - k
  {
    DownDown(q, k, k + 1);
    if k < MAX_ORDER && Fits(reserved, r, Down(q, k + 1), k + 1) {
      j := SomeMaximal(reserved, r, q, k + 1);
    } else {
      j := k;
    }
  }

  ghost predicate AvailIn(reserved: seq<bool>, regions: seq<Region>, q: nat) {
    exists i :: 0 <= i < |regions| && Avail(reserved, regions[i], q)
  }

  ghost function UsablePages(reserved: seq<bool>, regions: seq<Region>): set<nat> {
    set q | 0 <= q < |reserved| && AvailIn(reserved, regions, q)
  }

  lemma MaximalOneOwner(reserved: seq<bool>, regions: seq<Region>, q: nat, j: nat, k: nat)
    requires Disjoint(regions)
    requires MaximalIn(reserved, regions, Down(q, j), j) && MaximalIn(reserved, regions, Down(q, k), k)
    ensures j == k
  {
    var a :| 0 <= a < |regions| && Maximal(reserved, regions[a], Down(q, j), j);
    var b :| 0 <= b < |regions| && Maximal(reserved, regions[b], Down(q, k), k);
    assert InRun(q, Block(Down(q, j), j)) && InRun(q, Block(Down(q, k), k));
    assert Avail(reserved, regions[a], q) && Avail(reserved, regions[b], q);
    MaximalIsLargest(reserved, regions[a], q, j, k);
    MaximalIsLargest(reserved, regions[a], q, k, j);
  }

  lemma AvailIsCovered(reserved: seq<bool>, regions: seq<Region>, q: nat) returns (k: nat)
    requires AvailIn(reserved, regions, q)
    ensures k <= MAX_ORDER && MaximalIn(reserved, regions, Down(q, k), k)
  {
    var i :| 0 <= i < |regions| && Avail(reserved, regions[i], q);
    assert Fits(reserved, regions[i], Down(q, 0), 0);
    k := SomeMaximal(reserved, regions[i], q, 0);
  }

  lemma CoveredIsAvail(reserved: seq<bool>, regions: seq<Region>, q: nat, k: nat)
    requires MaximalIn(reserved, regions, Down(q, k), k)
    ensures AvailIn(reserved, regions, q)
  {
  }

  /** The maximal runs tile the usable pages: each page is covered exactly once. */
  lemma MaximalRunsTile(lists: Lists, reserved: seq<bool>, regions: seq<Region>)
    requires HoldsMaximal(lists, reserved, regions) && Disjoint(regions)
    ensures Tiling(FreeBlocks(lists), UsablePages(reserved, regions))
  {
    var blocks := FreeBlocks(lists);
    forall b | b in blocks
      ensures b.order <= MAX_ORDER && Aligned(b.pfn, b.order)
    {
      FreeMember(lists, b.order, b.pfn);
    }
    forall q: nat, k: nat
      ensures Owns(blocks, q, k) <==> k <= MAX_ORDER && MaximalIn(reserved, regions, Down(q, k), k)
    {
      if k <= MAX_ORDER {
        FreeMember(lists, k, Down(q, k));
      }
    }
    hide Maximal, MaximalIn, Avail, Down, FreeBlocks, HoldsMaximal, Disjoint;
    forall q: nat
      ensures OneOwner(blocks, q)
      ensures q in UsablePages(reserved, regions) <==> Owned(blocks, q)
    {
      forall j: nat, k: nat | Owns(blocks, q, j) && Owns(blocks, q, k)
        ensures j == k
      {
        MaximalOneOwner(reserved, regions, q, j, k);
      }
      if AvailIn(reserved, regions, q) {
        var k := AvailIsCovered(reserved, regions, q);
        assert Owns(blocks, q, k);
        AvailInRange(reserved, regions, q);
      }
      if Owned(blocks, q) {
        var k: nat :| k <= MAX_ORDER && Owns(blocks, q, k);
        CoveredIsAvail(reserved, regions, q, k);
        AvailInRange(reserved, regions, q);
      }
    }
  }

  lemma AvailInRange(reserved: seq<bool>, regions: seq<Region>, q: nat)
    requires AvailIn(reserved, regions, q)
    ensures q < |reserved|
  {
  }

  /** Two buddies, each inside one entry but not both inside the same one. */
  ghost predicate Seam(reserved: seq<bool>, regions: seq<Region>, i: int, j: int, p: nat, k: nat) {
    && 0 <= i < |regions| && 0 <= j < |regions| && i != j
    && k < MAX_ORDER && Aligned(p, k)
    && Fits(reserved, regions[i], p, k)
    && Fits(reserved, regions[j], Buddy(p, k), k)
  }

  /** The start-up lists are coalesced exactly when no buddy pair is split
      between two memory-map entries. */
  lemma CoalescedIffNoSeam(lists: Lists, reserved: seq<bool>, regions: seq<Region>)
    requires HoldsMaximal(lists, reserved, regions) && Disjoint(regions)
    ensures Coalesced(lists) <==> !exists i, j, p: nat, k: nat :: Seam(reserved, regions, i, j, p, k)
  {
    if i, j, p: nat, k: nat :| Seam(reserved, regions, i, j, p, k) {
      BuddyFacts(p, k);
      SeamHalfIsMaximal(reserved, regions, i, j, p, k);
      SeamHalfIsMaximal(reserved, regions, j, i, Buddy(p, k), k);
      assert p in lists[k] && Buddy(p, k) in lists[k];
      assert Siblings(p, Buddy(p, k), k);
    }
    if !Coalesced(lists) {
      var k: nat, p, q :| k < MAX_ORDER && p in lists[k] && q in lists[k] && p != q && Siblings(p, q, k);
      var i :| 0 <= i < |regions| && Maximal(reserved, regions[i], p, k);
      var j :| 0 <= j < |regions| && Maximal(reserved, regions[j], q, k);
      OnlySibling(p, q, k);
      if i == j {
        TwoHalvesFit(reserved, regions[i], p, k);
        assert false;
      }
      assert Seam(reserved, regions, i, j, p, k);
    }
  }

  lemma SeamHalfIsMaximal(reserved: seq<bool>, regions: seq<Region>, i: int, j: int, p: nat, k: nat)
    requires Disjoint(regions) && Seam(reserved, regions, i, j, p, k)
    ensures Maximal(reserved, regions[i], p, k)
  {
    var b := Buddy(p, k);
    BuddyFacts(p, k);
    assert InRun(b, Block(b, k));
    assert Avail(reserved, regions[j], b);
    assert !Avail(reserved, regions[i], b);
    assert InRun(b, Block(Down(p, k + 1), k + 1));
  }

  lemma TwoHalvesFit(reserved: seq<bool>, r: Region, p: nat, k: nat)
    requires Aligned(p, k) && Fits(reserved, r, p, k) && Fits(reserved, r, Buddy(p, k), k)
    ensures Fits(reserved, r, Down(p, k + 1), k + 1)
  {
    BuddyFacts(p, k);
    DownDown(p, k + 1, k + 1);
    Halves(p, k);
    forall q: nat | InRun(q, Block(Down(p, k + 1), k + 1))
      ensures Avail(reserved, r, q)
    {
      assert InRun(q, Block(p, k)) || InRun(q, Block(Buddy(p, k), k));
    }
  }

  lemma SeamTouches(reserved: seq<bool>, regions: seq<Region>, i: int, j: int, p: nat, k: nat)
    requires Disjoint(regions) && Seam(reserved, regions, i, j, p, k) && p < Buddy(p, k)
    ensures regions[i].hi == regions[j].lo
  {
    BuddyFacts(p, k);
    Halves(p, k);
    var m := p + Pow2(k);
    assert InRun(m - 1, Block(p, k)) && InRun(m, Block(m, k));
    assert Avail(reserved, regions[i], m - 1) && Avail(reserved, regions[j], m);
    assert !InRegion(regions[j], m - 1) && !InRegion(regions[i], m);
  }

  /** Entries that do not touch have no seam. */
  lemma GapsMeanNoSeam(reserved: seq<bool>, regions: seq<Region>, i: int, j: int, p: nat, k: nat)
    requires Disjoint(regions)
    requires forall a, b :: 0 <= a < |regions| && 0 <= b < |regions| ==> regions[a].hi != regions[b].lo
    ensures !Seam(reserved, regions, i, j, p, k)
  {
    if Seam(reserved, regions, i, j, p, k) {
      BuddyFacts(p, k);
      Halves(p, k);
      var b := Buddy(p, k);
      if p < b {
        SeamTouches(reserved, regions, i, j, p, k);
      } else {
        SeamTouches(reserved, regions, j, i, b, k);
      }
    }
  }

  // --- The scan of one region ---------------------------------------------------

  /** No fitting run that starts before pfn reaches past it. */
  ghost predicate Boundary(reserved: seq<bool>, r: Region, pfn: nat) {
    forall p: nat, k: nat :: p < pfn && k <= MAX_ORDER && Fits(reserved, r, p, k) ==> p + Pow2(k) <= pfn
  }

  /** Order k is the largest that fits at pfn. */
  ghost predicate Largest(reserved: seq<bool>, r: Region, pfn: nat, k: nat) {
    && k <= MAX_ORDER
    && Fits(reserved, r, pfn, k)
    && (forall j: nat :: k < j <= MAX_ORDER ==> !Fits(reserved, r, pfn, j))
  }

  lemma FirstIsInRun(p: nat, k: nat)
    ensures InRun(p, Block(p, k))
  {
  }

  lemma BoundarySkip(reserved: seq<bool>, r: Region, pfn: nat)
    requires Boundary(reserved, r, pfn) && !Avail(reserved, r, pfn)
    ensures Boundary(reserved, r, pfn + 1)
  {
  }

  /** The largest run at a boundary is maximal, and the boundary moves past it. */
  lemma BoundaryTake(reserved: seq<bool>, r: Region, pfn: nat, k: nat)
    requires Boundary(reserved, r, pfn) && Largest(reserved, r, pfn, k)
    ensures Maximal(reserved, r, pfn, k)
    ensures Boundary(reserved, r, pfn + Pow2(k))
  {
    forall p: nat, j: nat | p < pfn + Pow2(k) && j <= MAX_ORDER && Fits(reserved, r, p, j)
      ensures p + Pow2(j) <= pfn + Pow2(k)
    {
      if pfn <= p {
        RunInRun(p, j, pfn, k);
      }
    }
    assert Down(pfn, k + 1) == pfn || Down(pfn, k + 1) < pfn;
  }

  /** An aligned run that starts inside another ends inside it, unless it is
      larger and starts at the same page. */
  lemma RunInRun(p: nat, j: nat, b: nat, k: nat)
    requires Aligned(p, j) && Aligned(b, k) && b <= p < b + Pow2(k)
    ensures j <= k ==> p + Pow2(j) <= b + Pow2(k)
    ensures j > k ==> p == b
  {
    RunMembers(p, b, k);
    if j <= k {
      var last := p + Pow2(j) - 1;
      RunMembers(last, p, j);
      DownDown(p, j, k);
      DownDown(last, j, k);
      RunMembers(last, b, k);
    } else {
      AlignedBelow(p, k, j);
    }
  }

  /** A maximal run that starts inside a scanned block is that block. */
  lemma MaximalStarts(reserved: seq<bool>, r: Region, pfn: nat, k: nat, p: nat, j: nat)
    requires Maximal(reserved, r, pfn, k) && Maximal(reserved, r, p, j) && pfn <= p < pfn + Pow2(k)
    ensures p == pfn && j == k
  {
    RunMembers(p, pfn, k);
    MaximalIsLargest(reserved, r, p, j, k);
    MaximalIsLargest(reserved, r, p, k, j);
  }

  function Regions(entries: seq<MapEntry>): (rs: seq<Region>)
    ensures forall i :: 0 <= i < |rs| ==> rs[i].lo >= 256
  {
    if entries == [] then []
    else Regions(entries[..|entries| - 1]) +
         (if entries[|entries| - 1].usable then [Clip(entries[|entries| - 1])] else [])
  }

  /** The lists hold the maximal runs of the regions done and, of region r,
      those that start before pfn. */
  ghost predicate Holding(lists: Lists, reserved: seq<bool>, done: seq<Region>, r: Region, pfn: nat) {
    && |lists| == MAX_ORDER + 1
    && (forall k: nat, p: nat :: k <= MAX_ORDER ==>
          (p in lists[k] <==> MaximalIn(reserved, done, p, k) || (p < pfn && Maximal(reserved, r, p, k))))
  }

  lemma MaximalStartAvail(reserved: seq<bool>, r: Region, p: nat, k: nat)
    requires Maximal(reserved, r, p, k)
    ensures Avail(reserved, r, p)
  {
  }

  lemma HoldingStart(lists: Lists, reserved: seq<bool>, done: seq<Region>, r: Region)
    requires HoldsMaximal(lists, reserved, done)
    ensures Holding(lists, reserved, done, r, r.lo)
    ensures Boundary(reserved, r, r.lo)
  {
    forall k: nat, p: nat | Fits(reserved, r, p, k)
      ensures p >= r.lo
    {
      FirstIsInRun(p, k);
    }
  }

  lemma HoldingEnd(lists: Lists, reserved: seq<bool>, done: seq<Region>, r: Region, pfn: nat)
    requires Holding(lists, reserved, done, r, pfn) && pfn >= r.hi
    ensures HoldsMaximal(lists, reserved, done + [r])
  {
    var all := done + [r];
    forall k: nat, p: nat | k <= MAX_ORDER
      ensures p in lists[k] <==> MaximalIn(reserved, all, p, k)
    {
      if Maximal(reserved, r, p, k) {
        MaximalStartAvail(reserved, r, p, k);
        assert Maximal(reserved, all[|done|], p, k);
      }
      if MaximalIn(reserved, done, p, k) {
        var i :| 0 <= i < |done| && Maximal(reserved, done[i], p, k);
        assert Maximal(reserved, all[i], p, k);
      }
    }
  }

  lemma HoldingSkip(lists: Lists, reserved: seq<bool>, done: seq<Region>, r: Region, pfn: nat)
    requires Holding(lists, reserved, done, r, pfn) && !Avail(reserved, r, pfn)
    ensures Holding(lists, reserved, done, r, pfn + 1)
  {
  }

  lemma HoldingTake(lists: Lists, reserved: seq<bool>, done: seq<Region>, r: Region, pfn: nat, k: nat)
    requires Holding(lists, reserved, done, r, pfn) && Maximal(reserved, r, pfn, k)
    requires Disjoint(done + [r])
    ensures forall o: nat :: o <= MAX_ORDER ==> pfn !in lists[o]
    ensures Holding(Push(lists, k, pfn), reserved, done, r, pfn + Pow2(k))
  {
    MaximalStartAvail(reserved, r, pfn, k);
    forall o: nat | o <= MAX_ORDER
      ensures pfn !in lists[o]
    {
      NotInDone(reserved, done, r, pfn, o);
    }
    forall j: nat, p: nat | pfn <= p < pfn + Pow2(k) && Maximal(reserved, r, p, j)
      ensures p == pfn && j == k
    {
      MaximalStarts(reserved, r, pfn, k, p, j);
    }
  }

  lemma NotInDone(reserved: seq<bool>, done: seq<Region>, r: Region, p: nat, k: nat)
    requires Disjoint(done + [r]) && Avail(reserved, r, p)
    ensures !MaximalIn(reserved, done, p, k)
  {
    var all := done + [r];
    forall i | 0 <= i < |done|
      ensures !Maximal(reserved, done[i], p, k)
    {
      assert all[i] == done[i] && all[|done|] == r;
      assert InRegion(all[|done|], p);
      assert InRegion(all[i], p) ==> i == |done|;
      FirstIsInRun(p, k);
    }
  }

  // --- Two adjacent entries of one page -----------------------------------------------------------

  function TwoEntries(): seq<MapEntry> {
    [MapEntry(0x100000, 4096, true), MapEntry(0x101000, 4096, true)]
  }

  lemma OnePageFits(reserved: seq<bool>, r: Region, p: nat, k: nat)
    requires r.hi == r.lo + 1 && k > 0
    ensures !Fits(reserved, r, p, k)
  {
    assert Pow2(k) >= 2;
    assert Fits(reserved, r, p, k) ==> InRun(p, Block(p, k)) && InRun(p + 1, Block(p, k));
  }

  lemma OnePageIsMaximal(reserved: seq<bool>, r: Region)
    requires r.hi == r.lo + 1 && r.lo < |reserved| && !reserved[r.lo]
    ensures Maximal(reserved, r, r.lo, 0)
  {
    OnePageFits(reserved, r, Down(r.lo, 1), 1);
  }

  /** Start-up leaves both pages on the order-0 list: an allocation of two pages fails
      although the aligned pair is free. */
  lemma SeamFails(lists: Lists, reserved: seq<bool>)
    requires |reserved| >= 258 && !reserved[256] && !reserved[257]
    requires HoldsMaximal(lists, reserved, Regions(TwoEntries()))
    ensures Seam(reserved, Regions(TwoEntries()), 0, 1, 256, 0)
    ensures FirstOrder(lists, 1) > MAX_ORDER && FreeRun(lists, 256, 1)
  {
    var a, b := Region(256, 257), Region(257, 258);
    RegionsOfTwo();
    var rs := Regions(TwoEntries());
    assert rs[0] == a && rs[1] == b;
    OnePageIsMaximal(reserved, a);
    OnePageIsMaximal(reserved, b);
    assert 256 in lists[0] && 257 in lists[0];
    forall k: nat | 0 < k <= MAX_ORDER
      ensures lists[k] == []
    {
      if lists[k] != [] {
        var p := lists[k][0];
        assert p in lists[k] && MaximalIn(reserved, rs, p, k);
        OnePageFits(reserved, a, p, k);
        OnePageFits(reserved, b, p, k);
      }
    }
    NoneAbove(lists, 1);
    FreeMember(lists, 0, 256);
    FreeMember(lists, 0, 257);
    assert Owns(FreeBlocks(lists), 256, 0) && Owns(FreeBlocks(lists), 257, 0);
  }

  lemma RegionsOfTwo()
    ensures Regions(TwoEntries()) == [Region(256, 257), Region(257, 258)]
  {
    var e := TwoEntries();
    assert e[..1] == [e[0]] && e[..1][..0] == [];
  }

  lemma {:induction false} NoneAbove(lists: Lists, k: nat)
    requires |lists| == MAX_ORDER + 1 && k <= MAX_ORDER + 1
    requires forall j: nat :: k <= j <= MAX_ORDER ==> lists[j] == []
    ensures FirstOrder(lists, k) > MAX_ORDER
    decreases MAX_ORDER + 1 - k
  {
    if k <= MAX_ORDER {
      NoneAbove(lists, k + 1);
    }
  }
}
