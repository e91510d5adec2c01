/** The buddy allocator of kernel/mm/pmm.c as it runs: an array of page
    descriptors threaded into doubly linked free lists.  page_t pointers are
    indices into the page array, NULL is -1, and each flag bit is a field. */
module Pmm {
  import opened Sequences
  import opened Dyadic
  import opened BuddySpec
  import opened BuddyInit

  const NULL: int := -1
  const PAGE_SIZE: nat := 4096

  datatype Page = Page(next: int, prev: int, buddy: bool, reserved: bool, kernel: bool,
                       head: bool, tail: bool, order: nat, refcount: nat)

  ghost function At(l: seq<nat>, i: int): int {
    if 0 <= i < |l| then l[i] else NULL
  }

  /** Element i of list k is a descriptor on that list with the right neighbours. */
  ghost predicate Node(pages: seq<Page>, l: seq<nat>, k: nat, i: nat)
    requires i < |l|
  {
    && l[i] < |pages|
    && pages[l[i]].next == At(l, i + 1)
    && pages[l[i]].prev == At(l, i - 1)
    && pages[l[i]].buddy
    && pages[l[i]].order == k
  }

  ghost predicate Linked(pages: seq<Page>, head: int, l: seq<nat>, k: nat) {
    head == At(l, 0) && forall i :: 0 <= i < |l| ==> Node(pages, l, k, i)
  }

  /** The BUDDY flag is set on list members only. */
  ghost predicate Flagged(pages: seq<Page>, lists: Lists)
    requires |lists| == MAX_ORDER + 1
  {
    forall p :: 0 <= p < |pages| && pages[p].buddy ==> pages[p].order <= MAX_ORDER && p in lists[pages[p].order]
  }

  ghost predicate Rep(pages: seq<Page>, heads: seq<int>, counts: seq<int>, lists: Lists) {
    && |heads| == |counts| == |lists| == MAX_ORDER + 1
    && (forall k: nat :: k <= MAX_ORDER ==> Linked(pages, heads[k], lists[k], k) && counts[k] == |lists[k]|)
    && Flagged(pages, lists)
  }

  ghost predicate SameLinks(p: Page, q: Page) {
    p.next == q.next && p.prev == q.prev && p.buddy == q.buddy && p.order == q.order
  }

  lemma RepFrame(pages: seq<Page>, pages': seq<Page>, heads: seq<int>, counts: seq<int>, lists: Lists)
    requires Rep(pages, heads, counts, lists)
    requires |pages| == |pages'|
    requires forall p :: 0 <= p < |pages| ==>
                           SameLinks(pages[p], pages'[p]) || (!pages[p].buddy && !pages'[p].buddy)
    ensures Rep(pages', heads, counts, lists)
  {
    forall k: nat | k <= MAX_ORDER
      ensures Linked(pages', heads[k], lists[k], k)
    {
      assert Linked(pages, heads[k], lists[k], k);
      forall i | 0 <= i < |lists[k]|
        ensures Node(pages', lists[k], k, i)
      {
        assert Node(pages, lists[k], k, i);
      }
    }
  }

  /** The descriptor array after free_list_add. */
  ghost function Added(pages: seq<Page>, head: int, p: nat, k: nat): seq<Page>
    requires p < |pages| && head < |pages|
  {
    var a := pages[p := pages[p].(prev := NULL, next := head, order := k, buddy := true)];
    if head >= 0 then a[head := a[head].(prev := p)] else a
  }

  lemma AddLinked(pages: seq<Page>, head: int, l: seq<nat>, p: nat, k: nat)
    requires Linked(pages, head, l, k) && NoDup(l) && p < |pages| && !pages[p].buddy
    ensures head < |pages|
    ensures Linked(Added(pages, head, p, k), p, [p] + l, k)
  {
    assert l != [] ==> Node(pages, l, k, 0);
    var a, m := Added(pages, head, p, k), [p] + l;
    forall i | 0 <= i < |m|
      ensures Node(a, m, k, i)
    {
      if i > 0 {
        assert Node(pages, l, k, i - 1);
        assert i > 1 ==> l[0] != l[i - 1];
      }
    }
  }

  lemma AddRep(pages: seq<Page>, heads: seq<int>, counts: seq<int>, lists: Lists, p: nat, k: nat)
    requires Rep(pages, heads, counts, lists) && k <= MAX_ORDER && NoDup(lists[k])
    requires p < |pages| && !pages[p].buddy
    ensures heads[k] < |pages|
    ensures Rep(Added(pages, heads[k], p, k), heads[k := p], counts[k := counts[k] + 1], Push(lists, k, p))
  {
    assert Linked(pages, heads[k], lists[k], k);
    AddLinked(pages, heads[k], lists[k], p, k);
    var a := Added(pages, heads[k], p, k);
    forall j: nat | j <= MAX_ORDER && j != k
      ensures Linked(a, heads[j], lists[j], j)
    {
      assert Linked(pages, heads[j], lists[j], j);
      forall i | 0 <= i < |lists[j]|
        ensures Node(a, lists[j], j, i)
      {
        assert Node(pages, lists[j], j, i);
        assert lists[k] != [] ==> Node(pages, lists[k], k, 0);
      }
    }
    assert lists[k] != [] ==> Node(pages, lists[k], k, 0);
  }

  /** The descriptor array after free_list_remove. */
  ghost function Removed(pages: seq<Page>, p: nat): seq<Page>
    requires p < |pages| && pages[p].next < |pages| && pages[p].prev < |pages|
  {
    var n, r := pages[p].next, pages[p].prev;
    var a := if r >= 0 then pages[r := pages[r].(next := n)] else pages;
    var b := if n >= 0 then a[n := a[n].(prev := r)] else a;
    b[p := b[p].(prev := NULL, next := NULL, buddy := false)]
  }

  lemma RemoveLinked(pages: seq<Page>, head: int, l: seq<nat>, k: nat, i: nat)
    requires Linked(pages, head, l, k) && NoDup(l) && i < |l|
    ensures l[i] < |pages| && pages[l[i]].next < |pages| && pages[l[i]].prev < |pages|
    ensures Linked(Removed(pages, l[i]), if pages[l[i]].prev >= 0 then head else pages[l[i]].next,
                   l[..i] + l[i + 1..], k)
  {
    assert Node(pages, l, k, i);
    assert i > 0 ==> Node(pages, l, k, i - 1);
    assert i + 1 < |l| ==> Node(pages, l, k, i + 1);
    var a, m := Removed(pages, l[i]), l[..i] + l[i + 1..];
    assert forall j :: 0 <= j < |m| ==> m[j] == if j < i then l[j] else l[j + 1];
    forall j | 0 <= j < |m|
      ensures Node(a, m, k, j)
    {
      RemoveNode(pages, l, k, i, if j < i then j else j + 1);
    }
  }

  lemma RemoveNode(pages: seq<Page>, l: seq<nat>, k: nat, i: nat, o: nat)
    requires NoDup(l) && i < |l| && o < |l| && o != i
    requires Node(pages, l, k, i) && Node(pages, l, k, o)
    requires i > 0 ==> Node(pages, l, k, i - 1)
    requires i + 1 < |l| ==> Node(pages, l, k, i + 1)
    ensures var q := Removed(pages, l[i])[l[o]];
            && q.next == (if o == i - 1 then At(l, i + 1) else At(l, o + 1))
            && q.prev == (if o == i + 1 then At(l, i - 1) else At(l, o - 1))
            && q.buddy && q.order == k
  {
  }

  /** A list of another order does not notice the removal. */
  lemma RemoveElsewhere(pages: seq<Page>, l: seq<nat>, k: nat, i: nat, head: int, m: seq<nat>, j: nat)
    requires i < |l| && Node(pages, l, k, i) && j != k && Linked(pages, head, m, j)
    requires i > 0 ==> Node(pages, l, k, i - 1)
    requires i + 1 < |l| ==> Node(pages, l, k, i + 1)
    ensures Linked(Removed(pages, l[i]), head, m, j)
  {
    forall o | 0 <= o < |m|
      ensures Node(Removed(pages, l[i]), m, j, o)
    {
      assert Node(pages, m, j, o);
    }
  }

  lemma RemoveRep(pages: seq<Page>, heads: seq<int>, counts: seq<int>, lists: Lists, k: nat, i: nat)
    requires Rep(pages, heads, counts, lists) && k <= MAX_ORDER && NoDup(lists[k]) && i < |lists[k]|
    ensures var p := lists[k][i];
            && p < |pages| && pages[p].next < |pages| && pages[p].prev < |pages|
            && Rep(Removed(pages, p), if pages[p].prev >= 0 then heads else heads[k := pages[p].next],
                   counts[k := counts[k] - 1], Drop(lists, k, i))
  {
    hide Linked, Node, NoDup, Flagged, Removed;
    RemoveLinked(pages, heads[k], lists[k], k, i);
    RemoveOthers(pages, heads, counts, lists, k, i);
    RemoveFlagged(pages, heads, counts, lists, k, i);
  }

  lemma MemberNode(pages: seq<Page>, heads: seq<int>, counts: seq<int>, lists: Lists, k: nat, i: nat)
    requires Rep(pages, heads, counts, lists) && k <= MAX_ORDER && i < |lists[k]|
    ensures lists[k][i] < |pages| && pages[lists[k][i]].next >= NULL && pages[lists[k][i]].prev >= NULL
  {
    assert Linked(pages, heads[k], lists[k], k);
    assert Node(pages, lists[k], k, i);
  }

  lemma RemoveOthers(pages: seq<Page>, heads: seq<int>, counts: seq<int>, lists: Lists, k: nat, i: nat)
    requires Rep(pages, heads, counts, lists) && k <= MAX_ORDER && i < |lists[k]|
    requires var p := lists[k][i]; p < |pages| && pages[p].next < |pages| && pages[p].prev < |pages|
    ensures forall j: nat :: j <= MAX_ORDER && j != k ==> Linked(Removed(pages, lists[k][i]), heads[j], lists[j], j)
  {
    var l := lists[k];
    assert Linked(pages, heads[k], l, k);
    assert Node(pages, l, k, i) && (i > 0 ==> Node(pages, l, k, i - 1)) && (i + 1 < |l| ==> Node(pages, l, k, i + 1));
    hide Removed;
    forall j: nat | j <= MAX_ORDER && j != k
      ensures Linked(Removed(pages, l[i]), heads[j], lists[j], j)
    {
      RemoveElsewhere(pages, l, k, i, heads[j], lists[j], j);
    }
  }

  lemma RemoveFlagged(pages: seq<Page>, heads: seq<int>, counts: seq<int>, lists: Lists, k: nat, i: nat)
    requires Rep(pages, heads, counts, lists) && k <= MAX_ORDER && NoDup(lists[k]) && i < |lists[k]|
    requires var p := lists[k][i]; p < |pages| && pages[p].next < |pages| && pages[p].prev < |pages|
    ensures |Drop(lists, k, i)| == MAX_ORDER + 1 && Flagged(Removed(pages, lists[k][i]), Drop(lists, k, i))
  {
    var l := lists[k];
    assert Linked(pages, heads[k], l, k);
    assert Node(pages, l, k, i) && (i > 0 ==> Node(pages, l, k, i - 1)) && (i + 1 < |l| ==> Node(pages, l, k, i + 1));
    DropBlocks(lists, k, i);
    hide Linked, Node, NoDup, FreeBlocks;
  }

  /** A page of a block in hand is usable and heads no free block. */
  lemma HeldPage(lists: Lists, live: set<Block>, usable: set<nat>, b: Block, q: nat)
    requires ZoneInv(lists, live, usable) && b in live && InRun(q, b)
    ensures q in usable && b.order <= MAX_ORDER && Aligned(b.pfn, b.order)
    ensures forall o: nat :: o <= MAX_ORDER ==> q !in lists[o]
  {
    var all := FreeBlocks(lists) + live;
    assert b in all;
    RunMembers(q, b.pfn, b.order);
    assert Owns(all, q, b.order) && OneOwner(all, q);
    forall o: nat | o <= MAX_ORDER
      ensures q !in lists[o]
    {
      FreeMember(lists, o, q);
      assert q in lists[o] ==> Block(q, o) in all && Owns(all, q, o);
    }
  }

  lemma {:induction false} EmptyPages(lists: Lists, k: nat)
    requires k <= |lists| && forall j :: 0 <= j < |lists| ==> lists[j] == []
    ensures PageSum(lists, k) == 0
    decreases |lists| - k
  {
    if k < |lists| {
      EmptyPages(lists, k + 1);
    }
  }

  lemma EmptyRep(pages: seq<Page>, heads: seq<int>, counts: seq<int>, lists: Lists)
    requires |heads| == |counts| == |lists| == MAX_ORDER + 1
    requires forall k :: 0 <= k <= MAX_ORDER ==> heads[k] == NULL && counts[k] == 0 && lists[k] == []
    requires forall q :: 0 <= q < |pages| ==> !pages[q].buddy
    ensures Rep(pages, heads, counts, lists)
    ensures forall reserved :: HoldsMaximal(lists, reserved, [])
  {
  }

  lemma StartInv(lists: Lists, reserved: seq<bool>, regions: seq<Region>)
    requires HoldsMaximal(lists, reserved, regions) && Disjoint(regions)
    requires forall k :: 0 <= k <= MAX_ORDER ==> NoDup(lists[k])
    requires forall i :: 0 <= i < |regions| ==> regions[i].lo >= 256
    ensures ZoneInv(lists, {}, UsablePages(reserved, regions))
    ensures forall p :: p in UsablePages(reserved, regions) ==> 0 < p < |reserved|
  {
    MaximalRunsTile(lists, reserved, regions);
    assert FreeBlocks(lists) + {} == FreeBlocks(lists);
    forall p | p in UsablePages(reserved, regions)
      ensures p > 0
    {
      var i :| 0 <= i < |regions| && Avail(reserved, regions[i], p);
    }
  }

  lemma {:induction false} RegionsPrefix(entries: seq<MapEntry>, n: nat)
    requires n <= |entries|
    ensures Regions(entries[..n]) <= Regions(entries)
  {
    if n < |entries| {
      RegionsPrefix(entries[..|entries| - 1], n);
      assert entries[..|entries| - 1][..n] == entries[..n];
    } else {
      assert entries[..n] == entries;
    }
  }

  lemma DisjointPrefix(all: seq<Region>, some: seq<Region>)
    requires Disjoint(all) && some <= all
    ensures Disjoint(some)
  {
  }

  /** One turn of the splitting loop: the upper half is a free-standing block. */
  lemma SplitStep(lists: Lists, live: set<Block>, usable: set<nat>, p: nat, j: nat)
    requires ZoneInv(lists, live + {Block(p, j)}, usable) && Block(p, j) !in live && j <= MAX_ORDER
    ensures |lists| == MAX_ORDER + 1
    ensures j > 0 ==> NoDup(lists[j - 1])
    ensures j > 0 ==> var hi := p + Pow2(j - 1);
                      && hi in usable && (forall o: nat :: o <= MAX_ORDER ==> hi !in lists[o])
                      && ZoneInv(Push(lists, j - 1, hi), live + {Block(p, j - 1)}, usable)
                      && Block(p, j - 1) !in live
  {
    if j > 0 {
      CarvedKeeps(lists, live, usable, p, j, j - 1);
      HeldPage(lists, live + {Block(p, j)}, usable, Block(p, j), p + Pow2(j - 1));
    }
  }

  /** With the page count a multiple of the largest block, every enclosing run
      of a page is inside the page array. */
  lemma RunInRange(p: nat, k: nat, total: nat)
    requires k <= MAX_ORDER && p < total && Aligned(total, MAX_ORDER)
    ensures Down(p, k) + Pow2(k) <= total
  {
    AlignedBelow(total, k, MAX_ORDER);
    DownDown(p, k, k);
    RunMembers(total, Down(p, k), k);
  }

  class Zone {
    const pages: array<Page>
    const heads: array<int>
    const counts: array<int>
    var zoneFree: int
    var memFree: int
    ghost var lists: Lists
    ghost var live: set<Block>
    ghost const usable: set<nat>

    ghost predicate Threaded()
      reads this, pages, heads, counts
    {
      && heads != counts
      && Rep(pages[..], heads[..], counts[..], lists)
    }

    ghost predicate Bounded()
      reads this
    {
      && Aligned(pages.Length, MAX_ORDER)
      && (forall p :: p in usable ==> 0 < p < pages.Length)
    }

    ghost predicate Valid()
      reads this, pages, heads, counts
    {
      && Threaded()
      && Bounded()
      && ZoneInv(lists, live, usable)
      && zoneFree == PageSum(lists, 0)
      && memFree == PageSum(lists, 0)
    }

    ghost function Reserved(): (r: seq<bool>)
      reads pages
      ensures |r| == pages.Length
      ensures forall q :: 0 <= q < pages.Length ==> r[q] == pages[q].reserved
    {
      seq(pages.Length, q requires 0 <= q < pages.Length reads pages => pages[q].reserved)
    }

    /** pmm_init from the point where the reserved flags are in place. */
    constructor Init(reserved: seq<bool>, entries: seq<MapEntry>)
      requires Aligned(|reserved|, MAX_ORDER)
      requires Disjoint(Regions(entries))
      requires forall i :: 0 <= i < |Regions(entries)| ==> Regions(entries)[i].hi <= |reserved|
      ensures Valid() && live == {}
      ensures usable == UsablePages(reserved, Regions(entries))
      ensures HoldsMaximal(lists, reserved, Regions(entries))
      ensures fresh(pages) && fresh(heads) && fresh(counts)
    {
      pages := new Page[|reserved|](q requires 0 <= q < |reserved| =>
        Page(NULL, NULL, false, reserved[q], false, false, false, 0, 0));
      heads := new int[MAX_ORDER + 1](_ => NULL);
      counts := new int[MAX_ORDER + 1](_ => 0);
      zoneFree, memFree := 0, 0;
      lists := seq(MAX_ORDER + 1, _ => []);
      live := {};
      usable := UsablePages(reserved, Regions(entries));
      new;
      EmptyPages(lists, 0);
      EmptyRep(pages[..], heads[..], counts[..], lists);
      AddEntries(reserved, entries);
    }

    /** The third pass: every usable entry in turn. */
    method AddEntries(ghost reserved: seq<bool>, entries: seq<MapEntry>)
      requires Threaded() && Reserved() == reserved && HoldsMaximal(lists, reserved, [])
      requires forall k :: 0 <= k <= MAX_ORDER ==> NoDup(lists[k])
      requires zoneFree == memFree == PageSum(lists, 0)
      requires live == {} && usable == UsablePages(reserved, Regions(entries)) && Aligned(pages.Length, MAX_ORDER)
      requires Disjoint(Regions(entries))
      requires forall i :: 0 <= i < |Regions(entries)| ==> Regions(entries)[i].hi <= pages.Length
      modifies this`lists, this`zoneFree, this`memFree, pages, heads, counts
      ensures Valid() && HoldsMaximal(lists, reserved, Regions(entries))
    {
      hide Disjoint, HoldsMaximal, UsablePages, NoDup, Down, Pow2, Tiling;
      var n := 0;
      while n < |entries|
        invariant 0 <= n <= |entries|
        invariant Threaded() && Reserved() == reserved && HoldsMaximal(lists, reserved, Regions(entries[..n]))
        invariant forall k :: 0 <= k <= MAX_ORDER ==> NoDup(lists[k])
        invariant zoneFree == memFree == PageSum(lists, 0)
      {
        RegionsPrefix(entries, n + 1);
        ghost var done := Regions(entries[..n]);
        assert entries[..n + 1][..n] == entries[..n];
        if entries[n].usable {
          var r := Clip(entries[n]);
          assert Regions(entries[..n + 1]) == done + [r];
          HoldingStart(lists, reserved, done, r);
          if r.lo < r.hi {
            DisjointPrefix(Regions(entries), done + [r]);
            assert Regions(entries)[|done|] == r;
            AddRegion(reserved, done, r);
          } else {
            HoldingEnd(lists, reserved, done, r, r.lo);
          }
        } else {
          assert Regions(entries[..n + 1]) == done;
        }
        n := n + 1;
      }
      assert entries[..n] == entries;
      StartInv(lists, reserved, Regions(entries));
    }

    /** The greedy scan of one region. */
    method AddRegion(ghost reserved: seq<bool>, ghost done: seq<Region>, r: Region)
      requires Threaded() && Reserved() == reserved && HoldsMaximal(lists, reserved, done)
      requires Disjoint(done + [r]) && r.lo < r.hi <= pages.Length
      requires forall k :: 0 <= k <= MAX_ORDER ==> NoDup(lists[k])
      requires zoneFree == memFree == PageSum(lists, 0)
      modifies this`lists, this`zoneFree, this`memFree, pages, heads, counts
      ensures Threaded() && Reserved() == reserved && HoldsMaximal(lists, reserved, done + [r])
      ensures forall k :: 0 <= k <= MAX_ORDER ==> NoDup(lists[k])
      ensures zoneFree == memFree == PageSum(lists, 0)
    {
      hide HoldsMaximal, Disjoint, Boundary, Holding, Maximal, Pow2, Down;
      HoldingStart(lists, reserved, done, r);
      var pfn := r.lo;
      while pfn < r.hi
        invariant r.lo <= pfn
        invariant Threaded() && Reserved() == reserved
        invariant Holding(lists, reserved, done, r, pfn) && Boundary(reserved, r, pfn)
        invariant forall k :: 0 <= k <= MAX_ORDER ==> NoDup(lists[k])
        invariant zoneFree == memFree == PageSum(lists, 0)
      {
        if pages[pfn].reserved {
          HoldingSkip(lists, reserved, done, r, pfn);
          BoundarySkip(reserved, r, pfn);
          pfn := pfn + 1;
        } else {
          var order := LargestOrder(reserved, r, pfn);
          BoundaryTake(reserved, r, pfn, order);
          HoldingTake(lists, reserved, done, r, pfn, order);
          NotFlagged(pfn);
          PushPages(lists, order, pfn, 0);
          FreeListAdd(pfn, order);
          zoneFree := zoneFree + Pow2(order);
          memFree := memFree + Pow2(order);
          pfn := pfn + Pow2(order);
        }
      }
      HoldingEnd(lists, reserved, done, r, pfn);
    }

    /** The inner order search: largest aligned block of non-reserved pages at pfn. */
    method LargestOrder(ghost reserved: seq<bool>, r: Region, pfn: nat) returns (order: nat)
      requires Reserved() == reserved && r.hi <= pages.Length
      requires r.lo <= pfn < r.hi && !pages[pfn].reserved
      ensures Largest(reserved, r, pfn, order)
    {
      order := MAX_ORDER;
      while order > 0
        invariant order <= MAX_ORDER
        invariant forall j: nat :: order < j <= MAX_ORDER ==> !Fits(reserved, r, pfn, j)
      {
        var n := Pow2(order);
        AlignedIsMod(pfn, order);
        if pfn % n == 0 && pfn + n <= r.hi {
          var allFree := AllFree(pfn, n);
          if allFree {
            break;
          }
          ghost var q :| pfn <= q < pfn + n && pages[q].reserved;
          assert InRun(q, Block(pfn, order)) && !Avail(reserved, r, q);
        } else if pfn % n == 0 {
          assert InRun(pfn + n - 1, Block(pfn, order));
        }
        order := order - 1;
      }
    }

    method AllFree(pfn: nat, n: nat) returns (free: bool)
      requires pfn + n <= pages.Length
      ensures free <==> forall q :: pfn <= q < pfn + n ==> !pages[q].reserved
    {
      var j := 0;
      while j < n
        invariant 0 <= j <= n
        invariant forall q :: pfn <= q < pfn + j ==> !pages[q].reserved
      {
        if pages[pfn + j].reserved {
          return false;
        }
        j := j + 1;
      }
      return true;
    }

    method FreeListAdd(p: nat, k: nat)
      requires Threaded() && k <= MAX_ORDER && NoDup(lists[k])
      requires p < pages.Length && !pages[p].buddy
      modifies pages, heads, counts, this`lists
      ensures Threaded() && lists == Push(old(lists), k, p)
      ensures forall q :: 0 <= q < pages.Length ==>
                            pages[q].refcount == old(pages[q].refcount) && pages[q].reserved == old(pages[q].reserved)
    {
      AddRep(pages[..], heads[..], counts[..], lists, p, k);
      var head := heads[k];
      pages[p] := pages[p].(prev := NULL, next := head, order := k, buddy := true);
      if head != NULL {
        pages[head] := pages[head].(prev := p);
      }
      heads[k] := p;
      counts[k] := counts[k] + 1;
      lists := Push(lists, k, p);
      assert pages[..] == Added(old(pages[..]), head, p, k);
      assert heads[..] == old(heads[..])[k := p];
      assert counts[..] == old(counts[..])[k := counts[k]];
    }

    method FreeListRemove(p: nat, k: nat)
      requires Threaded() && k <= MAX_ORDER && NoDup(lists[k]) && p in lists[k]
      modifies pages, heads, counts, this`lists
      ensures Threaded() && lists == Drop(old(lists), k, IndexOf(old(lists)[k], p))
      ensures p < pages.Length && !pages[p].buddy
      ensures forall q :: 0 <= q < pages.Length ==> pages[q].refcount == old(pages[q].refcount)
    {
      hide Linked, Node, Flagged, NoDup;
      ghost var i := IndexOf(lists[k], p);
      RemoveRep(pages[..], heads[..], counts[..], lists, k, i);
      MemberNode(pages[..], heads[..], counts[..], lists, k, i);
      var prev, next := pages[p].prev, pages[p].next;
      if prev != NULL {
        pages[prev] := pages[prev].(next := next);
      } else {
        heads[k] := next;
      }
      if next != NULL {
        pages[next] := pages[next].(prev := prev);
      }
      pages[p] := pages[p].(prev := NULL, next := NULL, buddy := false);
      counts[k] := counts[k] - 1;
      lists := Drop(lists, k, i);
      assert pages[..] == Removed(old(pages[..]), p);
      assert heads[..] == if prev != NULL then old(heads[..]) else old(heads[..])[k := next];
      assert counts[..] == old(counts[..])[k := counts[k]];
    }

    /** Sets the count of page p and of the n-1 tail pages behind it; the free lists do not notice. */
    method MarkBlock(p: nat, n: nat, inUse: bool, refcount: nat)
      requires Threaded() && n > 0 && p + n <= pages.Length
      modifies pages
      ensures Threaded()
      ensures forall q :: 0 <= q < pages.Length ==>
                            pages[q].refcount == if p <= q < p + n then refcount else old(pages[q].refcount)
      ensures forall q :: 0 <= q < pages.Length ==> SameLinks(pages[q], old(pages[q]))
    {
      pages[p] := pages[p].(head := inUse, refcount := refcount);
      var i := 1;
      while i < n
        invariant 1 <= i <= n
        invariant forall q :: 0 <= q < pages.Length ==> SameLinks(pages[q], old(pages[q]))
        invariant forall q :: 0 <= q < pages.Length ==>
                                pages[q].refcount == if p <= q < p + i then refcount else old(pages[q].refcount)
      {
        pages[p + i] := pages[p + i].(tail := inUse, refcount := refcount);
        i := i + 1;
      }
      RepFrame(old(pages[..]), pages[..], heads[..], counts[..], lists);
    }

    method FindOrder(order: nat) returns (current: nat)
      requires Threaded() && order <= MAX_ORDER
      ensures current == FirstOrder(lists, order)
    {
      current := order;
      while current <= MAX_ORDER && heads[current] == NULL
        invariant order <= current <= MAX_ORDER + 1
        invariant FirstOrder(lists, current) == FirstOrder(lists, order)
      {
        assert Linked(pages[..], heads[current], lists[current], current);
        current := current + 1;
      }
      assert current <= MAX_ORDER ==> Linked(pages[..], heads[current], lists[current], current);
    }

    /** The splitting loop of alloc_pages on a block in hand. */
    method Split(pfn: nat, from: nat, order: nat)
      requires Threaded() && Bounded() && order <= from <= MAX_ORDER
      requires ZoneInv(lists, live + {Block(pfn, from)}, usable) && Block(pfn, from) !in live
      modifies this`lists, pages, heads, counts
      ensures Threaded() && lists == Carved(old(lists), pfn, from, order)
      ensures forall q :: 0 <= q < pages.Length ==> pages[q].refcount == old(pages[q].refcount)
    {
      hide ZoneInv, Linked, Down, Pow2, FlipBit;
      SplitStep(lists, live, usable, pfn, from);
      var current := from;
      while current > order
        invariant order <= current <= from
        invariant Threaded() && |lists| == MAX_ORDER + 1 && ZoneInv(lists, live + {Block(pfn, current)}, usable)
        invariant Block(pfn, current) !in live
        invariant Carved(lists, pfn, current, order) == Carved(old(lists), pfn, from, order)
        invariant forall q :: 0 <= q < pages.Length ==> pages[q].refcount == old(pages[q].refcount)
      {
        SplitStep(lists, live, usable, pfn, current);
        current := current - 1;
        var upper := pfn + Pow2(current);
        NotFlagged(upper);
        FreeListAdd(upper, current);
      }
    }

    /** alloc_pages: 0 means failure, any other value is the address of the block. */
    method AllocPages(order: nat) returns (phys: nat)
      requires Valid()
      modifies this`zoneFree, this`memFree, this`lists, this`live, pages, heads, counts
      ensures Valid()
      ensures phys == 0 <==> order > MAX_ORDER || FirstOrder(old(lists), order) > MAX_ORDER
      ensures phys == 0 ==> lists == old(lists) && live == old(live)
      ensures phys != 0 ==>
                && phys == AllocPfn(old(lists), order) * PAGE_SIZE
                && lists == AllocLists(old(lists), order)
                && live == old(live) + {Block(phys / PAGE_SIZE, order)}
                && Block(phys / PAGE_SIZE, order) !in old(live)
      ensures forall q: nat :: q < pages.Length ==>
                pages[q].refcount == if phys != 0 && InRun(q, Block(phys / PAGE_SIZE, order)) then 1
                  else old(pages[q].refcount)
    {
      hide Tiling, FreeBlocks, NoDup, Coalesced, Down, Pow2, FlipBit, FirstOrder, Carved;
      if order > MAX_ORDER {
        return 0;
      }
      var current := FindOrder(order);
      if current > MAX_ORDER {
        return 0;
      }
      assert Linked(pages[..], heads[current], lists[current], current);
      var pfn: nat := heads[current];
      AllocKeeps(lists, live, usable, order);
      BuddySpec.AllocPages(lists, order);
      TakeKeeps(lists, live, usable, current, 0);
      FreeListRemove(pfn, current);
      Split(pfn, current, order);
      ghost var b := Block(pfn, order);
      live := live + {b};
      var n := Pow2(order);
      HeldPage(lists, live, usable, b, pfn);
      HeldPage(lists, live, usable, b, pfn + n - 1);
      SetOrder(pfn, order);
      MarkBlock(pfn, n, true, 1);
      zoneFree := zoneFree - n;
      memFree := memFree - n;
      phys := pfn * PAGE_SIZE;
    }

    /** Records the order of a block in hand in its first descriptor. */
    method SetOrder(p: nat, order: nat)
      requires Threaded() && p < pages.Length && forall o: nat :: o <= MAX_ORDER ==> p !in lists[o]
      modifies pages
      ensures Threaded()
      ensures forall q :: 0 <= q < pages.Length ==> pages[q].refcount == old(pages[q].refcount)
    {
      pages[p] := pages[p].(order := order);
      RepFrame(old(pages[..]), pages[..], heads[..], counts[..], lists);
    }

    lemma NotFlagged(p: nat)
      requires Threaded() && p < pages.Length && forall o: nat :: o <= MAX_ORDER ==> p !in lists[o]
      ensures !pages[p].buddy
    {
    }

    /** The descriptor test of the merge loop decides membership of the free list. */
    lemma BuddyTest(k: nat, p: nat)
      requires Threaded() && k <= MAX_ORDER && p < pages.Length
      ensures pages[p].buddy && pages[p].order == k <==> p in lists[k]
    {
      if p in lists[k] {
        assert Linked(pages[..], heads[k], lists[k], k);
        assert Node(pages[..], lists[k], k, IndexOf(lists[k], p));
      }
    }

    /** The merging loop of free_pages on a block in hand. */
    method Merge(pfn0: nat, order0: nat) returns (pfn: nat, order: nat)
      requires Threaded() && Bounded() && ZoneInv(lists, live, usable) && Block(pfn0, order0) in live
      modifies this`lists, this`live, pages, heads, counts
      ensures order <= MAX_ORDER && order0 <= MAX_ORDER
      ensures Threaded() && ZoneInv(lists, live, usable) && Block(pfn, order) in live
      ensures live - {Block(pfn, order)} == old(live) - {Block(pfn0, order0)}
      ensures Push(lists, order, pfn) == FreeLists(old(lists), pfn0, order0)
      ensures forall q :: 0 <= q < pages.Length ==> pages[q].refcount == old(pages[q].refcount)
    {
      hide Tiling, FreeBlocks, NoDup, Coalesced, Rep, Down, Pow2, FlipBit;
      pfn, order := pfn0, order0;
      HeldPage(lists, live, usable, Block(pfn, order), pfn);
      while order < MAX_ORDER
        invariant order0 <= order <= MAX_ORDER
        invariant Threaded() && ZoneInv(lists, live, usable) && Block(pfn, order) in live
        invariant live - {Block(pfn, order)} == old(live) - {Block(pfn0, order0)}
        invariant FreeLists(lists, pfn, order) == FreeLists(old(lists), pfn0, order0)
        invariant forall q :: 0 <= q < pages.Length ==> pages[q].refcount == old(pages[q].refcount)
      {
        ghost var b := Block(pfn, order);
        HeldPage(lists, live, usable, b, pfn);
        FlipIsBuddy(pfn, order);
        BuddyFacts(pfn, order);
        RunInRange(pfn, order + 1, pages.Length);
        Halves(pfn, order);
        var buddy := FlipBit(pfn, order);
        BuddyTest(order, buddy);
        if !pages[buddy].buddy || pages[buddy].order != order {
          break;
        }
        FuseKeeps(lists, live, usable, b, IndexOf(lists[order], buddy));
        TilingExcludesParent(FreeBlocks(lists) + live, b, usable);
        FreeListRemove(buddy, order);
        if buddy < pfn {
          pfn := buddy;
        }
        order := order + 1;
        live := live - {b} + {Block(pfn, order)};
      }
    }

    /** free_pages: bad arguments are refused without any change; a good call names a live block. */
    method FreePages(phys: nat, order0: nat)
      requires Valid()
      requires GoodFree(phys, order0) ==> Block(phys / PAGE_SIZE, order0) in live
      modifies this`zoneFree, this`memFree, this`lists, this`live, pages, heads, counts
      ensures Valid()
      ensures !GoodFree(phys, order0) ==> lists == old(lists) && live == old(live)
      ensures GoodFree(phys, order0) ==>
                && lists == FreeLists(old(lists), phys / PAGE_SIZE, order0)
                && live == old(live) - {Block(phys / PAGE_SIZE, order0)}
      ensures forall q: nat :: q < pages.Length ==>
                pages[q].refcount ==
                if GoodFree(phys, order0) && InRun(q, Block(phys / PAGE_SIZE, order0)) then 0
                  else old(pages[q].refcount)
    {
      hide Tiling, FreeBlocks, NoDup, Coalesced, Linked, Down, Pow2, FlipBit, FreeLists;
      if order0 > MAX_ORDER {
        return;
      }
      if phys == 0 {
        return;
      }
      if phys % (PAGE_SIZE * Pow2(order0)) != 0 {
        return;
      }
      var pfn0 := phys / PAGE_SIZE;
      var n := Pow2(order0);
      ghost var b0 := Block(pfn0, order0);
      FreeKeeps(lists, live, usable, b0);
      BuddySpec.FreePages(lists, pfn0, order0);
      HeldPage(lists, live, usable, b0, pfn0);
      HeldPage(lists, live, usable, b0, pfn0 + n - 1);
      MarkBlock(pfn0, n, false, 0);
      var pfn, order := Merge(pfn0, order0);
      ghost var b := Block(pfn, order);
      HeldPage(lists, live, usable, b, pfn);
      NotFlagged(pfn);
      FreeListAdd(pfn, order);
      live := live - {b};
      zoneFree := zoneFree + n;
      memFree := memFree + n;
    }
  }

  /** The argument checks of free_pages. */
  predicate GoodFree(phys: nat, order: nat) {
    order <= MAX_ORDER && phys != 0 && phys % (PAGE_SIZE * Pow2(order)) == 0
  }
}
