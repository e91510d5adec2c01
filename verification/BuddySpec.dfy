/** Value-level specification of the buddy allocator of kernel/mm/pmm.c.

    A zone is its per-order free lists together with the set of blocks in the
    hands of callers.  Allocation and freeing are sequences of four moves:
    Take / Release pass a block between a list and the callers, Carve / Fuse
    change the order of a block already in hand. */
module BuddySpec {
  import opened Sequences
  import opened Dyadic

  const MAX_ORDER: nat := 10

  datatype Block = Block(pfn: nat, order: nat)

  /** lists[k][i] is the page number of the i-th block on free list k. */
  type Lists = seq<seq<nat>>

  ghost predicate InRun(p: nat, b: Block) {
    b.pfn <= p < b.pfn + Pow2(b.order)
  }

  ghost predicate Owns(blocks: set<Block>, p: nat, k: nat) {
    Block(Down(p, k), k) in blocks
  }

  ghost predicate Owned(blocks: set<Block>, p: nat) {
    exists k: nat :: k <= MAX_ORDER && Owns(blocks, p, k)
  }

  ghost predicate OneOwner(blocks: set<Block>, p: nat) {
    forall j: nat, k: nat :: Owns(blocks, p, j) && Owns(blocks, p, k) ==> j == k
  }

  ghost predicate Shaped(blocks: set<Block>) {
    forall b :: b in blocks ==> b.order <= MAX_ORDER && Aligned(b.pfn, b.order)
  }

  /** The blocks are aligned and split the usable pages among themselves. */
  ghost predicate Tiling(blocks: set<Block>, usable: set<nat>) {
    && Shaped(blocks)
    && (forall p: nat :: OneOwner(blocks, p))
    && (forall p: nat :: p in usable <==> Owned(blocks, p))
  }

  ghost function FreeBlocks(lists: Lists): set<Block> {
    set k, i | 0 <= k < |lists| && 0 <= i < |lists[k]| :: Block(lists[k][i], k)
  }

  ghost predicate ZoneInv(lists: Lists, live: set<Block>, usable: set<nat>) {
    && |lists| == MAX_ORDER + 1
    && (forall k :: 0 <= k <= MAX_ORDER ==> NoDup(lists[k]))
    && FreeBlocks(lists) !! live
    && Tiling(FreeBlocks(lists) + live, usable)
  }

  /** Two order-k blocks are halves of one order-(k+1) block. */
  ghost predicate Siblings(p: nat, q: nat, k: nat) {
    Down(p, k + 1) == Down(q, k + 1)
  }

  /** No two buddies below the top order are both free. */
  ghost predicate Coalesced(lists: Lists)
    requires |lists| == MAX_ORDER + 1
  {
    forall k: nat, p, q :: k < MAX_ORDER && p in lists[k] && q in lists[k] && p != q ==> !Siblings(p, q, k)
  }

  /** In address terms: distinct blocks share no page, and their pages are the usable ones. */
  lemma TilingMeans(blocks: set<Block>, usable: set<nat>)
    requires Tiling(blocks, usable)
    ensures forall b, c, p :: b in blocks && c in blocks && InRun(p, b) && InRun(p, c) ==> b == c
    ensures forall p: nat :: p in usable <==> exists b :: b in blocks && InRun(p, b)
  {
    forall b, c, p: nat | b in blocks && c in blocks && InRun(p, b) && InRun(p, c)
      ensures b == c && Owned(blocks, p)
    {
      RunMembers(p, b.pfn, b.order);
      RunMembers(p, c.pfn, c.order);
      assert OneOwner(blocks, p) && Owns(blocks, p, b.order) && Owns(blocks, p, c.order);
    }
    forall p: nat | p in usable
      ensures exists b :: b in blocks && InRun(p, b)
    {
      var k: nat :| k <= MAX_ORDER && Owns(blocks, p, k);
      assert InRun(p, Block(Down(p, k), k));
    }
  }

  // --- The four moves -------------------------------------------------------

  function Push(lists: Lists, k: nat, p: nat): Lists
    requires k < |lists|
  {
    lists[k := [p] + lists[k]]
  }

  function Drop(lists: Lists, k: nat, i: nat): Lists
    requires k < |lists| && i < |lists[k]|
  {
    lists[k := lists[k][..i] + lists[k][i + 1..]]
  }

  lemma FreeMember(lists: Lists, k: nat, p: nat)
    requires k < |lists|
    ensures Block(p, k) in FreeBlocks(lists) <==> p in lists[k]
  {
  }

  lemma PushBlocks(lists: Lists, k: nat, p: nat)
    requires k < |lists|
    ensures FreeBlocks(Push(lists, k, p)) == FreeBlocks(lists) + {Block(p, k)}
  {
    var pushed := Push(lists, k, p);
    forall b: Block
      ensures b in FreeBlocks(pushed) <==> b in FreeBlocks(lists) + {Block(p, k)}
    {
      if b.order < |lists| {
        FreeMember(lists, b.order, b.pfn);
        FreeMember(pushed, b.order, b.pfn);
      }
    }
  }

  lemma DropBlocks(lists: Lists, k: nat, i: nat)
    requires k < |lists| && i < |lists[k]| && NoDup(lists[k])
    ensures FreeBlocks(Drop(lists, k, i)) == FreeBlocks(lists) - {Block(lists[k][i], k)}
    ensures NoDup(Drop(lists, k, i)[k])
    ensures forall p :: p in Drop(lists, k, i)[k] <==> p in lists[k] && p != lists[k][i]
  {
    var dropped := Drop(lists, k, i);
    var l, m := lists[k], dropped[k];
    assert forall j :: 0 <= j < |m| ==> m[j] == if j < i then l[j] else l[j + 1];
    forall p
      ensures p in m <==> p in l && p != l[i]
    {
      if p in l && p != l[i] {
        var j :| 0 <= j < |l| && l[j] == p;
        assert p == m[if j < i then j else j - 1];
      }
    }
    forall b: Block
      ensures b in FreeBlocks(dropped) <==> b in FreeBlocks(lists) - {Block(l[i], k)}
    {
      if b.order < |lists| {
        FreeMember(lists, b.order, b.pfn);
        FreeMember(dropped, b.order, b.pfn);
      }
    }
  }

  lemma TakeKeeps(lists: Lists, live: set<Block>, usable: set<nat>, k: nat, i: nat)
    requires ZoneInv(lists, live, usable) && k <= MAX_ORDER && i < |lists[k]|
    ensures ZoneInv(Drop(lists, k, i), live + {Block(lists[k][i], k)}, usable)
    ensures Block(lists[k][i], k) !in live
    ensures Coalesced(lists) ==> Coalesced(Drop(lists, k, i))
  {
    DropBlocks(lists, k, i);
    var b := Block(lists[k][i], k);
    FreeMember(lists, k, b.pfn);
    assert FreeBlocks(lists) - {b} + (live + {b}) == FreeBlocks(lists) + live;
  }

  lemma ReleaseKeeps(lists: Lists, live: set<Block>, usable: set<nat>, b: Block)
    requires ZoneInv(lists, live, usable) && b in live
    ensures b.order <= MAX_ORDER
    ensures ZoneInv(Push(lists, b.order, b.pfn), live - {b}, usable)
    ensures Aligned(b.pfn, b.order)
    ensures Coalesced(lists) && (b.order == MAX_ORDER || Buddy(b.pfn, b.order) !in lists[b.order])
            ==> Coalesced(Push(lists, b.order, b.pfn))
  {
    assert b in FreeBlocks(lists) + live;
    PushBlocks(lists, b.order, b.pfn);
    FreeMember(lists, b.order, b.pfn);
    assert FreeBlocks(lists) + {b} + (live - {b}) == FreeBlocks(lists) + live;
    if Coalesced(lists) && (b.order == MAX_ORDER || Buddy(b.pfn, b.order) !in lists[b.order]) {
      PushCoalesced(lists, live, usable, b.pfn, b.order);
    }
  }

  /** Adding a block whose buddy is not free keeps the lists coalesced. */
  lemma PushCoalesced(lists: Lists, live: set<Block>, usable: set<nat>, p: nat, k: nat)
    requires ZoneInv(lists, live, usable) && Coalesced(lists) && k <= MAX_ORDER && Aligned(p, k)
    requires k == MAX_ORDER || Buddy(p, k) !in lists[k]
    ensures Coalesced(Push(lists, k, p))
  {
    forall q | q in lists[k] && q != p && k < MAX_ORDER
      ensures !Siblings(p, q, k) && !Siblings(q, p, k)
    {
      FreeMember(lists, k, q);
      assert Block(q, k) in FreeBlocks(lists) + live;
      OnlySibling(p, q, k);
    }
  }

  lemma OnlySibling(p: nat, q: nat, k: nat)
    requires Aligned(p, k) && Aligned(q, k)
    ensures Siblings(p, q, k) <==> q == p || q == Buddy(p, k)
  {
    BuddyFacts(p, k);
    Halves(p, k);
    Halves(q, k);
  }

  ghost function LowHalf(b: Block): Block
    requires b.order > 0
  {
    Block(b.pfn, b.order - 1)
  }

  ghost function HighHalf(b: Block): Block
    requires b.order > 0
  {
    Block(b.pfn + Pow2(b.order - 1), b.order - 1)
  }

  /** Replacing an aligned block by its halves moves its pages one order down
      and leaves every other page alone. */
  lemma HalvesOwn(rest: set<Block>, b: Block, p: nat, j: nat)
    requires b.order > 0 && Aligned(b.pfn, b.order)
    ensures Owns(rest + {b}, p, j) <==> Owns(rest, p, j) || (j == b.order && Down(p, b.order) == b.pfn)
    ensures Owns(rest + {LowHalf(b), HighHalf(b)}, p, j)
            <==> Owns(rest, p, j) || (j == b.order - 1 && Down(p, b.order) == b.pfn)
  {
    HalfOf(p, b.pfn, b.order - 1);
    hide Down, Pow2;
  }

  lemma HalvesOwned(rest: set<Block>, b: Block, p: nat)
    requires 0 < b.order <= MAX_ORDER && Aligned(b.pfn, b.order)
    ensures Owned(rest + {b}, p) <==> Owned(rest + {LowHalf(b), HighHalf(b)}, p)
  {
    var whole, split := rest + {b}, rest + {LowHalf(b), HighHalf(b)};
    if Owned(whole, p) {
      var j: nat :| j <= MAX_ORDER && Owns(whole, p, j);
      HalvesOwn(rest, b, p, j);
      HalvesOwn(rest, b, p, b.order - 1);
      assert Owns(split, p, j) || Owns(split, p, b.order - 1);
    }
    if Owned(split, p) {
      var j: nat :| j <= MAX_ORDER && Owns(split, p, j);
      HalvesOwn(rest, b, p, j);
      HalvesOwn(rest, b, p, b.order);
      assert Owns(whole, p, j) || Owns(whole, p, b.order);
    }
  }

  lemma HalvesOneOwner(rest: set<Block>, b: Block, p: nat)
    requires 0 < b.order <= MAX_ORDER && Aligned(b.pfn, b.order)
    requires b !in rest && LowHalf(b) !in rest && HighHalf(b) !in rest
    ensures OneOwner(rest + {b}, p) <==> OneOwner(rest + {LowHalf(b), HighHalf(b)}, p)
  {
    hide Down, Pow2, Aligned;
    var whole, split := rest + {b}, rest + {LowHalf(b), HighHalf(b)};
    HalvesOwn(rest, b, p, b.order);
    HalvesOwn(rest, b, p, b.order - 1);
    Halves(p, b.order - 1);
    if OneOwner(whole, p) {
      forall i: nat, j: nat | Owns(split, p, i) && Owns(split, p, j)
        ensures i == j
      {
        HalvesOwn(rest, b, p, i);
        HalvesOwn(rest, b, p, j);
      }
    }
    if OneOwner(split, p) {
      forall i: nat, j: nat | Owns(whole, p, i) && Owns(whole, p, j)
        ensures i == j
      {
        HalvesOwn(rest, b, p, i);
        HalvesOwn(rest, b, p, j);
      }
    }
  }

  /** A tiling stays one when a block is replaced by its halves, and back. */
  lemma HalvesTile(rest: set<Block>, b: Block, usable: set<nat>)
    requires 0 < b.order <= MAX_ORDER && Aligned(b.pfn, b.order)
    requires b !in rest && LowHalf(b) !in rest && HighHalf(b) !in rest
    ensures Tiling(rest + {b}, usable) <==> Tiling(rest + {LowHalf(b), HighHalf(b)}, usable)
  {
    Halves(b.pfn, b.order - 1);
    var whole, split := rest + {b}, rest + {LowHalf(b), HighHalf(b)};
    forall p: nat
      ensures Owned(whole, p) <==> Owned(split, p)
      ensures OneOwner(whole, p) <==> OneOwner(split, p)
    {
      HalvesOwned(rest, b, p);
      HalvesOneOwner(rest, b, p);
    }
  }

  lemma TilingExcludesHalves(blocks: set<Block>, b: Block, usable: set<nat>)
    requires Tiling(blocks, usable) && b in blocks && b.order > 0
    ensures LowHalf(b) !in blocks && HighHalf(b) !in blocks
  {
    var k: nat := b.order - 1;
    Halves(b.pfn, k);
    assert Owns(blocks, b.pfn, b.order) && Owns(blocks, HighHalf(b).pfn, b.order);
    assert OneOwner(blocks, b.pfn) && OneOwner(blocks, HighHalf(b).pfn);
    assert LowHalf(b) in blocks <==> Owns(blocks, b.pfn, k);
    assert HighHalf(b) in blocks <==> Owns(blocks, HighHalf(b).pfn, k);
  }

  lemma TilingExcludesParent(blocks: set<Block>, b: Block, usable: set<nat>)
    requires Tiling(blocks, usable) && b in blocks
    ensures Block(Down(b.pfn, b.order + 1), b.order + 1) !in blocks
  {
    assert Owns(blocks, b.pfn, b.order) && OneOwner(blocks, b.pfn);
    assert !Owns(blocks, b.pfn, b.order + 1);
  }

  lemma CarveKeeps(lists: Lists, live: set<Block>, usable: set<nat>, b: Block)
    requires ZoneInv(lists, live, usable) && b in live && b.order > 0
    ensures b.order <= MAX_ORDER
    ensures ZoneInv(Push(lists, b.order - 1, HighHalf(b).pfn), live - {b} + {LowHalf(b)}, usable)
    ensures Coalesced(lists) ==> Coalesced(Push(lists, b.order - 1, HighHalf(b).pfn))
  {
    var free := FreeBlocks(lists);
    assert b in free + live;
    var k, lo, hi := b.order - 1, LowHalf(b), HighHalf(b);
    TilingExcludesHalves(free + live, b, usable);
    HalvesTile(free + live - {b}, b, usable);
    assert free + live - {b} + {b} == free + live;
    PushBlocks(lists, k, hi.pfn);
    assert free + {hi} + (live - {b} + {lo}) == free + live - {b} + {lo, hi};
    FreeMember(lists, k, hi.pfn);
    if Coalesced(lists) {
      FreeMember(lists, k, lo.pfn);
      Halves(b.pfn, k);
      BuddyFacts(hi.pfn, k);
      PushCoalesced(lists, live, usable, hi.pfn, k);
    }
  }

  lemma DroppedCoalesced(lists: Lists, k: nat, i: nat)
    requires |lists| == MAX_ORDER + 1 && k <= MAX_ORDER && i < |lists[k]| && NoDup(lists[k])
    ensures |Drop(lists, k, i)| == MAX_ORDER + 1 && (Coalesced(lists) ==> Coalesced(Drop(lists, k, i)))
  {
    DropBlocks(lists, k, i);
    hide FreeBlocks, NoDup;
  }

  /** Two buddies, one free and one in hand, become one block in hand. */
  lemma FuseTiles(free: set<Block>, live: set<Block>, usable: set<nat>, b: Block)
    requires free !! live && Tiling(free + live, usable) && b in live && b.order < MAX_ORDER
    requires Aligned(b.pfn, b.order) && Block(Buddy(b.pfn, b.order), b.order) in free
    ensures var c, m := Block(Buddy(b.pfn, b.order), b.order), Block(Down(b.pfn, b.order + 1), b.order + 1);
            (free - {c}) !! (live - {b} + {m}) && Tiling(free - {c} + (live - {b} + {m}), usable)
  {
    var k := b.order;
    var c, m := Block(Buddy(b.pfn, k), k), Block(Down(b.pfn, k + 1), k + 1);
    BuddyFacts(b.pfn, k);
    Halves(b.pfn, k);
    DownDown(b.pfn, k + 1, k + 1);
    hide Down, Pow2, FlipBit;
    assert {b, c} == {LowHalf(m), HighHalf(m)};
    TilingExcludesParent(free + live, b, usable);
    var rest := free + live - {b, c};
    HalvesTile(rest, m, usable);
    assert rest + {LowHalf(m), HighHalf(m)} == free + live;
    assert free - {c} + (live - {b} + {m}) == rest + {m};
  }

  lemma FuseKeeps(lists: Lists, live: set<Block>, usable: set<nat>, b: Block, i: nat)
    requires ZoneInv(lists, live, usable) && b in live && b.order < MAX_ORDER && Aligned(b.pfn, b.order)
    requires i < |lists[b.order]| && lists[b.order][i] == Buddy(b.pfn, b.order)
    ensures ZoneInv(Drop(lists, b.order, i), live - {b} + {Block(Down(b.pfn, b.order + 1), b.order + 1)}, usable)
    ensures Coalesced(lists) ==> Coalesced(Drop(lists, b.order, i))
  {
    hide Tiling, Down, Buddy, Coalesced, NoDup, FreeBlocks, Aligned;
    FreeMember(lists, b.order, Buddy(b.pfn, b.order));
    FuseTiles(FreeBlocks(lists), live, usable, b);
    DropBlocks(lists, b.order, i);
    DroppedCoalesced(lists, b.order, i);
  }

  // --- Allocation and freeing -----------------------------------------------

  /** First non-empty list at or above order k; MAX_ORDER + 1 when there is none. */
  function FirstOrder(lists: Lists, k: nat): (j: nat)
    requires |lists| == MAX_ORDER + 1 && k <= MAX_ORDER + 1
    ensures k <= j <= MAX_ORDER + 1
    ensures forall i :: k <= i < j ==> lists[i] == []
    ensures j <= MAX_ORDER ==> lists[j] != []
    decreases MAX_ORDER + 1 - k
  {
    if k > MAX_ORDER || lists[k] != [] then k else FirstOrder(lists, k + 1)
  }

  /** The lists after splitting block p from order j down to order k. */
  function Carved(lists: Lists, p: nat, j: nat, k: nat): (r: Lists)
    requires |lists| == MAX_ORDER + 1 && k <= j <= MAX_ORDER
    ensures |r| == |lists|
    decreases j
  {
    if j == k then lists else Carved(Push(lists, j - 1, p + Pow2(j - 1)), p, j - 1, k)
  }

  function AllocPfn(lists: Lists, k: nat): nat
    requires |lists| == MAX_ORDER + 1 && k <= MAX_ORDER && FirstOrder(lists, k) <= MAX_ORDER
  {
    lists[FirstOrder(lists, k)][0]
  }

  function AllocLists(lists: Lists, k: nat): (r: Lists)
    requires |lists| == MAX_ORDER + 1 && k <= MAX_ORDER && FirstOrder(lists, k) <= MAX_ORDER
    ensures |r| == |lists|
  {
    var j := FirstOrder(lists, k);
    Carved(Drop(lists, j, 0), lists[j][0], j, k)
  }

  function IndexOf(l: seq<nat>, p: nat): (i: nat)
    requires p in l
    ensures i < |l| && l[i] == p
  {
    if l[0] == p then 0 else 1 + IndexOf(l[1..], p)
  }

  /** The lists after giving back block p of order k, merging while the buddy is free. */
  function FreeLists(lists: Lists, p: nat, k: nat): (r: Lists)
    requires |lists| == MAX_ORDER + 1 && k <= MAX_ORDER
    ensures |r| == |lists|
    decreases MAX_ORDER - k
  {
    var buddy := FlipBit(p, k);
    if k < MAX_ORDER && buddy in lists[k] then
      FreeLists(Drop(lists, k, IndexOf(lists[k], buddy)), if buddy < p then buddy else p, k + 1)
    else
      Push(lists, k, p)
  }

  lemma {:induction false} CarvedKeeps(lists: Lists, live: set<Block>, usable: set<nat>, p: nat, j: nat, k: nat)
    requires ZoneInv(lists, live + {Block(p, j)}, usable) && Block(p, j) !in live && k <= j <= MAX_ORDER
    ensures ZoneInv(Carved(lists, p, j, k), live + {Block(p, k)}, usable) && Block(p, k) !in live
    ensures Coalesced(lists) ==> Coalesced(Carved(lists, p, j, k))
    decreases j
  {
    hide Tiling, FreeBlocks, NoDup, Coalesced;
    if j > k {
      var b := Block(p, j);
      CarveKeeps(lists, live + {b}, usable, b);
      TilingExcludesHalves(FreeBlocks(lists) + (live + {b}), b, usable);
      assert live + {b} - {b} + {LowHalf(b)} == live + {Block(p, j - 1)};
      CarvedKeeps(Push(lists, j - 1, p + Pow2(j - 1)), live, usable, p, j - 1, k);
    }
  }

  /** Every successful allocation hands out one aligned block that was free,
      and keeps the partition and the coalescing of the zone. */
  lemma AllocKeeps(lists: Lists, live: set<Block>, usable: set<nat>, k: nat)
    requires ZoneInv(lists, live, usable) && k <= MAX_ORDER && FirstOrder(lists, k) <= MAX_ORDER
    ensures var b := Block(AllocPfn(lists, k), k);
            && Aligned(b.pfn, k) && b !in live
            && ZoneInv(AllocLists(lists, k), live + {b}, usable)
    ensures Coalesced(lists) ==> Coalesced(AllocLists(lists, k))
  {
    var j := FirstOrder(lists, k);
    TakeKeeps(lists, live, usable, j, 0);
    CarvedKeeps(Drop(lists, j, 0), live, usable, lists[j][0], j, k);
    var b := Block(AllocPfn(lists, k), k);
    assert b in FreeBlocks(AllocLists(lists, k)) + (live + {b});
  }

  lemma LiveBlock(lists: Lists, live: set<Block>, usable: set<nat>, b: Block)
    requires ZoneInv(lists, live, usable) && b in live
    ensures b.order <= MAX_ORDER && Aligned(b.pfn, b.order)
  {
    assert b in FreeBlocks(lists) + live;
  }

  /** One turn of the merge: with its buddy free, freeing b is freeing their parent. */
  lemma FreeFuses(lists: Lists, live: set<Block>, usable: set<nat>, b: Block)
    requires ZoneInv(lists, live, usable) && b in live && b.order < MAX_ORDER && Aligned(b.pfn, b.order)
    requires Buddy(b.pfn, b.order) in lists[b.order]
    ensures var m := Block(Down(b.pfn, b.order + 1), b.order + 1);
            var lists' := Drop(lists, b.order, IndexOf(lists[b.order], Buddy(b.pfn, b.order)));
            && ZoneInv(lists', live - {b} + {m}, usable) && (Coalesced(lists) ==> Coalesced(lists'))
            && live - {b} + {m} - {m} == live - {b}
            && FreeLists(lists, b.pfn, b.order) == FreeLists(lists', m.pfn, m.order)
  {
    FlipIsBuddy(b.pfn, b.order);
    BuddyFacts(b.pfn, b.order);
    hide Down, Pow2, FlipBit, Tiling, FreeBlocks, NoDup, Coalesced;
    var m := Block(Down(b.pfn, b.order + 1), b.order + 1);
    FuseKeeps(lists, live, usable, b, IndexOf(lists[b.order], Buddy(b.pfn, b.order)));
    TilingExcludesParent(FreeBlocks(lists) + live, b, usable);
    assert live - {b} + {m} - {m} == live - {b};
  }

  /** Freeing a live block keeps the partition and restores full coalescing. */
  lemma {:induction false} FreeKeeps(lists: Lists, live: set<Block>, usable: set<nat>, b: Block)
    requires ZoneInv(lists, live, usable) && b in live
    ensures b.order <= MAX_ORDER && Aligned(b.pfn, b.order)
    ensures ZoneInv(FreeLists(lists, b.pfn, b.order), live - {b}, usable)
    ensures Coalesced(lists) ==> Coalesced(FreeLists(lists, b.pfn, b.order))
    decreases MAX_ORDER - b.order
  {
    hide Aligned, Down, Buddy, FlipBit, Tiling, FreeBlocks, NoDup, Coalesced;
    LiveBlock(lists, live, usable, b);
    var k := b.order;
    FlipIsBuddy(b.pfn, k);
    if k < MAX_ORDER && Buddy(b.pfn, k) in lists[k] {
      var m := Block(Down(b.pfn, k + 1), k + 1);
      FreeFuses(lists, live, usable, b);
      FreeKeeps(Drop(lists, k, IndexOf(lists[k], Buddy(b.pfn, k))), live - {b} + {m}, usable, m);
    } else {
      ReleaseKeeps(lists, live, usable, b);
    }
  }

  // --- Round trip -------------------------------------------------------------

  lemma DropUndoesPush(lists: Lists, k: nat, p: nat)
    requires k < |lists|
    ensures Drop(Push(lists, k, p), k, 0) == lists
  {
    var l := [p] + lists[k];
    assert l[..0] + l[1..] == lists[k];
  }

  lemma PushUndoesDrop(lists: Lists, k: nat)
    requires k < |lists| && lists[k] != []
    ensures Push(Drop(lists, k, 0), k, lists[k][0]) == lists
  {
    var l := lists[k];
    assert [l[0]] + (l[..0] + l[1..]) == l;
  }

  /** Freeing merges one order up when the buddy is alone on its list. */
  lemma FreeMergesOnce(lists: Lists, p: nat, j: nat)
    requires |lists| == MAX_ORDER + 1 && 0 < j <= MAX_ORDER && Aligned(p, j) && lists[j - 1] == []
    ensures FreeLists(Push(lists, j - 1, p + Pow2(j - 1)), p, j - 1) == FreeLists(lists, p, j)
  {
    var hi := p + Pow2(j - 1);
    AlignedBelow(p, j - 1, j);
    FlipIsBuddy(p, j - 1);
    DropUndoesPush(lists, j - 1, hi);
    assert [hi][0] == hi;
  }

  lemma {:induction false} FreeUndoesCarve(lists: Lists, p: nat, j: nat, k: nat)
    requires |lists| == MAX_ORDER + 1 && k <= j <= MAX_ORDER && Aligned(p, j)
    requires forall i :: k <= i < j ==> lists[i] == []
    ensures FreeLists(Carved(lists, p, j, k), p, k) == FreeLists(lists, p, j)
    decreases j
  {
    hide FreeLists, FlipBit, Down, Pow2;
    if j > k {
      AlignedBelow(p, j - 1, j);
      FreeUndoesCarve(Push(lists, j - 1, p + Pow2(j - 1)), p, j - 1, k);
      FreeMergesOnce(lists, p, j);
    }
  }

  /** From a coalesced zone, allocating and freeing at once restores every free
      list exactly, order of the lists included. */
  lemma AllocFreeRoundTrip(lists: Lists, live: set<Block>, usable: set<nat>, k: nat)
    requires ZoneInv(lists, live, usable) && Coalesced(lists)
    requires k <= MAX_ORDER && FirstOrder(lists, k) <= MAX_ORDER
    ensures FreeLists(AllocLists(lists, k), AllocPfn(lists, k), k) == lists
  {
    var j := FirstOrder(lists, k);
    var p := lists[j][0];
    FreeMember(lists, j, p);
    assert Block(p, j) in FreeBlocks(lists) + live;
    FreeUndoesCarve(Drop(lists, j, 0), p, j, k);
    FlipIsBuddy(p, j);
    BuddyFacts(p, j);
    OnlySibling(p, Buddy(p, j), j);
    assert j < MAX_ORDER ==> Buddy(p, j) !in lists[j];
    PushUndoesDrop(lists, j);
  }

  // --- Honest exhaustion ------------------------------------------------------

  ghost predicate FreePage(lists: Lists, p: nat) {
    Owned(FreeBlocks(lists), p)
  }

  ghost predicate FreeRun(lists: Lists, p: nat, k: nat) {
    Aligned(p, k) && forall q: nat :: InRun(q, Block(p, k)) ==> FreePage(lists, q)
  }

  lemma HalvesOfFreeRun(lists: Lists, p: nat, k: nat)
    requires k > 0 && FreeRun(lists, p, k)
    ensures FreeRun(lists, p, k - 1) && FreeRun(lists, p + Pow2(k - 1), k - 1)
    ensures Down(p, k) == p && Down(p + Pow2(k - 1), k) == p
  {
    Halves(p, k - 1);
    forall q: nat | InRun(q, Block(p, k - 1)) || InRun(q, Block(p + Pow2(k - 1), k - 1))
      ensures FreePage(lists, q)
    {
      assert InRun(q, Block(p, k));
    }
  }

  lemma PageInOneBlock(lists: Lists, p: nat) returns (j: nat)
    requires |lists| == MAX_ORDER + 1 && FreeRun(lists, p, 0)
    ensures j <= MAX_ORDER && Down(p, j) in lists[j]
  {
    assert InRun(p, Block(p, 0));
    j :| j <= MAX_ORDER && Owns(FreeBlocks(lists), p, j);
    FreeMember(lists, j, Down(p, j));
  }

  /** The halves of an aligned run lie in free blocks of orders j and i; one of those
      blocks holds the whole run. */
  lemma HalvesInOne(lists: Lists, p: nat, k: nat, j: nat, i: nat)
    requires |lists| == MAX_ORDER + 1 && Coalesced(lists) && 0 < k <= MAX_ORDER && k - 1 <= j <= MAX_ORDER
    requires var hi := p + Pow2(k - 1); Down(p, k) == p && Down(hi, k) == p && Aligned(p, k - 1) && Aligned(hi, k - 1)
    requires Down(p, j) in lists[j] && k - 1 <= i <= MAX_ORDER && Down(p + Pow2(k - 1), i) in lists[i]
    ensures (k <= j && Down(p, j) in lists[j]) || (k <= i && Down(p, i) in lists[i])
  {
    var hi := p + Pow2(k - 1);
    if j == k - 1 {
      assert Siblings(p, hi, k - 1);
      if i > k - 1 {
        DownDown(hi, k, i);
      }
    }
  }

  /** In a coalesced zone a fully free aligned run lies inside one free block. */
  lemma {:induction false} FreeRunInOneBlock(lists: Lists, live: set<Block>, usable: set<nat>, p: nat, k: nat)
    returns (j: nat)
    requires ZoneInv(lists, live, usable) && Coalesced(lists) && k <= MAX_ORDER && FreeRun(lists, p, k)
    ensures k <= j <= MAX_ORDER && Down(p, j) in lists[j]
    decreases k
  {
    if k == 0 {
      j := PageInOneBlock(lists, p);
    } else {
      hide Down, Tiling, FreeBlocks, NoDup, Coalesced;
      HalvesOfFreeRun(lists, p, k);
      j := FreeRunInOneBlock(lists, live, usable, p, k - 1);
      var i := FreeRunInOneBlock(lists, live, usable, p + Pow2(k - 1), k - 1);
      HalvesInOne(lists, p, k, j, i);
      j := if j >= k then j else i;
    }
  }

  /** An allocation fails exactly when no aligned run of that size is free. */
  lemma AllocFailsHonestly(lists: Lists, live: set<Block>, usable: set<nat>, k: nat)
    requires ZoneInv(lists, live, usable) && Coalesced(lists) && k <= MAX_ORDER
    ensures FirstOrder(lists, k) > MAX_ORDER <==> !exists p: nat :: FreeRun(lists, p, k)
  {
    var j := FirstOrder(lists, k);
    if j <= MAX_ORDER {
      var p := lists[j][0];
      FreeMember(lists, j, p);
      assert Block(p, j) in FreeBlocks(lists) + live;
      AlignedBelow(p, k, j);
      Pow2Monotone(k, j);
      forall q: nat | InRun(q, Block(p, k))
        ensures FreePage(lists, q)
      {
        RunMembers(q, p, j);
        assert Owns(FreeBlocks(lists), q, j);
      }
      assert FreeRun(lists, p, k);
    } else if p: nat :| FreeRun(lists, p, k) {
      var i := FreeRunInOneBlock(lists, live, usable, p, k);
    }
  }

  lemma {:induction false} Pow2Monotone(j: nat, k: nat)
    requires j <= k
    ensures Pow2(j) <= Pow2(k)
    decreases k
  {
    if j < k {
      Pow2Monotone(j, k - 1);
    }
  }

  // --- Which pages are free ---------------------------------------------------

  /** The free pages are the usable pages no caller holds. */
  lemma FreePagesAreTheRest(lists: Lists, live: set<Block>, usable: set<nat>, q: nat)
    requires ZoneInv(lists, live, usable)
    ensures FreePage(lists, q) <==> q in usable && !Owned(live, q)
  {
    var all := FreeBlocks(lists) + live;
    assert OneOwner(all, q);
    if q in usable {
      var k: nat :| k <= MAX_ORDER && Owns(all, q, k);
      assert Owns(FreeBlocks(lists), q, k) || Owns(live, q, k);
    }
    if FreePage(lists, q) {
      var k: nat :| k <= MAX_ORDER && Owns(FreeBlocks(lists), q, k);
      assert Owns(all, q, k);
      if Owned(live, q) {
        var j: nat :| j <= MAX_ORDER && Owns(live, q, j);
        assert Owns(all, q, j);
      }
    }
  }

  /** Allocation removes exactly the pages of the block from the free pages. */
  lemma AllocTakesItsPages(lists: Lists, live: set<Block>, usable: set<nat>, k: nat, q: nat)
    requires ZoneInv(lists, live, usable) && k <= MAX_ORDER && FirstOrder(lists, k) <= MAX_ORDER
    ensures FreePage(AllocLists(lists, k), q) <==> FreePage(lists, q) && !InRun(q, Block(AllocPfn(lists, k), k))
  {
    AllocKeeps(lists, live, usable, k);
    var b := Block(AllocPfn(lists, k), k);
    LivePages(lists, live, usable, q);
    LivePages(AllocLists(lists, k), live + {b}, usable, q);
  }

  /** Freeing returns exactly the pages of the block to the free pages. */
  lemma FreeReturnsItsPages(lists: Lists, live: set<Block>, usable: set<nat>, b: Block, q: nat)
    requires ZoneInv(lists, live, usable) && b in live
    ensures b.order <= MAX_ORDER
    ensures FreePage(FreeLists(lists, b.pfn, b.order), q) <==> FreePage(lists, q) || InRun(q, b)
  {
    FreeKeeps(lists, live, usable, b);
    LivePages(lists, live, usable, q);
    LivePages(FreeLists(lists, b.pfn, b.order), live - {b}, usable, q);
    TilingMeans(FreeBlocks(lists) + live, usable);
  }

  /** Single pages: the allocator hands out some free page whenever there is one, and
      takes just that page. */
  lemma SinglePages(lists: Lists, live: set<Block>, usable: set<nat>)
    requires ZoneInv(lists, live, usable)
    ensures FirstOrder(lists, 0) > MAX_ORDER <==> forall q: nat :: !FreePage(lists, q)
    ensures FirstOrder(lists, 0) <= MAX_ORDER ==>
              && FreePage(lists, AllocPfn(lists, 0))
              && forall q: nat :: FreePage(AllocLists(lists, 0), q) <==> FreePage(lists, q) && q != AllocPfn(lists, 0)
  {
    hide ZoneInv, AllocLists, InRun;
    ZoneShape(lists, live, usable);
    if FirstOrder(lists, 0) <= MAX_ORDER {
      FirstIsFree(lists, live, usable);
      forall q: nat
        ensures FreePage(AllocLists(lists, 0), q) <==> FreePage(lists, q) && q != AllocPfn(lists, 0)
      {
        AllocTakesItsPages(lists, live, usable, 0, q);
        RunOfOne(q, AllocPfn(lists, 0));
      }
    } else {
      assert FreeBlocks(lists) == {};
    }
  }

  lemma ZoneShape(lists: Lists, live: set<Block>, usable: set<nat>)
    requires ZoneInv(lists, live, usable)
    ensures |lists| == MAX_ORDER + 1
  {
  }

  lemma RunOfOne(q: nat, p: nat)
    ensures InRun(q, Block(p, 0)) <==> q == p
  {
  }

  lemma FirstIsFree(lists: Lists, live: set<Block>, usable: set<nat>)
    requires ZoneInv(lists, live, usable) && FirstOrder(lists, 0) <= MAX_ORDER
    ensures FreePage(lists, AllocPfn(lists, 0))
  {
    var j := FirstOrder(lists, 0);
    var p := lists[j][0];
    FreeMember(lists, j, p);
    assert Block(p, j) in FreeBlocks(lists) + live;
    RunMembers(p, p, j);
    assert Owns(FreeBlocks(lists), p, j);
  }

  lemma LivePages(lists: Lists, live: set<Block>, usable: set<nat>, q: nat)
    requires ZoneInv(lists, live, usable)
    ensures FreePage(lists, q) <==> q in usable && !exists b :: b in live && InRun(q, b)
  {
    FreePagesAreTheRest(lists, live, usable, q);
    forall b | b in live
      ensures InRun(q, b) <==> Owns(live, q, b.order) && Down(q, b.order) == b.pfn
    {
      assert b in FreeBlocks(lists) + live;
      RunMembers(q, b.pfn, b.order);
    }
    if Owned(live, q) {
      var k: nat :| k <= MAX_ORDER && Owns(live, q, k);
      assert InRun(q, Block(Down(q, k), k));
    }
    if b :| b in live && InRun(q, b) {
      assert b in FreeBlocks(lists) + live;
      assert Owns(live, q, b.order);
    }
  }

  // --- Page counts --------------------------------------------------------------

  /** Sum over the orders from k up of free_count[k] * 2^k. */
  ghost function PageSum(lists: Lists, k: nat): nat
    requires k <= |lists|
    decreases |lists| - k
  {
    if k == |lists| then 0 else |lists[k]| * Pow2(k) + PageSum(lists, k + 1)
  }

  lemma {:induction false} PushPages(lists: Lists, j: nat, p: nat, k: nat)
    requires j < |lists| && k <= |lists|
    ensures PageSum(Push(lists, j, p), k) == PageSum(lists, k) + if k <= j then Pow2(j) else 0
    decreases |lists| - k
  {
    if k < |lists| {
      PushPages(lists, j, p, k + 1);
      assert k == j ==> (|lists[j]| + 1) * Pow2(j) == |lists[j]| * Pow2(j) + Pow2(j);
    }
  }

  lemma {:induction false} DropPages(lists: Lists, j: nat, i: nat, k: nat)
    requires j < |lists| && i < |lists[j]| && k <= |lists|
    ensures PageSum(lists, k) == PageSum(Drop(lists, j, i), k) + if k <= j then Pow2(j) else 0
    decreases |lists| - k
  {
    if k < |lists| {
      DropPages(lists, j, i, k + 1);
      assert k == j ==> |lists[j]| * Pow2(j) == (|lists[j]| - 1) * Pow2(j) + Pow2(j);
    }
  }

  lemma {:induction false} CarvedPages(lists: Lists, p: nat, j: nat, k: nat)
    requires |lists| == MAX_ORDER + 1 && k <= j <= MAX_ORDER
    ensures PageSum(Carved(lists, p, j, k), 0) + Pow2(k) == PageSum(lists, 0) + Pow2(j)
    decreases j
  {
    if j > k {
      PushPages(lists, j - 1, p + Pow2(j - 1), 0);
      CarvedPages(Push(lists, j - 1, p + Pow2(j - 1)), p, j - 1, k);
    }
  }

  lemma AllocPages(lists: Lists, k: nat)
    requires |lists| == MAX_ORDER + 1 && k <= MAX_ORDER && FirstOrder(lists, k) <= MAX_ORDER
    ensures PageSum(AllocLists(lists, k), 0) + Pow2(k) == PageSum(lists, 0)
  {
    var j := FirstOrder(lists, k);
    DropPages(lists, j, 0, 0);
    CarvedPages(Drop(lists, j, 0), lists[j][0], j, k);
  }

  lemma {:induction false} FreePages(lists: Lists, p: nat, k: nat)
    requires |lists| == MAX_ORDER + 1 && k <= MAX_ORDER
    ensures PageSum(FreeLists(lists, p, k), 0) == PageSum(lists, 0) + Pow2(k)
    decreases MAX_ORDER - k
  {
    var buddy := FlipBit(p, k);
    if k < MAX_ORDER && buddy in lists[k] {
      var i := IndexOf(lists[k], buddy);
      DropPages(lists, k, i, 0);
      FreePages(Drop(lists, k, i), if buddy < p then buddy else p, k + 1);
    } else {
      PushPages(lists, k, p, 0);
    }
  }

  // --- Whole runs ----------------------------------------------------------------

  datatype Op = AllocOp(order: nat) | FreeOp(block: Block)

  /** One call; an allocation that finds no block changes nothing, and a free
      is a step of the run only when its block is live. */
  ghost predicate Step(lists: Lists, live: set<Block>, op: Op, lists': Lists, live': set<Block>)
    requires |lists| == MAX_ORDER + 1
  {
    match op
    case AllocOp(k) =>
      if k <= MAX_ORDER && FirstOrder(lists, k) <= MAX_ORDER then
        lists' == AllocLists(lists, k) && live' == live + {Block(AllocPfn(lists, k), k)}
      else
        lists' == lists && live' == live
    case FreeOp(b) =>
      && b in live && b.order <= MAX_ORDER
      && lists' == FreeLists(lists, b.pfn, b.order) && live' == live - {b}
  }

  ghost predicate Run(zones: seq<(Lists, set<Block>)>, ops: seq<Op>) {
    && |zones| == |ops| + 1
    && (forall i :: 0 <= i < |ops| ==>
          |zones[i].0| == MAX_ORDER + 1 && Step(zones[i].0, zones[i].1, ops[i], zones[i + 1].0, zones[i + 1].1))
  }

  /** Over every run from a coalesced zone the partition and the coalescing
      hold at every point, so every failed allocation in it is honest. */
  lemma {:induction false} RunKeeps(zones: seq<(Lists, set<Block>)>, ops: seq<Op>, usable: set<nat>, n: nat)
    requires Run(zones, ops) && n < |zones|
    requires ZoneInv(zones[0].0, zones[0].1, usable) && Coalesced(zones[0].0)
    ensures ZoneInv(zones[n].0, zones[n].1, usable) && Coalesced(zones[n].0)
    ensures forall k: nat :: k <= MAX_ORDER ==>
              (FirstOrder(zones[n].0, k) > MAX_ORDER <==> !exists p: nat :: FreeRun(zones[n].0, p, k))
  {
    hide Tiling, FreeBlocks, NoDup, Coalesced, FreeRun;
    if n > 0 {
      RunKeeps(zones, ops, usable, n - 1);
      var lists, live := zones[n - 1].0, zones[n - 1].1;
      assert Step(lists, live, ops[n - 1], zones[n].0, zones[n].1);
      match ops[n - 1]
      case AllocOp(k) =>
        if k <= MAX_ORDER && FirstOrder(lists, k) <= MAX_ORDER {
          AllocKeeps(lists, live, usable, k);
        }
      case FreeOp(b) =>
        FreeKeeps(lists, live, usable, b);
    }
    forall k: nat | k <= MAX_ORDER
      ensures FirstOrder(zones[n].0, k) > MAX_ORDER <==> !exists p: nat :: FreeRun(zones[n].0, p, k)
    {
      AllocFailsHonestly(zones[n].0, zones[n].1, usable, k);
    }
  }
}
