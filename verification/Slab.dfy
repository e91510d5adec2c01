/** The slab allocator of kernel/mm/slab.c: caches of equal-sized objects, cut from
    slabs of a few pages whose descriptor sits at their start. */
module Slab {
  import opened Sequences
  import opened Division

  const PAGE: nat := 4096
  const DESCRIPTOR: nat := 48
  const MIN_SIZE: nat := 16
  const HEAP_END: nat := 0xFFFFFFFFC0000000

  // --- Sizing --------------------------------------------------------------------------------------

  /** Object size, alignment, pages per slab, objects per slab. */
  datatype Conf = Conf(size: nat, align: nat, pages: nat, total: nat)

  function AlignUp(x: nat, a: nat): nat
    requires a > 0
  {
    (x + (a - 1)) / a * a
  }

  function PerSlab(size: nat, pages: nat): nat
    requires size > 0 && pages > 0
  {
    (pages * PAGE - DESCRIPTOR) / size
  }

  /** Alignments are powers of two up to a page; sizes are multiples of them. */
  predicate ConfOk(c: Conf) {
    && c.align > 0 && PAGE % c.align == 0 && c.size > 0 && c.size % c.align == 0 && c.pages > 0
    && c.total == PerSlab(c.size, c.pages)
  }

  lemma Multiple(x: nat, a: nat) returns (k: nat)
    requires a > 0 && x % a == 0
    ensures x == k * a
  {
    k := x / a;
    assert x == x / a * a + x % a;
  }

  lemma Scale(p: nat, q: nat, a: nat)
    requires p <= q
    ensures p * a <= q * a
  {
  }

  lemma AlignUpIs(x: nat, a: nat)
    requires a > 0
    ensures AlignUp(x, a) % a == 0 && x <= AlignUp(x, a) < x + a
  {
    var q := (x + (a - 1)) / a;
    assert x + (a - 1) == q * a + (x + (a - 1)) % a;
    Divided(q * a, a, q, 0);
  }

  /** No multiple of a lies between x and its alignment. */
  lemma AlignUpLeast(x: nat, a: nat, k: nat)
    requires a > 0 && x <= k * a
    ensures AlignUp(x, a) <= k * a
  {
    var q := (x + (a - 1)) / a;
    assert x + (a - 1) == q * a + (x + (a - 1)) % a;
    assert (k + 1) * a == k * a + a;
    if q > k {
      Scale(k + 1, q, a);
    }
  }

  /** First object of a slab, counted from the slab's start. */
  function Head(c: Conf): nat
    requires c.align > 0
  {
    AlignUp(DESCRIPTOR, c.align)
  }

  /** The objects end within the slab although the count ignores alignment. */
  lemma ObjectsFit(c: Conf)
    requires ConfOk(c)
    ensures Head(c) + c.total * c.size <= c.pages * PAGE
  {
    var n := c.pages * PAGE - DESCRIPTOR;
    assert n == n / c.size * c.size + n % c.size;
    var p := Multiple(PAGE, c.align);
    var s := Multiple(c.size, c.align);
    var k := c.pages * p - c.total * s;
    assert c.pages * PAGE == c.pages * p * c.align by { assert c.pages * PAGE == c.pages * (p * c.align); }
    assert c.total * c.size == c.total * s * c.align by { assert c.total * c.size == c.total * (s * c.align); }
    assert k * c.align == c.pages * p * c.align - c.total * s * c.align;
    assert k * c.align == c.pages * PAGE - c.total * c.size >= DESCRIPTOR;
    assert k < 0 ==> k * c.align < 0;
    AlignUpLeast(DESCRIPTOR, c.align, k);
  }

  /** kmem_cache_create's choice of size, alignment and slab length. */
  method Configure(size: nat, align: nat) returns (c: Conf)
    requires align == 0 || PAGE % align == 0
    ensures ConfOk(c) && c.size >= size && c.size >= MIN_SIZE && c.pages <= 16
    ensures c.align == if align == 0 then 16 else align
    ensures c.size < (if size < MIN_SIZE then MIN_SIZE else size) + c.align
    ensures c.total >= 2 || c.pages == 16
  {
    var s := if size < MIN_SIZE then MIN_SIZE else size;
    var a := align;
    if a == 0 {
      a := 8;
      if s > 8 && s <= 16 {
        a := 16;
      } else if s > 16 {
        a := 16;
      }
    }
    AlignUpIs(s, a);
    s := AlignUp(s, a);
    var pages := if s <= 256 then 1 else if s <= 1024 then 2 else 4;
    var total := PerSlab(s, pages);
    while total < 2 && pages < 16
      invariant pages in {1, 2, 4, 8, 16} && total == PerSlab(s, pages)
      decreases 16 - pages
    {
      pages := pages * 2;
      total := PerSlab(s, pages);
    }
    return Conf(s, a, pages, total);
  }

  // --- Objects ---------------------------------------------------------------------------------------

  function ObjAt(c: Conf, base: nat, i: nat): nat
    requires c.align > 0
  {
    base + Head(c) + i * c.size
  }

  ghost function Objs(c: Conf, base: nat): set<nat>
    requires c.align > 0
  {
    set i | 0 <= i < c.total :: ObjAt(c, base, i)
  }

  predicate Covers(c: Conf, base: nat, a: nat) {
    base <= a < base + c.pages * PAGE
  }

  /** Objects do not overlap, and lie between the descriptor and the end. */
  lemma ObjectIs(c: Conf, base: nat, i: nat, j: nat)
    requires ConfOk(c) && i < c.total
    ensures base + DESCRIPTOR <= ObjAt(c, base, i) && ObjAt(c, base, i) + c.size <= base + c.pages * PAGE
    ensures i < j ==> ObjAt(c, base, i) + c.size <= ObjAt(c, base, j)
  {
    ObjectsFit(c);
    AlignUpIs(DESCRIPTOR, c.align);
    assert (i + 1) * c.size == i * c.size + c.size;
    Scale(i + 1, c.total, c.size);
    if i < j {
      Scale(i + 1, j, c.size);
    }
  }

  /** Slabs start at page boundaries, so every object has the cache's alignment. */
  lemma ObjectAligned(c: Conf, base: nat, i: nat)
    requires ConfOk(c) && base % PAGE == 0
    ensures ObjAt(c, base, i) % c.align == 0
  {
    AlignUpIs(DESCRIPTOR, c.align);
    var b := Multiple(base, PAGE);
    var p := Multiple(PAGE, c.align);
    var h := Multiple(Head(c), c.align);
    var s := Multiple(c.size, c.align);
    Regroup(b, p, c.align);
    Regroup(i, s, c.align);
    Factor(b * p, h, i * s, c.align);
    Divided(ObjAt(c, base, i), c.align, b * p + h + i * s, 0);
  }

  lemma Regroup(x: nat, y: nat, z: nat)
    ensures x * (y * z) == x * y * z
  {
  }

  lemma Factor(x: nat, y: nat, z: nat, a: nat)
    ensures x * a + y * a + z * a == (x + y + z) * a
  {
  }

  lemma ObjCovered(c: Conf, base: nat, a: nat)
    requires ConfOk(c) && a in Objs(c, base)
    ensures Covers(c, base, a) && a + c.size <= base + c.pages * PAGE && a != 0
  {
    var i :| 0 <= i < c.total && a == ObjAt(c, base, i);
    ObjectIs(c, base, i, i);
  }

  /** The first n objects, newest first, as slab_create chains them. */
  function Chain(c: Conf, base: nat, n: nat): seq<nat>
    requires c.align > 0
  {
    if n == 0 then [] else [ObjAt(c, base, n - 1)] + Chain(c, base, n - 1)
  }

  lemma {:induction false} ChainIs(c: Conf, base: nat, n: nat)
    requires ConfOk(c) && n <= c.total
    ensures |Chain(c, base, n)| == n && NoDup(Chain(c, base, n))
    ensures forall k :: 0 <= k < n ==> Chain(c, base, n)[k] == ObjAt(c, base, n - 1 - k)
  {
    hide ObjAt, ConfOk;
    Sized(c);
    if n > 0 {
      ChainIs(c, base, n - 1);
      var s := Chain(c, base, n);
      forall k | 0 < k < n
        ensures s[k] == ObjAt(c, base, n - 1 - k) && s[k] != s[0]
      {
        assert s[k] == Chain(c, base, n - 1)[k - 1];
        ObjectIs(c, base, n - 1 - k, n - 1);
      }
    }
  }

  lemma Sized(c: Conf)
    requires ConfOk(c)
    ensures c.size > 0 && c.align > 0
  {
  }

  /** Without repetition, as many as there are means all. */
  lemma {:induction false} Pigeonhole(s: seq<nat>, all: set<nat>)
    requires NoDup(s) && (forall x :: x in s ==> x in all)
    ensures |s| <= |all|
    ensures |s| == |all| ==> forall x :: x in all ==> x in s
  {
    if s != [] {
      var x, rest := s[0], s[1..];
      assert s == [x] + rest;
      assert forall y :: y in rest ==> y != x;
      Pigeonhole(rest, all - {x});
    }
  }

  lemma {:induction false} ObjCount(c: Conf, base: nat, n: nat)
    requires ConfOk(c) && n <= c.total
    ensures |set i | 0 <= i < n :: ObjAt(c, base, i)| == n
  {
    hide ObjAt, ConfOk;
    Sized(c);
    if n > 0 {
      ObjCount(c, base, n - 1);
      var less, all := set i | 0 <= i < n - 1 :: ObjAt(c, base, i), set i | 0 <= i < n :: ObjAt(c, base, i);
      forall i: nat | i < n - 1
        ensures ObjAt(c, base, i) != ObjAt(c, base, n - 1)
      {
        ObjectIs(c, base, i, n - 1);
      }
      assert all == less + {ObjAt(c, base, n - 1)};
    }
  }

  // --- Slabs and their lists -----------------------------------------------------------------------------

  datatype SlabDesc = SlabDesc(inUse: nat, free: seq<nat>)

  /** A cache: its slabs by address, the three lists, and the end of the heap so far. */
  datatype State = State(slabs: map<nat, SlabDesc>, full: seq<nat>, partial: seq<nat>, empty: seq<nat>, heap: nat)

  /** Slabs lie below the heap's end and do not overlap. */
  ghost predicate Placed(c: Conf, st: State) {
    && st.heap % PAGE == 0 && st.heap > 0
    && (forall b :: b in st.slabs ==> b % PAGE == 0 && b + c.pages * PAGE <= st.heap)
    && (forall b, d :: b in st.slabs && d in st.slabs && b < d ==> b + c.pages * PAGE <= d)
  }

  /** The free list holds objects of the slab, none twice; the rest are in use. */
  ghost predicate SlabOk(c: Conf, base: nat, s: SlabDesc)
    requires c.align > 0
  {
    NoDup(s.free) && (forall a :: a in s.free ==> a in Objs(c, base)) && s.inUse + |s.free| == c.total
  }

  ghost predicate SlabsOk(c: Conf, st: State)
    requires c.align > 0
  {
    forall b :: b in st.slabs ==> SlabOk(c, b, st.slabs[b])
  }

  /** Every slab is on exactly one list. */
  ghost predicate OnOneList(st: State) {
    multiset(st.full) + multiset(st.partial) + multiset(st.empty) == multiset(st.slabs.Keys)
  }

  predicate IsFull(c: Conf, s: SlabDesc) {
    s.inUse == c.total
  }

  /** With one object per slab, a freed slab stays among the partial ones. */
  predicate IsPartial(c: Conf, s: SlabDesc) {
    s.inUse < c.total && (s.inUse > 0 || c.total == 1)
  }

  predicate IsEmpty(c: Conf, s: SlabDesc) {
    s.inUse == 0 && c.total > 1
  }

  ghost predicate Sorted(c: Conf, st: State) {
    && (forall b :: b in st.full ==> b in st.slabs && IsFull(c, st.slabs[b]))
    && (forall b :: b in st.partial ==> b in st.slabs && IsPartial(c, st.slabs[b]))
    && (forall b :: b in st.empty ==> b in st.slabs && IsEmpty(c, st.slabs[b]))
    && |st.empty| <= 1
  }

  ghost predicate Inv(c: Conf, st: State) {
    ConfOk(c) && Placed(c, st) && SlabsOk(c, st) && OnOneList(st) && Sorted(c, st)
  }

  /** Object a of slab b is handed out. */
  ghost predicate LiveIn(c: Conf, st: State, b: nat, a: nat)
    requires c.align > 0
  {
    b in st.slabs && a in Objs(c, b) && a !in st.slabs[b].free
  }

  ghost function Live(c: Conf, st: State): set<nat>
    requires c.align > 0
  {
    set b, a | b in st.slabs && a in Objs(c, b) && a !in st.slabs[b].free :: a
  }

  lemma LiveMeans(c: Conf, st: State, a: nat)
    requires c.align > 0
    ensures a in Live(c, st) <==> exists b :: LiveIn(c, st, b, a)
  {
    if a in Live(c, st) {
      var b :| b in st.slabs && a in Objs(c, b) && a !in st.slabs[b].free;
      assert LiveIn(c, st, b, a);
    }
  }

  /** An object belongs to one slab. */
  lemma OwnerUnique(c: Conf, st: State, b: nat, d: nat, a: nat)
    requires ConfOk(c) && Placed(c, st) && b in st.slabs && d in st.slabs && Covers(c, b, a) && Covers(c, d, a)
    ensures b == d
  {
  }

  // --- Steps on one slab ---------------------------------------------------------------------------------

  /** Slab b's descriptor changes and the lists with it. */
  ghost predicate Touched(st: State, st': State, b: nat, s: SlabDesc) {
    b in st.slabs && st'.slabs == st.slabs[b := s] && st'.heap == st.heap
  }

  lemma TouchedKeeps(c: Conf, st: State, st': State, b: nat, s: SlabDesc)
    requires ConfOk(c) && Placed(c, st) && SlabsOk(c, st) && Touched(st, st', b, s) && SlabOk(c, b, s)
    ensures Placed(c, st') && SlabsOk(c, st')
  {
  }

  /** Taking the head of the free list hands out one object more. */
  lemma TakeLive(c: Conf, st: State, st': State, b: nat)
    requires ConfOk(c) && Placed(c, st) && SlabsOk(c, st) && b in st.slabs && st.slabs[b].free != []
    requires var s := st.slabs[b]; Touched(st, st', b, SlabDesc(s.inUse + 1, s.free[1..]))
    ensures SlabOk(c, b, st'.slabs[b])
    ensures st.slabs[b].free[0] !in Live(c, st) && st.slabs[b].free[0] in Objs(c, b)
    ensures Live(c, st') == Live(c, st) + {st.slabs[b].free[0]}
  {
    hide Objs, OnOneList, Sorted, Live;
    var s, x := st.slabs[b], st.slabs[b].free[0];
    assert x in s.free && s.free == [x] + s.free[1..];
    forall a
      ensures a in Live(c, st') <==> a in Live(c, st) || a == x
      ensures a == x ==> a !in Live(c, st)
    {
      LiveMeans(c, st, a);
      LiveMeans(c, st', a);
      forall d | LiveIn(c, st, d, a)
        ensures LiveIn(c, st', d, a) && a != x
      {
        if a == x {
          ObjCovered(c, b, a);
          ObjCovered(c, d, a);
          OwnerUnique(c, st, b, d, a);
        }
      }
      forall d | LiveIn(c, st', d, a) && a != x
        ensures LiveIn(c, st, d, a)
      {
      }
      if a == x {
        assert LiveIn(c, st', b, a);
      }
    }
  }

  /** Putting a live object back hands out one object less. */
  lemma GiveLive(c: Conf, st: State, st': State, b: nat, x: nat)
    requires ConfOk(c) && Placed(c, st) && SlabsOk(c, st) && LiveIn(c, st, b, x) && st.slabs[b].inUse > 0
    requires var s := st.slabs[b]; Touched(st, st', b, SlabDesc(s.inUse - 1, [x] + s.free))
    ensures SlabOk(c, b, st'.slabs[b])
    ensures x in Live(c, st) && Live(c, st') == Live(c, st) - {x}
  {
    hide Objs, OnOneList, Sorted, Live;
    forall a
      ensures a in Live(c, st') <==> a in Live(c, st) && a != x
      ensures a == x ==> a in Live(c, st)
    {
      LiveMeans(c, st, a);
      LiveMeans(c, st', a);
      forall d | LiveIn(c, st', d, a)
        ensures LiveIn(c, st, d, a) && a != x
      {
        if a == x {
          ObjCovered(c, b, a);
          ObjCovered(c, d, a);
          OwnerUnique(c, st, b, d, a);
        }
      }
      forall d | LiveIn(c, st, d, a) && a != x
        ensures LiveIn(c, st', d, a)
      {
      }
    }
  }

  /** A slab without objects in use has none handed out. */
  lemma EmptyMeans(c: Conf, st: State, b: nat)
    requires ConfOk(c) && SlabsOk(c, st) && b in st.slabs && st.slabs[b].inUse == 0
    ensures forall a :: !LiveIn(c, st, b, a)
  {
    hide ObjAt;
    ObjCount(c, b, c.total);
    Pigeonhole(st.slabs[b].free, Objs(c, b));
  }

  /** A live object keeps its slab in use. */
  lemma LiveMeansInUse(c: Conf, st: State, b: nat, a: nat)
    requires ConfOk(c) && SlabsOk(c, st) && LiveIn(c, st, b, a)
    ensures st.slabs[b].inUse > 0
  {
    if st.slabs[b].inUse == 0 {
      EmptyMeans(c, st, b);
    }
  }

  /** A new slab at the end of the heap, all of its objects free. */
  lemma CreateKeeps(c: Conf, st: State, st': State)
    requires ConfOk(c) && Placed(c, st) && SlabsOk(c, st)
    requires st'.slabs == st.slabs[st.heap := SlabDesc(0, Chain(c, st.heap, c.total))]
             && st'.heap == st.heap + c.pages * PAGE
    ensures Placed(c, st') && SlabsOk(c, st') && Live(c, st') == Live(c, st) && st.heap !in st.slabs
  {
    hide ObjAt, Live;
    var h := st.heap;
    ChainIs(c, h, c.total);
    PagesAlign(h, c.pages);
    assert c.pages * PAGE > 0;
    var free := Chain(c, h, c.total);
    assert SlabOk(c, h, SlabDesc(0, free)) by {
      forall a | a in free
        ensures a in Objs(c, h)
      {
        var k :| 0 <= k < |free| && free[k] == a;
        assert a == ObjAt(c, h, c.total - 1 - k);
      }
    }
    EmptyMeans(c, st', h);
    forall a
      ensures a in Live(c, st') <==> a in Live(c, st)
    {
      LiveMeans(c, st, a);
      LiveMeans(c, st', a);
      forall d | LiveIn(c, st, d, a)
        ensures LiveIn(c, st', d, a)
      {
      }
      forall d | LiveIn(c, st', d, a)
        ensures LiveIn(c, st, d, a)
      {
      }
    }
  }

  lemma PagesAlign(h: nat, n: nat)
    requires h % PAGE == 0
    ensures (h + n * PAGE) % PAGE == 0
  {
  }

  /** A slab with nothing in use disappears. */
  lemma DestroyKeeps(c: Conf, st: State, st': State, b: nat)
    requires ConfOk(c) && Placed(c, st) && SlabsOk(c, st) && b in st.slabs && st.slabs[b].inUse == 0
    requires st'.slabs == st.slabs - {b} && st'.heap == st.heap
    ensures Placed(c, st') && SlabsOk(c, st') && Live(c, st') == Live(c, st)
  {
    hide Objs, Live;
    EmptyMeans(c, st, b);
    forall a
      ensures a in Live(c, st') <==> a in Live(c, st)
    {
      LiveMeans(c, st, a);
      LiveMeans(c, st', a);
      forall d | LiveIn(c, st, d, a)
        ensures LiveIn(c, st', d, a)
      {
      }
      forall d | LiveIn(c, st', d, a)
        ensures LiveIn(c, st, d, a)
      {
      }
    }
  }

  /** Two objects in use never share a byte; each lies inside a slab of the cache,
      behind the descriptor, and is aligned. */
  lemma LiveApart(c: Conf, st: State, x: nat, y: nat)
    requires Inv(c, st) && x in Live(c, st) && y in Live(c, st) && x < y
    ensures x + c.size <= y
    ensures exists b :: b in st.slabs && b + DESCRIPTOR <= x && x + c.size <= b + c.pages * PAGE
    ensures x % c.align == 0
  {
    LiveMeans(c, st, x);
    LiveMeans(c, st, y);
    var b :| LiveIn(c, st, b, x);
    var d :| LiveIn(c, st, d, y);
    var i :| 0 <= i < c.total && x == ObjAt(c, b, i);
    var j :| 0 <= j < c.total && y == ObjAt(c, d, j);
    hide Live, LiveIn, SlabsOk, OnOneList, Sorted, ObjAt;
    ObjectIs(c, b, i, j);
    ObjectIs(c, d, j, i);
    ObjectAligned(c, b, i);
  }

  // --- Which list ---------------------------------------------------------------------------------------

  /** A slab on the partial list, or with free objects, can hand one out. */
  lemma PartialHead(c: Conf, st: State)
    requires Inv(c, st) && st.partial != []
    ensures st.partial[0] in st.slabs && st.slabs[st.partial[0]].free != [] && st.slabs[st.partial[0]].inUse < c.total
  {
  }

  lemma EmptyHead(c: Conf, st: State)
    requires Inv(c, st) && st.empty != []
    ensures st.empty[0] in st.slabs && st.slabs[st.empty[0]].free != [] && st.slabs[st.empty[0]].inUse == 0 < c.total
  {
  }

  /** The slab that hands out an object, and the object. */
  ghost predicate Hands(st: State, st': State, b: nat) {
    && b in st.slabs && st.slabs[b].free != []
    && Touched(st, st', b, SlabDesc(st.slabs[b].inUse + 1, st.slabs[b].free[1..]))
  }

  /** Unused slabs are on the empty list, and there is at most one, if and only if a slab
      holds more than one object; otherwise they pile up on the partial list. */
  lemma UnusedIs(c: Conf, st: State, b: nat)
    requires Inv(c, st) && b in st.slabs && st.slabs[b].inUse == 0 < c.total
    ensures c.total > 1 <==> st.empty == [b]
    ensures c.total == 1 <==> b in st.partial
  {
    ListsApart(st, b);
    InList(st.full, b);
    InList(st.partial, b);
    InList(st.empty, b);
  }

  /** Lists do not share slabs. */
  lemma ListsApart(st: State, b: nat)
    requires OnOneList(st)
    ensures multiset(st.full)[b] + multiset(st.partial)[b] + multiset(st.empty)[b] == if b in st.slabs then 1 else 0
  {
    assert (multiset(st.full) + multiset(st.partial) + multiset(st.empty))[b] == multiset(st.slabs.Keys)[b];
  }

  lemma InList(s: seq<nat>, b: nat)
    ensures b in s <==> multiset(s)[b] > 0
  {
  }

  /** Other slabs stay where they were, b is where it belongs. */
  lemma Resorted(c: Conf, st: State, st': State, b: nat)
    requires Sorted(c, st) && b in st.slabs && b in st'.slabs
    requires forall d :: d in st.slabs && d != b ==> d in st'.slabs && st'.slabs[d] == st.slabs[d]
    requires forall d :: d != b ==>
               && (d in st'.full ==> d in st.full) && (d in st'.partial ==> d in st.partial)
               && (d in st'.empty ==> d in st.empty)
    requires b in st'.full ==> IsFull(c, st'.slabs[b])
    requires b in st'.partial ==> IsPartial(c, st'.slabs[b])
    requires b in st'.empty ==> IsEmpty(c, st'.slabs[b])
    requires |st'.empty| <= 1
    ensures Sorted(c, st')
  {
  }

  /** A slab of the partial list handed out an object and moved on if it is full. */
  lemma FromPartial(c: Conf, st: State, st': State, b: nat)
    requires Inv(c, st) && b in st.partial && Hands(st, st', b) && st'.empty == st.empty
    requires if st'.slabs[b].inUse == c.total then st'.partial == Without(st.partial, b) && st'.full == [b] + st.full
             else st'.partial == st.partial && st'.full == st.full
    ensures Sorted(c, st') && OnOneList(st')
  {
    hide ConfOk, Placed, SlabsOk;
    ListsApart(st, b);
    forall d
      ensures d in Without(st.partial, b) ==> d in st.partial && d != b
      ensures b !in st.empty && b !in st.full
    {
      InList(st.partial, b);
      InList(st.empty, b);
      InList(st.full, b);
      InList(Without(st.partial, b), d);
      InList(st.partial, d);
    }
    assert st'.slabs.Keys == st.slabs.Keys;
    Resorted(c, st, st', b);
  }

  /** A slab handed out its first object and was put on the list it belongs to. */
  lemma FromNew(c: Conf, st: State, st': State, b: nat)
    requires OffLists(c, st, b) && st.slabs[b].inUse == 0 < c.total && Hands(st, st', b) && st'.empty == st.empty
    requires if st'.slabs[b].inUse == c.total then st'.partial == st.partial && st'.full == [b] + st.full
             else st'.partial == [b] + st.partial && st'.full == st.full
    ensures Sorted(c, st') && OnOneList(st')
  {
    assert st'.slabs.Keys == st.slabs.Keys;
    Resorted(c, st, st', b);
  }

  /** The object handed out is new, and the invariant holds again. */
  lemma Handed(c: Conf, st: State, st': State, b: nat)
    requires ConfOk(c) && Placed(c, st) && SlabsOk(c, st) && Hands(st, st', b) && Sorted(c, st') && OnOneList(st')
    ensures Inv(c, st') && st.slabs[b].free[0] !in Live(c, st) && st.slabs[b].free[0] != 0
    ensures Live(c, st') == Live(c, st) + {st.slabs[b].free[0]}
  {
    hide Placed, SlabsOk, SlabOk, Live, Sorted, OnOneList;
    TakeLive(c, st, st', b);
    TouchedKeeps(c, st, st', b, st'.slabs[b]);
    ObjCovered(c, b, st.slabs[b].free[0]);
  }

  /** b is known to the cache but on none of its lists. */
  ghost predicate OffLists(c: Conf, st: State, b: nat) {
    && Sorted(c, st) && b in st.slabs && b !in st.full && b !in st.partial && b !in st.empty
    && multiset(st.full) + multiset(st.partial) + multiset(st.empty) + multiset{b} == multiset(st.slabs.Keys)
  }

  lemma Unlisted(c: Conf, st: State, mid: State, b: nat)
    requires Inv(c, st) && b in st.empty && mid == st.(empty := Without(st.empty, b))
    ensures Placed(c, mid) && SlabsOk(c, mid) && OffLists(c, mid, b) && Live(c, mid) == Live(c, st)
  {
    ListsApart(st, b);
    InList(st.partial, b);
    InList(st.empty, b);
    InList(st.full, b);
    assert |st.empty| == 1;
    assert Without(st.empty, b) == [];
  }

  lemma Unborn(c: Conf, st: State, mid: State, b: nat)
    requires Sorted(c, st) && OnOneList(st) && b !in st.slabs && b in mid.slabs
             && mid.slabs == st.slabs[b := mid.slabs[b]]
    requires mid.full == st.full && mid.partial == st.partial && mid.empty == st.empty
    ensures OffLists(c, mid, b)
  {
  }

  /** A cache whose slabs hold no object at all. */
  lemma Barren(c: Conf, st: State, st': State, b: nat)
    requires ConfOk(c) && Placed(c, st) && SlabsOk(c, st) && OffLists(c, st, b) && c.total == 0
    requires st' == st.(full := [b] + st.full) && st.slabs[b].inUse == 0
    ensures Inv(c, st') && Live(c, st') == Live(c, st)
  {
  }

  // --- The cache --------------------------------------------------------------------------------------------

  /** slab_list_remove. */
  function Without(s: seq<nat>, b: nat): (r: seq<nat>)
    ensures multiset(r) == multiset(s) - multiset{b}
  {
    if s == [] then []
    else if s[0] == b then assert s == [b] + s[1..]; s[1..]
    else assert s == [s[0]] + s[1..]; [s[0]] + Without(s[1..], b)
  }

  class Cache {
    const c: Conf
    var slabs: map<nat, SlabDesc>
    var full: seq<nat>
    var partial: seq<nat>
    var empty: seq<nat>
    var heap: nat
    var allocs: nat
    var frees: nat
    var slabCount: nat

    ghost function St(): State
      reads this
    {
      State(slabs, full, partial, empty, heap)
    }

    ghost predicate Valid()
      reads this
    {
      && Inv(c, St()) && slabCount == |slabs|
      && (c.total > 0 ==> allocs == frees + |Live(c, St())|)
    }

    constructor (conf: Conf, heapStart: nat)
      requires ConfOk(conf) && heapStart % PAGE == 0 && heapStart > 0
      ensures Valid() && c == conf && Live(c, St()) == {} && heap == heapStart
    {
      c := conf;
      slabs, full, partial, empty, heap := map[], [], [], [], heapStart;
      allocs, frees, slabCount := 0, 0, 0;
    }

    /** heap_alloc_pages and slab_create: the heap's address space must last, and the
        pages must be had (mapped). */
    method CreateSlab(mapped: bool) returns (base: nat)
      requires ConfOk(c) && Placed(c, St()) && SlabsOk(c, St()) && slabCount == |slabs|
      modifies this
      ensures full == old(full) && partial == old(partial) && empty == old(empty)
      ensures allocs == old(allocs) && frees == old(frees)
      ensures !mapped || old(heap) + c.pages * PAGE > HEAP_END ==>
                && base == 0 && St() == old(St())
                && slabCount == old(slabCount)
      ensures mapped && old(heap) + c.pages * PAGE <= HEAP_END ==>
                && base == old(heap) && base != 0 && base !in old(slabs) && slabCount == |slabs|
                && Placed(c, St()) && SlabsOk(c, St()) && Live(c, St()) == old(Live(c, St()))
                && slabs == old(slabs)[base := SlabDesc(0, Chain(c, base, c.total))]
    {
      hide ObjAt, AlignUp, Placed, SlabsOk, Live, SlabOk, PerSlab;
      ghost var st := St();
      HeapPositive(c, st);
      if heap + c.pages * PAGE > HEAP_END || !mapped {
        return 0;
      }
      base := heap;
      heap := heap + c.pages * PAGE;
      var free: seq<nat> := [];
      var obj := base + AlignUp(DESCRIPTOR, c.align);
      FirstObj(c, base);
      assert St() == st.(heap := base + c.pages * PAGE);
      var i := 0;
      while i < c.total
        invariant 0 <= i <= c.total && free == Chain(c, base, i) && obj == ObjAt(c, base, i)
        invariant St() == st.(heap := base + c.pages * PAGE) && slabCount == old(slabCount)
        invariant allocs == old(allocs) && frees == old(frees)
      {
        NextObj(c, base, i);
        free := [obj] + free;
        obj := obj + c.size;
        i := i + 1;
      }
      slabs := slabs[base := SlabDesc(0, free)];
      CreateKeeps(c, st, St());
      ghost var st' := St();
      slabCount := slabCount + 1;
      assert St() == st' && |slabs| == |st.slabs| + 1;
    }

    /** slab_alloc_obj. */
    method TakeObject(b: nat) returns (obj: nat)
      requires b in slabs
      modifies this
      ensures full == old(full) && partial == old(partial) && empty == old(empty) && heap == old(heap)
      ensures allocs == old(allocs) && frees == old(frees) && slabCount == old(slabCount)
      ensures old(slabs)[b].free == [] ==> obj == 0 && slabs == old(slabs)
      ensures old(slabs)[b].free != [] ==>
                && obj == old(slabs)[b].free[0]
                && slabs == old(slabs)[b := SlabDesc(old(slabs)[b].inUse + 1, old(slabs)[b].free[1..])]
    {
      if slabs[b].free == [] {
        return 0;
      }
      obj := slabs[b].free[0];
      slabs := slabs[b := SlabDesc(slabs[b].inUse + 1, slabs[b].free[1..])];
    }

    /** A slab that is on no list goes to the full or to the partial one. */
    method Relist(b: nat)
      requires b in slabs
      modifies this
      ensures slabs == old(slabs) && empty == old(empty) && heap == old(heap)
      ensures allocs == old(allocs) && frees == old(frees) && slabCount == old(slabCount)
      ensures if slabs[b].inUse == c.total then partial == old(partial) && full == [b] + old(full)
              else partial == [b] + old(partial) && full == old(full)
    {
      if slabs[b].inUse == c.total {
        full := [b] + full;
      } else {
        partial := [b] + partial;
      }
    }

    method AllocFromPartial() returns (obj: nat)
      requires Inv(c, St()) && partial != []
      modifies this
      ensures Obtained(c, old(St()), St(), obj) && obj != 0 && slabs.Keys == old(slabs).Keys
      ensures allocs == old(allocs) && frees == old(frees) && slabCount == old(slabCount)
    {
      hide ConfOk, Placed, SlabsOk, Live, OnOneList, Sorted;
      ghost var st := St();
      var b := partial[0];
      PartialHead(c, st);
      obj := TakeObject(b);
      if slabs[b].inUse == c.total {
        partial := Without(partial, b);
        full := [b] + full;
      }
      FromPartial(c, st, St(), b);
      Handed(c, st, St(), b);
    }

    method AllocFromEmpty() returns (obj: nat)
      requires Inv(c, St()) && empty != []
      modifies this
      ensures Obtained(c, old(St()), St(), obj) && obj != 0 && slabs.Keys == old(slabs).Keys
      ensures allocs == old(allocs) && frees == old(frees) && slabCount == old(slabCount)
    {
      hide ConfOk, Placed, SlabsOk, Live, OnOneList, Sorted, OffLists;
      ghost var st := St();
      var b := empty[0];
      EmptyHead(c, st);
      empty := Without(empty, b);
      ghost var mid := St();
      Unlisted(c, st, mid, b);
      obj := TakeObject(b);
      Relist(b);
      FromNew(c, mid, St(), b);
      Handed(c, mid, St(), b);
    }

    method AllocFromNew(mapped: bool) returns (obj: nat, made: bool)
      requires Inv(c, St()) && slabCount == |slabs|
      modifies this
      ensures made <==> mapped && old(heap) + c.pages * PAGE <= HEAP_END
      ensures !made ==> St() == old(St()) && obj == 0
      ensures Obtained(c, old(St()), St(), obj) && slabCount == |slabs|
      ensures made ==> (obj == 0 <==> c.total == 0)
      ensures allocs == old(allocs) && frees == old(frees)
    {
      hide ConfOk, Placed, SlabsOk, Live, OnOneList, Sorted, OffLists, Chain;
      ghost var st := St();
      Sized(c);
      var b := CreateSlab(mapped);
      if b == 0 {
        return 0, false;
      }
      ghost var mid := St();
      Unborn(c, st, mid, b);
      FreeCount(c, mid, b);
      obj := TakeObject(b);
      Relist(b);
      made := true;
      if c.total == 0 {
        Barren(c, mid, St(), b);
      } else {
        FromNew(c, mid, St(), b);
        Handed(c, mid, St(), b);
      }
    }

    /** kmem_cache_alloc: a partial slab first, then an empty one, then a new one. */
    method Alloc(mapped: bool) returns (obj: nat)
      requires Valid()
      modifies this
      ensures Valid()
      ensures obj != 0 ==> obj !in old(Live(c, St())) && Live(c, St()) == old(Live(c, St())) + {obj}
      ensures obj == 0 ==> Live(c, St()) == old(Live(c, St()))
      ensures obj == 0 && c.total > 0 ==>
                && St() == old(St()) && partial == [] && empty == []
                && (!mapped || heap + c.pages * PAGE > HEAP_END)
    {
      hide ConfOk, Placed, SlabsOk, Live, OnOneList, Sorted;
      Sized(c);
      ghost var st := St();
      if partial != [] {
        obj := AllocFromPartial();
        assert |slabs| == |slabs.Keys| && |st.slabs| == |st.slabs.Keys|;
      } else if empty != [] {
        obj := AllocFromEmpty();
        assert |slabs| == |slabs.Keys| && |st.slabs| == |st.slabs.Keys|;
      } else {
        var made;
        obj, made := AllocFromNew(mapped);
        if !made {
          return 0;
        }
      }
      ghost var st' := St();
      allocs := allocs + 1;
      assert St() == st';
    }

    /** find_slab_for_obj: the partial slabs are searched first, then the full ones. */
    method FindSlab(obj: nat) returns (found: bool, b: nat)
      ensures found ==> (b in partial || b in full) && Covers(c, b, obj)
      ensures !found ==> forall d :: d in partial || d in full ==> !Covers(c, d, obj)
    {
      for i := 0 to |partial|
        invariant forall k :: 0 <= k < i ==> !Covers(c, partial[k], obj)
      {
        if Covers(c, partial[i], obj) {
          return true, partial[i];
        }
      }
      for i := 0 to |full|
        invariant forall k :: 0 <= k < i ==> !Covers(c, full[k], obj)
      {
        if Covers(c, full[i], obj) {
          return true, full[i];
        }
      }
      return false, 0;
    }

    /** kmem_cache_free of an object in use, or of an address in no listed slab. */
    method Free(obj: nat)
      requires Valid()
      requires obj in Live(c, St()) || forall b :: b in partial || b in full ==> !Covers(c, b, obj)
      modifies this
      ensures Valid() && allocs == old(allocs) && heap == old(heap)
      ensures Live(c, St()) == old(Live(c, St())) - {obj}
      ensures obj !in old(Live(c, St())) ==> St() == old(St())
      ensures c.total == 1 ==> slabs.Keys == old(slabs).Keys
    {
      hide ConfOk, Placed, SlabsOk, Live, OnOneList, Sorted, Covers;
      ghost var st := St();
      Sized(c);
      var found, b := FindSlab(obj);
      Located(c, st, obj, found, b);
      if !found {
        return;
      }
      FreeCount(c, st, b);
      var wasFull := slabs[b].inUse == c.total;
      slabs := slabs[b := SlabDesc(slabs[b].inUse - 1, [obj] + slabs[b].free)];
      Returned(c, st, St(), b, obj);
      frees := frees + 1;
      assert |slabs| == |slabs.Keys| && |st.slabs| == |st.slabs.Keys| && slabs.Keys == st.slabs.Keys;
      Resettle(b, wasFull, st);
    }

    /** The slab of a freed object goes to the list it now belongs to; of several empty
        slabs only one is kept. */
    method Resettle(b: nat, wasFull: bool, ghost st: State)
      requires Inv(c, st) && Dropped(st, St(), b) && Placed(c, St()) && SlabsOk(c, St()) && slabCount == |slabs|
      requires full == st.full && partial == st.partial && empty == st.empty
      requires if wasFull then b in full else b in partial
      modifies this
      ensures Inv(c, St()) && Live(c, St()) == old(Live(c, St())) && slabCount == |slabs|
      ensures allocs == old(allocs) && frees == old(frees) && heap == old(heap)
      ensures wasFull ==> slabs == old(slabs)
    {
      hide ConfOk, Placed, SlabsOk, Live, OnOneList, Sorted;
      ghost var mid := St();
      if wasFull {
        full := Without(full, b);
        partial := [b] + partial;
        ToPartial(c, st, St(), b);
      } else if slabs[b].inUse == 0 {
        partial := Without(partial, b);
        if empty == [] {
          empty := [b] + empty;
          ToEmpty(c, st, St(), b);
        } else {
          slabs := slabs - {b};
          Gone(c, st, mid, St(), b);
          ghost var st' := St();
          slabCount := slabCount - 1;
          assert St() == st';
          return;
        }
      } else {
        Stays(c, st, mid, b);
      }
      Relisted(c, mid, St());
    }
  }

  lemma Relisted(c: Conf, st: State, st': State)
    requires ConfOk(c) && Placed(c, st) && SlabsOk(c, st) && st'.slabs == st.slabs && st'.heap == st.heap
    ensures Placed(c, st') && SlabsOk(c, st') && Live(c, st') == Live(c, st)
  {
  }

  /** The slab found for an object in use is its own. */
  lemma Located(c: Conf, st: State, obj: nat, found: bool, b: nat)
    requires Inv(c, st)
    requires obj in Live(c, st) || forall d :: d in st.partial || d in st.full ==> !Covers(c, d, obj)
    requires found ==> (b in st.partial || b in st.full) && Covers(c, b, obj)
    requires !found ==> forall d :: d in st.partial || d in st.full ==> !Covers(c, d, obj)
    ensures found <==> obj in Live(c, st)
    ensures found ==> LiveIn(c, st, b, obj) && st.slabs[b].inUse > 0
    ensures found ==> (b in st.full <==> IsFull(c, st.slabs[b])) && (b in st.partial <==> !IsFull(c, st.slabs[b]))
  {
    LiveMeans(c, st, obj);
    if obj in Live(c, st) {
      var d :| LiveIn(c, st, d, obj);
      LiveMeansInUse(c, st, d, obj);
      ListsApart(st, d);
      InList(st.partial, d);
      InList(st.full, d);
      InList(st.empty, d);
      ObjCovered(c, d, obj);
      if found {
        OwnerUnique(c, st, b, d, obj);
      }
    }
  }

  /** The object is free again. */
  lemma Returned(c: Conf, st: State, st': State, b: nat, obj: nat)
    requires Inv(c, st) && LiveIn(c, st, b, obj) && st.slabs[b].inUse > 0
    requires st' == st.(slabs := st.slabs[b := SlabDesc(st.slabs[b].inUse - 1, [obj] + st.slabs[b].free)])
    ensures Placed(c, st') && SlabsOk(c, st') && obj in Live(c, st) && Live(c, st') == Live(c, st) - {obj}
  {
    hide Placed, SlabsOk, SlabOk, Live, Sorted, OnOneList;
    GiveLive(c, st, st', b, obj);
    TouchedKeeps(c, st, st', b, st'.slabs[b]);
  }

  /** One less in use in slab b. */
  ghost predicate Dropped(st: State, st': State, b: nat) {
    && b in st.slabs && b in st'.slabs && st'.slabs == st.slabs[b := st'.slabs[b]]
    && st'.slabs[b].inUse == st.slabs[b].inUse - 1
  }

  lemma RemovedFrom(s: seq<nat>, b: nat)
    requires multiset(s)[b] <= 1
    ensures forall d :: d in Without(s, b) <==> d in s && d != b
  {
    forall d
      ensures d in Without(s, b) <==> d in s && d != b
    {
      InList(s, d);
      InList(Without(s, b), d);
    }
  }

  lemma ToPartial(c: Conf, st: State, st': State, b: nat)
    requires Sorted(c, st) && OnOneList(st) && Dropped(st, st', b) && b in st.full
    requires st'.full == Without(st.full, b) && st'.partial == [b] + st.partial && st'.empty == st.empty
    ensures Sorted(c, st') && OnOneList(st')
  {
    ListsApart(st, b);
    InList(st.full, b);
    InList(st.empty, b);
    RemovedFrom(st.full, b);
    assert st'.slabs.Keys == st.slabs.Keys;
    Resorted(c, st, st', b);
  }

  lemma ToEmpty(c: Conf, st: State, st': State, b: nat)
    requires Sorted(c, st) && OnOneList(st) && Dropped(st, st', b) && b in st.partial && st.empty == []
             && st'.slabs[b].inUse == 0
    requires st'.full == st.full && st'.partial == Without(st.partial, b) && st'.empty == [b] + st.empty
    ensures Sorted(c, st') && OnOneList(st')
  {
    ListsApart(st, b);
    InList(st.full, b);
    InList(st.partial, b);
    RemovedFrom(st.partial, b);
    assert st'.slabs.Keys == st.slabs.Keys;
    Resorted(c, st, st', b);
  }

  lemma Stays(c: Conf, st: State, st': State, b: nat)
    requires Sorted(c, st) && OnOneList(st) && Dropped(st, st', b) && b in st.partial && st'.slabs[b].inUse > 0
    requires st'.full == st.full && st'.partial == st.partial && st'.empty == st.empty
    ensures Sorted(c, st') && OnOneList(st')
  {
  }

  lemma GoneListed(st: State, st': State, b: nat)
    requires OnOneList(st) && b in st.slabs && st'.slabs.Keys == st.slabs.Keys - {b} && b in st.partial
    requires st'.full == st.full && st'.empty == st.empty && st'.partial == Without(st.partial, b)
    ensures OnOneList(st') && b !in st'.partial && b !in st'.full && b !in st'.empty
    ensures forall d :: d in st'.partial ==> d in st.partial
  {
    ListsApart(st, b);
    InList(st.full, b);
    InList(st.empty, b);
    InList(st.partial, b);
    RemovedFrom(st.partial, b);
    KeysLess(st.slabs.Keys, b);
    assert multiset(st'.full) + multiset(st'.partial) + multiset(st'.empty) == multiset(st.slabs.Keys) - multiset{b};
  }

  lemma GoneSorted(c: Conf, st: State, st': State, b: nat)
    requires Sorted(c, st) && (forall d :: d in st.slabs && d != b ==> d in st'.slabs && st'.slabs[d] == st.slabs[d])
    requires st'.full == st.full && st'.empty == st.empty && forall d :: d in st'.partial ==> d in st.partial
    requires b !in st'.partial && b !in st'.full && b !in st'.empty
    ensures Sorted(c, st')
  {
  }

  lemma Gone(c: Conf, st: State, mid: State, st': State, b: nat)
    requires ConfOk(c) && Sorted(c, st) && OnOneList(st) && Dropped(st, mid, b) && b in st.partial
             && mid.slabs[b].inUse == 0
    requires Placed(c, mid) && SlabsOk(c, mid)
    requires st' == mid.(slabs := mid.slabs - {b}, partial := Without(st.partial, b))
    requires mid.full == st.full && mid.empty == st.empty
    ensures Inv(c, st') && Live(c, st') == Live(c, mid) && |st'.slabs| == |mid.slabs| - 1
  {
    hide Placed, SlabsOk, Live, OnOneList, Sorted, Without;
    DestroyKeeps(c, mid, st', b);
    assert st'.slabs.Keys == st.slabs.Keys - {b} && mid.slabs.Keys == st.slabs.Keys;
    GoneListed(st, st', b);
    GoneSorted(c, st, st', b);
    assert |st'.slabs| == |st'.slabs.Keys| && |mid.slabs| == |mid.slabs.Keys|;
  }

  lemma KeysLess(keys: set<nat>, b: nat)
    requires b in keys
    ensures multiset(keys - {b}) == multiset(keys) - multiset{b}
  {
  }

  /** At most one object more is in use: the one returned. */
  ghost predicate Obtained(c: Conf, st: State, st': State, obj: nat) {
    && Inv(c, st')
    && (obj != 0 ==> obj !in Live(c, st) && Live(c, st') == Live(c, st) + {obj})
    && (obj == 0 ==> Live(c, st') == Live(c, st))
  }

  lemma FreeCount(c: Conf, st: State, b: nat)
    requires c.align > 0 && SlabsOk(c, st) && b in st.slabs
    ensures st.slabs[b].inUse + |st.slabs[b].free| == c.total
  {
  }

  lemma HeapPositive(c: Conf, st: State)
    requires Placed(c, st)
    ensures st.heap > 0
  {
  }

  lemma FirstObj(c: Conf, base: nat)
    requires c.align > 0
    ensures ObjAt(c, base, 0) == base + AlignUp(DESCRIPTOR, c.align)
  {
  }

  lemma NextObj(c: Conf, base: nat, i: nat)
    requires c.align > 0
    ensures ObjAt(c, base, i + 1) == ObjAt(c, base, i) + c.size
  {
  }

  // --- One object per slab -------------------------------------------------------------------------

  /** The cache of 32768-byte objects: one object is allocated and freed, and its slab
      stays on the partial list, unused. */
  method FreedSlabStays() returns (cache: Cache, ghost b: nat)
    ensures fresh(cache) && cache.Valid() && Live(cache.c, cache.St()) == {}
    ensures b in cache.partial && b in cache.slabs && cache.slabs[b].inUse == 0 && cache.empty == []
  {
    hide Placed, SlabsOk, Live, OnOneList, Sorted;
    var conf := Configure(32768, 0);
    OneObject(conf);
    cache := new Cache(conf, 0xFFFFFFFF88000000);
    var obj := cache.Alloc(true);
    LiveMeans(conf, cache.St(), obj);
    b :| LiveIn(conf, cache.St(), b, obj);
    cache.Free(obj);
    NoneLive(conf, cache.St(), b);
    UnusedIs(conf, cache.St(), b);
    EmptyNone(conf, cache.St());
  }

  lemma OneObject(c: Conf)
    requires ConfOk(c) && 32768 <= c.size < 32768 + 16 && c.align == 16 && c.pages <= 16
             && (c.total >= 2 || c.pages == 16)
    ensures c.size == 32768 && c.pages == 16 && c.total == 1
  {
  }

  lemma NoneLive(c: Conf, st: State, b: nat)
    requires Inv(c, st) && c.total == 1 && b in st.slabs && Live(c, st) == {}
    ensures st.slabs[b].inUse == 0
  {
    FreeCount(c, st, b);
    if st.slabs[b].inUse != 0 {
      var a := ObjAt(c, b, 0);
      assert a in Objs(c, b) && LiveIn(c, st, b, a);
      LiveMeans(c, st, a);
    }
  }

  lemma EmptyNone(c: Conf, st: State)
    requires Inv(c, st) && c.total == 1
    ensures st.empty == []
  {
    HasFirst(st.empty);
  }

  lemma HasFirst(s: seq<nat>)
    ensures s == [] || s[0] in s
  {
  }
}
