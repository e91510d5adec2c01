/** The blocks a write will take (kernel/fs/ext2.c, ext2_file_write): the holes in its
    range and the pointer blocks missing on the way to them. */
module Ext2Need {
  import opened Ext2Tree

  // --- What a range needs ------------------------------------------------------------------------

  /** The slots of an inode that hold pointer blocks. */
  function Metas(t: Tree): set<Slot> {
    {Top(IND), Top(DIND)} + set i | 0 <= i < Ptrs(t) :: Dind(i)
  }

  /** The holes among the n logical blocks from l on. */
  ghost function Holes(t: Tree, l: nat, n: nat): set<nat>
    requires Shape(t)
  {
    set m | l <= m < l + n && GetBlock(t, m) == 0
  }

  /** Some of the n logical blocks from l on is reached through slot p. */
  ghost predicate Leads(t: Tree, l: nat, n: nat, p: Slot) {
    exists m :: l <= m < l + n && OnPath(t, m, p)
  }

  /** The pointer blocks missing on the way to the n logical blocks from l on. */
  ghost function Absent(t: Tree, l: nat, n: nat): set<Slot>
    requires Shape(t)
  {
    set p | p in Metas(t) && Val(t, p) == 0 && Leads(t, l, n, p)
  }

  ghost function Need(t: Tree, l: nat, n: nat): nat
    requires Shape(t)
  {
    |Holes(t, l, n)| + |Absent(t, l, n)|
  }

  /** The n logical blocks from l on are in reach, and what they need is free. */
  ghost predicate Fits(t: Tree, free: nat, l: nat, n: nat)
    requires Shape(t)
  {
    (n == 0 || Mappable(t, l + n - 1)) && Need(t, l, n) <= free
  }

  /** How many of the n logical blocks from l on can be written: the most that fit. */
  ghost function Through(t: Tree, free: nat, l: nat, n: nat): (k: nat)
    requires Shape(t)
    ensures k <= n
  {
    if n == 0 || Fits(t, free, l, n) then n else Through(t, free, l, n - 1)
  }

  lemma SubsetSize<T>(a: set<T>, b: set<T>)
    requires a <= b
    ensures |a| <= |b|
  {
    assert b == a + (b - a);
  }

  lemma NeedGrows(t: Tree, l: nat, n: nat, m: nat)
    requires Shape(t) && n <= m
    ensures Need(t, l, n) <= Need(t, l, m)
  {
    hide GetBlock, Val, OnPath, Metas;
    SubsetSize(Holes(t, l, n), Holes(t, l, m));
    assert Absent(t, l, n) <= Absent(t, l, m);
    SubsetSize(Absent(t, l, n), Absent(t, l, m));
  }

  lemma NeedNothing(t: Tree, l: nat)
    requires Shape(t)
    ensures Need(t, l, 0) == 0
  {
    assert Holes(t, l, 0) == {} && Absent(t, l, 0) == {};
  }

  /** The blocks before one that fits fit. */
  lemma FitsBelow(t: Tree, free: nat, l: nat, n: nat, m: nat)
    requires Shape(t) && n <= m && Fits(t, free, l, m)
    ensures Fits(t, free, l, n)
  {
    hide Need;
    NeedGrows(t, l, n, m);
  }

  /** Through is the one number at which fitting ends. */
  lemma {:induction false} ThroughIs(t: Tree, free: nat, l: nat, n: nat, k: nat)
    requires Shape(t) && k <= n && (k == 0 || Fits(t, free, l, k)) && (k < n ==> !Fits(t, free, l, k + 1))
    ensures Through(t, free, l, n) == k
  {
    hide Fits;
    if k < n {
      if Fits(t, free, l, n) {
        FitsBelow(t, free, l, k + 1, n);
      }
      ThroughIs(t, free, l, n - 1, k);
    }
  }

  // --- One block --------------------------------------------------------------------------------------

  lemma NeedOne(t: Tree, l: nat)
    requires Shape(t)
    ensures GetBlock(t, l) != 0 ==> Mappable(t, l) && Need(t, l, 1) == 0
    ensures GetBlock(t, l) == 0 && Mappable(t, l) ==> Need(t, l, 1) == 1 + Missing(t, l)
  {
    assert Holes(t, l, 1) == if GetBlock(t, l) == 0 then {l} else {};
    assert forall p :: Leads(t, l, 1, p) <==> OnPath(t, l, p);
    if Mappable(t, l) {
      PathMissing(t, l);
    }
  }

  /** The pointer blocks missing on the way to l, one range after the other. */
  lemma PathMissing(t: Tree, l: nat)
    requires Shape(t) && Mappable(t, l)
    requires forall p :: Leads(t, l, 1, p) <==> OnPath(t, l, p)
    ensures GetBlock(t, l) != 0 ==> Absent(t, l, 1) == {}
    ensures |Absent(t, l, 1)| == Missing(t, l)
  {
    GetIsSlot(t, l);
    MissingIs(t, l);
    hide Leads, GetBlock, Missing, Entry, Mappable;
    match SlotOf(t, l)
    case Top(_) =>
      assert Absent(t, l, 1) == {};
    case Ind(_) =>
      assert Absent(t, l, 1) == if t.top[IND] == 0 then {Top(IND)} else {};
    case Leaf(i, j) =>
      PathLeaf(t, l, i);
  }

  lemma PathLeaf(t: Tree, l: nat, i: nat)
    requires Shape(t) && i < Ptrs(t) && forall p :: Leads(t, l, 1, p) <==> p == Top(DIND) || p == Dind(i)
    ensures |Absent(t, l, 1)| == (if t.top[DIND] == 0 then 1 else 0) + (if Val(t, Dind(i)) == 0 then 1 else 0)
  {
    hide Leads, Entry;
    var a, b := if t.top[DIND] == 0 then {Top(DIND)} else {}, if Val(t, Dind(i)) == 0 then {Dind(i)} else {};
    assert Absent(t, l, 1) == a + b && a !! b;
  }

  lemma MissingIs(t: Tree, l: nat)
    requires Shape(t) && Mappable(t, l) && InTree(t, SlotOf(t, l))
    ensures GetBlock(t, l) != 0 ==> Missing(t, l) == 0
    ensures SlotOf(t, l).Top? ==> Missing(t, l) == 0
    ensures SlotOf(t, l).Ind? ==> Missing(t, l) == if t.top[IND] == 0 then 1 else 0
    ensures SlotOf(t, l).Leaf? ==>
              && InTree(t, Dind(SlotOf(t, l).i)) && (t.top[DIND] == 0 ==> Val(t, Dind(SlotOf(t, l).i)) == 0)
              && Missing(t, l) == (if t.top[DIND] == 0 then 1 else 0)
                                + (if Val(t, Dind(SlotOf(t, l).i)) == 0 then 1 else 0)
  {
  }

  // --- After one block ------------------------------------------------------------------------------------

  /** Logical block l is there now, with the pointer blocks on the way to it; nothing
      else was mapped. */
  ghost predicate Filled(t: Tree, t': Tree, l: nat) {
    && Shape(t) && Shape(t') && MetaKept(t, t', l) && Mappable(t, l) && GetBlock(t', l) != 0
    && (forall m :: m != l ==> GetBlock(t', m) == GetBlock(t, m))
  }

  lemma FilledSame(t: Tree, t1: Tree, t2: Tree, l: nat)
    requires Filled(t, t1, l) && SameSlots(t1, t2) && Shape(t2)
    ensures Filled(t, t2, l)
  {
    KeptSame(t1, t2, l);
    KeptTrans(t, t1, t2, l);
    forall m
      ensures GetBlock(t2, m) == GetBlock(t1, m)
    {
      SameMaps(t1, t2, m);
    }
    hide GetBlock, MetaKept, SameSlots;
  }

  lemma FilledRefl(t: Tree, l: nat)
    requires Shape(t) && GetBlock(t, l) != 0
    ensures Filled(t, t, l)
  {
  }

  /** The pointer blocks on the way to a block that is there are there. */
  lemma PathThere(t: Tree, l: nat, p: Slot)
    requires Shape(t) && GetBlock(t, l) != 0 && OnPath(t, l, p)
    ensures p in Metas(t) && Val(t, p) != 0
  {
    GetIsSlot(t, l);
  }

  /** Writing l takes what l needs, and leaves the rest of the range needing the rest. */
  lemma NeedStep(t: Tree, t': Tree, l: nat, n: nat)
    requires Filled(t, t', l) && n > 0
    ensures Need(t, l, n) == Need(t, l, 1) + Need(t', l + 1, n - 1)
  {
    HolesStep(t, t', l, n);
    AbsentStep(t, t', l, n);
  }

  lemma HolesStep(t: Tree, t': Tree, l: nat, n: nat)
    requires Filled(t, t', l) && n > 0
    ensures |Holes(t, l, n)| == |Holes(t, l, 1)| + |Holes(t', l + 1, n - 1)|
  {
    hide GetBlock, MetaKept;
    assert Holes(t, l, n) == Holes(t, l, 1) + Holes(t', l + 1, n - 1);
    assert Holes(t, l, 1) !! Holes(t', l + 1, n - 1);
  }

  lemma AbsentStep(t: Tree, t': Tree, l: nat, n: nat)
    requires Filled(t, t', l) && n > 0
    ensures |Absent(t, l, n)| == |Absent(t, l, 1)| + |Absent(t', l + 1, n - 1)|
  {
    hide GetBlock, OnPath, Val, InTree, IsMeta, Metas;
    SameMetas(t, t');
    forall p | p in Metas(t)
      ensures p in Absent(t, l, 1) <==> Val(t, p) == 0 && OnPath(t, l, p)
      ensures p in Metas(t') && (Val(t', p) == 0 <==> Val(t, p) == 0 && !OnPath(t, l, p))
      ensures Leads(t, l, n, p) <==> OnPath(t, l, p) || Leads(t', l + 1, n - 1, p)
    {
      AbsentSlot(t, t', l, n, p);
    }
    assert Absent(t, l, n) == Absent(t, l, 1) + Absent(t', l + 1, n - 1);
    assert Absent(t, l, 1) !! Absent(t', l + 1, n - 1);
  }

  lemma SameMetas(t: Tree, t': Tree)
    requires t'.bs == t.bs
    ensures Metas(t') == Metas(t) && forall p :: p in Metas(t) ==> InTree(t, p) && InTree(t', p)
  {
  }

  lemma AbsentSlot(t: Tree, t': Tree, l: nat, n: nat, p: Slot)
    requires Filled(t, t', l) && n > 0 && p in Metas(t)
    ensures InTree(t, p) && InTree(t', p) && IsMeta(p) && p in Metas(t')
    ensures p in Absent(t, l, 1) <==> Val(t, p) == 0 && OnPath(t, l, p)
    ensures Val(t', p) == 0 <==> Val(t, p) == 0 && !OnPath(t, l, p)
    ensures Leads(t, l, n, p) <==> OnPath(t, l, p) || Leads(t', l + 1, n - 1, p)
  {
    assert forall m: nat :: OnPath(t', m, p) <==> OnPath(t, m, p);
    hide GetBlock;
    if OnPath(t, l, p) {
      PathThere(t', l, p);
    }
    hide OnPath, Val;
    assert Leads(t, l, 1, p) <==> OnPath(t, l, p);
  }

  // --- After some blocks --------------------------------------------------------------------------------------

  /** After d of the n blocks from l on, from (t, free) to (t', free'): what was taken
      and what is still needed make up what the range needed. */
  ghost predicate Ahead(t: Tree, free: nat, t': Tree, free': nat, l: nat, d: nat, n: nat) {
    && Shape(t) && Shape(t') && t'.bs == t.bs && d <= n && free' <= free && (d == 0 || Mappable(t, l + d - 1))
    && (forall k :: d <= k <= n ==> Need(t, l, k) == free - free' + Need(t', l + d, k - d))
  }

  lemma AheadStart(t: Tree, free: nat, l: nat, n: nat)
    requires Shape(t)
    ensures Ahead(t, free, t, free, l, 0, n)
  {
  }

  lemma AheadStep(t: Tree, free: nat, t1: Tree, free1: nat, t2: Tree, free2: nat, l: nat, d: nat, n: nat)
    requires Ahead(t, free, t1, free1, l, d, n) && d < n && Filled(t1, t2, l + d) && free2 == free1 - Need(t1, l + d, 1)
    ensures Ahead(t, free, t2, free2, l, d + 1, n)
  {
    hide Need;
    forall k | d + 1 <= k <= n
      ensures Need(t, l, k) == free - free2 + Need(t2, l + (d + 1), k - (d + 1))
    {
      NeedStep(t1, t2, l + d, k - d);
    }
  }

  /** A block that does not fit now did not fit from the start. */
  lemma AheadStops(t: Tree, free: nat, t': Tree, free': nat, l: nat, d: nat, n: nat)
    requires Ahead(t, free, t', free', l, d, n) && (d < n ==> !Fits(t', free', l + d, 1))
    ensures Through(t, free, l, n) == d && Need(t, l, d) == free - free'
  {
    hide Need;
    NeedNothing(t', l + d);
    assert Need(t, l, d) == free - free' + Need(t', l + d, 0);
    if d < n {
      assert Need(t, l, d + 1) == free - free' + Need(t', l + d, 1);
    }
    ThroughIs(t, free, l, n, d);
  }
}
