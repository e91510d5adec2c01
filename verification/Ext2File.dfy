/** Block allocation, block mapping and file I/O of kernel/fs/ext2.c on one inode
    held in memory.  Device transfers and buffer allocations succeed. */
module Ext2File {
  import opened Bytes
  import opened Ext2Tree
  import opened Ext2Bitmap
  import opened Ext2Volume
  import opened Ext2Blocks

  datatype Err = Ok | Enospc | Einval

  /** Either l maps to x now and x is still to be counted, or the file shows what it
      did, and ENOSPC means that nothing is free. */
  ghost predicate SetResult(v: Vol, top: seq<nat>, v': Vol, top': seq<nat>, sectors: nat, l: nat, x: nat, err: Err) {
    && |top'| == 15 && v'.g.bs % 4 == 0
    && (err == Enospc ==> v'.free == 0)
    && (err == Ok ==> Mapped(v, top, v', top', l, x) && Counted(T(v', top'), sectors, 1))
    && (err == Ok ==> MetaKept(T(v, top), T(v', top'), l))
    && (err != Ok ==> Extended(v, top, v', top', x) && Counted(T(v', top'), sectors, 0))
  }

  /** It succeeds exactly when l is in range and the missing pointer blocks are free. */
  ghost predicate SetOutcome(v: Vol, top: seq<nat>, v': Vol, top': seq<nat>, sectors: nat, l: nat, x: nat, err: Err) {
    && FileOk(v, top) && SetResult(v, top, v', top', sectors, l, x, err)
    && (err == Einval <==> !Mappable(T(v, top), l))
    && (err == Ok <==> Mappable(T(v, top), l) && Missing(T(v, top), l) <= v.free)
    && (err == Ok ==> v'.free == v.free - Missing(T(v, top), l))
  }

  class Inode {
    var top: seq<nat>
    var sectors: nat
    var size: nat
    var nodeSize: nat

    constructor (top: seq<nat>, sectors: nat, size: nat)
      ensures this.top == top && this.sectors == sectors && this.size == size && nodeSize == size
    {
      this.top := top;
      this.sectors := sectors;
      this.size := size;
      this.nodeSize := size;
    }
  }

  class Fs {
    const g: Geo
    var dev: map<nat, seq<Byte>>
    var groupFree: seq<nat>
    var free: nat

    constructor (v: Vol)
      ensures g == v.g && V() == v
    {
      g := v.g;
      dev := v.dev;
      groupFree := v.groupFree;
      free := v.free;
    }

    ghost function V(): Vol
      reads this
    {
      Vol(g, dev, groupFree, free)
    }

    method AllocBlockInGroup(group: nat) returns (b: nat)
      requires VolInv(V()) && group < |g.bitmaps|
      modifies this
      ensures VolInv(V())
      ensures b == 0 ==> V() == old(V()) && GroupFull(V(), group)
      ensures b != 0 ==> Takes(old(V()), V(), b) && GroupOf(g, b) == group
    {
      hide GroupOf, LocalOf, Clear, Sum, Mark;
      ghost var v := V();
      if groupFree[group] == 0 {
        GroupFullByCount(v, group);
        return 0;
      }
      var bitmap := dev[g.bitmaps[group]];
      var i := 0;
      while i < g.per
        invariant i <= g.per && V() == v && |bitmap| == g.bs && bitmap == dev[g.bitmaps[group]]
        invariant forall k: nat :: k < i ==> Marked(bitmap, k)
      {
        if !Marked(bitmap, i) {
          Located(g, group, i);
          ghost var c := BlockAt(g, group, i);
          assert !Used(v, c);
          TakeInv(v, c);
          bitmap := Mark(bitmap, i);
          dev := dev[g.bitmaps[group] := bitmap];
          groupFree := groupFree[group := groupFree[group] - 1];
          free := free - 1;
          b := group * g.per + i + g.first;
          assert V() == TakeBlock(v, b);
          return;
        }
        i := i + 1;
      }
      return 0;
    }

    method AllocBlock(preferred: nat) returns (b: nat)
      requires VolInv(V()) && preferred < |g.bitmaps|
      modifies this
      ensures VolInv(V())
      ensures b == 0 ==> V() == old(V()) && Full(V())
      ensures b != 0 ==> Takes(old(V()), V(), b)
    {
      hide VolInv, GroupFull;
      b := AllocBlockInGroup(preferred);
      if b != 0 {
        return;
      }
      VolDev(V());
      var group := 0;
      while group < |g.bitmaps|
        invariant group <= |g.bitmaps| && VolInv(V()) && V() == old(V()) && DevOk(g, dev)
        invariant GroupFull(V(), preferred) && forall k: nat :: k < group ==> GroupFull(V(), k)
      {
        if group != preferred {
          b := AllocBlockInGroup(group);
          if b != 0 {
            return;
          }
        }
        group := group + 1;
      }
      AllGroupsFull(V());
      return 0;
    }

    method FreeBlock(b: nat) returns (err: Err)
      requires VolInv(V())
      modifies this
      ensures err == if g.first <= b < g.total then Ok else Einval
      ensures err == Ok ==> HasBit(g, b) && |old(groupFree)| == |g.bitmaps| && V() == GiveBlock(old(V()), b)
      ensures err != Ok ==> V() == old(V())
    {
      if b < g.first || b >= g.total {
        return Einval;
      }
      assert HasBit(g, b);
      Locate(g, b);
      var group, local := (b - g.first) / g.per, (b - g.first) % g.per;
      var bitmap := Unmark(dev[g.bitmaps[group]], local);
      dev := dev[g.bitmaps[group] := bitmap];
      groupFree := groupFree[group := groupFree[group] + 1];
      free := free + 1;
      return Ok;
    }

    /** The first step of an indirect path: a missing pointer block of the inode is
        allocated, zeroed and hung in. */
    method EnsureTop(node: Inode, i: nat, group: nat, ghost x: nat) returns (ok: bool)
      requires FileOk(V(), node.top) && Counted(T(V(), node.top), node.sectors, 0)
      requires (i == IND || i == DIND) && group < |g.bitmaps| && x in dev && Foreign(V(), node.top, x)
      modifies this, node
      ensures node.size == old(node.size) && node.nodeSize == old(node.nodeSize)
      ensures ok <==> old(node.top[i]) != 0 || old(free) > 0
      ensures !ok || old(node.top[i]) != 0 ==>
                && V() == old(V()) && node.top == old(node.top)
                && node.sectors == old(node.sectors)
      ensures ok && old(node.top[i]) == 0 ==>
                && |node.top| == 15
                && Attached(old(V()), old(node.top), V(), node.top, Top(i), node.top[i], x) && free == old(free) - 1
                && Counted(T(V(), node.top), node.sectors, 0)
      ensures ok ==> |node.top| == 15 && node.top[i] != 0
    {
      hide FreeOk, CountsOk, Used, Owns, Distinct, Known, Full, Attached, Foreign, Owned, Counted;
      if node.top[i] != 0 {
        return true;
      }
      ghost var v := V();
      FullIffNoneFree(v);
      var b := AllocBlock(group);
      if b == 0 {
        return false;
      }
      FullHasNone(v, b);
      HangTop(v, node.top, i, b, x);
      dev := dev[b := Zeroes(g.bs)];
      assert V() == Fresh(v, b);
      CountOne(v, node.top, V(), node.top[i := b], node.sectors, Top(i), b, x);
      node.top := node.top[i := b];
      node.sectors := node.sectors + g.bs / 512;
      return true;
    }

    /** The second step of a double indirect path. */
    method EnsureDind(node: Inode, i: nat, group: nat, ghost x: nat) returns (ind: nat)
      requires FileOk(V(), node.top) && Counted(T(V(), node.top), node.sectors, 0)
      requires i < Ptrs(T(V(), node.top)) && node.top[DIND] != 0 && group < |g.bitmaps| && x in dev
               && Foreign(V(), node.top, x)
      modifies this, node
      ensures node.size == old(node.size) && node.nodeSize == old(node.nodeSize) && node.top == old(node.top)
      ensures ind != 0 <==> Val(old(T(V(), node.top)), Dind(i)) != 0 || old(free) > 0
      ensures ind == 0 || Val(old(T(V(), node.top)), Dind(i)) != 0 ==>
                && V() == old(V())
                && node.sectors == old(node.sectors)
      ensures ind != 0 && Val(old(T(V(), node.top)), Dind(i)) == 0 ==>
                && Attached(old(V()), node.top, V(), node.top, Dind(i), ind, x) && free == old(free) - 1
                && Counted(T(V(), node.top), node.sectors, 0)
      ensures ind != 0 ==> FileOk(V(), node.top) && Val(T(V(), node.top), Dind(i)) == ind
    {
      hide FreeOk, CountsOk, Used, Owns, Known, Distinct, Full, Foreign, Owned, Counted;
      ghost var v := V();
      DindKnown(v, node.top);
      var buf := dev[node.top[DIND]];
      if Get32(buf, i) != 0 {
        return Get32(buf, i);
      }
      FullIffNoneFree(v);
      var b := AllocBlock(group);
      if b == 0 {
        return 0;
      }
      FullHasNone(v, b);
      HangDind(v, node.top, i, b, x);
      dev := dev[b := Zeroes(g.bs)];
      assert V() == Fresh(v, b);
      dev := dev[node.top[DIND] := Put32(buf, i, b)];
      assert V() == Worded(Fresh(v, b), node.top[DIND], i, b);
      CountOne(v, node.top, V(), node.top, node.sectors, Dind(i), b, x);
      node.sectors := node.sectors + g.bs / 512;
      return b;
    }

    method SetBlock(node: Inode, l: nat, x: nat, group: nat) returns (err: Err)
      requires FileOk(V(), node.top) && Counted(T(V(), node.top), node.sectors, 0) && group < |g.bitmaps|
      requires GetBlock(T(V(), node.top), l) == 0 && 0 < x < 0x1_0000_0000 && x in dev && Foreign(V(), node.top, x)
      modifies this, node
      ensures node.size == old(node.size) && node.nodeSize == old(node.nodeSize)
      ensures SetOutcome(old(V()), old(node.top), V(), node.top, node.sectors, l, x, err)
    {
      hide FileOk, Foreign, Owned, Counted, GetBlock, Mapped, Extended, Linked, SlotOf, Mappable, Missing, Ptrs;
      hide MetaKept;
      ghost var v, top0 := V(), node.top;
      var ptrs := g.bs / 4;
      FileShape(v, top0);
      Ranges(T(v, top0), l);
      ExtendedRefl(v, top0, x);
      if l < NDIR {
        HangDirect(v, top0, l, x);
        KeptRefl(T(v, top0), l);
        SetDone(v, top0, v, top0, V(), top0[l := x], l, x, node.sectors);
        node.top := node.top[l := x];
        return Ok;
      }
      if l - NDIR < ptrs {
        err := SetSingle(node, l, x, group);
        return;
      }
      if l - NDIR - ptrs < ptrs * ptrs {
        err := SetDouble(node, l, (l - NDIR - ptrs) / ptrs, (l - NDIR - ptrs) % ptrs, x, group);
        return;
      }
      return Einval;
    }

    /** The single indirect part of the walk. */
    method SetSingle(node: Inode, l: nat, x: nat, group: nat) returns (err: Err)
      requires FileOk(V(), node.top) && Counted(T(V(), node.top), node.sectors, 0) && group < |g.bitmaps|
      requires GetBlock(T(V(), node.top), l) == 0 && 0 < x < 0x1_0000_0000 && x in dev && Foreign(V(), node.top, x)
      requires NDIR <= l < NDIR + Ptrs(T(V(), node.top))
      modifies this, node
      ensures node.size == old(node.size) && node.nodeSize == old(node.nodeSize) && err != Einval
      ensures err == Ok <==> old(node.top[IND]) != 0 || old(free) > 0
      ensures err == Ok ==> free == old(free) - if old(node.top[IND]) == 0 then 1 else 0
      ensures SetResult(old(V()), old(node.top), V(), node.top, node.sectors, l, x, err)
    {
      hide FreeOk, CountsOk, Used, Owns, Known, Distinct, Full, Foreign, Owned, Counted, GetBlock, Entry, Val;
      hide Mapped, Extended, Attached, Linked, MetaKept;
      ghost var v, top0 := V(), node.top;
      ExtendedRefl(v, top0, x);
      var ok := EnsureTop(node, IND, group, x);
      if !ok {
        return Enospc;
      }
      EnsuredTop(v, top0, V(), node.top, IND, x, l);
      ghost var w := V();
      GetKept(v, top0, w, node.top, l, x);
      HangInd(w, node.top, l, x);
      dev := dev[node.top[IND] := Put32(dev[node.top[IND]], l - NDIR, x)];
      assert V() == Worded(w, node.top[IND], l - NDIR, x);
      SetDone(v, top0, w, node.top, V(), node.top, l, x, node.sectors);
      return Ok;
    }

    /** The double indirect part of the walk. */
    method SetDouble(node: Inode, l: nat, i: nat, j: nat, x: nat, group: nat) returns (err: Err)
      requires FileOk(V(), node.top) && Counted(T(V(), node.top), node.sectors, 0) && group < |g.bitmaps|
      requires GetBlock(T(V(), node.top), l) == 0 && 0 < x < 0x1_0000_0000 && x in dev && Foreign(V(), node.top, x)
      requires Mappable(T(V(), node.top), l) && SlotOf(T(V(), node.top), l) == Leaf(i, j)
      modifies this, node
      ensures node.size == old(node.size) && node.nodeSize == old(node.nodeSize) && err != Einval
      ensures err == Ok <==> Missing(old(T(V(), node.top)), l) <= old(free)
      ensures err == Ok ==> free == old(free) - Missing(old(T(V(), node.top)), l)
      ensures SetResult(old(V()), old(node.top), V(), node.top, node.sectors, l, x, err)
    {
      hide FreeOk, CountsOk, Used, Owns, Known, Distinct, Full, Foreign, Owned, Counted, GetBlock, Entry, Val;
      hide SlotOf, Mappable, InTree;
      hide Mapped, Extended, Attached, Linked, Missing, MetaKept, OnPath;
      ghost var v, top0 := V(), node.top;
      ExtendedRefl(v, top0, x);
      MissingDouble(v, top0, l, i, j);
      var ok := EnsureTop(node, DIND, group, x);
      if !ok {
        return Enospc;
      }
      EnsuredTop(v, top0, V(), node.top, DIND, x, l);
      ghost var w, top1 := V(), node.top;
      EnsuredDind(v, top0, w, top1, i, x);
      var ind := EnsureDind(node, i, group, x);
      if ind == 0 {
        return Enospc;
      }
      ghost var w2 := V();
      PlaceKept(T(v, top0), T(w, top1), l);
      PlaceKept(T(v, top0), T(w2, top1), l);
      EnsuredLeaf(v, top0, w, w2, top1, i, ind, x, l);
      GetKept(v, top0, w2, top1, l, x);
      HangLeaf(w2, top1, l, i, j, x);
      dev := dev[ind := Put32(dev[ind], j, x)];
      assert V() == Worded(w2, ind, j, x);
      SetDone(v, top0, w2, top1, V(), top1, l, x, node.sectors);
      return Ok;
    }
  }

  /** The data block x of logical block l is in; it is not counted yet. */
  lemma SetDone(v: Vol, top: seq<nat>, w: Vol, top1: seq<nat>, v': Vol, top': seq<nat>, l: nat, x: nat, sectors: nat)
    requires Extended(v, top, w, top1, x) && Mappable(T(w, top1), l)
    requires Linked(w, top1, v', top', SlotOf(T(w, top1), l), x) && Counted(T(w, top1), sectors, 0)
    requires MetaKept(T(v, top), T(w, top1), l)
    ensures Mapped(v, top, v', top', l, x) && Counted(T(v', top'), sectors, 1) && MetaKept(T(v, top), T(v', top'), l)
  {
    KeptLinked(w, top1, v', top', l, x);
    LinkedMapped(v, top, w, top1, v', top', l, x);
    hide *;
    CountedMore(T(w, top1), T(v', top'), x, sectors);
    KeptTrans(T(v, top), T(w, top1), T(v', top'), l);
  }

  lemma KeptLinked(w: Vol, top: seq<nat>, w': Vol, top': seq<nat>, l: nat, x: nat)
    requires w.g.bs % 4 == 0 && w.g.bs > 0 && Mappable(T(w, top), l)
             && Linked(w, top, w', top', SlotOf(T(w, top), l), x)
    ensures MetaKept(T(w, top), T(w', top'), l)
  {
    GetIsSlot(T(w, top), l);
    hide SlotOf, Val, Changed, MetaKept, OnPath;
    KeptChanged(T(w, top), T(w', top'), l, SlotOf(T(w, top), l), x);
  }

  lemma KeptAttached(v: Vol, top: seq<nat>, v': Vol, top': seq<nat>, s: Slot, b: nat, x: nat, l: nat)
    requires Attached(v, top, v', top', s, b, x) && InTree(T(v, top), s) && Val(T(v, top), s) == 0
             && OnPath(T(v, top), l, s)
    ensures MetaKept(T(v, top), T(v', top'), l)
  {
    hide Val, Changed, MetaKept, OnPath, Grew;
    KeptChanged(T(v, top), T(v', top'), l, s, b);
  }

  lemma EnsuredTop(v: Vol, top: seq<nat>, v': Vol, top': seq<nat>, i: nat, x: nat, l: nat)
    requires FileOk(v, top) && x in v.dev && Foreign(v, top, x) && (i == IND || i == DIND) && |top'| == 15
    requires (v' == v && top' == top) || (top[i] == 0 && Attached(v, top, v', top', Top(i), top'[i], x))
    requires OnPath(T(v, top), l, Top(i))
    ensures Extended(v, top, v', top', x) && FileOk(v', top') && Foreign(v', top', x) && x in v'.dev
    ensures MetaKept(T(v, top), T(v', top'), l)
  {
    if v' == v && top' == top {
      ExtendedRefl(v, top, x);
      KeptRefl(T(v, top), l);
    } else {
      AttachedExtended(v, top, v', top', Top(i), top'[i], x);
      KeptAttached(v, top, v', top', Top(i), top'[i], x, l);
    }
  }

  /** Hanging in the double indirect block leaves its entries empty. */
  lemma EnsuredDind(v: Vol, top: seq<nat>, v': Vol, top': seq<nat>, i: nat, x: nat)
    requires FileOk(v, top) && |top'| == 15 && v'.g == v.g && i < Ptrs(T(v, top))
    requires (v' == v && top' == top) || Attached(v, top, v', top', Top(DIND), top'[DIND], x)
    ensures Val(T(v', top'), Dind(i)) == Val(T(v, top), Dind(i))
  {
  }

  lemma EnsuredLeaf(v: Vol, top: seq<nat>, w: Vol, w': Vol, top1: seq<nat>, i: nat, b: nat, x: nat, l: nat)
    requires Extended(v, top, w, top1, x) && MetaKept(T(v, top), T(w, top1), l) && i < Ptrs(T(w, top1))
    requires w' == w || (Val(T(w, top1), Dind(i)) == 0 && Attached(w, top1, w', top1, Dind(i), b, x))
    requires OnPath(T(w, top1), l, Dind(i))
    ensures Extended(v, top, w', top1, x) && FileOk(w', top1) && Foreign(w', top1, x) && x in w'.dev
    ensures MetaKept(T(v, top), T(w', top1), l)
  {
    if w' != w {
      AttachedExtended(w, top1, w', top1, Dind(i), b, x);
      KeptAttached(w, top1, w', top1, Dind(i), b, x, l);
      hide *;
      ExtendedTrans(v, top, w, top1, w', top1, x);
      KeptTrans(T(v, top), T(w, top1), T(w', top1), l);
    }
    hide FreeOk, CountsOk, Used, Owns, Known, Distinct, Foreign, Owned, GetBlock, SameBytes;
  }

  lemma MissingDouble(v: Vol, top: seq<nat>, l: nat, i: nat, j: nat)
    requires FileOk(v, top) && Mappable(T(v, top), l) && SlotOf(T(v, top), l) == Leaf(i, j)
    ensures i < Ptrs(T(v, top)) && j < Ptrs(T(v, top))
    ensures Missing(T(v, top), l) == if top[DIND] == 0 then 2 else if Val(T(v, top), Dind(i)) == 0 then 1 else 0
    ensures top[DIND] == 0 ==> Val(T(v, top), Dind(i)) == 0
    ensures OnPath(T(v, top), l, Top(DIND)) && OnPath(T(v, top), l, Dind(i))
  {
  }

  lemma FileShape(v: Vol, top: seq<nat>)
    requires FileOk(v, top)
    ensures |top| == 15 && v.g.bs % 4 == 0 && v.g.bs > 0 && Ptrs(T(v, top)) == v.g.bs / 4 > 0
  {
  }

  /** The four ranges of logical blocks. */
  lemma Ranges(t: Tree, l: nat)
    requires |t.top| == 15 && t.bs % 4 == 0 && t.bs > 0
    ensures l < NDIR ==> Mappable(t, l) && Missing(t, l) == 0
    ensures NDIR <= l < NDIR + t.bs / 4 ==> Mappable(t, l) && Missing(t, l) == if t.top[IND] == 0 then 1 else 0
    ensures 0 <= l - NDIR - t.bs / 4 < t.bs / 4 * (t.bs / 4) ==>
              Mappable(t, l) && SlotOf(t, l) == Leaf((l - NDIR - t.bs / 4) / (t.bs / 4),
                                                     (l - NDIR - t.bs / 4) % (t.bs / 4))
    ensures l - NDIR - t.bs / 4 >= t.bs / 4 * (t.bs / 4) ==> !Mappable(t, l)
  {
  }

  lemma PlaceKept(t: Tree, t': Tree, l: nat)
    requires t'.bs == t.bs && Ptrs(t) > 0
    ensures SlotOf(t', l) == SlotOf(t, l) && (Mappable(t', l) <==> Mappable(t, l))
    ensures forall p :: OnPath(t', l, p) <==> OnPath(t, l, p)
  {
  }

  lemma GetKept(v: Vol, top: seq<nat>, v': Vol, top': seq<nat>, l: nat, x: nat)
    requires Extended(v, top, v', top', x)
    ensures GetBlock(T(v', top'), l) == GetBlock(T(v, top), l)
  {
  }

  lemma DindKnown(v: Vol, top: seq<nat>)
    requires FileOk(v, top) && top[DIND] != 0
    ensures top[DIND] in v.dev && |v.dev[top[DIND]]| == v.g.bs
    ensures forall i: nat :: i < Ptrs(T(v, top)) ==> Val(T(v, top), Dind(i)) == Get32(v.dev[top[DIND]], i)
  {
    assert InTree(T(v, top), Top(DIND)) && Val(T(v, top), Top(DIND)) == top[DIND];
  }

  lemma VolDev(v: Vol)
    requires VolInv(v)
    ensures DevOk(v.g, v.dev)
  {
  }

  lemma FullHasNone(v: Vol, b: nat)
    requires VolInv(v) && !Used(v, b)
    ensures !Full(v) && v.free > 0
  {
    FullIffNoneFree(v);
  }

  /** A block more, and its sectors more. */
  lemma CountOne(v: Vol, top: seq<nat>, v': Vol, top': seq<nat>, sectors: nat, s: Slot, b: nat, x: nat)
    requires Attached(v, top, v', top', s, b, x) && Counted(T(v, top), sectors, 0)
    ensures Counted(T(v', top'), sectors + v.g.bs / 512, 0)
  {
    CountedMore(T(v, top), T(v', top'), b, sectors);
  }

  lemma CountedMore(t: Tree, t': Tree, b: nat, sectors: nat)
    requires |t.top| == 15 && t.bs % 4 == 0 && |t'.top| == 15 && t'.bs == t.bs
    requires Owned(t') == Owned(t) + {b} && b !in Owned(t) && Counted(t, sectors, 0)
    ensures Counted(t', sectors, 1) && Counted(t', sectors + t.bs / 512, 0)
  {
    hide Owned;
    NextCount(|Owned(t)|, t.bs / 512);
    assert |Owned(t')| == |Owned(t)| + 1;
  }

  lemma NextCount(n: nat, k: nat)
    ensures (n + 1) * k == n * k + k && 1 * k == k && 0 * k == 0
  {
  }
}
