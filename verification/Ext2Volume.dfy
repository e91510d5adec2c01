/** Block allocation of an ext2 volume (kernel/fs/ext2.c): one bitmap block per
    block group, free counts in the group descriptors and in the superblock. */
module Ext2Volume {
  import opened Bytes
  import opened Ext2Tree
  import opened Ext2Bitmap
  import opened Division
  import Dyadic

  /** Block size, first data block, blocks per group, block count, bitmap blocks. */
  datatype Geo = Geo(bs: nat, first: nat, per: nat, total: nat, bitmaps: seq<nat>)

  datatype Vol = Vol(g: Geo, dev: map<nat, seq<Byte>>, groupFree: seq<nat>, free: nat)

  // --- Block numbers -----------------------------------------------------------------------

  function GroupOf(g: Geo, b: nat): int
    requires g.per > 0
  {
    (b - g.first) / g.per
  }

  function LocalOf(g: Geo, b: nat): nat
    requires g.per > 0
  {
    (b - g.first) % g.per
  }

  function BlockAt(g: Geo, group: nat, i: nat): nat {
    group * g.per + i + g.first
  }

  lemma Located(g: Geo, group: nat, i: nat)
    requires i < g.per
    ensures GroupOf(g, BlockAt(g, group, i)) == group && LocalOf(g, BlockAt(g, group, i)) == i
  {
    Divided(group * g.per + i, g.per, group, i);
  }

  lemma Locate(g: Geo, b: nat)
    requires g.per > 0 && b >= g.first
    ensures GroupOf(g, b) >= 0 && 0 <= LocalOf(g, b) < g.per && BlockAt(g, GroupOf(g, b), LocalOf(g, b)) == b
  {
  }

  // --- What is free ---------------------------------------------------------------------------

  predicate GeoOk(g: Geo) {
    && g.bs > 0 && g.bs % 4 == 0 && 0 < g.per <= 8 * g.bs && g.total <= 0x1_0000_0000
    && (forall i, j :: 0 <= i < j < |g.bitmaps| ==> g.bitmaps[i] != g.bitmaps[j])
  }

  ghost predicate DevOk(g: Geo, dev: map<nat, seq<Byte>>) {
    && GeoOk(g)
    && (forall b :: b in dev ==> |dev[b]| == g.bs)
    && (forall i :: 0 <= i < |g.bitmaps| ==> g.bitmaps[i] in dev)
  }

  /** The block has a bit in some group's bitmap. */
  predicate HasBit(g: Geo, b: nat)
    requires g.per > 0
  {
    b >= g.first && 0 <= GroupOf(g, b) < |g.bitmaps|
  }

  /** A block that is not up for allocation. */
  ghost predicate Used(v: Vol, b: nat)
    requires DevOk(v.g, v.dev)
  {
    HasBit(v.g, b) ==> Marked(v.dev[v.g.bitmaps[GroupOf(v.g, b)]], LocalOf(v.g, b))
  }

  /** Free blocks are blocks of the volume; neither block 0 nor a bitmap is free. */
  ghost predicate FreeOk(v: Vol)
    requires DevOk(v.g, v.dev)
  {
    && (forall b: nat {:trigger Used(v, b)} :: !Used(v, b) ==> 0 < b < v.g.total && b in v.dev)
    && (forall i :: 0 <= i < |v.g.bitmaps| ==> Used(v, v.g.bitmaps[i]))
    && (forall b: nat {:trigger HasBit(v.g, b)} :: v.g.first <= b < v.g.total ==> HasBit(v.g, b))
  }

  function Sum(s: seq<nat>): nat {
    if s == [] then 0 else Sum(s[..|s| - 1]) + s[|s| - 1]
  }

  /** The free counts are exact, per group and in the superblock. */
  ghost predicate CountsOk(v: Vol)
    requires DevOk(v.g, v.dev)
  {
    && |v.groupFree| == |v.g.bitmaps|
    && (forall i :: 0 <= i < |v.groupFree| ==> v.groupFree[i] == Clear(v.dev[v.g.bitmaps[i]], v.g.per))
    && v.free == Sum(v.groupFree)
  }

  ghost predicate VolInv(v: Vol) {
    DevOk(v.g, v.dev) && FreeOk(v) && CountsOk(v)
  }

  ghost predicate Full(v: Vol)
    requires DevOk(v.g, v.dev)
  {
    forall b :: Used(v, b)
  }

  ghost predicate GroupFull(v: Vol, group: nat)
    requires DevOk(v.g, v.dev) && group < |v.g.bitmaps|
  {
    forall i: nat :: i < v.g.per ==> Marked(v.dev[v.g.bitmaps[group]], i)
  }

  lemma AllGroupsFull(v: Vol)
    requires DevOk(v.g, v.dev) && forall i :: 0 <= i < |v.g.bitmaps| ==> GroupFull(v, i)
    ensures Full(v)
  {
    forall b
      ensures Used(v, b)
    {
      if HasBit(v.g, b) {
        Locate(v.g, b);
        assert GroupFull(v, GroupOf(v.g, b));
      }
    }
  }

  lemma GroupFullByCount(v: Vol, group: nat)
    requires VolInv(v) && group < |v.g.bitmaps|
    ensures v.groupFree[group] == 0 <==> GroupFull(v, group)
  {
    ClearZero(v.dev[v.g.bitmaps[group]], v.g.per);
  }

  // --- Taking and giving back one block ---------------------------------------------------------

  function Bitmap(v: Vol, b: nat): nat
    requires v.g.per > 0 && HasBit(v.g, b)
  {
    v.g.bitmaps[GroupOf(v.g, b)]
  }

  ghost function TakeBlock(v: Vol, b: nat): Vol
    requires DevOk(v.g, v.dev) && HasBit(v.g, b) && |v.groupFree| == |v.g.bitmaps|
    requires v.groupFree[GroupOf(v.g, b)] > 0 && v.free > 0
  {
    Locate(v.g, b);
    v.(dev := v.dev[Bitmap(v, b) := Mark(v.dev[Bitmap(v, b)], LocalOf(v.g, b))],
       groupFree := v.groupFree[GroupOf(v.g, b) := v.groupFree[GroupOf(v.g, b)] - 1],
       free := v.free - 1)
  }

  ghost function GiveBlock(v: Vol, b: nat): Vol
    requires DevOk(v.g, v.dev) && HasBit(v.g, b) && |v.groupFree| == |v.g.bitmaps|
  {
    Locate(v.g, b);
    v.(dev := v.dev[Bitmap(v, b) := Unmark(v.dev[Bitmap(v, b)], LocalOf(v.g, b))],
       groupFree := v.groupFree[GroupOf(v.g, b) := v.groupFree[GroupOf(v.g, b)] + 1],
       free := v.free + 1)
  }

  lemma {:induction false} SumUpdate(s: seq<nat>, i: nat, x: nat)
    requires i < |s|
    ensures Sum(s[i := x]) == Sum(s) - s[i] + x
    ensures Sum(s) >= s[i]
  {
    var n := |s| - 1;
    if i == n {
      assert s[i := x][..n] == s[..n];
    } else {
      SumUpdate(s[..n], i, x);
      assert s[i := x][..n] == s[..n][i := x];
    }
  }

  /** Two blocks share a bit only if they are the same block. */
  lemma BitsApart(g: Geo, b: nat, c: nat)
    requires g.per > 0 && HasBit(g, b) && HasBit(g, c)
    ensures GroupOf(g, b) == GroupOf(g, c) && LocalOf(g, b) == LocalOf(g, c) <==> b == c
  {
  }

  lemma BitmapsApart(g: Geo, i: nat, j: nat)
    requires GeoOk(g) && i < |g.bitmaps| && j < |g.bitmaps| && i != j
    ensures g.bitmaps[i] != g.bitmaps[j]
  {
  }

  lemma CanTake(v: Vol, b: nat)
    requires VolInv(v) && !Used(v, b)
    ensures HasBit(v.g, b) && |v.groupFree| == |v.g.bitmaps|
    ensures v.groupFree[GroupOf(v.g, b)] > 0 && v.free > 0
  {
    Locate(v.g, b);
    var group := GroupOf(v.g, b);
    ClearZero(v.dev[v.g.bitmaps[group]], v.g.per);
    SumUpdate(v.groupFree, group, 0);
  }

  /** Setting or clearing the bit of b changes the use of b and of no other block. */
  lemma UsedAfter(v: Vol, v': Vol, b: nat, used: bool, c: nat)
    requires DevOk(v.g, v.dev) && v'.g == v.g && HasBit(v.g, b) && LocalOf(v.g, b) < v.g.per
    requires v'.dev == v.dev[Bitmap(v, b) := (if used then Mark(v.dev[Bitmap(v, b)], LocalOf(v.g, b))
                                              else Unmark(v.dev[Bitmap(v, b)], LocalOf(v.g, b)))]
    ensures DevOk(v'.g, v'.dev)
    ensures Used(v', c) <==> if c == b then used else Used(v, c)
  {
    hide GroupOf, LocalOf;
    if HasBit(v.g, c) {
      BitsApart(v.g, b, c);
      Locate(v.g, c);
      MarkIs(v.dev[Bitmap(v, b)], LocalOf(v.g, b), LocalOf(v.g, c));
      if GroupOf(v.g, b) != GroupOf(v.g, c) {
        BitmapsApart(v.g, GroupOf(v.g, b), GroupOf(v.g, c));
      }
    }
  }

  lemma CountsAfter(v: Vol, v': Vol, b: nat, used: bool)
    requires DevOk(v.g, v.dev) && CountsOk(v) && HasBit(v.g, b) && (used <==> !Used(v, b))
    requires used ==> v.groupFree[GroupOf(v.g, b)] > 0 && v.free > 0
    requires v' == if used then TakeBlock(v, b) else GiveBlock(v, b)
    requires DevOk(v'.g, v'.dev)
    ensures CountsOk(v')
  {
    hide GroupOf, LocalOf, Clear, Sum, Mark, Unmark;
    Locate(v.g, b);
    var group := GroupOf(v.g, b);
    SumUpdate(v.groupFree, group, v'.groupFree[group]);
    forall i | 0 <= i < |v.groupFree|
      ensures v'.groupFree[i] == Clear(v'.dev[v.g.bitmaps[i]], v.g.per)
    {
      if i == group {
        ClearAfter(v.dev[v.g.bitmaps[i]], LocalOf(v.g, b), v.g.per);
      } else {
        BitmapsApart(v.g, i, group);
      }
    }
  }

  /** ext2_alloc_block_in_group, once it has found a clear bit. */
  lemma TakeInv(v: Vol, b: nat)
    requires VolInv(v) && !Used(v, b)
    ensures HasBit(v.g, b) && |v.groupFree| == |v.g.bitmaps|
    ensures v.groupFree[GroupOf(v.g, b)] > 0 && v.free > 0
    ensures VolInv(TakeBlock(v, b))
    ensures forall c :: Used(TakeBlock(v, b), c) <==> c == b || Used(v, c)
  {
    CanTake(v, b);
    Locate(v.g, b);
    var v' := TakeBlock(v, b);
    hide GroupOf, LocalOf;
    forall c
      ensures DevOk(v'.g, v'.dev) && (Used(v', c) <==> c == b || Used(v, c))
    {
      UsedAfter(v, v', b, true, c);
    }
    CountsAfter(v, v', b, true);
  }

  lemma GiveInv(v: Vol, b: nat)
    requires VolInv(v) && HasBit(v.g, b) && Used(v, b) && 0 < b < v.g.total && b in v.dev && b !in v.g.bitmaps
    ensures VolInv(GiveBlock(v, b))
    ensures forall c :: Used(GiveBlock(v, b), c) <==> c != b && Used(v, c)
  {
    Locate(v.g, b);
    var v' := GiveBlock(v, b);
    hide GroupOf, LocalOf;
    forall c
      ensures DevOk(v'.g, v'.dev) && (Used(v', c) <==> c != b && Used(v, c))
    {
      UsedAfter(v, v', b, false, c);
    }
    CountsAfter(v, v', b, false);
  }

  /** Writing a block that is not a bitmap does not touch allocation. */
  lemma WriteInv(v: Vol, b: nat, data: seq<Byte>)
    requires VolInv(v) && b !in v.g.bitmaps && |data| == v.g.bs
    ensures VolInv(v.(dev := v.dev[b := data]))
    ensures forall c :: Used(v.(dev := v.dev[b := data]), c) <==> Used(v, c)
  {
    var v' := v.(dev := v.dev[b := data]);
    hide GroupOf, LocalOf;
    assert forall i :: 0 <= i < |v.g.bitmaps| ==> v'.dev[v.g.bitmaps[i]] == v.dev[v.g.bitmaps[i]];
    forall c
      ensures Used(v', c) <==> Used(v, c)
    {
      if HasBit(v.g, c) {
        assert v'.dev[Bitmap(v, c)] == v.dev[Bitmap(v, c)];
      }
    }
  }

  /** Freeing what was just allocated restores the volume exactly. */
  lemma TakeGive(v: Vol, b: nat)
    requires VolInv(v) && !Used(v, b)
    ensures HasBit(v.g, b) && |v.groupFree| == |v.g.bitmaps|
    ensures v.groupFree[GroupOf(v.g, b)] > 0 && v.free > 0
    ensures DevOk(v.g, TakeBlock(v, b).dev)
    ensures GiveBlock(TakeBlock(v, b), b) == v
  {
    CanTake(v, b);
    Locate(v.g, b);
    TakeInv(v, b);
    MarkUnmark(v.dev[Bitmap(v, b)], LocalOf(v.g, b));
  }

  lemma MarkUnmark(bm: seq<Byte>, i: nat)
    requires i / 8 < |bm| && !Marked(bm, i)
    ensures Unmark(Mark(bm, i), i) == bm
  {
    OrAndNot(bm[i / 8], i % 8);
  }

  lemma {:induction false} OrAndNot(x: nat, k: nat)
    requires !BitOf(x, k)
    ensures AndNotBit(OrBit(x, k), k) == x
    decreases k
  {
    if k > 0 {
      OrAndNot(x / 2, k - 1);
      assert OrBit(x, k) / 2 == OrBit(x / 2, k - 1);
    }
  }

  lemma {:induction false} SumZero(s: seq<nat>)
    ensures Sum(s) == 0 <==> forall i :: 0 <= i < |s| ==> s[i] == 0
  {
    if s != [] {
      var n := |s| - 1;
      SumZero(s[..n]);
      assert forall i :: 0 <= i < n ==> s[..n][i] == s[i];
    }
  }

  /** The superblock's count says truthfully whether any block is free. */
  lemma FullIffNoneFree(v: Vol)
    requires VolInv(v)
    ensures Full(v) <==> v.free == 0
  {
    SumZero(v.groupFree);
    hide Clear, Sum;
    if v.free == 0 {
      forall i | 0 <= i < |v.g.bitmaps|
        ensures GroupFull(v, i)
      {
        GroupFullByCount(v, i);
      }
      AllGroupsFull(v);
    } else {
      var i :| 0 <= i < |v.groupFree| && v.groupFree[i] != 0;
      GroupFullByCount(v, i);
      var k: nat :| k < v.g.per && !Marked(v.dev[v.g.bitmaps[i]], k);
      Located(v.g, i, k);
      assert !Used(v, BlockAt(v.g, i, k));
    }
  }

  /** Freeing a block that is already free leaves the group's count wrong. */
  lemma DoubleFree(v: Vol, b: nat)
    requires VolInv(v) && !Used(v, b)
    ensures HasBit(v.g, b) && |v.groupFree| == |v.g.bitmaps| && DevOk(v.g, GiveBlock(v, b).dev)
    ensures !CountsOk(GiveBlock(v, b))
  {
    CanTake(v, b);
    Locate(v.g, b);
    UsedAfter(v, GiveBlock(v, b), b, false, b);
    ClearAfter(v.dev[Bitmap(v, b)], LocalOf(v.g, b), v.g.per);
  }

  /** v' is v with the free block b allocated. */
  ghost predicate Takes(v: Vol, v': Vol, b: nat) {
    VolInv(v) && b != 0 && !Used(v, b) && (TakeInv(v, b); v' == TakeBlock(v, b))
  }

  // --- A volume ---------------------------------------------------------------------------------

  /** The bitmap of a nearly full group: only bits 62 and 63 are clear. */
  function NearlyFull(): (bm: seq<Byte>)
    ensures |bm| == 1024
  {
    seq(1024, i => if i == 7 then 63 else 255)
  }

  ghost predicate Kilobytes(blocks: seq<seq<Byte>>) {
    |blocks| == 65 && forall i :: 0 <= i < |blocks| ==> |blocks[i]| == 1024
  }

  /** Sixty-five blocks of 1024 bytes in one group: block 3 is the bitmap, blocks 63 and
      64 are free, and the contents of the other blocks are arbitrary. */
  function Small(blocks: seq<seq<Byte>>): Vol
    requires |blocks| == 65
  {
    Vol(Geo(1024, 1, 8192, 65, [3]), map b | 0 <= b < 65 :: if b == 3 then NearlyFull() else blocks[b], [2], 2)
  }

  lemma SmallIsSound(blocks: seq<seq<Byte>>)
    requires Kilobytes(blocks)
    ensures VolInv(Small(blocks))
  {
    var v, bm := Small(blocks), NearlyFull();
    forall i: nat | i < 8192
      ensures Marked(bm, i) <==> i != 62 && i != 63
    {
      NearlyFullIs(i);
    }
    ClearTwo(bm, 62, 8192);
    hide Clear, Marked, NearlyFull;
    assert Sum([2]) == 2 by { assert [2][..0] == []; }
    forall b: nat
      ensures Used(v, b) <==> b != 63 && b != 64
    {
      assert b >= 1 ==> GroupOf(v.g, b) == (b - 1) / 8192 && LocalOf(v.g, b) == (b - 1) % 8192;
    }
  }

  lemma NearlyFullIs(i: nat)
    requires i < 8192
    ensures Marked(NearlyFull(), i) <==> i != 62 && i != 63
  {
    assert Dyadic.Pow2(6) == 64 by { assert Dyadic.Pow2(3) == 8; }
    assert Dyadic.Pow2(8) == 256;
    LowBits(6, i % 8);
    LowBits(8, i % 8);
  }

  lemma {:induction false} ClearTwo(bm: seq<Byte>, k: nat, n: nat)
    requires n <= 8 * |bm| && forall i: nat :: i < n ==> (Marked(bm, i) <==> i != k && i != k + 1)
    ensures Clear(bm, n) == if n <= k then 0 else if n == k + 1 then 1 else 2
  {
    if n > 0 {
      ClearTwo(bm, k, n - 1);
    }
  }

  lemma {:induction false} LowBits(k: nat, i: nat)
    ensures BitOf(Dyadic.Pow2(k) - 1, i) <==> i < k
    decreases i
  {
    if k == 0 {
      if i > 0 {
        LowBits(0, i - 1);
      }
    } else if i > 0 {
      LowBits(k - 1, i - 1);
      assert (Dyadic.Pow2(k) - 1) / 2 == Dyadic.Pow2(k - 1) - 1;
    }
  }
}
