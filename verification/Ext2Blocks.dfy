/** Growing one file on an ext2 volume: which blocks the file owns, what every
    step keeps, and the bytes the file holds. */
module Ext2Blocks {
  import opened Bytes
  import opened Ext2Tree
  import opened Ext2Volume
  import opened Division

  function T(v: Vol, top: seq<nat>): Tree {
    Tree(v.dev, top, v.g.bs)
  }

  // --- Ownership -------------------------------------------------------------------------------

  /** The file's blocks are distinct, marked in the bitmaps, and never a bitmap. */
  ghost predicate FileOk(v: Vol, top: seq<nat>) {
    && VolInv(v) && Inv(T(v, top))
    && (forall b :: Owns(T(v, top), b) ==> Used(v, b) && b !in v.g.bitmaps)
  }

  ghost function Owned(t: Tree): set<nat>
    requires |t.top| == 15 && t.bs % 4 == 0
  {
    set b | b in t.dev && Owns(t, b)
  }

  function NoBlocks(): seq<nat> {
    seq(15, _ => 0)
  }

  /** A new inode owns nothing and every logical block of it is a hole. */
  lemma NewFile(v: Vol)
    requires VolInv(v)
    ensures FileOk(v, NoBlocks()) && Owned(T(v, NoBlocks())) == {}
    ensures forall m: nat :: GetBlock(T(v, NoBlocks()), m) == 0
  {
    hide FreeOk, CountsOk, Used;
    var t := T(v, NoBlocks());
    assert forall p :: InTree(t, p) ==> Val(t, p) == 0;
  }

  /** The i_blocks field counts 512-byte sectors of every block of the file. */
  ghost predicate Counted(t: Tree, sectors: nat, missing: nat)
    requires |t.top| == 15 && t.bs % 4 == 0
  {
    sectors + missing * (t.bs / 512) == |Owned(t)| * (t.bs / 512)
  }

  /** From v to v' the file gained only blocks that were free, or x; every block that
      became used is the file's; used blocks outside the file (other than x) and
      outside the bitmaps keep their contents. */
  ghost predicate Grew(v: Vol, top: seq<nat>, v': Vol, top': seq<nat>, x: nat) {
    && v'.g == v.g && FileOk(v, top) && FileOk(v', top')
    && v.dev.Keys <= v'.dev.Keys
    && (forall b :: Owns(T(v, top), b) ==> Owns(T(v', top'), b))
    && (forall b :: Owns(T(v', top'), b) ==> Owns(T(v, top), b) || b == x || !Used(v, b))
    && (forall b :: Used(v, b) ==> Used(v', b))
    && (forall b :: Used(v', b) && !Used(v, b) ==> Owns(T(v', top'), b))
    && (forall b :: b in v.dev && b != x && Foreign(v, top, b) ==> v'.dev[b] == v.dev[b])
  }

  /** In use, but neither the file's nor a bitmap. */
  ghost predicate Foreign(v: Vol, top: seq<nat>, b: nat)
    requires FileOk(v, top)
  {
    Used(v, b) && b !in v.g.bitmaps && !Owns(T(v, top), b)
  }

  lemma GrewTrans(v: Vol, top: seq<nat>, v1: Vol, top1: seq<nat>, v2: Vol, top2: seq<nat>, x: nat)
    requires Grew(v, top, v1, top1, x) && Grew(v1, top1, v2, top2, x)
    ensures Grew(v, top, v2, top2, x)
  {
  }

  // --- Bytes -------------------------------------------------------------------------------------

  function BlockOf(pos: nat, bs: nat): nat
    requires bs > 0
  {
    pos / bs
  }

  function PlaceIn(pos: nat, bs: nat): (r: nat)
    requires bs > 0
    ensures r < bs
  {
    pos % bs
  }

  lemma SameBlock(bs: nat, pos: nat, q: nat)
    requires bs > 0
    ensures BlockOf(q, bs) == BlockOf(pos, bs) ==> PlaceIn(q, bs) - PlaceIn(pos, bs) == q - pos
    ensures 0 <= PlaceIn(pos, bs) + (q - pos) < bs ==> BlockOf(q, bs) == BlockOf(pos, bs)
  {
    assert pos == BlockOf(pos, bs) * bs + PlaceIn(pos, bs);
    assert q == BlockOf(q, bs) * bs + PlaceIn(q, bs);
    if 0 <= PlaceIn(pos, bs) + (q - pos) < bs {
      Divided(q, bs, BlockOf(pos, bs), PlaceIn(pos, bs) + (q - pos));
    }
  }

  /** The byte at pos: 0 in a hole. */
  ghost function Raw(t: Tree, pos: nat): Byte
    requires Shape(t)
  {
    var b := GetBlock(t, BlockOf(pos, t.bs));
    if b == 0 || b !in t.dev then 0 else t.dev[b][PlaceIn(pos, t.bs)]
  }

  ghost predicate SameBytes(t: Tree, t': Tree) {
    Shape(t) && Shape(t') && t'.bs == t.bs && forall pos :: Raw(t', pos) == Raw(t, pos)
  }

  /** Logical blocks map to the same blocks with the same contents. */
  lemma SameBlocksSameBytes(t: Tree, t': Tree)
    requires Shape(t) && Shape(t') && t'.bs == t.bs
    requires forall m :: GetBlock(t', m) == GetBlock(t, m)
    requires forall m :: GetBlock(t, m) != 0 ==> GetBlock(t, m) in t.dev && GetBlock(t, m) in t'.dev
                                                  && t'.dev[GetBlock(t, m)] == t.dev[GetBlock(t, m)]
    ensures SameBytes(t, t')
  {
  }

  /** What a logical block maps to is a block of the file that holds no pointers. */
  lemma DataBlock(t: Tree, m: nat)
    requires Inv(t) && GetBlock(t, m) != 0
    ensures Owns(t, GetBlock(t, m)) && GetBlock(t, m) in t.dev
    ensures exists p :: InTree(t, p) && !IsMeta(p) && Val(t, p) == GetBlock(t, m)
  {
    GetIsSlot(t, m);
    Owner(t, SlotOf(t, m));
  }

  lemma DataIsNotMeta(t: Tree, m: nat, s: Slot)
    requires Inv(t) && GetBlock(t, m) != 0 && InTree(t, s) && IsMeta(s)
    ensures GetBlock(t, m) != Val(t, s)
  {
    GetIsSlot(t, m);
    OwnersApart(t, SlotOf(t, m), s);
  }

  // --- Steps -----------------------------------------------------------------------------------

  /** The device after a free block was taken and zeroed. */
  ghost function Fresh(v: Vol, b: nat): Vol
    requires VolInv(v) && !Used(v, b)
  {
    TakeInv(v, b);
    var w := TakeBlock(v, b);
    w.(dev := w.dev[b := Zeroes(v.g.bs)])
  }

  /** Writing a block the file does not own changes nothing the file shows. */
  lemma Unseen(t: Tree, b: nat, data: seq<Byte>)
    requires Inv(t) && !Owns(t, b) && |data| == t.bs
    ensures Inv(SetData(t, b, data))
    ensures forall c :: Owns(SetData(t, b, data), c) <==> Owns(t, c)
    ensures SameBytes(t, SetData(t, b, data))
    ensures SameSlots(t, SetData(t, b, data))
  {
    var t' := SetData(t, b, data);
    DataWrite(t, b, data);
    SameInv(t, t');
    hide Owns, GetBlock, Raw, Distinct, Known, SameSlots;
    forall m
      ensures GetBlock(t', m) == GetBlock(t, m)
      ensures GetBlock(t, m) != 0 ==> GetBlock(t, m) in t.dev && GetBlock(t, m) != b
    {
      SameMaps(t, t', m);
      if GetBlock(t, m) != 0 {
        DataBlock(t, m);
      }
    }
    SameBlocksSameBytes(t, t');
  }

  ghost predicate FreshIs(v: Vol, w: Vol, b: nat)
    requires VolInv(v) && VolInv(w)
  {
    && b in w.dev && 0 < b < v.g.total && b !in v.g.bitmaps
    && w.dev.Keys == v.dev.Keys && w.dev[b] == Zeroes(v.g.bs)
    && (forall c :: Used(w, c) <==> c == b || Used(v, c))
    && (forall c :: c in v.dev && c != b && c !in v.g.bitmaps ==> w.dev[c] == v.dev[c])
  }

  lemma SameTrans(t: Tree, t1: Tree, t2: Tree)
    requires SameSlots(t, t1) && SameSlots(t1, t2)
    ensures SameSlots(t, t2)
  {
  }

  lemma FreshVol(v: Vol, b: nat)
    requires VolInv(v) && !Used(v, b)
    ensures VolInv(Fresh(v, b)) && FreshIs(v, Fresh(v, b), b)
  {
    TakeInv(v, b);
    assert Bitmap(v, b) in v.g.bitmaps && Used(v, Bitmap(v, b));
    WriteInv(TakeBlock(v, b), b, Zeroes(v.g.bs));
    hide Used, CountsOk, GroupOf, LocalOf, Zeroes;
  }

  /** Taking and zeroing a free block: the file is as before, and does not own it. */
  lemma FreshStep(v: Vol, top: seq<nat>, b: nat)
    requires FileOk(v, top) && !Used(v, b)
    ensures Fresh(v, b).g == v.g && FileOk(Fresh(v, b), top) && FreshIs(v, Fresh(v, b), b)
    ensures forall c :: Owns(T(Fresh(v, b), top), c) <==> Owns(T(v, top), c)
    ensures SameBytes(T(v, top), T(Fresh(v, b), top)) && SameSlots(T(v, top), T(Fresh(v, b), top))
  {
    FreshVol(v, b);
    TakeInv(v, b);
    var bm, z := Bitmap(v, b), Zeroes(v.g.bs);
    var w0 := TakeBlock(v, b);
    assert bm in v.g.bitmaps && Used(v, bm);
    hide Owns, Used, Distinct, Known, FreeOk, CountsOk, Raw, GetBlock, GroupOf, LocalOf, Zeroes, SameSlots;
    Unseen(T(v, top), bm, w0.dev[bm]);
    assert SetData(T(v, top), bm, w0.dev[bm]) == T(w0, top);
    Unseen(T(w0, top), b, z);
    assert SetData(T(w0, top), b, z) == T(Fresh(v, b), top);
    SameTrans(T(v, top), T(w0, top), T(Fresh(v, b), top));
  }

  // --- Hanging a block into the tree ---------------------------------------------------------------

  /** Block b, in use but nobody's, put into the empty slot s: either a pointer of
      the inode changes, or a word of one of the file's pointer blocks does. */
  ghost predicate Linked(w: Vol, top: seq<nat>, w': Vol, top': seq<nat>, s: Slot, b: nat) {
    && FileOk(w, top) && InTree(T(w, top), s) && Val(T(w, top), s) == 0
    && b != 0 && b in w.dev && Foreign(w, top, b)
    && |top'| == 15 && top'[TIND] == 0 && Changed(T(w, top), T(w', top'), s, b)
    && (w' == w || exists d, words :: PointerWrite(w, top, w', d, words))
  }

  ghost predicate PointerWrite(w: Vol, top: seq<nat>, w': Vol, d: nat, words: seq<Byte>)
    requires FileOk(w, top)
  {
    && |words| == w.g.bs && w' == w.(dev := w.dev[d := words]) && d != 0
    && exists p :: InTree(T(w, top), p) && IsMeta(p) && Val(T(w, top), p) == d
  }

  /** Only pointer blocks of the file change. */
  lemma LinkedDev(w: Vol, top: seq<nat>, w': Vol, top': seq<nat>, s: Slot, b: nat)
    requires Linked(w, top, w', top', s, b)
    ensures VolInv(w') && w'.g == w.g && w'.dev.Keys == w.dev.Keys
    ensures forall c :: Used(w', c) <==> Used(w, c)
    ensures forall c :: c in w.dev && w'.dev[c] != w.dev[c] ==> Owns(T(w, top), c)
    ensures forall m :: GetBlock(T(w, top), m) != 0 ==>
              GetBlock(T(w, top), m) in w.dev && w'.dev[GetBlock(T(w, top), m)] == w.dev[GetBlock(T(w, top), m)]
  {
    var t := T(w, top);
    forall m | GetBlock(t, m) != 0
      ensures GetBlock(t, m) in w.dev
    {
      DataBlock(t, m);
    }
    if w' != w {
      var d, words :| PointerWrite(w, top, w', d, words);
      var p :| InTree(t, p) && IsMeta(p) && Val(t, p) == d;
      Owner(t, p);
      WriteInv(w, d, words);
      forall m | GetBlock(t, m) != 0
        ensures GetBlock(t, m) != d
      {
        DataIsNotMeta(t, m, p);
      }
    }
  }

  /** The file gains exactly b. */
  lemma LinkedOwns(w: Vol, top: seq<nat>, w': Vol, top': seq<nat>, s: Slot, b: nat)
    requires Linked(w, top, w', top', s, b)
    ensures FileOk(w', top')
    ensures forall c :: Owns(T(w', top'), c) <==> c == b || Owns(T(w, top), c)
    ensures Owned(T(w', top')) == Owned(T(w, top)) + {b} && b !in Owned(T(w, top))
  {
    LinkedDev(w, top, w', top', s, b);
    hide Used, FreeOk, CountsOk, GetBlock, Changed;
    ChangedInv(T(w, top), T(w', top'), s, b);
  }

  /** A pointer block was hung in: no byte of the file changes. */
  lemma LinkedMeta(w: Vol, top: seq<nat>, w': Vol, top': seq<nat>, s: Slot, b: nat)
    requires Linked(w, top, w', top', s, b) && IsMeta(s)
    ensures SameBytes(T(w, top), T(w', top'))
  {
    LinkedDev(w, top, w', top', s, b);
    hide Used, FreeOk, CountsOk, GetBlock, Changed, Owns, Distinct, Known, Raw;
    forall m
      ensures GetBlock(T(w', top'), m) == GetBlock(T(w, top), m)
    {
      MetaMaps(T(w, top), T(w', top'), s, b, m);
    }
    SameBlocksSameBytes(T(w, top), T(w', top'));
  }

  /** A data block was hung in at logical block l: only l's bytes change. */
  lemma LinkedData(w: Vol, top: seq<nat>, w': Vol, top': seq<nat>, l: nat, b: nat)
    requires w.g.bs > 0 && w.g.bs % 4 == 0 && Ptrs(T(w, top)) > 0 && Mappable(T(w, top), l)
    requires Linked(w, top, w', top', SlotOf(T(w, top), l), b)
    ensures Shape(T(w', top')) && forall m :: GetBlock(T(w', top'), m) == if m == l then b else GetBlock(T(w, top), m)
    ensures forall pos :: BlockOf(pos, w.g.bs) != l ==> Raw(T(w', top'), pos) == Raw(T(w, top), pos)
  {
    LinkedDev(w, top, w', top', SlotOf(T(w, top), l), b);
    hide Used, FreeOk, CountsOk, GetBlock, Changed, Owns, Distinct, Known, SlotOf, BlockOf, PlaceIn;
    forall m
      ensures GetBlock(T(w', top'), m) == if m == l then b else GetBlock(T(w, top), m)
    {
      ChangedMaps(T(w, top), T(w', top'), l, b, m);
    }
  }

  /** Hanging in x itself. */
  lemma LinkGrew(w: Vol, top: seq<nat>, w': Vol, top': seq<nat>, s: Slot, x: nat)
    requires Linked(w, top, w', top', s, x)
    ensures Grew(w, top, w', top', x)
  {
    hide Used, FreeOk, CountsOk, GetBlock, Changed, Owns, Inv;
    LinkedDev(w, top, w', top', s, x);
    LinkedOwns(w, top, w', top', s, x);
  }

  /** A free block b was zeroed and hung into slot s as a pointer block, and x,
      which is in use but nobody's, was left alone. */
  ghost predicate Attached(v: Vol, top: seq<nat>, v': Vol, top': seq<nat>, s: Slot, b: nat, x: nat) {
    && Grew(v, top, v', top', x) && SameBytes(T(v, top), T(v', top')) && IsMeta(s) && b != 0
    && Changed(T(v, top), T(v', top'), s, b)
    && x in v.dev && Foreign(v', top', x) && v'.dev[x] == v.dev[x]
    && Owned(T(v', top')) == Owned(T(v, top)) + {b} && b !in Owned(T(v, top))
  }

  lemma SameThenChanged(t: Tree, t1: Tree, t2: Tree, s: Slot, b: nat)
    requires SameSlots(t, t1) && Changed(t1, t2, s, b)
    ensures Changed(t, t2, s, b)
  {
  }

  lemma FreshAttached(v: Vol, top: seq<nat>, w': Vol, top': seq<nat>, s: Slot, b: nat, x: nat)
    requires FileOk(v, top) && !Used(v, b) && Linked(Fresh(v, b), top, w', top', s, b) && IsMeta(s)
    requires x in v.dev && Foreign(v, top, x)
    ensures Attached(v, top, w', top', s, b, x)
  {
    hide Used, FreeOk, CountsOk, GetBlock, Changed, Owns, Raw, Fresh, Distinct, Known, SameSlots;
    var w := Fresh(v, b);
    FreshStep(v, top, b);
    LinkedMeta(w, top, w', top', s, b);
    FreshGrew(v, top, w', top', s, b, x);
    SameThenChanged(T(v, top), T(w, top), T(w', top'), s, b);
  }

  /** The volume keeps foreign contents, and b is the only block newly used or owned. */
  lemma FreshKept(v: Vol, top: seq<nat>, w': Vol, top': seq<nat>, s: Slot, b: nat)
    requires FileOk(v, top) && !Used(v, b) && Linked(Fresh(v, b), top, w', top', s, b)
    ensures FileOk(w', top') && w'.g == v.g && w'.dev.Keys == v.dev.Keys
    ensures forall c :: c in v.dev && Foreign(v, top, c) ==> w'.dev[c] == v.dev[c]
    ensures forall c :: Used(w', c) <==> c == b || Used(v, c)
    ensures forall c :: Owns(T(w', top'), c) <==> c == b || Owns(T(v, top), c)
  {
    hide Used, FreeOk, CountsOk, GetBlock, Changed, Owns, Raw, Fresh, Distinct, Known, Linked, SameSlots, SameBytes;
    hide Owned;
    FreshStep(v, top, b);
    LinkedDev(Fresh(v, b), top, w', top', s, b);
    LinkedOwns(Fresh(v, b), top, w', top', s, b);
  }

  lemma FreshGrew(v: Vol, top: seq<nat>, w': Vol, top': seq<nat>, s: Slot, b: nat, x: nat)
    requires FileOk(v, top) && !Used(v, b) && Linked(Fresh(v, b), top, w', top', s, b)
    requires x in v.dev && Foreign(v, top, x)
    ensures Grew(v, top, w', top', x) && Foreign(w', top', x) && w'.dev[x] == v.dev[x]
    ensures Owned(T(w', top')) == Owned(T(v, top)) + {b} && b !in Owned(T(v, top))
  {
    hide Used, FreeOk, CountsOk, Owns, Fresh, Distinct, Known, Linked;
    FreshKept(v, top, w', top', s, b);
    assert b in w'.dev by { FreshVol(v, b); }
  }

  // --- The slots, one by one ---------------------------------------------------------------------

  lemma HangTop(v: Vol, top: seq<nat>, i: nat, b: nat, x: nat)
    requires FileOk(v, top) && (i == IND || i == DIND) && top[i] == 0 && !Used(v, b)
    requires x in v.dev && Foreign(v, top, x)
    ensures Attached(v, top, Fresh(v, b), top[i := b], Top(i), b, x)
  {
    var w := Fresh(v, b);
    FreshStep(v, top, b);
    Owner0(v, top, b);
    assert w.dev[b := Zeroes(v.g.bs)] == w.dev;
    FreshIsForeign(v, top, b);
    hide Used, FreeOk, CountsOk, Owns, Distinct, Known, GetBlock, Raw, Changed, SameSlots, Fresh, Foreign;
    AttachTop(T(w, top), i, b);
    FreshAttached(v, top, w, top[i := b], Top(i), b, x);
  }

  lemma Owner0(v: Vol, top: seq<nat>, b: nat)
    requires FileOk(v, top) && !Used(v, b)
    ensures !Owns(T(v, top), b)
  {
  }

  lemma HangDind(v: Vol, top: seq<nat>, i: nat, b: nat, x: nat)
    requires FileOk(v, top) && i < Ptrs(T(v, top)) && top[DIND] != 0 && Val(T(v, top), Dind(i)) == 0 && !Used(v, b)
    requires x in v.dev && Foreign(v, top, x)
    ensures 0 < b < 0x1_0000_0000 && top[DIND] in v.dev && |v.dev[top[DIND]]| == v.g.bs
    ensures top[DIND] in Fresh(v, b).dev && Fresh(v, b).dev[top[DIND]] == v.dev[top[DIND]]
    ensures Attached(v, top, Worded(Fresh(v, b), top[DIND], i, b), top, Dind(i), b, x)
  {
    var w, d := Fresh(v, b), top[DIND];
    FreshStep(v, top, b);
    Owner0(v, top, b);
    assert InTree(T(v, top), Top(DIND)) && Val(T(v, top), Top(DIND)) == d;
    Owner(T(v, top), Top(DIND));
    assert w.dev[d] == v.dev[d] && Val(T(w, top), Dind(i)) == 0;
    assert w.dev[b := Zeroes(v.g.bs)] == w.dev;
    hide Used, FreeOk, CountsOk, Owns, Distinct, Known, GetBlock, Raw, Changed, SameSlots, Fresh, Foreign;
    AttachDind(T(w, top), i, b);
    var w' := Worded(w, d, i, b);
    assert T(w', top) == SetWord(SetData(T(w, top), b, Zeroes(v.g.bs)), d, i, b);
    assert PointerWrite(w, top, w', d, Put32(w.dev[d], i, b)) by {
      assert InTree(T(w, top), Top(DIND)) && IsMeta(Top(DIND)) && Val(T(w, top), Top(DIND)) == d;
    }
    FreshIsForeign(v, top, b);
    FreshAttached(v, top, w', top, Dind(i), b, x);
  }

  lemma FreshIsForeign(v: Vol, top: seq<nat>, b: nat)
    requires FileOk(v, top) && !Used(v, b)
    ensures FileOk(Fresh(v, b), top) && Foreign(Fresh(v, b), top, b)
  {
    FreshStep(v, top, b);
    Owner0(v, top, b);
  }

  /** Word i of block d set to x. */
  ghost function Worded(w: Vol, d: nat, i: nat, x: nat): Vol
    requires d in w.dev && 4 * i + 4 <= |w.dev[d]| && x < 0x1_0000_0000
  {
    w.(dev := w.dev[d := Put32(w.dev[d], i, x)])
  }

  lemma HangDirect(w: Vol, top: seq<nat>, l: nat, x: nat)
    requires FileOk(w, top) && x != 0 && x in w.dev && Foreign(w, top, x) && l < NDIR && GetBlock(T(w, top), l) == 0
    ensures Linked(w, top, w, top[l := x], SlotOf(T(w, top), l), x)
  {
  }

  lemma HangInd(w: Vol, top: seq<nat>, l: nat, x: nat)
    requires FileOk(w, top) && 0 < x < 0x1_0000_0000 && x in w.dev && Foreign(w, top, x)
    requires NDIR <= l < NDIR + Ptrs(T(w, top)) && top[IND] != 0 && GetBlock(T(w, top), l) == 0
    ensures top[IND] in w.dev && |w.dev[top[IND]]| == w.g.bs
    ensures Linked(w, top, Worded(w, top[IND], l - NDIR, x), top, SlotOf(T(w, top), l), x)
  {
    var t, d, i := T(w, top), top[IND], l - NDIR;
    SetInd(t, i, x);
    var w' := Worded(w, d, i, x);
    assert T(w', top) == SetWord(t, d, i, x);
    assert PointerWrite(w, top, w', d, Put32(w.dev[d], i, x)) by {
      assert InTree(t, Top(IND)) && IsMeta(Top(IND)) && Val(t, Top(IND)) == d;
    }
  }

  lemma HangLeaf(w: Vol, top: seq<nat>, l: nat, i: nat, j: nat, x: nat)
    requires FileOk(w, top) && 0 < x < 0x1_0000_0000 && x in w.dev && Foreign(w, top, x)
    requires Mappable(T(w, top), l) && SlotOf(T(w, top), l) == Leaf(i, j) && GetBlock(T(w, top), l) == 0
    requires i < Ptrs(T(w, top)) && j < Ptrs(T(w, top)) && Val(T(w, top), Dind(i)) != 0
    ensures Val(T(w, top), Dind(i)) in w.dev && |w.dev[Val(T(w, top), Dind(i))]| == w.g.bs
    ensures Linked(w, top, Worded(w, Val(T(w, top), Dind(i)), j, x), top, SlotOf(T(w, top), l), x)
  {
    var t := T(w, top);
    var d := Val(t, Dind(i));
    GetIsSlot(t, l);
    SetLeaf(t, i, j, x);
    var w' := Worded(w, d, j, x);
    assert T(w', top) == SetWord(t, d, j, x);
    assert PointerWrite(w, top, w', d, Put32(w.dev[d], j, x)) by {
      assert InTree(t, Dind(i)) && IsMeta(Dind(i)) && Val(t, Dind(i)) == d;
    }
  }

  // --- Whole paths ---------------------------------------------------------------------------------

  /** Pointer blocks may have been added on the way; the file shows the same bytes
      through the same blocks, and x is still nobody's. */
  ghost predicate Extended(v: Vol, top: seq<nat>, v': Vol, top': seq<nat>, x: nat) {
    && Grew(v, top, v', top', x) && SameBytes(T(v, top), T(v', top'))
    && (forall m :: GetBlock(T(v', top'), m) == GetBlock(T(v, top), m))
    && x in v.dev && Foreign(v', top', x) && v'.dev[x] == v.dev[x]
  }

  /** Logical block l now is x; other bytes are as before. */
  ghost predicate Mapped(v: Vol, top: seq<nat>, v': Vol, top': seq<nat>, l: nat, x: nat) {
    && Grew(v, top, v', top', x) && Owns(T(v', top'), x)
    && (forall m :: GetBlock(T(v', top'), m) == if m == l then x else GetBlock(T(v, top), m))
    && (forall pos :: BlockOf(pos, v.g.bs) != l ==> Raw(T(v', top'), pos) == Raw(T(v, top), pos))
  }

  lemma ExtendedRefl(v: Vol, top: seq<nat>, x: nat)
    requires FileOk(v, top) && x in v.dev && Foreign(v, top, x)
    ensures Extended(v, top, v, top, x)
  {
  }

  lemma AttachedExtended(v: Vol, top: seq<nat>, v': Vol, top': seq<nat>, s: Slot, b: nat, x: nat)
    requires Attached(v, top, v', top', s, b, x)
    ensures Extended(v, top, v', top', x)
  {
    hide FreeOk, CountsOk, Used, Owns, Known, Distinct, GetBlock, Changed, Owned, Raw;
    forall m
      ensures GetBlock(T(v', top'), m) == GetBlock(T(v, top), m)
    {
      MetaMaps(T(v, top), T(v', top'), s, b, m);
    }
  }

  lemma ExtendedTrans(v: Vol, top: seq<nat>, v1: Vol, top1: seq<nat>, v2: Vol, top2: seq<nat>, x: nat)
    requires Extended(v, top, v1, top1, x) && Extended(v1, top1, v2, top2, x)
    ensures Extended(v, top, v2, top2, x)
  {
  }

  lemma LinkedMapped(v: Vol, top: seq<nat>, w: Vol, top1: seq<nat>, v': Vol, top': seq<nat>, l: nat, x: nat)
    requires Extended(v, top, w, top1, x) && Mappable(T(w, top1), l)
    requires Linked(w, top1, v', top', SlotOf(T(w, top1), l), x)
    ensures Mapped(v, top, v', top', l, x)
    ensures Owned(T(v', top')) == Owned(T(w, top1)) + {x} && x !in Owned(T(w, top1))
  {
    hide FreeOk, CountsOk, Used, Owns, Known, Distinct, GetBlock, Raw, Foreign, Linked, SlotOf, Owned, BlockOf;
    LinkGrew(w, top1, v', top', SlotOf(T(w, top1), l), x);
    LinkedOwns(w, top1, v', top', SlotOf(T(w, top1), l), x);
    LinkedData(w, top1, v', top', l, x);
    GrewTrans(v, top, w, top1, v', top', x);
  }
}
