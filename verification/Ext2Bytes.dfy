/** The steps of a file write on values: taking a block for a hole, giving it back
    when it cannot be mapped, and storing a block of bytes. */
module Ext2Bytes {
  import opened Bytes
  import opened Ext2Tree
  import opened Ext2Volume
  import opened Ext2Blocks

  // --- Bytes laid over bytes ---------------------------------------------------------------------

  /** t' shows the bytes of t with data laid over them from pos on. */
  ghost predicate Wrote(t: Tree, t': Tree, pos: nat, data: seq<Byte>) {
    && Shape(t) && Shape(t') && t'.bs == t.bs
    && (forall q: nat :: Raw(t', q) == if pos <= q < pos + |data| then data[q - pos] else Raw(t, q))
  }

  lemma WroteTrans(t: Tree, t1: Tree, t2: Tree, pos: nat, data: seq<Byte>, more: seq<Byte>)
    requires Wrote(t, t1, pos, data) && Wrote(t1, t2, pos + |data|, more)
    ensures Wrote(t, t2, pos, data + more)
  {
  }

  lemma WroteSame(t: Tree, t1: Tree, t2: Tree, pos: nat, data: seq<Byte>)
    requires Wrote(t, t1, pos, data) && SameBytes(t1, t2)
    ensures Wrote(t, t2, pos, data)
  {
  }

  function Splice(buf: seq<Byte>, off: nat, c: seq<Byte>): (r: seq<Byte>)
    requires off + |c| <= |buf|
    ensures |r| == |buf|
    ensures forall k :: 0 <= k < |r| ==> r[k] == if off <= k < off + |c| then c[k - off] else buf[k]
  {
    buf[..off] + c + buf[off + |c|..]
  }

  // --- Storing one block ------------------------------------------------------------------------------

  ghost function Stored(v: Vol, b: nat, data: seq<Byte>): Vol {
    v.(dev := v.dev[b := data])
  }

  /** A block of the file is overwritten: the file keeps its shape, other blocks
      their contents. */
  lemma StoreKeeps(v: Vol, top: seq<nat>, l: nat, data: seq<Byte>)
    requires FileOk(v, top) && GetBlock(T(v, top), l) != 0 && |data| == v.g.bs
    ensures FileOk(Stored(v, GetBlock(T(v, top), l), data), top)
    ensures Grew(v, top, Stored(v, GetBlock(T(v, top), l), data), top, 0)
    ensures Owned(T(Stored(v, GetBlock(T(v, top), l), data), top)) == Owned(T(v, top))
    ensures SameSlots(T(v, top), T(Stored(v, GetBlock(T(v, top), l), data), top))
  {
    var t, b := T(v, top), GetBlock(T(v, top), l);
    DataBlock(t, l);
    DataWrite(t, b, data);
    var v' := Stored(v, b, data);
    assert T(v', top) == SetData(t, b, data);
    SameInv(t, T(v', top));
    WriteInv(v, b, data);
    hide FreeOk, CountsOk, Used, Owns, Known, Distinct, GetBlock, SameSlots;
  }

  lemma BlocksApart(t: Tree, l: nat, m: nat)
    requires Inv(t) && l != m && GetBlock(t, l) != 0
    ensures GetBlock(t, m) != GetBlock(t, l)
  {
    GetIsSlot(t, l);
    if Mappable(t, m) {
      GetIsSlot(t, m);
      SlotsApart(t, l, m);
      OwnersApart(t, SlotOf(t, l), SlotOf(t, m));
    }
  }

  lemma StoreShows(v: Vol, top: seq<nat>, l: nat, data: seq<Byte>, q: nat)
    requires FileOk(v, top) && GetBlock(T(v, top), l) != 0 && |data| == v.g.bs
    requires FileOk(Stored(v, GetBlock(T(v, top), l), data), top)
    requires SameSlots(T(v, top), T(Stored(v, GetBlock(T(v, top), l), data), top))
    ensures Raw(T(Stored(v, GetBlock(T(v, top), l), data), top), q)
         == if BlockOf(q, v.g.bs) == l then data[PlaceIn(q, v.g.bs)] else Raw(T(v, top), q)
  {
    var t, b, m := T(v, top), GetBlock(T(v, top), l), BlockOf(q, v.g.bs);
    SameMaps(t, T(Stored(v, b, data), top), m);
    if m != l {
      BlocksApart(t, l, m);
    }
    hide FreeOk, CountsOk, Used, Owns, Known, Distinct, GetBlock, SameSlots, BlockOf, PlaceIn;
  }

  /** One chunk within one block: the block's bytes outside the chunk are base's. */
  lemma ChunkStored(v: Vol, top: seq<nat>, t0: Tree, l: nat, base: seq<Byte>, pos: nat, c: seq<Byte>)
    requires FileOk(v, top) && GetBlock(T(v, top), l) != 0 && |base| == v.g.bs && l == BlockOf(pos, v.g.bs)
    requires PlaceIn(pos, v.g.bs) + |c| <= v.g.bs && Shape(t0) && t0.bs == v.g.bs
    requires forall q :: BlockOf(q, v.g.bs) != l ==> Raw(T(v, top), q) == Raw(t0, q)
    requires |c| == v.g.bs || forall q :: BlockOf(q, v.g.bs) == l ==> base[PlaceIn(q, v.g.bs)] == Raw(t0, q)
    ensures FileOk(Stored(v, GetBlock(T(v, top), l), Splice(base, PlaceIn(pos, v.g.bs), c)), top)
    ensures Wrote(t0, T(Stored(v, GetBlock(T(v, top), l), Splice(base, PlaceIn(pos, v.g.bs), c)), top), pos, c)
  {
    var data := Splice(base, PlaceIn(pos, v.g.bs), c);
    StoreKeeps(v, top, l, data);
    var t' := T(Stored(v, GetBlock(T(v, top), l), data), top);
    hide GetBlock, Raw, BlockOf, PlaceIn, SameSlots, FreeOk, CountsOk, Used, Owns, Known, Distinct, Grew, Owned;
    forall q: nat
      ensures Raw(t', q) == if pos <= q < pos + |c| then c[q - pos] else Raw(t0, q)
    {
      StoreShows(v, top, l, data, q);
      SameBlock(v.g.bs, pos, q);
    }
  }

  // --- A block for a hole --------------------------------------------------------------------------------

  lemma TakeStep(v: Vol, top: seq<nat>, w: Vol, x: nat)
    requires FileOk(v, top) && Takes(v, w, x)
    ensures w.g == v.g && FileOk(w, top) && Foreign(w, top, x) && x in w.dev && w.dev.Keys == v.dev.Keys
    ensures 0 < x < v.g.total && HasBit(v.g, x) && v.free == w.free + 1
    ensures forall c :: Used(w, c) <==> c == x || Used(v, c)
    ensures forall c :: c in v.dev && c !in v.g.bitmaps ==> w.dev[c] == v.dev[c]
    ensures forall c :: Owns(T(w, top), c) <==> Owns(T(v, top), c)
    ensures SameBytes(T(v, top), T(w, top)) && SameSlots(T(v, top), T(w, top)) && Owned(T(w, top)) == Owned(T(v, top))
  {
    TakeInv(v, x);
    var bm := Bitmap(v, x);
    assert bm in v.g.bitmaps && Used(v, bm);
    hide Owns, Used, Distinct, Known, CountsOk, Raw, GetBlock, GroupOf, LocalOf, SameSlots;
    Unseen(T(v, top), bm, w.dev[bm]);
    assert SetData(T(v, top), bm, w.dev[bm]) == T(w, top);
  }

  lemma GiveStep(w: Vol, top: seq<nat>, x: nat)
    requires FileOk(w, top) && Foreign(w, top, x) && x in w.dev && HasBit(w.g, x) && 0 < x < w.g.total
    ensures FileOk(GiveBlock(w, x), top) && GiveBlock(w, x).dev.Keys == w.dev.Keys
    ensures forall c :: Used(GiveBlock(w, x), c) <==> c != x && Used(w, c)
    ensures forall c :: c in w.dev && c !in w.g.bitmaps ==> GiveBlock(w, x).dev[c] == w.dev[c]
    ensures forall c :: Owns(T(GiveBlock(w, x), top), c) <==> Owns(T(w, top), c)
    ensures SameBytes(T(w, top), T(GiveBlock(w, x), top))
  {
    GiveInv(w, x);
    var v, bm := GiveBlock(w, x), Bitmap(w, x);
    assert bm in w.g.bitmaps;
    hide Owns, Used, Distinct, Known, CountsOk, Raw, GetBlock, GroupOf, LocalOf, SameSlots;
    Unseen(T(w, top), bm, v.dev[bm]);
    assert SetData(T(w, top), bm, v.dev[bm]) == T(v, top);
  }

  /** The hole was filled with x. */
  lemma FilledGrew(v: Vol, top: seq<nat>, w: Vol, v': Vol, top': seq<nat>, x: nat)
    requires FileOk(v, top) && Takes(v, w, x) && Grew(w, top, v', top', x) && Owns(T(v', top'), x)
    ensures Grew(v, top, v', top', 0)
  {
    TakeStep(v, top, w, x);
    hide Owns, Used, Distinct, Known, CountsOk, FreeOk, Raw, GetBlock, SameSlots, SameBytes, Takes;
    assert forall c :: c in v.dev && Foreign(v, top, c) ==> c != x && Foreign(w, top, c);
  }

  /** The hole could not be filled: x is free again, added pointer blocks stay. */
  lemma GivenBack(v: Vol, top: seq<nat>, w: Vol, w': Vol, top': seq<nat>, x: nat)
    requires FileOk(v, top) && Takes(v, w, x) && Extended(w, top, w', top', x)
    ensures HasBit(w'.g, x) && |w'.groupFree| == |w'.g.bitmaps| && w'.g == v.g && v.g.first <= x < v.g.total
    ensures Grew(v, top, GiveBlock(w', x), top', 0) && SameBytes(T(v, top), T(GiveBlock(w', x), top'))
    ensures Owned(T(GiveBlock(w', x), top')) == Owned(T(w', top'))
  {
    TakeStep(v, top, w, x);
    GiveStep(w', top', x);
    hide Owns, Used, Distinct, Known, FreeOk, Raw, GetBlock, SameSlots, Takes, GiveBlock, GroupOf, LocalOf;
    assert forall c :: c in v.dev && Foreign(v, top, c) ==> c != x && Foreign(w, top, c);
  }

  lemma HoleFilled(v: Vol, top: seq<nat>, w: Vol, v': Vol, top': seq<nat>, l: nat, x: nat)
    requires FileOk(v, top) && Takes(v, w, x) && Mapped(w, top, v', top', l, x)
    ensures Grew(v, top, v', top', 0) && GetBlock(T(v', top'), l) == x
    ensures forall q :: BlockOf(q, v.g.bs) != l ==> Raw(T(v', top'), q) == Raw(T(v, top), q)
  {
    TakeStep(v, top, w, x);
    FilledGrew(v, top, w, v', top', x);
    hide Owns, Used, Distinct, Known, FreeOk, CountsOk, Raw, GetBlock, SameSlots, Takes, BlockOf, Owned, Foreign;
  }
}
