/** ext2_file_read and ext2_file_write (kernel/fs/ext2.c) against a byte sequence. */
module Ext2Io {
  import opened Bytes
  import opened Division
  import opened Ext2Tree
  import opened Ext2Need
  import opened Ext2Volume
  import opened Ext2Blocks
  import opened Ext2Bytes
  import opened Ext2File

  // --- The file as a byte sequence -------------------------------------------------------------------

  ghost function Contents(t: Tree, size: nat): seq<Byte>
    requires Shape(t)
  {
    seq(size, pos requires pos >= 0 => Raw(t, pos))
  }

  /** Nothing but zeroes is stored past the end of the file. */
  ghost predicate CleanTail(t: Tree, size: nat)
    requires Shape(t)
  {
    forall pos: nat :: pos >= size ==> Raw(t, pos) == 0
  }

  function Max(a: nat, b: nat): nat {
    if a >= b then a else b
  }

  /** data written at off into a byte sequence; a gap is filled with zeroes. */
  function Written(s: seq<Byte>, off: nat, data: seq<Byte>): seq<Byte> {
    seq(Max(|s|, off + |data|), k requires k >= 0 =>
      if off <= k < off + |data| then data[k - off] else if k < |s| then s[k] else 0)
  }

  /** Laying bytes over a file and raising its size is writing to the sequence. */
  lemma WroteContents(t: Tree, t': Tree, size: nat, off: nat, data: seq<Byte>)
    requires Wrote(t, t', off, data) && CleanTail(t, size)
    ensures Contents(t', Max(size, off + |data|)) == Written(Contents(t, size), off, data)
    ensures CleanTail(t', Max(size, off + |data|))
  {
  }

  /** If the size is not raised, the bytes that went past the end are hidden but not
      gone: the tail is clean exactly when those bytes are all zero. */
  lemma WroteBelow(t: Tree, t': Tree, size: nat, off: nat, data: seq<Byte>)
    requires Wrote(t, t', off, data) && CleanTail(t, size)
    ensures Contents(t', size) == Written(Contents(t, size), off, data)[..size]
    ensures CleanTail(t', size) <==> forall k :: 0 <= k < |data| && off + k >= size ==> data[k] == 0
  {
    hide Raw, Shape;
    forall k | 0 <= k < |data| && off + k >= size
      ensures Raw(t', off + k) == data[k]
    {
    }
  }

  // --- Reading ------------------------------------------------------------------------------------------

  const WORD32: nat := 0x1_0000_0000
  const WORD64: nat := 0x1_0000_0000_0000_0000

  /** The value as a 32-bit and as a 64-bit number. */
  function Low32(x: nat): (r: nat)
    ensures x < WORD32 ==> r == x
  {
    x % WORD32
  }

  function Low64(x: nat): (r: nat)
    ensures x < WORD64 ==> r == x
    ensures WORD64 <= x < 2 * WORD64 ==> r == x - WORD64
  {
    x % WORD64
  }

  /** How many bytes a read that starts inside the file wants, its sum taken in 64 bits. */
  function Wanted(fileSize: nat, size: nat, offset: nat): nat
    requires offset < fileSize
  {
    if Low64(offset + size) > fileSize then fileSize - offset else size
  }

  /** It is cut at the end of the file if and only if the sum stays inside 64 bits. */
  lemma ReadCut(fileSize: nat, size: nat, offset: nat)
    requires offset < fileSize < WORD32 && size < WORD64
    ensures Wanted(fileSize, size, offset) == (if offset + size > fileSize then fileSize - offset else size)
            <==> offset + size < WORD64
  {
    hide Low64;
  }

  /** ext2_file_read.  The file's size has 32 bits, sizes and positions have 64, and a
      logical block has 32. */
  method FileRead(fs: Fs, node: Inode, size: nat, offset: nat) returns (buf: seq<Byte>)
    requires FileOk(fs.V(), node.top) && node.size < WORD32 && size < WORD64
    ensures offset >= node.size ==> buf == []
    ensures offset < node.size ==> |buf| == Wanted(node.size, size, offset)
    ensures offset < node.size ==>
              forall k :: 0 <= k < |buf| && offset + k < WORD32 ==> buf[k] == Raw(T(fs.V(), node.top), offset + k)
    ensures offset < node.size && offset + size < WORD64 ==>
              buf == Contents(T(fs.V(), node.top), node.size)
                       [offset..if offset + size > node.size then node.size else offset + size]
  {
    hide FreeOk, CountsOk, Used, Owns, Distinct, GetBlock, Raw, BlockOf, PlaceIn, Low32, Low64;
    if offset >= node.size {
      return [];
    }
    ghost var t := T(fs.V(), node.top);
    var want := if Low64(offset + size) > node.size then node.size - offset else size;
    var remaining, pos := want, offset;
    buf := [];
    while remaining > 0
      invariant 0 <= remaining <= want && 0 <= pos && |buf| == want - remaining
      invariant offset + |buf| < WORD64 ==> pos == offset + |buf|
      invariant forall k :: 0 <= k < |buf| && offset + k < WORD32 ==> buf[k] == Raw(t, offset + k)
    {
      var l, o := Low32(BlockOf(pos, fs.g.bs)), PlaceIn(pos, fs.g.bs);
      var chunk := if fs.g.bs - o > remaining then remaining else fs.g.bs - o;
      var b := GetBlock(Tree(fs.dev, node.top, fs.g.bs), l);
      var got := Zeroes(chunk);
      if b != 0 {
        DataBlock(t, l);
        got := fs.dev[b][o..o + chunk];
      }
      if offset + |buf| < WORD32 {
        LowBlock(pos, fs.g.bs);
        ChunkRead(t, pos, got);
      }
      buf := buf + got;
      pos := Low64(pos + chunk);
      remaining := remaining - chunk;
    }
    ReadCut(node.size, size, offset);
    if offset + size < WORD64 {
      assert buf == Contents(t, node.size)[offset..offset + want];
    }
  }

  lemma LowBlock(pos: nat, bs: nat)
    requires pos < WORD32 && bs > 0
    ensures Low32(BlockOf(pos, bs)) == BlockOf(pos, bs)
  {
    BlockSpan(pos, bs);
    hide BlockOf, PlaceIn, Low32;
    Multiplied(BlockOf(pos, bs), bs);
  }

  lemma Multiplied(a: nat, bs: nat)
    requires bs > 0
    ensures a <= a * bs
  {
  }

  lemma ChunkRead(t: Tree, pos: nat, got: seq<Byte>)
    requires Shape(t) && PlaceIn(pos, t.bs) + |got| <= t.bs
    requires var b := GetBlock(t, BlockOf(pos, t.bs));
             if b == 0 || b !in t.dev then got == Zeroes(|got|)
             else got == t.dev[b][PlaceIn(pos, t.bs)..PlaceIn(pos, t.bs) + |got|]
    ensures forall k :: 0 <= k < |got| ==> got[k] == Raw(t, pos + k)
  {
    hide GetBlock, BlockOf, PlaceIn;
    forall k | 0 <= k < |got|
      ensures got[k] == Raw(t, pos + k)
    {
      SameBlock(t.bs, pos, pos + k);
    }
  }

  // --- Writing ------------------------------------------------------------------------------------------

  datatype Step = Done | NoBlock | Failed(err: Err)

  function StepOf(err: Err): Step {
    if err == Ok then Done else Failed(err)
  }

  lemma MissingSame(t: Tree, t': Tree, l: nat)
    requires Shape(t) && Shape(t') && SameSlots(t, t')
    ensures Mappable(t', l) <==> Mappable(t, l)
    ensures Mappable(t, l) ==> Missing(t', l) == Missing(t, l)
  {
    if Mappable(t, l) {
      GetIsSlot(t, l);
      assert InTree(t, Top(IND)) && InTree(t, Top(DIND));
      if l >= NDIR + Ptrs(t) {
        QuotientBound(l - NDIR - Ptrs(t), Ptrs(t));
        assert InTree(t, Dind((l - NDIR - Ptrs(t)) / Ptrs(t)));
      }
    }
  }

  lemma OkMeans(v: Vol, top: seq<nat>)
    requires FileOk(v, top)
    ensures VolInv(v) && DevOk(v.g, v.dev) && Inv(T(v, top)) && Shape(T(v, top))
    ensures |top| == 15 && v.g.bs % 4 == 0 && v.g.bs > 0 && v.g.total <= 0x1_0000_0000
  {
  }

  lemma GrewOk(v: Vol, top: seq<nat>, v': Vol, top': seq<nat>, x: nat)
    requires Grew(v, top, v', top', x)
    ensures FileOk(v, top) && FileOk(v', top') && v'.g == v.g
    ensures Shape(T(v', top')) && |top'| == 15 && v.g.bs % 4 == 0
  {
  }

  lemma Taken(v: Vol, top: seq<nat>, w: Vol, x: nat, l: nat)
    requires FileOk(v, top) && Takes(v, w, x)
    ensures w.g == v.g && FileOk(w, top) && Foreign(w, top, x) && x in w.dev && 0 < x < v.g.total
            && v.free == w.free + 1
    ensures GetBlock(T(w, top), l) == GetBlock(T(v, top), l) && Owned(T(w, top)) == Owned(T(v, top))
    ensures Mappable(T(w, top), l) <==> Mappable(T(v, top), l)
    ensures Mappable(T(v, top), l) ==> Missing(T(w, top), l) == Missing(T(v, top), l)
    ensures MetaKept(T(v, top), T(w, top), l)
  {
    TakeStep(v, top, w, x);
    KeptSame(T(v, top), T(w, top), l);
    MissingSame(T(v, top), T(w, top), l);
    SameMaps(T(v, top), T(w, top), l);
    hide FreeOk, CountsOk, Used, Owns, Known, Distinct, Foreign, Owned, GetBlock, Mappable, Missing, SameSlots, Takes;
    hide MetaKept;
  }

  lemma CountedSame(t: Tree, t': Tree, sectors: nat)
    requires |t.top| == 15 && t.bs % 4 == 0 && |t'.top| == 15 && t'.bs == t.bs && Owned(t') == Owned(t)
             && Counted(t, sectors, 0)
    ensures Counted(t', sectors, 0)
  {
  }

  lemma CountedLast(t: Tree, sectors: nat)
    requires |t.top| == 15 && t.bs % 4 == 0 && Counted(t, sectors, 1)
    ensures Counted(t, sectors + t.bs / 512, 0)
  {
  }

  ghost predicate HoleOutcome(v: Vol, top: seq<nat>, v': Vol, top': seq<nat>, sectors: nat, l: nat, r: Step, b: nat) {
    && Grew(v, top, v', top', 0) && Counted(T(v', top'), sectors, 0)
    && (r == Done <==> Fits(T(v, top), v.free, l, 1))
    && (r == Done ==> Filled(T(v, top), T(v', top'), l) && v'.free == v.free - Need(T(v, top), l, 1))
    && (r == NoBlock <==> v.free == 0)
    && (r == NoBlock ==> v' == v && top' == top)
    && (r == Failed(Enospc) ==> v'.free == 1)
    && (r.Failed? ==> r.err == if Mappable(T(v, top), l) then Enospc else Einval)
    && (r == Done ==> b != 0 && GetBlock(T(v', top'), l) == b)
    && (r == Done ==> forall q :: BlockOf(q, v.g.bs) != l ==> Raw(T(v', top'), q) == Raw(T(v, top), q))
    && (r != Done ==> SameBytes(T(v, top), T(v', top')))
  }

  lemma HoleNoBlock(v: Vol, top: seq<nat>, sectors: nat, l: nat)
    requires FileOk(v, top) && Counted(T(v, top), sectors, 0) && GetBlock(T(v, top), l) == 0 && Full(v)
    ensures HoleOutcome(v, top, v, top, sectors, l, NoBlock, 0)
  {
    FullIffNoneFree(v);
    NeedOne(T(v, top), l);
    hide Need, Missing, Mappable;
  }

  lemma GivenFree(v: Vol, b: nat)
    requires VolInv(v) && HasBit(v.g, b) && |v.groupFree| == |v.g.bitmaps|
    ensures GiveBlock(v, b).free == v.free + 1
  {
  }

  lemma HoleFailed(v: Vol, top: seq<nat>, w: Vol, w': Vol, top': seq<nat>, sectors: nat, l: nat, x: nat, err: Err)
    requires FileOk(v, top) && GetBlock(T(v, top), l) == 0 && Takes(v, w, x)
    requires err != Ok && SetOutcome(w, top, w', top', sectors, l, x, err)
    ensures HasBit(w'.g, x) && |w'.groupFree| == |w'.g.bitmaps| && VolInv(w') && w'.g.first <= x < w'.g.total
    ensures HoleOutcome(v, top, GiveBlock(w', x), top', sectors, l, Failed(err), x)
  {
    hide Owns, Used, Distinct, Known, FreeOk, CountsOk, Raw, GetBlock, Takes, GiveBlock, HasBit, Foreign, Owned;
    hide Missing, Mappable, Need, SameBytes, Filled, MetaKept, Mapped, Counted;
    GivenBack(v, top, w, w', top', x);
    GivenFree(w', x);
    Taken(v, top, w, x, l);
    NeedOne(T(v, top), l);
    CountedSame(T(w', top'), T(GiveBlock(w', x), top'), sectors);
  }

  lemma HoleDone(v: Vol, top: seq<nat>, w: Vol, v': Vol, top': seq<nat>, sectors: nat, l: nat, x: nat)
    requires FileOk(v, top) && GetBlock(T(v, top), l) == 0
    requires Takes(v, w, x) && SetOutcome(w, top, v', top', sectors, l, x, Ok)
    ensures HoleOutcome(v, top, v', top', sectors + v.g.bs / 512, l, Done, x)
  {
    HoleFilled(v, top, w, v', top', l, x);
    Taken(v, top, w, x, l);
    NeedOne(T(v, top), l);
    HoleFills(v, top, w, v', top', l, x);
    hide Owns, Used, Distinct, Known, FreeOk, CountsOk, Raw, GetBlock, Takes, Foreign, Owned, Missing, Mappable;
    hide BlockOf;
    hide Need, MetaKept, Filled;
    CountedLast(T(v', top'), sectors);
  }

  lemma HoleFills(v: Vol, top: seq<nat>, w: Vol, v': Vol, top': seq<nat>, l: nat, x: nat)
    requires FileOk(v, top) && Takes(v, w, x) && Mapped(w, top, v', top', l, x) && x != 0
    requires Mappable(T(w, top), l) && MetaKept(T(w, top), T(v', top'), l)
    ensures Filled(T(v, top), T(v', top'), l)
  {
    hide Owns, Used, Distinct, Known, FreeOk, CountsOk, Raw, GetBlock, Takes, Foreign, Owned, Missing, BlockOf;
    hide MetaKept;
    TakeStep(v, top, w, x);
    KeptSame(T(v, top), T(w, top), l);
    KeptTrans(T(v, top), T(w, top), T(v', top'), l);
    forall m
      ensures GetBlock(T(w, top), m) == GetBlock(T(v, top), m)
    {
      SameMaps(T(v, top), T(w, top), m);
    }
  }

  /** A hole gets a block: it is allocated and mapped, or everything the file shows
      is as before and no block is lost. */
  method FillHole(fs: Fs, node: Inode, l: nat, group: nat) returns (r: Step, b: nat)
    requires FileOk(fs.V(), node.top) && Counted(T(fs.V(), node.top), node.sectors, 0) && group < |fs.g.bitmaps|
    requires GetBlock(T(fs.V(), node.top), l) == 0
    modifies fs, node
    ensures node.size == old(node.size) && node.nodeSize == old(node.nodeSize)
    ensures HoleOutcome(old(fs.V()), old(node.top), fs.V(), node.top, node.sectors, l, r, b)
  {
    hide FileOk, Counted, GetBlock, HoleOutcome, Full, VolInv, Takes;
    ghost var v := fs.V();
    OkMeans(v, node.top);
    b := fs.AllocBlock(group);
    if b == 0 {
      HoleNoBlock(v, node.top, node.sectors, l);
      return NoBlock, 0;
    }
    var err := MapBlock(fs, node, l, b, group, v);
    return StepOf(err), b;
  }

  /** The freshly allocated block b is mapped, or freed again. */
  method MapBlock(fs: Fs, node: Inode, l: nat, b: nat, group: nat, ghost v: Vol) returns (err: Err)
    requires FileOk(v, node.top) && Counted(T(v, node.top), node.sectors, 0) && group < |fs.g.bitmaps|
    requires GetBlock(T(v, node.top), l) == 0 && Takes(v, fs.V(), b)
    modifies fs, node
    ensures node.size == old(node.size) && node.nodeSize == old(node.nodeSize)
    ensures HoleOutcome(v, old(node.top), fs.V(), node.top, node.sectors, l, StepOf(err), b)
  {
    hide FileOk, HoleOutcome, SetOutcome, Takes, GiveBlock, Counted, Foreign, GetBlock, Missing, Mappable, Owned;
    ghost var w, top0 := fs.V(), node.top;
    OkMeans(v, top0);
    Taken(v, top0, w, b, l);
    CountedSame(T(v, top0), T(w, top0), node.sectors);
    err := fs.SetBlock(node, l, b, group);
    ghost var w' := fs.V();
    if err == Ok {
      HoleDone(v, top0, w, w', node.top, node.sectors, l, b);
      node.sectors := node.sectors + fs.g.bs / 512;
      assert fs.V() == w';
      return;
    }
    HoleFailed(v, top0, w, w', node.top, node.sectors, l, b, err);
    var freed := fs.FreeBlock(b);
    assert freed == Ok && fs.V() == GiveBlock(w', b);
  }

  /** One turn of the write loop: a chunk within one block. */
  method WriteChunk(fs: Fs, node: Inode, buf: seq<Byte>, pos: nat, c: seq<Byte>, group: nat)
    returns (r: Step, out: seq<Byte>)
    requires FileOk(fs.V(), node.top) && Counted(T(fs.V(), node.top), node.sectors, 0) && group < |fs.g.bitmaps|
    requires fs.g.bs > 0 && |buf| == fs.g.bs && 0 < |c| <= fs.g.bs - PlaceIn(pos, fs.g.bs)
    modifies fs, node
    ensures node.size == old(node.size) && node.nodeSize == old(node.nodeSize) && |out| == fs.g.bs
    ensures Grew(old(fs.V()), old(node.top), fs.V(), node.top, 0) && Counted(T(fs.V(), node.top), node.sectors, 0)
    ensures r == Done <==> Fits(old(T(fs.V(), node.top)), old(fs.free), BlockOf(pos, fs.g.bs), 1)
    ensures r == Done ==> Filled(old(T(fs.V(), node.top)), T(fs.V(), node.top), BlockOf(pos, fs.g.bs))
    ensures r == Done ==> fs.free == old(fs.free) - Need(old(T(fs.V(), node.top)), BlockOf(pos, fs.g.bs), 1)
    ensures (r == NoBlock ==> fs.free == 0) && (r == Failed(Enospc) ==> fs.free == 1)
    ensures r == NoBlock <==> GetBlock(old(T(fs.V(), node.top)), BlockOf(pos, fs.g.bs)) == 0 && old(fs.free) == 0
    ensures r != Done ==> GetBlock(old(T(fs.V(), node.top)), BlockOf(pos, fs.g.bs)) == 0
    ensures r.Failed? ==> r.err == if Mappable(old(T(fs.V(), node.top)), BlockOf(pos, fs.g.bs)) then Enospc else Einval
    ensures r == Done ==> Wrote(old(T(fs.V(), node.top)), T(fs.V(), node.top), pos, c)
    ensures r != Done ==> SameBytes(old(T(fs.V(), node.top)), T(fs.V(), node.top))
  {
    hide FreeOk, CountsOk, Used, Owns, Known, Distinct, Full, Foreign, Owned, Counted, GetBlock, Raw, Mappable;
    hide Missing, SameSlots, Grew;
    hide BlockOf, PlaceIn, Wrote, Filled, Need;
    ghost var v, top0 := fs.V(), node.top;
    var l, o := BlockOf(pos, fs.g.bs), PlaceIn(pos, fs.g.bs);
    r, out := Done, buf;
    var b := GetBlock(Tree(fs.dev, node.top, fs.g.bs), l);
    if b == 0 {
      r, b := FillHole(fs, node, l, group);
      if r != Done {
        return;
      }
      if o > 0 || |c| < fs.g.bs {
        out := Zeroes(fs.g.bs);
      }
      HoleBytes(T(v, top0), l);
    } else {
      GrewRefl(v, top0);
      NeedOne(T(v, top0), l);
      FilledRefl(T(v, top0), l);
      if o > 0 || |c| < fs.g.bs {
        BlockBytes(T(v, top0), l);
        out := fs.dev[b];
      }
    }
    ghost var w := fs.V();
    GrewOk(v, top0, w, node.top, 0);
    ChunkStored(w, node.top, T(v, top0), l, out, pos, c);
    StoreKeeps(w, node.top, l, Splice(out, o, c));
    out := Splice(out, o, c);
    fs.dev := fs.dev[b := out];
    assert fs.V() == Stored(w, b, out);
    GrewTrans(v, top0, w, node.top, fs.V(), node.top, 0);
    CountedSame(T(w, node.top), T(fs.V(), node.top), node.sectors);
    FilledSame(T(v, top0), T(w, node.top), T(fs.V(), node.top), l);
  }

  lemma GrewRefl(v: Vol, top: seq<nat>)
    requires FileOk(v, top)
    ensures Grew(v, top, v, top, 0)
  {
  }

  lemma HoleBytes(t: Tree, l: nat)
    requires Shape(t) && GetBlock(t, l) == 0
    ensures forall q :: BlockOf(q, t.bs) == l ==> Raw(t, q) == Zeroes(t.bs)[PlaceIn(q, t.bs)]
  {
  }

  lemma BlockBytes(t: Tree, l: nat)
    requires Inv(t) && GetBlock(t, l) != 0
    ensures GetBlock(t, l) in t.dev
    ensures forall q :: BlockOf(q, t.bs) == l ==> Raw(t, q) == t.dev[GetBlock(t, l)][PlaceIn(q, t.bs)]
  {
    DataBlock(t, l);
    hide GetBlock, BlockOf, PlaceIn, Inv;
  }

  // --- The whole write -----------------------------------------------------------------------------------

  /** What the call returns: the bytes written, or an error code. */
  datatype Result = Count(n: nat) | Error(err: Err)

  /** How many logical blocks the len bytes from off on touch. */
  function Blocks(off: nat, len: nat, bs: nat): nat
    requires bs > 0
  {
    if len == 0 then 0 else
      BlocksRise(off, off + len - 1, bs);
      BlockOf(off + len - 1, bs) - BlockOf(off, bs) + 1
  }

  /** How many of the len bytes from off on lie in the first k of their blocks. */
  function Prefix(off: nat, len: nat, bs: nat, k: nat): nat
    requires bs > 0
  {
    if k == 0 then 0
    else if k >= Blocks(off, len, bs) then len
    else
      BlockSpan(off, bs);
      Multiples(BlockOf(off, bs) + 1, BlockOf(off, bs) + k, bs);
      (BlockOf(off, bs) + k) * bs - off
  }

  lemma BlockSpan(pos: nat, bs: nat)
    requires bs > 0
    ensures pos == BlockOf(pos, bs) * bs + PlaceIn(pos, bs) && pos < (BlockOf(pos, bs) + 1) * bs
    ensures pos + bs - PlaceIn(pos, bs) == (BlockOf(pos, bs) + 1) * bs
  {
    assert (BlockOf(pos, bs) + 1) * bs == BlockOf(pos, bs) * bs + bs;
  }

  lemma Multiples(a: nat, b: nat, bs: nat)
    requires a <= b
    ensures a * bs <= b * bs
  {
  }

  lemma BlocksRise(pos: nat, q: nat, bs: nat)
    requires bs > 0 && pos <= q
    ensures BlockOf(pos, bs) <= BlockOf(q, bs)
  {
    BlockSpan(pos, bs);
    BlockSpan(q, bs);
    hide BlockOf;
    if BlockOf(q, bs) < BlockOf(pos, bs) {
      Multiples(BlockOf(q, bs) + 1, BlockOf(pos, bs), bs);
    }
  }

  /** Where block k of the range starts. */
  lemma PrefixAt(off: nat, len: nat, bs: nat, k: nat)
    requires bs > 0 && k < Blocks(off, len, bs)
    ensures Prefix(off, len, bs, k) < len && BlockOf(off + Prefix(off, len, bs, k), bs) == BlockOf(off, bs) + k
    ensures k > 0 ==> Prefix(off, len, bs, k) > 0
  {
    var l := BlockOf(off, bs);
    BlockSpan(off, bs);
    BlockSpan(off + len - 1, bs);
    hide BlockOf, PlaceIn;
    if k > 0 {
      Multiples(l + 1, l + k, bs);
      Multiples(l + k, BlockOf(off + len - 1, bs), bs);
      AtMultiple(l + k, bs);
    }
  }

  lemma AtMultiple(a: nat, bs: nat)
    requires bs > 0
    ensures BlockOf(a * bs, bs) == a
  {
    Divided(a * bs, bs, a, 0);
  }

  /** One chunk of the write loop is what lies in one more block. */
  lemma PrefixStep(off: nat, len: nat, bs: nat, k: nat)
    requires bs > 0 && k < Blocks(off, len, bs)
    ensures Prefix(off, len, bs, k) <= len
    ensures var at := Prefix(off, len, bs, k);
            var o := PlaceIn(off + at, bs);
            Prefix(off, len, bs, k + 1) == at + if bs - o > len - at then len - at else bs - o
  {
    var l, at := BlockOf(off, bs), Prefix(off, len, bs, k);
    PrefixAt(off, len, bs, k);
    BlockSpan(off + at, bs);
    BlockSpan(off + len - 1, bs);
    hide BlockOf, PlaceIn;
    assert off + at + bs - PlaceIn(off + at, bs) == (l + k + 1) * bs;
    if k + 1 < Blocks(off, len, bs) {
      Multiples(l + k + 1, BlockOf(off + len - 1, bs), bs);
    }
  }

  // --- What a write answers ---------------------------------------------------------------------------------

  /** How many of the blocks of a write are reached. */
  ghost function Reached(t: Tree, free: nat, off: nat, len: nat): nat
    requires Shape(t)
  {
    Through(t, free, BlockOf(off, t.bs), Blocks(off, len, t.bs))
  }

  ghost function StoredBytes(t: Tree, free: nat, off: nat, len: nat): nat
    requires Shape(t)
  {
    Prefix(off, len, t.bs, Reached(t, free, off, len))
  }

  /** The loop's result, told from the file and the free count before the call. */
  ghost function LoopEnd(t: Tree, free: nat, off: nat, len: nat): Step
    requires Shape(t)
  {
    var k := Reached(t, free, off, len);
    if k == Blocks(off, len, t.bs) then Done
    else if Need(t, BlockOf(off, t.bs), k) == free then NoBlock
    else Failed(if Mappable(t, BlockOf(off, t.bs) + k) then Enospc else Einval)
  }

  /** The call's result: the count where the loop ended or where the volume ran full
      behind some stored block, and an error otherwise. */
  ghost function Reply(t: Tree, free: nat, off: nat, len: nat): Result
    requires Shape(t)
  {
    match LoopEnd(t, free, off, len)
    case Done => Count(len)
    case NoBlock => if StoredBytes(t, free, off, len) == 0 then Error(Enospc) else Count(StoredBytes(t, free, off, len))
    case Failed(err) => Error(err)
  }

  /** The whole count is returned if and only if the range is in reach and the blocks
      it needs are free. */
  lemma WholeCount(t: Tree, free: nat, off: nat, len: nat)
    requires Shape(t)
    ensures Reply(t, free, off, len) == Count(len) <==> Fits(t, free, BlockOf(off, t.bs), Blocks(off, len, t.bs))
  {
    hide BlockOf, Need, Blocks;
    var l, n := BlockOf(off, t.bs), Blocks(off, len, t.bs);
    NeedNothing(t, l);
    var k := Through(t, free, l, n);
    if k < n {
      PrefixAt(off, len, t.bs, k);
    }
  }

  /** The call's result does not leave bytes behind the end: it is a count, or every
      byte that was stored behind the end is zero. */
  ghost predicate TailSafe(t: Tree, free: nat, size: nat, off: nat, data: seq<Byte>)
    requires Shape(t)
  {
    || Reply(t, free, off, |data|).Count?
    || forall k :: 0 <= k < |data| && k < StoredBytes(t, free, off, |data|) && off + k >= size ==> data[k] == 0
  }

  function SizeAfter(size: nat, off: nat, stored: nat, r: Result): nat {
    if r.Count? then Max(size, off + stored) else size
  }

  /** Nothing but zeroes stays behind the end if and only if that holds. */
  lemma TailSurvives(t: Tree, t': Tree, free: nat, size: nat, off: nat, data: seq<Byte>)
    requires Shape(t) && CleanTail(t, size) && StoredBytes(t, free, off, |data|) <= |data|
    requires Wrote(t, t', off, data[..StoredBytes(t, free, off, |data|)])
    ensures CleanTail(t', SizeAfter(size, off, StoredBytes(t, free, off, |data|), Reply(t, free, off, |data|)))
            <==> TailSafe(t, free, size, off, data)
  {
    hide StoredBytes, Reply, Shape, Wrote, CleanTail;
    var n := StoredBytes(t, free, off, |data|);
    if Reply(t, free, off, |data|).Count? {
      WroteContents(t, t', size, off, data[..n]);
    } else {
      WroteBelow(t, t', size, off, data[..n]);
      assert forall k :: 0 <= k < n ==> data[..n][k] == data[k];
    }
  }

  // --- The write loop ----------------------------------------------------------------------------------------

  /** The first stored bytes of the data have been laid over the file's bytes; blocks of
      others are untouched, no block is lost and the sectors are counted. */
  ghost predicate Advanced(v: Vol, top: seq<nat>, v': Vol, top': seq<nat>, sectors: nat,
                           off: nat, data: seq<Byte>, stored: nat) {
    && Grew(v, top, v', top', 0) && |top'| == 15 && v'.g.bs % 4 == 0 && Counted(T(v', top'), sectors, 0)
    && stored <= |data| && Wrote(T(v, top), T(v', top'), off, data[..stored])
  }

  lemma AdvancedNot(v: Vol, top: seq<nat>, sectors: nat, off: nat, data: seq<Byte>)
    requires FileOk(v, top) && Counted(T(v, top), sectors, 0)
    ensures Advanced(v, top, v, top, sectors, off, data, 0)
  {
    hide Counted, Wrote, Grew;
    OkMeans(v, top);
    GrewRefl(v, top);
    WroteNothing(T(v, top), off);
  }

  lemma AdvancedOk(v: Vol, top: seq<nat>, v': Vol, top': seq<nat>, sectors: nat, off: nat, data: seq<Byte>, stored: nat)
    requires Advanced(v, top, v', top', sectors, off, data, stored)
    ensures FileOk(v', top') && v'.g == v.g && |top'| == 15 && v'.g.bs % 4 == 0 && v'.g.bs > 0
    ensures Shape(T(v', top')) && Counted(T(v', top'), sectors, 0) && stored <= |data|
  {
    hide Counted, Wrote;
  }

  lemma AdvancedChunk(v: Vol, top: seq<nat>, w: Vol, top1: seq<nat>, v': Vol, top': seq<nat>,
                      sectors: nat, sectors': nat, off: nat, data: seq<Byte>, stored: nat, chunk: nat)
    requires Advanced(v, top, w, top1, sectors, off, data, stored) && stored + chunk <= |data|
    requires Grew(w, top1, v', top', 0) && |top'| == 15 && v'.g.bs % 4 == 0 && Counted(T(v', top'), sectors', 0)
    requires Wrote(T(w, top1), T(v', top'), off + stored, data[stored..stored + chunk])
    ensures Advanced(v, top, v', top', sectors', off, data, stored + chunk)
  {
    hide Counted, Wrote, Grew;
    GrewTrans(v, top, w, top1, v', top', 0);
    WroteTrans(T(v, top), T(w, top1), T(v', top'), off, data[..stored], data[stored..stored + chunk]);
    assert data[..stored] + data[stored..stored + chunk] == data[..stored + chunk];
  }

  lemma AdvancedSame(v: Vol, top: seq<nat>, w: Vol, top1: seq<nat>, v': Vol, top': seq<nat>,
                     sectors: nat, sectors': nat, off: nat, data: seq<Byte>, stored: nat)
    requires Advanced(v, top, w, top1, sectors, off, data, stored)
    requires Grew(w, top1, v', top', 0) && |top'| == 15 && v'.g.bs % 4 == 0 && Counted(T(v', top'), sectors', 0)
    requires SameBytes(T(w, top1), T(v', top'))
    ensures Advanced(v, top, v', top', sectors', off, data, stored)
  {
    hide Counted, Wrote, Grew, SameBytes;
    GrewTrans(v, top, w, top1, v', top', 0);
    WroteSame(T(v, top), T(w, top1), T(v', top'), off, data[..stored]);
  }

  /** The write loop.  A prefix of the data is laid over the file's bytes; blocks of
      others are untouched and no block is lost. */
  method WriteAll(fs: Fs, node: Inode, data: seq<Byte>, offset: nat, group: nat) returns (r: Step, stored: nat)
    requires FileOk(fs.V(), node.top) && Counted(T(fs.V(), node.top), node.sectors, 0) && group < |fs.g.bitmaps|
    modifies fs, node
    ensures node.size == old(node.size) && node.nodeSize == old(node.nodeSize)
    ensures Advanced(old(fs.V()), old(node.top), fs.V(), node.top, node.sectors, offset, data, stored)
    ensures r == LoopEnd(old(T(fs.V(), node.top)), old(fs.free), offset, |data|)
    ensures stored == StoredBytes(old(T(fs.V(), node.top)), old(fs.free), offset, |data|)
    ensures r == Done <==> stored == |data|
    ensures (r == NoBlock ==> fs.free == 0) && (r == Failed(Enospc) ==> fs.free == 1)
    ensures r.Failed? ==> r.err == if InReach(fs.g.bs, offset + stored) then Enospc else Einval
  {
    hide FileOk, Counted, GetBlock, Raw, Mappable, Missing, Grew, Wrote, BlockOf, PlaceIn, SameBytes, Fits, Need;
    hide Filled;
    hide Ahead, Blocks, Prefix, LoopEnd, StoredBytes, Advanced, InReach;
    ghost var v, top0 := fs.V(), node.top;
    OkMeans(v, top0);
    AdvancedNot(v, top0, node.sectors, offset, data);
    ghost var l, n, d := BlockOf(offset, fs.g.bs), Blocks(offset, |data|, fs.g.bs), 0;
    AheadStart(T(v, top0), v.free, l, n);
    PrefixEnds(offset, |data|, fs.g.bs);
    var buf := Zeroes(fs.g.bs);
    stored, r := 0, Done;
    while stored < |data|
      invariant node.size == old(node.size) && node.nodeSize == old(node.nodeSize)
      invariant 0 <= stored <= |data| && |buf| == fs.g.bs > 0 && r == Done
      invariant Advanced(v, top0, fs.V(), node.top, node.sectors, offset, data, stored)
      invariant d <= n && stored == Prefix(offset, |data|, fs.g.bs, d)
      invariant Ahead(T(v, top0), v.free, T(fs.V(), node.top), fs.free, l, d, n)
    {
      var pos := offset + stored;
      var o := PlaceIn(pos, fs.g.bs);
      var chunk := if fs.g.bs - o > |data| - stored then |data| - stored else fs.g.bs - o;
      ghost var w, top1, sectors := fs.V(), node.top, node.sectors;
      AdvancedOk(v, top0, w, top1, sectors, offset, data, stored);
      Reach(T(w, top1), pos);
      Reach(T(v, top0), pos);
      PrefixAt(offset, |data|, fs.g.bs, d);
      PrefixStep(offset, |data|, fs.g.bs, d);
      r, buf := WriteChunk(fs, node, buf, pos, data[stored..stored + chunk], group);
      GrewOk(w, top1, fs.V(), node.top, 0);
      if r != Done {
        AdvancedSame(v, top0, w, top1, fs.V(), node.top, sectors, node.sectors, offset, data, stored);
        Ended(T(v, top0), v.free, T(w, top1), w.free, offset, |data|, d);
        return;
      }
      AdvancedChunk(v, top0, w, top1, fs.V(), node.top, sectors, node.sectors, offset, data, stored, chunk);
      AheadStep(T(v, top0), v.free, T(w, top1), w.free, T(fs.V(), node.top), fs.free, l, d, n);
      stored, d := stored + chunk, d + 1;
    }
    if d < n {
      PrefixAt(offset, |data|, fs.g.bs, d);
    }
    Ended(T(v, top0), v.free, T(fs.V(), node.top), fs.free, offset, |data|, d);
  }

  lemma PrefixEnds(off: nat, len: nat, bs: nat)
    requires bs > 0
    ensures Prefix(off, len, bs, 0) == 0 && Prefix(off, len, bs, Blocks(off, len, bs)) == len
  {
  }

  /** Where the loop ends, from where it started. */
  lemma Ended(t: Tree, free: nat, t': Tree, free': nat, off: nat, len: nat, d: nat)
    requires t.bs > 0 && Ahead(t, free, t', free', BlockOf(off, t.bs), d, Blocks(off, len, t.bs))
    requires d < Blocks(off, len, t.bs) ==> !Fits(t', free', BlockOf(off, t.bs) + d, 1)
    ensures StoredBytes(t, free, off, len) == Prefix(off, len, t.bs, d)
    ensures LoopEnd(t, free, off, len) == if d == Blocks(off, len, t.bs) then Done else if free' == 0 then NoBlock
                                          else Failed(if Mappable(t, BlockOf(off, t.bs) + d) then Enospc else Einval)
  {
    hide Need, Fits, BlockOf, Blocks, Prefix;
    AheadStops(t, free, t', free', BlockOf(off, t.bs), d, Blocks(off, len, t.bs));
  }

  /** The byte at pos is within reach of the double indirect block. */
  predicate InReach(bs: nat, pos: nat) {
    bs > 0 && BlockOf(pos, bs) < NDIR + bs / 4 + (bs / 4) * (bs / 4)
  }

  lemma Reach(t: Tree, pos: nat)
    requires t.bs > 0
    ensures InReach(t.bs, pos) <==> Mappable(t, BlockOf(pos, t.bs))
  {
  }

  /** ext2_file_write.  The inode's size fields are 32 bits wide. */
  method FileWrite(fs: Fs, node: Inode, readOnly: bool, data: seq<Byte>, offset: nat, group: nat)
    returns (r: Result, ghost stored: nat)
    requires FileOk(fs.V(), node.top) && Counted(T(fs.V(), node.top), node.sectors, 0) && group < |fs.g.bitmaps|
    requires node.nodeSize == node.size && offset + |data| < 0x1_0000_0000
    modifies fs, node
    ensures Grew(old(fs.V()), old(node.top), fs.V(), node.top, 0) && Counted(T(fs.V(), node.top), node.sectors, 0)
    ensures stored <= |data| && Wrote(old(T(fs.V(), node.top)), T(fs.V(), node.top), offset, data[..stored])
    ensures node.nodeSize == node.size == SizeAfter(old(node.size), offset, stored, r)
    ensures readOnly ==> r == Error(Einval) && stored == 0
    ensures !readOnly ==> Answer(r, stored, |data|, fs.free, InReach(fs.g.bs, offset + stored))
    ensures !readOnly ==> r == Reply(old(T(fs.V(), node.top)), old(fs.free), offset, |data|)
    ensures !readOnly ==> stored == StoredBytes(old(T(fs.V(), node.top)), old(fs.free), offset, |data|)
    ensures !readOnly && CleanTail(old(T(fs.V(), node.top)), old(node.size)) ==>
              (CleanTail(T(fs.V(), node.top), node.size) <==>
               TailSafe(old(T(fs.V(), node.top)), old(fs.free), old(node.size), offset, data))
  {
    hide FileOk, Counted, GetBlock, Raw, Grew, Wrote, BlockOf, PlaceIn, InReach, LoopEnd, StoredBytes, CleanTail;
    hide TailSafe;
    ghost var t := T(fs.V(), node.top);
    OkMeans(fs.V(), node.top);
    if readOnly {
      GrewRefl(fs.V(), node.top);
      WroteNothing(T(fs.V(), node.top), offset);
      return Error(Einval), 0;
    }
    var step, n := WriteAll(fs, node, data, offset, group);
    stored := n;
    if CleanTail(t, old(node.size)) {
      TailSurvives(t, T(fs.V(), node.top), old(fs.free), old(node.size), offset, data);
    }
    if step.Failed? {
      return Error(step.err), n;
    }
    if step == NoBlock {
      if n == 0 {
        return Error(Enospc), n;
      }
      var pos := offset + n;
      node.nodeSize := if pos > node.nodeSize then pos else node.nodeSize;
      node.size := node.nodeSize;
      return Count(n), n;
    }
    if offset + |data| > node.size {
      node.size := offset + |data|;
      node.nodeSize := node.size;
    }
    return Count(|data|), n;
  }

  /** All bytes stored; or some and the volume is full; or an error: EINVAL where the
      next byte is out of reach, ENOSPC where at most one block is left. */
  predicate Answer(r: Result, stored: nat, total: nat, free: nat, inReach: bool) {
    match r
    case Count(n) => n == stored && (n == total || (n > 0 && free == 0))
    case Error(e) => stored < total && ((e == Enospc && free <= 1) || (e == Einval && !inReach))
  }

  lemma WroteNothing(t: Tree, pos: nat)
    requires Shape(t)
    ensures Wrote(t, t, pos, [])
  {
  }

  // --- Runs of writes --------------------------------------------------------------------------------------

  datatype Op = Op(offset: nat, data: seq<Byte>)

  /** The byte sequence after the writes, of which ns[i] bytes each went through. */
  ghost function Replay(s: seq<Byte>, ops: seq<Op>, ns: seq<nat>): seq<Byte>
    requires |ns| == |ops| && forall i :: 0 <= i < |ops| ==> ns[i] <= |ops[i].data|
  {
    if ops == [] then s
    else
      var k := |ops| - 1;
      Written(Replay(s, ops[..k], ns[..k]), ops[k].offset, ops[k].data[..ns[k]])
  }

  /** However many writes, as long as none returns an error the file is the byte
      sequence that the writes make; no other block changes and none is lost. */
  method Run(fs: Fs, node: Inode, ops: seq<Op>, group: nat) returns (ns: seq<nat>, failed: bool)
    requires FileOk(fs.V(), node.top) && Counted(T(fs.V(), node.top), node.sectors, 0) && group < |fs.g.bitmaps|
    requires node.nodeSize == node.size && CleanTail(T(fs.V(), node.top), node.size)
    requires forall i :: 0 <= i < |ops| ==> ops[i].offset + |ops[i].data| < 0x1_0000_0000
    modifies fs, node
    ensures Grew(old(fs.V()), old(node.top), fs.V(), node.top, 0) && Counted(T(fs.V(), node.top), node.sectors, 0)
    ensures |ns| <= |ops| && (!failed ==> |ns| == |ops|)
    ensures forall i :: 0 <= i < |ns| ==> ns[i] <= |ops[i].data|
    ensures !failed ==>
              && Contents(T(fs.V(), node.top), node.size)
                 == Replay(old(Contents(T(fs.V(), node.top), node.size)), ops, ns)
              && CleanTail(T(fs.V(), node.top), node.size)
  {
    hide FileOk, Counted, Grew, Wrote, Written, Contents, CleanTail, Answer, TailSafe, Reply, StoredBytes;
    ghost var v, top0 := fs.V(), node.top;
    OkMeans(v, top0);
    ghost var s := Contents(T(v, top0), node.size);
    GrewRefl(v, top0);
    ns, failed := [], false;
    while |ns| < |ops|
      invariant |ns| <= |ops| && |node.top| == 15 && fs.g.bs % 4 == 0 && Shape(T(fs.V(), node.top))
      invariant FileOk(fs.V(), node.top) && Counted(T(fs.V(), node.top), node.sectors, 0) && node.nodeSize == node.size
      invariant Grew(v, top0, fs.V(), node.top, 0) && CleanTail(T(fs.V(), node.top), node.size)
      invariant forall i :: 0 <= i < |ns| ==> ns[i] <= |ops[i].data|
      invariant Contents(T(fs.V(), node.top), node.size) == Replay(s, ops[..|ns|], ns)
    {
      ghost var w, top1, size1 := fs.V(), node.top, node.size;
      var k := |ns|;
      var op := ops[k];
      var r, stored := FileWrite(fs, node, false, op.data, op.offset, group);
      GrewOk(w, top1, fs.V(), node.top, 0);
      GrewTrans(v, top0, w, top1, fs.V(), node.top, 0);
      if r.Error? {
        return ns, true;
      }
      assert r.n == stored by { Answered(r, stored, |op.data|, fs.free, InReach(fs.g.bs, op.offset + stored)); }
      WroteContents(T(w, top1), T(fs.V(), node.top), size1, op.offset, op.data[..stored]);
      assert ops[..k + 1][..k] == ops[..k] && (ns + [r.n])[..k] == ns;
      ns := ns + [r.n];
    }
    assert ops[..|ns|] == ops;
  }

  lemma Answered(r: Result, stored: nat, total: nat, free: nat, inReach: bool)
    requires Answer(r, stored, total, free, inReach) && r.Count?
    ensures r.n == stored
  {
  }

  // --- A failed write that shows later ------------------------------------------------------------------------

  const KB: nat := 1024

  /** A volume of 1024-byte blocks, two of them free.  A write of two blocks over the
      last direct block and the first indirect one needs three: it fails with ENOSPC
      behind its first block, and the size stays 0.  One byte x written two places
      further on then shows two bytes of the failed write that no counted write wrote. */
  method ShownLater(blocks: seq<seq<Byte>>, data: seq<Byte>, x: Byte)
    returns (failed: Result, counted: Result, buf: seq<Byte>)
    requires Kilobytes(blocks) && |data| == 2 * KB && data[0] != 0
    ensures failed == Error(Enospc) && counted == Count(1) && buf == [data[0], data[1], x]
  {
    hide FileOk, Counted, Grew, Wrote, Reply, StoredBytes, CleanTail, TailSafe, Answer, Raw, VolInv, Kilobytes;
    SmallIsSound(blocks);
    SmallSize(blocks);
    NewFile(Small(blocks));
    ghost var n: nat;
    var fs := new Fs(Small(blocks));
    var node := new Inode(NoBlocks(), 0, 0);
    ghost var v, top0 := fs.V(), node.top;
    OkMeans(v, top0);
    NothingCounted(T(v, top0));
    NeedsThree(T(v, top0));
    failed, n := FileWrite(fs, node, false, data, 11 * KB, 0);
    ghost var w, top1 := fs.V(), node.top;
    GrewOk(v, top0, w, top1, 0);
    StillThere(T(v, top0), T(w, top1), data, w.free);
    counted, n := FileWrite(fs, node, false, [x], 11 * KB + 2, 0);
    GrewOk(w, top1, fs.V(), node.top, 0);
    Answered(counted, n, 1, fs.free, InReach(fs.g.bs, 11 * KB + 2 + n));
    buf := FileRead(fs, node, 3, 11 * KB);
    BytesShown(T(v, top0), T(w, top1), T(fs.V(), node.top), data, x, buf);
  }

  lemma SmallSize(blocks: seq<seq<Byte>>)
    requires Kilobytes(blocks)
    ensures |blocks| == 65
  {
  }

  lemma NothingCounted(t: Tree)
    requires Shape(t) && Owned(t) == {}
    ensures Counted(t, 0, 0)
  {
  }

  lemma NeedsThree(t: Tree)
    requires Shape(t) && t.bs == KB && forall m: nat :: GetBlock(t, m) == 0
    requires t.top[IND] == 0
    ensures Reply(t, 2, 11 * KB, 2 * KB) == Error(Enospc) && StoredBytes(t, 2, 11 * KB, 2 * KB) == KB
  {
    assert BlockOf(11 * KB, KB) == 11 && Blocks(11 * KB, 2 * KB, KB) == 2;
    NeedOne(t, 11);
    assert Holes(t, 11, 2) == {11, 12};
    assert OnPath(t, 12, Top(IND)) && Leads(t, 11, 2, Top(IND)) && Top(IND) in Absent(t, 11, 2);
    SubsetSize({Top(IND)}, Absent(t, 11, 2));
    ThroughIs(t, 2, 11, 2, 1);
  }

  lemma StillThere(t0: Tree, t: Tree, data: seq<Byte>, free: nat)
    requires |data| == 2 * KB && data[0] != 0 && Wrote(t0, t, 11 * KB, data[..KB]) && t.bs == KB
    ensures Reply(t, free, 11 * KB + 2, 1) == Count(1)
  {
    assert Raw(t, 11 * KB) == data[0];
    NeedOne(t, 11);
    WholeCount(t, free, 11 * KB + 2, 1);
  }

  lemma BytesShown(t0: Tree, t1: Tree, t2: Tree, data: seq<Byte>, x: Byte, buf: seq<Byte>)
    requires |data| == 2 * KB && Wrote(t0, t1, 11 * KB, data[..KB]) && Wrote(t1, t2, 11 * KB + 2, [x][..1])
    requires buf == Contents(t2, 11 * KB + 3)[11 * KB..11 * KB + 3]
    ensures buf == [data[0], data[1], x]
  {
    assert Raw(t2, 11 * KB) == Raw(t1, 11 * KB) == data[0];
    assert Raw(t2, 11 * KB + 1) == Raw(t1, 11 * KB + 1) == data[1];
    assert Raw(t2, 11 * KB + 2) == x;
  }
}
