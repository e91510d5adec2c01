/** The block pointers of an ext2 inode (kernel/fs/ext2.c): twelve direct
    pointers, an indirect block and a double indirect block, stored as
    little-endian 32-bit words in device blocks. */
module Ext2Tree {
  import opened Bytes

  const NDIR: nat := 12
  const IND: nat := 12
  const DIND: nat := 13
  const TIND: nat := 14

  // --- 32-bit words in a block ---------------------------------------------------------

  function Get32(b: seq<Byte>, i: nat): (r: nat)
    requires 4 * i + 4 <= |b|
  {
    Word32(b, 4 * i)
  }

  function Put32(b: seq<Byte>, i: nat, v: nat): (r: seq<Byte>)
    requires 4 * i + 4 <= |b| && v < 0x1_0000_0000
    ensures |r| == |b|
  {
    b[4 * i := v % 256][4 * i + 1 := v / 256 % 256][4 * i + 2 := v / 256 / 256 % 256][4 * i + 3 := v / 256 / 256 / 256]
  }

  function Zeroes(n: nat): (b: seq<Byte>)
    ensures |b| == n
  {
    seq(n, _ => 0)
  }

  lemma GetZero(n: nat, i: nat)
    requires 4 * i + 4 <= n
    ensures Get32(Zeroes(n), i) == 0
  {
  }

  // --- Pointer slots ---------------------------------------------------------------------

  /** A place that holds a block pointer: in the inode, in the indirect block, in
      the double indirect block, or in the i-th block below that one. */
  datatype Slot = Top(i: nat) | Ind(i: nat) | Dind(i: nat) | Leaf(i: nat, j: nat)

  /** An inode's pointers and the device they lead into. */
  datatype Tree = Tree(dev: map<nat, seq<Byte>>, top: seq<nat>, bs: nat)

  ghost predicate Shape(t: Tree) {
    && |t.top| == 15 && t.bs % 4 == 0 && t.bs > 0
    && (forall b :: b in t.dev ==> |t.dev[b]| == t.bs)
  }

  function Ptrs(t: Tree): nat {
    t.bs / 4
  }

  predicate InTree(t: Tree, s: Slot) {
    match s
    case Top(i) => i < TIND
    case Ind(i) => i < Ptrs(t)
    case Dind(i) => i < Ptrs(t)
    case Leaf(i, j) => i < Ptrs(t) && j < Ptrs(t)
  }

  /** Entry i of pointer block b; 0 when there is no such block. */
  function Entry(t: Tree, b: nat, i: nat): nat
    requires t.bs % 4 == 0 && i < Ptrs(t)
  {
    if b != 0 && b in t.dev && |t.dev[b]| == t.bs then Get32(t.dev[b], i) else 0
  }

  /** The block number in a slot; 0 means none. */
  function Val(t: Tree, s: Slot): nat
    requires |t.top| == 15 && t.bs % 4 == 0 && InTree(t, s)
  {
    match s
    case Top(i) => t.top[i]
    case Ind(i) => Entry(t, t.top[IND], i)
    case Dind(i) => Entry(t, t.top[DIND], i)
    case Leaf(i, j) => Entry(t, Entry(t, t.top[DIND], i), j)
  }

  /** Slots whose blocks hold pointers. */
  predicate IsMeta(s: Slot) {
    s == Top(IND) || s == Top(DIND) || s.Dind?
  }

  ghost predicate Distinct(t: Tree)
    requires |t.top| == 15 && t.bs % 4 == 0
  {
    forall p, q :: InTree(t, p) && InTree(t, q) && Val(t, p) != 0 && Val(t, p) == Val(t, q) ==> p == q
  }

  ghost predicate Known(t: Tree)
    requires |t.top| == 15 && t.bs % 4 == 0
  {
    forall p :: InTree(t, p) && Val(t, p) != 0 ==> Val(t, p) in t.dev
  }

  /** No block is used twice, every block is on the device, no triple indirect block. */
  ghost predicate Inv(t: Tree) {
    Shape(t) && Distinct(t) && Known(t) && t.top[TIND] == 0
  }

  /** Block b is one of the file's, data or pointer block. */
  ghost predicate Owns(t: Tree, b: nat)
    requires |t.top| == 15 && t.bs % 4 == 0
  {
    exists p :: InTree(t, p) && Val(t, p) == b && b != 0
  }

  // --- Logical blocks ---------------------------------------------------------------------

  /** The slot of logical block l, when it is within the double indirect range. */
  function SlotOf(t: Tree, l: nat): Slot
    requires Ptrs(t) > 0
  {
    if l < NDIR then Top(l)
    else if l - NDIR < Ptrs(t) then Ind(l - NDIR)
    else Leaf((l - NDIR - Ptrs(t)) / Ptrs(t), (l - NDIR - Ptrs(t)) % Ptrs(t))
  }

  predicate Mappable(t: Tree, l: nat) {
    l < NDIR + Ptrs(t) + Ptrs(t) * Ptrs(t)
  }

  /** ext2_get_block for an inode without a triple indirect block: 0 is a hole. */
  function GetBlock(t: Tree, l: nat): nat
    requires |t.top| == 15 && t.bs % 4 == 0 && t.bs > 0
  {
    if l < NDIR then t.top[l]
    else if l - NDIR < Ptrs(t) then
      (if t.top[IND] == 0 then 0 else Entry(t, t.top[IND], l - NDIR))
    else if l - NDIR - Ptrs(t) < Ptrs(t) * Ptrs(t) then
      QuotientBound(l - NDIR - Ptrs(t), Ptrs(t));
      (if t.top[DIND] == 0 then 0
       else
         var ind := Entry(t, t.top[DIND], (l - NDIR - Ptrs(t)) / Ptrs(t));
         if ind == 0 then 0 else Entry(t, ind, (l - NDIR - Ptrs(t)) % Ptrs(t)))
    else 0
  }

  lemma QuotientBound(a: nat, n: nat)
    requires n > 0 && a < n * n
    ensures a / n < n
  {
  }

  /** The read path sees exactly the slot of the logical block. */
  lemma GetIsSlot(t: Tree, l: nat)
    requires Shape(t) && Mappable(t, l)
    ensures InTree(t, SlotOf(t, l)) && !IsMeta(SlotOf(t, l))
    ensures GetBlock(t, l) == Val(t, SlotOf(t, l))
  {
    if l >= NDIR + Ptrs(t) {
      QuotientBound(l - NDIR - Ptrs(t), Ptrs(t));
    }
  }

  lemma SlotsApart(t: Tree, l: nat, m: nat)
    requires Ptrs(t) > 0 && l != m
    ensures SlotOf(t, l) != SlotOf(t, m)
  {
  }

  // --- Changing one slot ---------------------------------------------------------------------

  function SetTop(t: Tree, i: nat, v: nat): Tree
    requires i < |t.top|
  {
    t.(top := t.top[i := v])
  }

  /** Word i of block b set to v. */
  function SetWord(t: Tree, b: nat, i: nat, v: nat): Tree
    requires b in t.dev && |t.dev[b]| == t.bs && t.bs % 4 == 0 && i < Ptrs(t) && v < 0x1_0000_0000
  {
    t.(dev := t.dev[b := Put32(t.dev[b], i, v)])
  }

  function SetData(t: Tree, b: nat, data: seq<Byte>): Tree {
    t.(dev := t.dev[b := data])
  }

  lemma EntryAfterWord(t: Tree, b: nat, i: nat, v: nat, c: nat, j: nat)
    requires Shape(t) && b != 0 && b in t.dev && i < Ptrs(t) && j < Ptrs(t) && v < 0x1_0000_0000
    ensures Entry(SetWord(t, b, i, v), c, j) == if c == b && j == i then v else Entry(t, c, j)
  {
  }

  /** Slot s holds v and every other slot is as before. */
  ghost predicate Changed(t: Tree, t': Tree, s: Slot, v: nat) {
    && |t.top| == 15 && t.bs % 4 == 0 && |t'.top| == 15 && t'.bs == t.bs
    && (forall p :: InTree(t, p) ==> Val(t', p) == if p == s then v else Val(t, p))
  }

  ghost predicate SameSlots(t: Tree, t': Tree) {
    && |t.top| == 15 && t.bs % 4 == 0 && |t'.top| == 15 && t'.bs == t.bs
    && (forall p :: InTree(t, p) ==> Val(t', p) == Val(t, p))
  }

  lemma OwnersApart(t: Tree, p: Slot, q: Slot)
    requires Inv(t) && InTree(t, p) && InTree(t, q) && Val(t, p) != 0 && p != q
    ensures Val(t, p) != Val(t, q)
  {
  }

  lemma Owner(t: Tree, p: Slot)
    requires Inv(t) && InTree(t, p) && Val(t, p) != 0
    ensures Owns(t, Val(t, p)) && Val(t, p) in t.dev
  {
  }

  /** Writing a data block, or a block that is not the file's, moves no pointer. */
  lemma DataWrite(t: Tree, b: nat, data: seq<Byte>)
    requires Inv(t) && |data| == t.bs
    requires !Owns(t, b) || exists p :: InTree(t, p) && !IsMeta(p) && Val(t, p) == b
    ensures SameSlots(t, SetData(t, b, data))
  {
    var t' := SetData(t, b, data);
    forall p | InTree(t, p) && IsMeta(p) && Val(t, p) != 0
      ensures Val(t, p) != b
    {
      Owner(t, p);
    }
    assert InTree(t, Top(IND)) && InTree(t, Top(DIND));
    assert t.top[IND] == Val(t, Top(IND)) && t.top[DIND] == Val(t, Top(DIND));
    forall p | InTree(t, p)
      ensures Val(t', p) == Val(t, p)
    {
      match p
      case Leaf(i, j) =>
        assert InTree(t, Dind(i)) && Entry(t, t.top[DIND], i) == Val(t, Dind(i));
      case _ =>
    }
  }

  lemma SetInd(t: Tree, i: nat, v: nat)
    requires Inv(t) && i < Ptrs(t) && v < 0x1_0000_0000 && t.top[IND] != 0
    ensures t.top[IND] in t.dev && |t.dev[t.top[IND]]| == t.bs
    ensures Changed(t, SetWord(t, t.top[IND], i, v), Ind(i), v)
  {
    var b := t.top[IND];
    assert InTree(t, Top(IND)) && b == Val(t, Top(IND));
    var t' := SetWord(t, b, i, v);
    OwnersApart(t, Top(IND), Top(DIND));
    forall p | InTree(t, p)
      ensures Val(t', p) == if p == Ind(i) then v else Val(t, p)
    {
      match p
      case Top(_) =>
      case Ind(k) => EntryAfterWord(t, b, i, v, b, k);
      case Dind(k) => EntryAfterWord(t, b, i, v, t.top[DIND], k);
      case Leaf(k, m) =>
        EntryAfterWord(t, b, i, v, t.top[DIND], k);
        OwnersApart(t, Top(IND), Dind(k));
        EntryAfterWord(t, b, i, v, Val(t, Dind(k)), m);
    }
  }

  lemma SetLeaf(t: Tree, i: nat, j: nat, v: nat)
    requires Inv(t) && i < Ptrs(t) && j < Ptrs(t) && v < 0x1_0000_0000 && Val(t, Dind(i)) != 0
    ensures Val(t, Dind(i)) in t.dev && |t.dev[Val(t, Dind(i))]| == t.bs
    ensures Changed(t, SetWord(t, Val(t, Dind(i)), j, v), Leaf(i, j), v)
  {
    var b := Val(t, Dind(i));
    assert InTree(t, Dind(i));
    var t' := SetWord(t, b, j, v);
    OwnersApart(t, Dind(i), Top(IND));
    OwnersApart(t, Dind(i), Top(DIND));
    forall p | InTree(t, p)
      ensures Val(t', p) == if p == Leaf(i, j) then v else Val(t, p)
    {
      match p
      case Top(_) =>
      case Ind(k) => EntryAfterWord(t, b, j, v, t.top[IND], k);
      case Dind(k) => EntryAfterWord(t, b, j, v, t.top[DIND], k);
      case Leaf(k, m) =>
        EntryAfterWord(t, b, j, v, t.top[DIND], k);
        if k != i {
          OwnersApart(t, Dind(i), Dind(k));
        }
        EntryAfterWord(t, b, j, v, Val(t, Dind(k)), m);
    }
  }

  /** A zeroed block becomes the indirect or double indirect block. */
  lemma AttachTop(t: Tree, i: nat, b: nat)
    requires Inv(t) && (i == IND || i == DIND) && t.top[i] == 0 && b != 0 && !Owns(t, b)
    ensures Changed(t, SetTop(SetData(t, b, Zeroes(t.bs)), i, b), Top(i), b)
  {
    var z := SetData(t, b, Zeroes(t.bs));
    DataWrite(t, b, Zeroes(t.bs));
    var t' := SetTop(z, i, b);
    forall p | InTree(t, p)
      ensures Val(t', p) == if p == Top(i) then b else Val(t, p)
    {
      assert Val(z, p) == Val(t, p);
      AttachedEntries(t, z, t', i, b, p);
    }
  }

  lemma AttachedEntries(t: Tree, z: Tree, t': Tree, i: nat, b: nat, p: Slot)
    requires Shape(t) && (i == IND || i == DIND) && t.top[i] == 0 && b != 0
    requires z == SetData(t, b, Zeroes(t.bs)) && t' == SetTop(z, i, b) && InTree(t, p) && Val(z, p) == Val(t, p)
    ensures Val(t', p) == if p == Top(i) then b else Val(t, p)
  {
  }

  /** A zeroed block becomes entry i of the double indirect block. */
  lemma AttachDind(t: Tree, i: nat, b: nat)
    requires Inv(t) && i < Ptrs(t) && t.top[DIND] != 0 && Val(t, Dind(i)) == 0 && 0 < b < 0x1_0000_0000 && !Owns(t, b)
    ensures t.top[DIND] in t.dev && |t.dev[t.top[DIND]]| == t.bs && b != t.top[DIND]
    ensures Changed(t, SetWord(SetData(t, b, Zeroes(t.bs)), t.top[DIND], i, b), Dind(i), b)
  {
    var z := SetData(t, b, Zeroes(t.bs));
    var d := t.top[DIND];
    assert InTree(t, Top(DIND)) && Val(t, Top(DIND)) == d;
    Owner(t, Top(DIND));
    DataWrite(t, b, Zeroes(t.bs));
    OwnersApart(t, Top(DIND), Top(IND));
    var t' := SetWord(z, d, i, b);
    forall p | InTree(t, p)
      ensures Val(t', p) == if p == Dind(i) then b else Val(t, p)
    {
      assert Val(z, p) == Val(t, p);
      match p
      case Top(_) =>
      case Ind(k) => EntryAfterWord(z, d, i, b, t.top[IND], k);
      case Dind(k) => EntryAfterWord(z, d, i, b, d, k);
      case Leaf(k, m) =>
        EntryAfterWord(z, d, i, b, d, k);
        if k == i {
          EntryAfterWord(z, d, i, b, b, m);
          GetZero(t.bs, m);
        } else {
          assert InTree(t, Dind(k)) && Val(z, Dind(k)) == Val(t, Dind(k));
          OwnersApart(t, Top(DIND), Dind(k));
          EntryAfterWord(z, d, i, b, Val(t, Dind(k)), m);
        }
    }
  }

  /** A fresh block in one slot keeps all blocks distinct; the file gains it and
      loses what the slot held. */
  lemma ChangedInv(t: Tree, t': Tree, s: Slot, v: nat)
    requires Inv(t) && Shape(t') && InTree(t, s) && Changed(t, t', s, v) && t'.top[TIND] == 0
    requires v != 0 && !Owns(t, v) && v in t'.dev && t.dev.Keys <= t'.dev.Keys
    ensures Inv(t')
    ensures forall b :: Owns(t', b) <==> b == v || (Owns(t, b) && b != Val(t, s))
  {
  }

  lemma SameInv(t: Tree, t': Tree)
    requires Inv(t) && Shape(t') && SameSlots(t, t') && t'.top[TIND] == 0 && t.dev.Keys <= t'.dev.Keys
    ensures Inv(t')
    ensures forall b :: Owns(t', b) <==> Owns(t, b)
  {
  }

  /** The lens law: a change of the slot of l is a change of what l maps to, and
      of nothing else. */
  lemma ChangedMaps(t: Tree, t': Tree, l: nat, v: nat, m: nat)
    requires Shape(t) && Shape(t') && Mappable(t, l) && Changed(t, t', SlotOf(t, l), v)
    ensures GetBlock(t', m) == if m == l then v else GetBlock(t, m)
  {
    if Mappable(t, m) {
      GetIsSlot(t, m);
      GetIsSlot(t', m);
      if m != l {
        SlotsApart(t, l, m);
      }
    }
  }

  /** A change of a pointer block's slot is invisible to logical blocks. */
  lemma MetaMaps(t: Tree, t': Tree, s: Slot, v: nat, m: nat)
    requires Shape(t) && Shape(t') && IsMeta(s) && Changed(t, t', s, v)
    ensures GetBlock(t', m) == GetBlock(t, m)
  {
    if Mappable(t, m) {
      GetIsSlot(t, m);
      GetIsSlot(t', m);
    }
  }

  lemma SameMaps(t: Tree, t': Tree, m: nat)
    requires Shape(t) && Shape(t') && SameSlots(t, t')
    ensures GetBlock(t', m) == GetBlock(t, m)
  {
    if Mappable(t, m) {
      GetIsSlot(t, m);
      GetIsSlot(t', m);
    }
  }

  // --- Pointer blocks on the way -----------------------------------------------------------------

  /** Slot p holds a pointer block that is read on the way to logical block l. */
  predicate OnPath(t: Tree, l: nat, p: Slot) {
    && Ptrs(t) > 0 && Mappable(t, l)
    && match SlotOf(t, l)
       case Top(_) => false
       case Ind(_) => p == Top(IND)
       case Dind(_) => false
       case Leaf(i, _) => p == Top(DIND) || p == Dind(i)
  }

  /** Pointer blocks missing on the way to logical block l. */
  function Missing(t: Tree, l: nat): nat
    requires |t.top| == 15 && t.bs % 4 == 0 && t.bs > 0 && Mappable(t, l)
  {
    if l < NDIR then 0
    else if l - NDIR < Ptrs(t) then (if t.top[IND] == 0 then 1 else 0)
    else
      QuotientBound(l - NDIR - Ptrs(t), Ptrs(t));
      if t.top[DIND] == 0 then 2
      else if Entry(t, t.top[DIND], (l - NDIR - Ptrs(t)) / Ptrs(t)) == 0 then 1
      else 0
  }

  /** No pointer block went away, and one was added only on the way to l. */
  ghost predicate MetaKept(t: Tree, t': Tree, l: nat) {
    && |t.top| == 15 && t.bs % 4 == 0 && |t'.top| == 15 && t'.bs == t.bs
    && (forall p :: InTree(t, p) && IsMeta(p) ==>
          && (Val(t, p) != 0 ==> Val(t', p) != 0)
          && (Val(t, p) == 0 && !OnPath(t, l, p) ==> Val(t', p) == 0))
  }

  lemma KeptRefl(t: Tree, l: nat)
    requires |t.top| == 15 && t.bs % 4 == 0
    ensures MetaKept(t, t, l)
  {
  }

  lemma KeptSame(t: Tree, t': Tree, l: nat)
    requires SameSlots(t, t')
    ensures MetaKept(t, t', l)
  {
  }

  lemma KeptChanged(t: Tree, t': Tree, l: nat, s: Slot, b: nat)
    requires InTree(t, s) && Changed(t, t', s, b) && Val(t, s) == 0 && b != 0 && (IsMeta(s) ==> OnPath(t, l, s))
    ensures MetaKept(t, t', l)
  {
  }

  lemma KeptTrans(t: Tree, t1: Tree, t2: Tree, l: nat)
    requires MetaKept(t, t1, l) && MetaKept(t1, t2, l)
    ensures MetaKept(t, t2, l)
  {
  }
}
