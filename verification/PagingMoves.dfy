/** References changing hands: mapping, unmapping, sharing, copying on write. */
module PagingMoves {
  import opened Paging
  import opened PagingSteps
  import opened PagingInv

  // --- The holders after each move ---------------------------------------------------

  /** The reference in hand moves into slot k; a reference the slot already
      held is overwritten and lost. */
  ghost function PlacePt(pt: map<Key, Word>, k: Key, w: Word, leak: nat): map<Key, Word> {
    ((if k in pt then pt[Leak(leak) := pt[k]] else pt) - {InHand})[k := w]
  }

  lemma PlaceCounts(pt: map<Key, Word>, k: Key, w: Word, leak: nat, f: nat)
    requires InHand in pt && k.Slot? && w.addr == pt[InHand].addr && Leak(leak) !in pt
    ensures |Refs(PlacePt(pt, k, w, leak), f)| == |Refs(pt, f)|
  {
    var a := if k in pt then pt[Leak(leak) := pt[k]] else pt;
    if k in pt {
      RefsAdd(pt, Leak(leak), pt[k], f);
      RefsDrop(a, k, f);
      RefsDrop(a - {k}, InHand, f);
      RefsAdd(a - {k} - {InHand}, k, w, f);
      assert (a - {k} - {InHand})[k := w] == PlacePt(pt, k, w, leak);
    } else {
      RefsDrop(a, InHand, f);
      RefsAdd(a - {InHand}, k, w, f);
    }
  }

  lemma PlaceExclusive(pt: map<Key, Word>, k: Key, w: Word, leak: nat)
    requires InHand in pt && k.Slot? && w.addr == pt[InHand].addr && Leak(leak) !in pt
    requires Exclusive(pt) && (w.writable ==> Refs(pt, w.addr) == {InHand})
    ensures Exclusive(PlacePt(pt, k, w, leak))
  {
    var pt' := PlacePt(pt, k, w, leak);
    forall i, j | i in pt' && j in pt' && i.Slot? && pt'[i].writable && pt'[j].addr == pt'[i].addr
      ensures j == i
    {
      var j0 := if j == k then InHand else if j == Leak(leak) then k else j;
      assert j0 in pt && pt[j0].addr == pt'[j].addr;
      if i == k {
        assert j0 in Refs(pt, w.addr);
      }
    }
  }

  ghost function UnplacePt(pt: map<Key, Word>, k: Key): map<Key, Word>
    requires k in pt
  {
    (pt - {k})[InHand := pt[k]]
  }

  lemma UnplaceFacts(pt: map<Key, Word>, k: Key)
    requires k in pt && k.Slot? && InHand !in pt && Exclusive(pt)
    ensures Exclusive(UnplacePt(pt, k))
    ensures forall f :: |Refs(UnplacePt(pt, k), f)| == |Refs(pt, f)|
  {
    forall f
      ensures |Refs(UnplacePt(pt, k), f)| == |Refs(pt, f)|
    {
      RefsDrop(pt, k, f);
      RefsAdd(pt - {k}, InHand, pt[k], f);
    }
  }

  /** Slot k takes over the frame in hand, and its old frame is in hand. */
  ghost function SwapPt(pt: map<Key, Word>, k: Key, w: Word): map<Key, Word>
    requires k in pt
  {
    pt[k := w][InHand := pt[k]]
  }

  lemma SwapFacts(pt: map<Key, Word>, k: Key, w: Word)
    requires k in pt && k.Slot? && InHand in pt && w.addr == pt[InHand].addr && Exclusive(pt)
    requires Refs(pt, w.addr) == {InHand} && !pt[k].writable
    ensures Exclusive(SwapPt(pt, k, w))
    ensures forall f :: |Refs(SwapPt(pt, k, w), f)| == |Refs(pt, f)|
  {
    var pt' := SwapPt(pt, k, w);
    forall f
      ensures |Refs(pt', f)| == |Refs(pt, f)|
    {
      RefsDrop(pt, k, f);
      RefsDrop(pt - {k}, InHand, f);
      RefsAdd(pt - {k} - {InHand}, k, w, f);
      RefsAdd((pt - {k} - {InHand})[k := w], InHand, pt[k], f);
      assert (pt - {k} - {InHand})[k := w][InHand := pt[k]] == pt';
    }
    forall i, j | i in pt' && j in pt' && i.Slot? && pt'[i].writable && pt'[j].addr == pt'[i].addr
      ensures j == i
    {
      var i0 := if i == k then InHand else i;
      var j0 := if j == k then InHand else if j == InHand then k else j;
      assert i0 in pt && j0 in pt && pt[i0].addr == pt'[i].addr && pt[j0].addr == pt'[j].addr;
      if i == k {
        assert j0 in Refs(pt, w.addr);
      }
    }
  }

  // --- The moves on states -----------------------------------------------------------

  lemma SlotsKeptBut(pt: map<Key, Word>, pt': map<Key, Word>, k: Key, live: set<nat>)
    requires forall j: Key :: j.Slot? && j != k ==> (j in pt <==> j in pt') && (j in pt ==> pt[j] == pt'[j])
    ensures SlotsKept(pt, pt', k, live)
  {
  }

  ghost predicate CanPlace(s: State, a: nat, v: nat, w: Word, leak: nat) {
    && a in s.spaces && v < USER_PAGES && Leaf(a, v) in s.at
    && InHand in s.pt && w.addr == s.pt[InHand].addr && w.present && Leak(leak) !in s.pt
    && (w.writable ==> Refs(s.pt, w.addr) == {InHand})
  }

  lemma PlaceInv(s: State, all: set<nat>, kernel: seq<Word>, a: nat, v: nat, w: Word, leak: nat)
    requires Inv(s, all, kernel) && CanPlace(s, a, v, w, leak)
    ensures NodeOk(s, Leaf(a, v)) && w.addr in s.mem
    ensures var s' := SetLeaf(s, a, v, w, PlacePt(s.pt, Slot(a, v), w, leak));
            && Inv(s', all, kernel)
            && Meaning(s') == Meaning(s)[Slot(a, v) := Seen(s.mem[w.addr], Perm(w))]
  {
    hide Frames, Tree, Exclusive, KernelHalf, Roots, SlotsKept, Meaning, Refs;
    AddrsIn(s, all);
    FrameIn(s, all, InHand);
    var pt' := PlacePt(s.pt, Slot(a, v), w, leak);
    assert forall k :: k in pt' ==> pt'[k].addr in all;
    forall f
      ensures |Refs(pt', f)| == |Refs(s.pt, f)|
    {
      PlaceCounts(s.pt, Slot(a, v), w, leak, f);
    }
    PlaceExclusive(s.pt, Slot(a, v), w, leak);
    SlotsKeptBut(s.pt, pt', Slot(a, v), s.spaces.Keys);
    SetLeafInv(s, all, kernel, a, v, w, pt');
    PlaceMeaning(s, SetLeaf(s, a, v, w, pt'), all, Slot(a, v), w);
  }

  /** Only slot k changes what it shows. */
  lemma PlaceMeaning(s: State, s': State, all: set<nat>, k: Key, w: Word)
    requires Frames(s, all) && Frames(s', all) && DataKept(s, s') && s'.spaces == s.spaces
    requires k.Slot? && k.space in s.spaces && k in s'.pt && s'.pt[k] == w && w.addr in s.mem
    requires s'.mem[w.addr] == s.mem[w.addr]
    requires forall j: Key :: j.Slot? && j != k ==> (j in s.pt <==> j in s'.pt) && (j in s.pt ==> s.pt[j] == s'.pt[j])
    ensures Meaning(s') == Meaning(s)[k := Seen(s.mem[w.addr], Perm(w))]
  {
    hide FrameOk;
  }

  lemma UnplaceInv(s: State, all: set<nat>, kernel: seq<Word>, a: nat, v: nat)
    requires Inv(s, all, kernel) && a in s.spaces && Slot(a, v) in s.pt && InHand !in s.pt
    ensures Leaf(a, v) in s.at && NodeOk(s, Leaf(a, v))
    ensures var s' := SetLeaf(s, a, v, ZERO, UnplacePt(s.pt, Slot(a, v)));
            && Inv(s', all, kernel)
            && Meaning(s') == Meaning(s) - {Slot(a, v)}
  {
    hide Frames, Tree, Exclusive, KernelHalf, Roots, SlotsKept, Meaning, Refs;
    var k := Slot(a, v);
    var pt' := UnplacePt(s.pt, k);
    SlotIsPresent(s, s.spaces.Keys, k);
    AddrsIn(s, all);
    assert forall j :: j in pt' ==> pt'[j].addr in all;
    UnplaceFacts(s.pt, k);
    SlotsKeptBut(s.pt, pt', k, s.spaces.Keys);
    SetLeafInv(s, all, kernel, a, v, ZERO, pt');
    UnplaceMeaning(s, SetLeaf(s, a, v, ZERO, pt'), all, k);
  }

  lemma UnplaceMeaning(s: State, s': State, all: set<nat>, k: Key)
    requires Frames(s, all) && Frames(s', all) && DataKept(s, s') && s'.spaces == s.spaces
    requires k.Slot? && k !in s'.pt
    requires forall j: Key :: j.Slot? && j != k ==> (j in s.pt <==> j in s'.pt) && (j in s.pt ==> s.pt[j] == s'.pt[j])
    ensures Meaning(s') == Meaning(s) - {k}
  {
    hide FrameOk;
  }

  /** Copy-on-write with other references: the slot gets the copy in hand. */
  lemma SwapInv(s: State, all: set<nat>, kernel: seq<Word>, a: nat, v: nat, w: Word)
    requires Inv(s, all, kernel) && a in s.spaces && Slot(a, v) in s.pt && InHand in s.pt
    requires w.addr == s.pt[InHand].addr && w.present && Refs(s.pt, w.addr) == {InHand}
    requires !s.pt[Slot(a, v)].writable && Perm(w) == Perm(s.pt[Slot(a, v)])
    requires w.addr in s.mem && s.pt[Slot(a, v)].addr in s.mem && s.mem[w.addr] == s.mem[s.pt[Slot(a, v)].addr]
    ensures Leaf(a, v) in s.at && NodeOk(s, Leaf(a, v))
    ensures var s' := SetLeaf(s, a, v, w, SwapPt(s.pt, Slot(a, v), w));
            && Inv(s', all, kernel)
            && Meaning(s') == Meaning(s)
  {
    hide Frames, Tree, Exclusive, KernelHalf, Roots, SlotsKept, Meaning, Refs;
    var k := Slot(a, v);
    var pt' := SwapPt(s.pt, k, w);
    SlotIsPresent(s, s.spaces.Keys, k);
    AddrsIn(s, all);
    assert forall j :: j in pt' ==> pt'[j].addr in all;
    SwapFacts(s.pt, k, w);
    SlotsKeptBut(s.pt, pt', k, s.spaces.Keys);
    SetLeafInv(s, all, kernel, a, v, w, pt');
    PlaceMeaning(s, SetLeaf(s, a, v, w, pt'), all, k, w);
    SameSeen(s, all, k, w);
  }

  lemma SameSeen(s: State, all: set<nat>, k: Key, w: Word)
    requires Frames(s, all) && k in s.pt && k.Slot? && k.space in s.spaces
    requires w.addr in s.mem && s.mem[w.addr] == s.mem[s.pt[k].addr] && Perm(w) == Perm(s.pt[k])
    ensures Meaning(s)[k := Seen(s.mem[w.addr], Perm(w))] == Meaning(s)
  {
  }

  /** Changing the flags of a slot without changing what it shows. */
  lemma FlagInv(s: State, all: set<nat>, kernel: seq<Word>, a: nat, v: nat, w: Word)
    requires Inv(s, all, kernel) && a in s.spaces && Slot(a, v) in s.pt
    requires w.addr == s.pt[Slot(a, v)].addr && w.present && Perm(w) == Perm(s.pt[Slot(a, v)])
    requires w.writable ==> |Refs(s.pt, w.addr)| == 1
    ensures Leaf(a, v) in s.at && NodeOk(s, Leaf(a, v))
    ensures var s' := SetLeaf(s, a, v, w, s.pt[Slot(a, v) := w]);
            && Inv(s', all, kernel)
            && Meaning(s') == Meaning(s)
  {
    hide Frames, Tree, Exclusive, KernelHalf, Roots, SlotsKept, Meaning, Refs;
    var k := Slot(a, v);
    var pt' := s.pt[k := w];
    SlotIsPresent(s, s.spaces.Keys, k);
    AddrsIn(s, all);
    assert forall j :: j in pt' ==> pt'[j].addr in all;
    FlagExclusive(s.pt, k, w);
    forall f
      ensures Refs(pt', f) == Refs(s.pt, f)
    {
      RefsKeep(s.pt, k, w, f);
    }
    SlotsKeptBut(s.pt, pt', k, s.spaces.Keys);
    SetLeafInv(s, all, kernel, a, v, w, pt');
    FrameIn(s, all, k);
    PlaceMeaning(s, SetLeaf(s, a, v, w, pt'), all, k, w);
    SameSeen(s, all, k, w);
  }

  lemma AddrsIn(s: State, all: set<nat>)
    requires Frames(s, all)
    ensures forall k :: k in s.pt ==> s.pt[k].addr in all
  {
  }

  lemma FrameIn(s: State, all: set<nat>, k: Key)
    requires Frames(s, all) && k in s.pt
    ensures s.pt[k].addr in s.mem && s.pt[k].addr in s.refs && s.pt[k].addr in all
  {
  }

  lemma FlagExclusive(pt: map<Key, Word>, k: Key, w: Word)
    requires Exclusive(pt) && k in pt && k.Slot? && w.addr == pt[k].addr
    requires w.writable ==> |Refs(pt, w.addr)| == 1
    ensures Exclusive(pt[k := w])
  {
    forall j | j in pt && pt[j].addr == w.addr && w.writable
      ensures j == k
    {
      OnlyRef(pt, k, j);
    }
  }

  /** The entry a fork leaves in both spaces. */
  function Shared(w: Word): Word {
    if w.writable then w.(writable := false, cow := true) else w
  }

  /** The fork step on one page: its write permission becomes copy-on-write,
      then one more reference is taken. */
  ghost function Share(s: State, a: nat, v: nat): State
    requires Slot(a, v) in s.pt && Leaf(a, v) in s.at && NodeOk(s, Leaf(a, v)) && s.pt[Slot(a, v)].addr in s.refs
  {
    var w := s.pt[Slot(a, v)];
    Get(SetLeaf(s, a, v, Shared(w), s.pt[Slot(a, v) := Shared(w)]), w.addr)
  }

  lemma ShareInv(s: State, all: set<nat>, kernel: seq<Word>, a: nat, v: nat)
    requires Inv(s, all, kernel) && a in s.spaces && Slot(a, v) in s.pt && InHand !in s.pt
    ensures Leaf(a, v) in s.at && NodeOk(s, Leaf(a, v)) && s.pt[Slot(a, v)].addr in s.refs
    ensures Inv(Share(s, a, v), all, kernel)
    ensures Meaning(Share(s, a, v)) == Meaning(s)
  {
    hide Frames, Tree, Exclusive, KernelHalf, Roots, Refs, SlotsKept, Meaning;
    var k := Slot(a, v);
    SlotIsPresent(s, s.spaces.Keys, k);
    FlagInv(s, all, kernel, a, v, Shared(s.pt[k]));
    var t := SetLeaf(s, a, v, Shared(s.pt[k]), s.pt[k := Shared(s.pt[k])]);
    FrameIn(t, all, k);
    GetInv(t, all, kernel, k);
  }

  lemma SlotIsPresent(s: State, live: set<nat>, k: Key)
    requires Tree(s, live) && k in s.pt && k.Slot? && k.space in live
    ensures s.pt[k].present && Leaf(k.space, k.vpn) in s.at && k.vpn < USER_PAGES
  {
  }

  lemma GetInv(s: State, all: set<nat>, kernel: seq<Word>, k: Key)
    requires Inv(s, all, kernel) && k in s.pt && k.Slot? && InHand !in s.pt
    requires !s.pt[k].writable
    ensures s.pt[k].addr in s.refs
    ensures Inv(Get(s, s.pt[k].addr), all, kernel)
    ensures Meaning(Get(s, s.pt[k].addr)) == Meaning(s)
  {
    FrameIn(s, all, k);
    GetFrames(s, all, s.pt[k].addr);
    var s' := Get(s, s.pt[k].addr);
    GetRest(s, all, kernel, k);
    hide Frames, Tree, Exclusive, KernelHalf, Roots, Refs, Meaning;
  }

  lemma GetRest(s: State, all: set<nat>, kernel: seq<Word>, k: Key)
    requires Inv(s, all, kernel) && k in s.pt && k.Slot? && InHand !in s.pt && s.pt[k].addr in s.refs
    requires forall j :: j in s.pt && j.Slot? && s.pt[j].addr == s.pt[k].addr ==> !s.pt[j].writable
    ensures var s' := Get(s, s.pt[k].addr);
            Tree(s', s.spaces.Keys) && Roots(s') && Exclusive(s'.pt) && KernelHalf(s', kernel)
              && Meaning(s') == Meaning(s)
  {
    hide FrameOk, NodeOk, SlotOk, KernelHalf, Meaning;
    var s' := Get(s, s.pt[k].addr);
    TreeFrame(s, s', s.spaces.Keys);
    RootsAreTables(s, all);
    KernelKept(s, s', kernel);
    HandMeaning(s, s');
  }

  /** A store through a writable slot changes that page of that space only. */
  ghost function Store(s: State, f: nat, i: nat, x: Word): State
    requires f in s.mem && i < |s.mem[f]|
  {
    s.(mem := s.mem[f := s.mem[f][i := x]])
  }

  lemma StoreInv(s: State, all: set<nat>, kernel: seq<Word>, k: Key, i: nat, x: Word)
    requires Inv(s, all, kernel) && k in s.pt && k.Slot? && k.space in s.spaces && s.pt[k].writable && i < ENTRIES
    ensures s.pt[k].addr in s.mem && |s.mem[s.pt[k].addr]| == ENTRIES && k in Meaning(s)
    ensures var s' := Store(s, s.pt[k].addr, i, x);
            && Inv(s', all, kernel)
            && Meaning(s') == Meaning(s)[k := Meaning(s)[k].(contents := Meaning(s)[k].contents[i := x])]
  {
    hide Tree, Exclusive, KernelHalf, Roots, Refs, Meaning, FrameOk;
    FrameIn(s, all, k);
    PageSizes(s, all);
    var s' := Store(s, s.pt[k].addr, i, x);
    SameCounts(s, s', all);
    StoreTree(s, all, kernel, k, i, x);
    StoreMeaning(s, all, k, i, x);
  }

  lemma StoreTree(s: State, all: set<nat>, kernel: seq<Word>, k: Key, i: nat, x: Word)
    requires Inv(s, all, kernel) && k in s.pt && i < ENTRIES
    requires s.pt[k].addr in s.mem && |s.mem[s.pt[k].addr]| == ENTRIES
    ensures Tree(Store(s, s.pt[k].addr, i, x), s.spaces.Keys)
    ensures KernelHalf(Store(s, s.pt[k].addr, i, x), kernel)
    ensures Roots(Store(s, s.pt[k].addr, i, x))
  {
    hide FrameOk, NodeOk, SlotOk, KernelHalf, Exclusive;
    var s' := Store(s, s.pt[k].addr, i, x);
    forall n | n in s.at
      ensures s.at[n] != s.pt[k].addr
    {
      TableIsNotData(s, all, n, k);
    }
    TreeFrame(s, s', s.spaces.Keys);
    RootsAreTables(s, all);
    KernelKept(s, s', kernel);
  }

  lemma StoreMeaning(s: State, all: set<nat>, k: Key, i: nat, x: Word)
    requires Frames(s, all) && Exclusive(s.pt) && k in s.pt && k.Slot? && k.space in s.spaces && s.pt[k].writable
             && i < ENTRIES
    requires s.pt[k].addr in s.mem && |s.mem[s.pt[k].addr]| == ENTRIES
    ensures k in Meaning(s)
    ensures Meaning(Store(s, s.pt[k].addr, i, x))
            == Meaning(s)[k := Meaning(s)[k].(contents := Meaning(s)[k].contents[i := x])]
  {
    hide FrameOk;
    assert Visible(s, k);
  }

  /** handle_cow_fault with other references: the slot gets a private copy, and
      the old frame loses one reference. */
  ghost predicate CanCopy(s: State, a: nat, v: nat, copy: nat) {
    && a in s.spaces && Slot(a, v) in s.pt && InHand !in s.pt && copy in s.free
    && s.pt[Slot(a, v)].cow && s.pt[Slot(a, v)].addr in s.mem
    && |Refs(s.pt, s.pt[Slot(a, v)].addr)| > 1
  }

  ghost function CopyHeld(s: State, a: nat, v: nat, copy: nat): State
    requires Slot(a, v) in s.pt && s.pt[Slot(a, v)].addr in s.mem
  {
    Take(s, copy, s.mem[s.pt[Slot(a, v)].addr])
  }

  lemma CopyInv(s: State, all: set<nat>, kernel: seq<Word>, a: nat, v: nat, copy: nat)
    requires Inv(s, all, kernel) && CanCopy(s, a, v, copy)
    ensures var k := Slot(a, v);
            var w := s.pt[k].(addr := copy, writable := true, cow := false);
            var t := CopyHeld(s, a, v, copy);
            && Leaf(a, v) in t.at && NodeOk(t, Leaf(a, v)) && k in t.pt
            && var u := SetLeaf(t, a, v, w, SwapPt(t.pt, k, w));
            && s.pt[k].addr in u.refs && u.pt[InHand] == s.pt[k]
            && Inv(Put(u, InHand), all, kernel) && Meaning(Put(u, InHand)) == Meaning(s)
            && copy != s.pt[k].addr && copy in s.mem
            && Put(u, InHand).pt == s.pt[k := w]
  {
    hide Frames, Tree, Exclusive, KernelHalf, Roots, Meaning, Refs;
    var k := Slot(a, v);
    var f := s.pt[k].addr;
    SharedFrame(s, all, k);
    FreeIsUnused(s, all, copy);
    FreeSizes(s, all, copy);
    TakeInv(s, all, kernel, copy, s.mem[f]);
    var t := CopyHeld(s, a, v, copy);
    SlotIsPresent(s, s.spaces.Keys, k);
    var w := s.pt[k].(addr := copy, writable := true, cow := false);
    SwapInv(t, all, kernel, a, v, w);
    var u := SetLeaf(t, a, v, w, SwapPt(t.pt, k, w));
    PutInv(u, all, kernel);
  }

  lemma SharedFrame(s: State, all: set<nat>, k: Key)
    requires Frames(s, all) && Exclusive(s.pt) && k in s.pt && k.Slot? && |Refs(s.pt, s.pt[k].addr)| > 1
    ensures !s.pt[k].writable
    ensures s.pt[k].addr in s.mem && |s.mem[s.pt[k].addr]| == ENTRIES && s.pt[k].addr in s.refs
  {
    var r := Refs(s.pt, s.pt[k].addr);
    PageSizes(s, all);
    assert k in r;
    assert s.pt[k].writable ==> forall j :: j in r ==> j == k;
    assert s.pt[k].writable ==> r == {k};
  }

  lemma FreeSizes(s: State, all: set<nat>, f: nat)
    requires Frames(s, all) && f in s.free
    ensures f in s.mem && |s.mem[f]| == ENTRIES
  {
  }

  /** No writable entry maps a frame with more than one reference. */
  lemma WritableIsSole(s: State, all: set<nat>, kernel: seq<Word>, k: Key)
    requires Inv(s, all, kernel) && k in s.pt && k.Slot? && s.pt[k].writable
    ensures s.pt[k].addr in s.refs && s.refs[s.pt[k].addr] == 1
  {
    var r := Refs(s.pt, s.pt[k].addr);
    PutFrames(s, all, k);
    assert forall j :: j in r ==> j == k;
    assert r == {k};
  }
}
