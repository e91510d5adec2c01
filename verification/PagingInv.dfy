/** Each step of the address-space code keeps the whole invariant, and what it
    means for the pages a process sees. */
module PagingInv {
  import opened Paging
  import opened PagingSteps

  // --- What a process sees --------------------------------------------------------

  /** A page as its process sees it: the contents, and the entry flags with the
      copy-on-write bit read as write permission. */
  datatype Seen = Seen(contents: seq<Word>, perm: Word)

  function Perm(w: Word): Word {
    w.(addr := 0, writable := w.writable || w.cow, cow := false)
  }

  ghost predicate Visible(s: State, k: Key) {
    k in s.pt && k.Slot? && k.space in s.spaces && s.pt[k].addr in s.mem
  }

  /** All pages of all processes: what eager copying would store directly. */
  ghost function Meaning(s: State): map<Key, Seen> {
    map k | k in s.pt && Visible(s, k) :: Seen(s.mem[s.pt[k].addr], Perm(s.pt[k]))
  }

  lemma InvVisible(s: State, all: set<nat>, kernel: seq<Word>, k: Key)
    requires Inv(s, all, kernel)
    ensures k in Meaning(s) <==> k in s.pt && k.Slot? && k.space in s.spaces
  {
  }

  lemma Absent(s: State, k: Key)
    requires k !in s.pt
    ensures Meaning(s) - {k} == Meaning(s)
  {
  }

  /** User frames keep their contents, so unchanged slots keep their meaning. */
  ghost predicate DataKept(s: State, s': State) {
    forall k :: k in s.pt && s.pt[k].addr in s.mem ==>
      && s.pt[k].addr in s'.mem
      && s'.mem[s.pt[k].addr] == s.mem[s.pt[k].addr]
  }

  lemma SameMeaning(s: State, s': State)
    requires forall k :: k in s.pt ==> s.pt[k].addr in s.mem
    requires s'.pt == s.pt && DataKept(s, s')
    requires forall k :: k in s.pt && k.Slot? ==> (k.space in s'.spaces <==> k.space in s.spaces)
    ensures Meaning(s') == Meaning(s)
  {
  }

  /** A table is not a user frame and no two positions share one. */
  lemma TableIsNotData(s: State, all: set<nat>, n: Node, k: Key)
    requires Frames(s, all) && n in s.at && k in s.pt
    ensures s.at[n] != s.pt[k].addr
    ensures s.at[n] !in s.free && s.pt[k].addr !in s.free
  {
  }

  /** The top tables are unchanged in their kernel half. */
  lemma KernelKept(s: State, s': State, kernel: seq<Word>)
    requires |kernel| == ENTRIES && KernelHalf(s, kernel) && s'.spaces == s.spaces
    requires forall a :: a in s.spaces ==>
               && s.spaces[a].cr3 in s'.mem
               && s'.mem[s.spaces[a].cr3] == s.mem[s.spaces[a].cr3]
    ensures KernelHalf(s', kernel)
  {
  }

  // --- Steps -------------------------------------------------------------------------

  /** A free frame is referenced by nobody, holds no table, and every frame is a page. */
  lemma FreeIsUnused(s: State, all: set<nat>, f: nat)
    requires Frames(s, all) && f in s.free
    ensures f in all
    ensures forall k :: k in s.pt ==> s.pt[k].addr != f
    ensures forall n :: n in s.at ==> s.at[n] != f
    ensures Refs(s.pt, f) == {}
  {
  }

  lemma PageSizes(s: State, all: set<nat>)
    requires Frames(s, all)
    ensures forall f :: f in all ==> f in s.mem && |s.mem[f]| == ENTRIES
  {
  }

  lemma RootsAreTables(s: State, all: set<nat>)
    requires Frames(s, all) && Roots(s)
    ensures forall a :: a in s.spaces ==> s.spaces[a].cr3 in all && s.spaces[a].cr3 !in s.free
    ensures forall a, k :: a in s.spaces && k in s.pt ==> s.spaces[a].cr3 != s.pt[k].addr
    ensures forall a, n :: a in s.spaces && n in s.at && s.spaces[a].cr3 == s.at[n] ==> n == Root(a)
  {
  }

  lemma GrowFrames(s: State, all: set<nat>, n: Node, i: nat, c: nat)
    requires Frames(s, all) && Growable(s, n, i, c)
    ensures Frames(Grow(s, n, i, c), all)
  {
    FreeIsUnused(s, all, c);
    PageSizes(s, all);
    hide FrameOk, Refs;
    TableFrames(s, Grow(s, n, i, c), all, Child(n, i), c);
  }

  lemma GrowKernel(s: State, all: set<nat>, kernel: seq<Word>, n: Node, i: nat, c: nat)
    requires Inv(s, all, kernel) && Growable(s, n, i, c)
    ensures KernelHalf(Grow(s, n, i, c), kernel)
  {
  }

  lemma GrowMeaning(s: State, all: set<nat>, n: Node, i: nat, c: nat)
    requires Frames(s, all) && Growable(s, n, i, c)
    ensures Meaning(Grow(s, n, i, c)) == Meaning(s)
  {
    FreeIsUnused(s, all, c);
    forall k | k in s.pt
      ensures s.pt[k].addr != s.at[n]
    {
      TableIsNotData(s, all, n, k);
    }
    hide FrameOk, Refs;
    SameMeaning(s, Grow(s, n, i, c));
  }

  lemma NodeAt(s: State, live: set<nat>, n: Node)
    requires Tree(s, live) && n in s.at && n.space in live
    ensures NodeOk(s, n)
  {
  }

  lemma GrowRoots(s: State, n: Node, i: nat, c: nat)
    requires Roots(s) && Growable(s, n, i, c)
    ensures Roots(Grow(s, n, i, c))
  {
  }

  lemma GrowInv(s: State, all: set<nat>, kernel: seq<Word>, n: Node, i: nat, c: nat)
    requires Inv(s, all, kernel) && n in s.at && n.level > 0 && n.space in s.spaces && i < Width(n)
    requires Child(n, i) !in s.at && c in s.free
    ensures Growable(s, n, i, c) && Inv(Grow(s, n, i, c), all, kernel)
    ensures Meaning(Grow(s, n, i, c)) == Meaning(s)
  {
    hide Frames, Tree, Exclusive, KernelHalf, Meaning, Roots;
    NodeAt(s, s.spaces.Keys, n);
    GrowRoots(s, n, i, c);
    hide NodeOk;
    GrowFrames(s, all, n, i, c);
    GrowTree(s, all, s.spaces.Keys, n, i, c);
    GrowMeaning(s, all, n, i, c);
    GrowKernel(s, all, kernel, n, i, c);
  }

  lemma TakeTree(s: State, all: set<nat>, kernel: seq<Word>, f: nat, page: seq<Word>)
    requires Inv(s, all, kernel) && f in s.free && InHand !in s.pt && |page| == ENTRIES
    ensures Tree(Take(s, f, page), s.spaces.Keys)
    ensures KernelHalf(Take(s, f, page), kernel)
  {
    FreeIsUnused(s, all, f);
    RootsAreTables(s, all);
    hide FrameOk, NodeOk, SlotOk, KernelHalf, Exclusive;
    TreeFrame(s, Take(s, f, page), s.spaces.Keys);
    KernelKept(s, Take(s, f, page), kernel);
  }

  lemma TakeMeaning(s: State, all: set<nat>, f: nat, page: seq<Word>)
    requires Frames(s, all) && Exclusive(s.pt) && f in s.free && InHand !in s.pt && |page| == ENTRIES
    ensures Exclusive(Take(s, f, page).pt)
    ensures Meaning(Take(s, f, page)) == Meaning(s)
    ensures Refs(Take(s, f, page).pt, f) == {InHand}
  {
    FreeIsUnused(s, all, f);
    hide FrameOk;
    HandMeaning(s, Take(s, f, page));
  }

  lemma TakeInv(s: State, all: set<nat>, kernel: seq<Word>, f: nat, page: seq<Word>)
    requires Inv(s, all, kernel) && f in s.free && InHand !in s.pt && |page| == ENTRIES
    ensures Inv(Take(s, f, page), all, kernel)
    ensures Meaning(Take(s, f, page)) == Meaning(s)
    ensures Refs(Take(s, f, page).pt, f) == {InHand}
  {
    TakeTree(s, all, kernel, f, page);
    TakeMeaning(s, all, f, page);
    TakeFrames(s, all, f, page);
    hide Frames, Tree, Exclusive, KernelHalf, Meaning, Refs;
  }

  /** What is in hand is nobody's page. */
  lemma HandMeaning(s: State, s': State)
    requires s'.spaces == s.spaces
    requires forall k :: k in s.pt && k.Slot? ==> k in s'.pt && s'.pt[k] == s.pt[k]
    requires forall k :: k in s'.pt && k.Slot? ==> k in s.pt
    requires forall k :: k in s.pt && k.Slot? ==>
               (s.pt[k].addr in s.mem && s.pt[k].addr in s'.mem && s'.mem[s.pt[k].addr] == s.mem[s.pt[k].addr])
    ensures Meaning(s') == Meaning(s)
  {
  }

  lemma PutTree(s: State, all: set<nat>, kernel: seq<Word>)
    requires Inv(s, all, kernel) && InHand in s.pt && s.pt[InHand].addr in s.refs
    ensures Tree(Put(s, InHand), s.spaces.Keys)
    ensures KernelHalf(Put(s, InHand), kernel)
    ensures Exclusive(Put(s, InHand).pt)
  {
    hide FrameOk, NodeOk, SlotOk, KernelHalf;
    TreeFrame(s, Put(s, InHand), s.spaces.Keys);
    RootsAreTables(s, all);
    KernelKept(s, Put(s, InHand), kernel);
  }

  /** The reference in hand is dropped. */
  lemma PutInv(s: State, all: set<nat>, kernel: seq<Word>)
    requires Inv(s, all, kernel) && InHand in s.pt
    ensures s.pt[InHand].addr in s.refs && Inv(Put(s, InHand), all, kernel)
    ensures Meaning(Put(s, InHand)) == Meaning(s)
    ensures s.refs[s.pt[InHand].addr] > 0
  {
    hide Frames, Tree, Exclusive, KernelHalf, Refs, Meaning, Roots;
    PutFrames(s, all, InHand);
    PutTree(s, all, kernel);
    PutMeaning(s, all);
  }

  lemma PutMeaning(s: State, all: set<nat>)
    requires Frames(s, all) && InHand in s.pt
    ensures s.pt[InHand].addr in s.refs
    ensures Meaning(Put(s, InHand)) == Meaning(s)
    ensures Roots(s) ==> Roots(Put(s, InHand))
  {
    hide FrameOk;
    HandMeaning(s, Put(s, InHand));
  }

  /** Leaf tables are not top tables, so leaf writes leave the kernel half alone. */
  lemma SetLeafKernel(s: State, all: set<nat>, kernel: seq<Word>, a: nat, v: nat, w: Word, pt': map<Key, Word>)
    requires Inv(s, all, kernel) && Leaf(a, v) in s.at && a in s.spaces
    ensures NodeOk(s, Leaf(a, v))
    ensures KernelHalf(SetLeaf(s, a, v, w, pt'), kernel)
    ensures forall k :: k in s.pt ==> s.pt[k].addr != s.at[Leaf(a, v)]
  {
    assert NodeOk(s, Leaf(a, v));
    forall b | b in s.spaces
      ensures s.spaces[b].cr3 != s.at[Leaf(a, v)]
    {
      assert s.at[Root(b)] == s.spaces[b].cr3 && Root(b) != Leaf(a, v);
    }
    forall k | k in s.pt
      ensures s.pt[k].addr != s.at[Leaf(a, v)]
    {
      TableIsNotData(s, all, Leaf(a, v), k);
    }
    RootsAreTables(s, all);
    hide Tree, Exclusive, FrameOk;
    KernelKept(s, SetLeaf(s, a, v, w, pt'), kernel);
  }

  /** A leaf write whose holders balance keeps the invariant. */
  lemma SetLeafInv(s: State, all: set<nat>, kernel: seq<Word>, a: nat, v: nat, w: Word, pt': map<Key, Word>)
    requires Inv(s, all, kernel) && a in s.spaces && v < USER_PAGES && Leaf(a, v) in s.at
    requires SlotsKept(s.pt, pt', Slot(a, v), s.spaces.Keys)
    requires w.present <==> Slot(a, v) in pt'
    requires w.present ==> pt'[Slot(a, v)] == w
    requires Exclusive(pt')
    requires forall k :: k in pt' ==> pt'[k].addr in all
    requires forall f :: f in all ==> |Refs(pt', f)| == |Refs(s.pt, f)|
    ensures NodeOk(s, Leaf(a, v)) && Inv(SetLeaf(s, a, v, w, pt'), all, kernel)
    ensures DataKept(s, SetLeaf(s, a, v, w, pt'))
  {
    hide Frames, Tree, Exclusive, KernelHalf, Meaning, Roots, Refs, SlotsKept;
    SetLeafKernel(s, all, kernel, a, v, w, pt');
    SetLeafFrames(s, all, a, v, w, pt');
    SetLeafTree(s, all, s.spaces.Keys, a, v, w, pt');
    SetLeafRoots(s, a, v, w, pt');
  }

  lemma SetLeafRoots(s: State, a: nat, v: nat, w: Word, pt': map<Key, Word>)
    requires Leaf(a, v) in s.at && NodeOk(s, Leaf(a, v)) && Roots(s)
    requires forall k :: k in s.pt ==> s.pt[k].addr != s.at[Leaf(a, v)]
    ensures Roots(SetLeaf(s, a, v, w, pt'))
    ensures DataKept(s, SetLeaf(s, a, v, w, pt'))
  {
  }

  lemma SetLeafFrames(s: State, all: set<nat>, a: nat, v: nat, w: Word, pt': map<Key, Word>)
    requires Frames(s, all) && Leaf(a, v) in s.at && NodeOk(s, Leaf(a, v))
    requires forall k :: k in pt' ==> pt'[k].addr in all
    requires forall f :: f in all ==> |Refs(pt', f)| == |Refs(s.pt, f)|
    ensures Frames(SetLeaf(s, a, v, w, pt'), all)
  {
    PageSizes(s, all);
    hide FrameOk, NodeOk, Refs;
    SameCounts(s, SetLeaf(s, a, v, w, pt'), all);
  }
}
