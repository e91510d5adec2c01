/** The elementary steps the kernel code is made of, and what each keeps. */
module PagingSteps {
  import opened Paging

  // --- Counting references ---------------------------------------------------------

  lemma UserCount(pt: map<Key, Word>, f: nat)
    ensures IsUser(pt, f) <==> |Refs(pt, f)| > 0
  {
    if IsUser(pt, f) {
      var k :| k in pt && pt[k].addr == f;
      assert k in Refs(pt, f);
    }
    if |Refs(pt, f)| > 0 {
      var k :| k in Refs(pt, f);
    }
  }

  lemma RefsAdd(pt: map<Key, Word>, k: Key, w: Word, f: nat)
    requires k !in pt
    ensures |Refs(pt[k := w], f)| == |Refs(pt, f)| + if f == w.addr then 1 else 0
  {
    assert Refs(pt[k := w], f) == Refs(pt, f) + if f == w.addr then {k} else {};
  }

  lemma RefsDrop(pt: map<Key, Word>, k: Key, f: nat)
    requires k in pt
    ensures |Refs(pt - {k}, f)| == |Refs(pt, f)| - if f == pt[k].addr then 1 else 0
  {
    assert Refs(pt, f) == Refs(pt - {k}, f) + if f == pt[k].addr then {k} else {};
  }

  lemma RefsKeep(pt: map<Key, Word>, k: Key, w: Word, f: nat)
    requires k in pt && w.addr == pt[k].addr
    ensures Refs(pt[k := w], f) == Refs(pt, f)
  {
  }

  lemma OnlyRef(pt: map<Key, Word>, k: Key, j: Key)
    requires k in pt && j in pt && pt[j].addr == pt[k].addr && |Refs(pt, pt[k].addr)| == 1
    ensures j == k
  {
    var r := Refs(pt, pt[k].addr);
    assert j in r && k in r;
    assert |r - {k}| == |r| - 1;
    assert j != k ==> j in r - {k};
  }

  // --- Frames: what each change of holders does to the accounting ---------------------

  /** Same free frames and tables, same number of references to every frame. */
  lemma SameCounts(s: State, s': State, all: set<nat>)
    requires Frames(s, all)
    requires s'.mem.Keys == all && s'.refs == s.refs && s'.free == s.free && s'.at == s.at
    requires forall f :: f in all ==> |s'.mem[f]| == ENTRIES
    requires forall k :: k in s'.pt ==> s'.pt[k].addr in all
    requires forall f :: f in all ==> |Refs(s'.pt, f)| == |Refs(s.pt, f)|
    ensures Frames(s', all)
  {
    forall f | f in all
      ensures FrameOk(s', f)
    {
      UserCount(s.pt, f);
      UserCount(s'.pt, f);
      assert FrameOk(s, f);
    }
  }

  /** alloc_page for user data: the caller holds the only reference. */
  function Take(s: State, f: nat, page: seq<Word>): State {
    s.(mem := s.mem[f := page], refs := s.refs[f := 1], free := s.free - {f},
       pt := s.pt[InHand := ZERO.(addr := f)])
  }

  lemma TakeFrames(s: State, all: set<nat>, f: nat, page: seq<Word>)
    requires Frames(s, all) && f in s.free && InHand !in s.pt && |page| == ENTRIES
    ensures Frames(Take(s, f, page), all)
  {
    var s' := Take(s, f, page);
    assert FrameOk(s, f);
    forall g | g in all
      ensures FrameOk(s', g)
    {
      UserCount(s.pt, g);
      UserCount(s'.pt, g);
      RefsAdd(s.pt, InHand, ZERO.(addr := f), g);
      assert FrameOk(s, g);
    }
  }

  /** page_get_phys: one more reference, in hand. */
  function Get(s: State, f: nat): State
    requires f in s.refs
  {
    s.(refs := s.refs[f := s.refs[f] + 1], pt := s.pt[InHand := ZERO.(addr := f)])
  }

  lemma GetFrames(s: State, all: set<nat>, f: nat)
    requires Frames(s, all) && IsUser(s.pt, f) && InHand !in s.pt
    ensures f in s.refs && Frames(Get(s, f), all)
  {
    var s' := Get(s, f);
    forall g | g in all
      ensures FrameOk(s', g)
    {
      UserCount(s.pt, g);
      UserCount(s'.pt, g);
      RefsAdd(s.pt, InHand, ZERO.(addr := f), g);
      assert FrameOk(s, g);
    }
  }

  /** page_put_phys of the reference under key k: the last one frees the frame. */
  function Put(s: State, k: Key): State
    requires k in s.pt && s.pt[k].addr in s.refs
  {
    var f := s.pt[k].addr;
    var n := if s.refs[f] == 0 then 0 else s.refs[f] - 1;
    s.(refs := s.refs[f := n], free := if n == 0 then s.free + {f} else s.free, pt := s.pt - {k})
  }

  lemma PutFrames(s: State, all: set<nat>, k: Key)
    requires Frames(s, all) && k in s.pt
    ensures s.pt[k].addr in s.refs && Frames(Put(s, k), all)
    ensures s.refs[s.pt[k].addr] == |Refs(s.pt, s.pt[k].addr)| > 0
  {
    var s' := Put(s, k);
    var f := s.pt[k].addr;
    assert FrameOk(s, f);
    UserCount(s.pt, f);
    forall g | g in all
      ensures FrameOk(s', g)
    {
      UserCount(s.pt, g);
      UserCount(s'.pt, g);
      RefsDrop(s.pt, k, g);
      assert FrameOk(s, g);
    }
  }

  /** A new table below entry i of the table at n. */
  function TableEntry(c: nat): Word {
    Word(c, true, true, true, false, false, 0)
  }

  ghost predicate Growable(s: State, n: Node, i: nat, c: nat) {
    && n in s.at && n.level > 0 && i < Width(n)
    && s.at[n] in s.mem && |s.mem[s.at[n]]| == ENTRIES
    && Child(n, i) !in s.at
    && c in s.free
  }

  ghost function Grow(s: State, n: Node, i: nat, c: nat): State
    requires Growable(s, n, i, c)
  {
    s.(mem := s.mem[c := ZeroPage()][s.at[n] := s.mem[s.at[n]][i := TableEntry(c)]],
       refs := s.refs[c := 1], free := s.free - {c}, at := s.at[Child(n, i) := c])
  }

  lemma TableFrames(s: State, s': State, all: set<nat>, n: Node, c: nat)
    requires Frames(s, all) && c in s.free && n !in s.at
    requires s'.mem.Keys == all && s'.refs == s.refs[c := 1] && s'.free == s.free - {c} && s'.at == s.at[n := c]
             && s'.pt == s.pt
    requires forall f :: f in all ==> |s'.mem[f]| == ENTRIES
    ensures Frames(s', all)
  {
    assert FrameOk(s, c);
    assert s'.at[n] == c;
    forall f | f in all
      ensures FrameOk(s', f)
    {
      assert FrameOk(s, f);
      if IsTable(s.at, f) {
        var m :| m in s.at && s.at[m] == f;
        assert m in s'.at && s'.at[m] == f;
      }
      if f != c && IsTable(s'.at, f) {
        var m :| m in s'.at && s'.at[m] == f;
        assert m in s.at && s.at[m] == f;
      }
    }
  }

  lemma GrowTree(s: State, all: set<nat>, live: set<nat>, n: Node, i: nat, c: nat)
    requires Frames(s, all) && Tree(s, live) && Growable(s, n, i, c) && n.space in live
    ensures Tree(Grow(s, n, i, c), live)
  {
    var s' := Grow(s, n, i, c);
    var ch := Child(n, i);
    assert NodeOk(s, n);
    ParentOfChild(n, i);
    assert FrameOk(s, c);
    forall m | m in s'.at && m.space in live
      ensures NodeOk(s', m)
    {
      if m == ch {
        GrowFresh(s, live, n, i, c);
      } else {
        assert NodeOk(s, m);
        assert m != n ==> s.at[m] != s.at[n];
        assert s.at[m] != c;
        GrowOld(s, n, i, c, m);
      }
    }
    forall k | k in s'.pt && k.Slot? && k.space in live
      ensures SlotOk(s', k)
    {
      assert SlotOk(s, k);
    }
  }

  lemma GrowFresh(s: State, live: set<nat>, n: Node, i: nat, c: nat)
    requires Tree(s, live) && Growable(s, n, i, c) && n.space in live && c != s.at[n]
    ensures NodeOk(Grow(s, n, i, c), Child(n, i))
  {
    var s', m := Grow(s, n, i, c), Child(n, i);
    assert NodeOk(s, n);
    ParentOfChild(n, i);
    forall j: nat | j < ENTRIES && m.level > 0
      ensures Child(m, j) !in s'.at
    {
      ParentOfChild(m, j);
      assert Child(m, j) in s.at ==> NodeOk(s, Child(m, j));
    }
    forall j: nat | j < ENTRIES && m.level == 0
      ensures SlotOf(m, j) !in s.pt
    {
      var k := SlotOf(m, j);
      assert Leaf(k.space, k.vpn) == m;
      assert k in s.pt ==> SlotOk(s, k);
    }
  }

  lemma GrowOld(s: State, n: Node, i: nat, c: nat, m: Node)
    requires Growable(s, n, i, c) && m in s.at && NodeOk(s, m) && NodeOk(s, n)
    requires m != n ==> s.at[m] != s.at[n]
    requires s.at[m] != c && s.at[n] != c
    ensures NodeOk(Grow(s, n, i, c), m)
  {
  }

  /** Writing the leaf entry of page v of space a, with the holders it leads to. */
  ghost function SetLeaf(s: State, a: nat, v: nat, w: Word, pt': map<Key, Word>): State
    requires Leaf(a, v) in s.at && s.at[Leaf(a, v)] in s.mem && |s.mem[s.at[Leaf(a, v)]]| == ENTRIES
  {
    var t := s.at[Leaf(a, v)];
    s.(mem := s.mem[t := s.mem[t][v % ENTRIES := w]], pt := pt')
  }

  /** The slots of the live spaces other than slot k are as before. */
  ghost predicate SlotsKept(pt: map<Key, Word>, pt': map<Key, Word>, k: Key, live: set<nat>) {
    forall j: Key :: j.Slot? && j.space in live && j != k ==> (j in pt <==> j in pt') && (j in pt ==> pt[j] == pt'[j])
  }

  lemma SetLeafTree(s: State, all: set<nat>, live: set<nat>, a: nat, v: nat, w: Word, pt': map<Key, Word>)
    requires Frames(s, all) && Tree(s, live) && a in live && v < USER_PAGES && Leaf(a, v) in s.at
    requires SlotsKept(s.pt, pt', Slot(a, v), live)
    requires w.present <==> Slot(a, v) in pt'
    requires w.present ==> pt'[Slot(a, v)] == w
    ensures s.at[Leaf(a, v)] in s.mem && |s.mem[s.at[Leaf(a, v)]]| == ENTRIES
    ensures Tree(SetLeaf(s, a, v, w, pt'), live)
  {
    var n := Leaf(a, v);
    assert NodeOk(s, n);
    var s' := SetLeaf(s, a, v, w, pt');
    forall m | m in s'.at && m.space in live
      ensures NodeOk(s', m)
    {
      assert NodeOk(s, m);
      assert m != n ==> s.at[m] != s.at[n];
      SetLeafNode(s, live, a, v, w, pt', m);
    }
    forall k | k in s'.pt && k.Slot? && k.space in live
      ensures SlotOk(s', k)
    {
      assert k != Slot(a, v) ==> SlotOk(s, k);
    }
  }

  lemma SetLeafNode(s: State, live: set<nat>, a: nat, v: nat, w: Word, pt': map<Key, Word>, m: Node)
    requires Leaf(a, v) in s.at && NodeOk(s, Leaf(a, v)) && a in live
    requires m in s.at && NodeOk(s, m) && m.space in live
    requires m != Leaf(a, v) ==> s.at[m] != s.at[Leaf(a, v)]
    requires SlotsKept(s.pt, pt', Slot(a, v), live)
    requires w.present <==> Slot(a, v) in pt'
    requires w.present ==> pt'[Slot(a, v)] == w
    ensures NodeOk(SetLeaf(s, a, v, w, pt'), m)
  {
  }

  /** Changes to memory outside the tables of the live spaces, and to holders
      that are not slots of theirs, leave the tree alone. */
  lemma TreeFrame(s: State, s': State, live: set<nat>)
    requires Tree(s, live)
    requires forall n :: n in s.at && n.space in live ==>
               && n in s'.at && s'.at[n] == s.at[n] && s.at[n] in s'.mem
               && s'.mem[s.at[n]] == s.mem[s.at[n]]
    requires forall n :: n in s'.at && n.space in live ==> n in s.at
    requires forall k: Key :: k.Slot? && k.space in live ==>
               && (k in s.pt <==> k in s'.pt)
               && (k in s.pt ==> s.pt[k] == s'.pt[k])
    ensures Tree(s', live)
  {
  }
}
