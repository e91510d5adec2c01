/** Creating and dismantling address spaces. */
module PagingSpaces {
  import opened Paging
  import opened PagingSteps
  import opened PagingInv
  import opened PagingMoves

  // --- A new space --------------------------------------------------------------------

  /** The top table of a new space: no user entries, the kernel's upper half. */
  function RootPage(kernel: seq<Word>): (p: seq<Word>)
    requires |kernel| == ENTRIES
    ensures |p| == ENTRIES
  {
    seq(ENTRIES, i requires 0 <= i < ENTRIES => if i < KERNEL_PML4_START then ZERO else kernel[i])
  }

  ghost predicate Unknown(s: State, a: nat) {
    && a !in s.spaces
    && (forall n :: n in s.at ==> n.space != a)
    && (forall k :: k in s.pt && k.Slot? ==> k.space != a)
  }

  ghost function NewSpace(s: State, kernel: seq<Word>, a: nat, c: nat): State
    requires |kernel| == ENTRIES
  {
    s.(mem := s.mem[c := RootPage(kernel)], refs := s.refs[c := 1], free := s.free - {c},
       spaces := s.spaces[a := Space(c, 1)], at := s.at[Root(a) := c])
  }

  lemma NewSpaceTree(s: State, all: set<nat>, kernel: seq<Word>, a: nat, c: nat)
    requires Inv(s, all, kernel) && Unknown(s, a) && c in s.free
    ensures Tree(NewSpace(s, kernel, a, c), s.spaces.Keys + {a})
  {
    var s' := NewSpace(s, kernel, a, c);
    FreeIsUnused(s, all, c);
    hide FrameOk, KernelHalf, Exclusive, NodeOk, SlotOk;
    TreeFrame(s, s', s.spaces.Keys);
    NewRoot(s, kernel, a, c);
  }

  lemma NewRoot(s: State, kernel: seq<Word>, a: nat, c: nat)
    requires |kernel| == ENTRIES && Unknown(s, a)
    ensures NodeOk(NewSpace(s, kernel, a, c), Root(a))
  {
  }

  lemma NewSpaceKernel(s: State, all: set<nat>, kernel: seq<Word>, a: nat, c: nat)
    requires Inv(s, all, kernel) && Unknown(s, a) && c in s.free
    ensures KernelHalf(NewSpace(s, kernel, a, c), kernel)
    ensures Roots(NewSpace(s, kernel, a, c))
  {
    RootsAreTables(s, all);
    hide Frames, Tree, Exclusive;
    var s' := NewSpace(s, kernel, a, c);
    forall b | b in s'.spaces
      ensures var r := s'.spaces[b].cr3;
              && r in s'.mem && |s'.mem[r]| == ENTRIES
              && (forall i :: KERNEL_PML4_START <= i < ENTRIES ==> s'.mem[r][i] == kernel[i])
    {
    }
  }

  lemma NewSpaceFrames(s: State, all: set<nat>, kernel: seq<Word>, a: nat, c: nat)
    requires Frames(s, all) && |kernel| == ENTRIES && Unknown(s, a) && c in s.free
    ensures Frames(NewSpace(s, kernel, a, c), all)
  {
    FreeIsUnused(s, all, c);
    PageSizes(s, all);
    hide FrameOk, Refs;
    TableFrames(s, NewSpace(s, kernel, a, c), all, Root(a), c);
  }

  lemma NewSpaceMeaning(s: State, all: set<nat>, kernel: seq<Word>, a: nat, c: nat)
    requires Frames(s, all) && |kernel| == ENTRIES && Unknown(s, a) && c in s.free
    ensures Meaning(NewSpace(s, kernel, a, c)) == Meaning(s)
  {
    hide Meaning, FrameOk, Refs;
    FreeIsUnused(s, all, c);
    SameMeaning(s, NewSpace(s, kernel, a, c));
  }

  lemma NewSpaceInv(s: State, all: set<nat>, kernel: seq<Word>, a: nat, c: nat)
    requires Inv(s, all, kernel) && Unknown(s, a) && c in s.free
    ensures Inv(NewSpace(s, kernel, a, c), all, kernel)
    ensures Meaning(NewSpace(s, kernel, a, c)) == Meaning(s)
  {
    hide Frames, Tree, Exclusive, KernelHalf, Roots, Meaning;
    NewSpaceFrames(s, all, kernel, a, c);
    NewSpaceMeaning(s, all, kernel, a, c);
    NewSpaceTree(s, all, kernel, a, c);
    NewSpaceKernel(s, all, kernel, a, c);
    assert NewSpace(s, kernel, a, c).spaces.Keys == s.spaces.Keys + {a};
  }

  // --- Dismantling ----------------------------------------------------------------------

  /** m lies in the subtree of n. */
  ghost predicate Under(m: Node, n: Node)
    decreases n.level - m.level
  {
    m == n || (m.level < n.level && Under(Parent(m), n))
  }

  /** The entry of n on the way down to m. */
  ghost function Branch(m: Node, n: Node): nat
    requires m.level < n.level
    decreases n.level - m.level
  {
    if m.level + 1 == n.level then m.prefix % ENTRIES else Branch(Parent(m), n)
  }

  ghost predicate KeyUnder(k: Key, n: Node) {
    k.Slot? && Under(Leaf(k.space, k.vpn), n)
  }

  lemma {:induction false} UnderSpace(m: Node, n: Node)
    requires Under(m, n)
    ensures m.space == n.space && m.level <= n.level
    decreases n.level - m.level
  {
    if m != n {
      UnderSpace(Parent(m), n);
    }
  }

  /** Below n, a node is below exactly the child its branch names. */
  lemma {:induction false} UnderChild(m: Node, n: Node, i: nat)
    requires m.level < n.level && i < ENTRIES
    ensures Under(m, Child(n, i)) <==> Under(m, n) && Branch(m, n) == i
    ensures Branch(m, n) < ENTRIES
    decreases n.level - m.level
  {
    if m.level + 1 == n.level {
      if Parent(m) == n {
        assert m == Child(n, m.prefix % ENTRIES);
      }
      ParentOfChild(n, i);
    } else {
      UnderChild(Parent(m), n, i);
    }
  }

  /** All tables and slots of space a are in order in s. */
  ghost predicate Intact(s: State, a: nat) {
    && (forall n :: n in s.at && n.space == a ==> NodeOk(s, n))
    && (forall k :: k in s.pt && k.Slot? && k.space == a ==> SlotOk(s, k))
  }

  /** A node with descendants is there itself. */
  lemma {:induction false} NoOrphans(s: State, m: Node, n: Node)
    requires Intact(s, m.space) && m in s.at && Under(m, n) && n.level <= 3
    ensures n in s.at
    decreases n.level - m.level
  {
    if m != n {
      assert NodeOk(s, m);
      NoOrphans(s, Parent(m), n);
    }
  }

  lemma NoOrphanKeys(s: State, k: Key, n: Node)
    requires k.Slot? && Intact(s, k.space) && k in s.pt && KeyUnder(k, n) && n.level <= 3
    ensures n in s.at
  {
    assert SlotOk(s, k);
    NoOrphans(s, Leaf(k.space, k.vpn), n);
  }

  /** free_page of a table whose space is gone. */
  ghost function DropTable(s: State, n: Node): State
    requires n in s.at
  {
    s.(refs := s.refs[s.at[n] := 0], free := s.free + {s.at[n]}, at := s.at - {n})
  }

  lemma DropTableFrames(s: State, all: set<nat>, n: Node)
    requires Frames(s, all) && n in s.at
    ensures Frames(DropTable(s, n), all)
  {
    var s' := DropTable(s, n);
    var c := s.at[n];
    assert FrameOk(s, c);
    forall f | f in all
      ensures FrameOk(s', f)
    {
      assert FrameOk(s, f);
      if f != c && IsTable(s.at, f) {
        var m :| m in s.at && s.at[m] == f;
        assert m in s'.at && s'.at[m] == f;
      }
    }
  }

  lemma DropTableInv(s: State, all: set<nat>, kernel: seq<Word>, n: Node)
    requires Inv(s, all, kernel) && n in s.at && n.space !in s.spaces
    ensures Inv(DropTable(s, n), all, kernel)
  {
    hide Frames, Exclusive, KernelHalf, NodeOk, SlotOk;
    DropTableFrames(s, all, n);
    TreeFrame(s, DropTable(s, n), s.spaces.Keys);
    DropKernel(s, kernel, n);
  }

  lemma DropKernel(s: State, kernel: seq<Word>, n: Node)
    requires |kernel| == ENTRIES && KernelHalf(s, kernel) && n in s.at
    ensures KernelHalf(DropTable(s, n), kernel)
  {
  }

  /** page_put_phys of a slot whose space is gone. */
  lemma PutDyingInv(s: State, all: set<nat>, kernel: seq<Word>, k: Key)
    requires Inv(s, all, kernel) && k in s.pt && k.Slot? && k.space !in s.spaces
    ensures s.pt[k].addr in s.refs && Inv(Put(s, k), all, kernel)
    ensures s.refs[s.pt[k].addr] > 0
  {
    hide Frames, Exclusive, KernelHalf, NodeOk, SlotOk, Refs;
    PutFrames(s, all, k);
    TreeFrame(s, Put(s, k), s.spaces.Keys);
    PutDyingRest(s, kernel, k);
  }

  lemma PutDyingRest(s: State, kernel: seq<Word>, k: Key)
    requires |kernel| == ENTRIES && KernelHalf(s, kernel) && Exclusive(s.pt) && k in s.pt && s.pt[k].addr in s.refs
    ensures KernelHalf(Put(s, k), kernel) && Exclusive(Put(s, k).pt)
  {
  }

  /** Taking a space out of service: its pages disappear from view, its frames are still held. */
  ghost function Detach(s: State, a: nat): State {
    s.(spaces := s.spaces - {a})
  }

  lemma DetachInv(s: State, all: set<nat>, kernel: seq<Word>, a: nat)
    requires Inv(s, all, kernel) && a in s.spaces
    ensures Inv(Detach(s, a), all, kernel)
    ensures Intact(Detach(s, a), a) && Root(a) in s.at && s.at[Root(a)] == s.spaces[a].cr3
    ensures Meaning(Detach(s, a)) == map k | k in Meaning(s) && k.Slot? && k.space != a :: Meaning(s)[k]
  {
    hide Frames, Tree, Exclusive, KernelHalf, Meaning;
    DetachFrames(s, all, a);
    DetachTree(s, a);
    DetachRest(s, kernel, a);
    assert s.spaces.Keys - {a} == Detach(s, a).spaces.Keys;
  }

  lemma DetachFrames(s: State, all: set<nat>, a: nat)
    requires Frames(s, all)
    ensures Frames(Detach(s, a), all)
  {
  }

  lemma DetachTree(s: State, a: nat)
    requires Tree(s, s.spaces.Keys) && a in s.spaces
    ensures Tree(Detach(s, a), s.spaces.Keys - {a})
    ensures Intact(Detach(s, a), a)
  {
    var s' := Detach(s, a);
    forall n | n in s.at && NodeOk(s, n)
      ensures NodeOk(s', n)
    {
      SameNode(s, s', n);
    }
    hide NodeOk;
  }

  lemma SameNode(s: State, s': State, n: Node)
    requires n in s.at && NodeOk(s, n) && s'.mem == s.mem && s'.at == s.at && s'.pt == s.pt
    ensures NodeOk(s', n)
  {
  }

  lemma DetachRest(s: State, kernel: seq<Word>, a: nat)
    requires |kernel| == ENTRIES && KernelHalf(s, kernel) && Roots(s)
    ensures KernelHalf(Detach(s, a), kernel) && Roots(Detach(s, a))
    ensures Meaning(Detach(s, a)) == map k | k in Meaning(s) && k.Slot? && k.space != a :: Meaning(s)[k]
  {
  }

  /** What is left once every space is gone: exactly the leaked frames are not free. */
  lemma AllFramesReturned(s: State, all: set<nat>, kernel: seq<Word>)
    requires Inv(s, all, kernel) && Settled(s) && s.spaces == map[]
    ensures s.at == map[]
    ensures forall f :: f in all ==> (f in s.free <==> !exists n :: Leak(n) in s.pt && s.pt[Leak(n)].addr == f)
    ensures s.free == all <==> forall n :: Leak(n) !in s.pt
  {
    assert forall n :: n !in s.at;
    forall f | f in all
      ensures f in s.free <==> !exists n :: Leak(n) in s.pt && s.pt[Leak(n)].addr == f
    {
      assert FrameOk(s, f);
      if f !in s.free {
        var k :| k in s.pt && s.pt[k].addr == f;
        assert k.Leak? && k == Leak(k.n);
      }
    }
    assert forall n :: Leak(n) in s.pt ==> s.pt[Leak(n)].addr in all - s.free;
  }

  // --- One reference less ---------------------------------------------------------------

  ghost function LessRef(s: State, a: nat, left: nat): State
    requires a in s.spaces
  {
    s.(spaces := s.spaces[a := s.spaces[a].(refCount := left)])
  }

  lemma LessRefInv(s: State, all: set<nat>, kernel: seq<Word>, a: nat, left: nat)
    requires Inv(s, all, kernel) && a in s.spaces && left > 0
    ensures Inv(LessRef(s, a, left), all, kernel)
    ensures Meaning(LessRef(s, a, left)) == Meaning(s)
  {
    hide Frames, Tree, Exclusive, KernelHalf, Meaning;
    var s' := LessRef(s, a, left);
    assert s'.spaces.Keys == s.spaces.Keys;
    LessRefFrames(s, all, a, left);
    LessRefParts(s, all, kernel, a, left);
  }

  lemma LessRefFrames(s: State, all: set<nat>, a: nat, left: nat)
    requires Frames(s, all) && a in s.spaces
    ensures Frames(LessRef(s, a, left), all)
    ensures Meaning(LessRef(s, a, left)) == Meaning(s)
  {
    var s' := LessRef(s, a, left);
    forall f | f in all
      ensures FrameOk(s', f)
    {
      assert FrameOk(s, f);
    }
    hide FrameOk;
  }

  lemma LessRefParts(s: State, all: set<nat>, kernel: seq<Word>, a: nat, left: nat)
    requires Frames(s, all) && Tree(s, s.spaces.Keys) && |kernel| == ENTRIES && KernelHalf(s, kernel) && a in s.spaces
    ensures Tree(LessRef(s, a, left), s.spaces.Keys)
    ensures KernelHalf(LessRef(s, a, left), kernel)
  {
    var s' := LessRef(s, a, left);
    forall n | n in s.at && n.space in s.spaces
      ensures NodeOk(s', n)
    {
      SameNode(s, s', n);
    }
    forall k | k in s.pt && k.Slot? && k.space in s.spaces
      ensures SlotOk(s', k)
    {
      assert SlotOk(s, k);
    }
    hide NodeOk, FrameOk;
  }
}
