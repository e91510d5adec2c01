/** free_page_tables_recursive, seen from above: which tables and slots are gone
    after part of a subtree has been taken apart. */
module PagingPrune {
  import opened Paging
  import opened PagingSteps
  import opened PagingInv
  import opened PagingMoves
  import opened PagingSpaces

  // --- Taking a subtree apart ---------------------------------------------------------

  /** The subtree of n in s is still there in t. */
  ghost predicate Whole(s: State, t: State, n: Node) {
    && (forall m :: m in s.at && Under(m, n) ==> m in t.at && t.at[m] == s.at[m])
    && (forall k :: k in s.pt && KeyUnder(k, n) ==> k in t.pt && t.pt[k] == s.pt[k])
    && (forall m :: m in t.at && Under(m, n) ==> m in s.at)
    && (forall k :: k in t.pt && KeyUnder(k, n) ==> k in s.pt)
  }

  /** Exactly the subtree of n is gone. */
  ghost predicate Pruned(t: State, t': State, n: Node) {
    && t'.mem == t.mem && t'.spaces == t.spaces
    && t'.at == (map m | m in t.at && !Under(m, n) :: t.at[m])
    && t'.pt == (map k | k in t.pt && !KeyUnder(k, n) :: t.pt[k])
  }

  /** Below one of the first i entries of n. */
  ghost predicate Early(m: Node, n: Node, i: nat) {
    m.level < n.level && Under(m, n) && Branch(m, n) < i
  }

  ghost predicate EarlyKey(k: Key, n: Node, i: nat) {
    && KeyUnder(k, n)
    && (if n.level == 0 then k.vpn % ENTRIES < i else Early(Leaf(k.space, k.vpn), n, i))
  }

  /** The subtrees of the first i entries of n are gone. */
  ghost predicate PrunedTo(s: State, t: State, t': State, n: Node, i: nat) {
    && t'.mem == t.mem && t'.spaces == t.spaces
    && Whole(s, t, n)
    && t'.at == (map m | m in t.at && !Early(m, n, i) :: t.at[m])
    && t'.pt == (map k | k in t.pt && !EarlyKey(k, n, i) :: t.pt[k])
  }

  lemma PrunedStart(s: State, t: State, n: Node)
    requires Whole(s, t, n)
    ensures PrunedTo(s, t, t, n, 0)
  {
  }

  lemma IntactEntry(s: State, n: Node, i: nat)
    requires Intact(s, n.space) && n in s.at && i < Width(n)
    ensures s.at[n] in s.mem && |s.mem[s.at[n]]| == ENTRIES
    ensures var e := s.mem[s.at[n]][i];
            && (n.level > 0 ==> (e.present <==> Child(n, i) in s.at) && (e.present ==> e.addr == s.at[Child(n, i)]))
            && (n.level == 0 ==> (e.present <==> SlotOf(n, i) in s.pt) && (e.present ==> e == s.pt[SlotOf(n, i)]))
  {
  }

  lemma WholeChild(s: State, t: State, t': State, n: Node, i: nat)
    requires PrunedTo(s, t, t', n, i) && n.level > 0 && i < ENTRIES
    ensures Whole(s, t', Child(n, i))
  {
    forall m: Node | Under(m, Child(n, i))
      ensures Under(m, n) && !Early(m, n, i)
    {
      UnderSpace(m, Child(n, i));
      UnderChild(m, n, i);
    }
    forall k: Key | KeyUnder(k, Child(n, i))
      ensures KeyUnder(k, n) && !EarlyKey(k, n, i)
    {
    }
  }

  lemma PrunedChild(s: State, t: State, t': State, t'': State, n: Node, i: nat)
    requires n.level > 0 && i < ENTRIES && PrunedTo(s, t, t', n, i) && Pruned(t', t'', Child(n, i))
    ensures PrunedTo(s, t, t'', n, i + 1)
  {
    forall m: Node
      ensures Early(m, n, i + 1) <==> Early(m, n, i) || Under(m, Child(n, i))
    {
      if m.level < n.level {
        UnderChild(m, n, i);
      } else if Under(m, Child(n, i)) {
        UnderSpace(m, Child(n, i));
      }
    }
    forall k: Key
      ensures EarlyKey(k, n, i + 1) <==> EarlyKey(k, n, i) || KeyUnder(k, Child(n, i))
    {
      if k.Slot? {
        var m := Leaf(k.space, k.vpn);
        UnderChild(m, n, i);
      }
    }
  }

  lemma WholeSlot(s: State, t: State, t': State, n: Node, i: nat)
    requires PrunedTo(s, t, t', n, i) && n.level == 0 && i < ENTRIES && SlotOf(n, i) in s.pt
    ensures SlotOf(n, i) in t'.pt && t'.pt[SlotOf(n, i)] == s.pt[SlotOf(n, i)]
  {
  }

  lemma PrunedSlot(s: State, t: State, t': State, t'': State, n: Node, i: nat)
    requires PrunedTo(s, t, t', n, i) && n.level == 0 && i < ENTRIES && SlotOf(n, i) in t'.pt
    requires t''.mem == t'.mem && t''.spaces == t'.spaces && t''.at == t'.at && t''.pt == t'.pt - {SlotOf(n, i)}
    ensures PrunedTo(s, t, t'', n, i + 1)
  {
  }

  /** An absent entry has nothing below it. */
  lemma PrunedSkip(s: State, t: State, t': State, n: Node, i: nat)
    requires PrunedTo(s, t, t', n, i) && i < ENTRIES && n.level <= 3 && Intact(s, n.space)
    requires n.level > 0 ==> Child(n, i) !in s.at
    requires n.level == 0 ==> SlotOf(n, i) !in s.pt
    ensures PrunedTo(s, t, t', n, i + 1)
  {
    forall m | m in t.at
      ensures Early(m, n, i + 1) <==> Early(m, n, i)
    {
      if m.level < n.level {
        UnderChild(m, n, i);
        if Under(m, Child(n, i)) {
          UnderSpace(m, n);
          NoOrphans(s, m, Child(n, i));
        }
      }
    }
    forall k | k in t.pt
      ensures EarlyKey(k, n, i + 1) <==> EarlyKey(k, n, i)
    {
      SkipKey(s, t, n, i, k);
    }
  }

  lemma SkipKey(s: State, t: State, n: Node, i: nat, k: Key)
    requires Whole(s, t, n) && i < ENTRIES && n.level <= 3 && Intact(s, n.space) && k in t.pt
    requires n.level > 0 ==> Child(n, i) !in s.at
    requires n.level == 0 ==> SlotOf(n, i) !in s.pt
    ensures EarlyKey(k, n, i + 1) <==> EarlyKey(k, n, i)
  {
    if KeyUnder(k, n) {
      var m := Leaf(k.space, k.vpn);
      UnderSpace(m, n);
      if n.level > 0 {
        UnderChild(m, n, i);
        if Under(m, Child(n, i)) {
          NoOrphanKeys(s, k, Child(n, i));
        }
      } else {
        assert k == SlotOf(n, k.vpn % ENTRIES);
      }
    }
  }

  lemma PrunedEnd(s: State, t: State, t': State, n: Node)
    requires PrunedTo(s, t, t', n, ENTRIES) && n in s.at && n.level <= 2
    ensures n in t'.at && t'.at[n] == s.at[n]
    ensures forall t'': State ::
              t''.mem == t'.mem && t''.spaces == t'.spaces && t''.at == t'.at - {n} && t''.pt == t'.pt ==>
                Pruned(t, t'', n)
  {
    forall m: Node
      ensures Under(m, n) <==> m == n || Early(m, n, ENTRIES)
    {
      if m.level < n.level {
        UnderChild(m, n, 0);
      } else if Under(m, n) {
        UnderSpace(m, n);
      }
    }
    forall k: Key
      ensures KeyUnder(k, n) <==> EarlyKey(k, n, ENTRIES)
    {
      if k.Slot? && n.level > 0 {
        UnderChild(Leaf(k.space, k.vpn), n, 0);
      }
    }
  }

  lemma WholeSelf(s: State, n: Node)
    ensures Whole(s, s, n)
  {
  }

  /** All of space a, tables and slots, is gone and nothing else. */
  ghost predicate Gone(t: State, t': State, a: nat) {
    && t'.mem == t.mem && t'.spaces == t.spaces - {a}
    && t'.at == (map m | m in t.at && m.space != a :: t.at[m])
    && t'.pt == (map k | k in t.pt && !(k.Slot? && k.space == a) :: t.pt[k])
    && Meaning(t') == (map k | k in Meaning(t) && !(k.Slot? && k.space == a) :: Meaning(t)[k])
  }

  lemma {:induction false} AllUnderRoot(s: State, m: Node)
    requires Intact(s, m.space) && m in s.at
    ensures Under(m, Root(m.space)) && m.level <= 3
    ensures m.level < 3 ==> Branch(m, Root(m.space)) < KERNEL_PML4_START
    decreases 3 - m.level
  {
    assert NodeOk(s, m);
    if m.level < 3 {
      AllUnderRoot(s, Parent(m));
    }
  }

  lemma PrunedRoot(s: State, t: State, a: nat)
    requires Intact(s, a) && PrunedTo(s, s, t, Root(a), KERNEL_PML4_START) && Root(a) in s.at
    ensures t.mem == s.mem && t.spaces == s.spaces
    ensures Root(a) in t.at && t.at[Root(a)] == s.at[Root(a)]
    ensures forall m :: m in t.at <==> m in s.at && (m.space != a || m == Root(a))
    ensures forall m :: m in t.at ==> t.at[m] == s.at[m]
    ensures forall k :: k in t.pt <==> k in s.pt && !(k.Slot? && k.space == a)
    ensures forall k :: k in t.pt ==> t.pt[k] == s.pt[k]
  {
    var n := Root(a);
    forall m | m in s.at
      ensures Early(m, n, KERNEL_PML4_START) <==> m.space == a && m != n
    {
      if m.space == a {
        AllUnderRoot(s, m);
        assert NodeOk(s, m);
      } else if Under(m, n) {
        UnderSpace(m, n);
      }
    }
    forall k | k in s.pt
      ensures EarlyKey(k, n, KERNEL_PML4_START) <==> k.Slot? && k.space == a
    {
      if k.Slot? && k.space == a {
        assert SlotOk(s, k);
        AllUnderRoot(s, Leaf(k.space, k.vpn));
      } else if KeyUnder(k, n) {
        UnderSpace(Leaf(k.space, k.vpn), n);
      }
    }
  }

  lemma GoneEnd(t: State, s: State, u: State, t': State, a: nat)
    requires s == Detach(t, a) && Root(a) in u.at && t' == DropTable(u, Root(a))
    requires u.mem == s.mem && u.spaces == s.spaces
    requires forall m :: m in u.at <==> m in s.at && (m.space != a || m == Root(a))
    requires forall m :: m in u.at ==> u.at[m] == s.at[m]
    requires forall k :: k in u.pt <==> k in s.pt && !(k.Slot? && k.space == a)
    requires forall k :: k in u.pt ==> u.pt[k] == s.pt[k]
    ensures Gone(t, t', a)
  {
    assert t'.at == map m | m in t.at && m.space != a :: t.at[m];
    assert t'.pt == map k | k in t.pt && !(k.Slot? && k.space == a) :: t.pt[k];
    GoneMeaning(t, t', a);
  }

  lemma GoneMeaning(t: State, t': State, a: nat)
    requires t'.mem == t.mem && t'.spaces == t.spaces - {a}
    requires t'.pt == map k | k in t.pt && !(k.Slot? && k.space == a) :: t.pt[k]
    ensures Meaning(t') == map k | k in Meaning(t) && !(k.Slot? && k.space == a) :: Meaning(t)[k]
  {
  }
}
