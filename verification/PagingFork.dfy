/** Forking a space: how far the copy has come, and what a fork means. */
module PagingFork {
  import opened Paging
  import opened PagingSteps
  import opened PagingInv
  import opened PagingMoves
  import opened PagingSpaces
  import opened PagingPrune
  import opened PagingNeed

  /** Pages covered by one entry of a table at level l. */
  function Span(l: nat): nat {
    if l == 0 then 1 else if l == 1 then 512 else if l == 2 then 512 * 512 else 512 * 512 * 512
  }

  /** First page below the table at n. */
  function Lo(n: Node): nat {
    n.prefix * (if n.level == 0 then 512 else if n.level == 1 then 512 * 512
                else if n.level == 2 then 512 * 512 * 512 else 512 * 512 * 512 * 512)
  }

  /** The virtual address put together from the four loop counters is the page
      the index macros came from. */
  lemma EntryRange(n: Node, i: nat)
    requires n.level <= 3 && i < ENTRIES
    ensures n.level > 0 ==> Lo(Child(n, i)) == Lo(n) + i * Span(n.level)
    ensures n.level > 0 ==> Lo(Child(n, i)) + ENTRIES * Span(n.level - 1) == Lo(n) + (i + 1) * Span(n.level)
    ensures n.level == 0 ==> SlotOf(n, i) == Slot(n.space, Lo(n) + i)
    ensures n.level == 0 ==> Leaf(n.space, Lo(n) + i) == n && (Lo(n) + i) % ENTRIES == i
  {
  }

  /** A page in the range of an entry is reached through that entry. */
  lemma RangeAlong(n: Node, i: nat, v: nat)
    requires 0 < n.level <= 3 && i < ENTRIES && Lo(n) + i * Span(n.level) <= v < Lo(n) + (i + 1) * Span(n.level)
    ensures Along(n.space, v, n.level - 1) == Child(n, i)
  {
  }

  /** Pages below b of src have been copied to dst; nothing else has changed. */
  ghost predicate EagerCopy(m: map<Key, Seen>, m': map<Key, Seen>, src: nat, dst: nat, b: nat) {
    forall k: Key ::
      if k.Slot? && k.space == dst
      then (k in m' <==> k.vpn < b && Slot(src, k.vpn) in m) && (k in m' ==> m'[k] == m[Slot(src, k.vpn)])
      else (k in m' <==> k in m) && (k in m' ==> m'[k] == m[k])
  }

  /** A fork under eager copying: dst shows a copy of every page of src. */
  ghost predicate Forked(m: map<Key, Seen>, m': map<Key, Seen>, src: nat, dst: nat) {
    forall k: Key ::
      if k.Slot? && k.space == dst
      then (k in m' <==> Slot(src, k.vpn) in m) && (k in m' ==> m'[k] == m[Slot(src, k.vpn)])
      else (k in m' <==> k in m) && (k in m' ==> m'[k] == m[k])
  }

  /** The same references to the same frames, apart from slots of dst. */
  ghost predicate Shares(pt: map<Key, Word>, pt': map<Key, Word>, dst: nat) {
    && (forall k :: k in pt ==> k in pt' && pt'[k].addr == pt[k].addr)
    && (forall k :: k in pt' && k !in pt ==> k.Slot? && k.space == dst)
  }

  /** The same references to the same frames, and those under the given keys. */
  ghost predicate Gained(pt: map<Key, Word>, pt': map<Key, Word>, ks: set<Key>) {
    && (forall k :: k in pt ==> k in pt' && pt'[k].addr == pt[k].addr)
    && (forall k :: k in pt' ==> k in pt || k in ks)
  }

  ghost predicate Progress(s: State, t: State, src: nat, dst: nat, b: nat) {
    && t.spaces == s.spaces && src in s.spaces && dst in s.spaces && src != dst
    && InHand !in t.pt && InHand !in s.pt
    && Grown(s.at, t.at, dst)
    && Shares(s.pt, t.pt, dst)
    && EagerCopy(Meaning(s), Meaning(t), src, dst, b)
  }

  /** Tables are only added, and only to the given space. */
  ghost predicate Grown(at: map<Node, nat>, at': map<Node, nat>, a: nat) {
    && (forall n :: n in at ==> n in at' && at'[n] == at[n])
    && (forall n :: n in at' && n !in at ==> n.space == a)
  }

  /** A range without pages of src is passed over. */
  lemma ProgressSkip(s: State, t: State, src: nat, dst: nat, b: nat, b': nat)
    requires Progress(s, t, src, dst, b) && b <= b'
    requires forall v :: b <= v < b' ==> Slot(src, v) !in Meaning(t)
    ensures Progress(s, t, src, dst, b')
  {
  }

  /** Nothing of src is mapped below an absent entry. */
  lemma NothingBelow(t: State, n: Node, i: nat, v: nat)
    requires Tree(t, t.spaces.Keys) && 0 < n.level <= 3 && i < ENTRIES && n.space in t.spaces
    requires Child(n, i) !in t.at && Lo(n) + i * Span(n.level) <= v < Lo(n) + (i + 1) * Span(n.level)
    ensures Slot(n.space, v) !in Meaning(t)
  {
    if Slot(n.space, v) in t.pt {
      RangeAlong(n, i, v);
      AlongIn(t, t.spaces.Keys, n.space, v, n.level - 1);
    }
  }

  /** One page shared and mapped: the copy has come one page further. */
  lemma ProgressPage(s: State, t: State, u: State, src: nat, dst: nat, v: nat, w: Word)
    requires Progress(s, t, src, dst, v)
    requires Slot(src, v) in Meaning(t)
    requires u.spaces == t.spaces && Grown(t.at, u.at, dst) && InHand !in u.pt && Gained(t.pt, u.pt, {Slot(dst, v)})
    requires Meaning(u) == Meaning(t)[Slot(dst, v) := Meaning(t)[Slot(src, v)]]
    ensures Progress(s, u, src, dst, v + 1)
  {
    hide Meaning;
    var m, m', m'' := Meaning(s), Meaning(t), Meaning(u);
    forall k: Key
      ensures if k.Slot? && k.space == dst
              then (k in m'' <==> k.vpn < v + 1 && Slot(src, k.vpn) in m)
                && (k in m'' ==> m''[k] == m[Slot(src, k.vpn)])
              else (k in m'' <==> k in m) && (k in m'' ==> m''[k] == m[k])
    {
      assert Slot(src, v) in m && m'[Slot(src, v)] == m[Slot(src, v)];
    }
  }

  /** A page whose mapping failed: only its flags in src have changed. */
  lemma ProgressSame(s: State, t: State, u: State, src: nat, dst: nat, b: nat)
    requires Progress(s, t, src, dst, b)
    requires u.spaces == t.spaces && Grown(t.at, u.at, dst) && InHand !in u.pt && Gained(t.pt, u.pt, {})
    requires Meaning(u) == Meaning(t)
    ensures Progress(s, u, src, dst, b)
  {
  }

  lemma ProgressEnd(s: State, t: State, src: nat, dst: nat)
    requires Tree(s, s.spaces.Keys) && Progress(s, t, src, dst, USER_PAGES)
    ensures Forked(Meaning(s), Meaning(t), src, dst)
  {
  }

  /** After an aborted fork is dismantled, the frames are as before it began. */
  lemma Restored(s: State, t: State, u: State, all: set<nat>, dst: nat)
    requires Frames(s, all) && Frames(u, all)
    requires Shares(s.pt, t.pt, dst) && Grown(s.at, t.at, dst)
    requires u.at == map m | m in t.at && m.space != dst :: t.at[m]
    requires u.pt == map k | k in t.pt && !(k.Slot? && k.space == dst) :: t.pt[k]
    requires forall m :: m in s.at ==> m.space != dst
    requires forall k :: k in s.pt && k.Slot? ==> k.space != dst
    ensures u.at == s.at && u.refs == s.refs && u.free == s.free
    ensures u.pt.Keys == s.pt.Keys && forall k :: k in s.pt ==> u.pt[k].addr == s.pt[k].addr
  {
    hide Frames;
    assert u.at == s.at;
    assert forall k :: k in u.pt <==> k in s.pt;
    assert forall k :: k in s.pt ==> u.pt[k].addr == s.pt[k].addr;
    SameHolders(s, u, all);
  }

  /** The frame accounting is determined by the tables and the references. */
  lemma SameHolders(s: State, u: State, all: set<nat>)
    requires Frames(s, all) && Frames(u, all) && u.at == s.at
    requires u.pt.Keys == s.pt.Keys && forall k :: k in s.pt ==> u.pt[k].addr == s.pt[k].addr
    ensures u.refs == s.refs && u.free == s.free
  {
    forall f | f in all
      ensures u.refs[f] == s.refs[f] && (f in u.free <==> f in s.free)
    {
      SameHoldersAt(s, u, f);
    }
    hide FrameOk;
    assert u.refs == s.refs;
  }

  lemma SameHoldersAt(s: State, u: State, f: nat)
    requires f in s.mem && f in s.refs && f in u.mem && f in u.refs && FrameOk(s, f) && FrameOk(u, f) && u.at == s.at
    requires u.pt.Keys == s.pt.Keys && forall k :: k in s.pt ==> u.pt[k].addr == s.pt[k].addr
    ensures u.refs[f] == s.refs[f] && (f in u.free <==> f in s.free)
  {
    assert Refs(u.pt, f) == Refs(s.pt, f);
    UserCount(u.pt, f);
    UserCount(s.pt, f);
  }

  /** Sharing page k and mapping it at d keeps every other reference. */
  lemma SharedPlaced(pt: map<Key, Word>, k: Key, cow: Word, d: Key, w: Word, leak: nat)
    requires k in pt && k.Slot? && cow.addr == pt[k].addr && d.Slot? && d !in pt && InHand !in pt
    ensures var pt' := PlacePt(pt[k := cow][InHand := ZERO.(addr := cow.addr)], d, w, leak);
            InHand !in pt' && Gained(pt, pt', {d})
  {
  }

  lemma SharedDropped(pt: map<Key, Word>, k: Key, cow: Word)
    requires k in pt && k.Slot? && cow.addr == pt[k].addr && InHand !in pt
    ensures var pt' := pt[k := cow][InHand := ZERO.(addr := cow.addr)] - {InHand};
            InHand !in pt' && Gained(pt, pt', {})
  {
  }

  // --- What the copy costs -----------------------------------------------------------------

  /** The pages below b have been copied and the tables for them made. */
  ghost predicate Copying(s: State, t: State, src: nat, dst: nat, b: nat) {
    Progress(s, t, src, dst, b) && Built(s, t, src, dst, b)
  }

  /** There are fewer frames than tables to be made for dst. */
  ghost predicate TooFew(s: State, src: nat, dst: nat) {
    |s.free| < |Copied(Meaning(s), src, dst, USER_PAGES) - s.at.Keys|
  }

  lemma CopyingSkip(s: State, t: State, src: nat, dst: nat, b: nat, b': nat)
    requires Copying(s, t, src, dst, b) && b <= b'
    requires forall v :: b <= v < b' ==> Slot(src, v) !in Meaning(t)
    ensures Copying(s, t, src, dst, b')
  {
    hide Meaning, Built;
    ProgressSkip(s, t, src, dst, b, b');
    forall v | b <= v < b'
      ensures Slot(src, v) !in Meaning(s)
    {
      assert Slot(src, v) !in Meaning(t);
    }
    BuiltSkip(s, t, src, dst, b, b');
  }

  /** A page of src seen during the copy was there when it began. */
  lemma SeenBefore(s: State, t: State, src: nat, dst: nat, b: nat, v: nat)
    requires Progress(s, t, src, dst, b) && Slot(src, v) in Meaning(t)
    ensures Slot(src, v) in Meaning(s)
  {
    hide Meaning;
  }

  /** The tables for one more page were made, or the frames ran out on the way. */
  lemma CopyingPage(s: State, t: State, t1: State, u: State, src: nat, dst: nat, v: nat, ok: bool)
    requires Copying(s, t, src, dst, v) && Slot(src, v) in Meaning(t) && v < USER_PAGES
    requires t1.at == t.at && t1.free == t.free && Made(t1, u, dst, v, ok) && (!ok ==> u.free == {})
    ensures ok ==> Built(s, u, src, dst, v + 1)
    ensures !ok ==> TooFew(s, src, dst)
  {
    hide Meaning, Progress, Path, Built;
    SeenBefore(s, t, src, dst, v, v);
    if ok {
      BuiltPage(s, t, u, src, dst, v);
    } else {
      var n :| n in Path(dst, v) && n !in u.at;
      BuiltFails(s, t, u, src, dst, v, n);
    }
  }

  /** From o to s the space dst got its PML4. */
  ghost predicate Began(o: State, s: State, dst: nat) {
    s.at.Keys == o.at.Keys + {Root(dst)} && |s.free| + 1 == |o.free|
  }

  /** A fork costs a PML4 and as many tables as src has on the way to its pages. */
  lemma ForkCost(o: State, s: State, src: nat, dst: nat)
    requires Unknown(o, dst) && Began(o, s, dst) && Meaning(s) == Meaning(o)
    ensures TooFew(s, src, dst) <==> |o.free| < 1 + |Tables(Meaning(o), src)|
  {
    hide Meaning, Copied, Tables;
    var c := Copied(Meaning(s), src, dst, USER_PAGES);
    CopiedNodes(Meaning(s), src, dst, USER_PAGES);
    assert c - s.at.Keys == c;
    SameTables(Meaning(o), src, dst);
  }

  lemma ForkPaid(s: State, t: State, src: nat, dst: nat)
    requires Copying(s, t, src, dst, USER_PAGES)
    ensures Progress(s, t, src, dst, USER_PAGES) && !TooFew(s, src, dst)
  {
    hide Progress, Meaning;
    MadeSize(s, t, Copied(Meaning(s), src, dst, USER_PAGES));
  }

  // --- The pieces of as_clone ------------------------------------------------------------

  lemma ProgressFacts(s: State, t: State, src: nat, dst: nat, b: nat)
    requires Progress(s, t, src, dst, b)
    ensures t.spaces == s.spaces && src in t.spaces && dst in t.spaces && src != dst && InHand !in t.pt
    ensures Slot(dst, b) !in Meaning(t)
    ensures forall n :: n in s.at ==> n in t.at && t.at[n] == s.at[n]
    ensures forall n :: n in t.at && n.space == src ==> n in s.at
  {
  }

  lemma SeenAt(s: State, k: Key)
    requires k in s.pt && k.Slot? && k.space in s.spaces && s.pt[k].addr in s.mem
    ensures k in Meaning(s) && Meaning(s)[k] == Seen(s.mem[s.pt[k].addr], Perm(s.pt[k]))
  {
  }

  /** What the loops find at an entry of a table of src that covers pages b .. b'-1. */
  ghost predicate Found(s: State, t: State, src: nat, dst: nat, n: Node, i: nat, e: Word, b: nat, b': nat) {
    && (n.level > 0 && e.present ==> !e.huge && Child(n, i) in s.at && s.at[Child(n, i)] == e.addr)
    && (n.level == 0 && e.present ==> Slot(src, b) in t.pt && Leaf(src, b) == n && b < USER_PAGES)
    && (!e.present ==> Copying(s, t, src, dst, b'))
  }

  lemma CloneInner(s: State, t: State, src: nat, dst: nat, n: Node, i: nat, b: nat, b': nat)
    requires Tree(t, t.spaces.Keys) && Copying(s, t, src, dst, b) && n in s.at && n.space == src && 0 < n.level <= 3
    requires i < Width(n) && b == Lo(n) + i * Span(n.level) && b' == Lo(n) + (i + 1) * Span(n.level)
    ensures n in t.at && t.at[n] == s.at[n] && t.at[n] in t.mem && |t.mem[t.at[n]]| == ENTRIES
    ensures Found(s, t, src, dst, n, i, t.mem[t.at[n]][i], b, b')
  {
    hide Progress, Built, Meaning, Tree;
    ProgressFacts(s, t, src, dst, b);
    InnerEntry(t, t.spaces.Keys, n, i);
    if !t.mem[t.at[n]][i].present {
      forall v | b <= v < b'
        ensures Slot(src, v) !in Meaning(t)
      {
        NothingBelow(t, n, i, v);
      }
      hide Lo, Span;
      CopyingSkip(s, t, src, dst, b, b');
    }
  }

  lemma CloneLeaf(s: State, t: State, src: nat, dst: nat, n: Node, i: nat, b: nat)
    requires Tree(t, t.spaces.Keys) && Copying(s, t, src, dst, b) && n in s.at && n.space == src && n.level == 0
    requires i < ENTRIES && Leaf(src, b) == n && b % ENTRIES == i
    ensures n in t.at && t.at[n] == s.at[n] && t.at[n] in t.mem && |t.mem[t.at[n]]| == ENTRIES
    ensures Found(s, t, src, dst, n, i, t.mem[t.at[n]][i], b, b + 1)
  {
    hide Progress, Built, Meaning, Tree;
    ProgressFacts(s, t, src, dst, b);
    LeafEntry(t, t.spaces.Keys, src, b);
    if t.mem[t.at[n]][i].present {
      SlotIsPresent(t, t.spaces.Keys, Slot(src, b));
    } else {
      NotSeen(t, Slot(src, b));
      CopyingSkip(s, t, src, dst, b, b + 1);
    }
  }

  lemma CloneEntry(s: State, t: State, all: set<nat>, kernel: seq<Word>, src: nat, dst: nat, n: Node, i: nat, b: nat,
                   b': nat)
    requires Inv(t, all, kernel) && Copying(s, t, src, dst, b) && n in s.at && n.space == src && n.level <= 3
    requires i < Width(n) && b == Lo(n) + i * Span(n.level) && b' == Lo(n) + (i + 1) * Span(n.level)
    ensures n in t.at && t.at[n] == s.at[n] && t.at[n] in t.mem && |t.mem[t.at[n]]| == ENTRIES
    ensures Found(s, t, src, dst, n, i, t.mem[t.at[n]][i], b, b')
  {
    hide Frames, Tree, Exclusive, KernelHalf, Roots, Copying;
    if n.level > 0 {
      CloneInner(s, t, src, dst, n, i, b, b');
    } else {
      EntryRange(n, i);
      CloneLeaf(s, t, src, dst, n, i, b);
    }
  }

  lemma NotSeen(s: State, k: Key)
    requires k !in s.pt
    ensures k !in Meaning(s)
  {
  }

  lemma CloneStart(o: State, s: State, all: set<nat>, kernel: seq<Word>, src: nat, dst: nat)
    requires Inv(s, all, kernel) && Unknown(o, dst) && src in o.spaces && InHand !in o.pt
    requires s.pt == o.pt && s.spaces.Keys == o.spaces.Keys + {dst}
    ensures Root(src) in s.at && s.at[Root(src)] == s.spaces[src].cr3 && Lo(Root(src)) == 0
    ensures Copying(s, s, src, dst, 0)
  {
    BuiltStart(s, src, dst);
    hide Built;
  }

  lemma CloneDone(o: State, s: State, t: State, all: set<nat>, kernel: seq<Word>, src: nat, dst: nat)
    requires Inv(s, all, kernel) && Progress(s, t, src, dst, USER_PAGES) && Meaning(s) == Meaning(o)
    ensures Forked(Meaning(o), Meaning(t), src, dst)
    ensures t.spaces == s.spaces && InHand !in t.pt
    ensures Grown(s.at, t.at, dst) && Shares(s.pt, t.pt, dst)
  {
    hide Frames, Exclusive, KernelHalf, Roots, Meaning;
    ProgressEnd(s, t, src, dst);
  }

  /** An aborted fork, dismantled, leaves spaces, counts, free frames and tables
      as they were and every page showing what it showed. */
  lemma CloneUndone(o: State, s: State, t: State, u: State, all: set<nat>, kernel: seq<Word>, src: nat, dst: nat,
                    b: nat)
    requires Inv(o, all, kernel) && Inv(u, all, kernel) && Unknown(o, dst) && InHand !in o.pt
    requires dst in s.spaces && s.spaces == o.spaces[dst := s.spaces[dst]]
    requires s.pt == o.pt && Grown(o.at, s.at, dst) && Meaning(s) == Meaning(o)
    requires Progress(s, t, src, dst, b) && Gone(t, u, dst)
    ensures u.spaces == o.spaces && u.refs == o.refs && u.free == o.free && u.at == o.at
    ensures InHand !in u.pt && u.pt.Keys == o.pt.Keys
    ensures Meaning(u) == Meaning(o)
  {
    hide Frames, Tree, Exclusive, KernelHalf, Roots, Meaning;
    Restored(o, t, u, all, dst);
    assert u.spaces == o.spaces;
    assert forall k :: k in Meaning(o) ==> !(k.Slot? && k.space == dst) by {
      OnlyKnown(o, dst);
    }
  }

  lemma OnlyKnown(o: State, a: nat)
    requires Unknown(o, a)
    ensures forall k :: k in Meaning(o) ==> !(k.Slot? && k.space == a)
  {
  }
}
