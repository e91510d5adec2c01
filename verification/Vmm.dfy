/** The kernel's own page tables (kernel/mm/vmm.c): mapping, unmapping, and the
    rollback of a range that cannot be mapped.  Pages and frames are numbers without
    their low 12 bits; a page number has 36 bits. */
module Vmm {
  import opened Paging
  import opened PagingNeed

  const PAGES: nat := 512 * 512 * 512 * 512
  const FRAMES: nat := 0x100_0000_0000

  // --- The tables as a tree ------------------------------------------------------------------------

  /** The entry leads to a table below; a huge page does not, but the PML4 has none. */
  predicate Leads(e: Word, l: nat) {
    e.present && !(e.huge && l < 3)
  }

  /** Entry i of the table at n. */
  ghost function Cell(s: State, n: Node, i: nat): Word {
    if n in s.at && s.at[n] in s.mem && i < |s.mem[s.at[n]]| then s.mem[s.at[n]][i] else ZERO
  }

  ghost predicate FramesOk(s: State) {
    && 0 !in s.free && s.free <= s.mem.Keys
    && (forall f :: f in s.mem ==> |s.mem[f]| == ENTRIES)
    && (forall n :: n in s.at ==> s.at[n] in s.mem && s.at[n] !in s.free && s.at[n] != 0)
    && (forall n, m :: n in s.at && m in s.at && s.at[n] == s.at[m] ==> n == m)
  }

  ghost predicate LinksOk(s: State) {
    && Root(0) in s.at
    && (forall n :: n in s.at ==> n.level <= 3 && (n.level < 3 ==> Parent(n) in s.at))
    && (forall n, i: nat {:trigger Child(n, i)} :: n in s.at && n.level > 0 && i < ENTRIES ==>
          && (Child(n, i) in s.at <==> Leads(Cell(s, n, i), n.level))
          && (Child(n, i) in s.at ==> Cell(s, n, i).addr == s.at[Child(n, i)]))
  }

  ghost predicate TreeOk(s: State) {
    FramesOk(s) && LinksOk(s)
  }

  /** What a page is mapped to. */
  datatype Mapping = Unmapped | Page(e: Word) | Big(level: nat, e: Word)

  /** The translation of page v from the table at level l on. */
  ghost function Walk(s: State, v: nat, l: nat): Mapping {
    var e := Cell(s, Along(0, v, l), Index(v, l));
    if Along(0, v, l) !in s.at || !e.present then Unmapped
    else if l == 0 then Page(e)
    else if !Leads(e, l) then Big(l, e)
    else Walk(s, v, l - 1)
  }

  ghost function Trans(s: State, v: nat): Mapping {
    Walk(s, v, 3)
  }

  ghost predicate SameTrans(s: State, t: State) {
    forall w: nat :: w < PAGES ==> Trans(t, w) == Trans(s, w)
  }

  lemma Step(v: nat, l: nat)
    requires 0 < l <= 3 && v < PAGES
    ensures Child(Along(0, v, l), Index(v, l)) == Along(0, v, l - 1) && Parent(Along(0, v, l - 1)) == Along(0, v, l)
    ensures Along(0, v, 3) == Root(0) && Along(0, v, 0) == Leaf(0, v) && Index(v, 0) == v % ENTRIES
  {
  }

  /** Where a table on the way is there, the walk gets to it. */
  lemma {:induction false} WalkTo(s: State, v: nat, l: nat)
    requires TreeOk(s) && v < PAGES && l <= 3 && Along(0, v, l) in s.at
    ensures Trans(s, v) == Walk(s, v, l)
    decreases 3 - l
  {
    if l < 3 {
      hide FramesOk, Along, Index, Cell;
      Step(v, l + 1);
      assert Parent(Along(0, v, l)) in s.at;
      WalkTo(s, v, l + 1);
    }
  }

  // --- A new table -----------------------------------------------------------------------------------

  function TableEntry(c: nat): Word {
    Word(c, true, true, false, false, false, 0)
  }

  ghost predicate Growable(s: State, n: Node, i: nat, c: nat) {
    && TreeOk(s) && n in s.at && 0 < n.level && i < ENTRIES && c in s.free && !Cell(s, n, i).present
  }

  ghost function Grow(s: State, n: Node, i: nat, c: nat): State
    requires Growable(s, n, i, c)
  {
    s.(mem := s.mem[c := ZeroPage()][s.at[n] := s.mem[s.at[n]][i := TableEntry(c)]],
       free := s.free - {c}, at := s.at[Child(n, i) := c])
  }

  lemma GrowCells(s: State, n: Node, i: nat, c: nat, m: Node, j: nat)
    requires Growable(s, n, i, c) && j < ENTRIES
    ensures n in s.at && n.level > 0 && !Cell(s, n, i).present && Child(n, i) !in s.at && Child(n, i) != n
    ensures Cell(Grow(s, n, i, c), m, j) == if m == n && j == i then TableEntry(c)
                                            else if m == Child(n, i) then ZERO else Cell(s, m, j)
  {
  }

  lemma GrowInv(s: State, n: Node, i: nat, c: nat)
    requires Growable(s, n, i, c)
    ensures TreeOk(Grow(s, n, i, c)) && Stepped(s, Grow(s, n, i, c), Child(n, i), true)
  {
    hide LinksOk, Cell, Leads;
    GrowCells(s, n, i, c, n, i);
    GrowLinks(s, n, i, c);
  }

  lemma NoOrphan(s: State, n: Node, i: nat)
    requires LinksOk(s) && n !in s.at && 0 < n.level <= 3 && i < ENTRIES
    ensures Child(n, i) !in s.at
  {
    ParentOfChild(n, i);
  }

  lemma GrowLinks(s: State, n: Node, i: nat, c: nat)
    requires Growable(s, n, i, c)
    ensures LinksOk(Grow(s, n, i, c))
  {
    var t, k := Grow(s, n, i, c), Child(n, i);
    GrowCells(s, n, i, c, n, i);
    ParentOfChild(n, i);
    hide FramesOk, Cell, Growable;
    forall m, j: nat | m in t.at && m.level > 0 && j < ENTRIES
      ensures Child(m, j) in t.at <==> Leads(Cell(t, m, j), m.level)
      ensures Child(m, j) in t.at ==> Cell(t, m, j).addr == t.at[Child(m, j)]
    {
      GrowCells(s, n, i, c, m, j);
      ParentOfChild(m, j);
      if m == k {
        NoOrphan(s, k, j);
      } else if m != n {
        assert Child(m, j) != k;
      } else {
        assert j != i ==> Child(n, j) != k;
      }
    }
  }

  lemma {:induction false} GrowWalk(s: State, n: Node, i: nat, c: nat, w: nat, l: nat)
    requires Growable(s, n, i, c) && w < PAGES && l <= 3
    ensures Walk(Grow(s, n, i, c), w, l) == Walk(s, w, l)
  {
    hide TreeOk, Along, Index, Growable, Cell;
    GrowCells(s, n, i, c, Along(0, w, l), Index(w, l));
    if l == 0 {
      Step(w, 1);
    } else {
      Step(w, l);
      GrowWalk(s, n, i, c, w, l - 1);
    }
  }

  // --- A leaf entry --------------------------------------------------------------------------------------

  ghost function SetLeaf(s: State, v: nat, e: Word): State
    requires TreeOk(s) && Leaf(0, v) in s.at
  {
    s.(mem := s.mem[s.at[Leaf(0, v)] := s.mem[s.at[Leaf(0, v)]][v % ENTRIES := e]])
  }

  lemma SetCells(s: State, v: nat, e: Word, m: Node, j: nat)
    requires TreeOk(s) && Leaf(0, v) in s.at && j < ENTRIES
    ensures Cell(SetLeaf(s, v, e), m, j) == if m == Leaf(0, v) && j == v % ENTRIES then e else Cell(s, m, j)
  {
  }

  lemma SetInv(s: State, v: nat, e: Word)
    requires TreeOk(s) && Leaf(0, v) in s.at
    ensures TreeOk(SetLeaf(s, v, e))
  {
    var t := SetLeaf(s, v, e);
    forall m, j: nat | m in t.at && m.level > 0 && j < ENTRIES
      ensures Cell(t, m, j) == Cell(s, m, j)
    {
      SetCells(s, v, e, m, j);
    }
  }

  lemma {:induction false} SetWalk(s: State, v: nat, e: Word, w: nat, l: nat)
    requires TreeOk(s) && Leaf(0, v) in s.at && v < PAGES && w < PAGES && w != v && l <= 3
    ensures Walk(SetLeaf(s, v, e), w, l) == Walk(s, w, l)
  {
    SetCells(s, v, e, Along(0, w, l), Index(w, l));
    if l > 0 {
      SetWalk(s, v, e, w, l - 1);
    }
  }

  function Mapped(e: Word): Mapping {
    if e.present then Page(e) else Unmapped
  }

  /** A leaf entry is the translation of its page and of no other. */
  lemma SetTrans(s: State, v: nat, e: Word)
    requires TreeOk(s) && v < PAGES && Leaf(0, v) in s.at
    ensures Trans(s, v) == Mapped(Cell(s, Leaf(0, v), v % ENTRIES))
    ensures TreeOk(SetLeaf(s, v, e)) && Trans(SetLeaf(s, v, e), v) == Mapped(e)
    ensures forall w: nat :: w < PAGES && w != v ==> Trans(SetLeaf(s, v, e), w) == Trans(s, w)
  {
    hide TreeOk, Along, Index, Cell;
    var t := SetLeaf(s, v, e);
    SetInv(s, v, e);
    Step(v, 1);
    WalkTo(s, v, 0);
    WalkTo(t, v, 0);
    SetCells(s, v, e, Leaf(0, v), v % ENTRIES);
    forall w: nat | w < PAGES && w != v
      ensures Trans(t, w) == Trans(s, w)
    {
      SetWalk(s, v, e, w, 3);
    }
  }

  // --- Ranges ------------------------------------------------------------------------------------------------

  /** No page of the range lies in a huge page, and the missing tables can be had. */
  ghost predicate Mappable(s: State, v: nat, n: nat) {
    && (forall w :: v <= w < v + n ==> !Trans(s, w).Big?)
    && |Route(0, v, n) - s.at.Keys| <= |s.free|
  }

  function EntryFor(frame: nat, flags: Word): Word {
    flags.(addr := frame % FRAMES, present := true)
  }

  /** One page is mapped, exactly if it lies in no huge page and the missing tables can
      be had, and no other page is touched; or no page is. */
  ghost predicate PageOutcome(s: State, t: State, v: nat, frame: nat, flags: Word, ok: bool) {
    && (ok <==> !Trans(s, v).Big? && |Path(0, v) - s.at.Keys| <= |s.free|)
    && (ok ==>
          && Stock(t) == Stock(s) && t.at.Keys == s.at.Keys + Path(0, v)
          && Trans(t, v) == Page(EntryFor(frame, flags))
          && (forall w: nat :: w < PAGES && w != v ==> Trans(t, w) == Trans(s, w)))
    && (!ok ==> SameTrans(s, t))
  }

  lemma PageFailed(s: State, t: State, v: nat, frame: nat, flags: Word)
    requires v < PAGES && Made(s, t, 0, v, false) && SameTrans(s, t) && (Trans(s, v).Big? || t.free == {})
    ensures PageOutcome(s, t, v, frame, flags, false)
  {
    hide Path, Trans, Stock;
    if !Trans(s, v).Big? {
      MadeMeans(s, t, 0, v, false);
    }
  }

  lemma PageDone(s: State, t: State, v: nat, frame: nat, flags: Word)
    requires TreeOk(t) && v < PAGES && Made(s, t, 0, v, true) && SameTrans(s, t) && Leaf(0, v) in t.at
    ensures PageOutcome(s, SetLeaf(t, v, EntryFor(frame, flags)), v, frame, flags, true)
    ensures TreeOk(SetLeaf(t, v, EntryFor(frame, flags)))
  {
    hide Path, TreeOk, Trans, Cell;
    SetTrans(t, v, EntryFor(frame, flags));
    MadeMeans(s, t, 0, v, true);
  }

  /** From s to t the n pages from v on were mapped to the frames from frame on. */
  ghost predicate Ranged(s: State, t: State, v: nat, n: nat, frame: nat, flags: Word) {
    forall w: nat :: w < PAGES ==>
      Trans(t, w) == if v <= w < v + n then Page(EntryFor(frame + (w - v), flags)) else Trans(s, w)
  }

  /** From s to t the n pages from v on were unmapped; huge pages stay. */
  ghost predicate Erased(s: State, t: State, v: nat, n: nat) {
    forall w: nat :: w < PAGES ==>
      Trans(t, w) == if v <= w < v + n && Trans(s, w).Page? then Unmapped else Trans(s, w)
  }

  /** The tables for the n pages from v on were made. */
  ghost predicate Paved(s: State, t: State, v: nat, n: nat) {
    Stock(t) == Stock(s) && t.at.Keys == s.at.Keys + Route(0, v, n) && Mappable(s, v, n)
  }

  lemma PavedStart(s: State, v: nat)
    ensures Paved(s, s, v, 0)
  {
    RouteNext(0, v, 0);
  }

  /** One more page can be mapped exactly if n + 1 could from the start. */
  lemma PavedStep(s: State, t: State, u: State, v: nat, n: nat, frame: nat, flags: Word, ok: bool)
    requires Paved(s, t, v, n) && Trans(t, v + n) == Trans(s, v + n)
    requires PageOutcome(t, u, v + n, frame, flags, ok)
    ensures ok <==> Mappable(s, v, n + 1)
    ensures ok ==> Paved(s, u, v, n + 1)
  {
    hide Route, Path, Trans;
    RouteNext(0, v, n);
    ThreeSizes(s.at.Keys, Route(0, v, n), Path(0, v + n));
    assert Mappable(s, v, n + 1) <==>
           !Trans(s, v + n).Big? && |Route(0, v, n + 1) - s.at.Keys| <= |s.free|;
  }

  lemma MappableBelow(s: State, v: nat, i: nat, n: nat)
    requires i <= n && Mappable(s, v, n)
    ensures Mappable(s, v, i)
  {
    hide Route, Trans;
    RouteGrows(0, v, i, n);
    SubsetSize(Route(0, v, i) - s.at.Keys, Route(0, v, n) - s.at.Keys);
  }

  /** After a rollback everything is as before if and only if the pages it covered had
      not been mapped. */
  lemma ErasedSame(s: State, t: State, v: nat, n: nat)
    requires Erased(s, t, v, n) && Mappable(s, v, n) && v + n <= PAGES
    ensures SameTrans(s, t) <==> forall w :: v <= w < v + n ==> Trans(s, w) == Unmapped
  {
    hide Trans, Route;
    if SameTrans(s, t) {
      forall w | v <= w < v + n
        ensures Trans(s, w) == Unmapped
      {
        assert Trans(t, w) == Trans(s, w);
      }
    }
  }

  /** How a range comes out: mapped in full, exactly if it can be; or the most pages
      that can be, done, were mapped and unmapped again. */
  ghost predicate RangeOutcome(s: State, t: State, v: nat, n: nat, frame: nat, flags: Word, ok: bool, done: nat) {
    && (ok <==> Mappable(s, v, n))
    && (ok ==> Ranged(s, t, v, n, frame, flags))
    && (!ok ==>
          && done < n && Mappable(s, v, done) && !Mappable(s, v, done + 1) && Erased(s, t, v, done)
          && (SameTrans(s, t) <==> forall w :: v <= w < v + done ==> Trans(s, w) == Unmapped))
  }

  lemma RangeFailed(s: State, t: State, v: nat, n: nat, frame: nat, flags: Word, i: nat)
    requires i < n && Mappable(s, v, i) && !Mappable(s, v, i + 1) && Erased(s, t, v, i) && v + i <= PAGES
    ensures RangeOutcome(s, t, v, n, frame, flags, false, i)
  {
    hide Mappable, Erased, Trans;
    ErasedSame(s, t, v, i);
    if Mappable(s, v, n) {
      MappableBelow(s, v, i + 1, n);
    }
  }

  lemma RangedNext(s: State, t: State, u: State, v: nat, i: nat, frame: nat, flags: Word)
    requires Ranged(s, t, v, i, frame, flags) && v + i < PAGES && PageOutcome(t, u, v + i, frame + i, flags, true)
    ensures Ranged(s, u, v, i + 1, frame, flags)
  {
    hide Trans, EntryFor;
  }

  lemma RangedErased(s: State, t: State, u: State, v: nat, i: nat, frame: nat, flags: Word)
    requires Ranged(s, t, v, i, frame, flags) && Erased(t, u, v, i) && Mappable(s, v, i)
    ensures Erased(s, u, v, i)
  {
    hide Trans, EntryFor, Route;
  }

  // --- The operations -------------------------------------------------------------------------------------------

  class PageTables {
    var mem: map<nat, seq<Word>>
    var free: set<nat>
    const root: nat
    ghost var at: map<Node, nat>

    ghost function View(): State
      reads this
    {
      State(mem, map[], free, map[], at, map[])
    }

    ghost predicate Valid()
      reads this
    {
      TreeOk(View()) && at[Root(0)] == root
    }

    /** The tables the boot loader left, as a tree. */
    constructor (mem: map<nat, seq<Word>>, free: set<nat>, root: nat, ghost at: map<Node, nat>)
      requires TreeOk(State(mem, map[], free, map[], at, map[])) && at[Root(0)] == root
      ensures Valid() && View() == State(mem, map[], free, map[], at, map[])
    {
      this.mem, this.free, this.root, this.at := mem, free, root, at;
    }

    /** One level of vmm_get_pte: the table below entry i, made on demand; 0 is NULL. */
    method Descend(ghost n: Node, level: nat, table: nat, i: nat, create: bool) returns (child: nat)
      requires Valid() && n in at && at[n] == table && n.level == level > 0 && i < ENTRIES
      modifies this
      ensures Valid() && SameTrans(old(View()), View())
      ensures Stepped(old(View()), View(), Child(n, i), child != 0)
      ensures child != 0 ==> Child(n, i) in at && at[Child(n, i)] == child
      ensures child == 0 || !create ==> View() == old(View())
      ensures child == 0 ==> var e := Cell(old(View()), n, i); !Leads(e, level) && (create && !e.present ==> free == {})
    {
      hide Stepped, Trans;
      ghost var s := View();
      SteppedNot(s, Child(n, i));
      var e := mem[table][i];
      assert e == Cell(s, n, i);
      if e.present && e.huge && level < 3 {
        return 0;
      }
      if e.present {
        return e.addr;
      }
      if !create || free == {} {
        return 0;
      }
      child :| child in free;
      GrowInv(s, n, i, child);
      GrowTrans(s, n, i, child);
      free := free - {child};
      mem := mem[child := ZeroPage()];
      mem := mem[table := mem[table][i := TableEntry(child)]];
      at := at[Child(n, i) := child];
      assert View() == Grow(s, n, i, child);
    }

    /** vmm_get_pte: the page table that holds the entry of page v; 0 is NULL. */
    method GetPte(v: nat, create: bool) returns (table: nat)
      requires Valid() && v < PAGES
      modifies this
      ensures Valid() && SameTrans(old(View()), View()) && Made(old(View()), View(), 0, v, table != 0)
      ensures table != 0 ==> Leaf(0, v) in at && at[Leaf(0, v)] == table
      ensures !create ==> View() == old(View())
      ensures table == 0 ==> !Trans(old(View()), v).Page? && (create ==> Trans(old(View()), v).Big? || free == {})
    {
      hide TreeOk, Along, Index, Stepped, Made, Trans, Walk, Cell;
      Step(v, 3);
      Step(v, 2);
      Step(v, 1);
      ghost var s0 := View();
      RootThere(s0);
      var pdpt := Descend(Along(0, v, 3), 3, root, Index(v, 3), create);
      ghost var s1 := View();
      if pdpt == 0 {
        Stopped(s0, v, 3);
        MadeNone(s0, s1, 0, v);
        return 0;
      }
      var pd := Descend(Along(0, v, 2), 2, pdpt, Index(v, 2), create);
      ghost var s2 := View();
      if pd == 0 {
        Stopped(s1, v, 2);
        MadeOne(s0, s1, s2, 0, v);
        return 0;
      }
      table := Descend(Along(0, v, 1), 1, pd, Index(v, 1), create);
      MadeTwo(s0, s1, s2, View(), 0, v, table != 0);
      if table == 0 {
        Stopped(s2, v, 1);
      }
    }

    /** vmm_map_page.  A page mapped before is overwritten. */
    method MapPage(v: nat, frame: nat, flags: Word) returns (ok: bool)
      requires Valid() && v < PAGES
      modifies this
      ensures Valid() && PageOutcome(old(View()), View(), v, frame, flags, ok)
    {
      hide TreeOk, Made, Trans, Cell, SameTrans, PageOutcome, EntryFor;
      ghost var s := View();
      var table := GetPte(v, true);
      ghost var t := View();
      if table == 0 {
        PageFailed(s, t, v, frame, flags);
        return false;
      }
      LeafSize(t, v);
      PageDone(s, t, v, frame, flags);
      mem := mem[table := mem[table][v % ENTRIES := EntryFor(frame, flags)]];
      assert View() == SetLeaf(t, v, EntryFor(frame, flags));
      return true;
    }

    /** vmm_unmap_page: the frame that was mapped; 0 if none was, or in a huge page. */
    method UnmapPage(v: nat) returns (frame: nat)
      requires Valid() && v < PAGES
      modifies this
      ensures Valid() && at == old(at) && free == old(free)
      ensures var m := Trans(old(View()), v);
              && frame == (if m.Page? then m.e.addr else 0)
              && Trans(View(), v) == if m.Page? then Unmapped else m
      ensures forall w: nat :: w < PAGES && w != v ==> Trans(View(), w) == Trans(old(View()), w)
    {
      hide TreeOk, Made, Trans;
      ghost var s := View();
      var table := GetPte(v, false);
      if table == 0 {
        return 0;
      }
      SetTrans(s, v, ZERO);
      LeafSize(s, v);
      var e := mem[table][v % ENTRIES];
      if !e.present {
        return 0;
      }
      mem := mem[table := mem[table][v % ENTRIES := ZERO]];
      assert View() == SetLeaf(s, v, ZERO);
      return e.addr;
    }

    /** vmm_unmap_pages. */
    method UnmapPages(v: nat, count: nat)
      requires Valid() && v + count <= PAGES
      modifies this
      ensures Valid() && Erased(old(View()), View(), v, count)
    {
      hide TreeOk, Trans;
      var i := 0;
      while i < count
        invariant 0 <= i <= count && Valid() && Erased(old(View()), View(), v, i)
      {
        var _ := UnmapPage(v + i);
        i := i + 1;
      }
    }

    /** vmm_map_pages. */
    method MapPages(v: nat, frame: nat, count: nat, flags: Word) returns (ok: bool, ghost done: nat)
      requires Valid() && v + count <= PAGES
      modifies this
      ensures Valid() && RangeOutcome(old(View()), View(), v, count, frame, flags, ok, done)
    {
      hide TreeOk, Trans, Ranged, Erased, Paved, Mappable, PageOutcome, RangeOutcome;
      ghost var s := View();
      PavedStart(s, v);
      RangedStart(s, v, frame, flags);
      var i := 0;
      while i < count
        invariant 0 <= i <= count && Valid()
        invariant Ranged(s, View(), v, i, frame, flags) && Paved(s, View(), v, i)
      {
        ghost var t := View();
        ok := MapPage(v + i, frame + i, flags);
        MapNext(s, t, View(), v, i, frame, flags, ok);
        if !ok {
          ghost var u := View();
          UnmapPages(v, i);
          RangedErased(s, u, View(), v, i, frame, flags);
          RangeFailed(s, View(), v, count, frame, flags, i);
          return false, i;
        }
        i := i + 1;
      }
      PavedIs(s, View(), v, count);
      RangeDone(s, View(), v, count, frame, flags);
      return true, count;
    }
  }

  lemma GrowTrans(s: State, n: Node, i: nat, c: nat)
    requires Growable(s, n, i, c)
    ensures SameTrans(s, Grow(s, n, i, c))
  {
    hide TreeOk, Growable, Grow, Walk;
    forall w: nat | w < PAGES
      ensures Trans(Grow(s, n, i, c), w) == Trans(s, w)
    {
      GrowWalk(s, n, i, c, w, 3);
    }
  }

  lemma RootThere(s: State)
    requires TreeOk(s)
    ensures Root(0) in s.at
  {
  }

  /** The walk ends at an entry that leads to no table. */
  lemma Stopped(s: State, v: nat, l: nat)
    requires TreeOk(s) && v < PAGES && 0 < l <= 3 && Along(0, v, l) in s.at
    requires !Leads(Cell(s, Along(0, v, l), Index(v, l)), l)
    ensures !Trans(s, v).Page? && (Trans(s, v).Big? <==> Cell(s, Along(0, v, l), Index(v, l)).present)
  {
    hide TreeOk, Along, Index, Cell;
    WalkTo(s, v, l);
  }

  lemma LeafSize(s: State, v: nat)
    requires TreeOk(s) && Leaf(0, v) in s.at
    ensures s.at[Leaf(0, v)] in s.mem && |s.mem[s.at[Leaf(0, v)]]| == ENTRIES
    ensures Cell(s, Leaf(0, v), v % ENTRIES) == s.mem[s.at[Leaf(0, v)]][v % ENTRIES]
  {
  }

  lemma RangedStart(s: State, v: nat, frame: nat, flags: Word)
    ensures Ranged(s, s, v, 0, frame, flags)
  {
  }

  lemma RangedAt(s: State, t: State, v: nat, i: nat, frame: nat, flags: Word)
    requires Ranged(s, t, v, i, frame, flags) && v + i < PAGES
    ensures Trans(t, v + i) == Trans(s, v + i)
  {
  }

  lemma RangedSame(s: State, t: State, u: State, v: nat, i: nat, frame: nat, flags: Word)
    requires Ranged(s, t, v, i, frame, flags) && SameTrans(t, u)
    ensures Ranged(s, u, v, i, frame, flags)
  {
    hide Trans;
  }

  /** The next page of the range. */
  lemma MapNext(s: State, t: State, u: State, v: nat, i: nat, frame: nat, flags: Word, ok: bool)
    requires Ranged(s, t, v, i, frame, flags) && Paved(s, t, v, i) && v + i < PAGES
    requires PageOutcome(t, u, v + i, frame + i, flags, ok)
    ensures Mappable(s, v, i)
    ensures ok ==> Ranged(s, u, v, i + 1, frame, flags) && Paved(s, u, v, i + 1)
    ensures !ok ==> Ranged(s, u, v, i, frame, flags) && !Mappable(s, v, i + 1)
  {
    hide Trans, Ranged, Paved, Mappable, SameTrans, Path, Stock, EntryFor;
    RangedAt(s, t, v, i, frame, flags);
    PavedIs(s, t, v, i);
    PavedStep(s, t, u, v, i, frame + i, flags, ok);
    if ok {
      RangedNext(s, t, u, v, i, frame, flags);
    } else {
      RangedSame(s, t, u, v, i, frame, flags);
    }
  }

  lemma PavedIs(s: State, t: State, v: nat, n: nat)
    requires Paved(s, t, v, n)
    ensures Mappable(s, v, n)
  {
  }

  lemma RangeDone(s: State, t: State, v: nat, n: nat, frame: nat, flags: Word)
    requires Ranged(s, t, v, n, frame, flags) && Mappable(s, v, n)
    ensures RangeOutcome(s, t, v, n, frame, flags, true, n)
  {
  }
}
