/** The address-space code of kernel/mm/as.c, the copy-on-write fault of
    kernel/mm/fault.c and the reference counting of kernel/mm/pmm.c.

    Addresses are frame and page numbers (addresses without their low 12 bits);
    frame 0 is the null pointer and is never handed out. */
module AddressSpaces {
  import opened Paging
  import opened PagingSteps
  import opened PagingInv
  import opened PagingNeed
  import opened PagingMoves
  import opened PagingSpaces
  import opened PagingPrune
  import opened PagingFork

  class Machine {
    var mem: map<nat, seq<Word>>
    var refs: map<nat, nat>
    var free: set<nat>
    var spaces: map<nat, Space>
    var nextId: nat
    const kernel: seq<Word>
    ghost const all: set<nat>
    ghost var at: map<Node, nat>
    ghost var pt: map<Key, Word>
    ghost var leaks: nat

    ghost function View(): State
      reads this
    {
      State(mem, refs, free, spaces, at, pt)
    }

    ghost predicate Valid()
      reads this
    {
      Inv(View(), all, kernel) && Named(View(), nextId, leaks)
    }

    /** All frames free, no space yet. */
    constructor (frames: set<nat>, kernelPml4: seq<Word>)
      requires 0 !in frames && |kernelPml4| == ENTRIES
      ensures Valid() && Settled(View()) && free == all == frames && kernel == kernelPml4
      ensures spaces == map[] && pt == map[] && leaks == 0
    {
      mem := map f | f in frames :: ZeroPage();
      refs := map f | f in frames :: 0;
      free := frames;
      spaces := map[];
      nextId := 0;
      kernel := kernelPml4;
      all := frames;
      at, pt, leaks := map[], map[], 0;
    }

    // --- Frames -----------------------------------------------------------------------

    /** alloc_page: any free frame; 0 exactly when there is none. */
    method AllocPage() returns (f: nat)
      modifies this`refs, this`free
      ensures f == 0 ==> refs == old(refs) && free == old(free)
      ensures 0 !in old(free) ==> (f == 0 <==> old(free) == {})
      ensures f != 0 ==> f in old(free) && refs == old(refs)[f := 1] && free == old(free) - {f}
    {
      if free == {} {
        return 0;
      }
      f :| f in free;
      if f != 0 {
        refs := refs[f := 1];
        free := free - {f};
      }
    }

    /** page_put_phys: drop a reference, free the frame with the last one. */
    method PutPage(f: nat)
      requires f in refs
      modifies this`refs, this`free
      ensures var n := if old(refs)[f] == 0 then 0 else old(refs)[f] - 1;
              refs == old(refs)[f := n] && free == (if n == 0 then old(free) + {f} else old(free))
    {
      var n := if refs[f] == 0 then 0 else refs[f] - 1;
      refs := refs[f := n];
      if n == 0 {
        FreePage(f);
      }
    }

    /** free_page. */
    method FreePage(f: nat)
      modifies this`refs, this`free
      ensures refs == old(refs)[f := 0] && free == old(free) + {f}
    {
      refs := refs[f := 0];
      free := free + {f};
    }

    method ZeroFrame(f: nat)
      requires f in mem && |mem[f]| == ENTRIES
      modifies this`mem
      ensures mem == old(mem)[f := ZeroPage()]
    {
      var i := 0;
      while i < ENTRIES
        invariant 0 <= i <= ENTRIES
        invariant mem.Keys == old(mem).Keys && |mem[f]| == ENTRIES
        invariant forall j :: 0 <= j < i ==> mem[f][j] == ZERO
        invariant forall g :: g in mem && g != f ==> mem[g] == old(mem)[g]
      {
        mem := mem[f := mem[f][i := ZERO]];
        i := i + 1;
      }
      assert mem[f] == ZeroPage();
    }

    method CopyFrame(dst: nat, src: nat)
      requires dst in mem && src in mem && dst != src && |mem[dst]| == |mem[src]| == ENTRIES
      modifies this`mem
      ensures mem == old(mem)[dst := old(mem)[src]]
    {
      var i := 0;
      while i < ENTRIES
        invariant 0 <= i <= ENTRIES
        invariant mem.Keys == old(mem).Keys && |mem[dst]| == ENTRIES
        invariant forall j :: 0 <= j < i ==> mem[dst][j] == old(mem)[src][j]
        invariant forall g :: g in mem && g != dst ==> mem[g] == old(mem)[g]
      {
        mem := mem[dst := mem[dst][i := mem[src][i]]];
        i := i + 1;
      }
      assert mem[dst] == old(mem)[src];
    }

    // --- The walk -----------------------------------------------------------------------

    /** One level of as_get_pte: the table below entry i, made on demand; 0 is NULL. */
    method Descend(ghost n: Node, level: nat, table: nat, i: nat, create: bool) returns (child: nat)
      requires Valid() && n in at && at[n] == table && n.level == level > 0 && n.space in spaces && i < Width(n)
      modifies this`mem, this`refs, this`free, this`at
      ensures Valid()
      ensures child == 0 ==> View() == old(View()) && Child(n, i) !in at && (create ==> free == {})
      ensures child != 0 ==> Child(n, i) in at && at[Child(n, i)] == child
      ensures !create ==> View() == old(View())
      ensures Grown(old(at), at, n.space)
      ensures Stepped(old(View()), View(), Child(n, i), child != 0)
      ensures Meaning(View()) == Meaning(old(View()))
      ensures DataKept(old(View()), View())
    {
      hide Frames, Tree, Exclusive, KernelHalf, Roots, Meaning, Named, Stepped;
      InnerEntry(View(), spaces.Keys, n, i);
      NonNull(View(), all);
      SteppedNot(View(), Child(n, i));
      var e := mem[table][i];
      if e.present && !(e.huge && level < 3) {
        return e.addr;
      }
      if e.present || !create {
        return 0;
      }
      child := AllocPage();
      if child == 0 {
        return 0;
      }
      GrowInv(old(View()), all, kernel, n, i, child);
      GrowData(old(View()), all, n, i, child);
      SteppedGrow(old(View()), n, i, child);
      ZeroFrame(child);
      mem := mem[table := mem[table][i := TableEntry(child)]];
      at := at[Child(n, i) := child];
      assert View() == Grow(old(View()), n, i, child);
      NamedKnown(old(View()), nextId, leaks, n.space);
      NamedGrows(old(View()), View(), n.space, nextId, leaks);
    }

    /** as_get_pte: the page table that holds the entry of page v; 0 is NULL. */
    method GetPte(a: nat, v: nat, create: bool) returns (table: nat)
      requires Valid() && a in spaces && v < USER_PAGES
      modifies this`mem, this`refs, this`free, this`at
      ensures Valid()
      ensures table != 0 ==> Leaf(a, v) in at && at[Leaf(a, v)] == table
      ensures table == 0 ==> Slot(a, v) !in pt && (create ==> free == {})
      ensures !create ==> View() == old(View())
      ensures Grown(old(at), at, a) && Made(old(View()), View(), a, v, table != 0)
      ensures Meaning(View()) == Meaning(old(View()))
      ensures DataKept(old(View()), View())
    {
      hide Frames, Tree, Exclusive, KernelHalf, Meaning, Named;
      AlongStep(a, v, 3);
      AlongStep(a, v, 2);
      AlongStep(a, v, 1);
      hide Along, Index, Grown, Stepped, Made, DataKept;
      ghost var s0 := View();
      var pml4 := spaces[a].cr3;
      var pdpt := Descend(Along(a, v, 3), 3, pml4, Index(v, 3), create);
      ghost var s1 := View();
      if pdpt == 0 {
        Unmapped(View(), spaces.Keys, a, v, 2);
        MadeNone(s0, s1, a, v);
        return 0;
      }
      var pd := Descend(Along(a, v, 2), 2, pdpt, Index(v, 2), create);
      ghost var s2 := View();
      KeptGrown(s0, s1, s2, a);
      if pd == 0 {
        Unmapped(View(), spaces.Keys, a, v, 1);
        MadeOne(s0, s1, s2, a, v);
        return 0;
      }
      table := Descend(Along(a, v, 1), 1, pd, Index(v, 1), create);
      KeptGrown(s0, s2, View(), a);
      MadeTwo(s0, s1, s2, View(), a, v, table != 0);
      if table == 0 {
        Unmapped(View(), spaces.Keys, a, v, 0);
        return 0;
      }
      NonNull(View(), all);
    }

    lemma KeptGrown(s: State, t: State, u: State, a: nat)
      requires DataKept(s, t) && DataKept(t, u) && Grown(s.at, t.at, a) && Grown(t.at, u.at, a) && t.pt == s.pt
      ensures DataKept(s, u) && Grown(s.at, u.at, a)
    {
    }

    /** as_get_phys on user space: the page-table tree looked up as a map. */
    method GetPhys(a: nat, virt: nat) returns (phys: nat)
      requires Valid() && a in spaces && virt / 4096 < USER_PAGES
      ensures phys == if Slot(a, virt / 4096) in pt then pt[Slot(a, virt / 4096)].addr * 4096 + virt % 4096 else 0
    {
      hide Frames, Tree, Exclusive, KernelHalf, Meaning, Named;
      var v := virt / 4096;
      var table := Walk(a, v);
      if table == 0 {
        return 0;
      }
      LeafEntry(View(), spaces.Keys, a, v);
      var e := mem[table][v % ENTRIES];
      if !e.present {
        return 0;
      }
      return e.addr * 4096 + virt % 4096;
    }

    /** The read-only walk of as_get_phys and get_pte_for_addr. */
    method Walk(a: nat, v: nat) returns (table: nat)
      requires Valid() && a in spaces && v < USER_PAGES
      ensures table != 0 ==> Leaf(a, v) in at && at[Leaf(a, v)] == table
      ensures table == 0 ==> Slot(a, v) !in pt
    {
      hide Frames, Tree, Exclusive, KernelHalf, Meaning, Named;
      AlongStep(a, v, 3);
      AlongStep(a, v, 2);
      AlongStep(a, v, 1);
      hide Along, Index;
      var pml4 := spaces[a].cr3;
      InnerEntry(View(), spaces.Keys, Along(a, v, 3), Index(v, 3));
      if !mem[pml4][Index(v, 3)].present {
        Unmapped(View(), spaces.Keys, a, v, 2);
        return 0;
      }
      var pdpt := mem[pml4][Index(v, 3)].addr;
      InnerEntry(View(), spaces.Keys, Along(a, v, 2), Index(v, 2));
      if !mem[pdpt][Index(v, 2)].present || mem[pdpt][Index(v, 2)].huge {
        Unmapped(View(), spaces.Keys, a, v, 1);
        return 0;
      }
      var pd := mem[pdpt][Index(v, 2)].addr;
      InnerEntry(View(), spaces.Keys, Along(a, v, 1), Index(v, 1));
      if !mem[pd][Index(v, 1)].present || mem[pd][Index(v, 1)].huge {
        Unmapped(View(), spaces.Keys, a, v, 0);
        return 0;
      }
      table := mem[pd][Index(v, 1)].addr;
      NonNull(View(), all);
    }

    lemma Unmapped(s: State, live: set<nat>, a: nat, v: nat, l: nat)
      requires Tree(s, live) && a in live && l <= 3 && Along(a, v, l) !in s.at
      ensures Slot(a, v) !in s.pt
    {
    }

    /** as_map_page: the frame in hand goes into the slot of page v.  A frame
        already mapped there is overwritten, and its reference is lost. */
    method MapPage(a: nat, v: nat, frame: nat, flags: Word) returns (ok: bool)
      requires Valid() && a in spaces && v < USER_PAGES
      requires InHand in pt && pt[InHand].addr == frame
      requires flags.writable ==> Refs(pt, frame) == {InHand}
      modifies this`mem, this`refs, this`free, this`at, this`pt, this`leaks
      ensures Valid() && Grown(old(at), at, a) && frame in old(mem)
      ensures Made(old(View()), View(), a, v, ok)
      ensures !ok ==> free == {} && pt == old(pt) && leaks == old(leaks) && Meaning(View()) == Meaning(old(View()))
      ensures ok ==> var w := flags.(addr := frame, present := true);
                && pt == PlacePt(old(pt), Slot(a, v), w, old(leaks))
                && leaks == (if Slot(a, v) in old(pt) then old(leaks) + 1 else old(leaks))
                && Meaning(View()) == Meaning(old(View()))[Slot(a, v) := Seen(old(mem)[frame], Perm(w))]
    {
      hide Frames, Tree, Exclusive, KernelHalf, Roots, Meaning, Refs, Named, Path, Made;
      FrameIn(View(), all, InHand);
      NamedKnown(View(), nextId, leaks, a);
      var table := GetPte(a, v, true);
      if table == 0 {
        return false;
      }
      var w := flags.(addr := frame, present := true);
      ghost var s := View();
      assert s.mem[frame] == old(mem)[frame];
      PlaceInv(s, all, kernel, a, v, w, leaks);
      mem := mem[table := mem[table][v % ENTRIES := w]];
      pt := PlacePt(pt, Slot(a, v), w, leaks);
      assert View() == SetLeaf(s, a, v, w, pt);
      MadeSame(old(View()), s, View(), a, v);
      NamedPlaced(s, View(), Slot(a, v), w, nextId, leaks);
      leaks := if Slot(a, v) in s.pt then leaks + 1 else leaks;
      return true;
    }

    /** as_unmap_page: the frame that was mapped (now in hand), or 0. */
    method UnmapPage(a: nat, v: nat) returns (frame: nat)
      requires Valid() && a in spaces && v < USER_PAGES && InHand !in pt
      modifies this`mem, this`pt
      ensures Valid()
      ensures frame == 0 <==> Slot(a, v) !in old(pt)
      ensures frame == 0 ==> View() == old(View())
      ensures frame != 0 ==>
                && frame == old(pt)[Slot(a, v)].addr
                && pt == UnplacePt(old(pt), Slot(a, v))
                && Meaning(View()) == Meaning(old(View())) - {Slot(a, v)}
    {
      hide Frames, Tree, Exclusive, KernelHalf, Roots, Meaning, Refs, Named;
      NonNull(View(), all);
      var table := Walk(a, v);
      if table == 0 {
        return 0;
      }
      LeafEntry(View(), spaces.Keys, a, v);
      var e := mem[table][v % ENTRIES];
      if !e.present {
        return 0;
      }
      UnplaceInv(View(), all, kernel, a, v);
      mem := mem[table := mem[table][v % ENTRIES := ZERO]];
      pt := UnplacePt(pt, Slot(a, v));
      assert View() == SetLeaf(old(View()), a, v, ZERO, pt);
      NamedLess(old(View()), View(), nextId, leaks);
      return e.addr;
    }

    // --- Pages of a process ----------------------------------------------------------

    /** as_alloc_page: a zeroed page at v. */
    method AllocUserPage(a: nat, v: nat, flags: Word) returns (ok: bool)
      requires Valid() && a in spaces && InHand !in pt
      modifies this`mem, this`refs, this`free, this`at, this`pt, this`leaks
      ensures Valid() && InHand !in pt && Grown(old(at), at, a)
      ensures Afforded(old(View()), View(), a, v, ok)
      ensures !ok ==> pt == old(pt) && leaks == old(leaks) && Meaning(View()) == Meaning(old(View()))
      ensures ok ==>
                Meaning(View()) ==
                Meaning(old(View()))[Slot(a, v) := Seen(ZeroPage(), Perm(flags.(user := true, present := true)))]
      ensures ok ==> v < USER_PAGES && leaks == (if Slot(a, v) in old(pt) then old(leaks) + 1 else old(leaks))
      ensures SlotsBut(old(pt), pt, Slot(a, v))
    {
      hide Frames, Tree, Exclusive, KernelHalf, Roots, Meaning, Refs, Named, Made, Afforded, Grown, PlacePt, SlotsBut;
      if v >= USER_PAGES {
        NotAfforded(View(), a, v);
        SameBut(View(), a, Slot(a, v));
        return false;
      }
      NonNull(View(), all);
      var frame := AllocPage();
      if frame == 0 {
        NotAfforded(View(), a, v);
        SameBut(View(), a, Slot(a, v));
        return false;
      }
      ZeroFrame(frame);
      TakeInv(old(View()), all, kernel, frame, ZeroPage());
      pt := pt[InHand := ZERO.(addr := frame)];
      assert View() == Take(old(View()), frame, ZeroPage());
      NamedLess(old(View()), View(), nextId, leaks);
      ghost var taken := View();
      ok := MapPage(a, v, frame, flags.(user := true));
      if ok {
        TakenMade(old(View()), taken, View(), frame, a, v);
        PlacedBut(old(pt), ZERO.(addr := frame), Slot(a, v), flags.(user := true, addr := frame, present := true),
                  old(leaks));
      } else {
        ghost var held := View();
        PutInv(held, all, kernel);
        LastRef(held, all, frame);
        FreePage(frame);
        pt := pt - {InHand};
        assert pt == old(pt);
        assert View() == Put(held, InHand);
        GivenBack(old(View()), taken, held, View(), frame, a, v);
        SameBut(View(), a, Slot(a, v));
        NamedLess(held, View(), nextId, leaks);
      }
    }

    /** as_free_page: unmap, then drop the reference. */
    method FreeUserPage(a: nat, v: nat)
      requires Valid() && a in spaces && v < USER_PAGES && InHand !in pt
      modifies this`mem, this`refs, this`free, this`pt
      ensures Valid()
      ensures pt == old(pt) - {Slot(a, v)}
      ensures Meaning(View()) == Meaning(old(View())) - {Slot(a, v)}
    {
      hide Inv, Named, Meaning, Refs;
      if Slot(a, v) !in pt {
        Absent(View(), Slot(a, v));
      }
      var frame := UnmapPage(a, v);
      if frame != 0 {
        Release(frame);
      }
    }

    /** page_put_phys of the frame in hand. */
    method Release(frame: nat)
      requires Valid() && InHand in pt && pt[InHand].addr == frame
      modifies this`refs, this`free, this`pt
      ensures Valid() && pt == old(pt) - {InHand} && Meaning(View()) == Meaning(old(View()))
    {
      hide Inv, Named, Meaning, Refs;
      ghost var held := View();
      PutInv(held, all, kernel);
      PutPage(frame);
      pt := pt - {InHand};
      assert View() == Put(held, InHand);
      NamedLess(held, View(), nextId, leaks);
    }

    /** as_alloc_pages: all pages of the range, or it fails after done pages, which it
        frees again; done is the most pages that could be afforded.  Pages of the range
        that were mapped before are then gone, so the rollback is exact if and only if
        the first done pages were not mapped. */
    method AllocUserPages(a: nat, v: nat, count: nat, flags: Word) returns (ok: bool, ghost done: nat)
      requires Valid() && a in spaces && InHand !in pt
      modifies this`mem, this`refs, this`free, this`at, this`pt, this`leaks
      ensures Valid() && InHand !in pt
      ensures RangeOutcome(old(View()), View(), a, v, count, flags, ok, done)
      ensures Vacant(Meaning(old(View())), a, v, count) ==> leaks == old(leaks)
    {
      hide *;
      ghost var s := View();
      PlacingStart(s, a, v, flags);
      var i := 0;
      while i < count
        invariant 0 <= i <= count && Valid() && InHand !in pt && Placing(s, View(), a, v, i, flags)
        invariant Vacant(Meaning(s), a, v, count) ==> leaks == old(leaks)
      {
        ok := AllocNext(s, a, v, i, count, flags);
        if !ok {
          RollBack(s, a, v, i, count, flags);
          return false, i;
        }
        i := i + 1;
      }
      RangeDone(s, View(), a, v, count, flags);
      return true, count;
    }

    /** Page i of the range. */
    method AllocNext(ghost s: State, a: nat, v: nat, i: nat, ghost count: nat, flags: Word) returns (ok: bool)
      requires Valid() && a in spaces && InHand !in pt && i < count && Placing(s, View(), a, v, i, flags)
      modifies this`mem, this`refs, this`free, this`at, this`pt, this`leaks
      ensures Valid() && InHand !in pt && (Vacant(Meaning(s), a, v, count) ==> leaks == old(leaks))
      ensures ok ==> Placing(s, View(), a, v, i + 1, flags)
      ensures !ok ==> Stuck(s, View(), a, v, i)
    {
      hide Inv, Named, Meaning, Filled, Emptied, Vacant, Affordable, Afforded, Paid, Grown, SlotsBut;
      ghost var t := View();
      InvVisible(t, all, kernel, Slot(a, v + i));
      FilledStep(Meaning(s), Meaning(t), a, v, i, count, flags);
      ok := AllocUserPage(a, v + i, flags);
      PaidStep(s, t, View(), a, v, i, ok);
      PaidAll(s, t, a, v, i);
    }

    /** The first i pages of the range are freed again. */
    method RollBack(ghost s: State, a: nat, v: nat, i: nat, ghost count: nat, flags: Word)
      requires Valid() && a in spaces && InHand !in pt && i < count && Stuck(s, View(), a, v, i)
      modifies this`mem, this`refs, this`free, this`pt
      ensures Valid() && InHand !in pt && RangeOutcome(s, View(), a, v, count, flags, false, i)
    {
      hide Inv, Named, Meaning, Emptied, Vacant, Cleared, Affordable, RangeOutcome;
      var j := 0;
      while j < i
        invariant 0 <= j <= i && Valid() && InHand !in pt
        invariant Emptied(Meaning(s), Meaning(View()), a, v, j, i)
      {
        EmptiedStep(Meaning(s), Meaning(View()), a, v, j, i);
        FreeUserPage(a, v + j);
        j := j + 1;
      }
      EmptiedEnd(Meaning(s), Meaning(View()), a, v, i);
      RangeFailed(s, View(), a, v, count, flags, i);
    }

    // --- Copy on write ---------------------------------------------------------------

    /** handle_cow_fault: give the space its own writable copy of page v. */
    method HandleCowFault(a: nat, v: nat) returns (ok: bool)
      requires Valid() && a in spaces && v < USER_PAGES && InHand !in pt
      modifies this`mem, this`refs, this`free, this`pt
      ensures Valid() && InHand !in pt
      ensures Meaning(View()) == Meaning(old(View()))
      ensures ok ==> Slot(a, v) in pt && pt[Slot(a, v)].writable
      ensures !ok ==> View() == old(View())
      ensures !ok <==> Slot(a, v) !in old(pt) || !old(pt)[Slot(a, v)].cow
                       || (|Refs(old(pt), old(pt)[Slot(a, v)].addr)| > 1 && old(free) == {})
      ensures forall k :: k in old(pt) && k != Slot(a, v) ==> k in pt && pt[k] == old(pt)[k]
      ensures forall k :: k in pt ==> k in old(pt)
    {
      hide Frames, Tree, Exclusive, KernelHalf, Roots, Meaning, Refs, Named;
      NonNull(View(), all);
      var table := Walk(a, v);
      if table == 0 {
        return false;
      }
      LeafEntry(View(), spaces.Keys, a, v);
      var e := mem[table][v % ENTRIES];
      if !e.present || !e.cow {
        return false;
      }
      var frame := e.addr;
      ghost var k := Slot(a, v);
      CountOf(View(), all, k);
      var w := e.(writable := true, cow := false);
      if refs[frame] == 1 {
        FlagInv(View(), all, kernel, a, v, w);
        mem := mem[table := mem[table][v % ENTRIES := w]];
        pt := pt[k := w];
        assert View() == SetLeaf(old(View()), a, v, w, pt);
        NamedLess(old(View()), View(), nextId, leaks);
        return true;
      }
      ok := MakeCopy(a, v, table, frame, w);
    }

    /** The second half of handle_cow_fault, when the frame is shared. */
    method MakeCopy(a: nat, v: nat, table: nat, frame: nat, w: Word) returns (ok: bool)
      requires Valid() && a in spaces && InHand !in pt && Leaf(a, v) in at && at[Leaf(a, v)] == table
      requires Slot(a, v) in pt && pt[Slot(a, v)].cow && pt[Slot(a, v)].addr == frame
      requires w == pt[Slot(a, v)].(writable := true, cow := false)
      requires |Refs(pt, frame)| > 1
      modifies this`mem, this`refs, this`free, this`pt
      ensures Valid()
      ensures Meaning(View()) == Meaning(old(View()))
      ensures !ok <==> old(free) == {}
      ensures !ok ==> View() == old(View())
      ensures ok ==> exists copy :: pt == old(pt)[Slot(a, v) := w.(addr := copy)]
    {
      hide Frames, Tree, Exclusive, KernelHalf, Roots, Meaning, Refs, Named;
      NonNull(View(), all);
      FrameIn(View(), all, Slot(a, v));
      var copy := AllocPage();
      if copy == 0 {
        return false;
      }
      ghost var k := Slot(a, v);
      CopyInv(old(View()), all, kernel, a, v, copy);
      CountOf(old(View()), all, k);
      CopyFrame(copy, frame);
      pt := pt[InHand := ZERO.(addr := copy)];
      assert View() == CopyHeld(old(View()), a, v, copy);
      ghost var t := View();
      mem := mem[table := mem[table][v % ENTRIES := w.(addr := copy)]];
      pt := SwapPt(pt, k, w.(addr := copy));
      ghost var u := View();
      assert u == SetLeaf(t, a, v, w.(addr := copy), SwapPt(t.pt, k, w.(addr := copy)));
      PutPage(frame);
      pt := pt - {InHand};
      assert View() == Put(u, InHand);
      NamedLess(old(View()), View(), nextId, leaks);
      return true;
    }

    lemma CountOf(s: State, frames: set<nat>, k: Key)
      requires Frames(s, frames) && k in s.pt
      ensures s.pt[k].addr in s.refs && s.pt[k].addr in s.mem && |s.mem[s.pt[k].addr]| == ENTRIES
      ensures s.refs[s.pt[k].addr] == |Refs(s.pt, s.pt[k].addr)| > 0
    {
      PutFrames(s, frames, k);
      PageSizes(s, frames);
    }

    /** A user store of word x at offset i of page v, with the fault it may take. */
    method UserStore(a: nat, v: nat, i: nat, x: Word) returns (ok: bool)
      requires Valid() && a in spaces && v < USER_PAGES && i < ENTRIES && InHand !in pt
      modifies this`mem, this`refs, this`free, this`pt
      ensures Valid() && InHand !in pt
      ensures ok ==> Stored(Meaning(old(View())), Meaning(View()), Slot(a, v), i, x)
      ensures !ok ==> View() == old(View())
      ensures forall k :: k in pt ==> k in old(pt)
      ensures ok <==> Storable(old(View()), Slot(a, v))
    {
      hide Frames, Tree, Exclusive, KernelHalf, Roots, Refs, Named;
      var table := Walk(a, v);
      if table == 0 {
        return false;
      }
      LeafEntry(View(), spaces.Keys, a, v);
      var e := mem[table][v % ENTRIES];
      if !e.present {
        return false;
      }
      if !e.writable {
        ok := HandleCowFault(a, v);
        if !ok {
          return false;
        }
        LeafEntry(View(), spaces.Keys, a, v);
        e := mem[table][v % ENTRIES];
      }
      ghost var s := View();
      StoreInv(s, all, kernel, Slot(a, v), i, x);
      mem := mem[e.addr := mem[e.addr][i := x]];
      assert View() == Store(s, e.addr, i, x);
      NamedLess(s, View(), nextId, leaks);
      return true;
    }

    // --- Spaces ------------------------------------------------------------------------

    /** as_create; kmallocOk is the outcome of allocating the descriptor. */
    method Create(kmallocOk: bool) returns (ok: bool, a: nat)
      requires Valid()
      modifies this`mem, this`refs, this`free, this`spaces, this`nextId, this`at
      ensures Valid()
      ensures !ok ==> View() == old(View())
      ensures ok <==> kmallocOk && old(free) != {}
      ensures ok ==> a == old(nextId) && Opened(old(View()), View(), a)
      ensures Meaning(View()) == Meaning(old(View()))
      ensures DataKept(old(View()), View())
    {
      hide Frames, Tree, Exclusive, KernelHalf, Roots, Meaning, Refs, Named, RootPage, ZeroPage, Unknown, DataKept;
      hide Opened;
      KeptSame(View());
      a := nextId;
      NamedNew(View(), nextId, leaks);
      if !kmallocOk {
        return false, a;
      }
      NonNull(View(), all);
      var c := AllocPage();
      if c == 0 {
        return false, a;
      }
      NewSpaceInv(old(View()), all, kernel, a, c);
      ZeroFrame(c);
      CopyKernelHalf(c);
      spaces := spaces[a := Space(c, 1)];
      at := at[Root(a) := c];
      nextId := nextId + 1;
      assert View() == NewSpace(old(View()), kernel, a, c);
      NamedNext(old(View()), kernel, a, c, leaks);
      KeptNew(old(View()), all, kernel, a, c);
      return true, a;
    }

    lemma KeptSame(s: State)
      ensures DataKept(s, s)
    {
    }

    lemma KeptNew(s: State, frames: set<nat>, kernelPml4: seq<Word>, a: nat, c: nat)
      requires Frames(s, frames) && c in s.free && |kernelPml4| == ENTRIES && Unknown(s, a)
      ensures DataKept(s, NewSpace(s, kernelPml4, a, c)) && Opened(s, NewSpace(s, kernelPml4, a, c), a)
    {
      FreeIsUnused(s, frames, c);
    }

    method CopyKernelHalf(c: nat)
      requires c in mem && mem[c] == ZeroPage() && |kernel| == ENTRIES
      modifies this`mem
      ensures mem == old(mem)[c := RootPage(kernel)]
    {
      var i := KERNEL_PML4_START;
      while i < ENTRIES
        invariant KERNEL_PML4_START <= i <= ENTRIES
        invariant mem.Keys == old(mem).Keys && |mem[c]| == ENTRIES
        invariant forall j :: 0 <= j < ENTRIES ==> mem[c][j] == if KERNEL_PML4_START <= j < i then kernel[j] else ZERO
        invariant forall g :: g in mem && g != c ==> mem[g] == old(mem)[g]
      {
        mem := mem[c := mem[c][i := kernel[i]]];
        i := i + 1;
      }
      assert mem[c] == RootPage(kernel);
    }

    /** free_page_tables_recursive on the subtree of n of a space that is gone.
        s is the state when it went; memory does not change while it is taken apart. */
    method FreeTables(ghost s: State, ghost n: Node, table: nat, level: nat)
      requires Valid() && Intact(s, n.space) && n.space !in spaces
      requires n in s.at && s.at[n] == table && n.level == level <= 2
      requires mem == s.mem && Whole(s, View(), n)
      modifies this`refs, this`free, this`at, this`pt
      ensures Valid()
      ensures Pruned(old(View()), View(), n)
      decreases level
    {
      hide Inv, Named, Pruned, Whole, PrunedTo, Under, Branch, NodeOk;
      PrunedStart(s, View(), n);
      var i := 0;
      while i < ENTRIES
        invariant 0 <= i <= ENTRIES && Valid() && PrunedTo(s, old(View()), View(), n, i)
      {
        IntactEntry(s, n, i);
        if mem[table][i].present {
          ghost var before := View();
          if level > 0 {
            var child := mem[table][i].addr;
            WholeChild(s, old(View()), View(), n, i);
            FreeTables(s, Child(n, i), child, level - 1);
            PrunedChild(s, old(View()), before, View(), n, i);
          } else {
            ghost var k := SlotOf(n, i);
            WholeSlot(s, old(View()), View(), n, i);
            PutDyingInv(View(), all, kernel, k);
            PutPage(mem[table][i].addr);
            pt := pt - {k};
            assert View() == Put(before, k);
            NamedLess(before, View(), nextId, leaks);
            PrunedSlot(s, old(View()), before, View(), n, i);
          }
        } else {
          PrunedSkip(s, old(View()), View(), n, i);
        }
        i := i + 1;
      }
      PrunedEnd(s, old(View()), View(), n);
      ghost var before := View();
      DropTableInv(View(), all, kernel, n);
      FreePage(table);
      at := at - {n};
      assert View() == DropTable(before, n);
      NamedLess(before, View(), nextId, leaks);
    }

    /** as_destroy: the last reference to a space gives back all its frames. */
    method Destroy(a: nat)
      requires Valid() && a in spaces
      modifies this`refs, this`free, this`spaces, this`at, this`pt
      ensures Valid()
      ensures old(spaces)[a].refCount > 1 ==>
                && spaces == old(spaces)[a := old(spaces)[a].(refCount := old(spaces)[a].refCount - 1)]
                && refs == old(refs) && free == old(free) && at == old(at) && pt == old(pt)
                && Meaning(View()) == Meaning(old(View()))
      ensures old(spaces)[a].refCount == 1 ==> Gone(old(View()), View(), a)
    {
      hide Frames, Tree, Exclusive, KernelHalf, Meaning, Named, Intact, PrunedTo, Whole, Pruned, Gone, Under, Branch;
      var left := spaces[a].refCount - 1;
      if left > 0 {
        LessRefInv(View(), all, kernel, a, left);
        spaces := spaces[a := spaces[a].(refCount := left)];
        assert View() == LessRef(old(View()), a, left);
        NamedLess(old(View()), View(), nextId, leaks);
        return;
      }
      var pml4 := spaces[a].cr3;
      DetachInv(View(), all, kernel, a);
      NamedLess(View(), Detach(View(), a), nextId, leaks);
      spaces := spaces - {a};
      ghost var s := View();
      assert s == Detach(old(View()), a);
      ghost var n := Root(a);
      WholeSelf(s, n);
      PrunedStart(s, s, n);
      var i := 0;
      while i < KERNEL_PML4_START
        invariant 0 <= i <= KERNEL_PML4_START && Valid() && PrunedTo(s, s, View(), n, i)
        invariant mem == s.mem && spaces == s.spaces
      {
        IntactEntry(s, n, i);
        if mem[pml4][i].present {
          ghost var before := View();
          WholeChild(s, s, before, n, i);
          FreeTables(s, Child(n, i), mem[pml4][i].addr, 2);
          PrunedChild(s, s, before, View(), n, i);
        } else {
          PrunedSkip(s, s, View(), n, i);
        }
        i := i + 1;
      }
      PrunedRoot(s, View(), a);
      ghost var before := View();
      DropTableInv(before, all, kernel, n);
      FreePage(pml4);
      at := at - {n};
      assert View() == DropTable(before, n);
      NamedLess(before, View(), nextId, leaks);
      GoneEnd(old(View()), s, before, View(), a);
    }

    // --- Fork ---------------------------------------------------------------------------

    /** page_get_phys on a page of src, and copy-on-write instead of write permission. */
    method SharePage(src: nat, v: nat, table: nat) returns (frame: nat, cowFlags: Word)
      requires Valid() && src in spaces && Slot(src, v) in pt && InHand !in pt
      requires Leaf(src, v) in at && at[Leaf(src, v)] == table
      modifies this`mem, this`refs, this`pt
      ensures Valid() && Meaning(View()) == Meaning(old(View()))
      ensures cowFlags == Shared(old(pt)[Slot(src, v)]) && frame == cowFlags.addr && frame in mem
      ensures pt == old(pt)[Slot(src, v) := cowFlags][InHand := ZERO.(addr := frame)]
      ensures Slot(src, v) in Meaning(View()) && Meaning(View())[Slot(src, v)] == Seen(mem[frame], Perm(cowFlags))
      ensures cowFlags.present
    {
      hide Frames, Tree, Exclusive, KernelHalf, Roots, Meaning, Refs, Named, NodeOk;
      ghost var k := Slot(src, v);
      LeafEntry(View(), spaces.Keys, src, v);
      ShareInv(View(), all, kernel, src, v);
      var e := mem[table][v % ENTRIES];
      frame := e.addr;
      refs := refs[frame := refs[frame] + 1];
      cowFlags := e;
      if e.writable {
        cowFlags := e.(writable := false, cow := true);
        mem := mem[table := mem[table][v % ENTRIES := cowFlags]];
      } else {
        assert mem[table][v % ENTRIES := e] == mem[table];
      }
      pt := pt[k := cowFlags][InHand := ZERO.(addr := frame)];
      assert View() == Share(old(View()), src, v);
      NamedLess(old(View()), View(), nextId, leaks);
      FrameIn(View(), all, k);
      SeenAt(View(), k);
    }

    /** The body of the innermost loop of as_clone: share page v of src with dst.
        s is the state when the copying began. */
    method ClonePage(ghost s: State, src: nat, dst: nat, v: nat, table: nat) returns (ok: bool)
      requires Valid() && Copying(s, View(), src, dst, v) && v < USER_PAGES
      requires Leaf(src, v) in at && at[Leaf(src, v)] == table && Slot(src, v) in pt
      modifies this`mem, this`refs, this`free, this`at, this`pt, this`leaks
      ensures Valid() && leaks == old(leaks)
      ensures ok ==> Copying(s, View(), src, dst, v + 1)
      ensures !ok ==> Progress(s, View(), src, dst, v) && TooFew(s, src, dst)
    {
      hide Inv, Meaning, Refs, Named, Progress, Built, PlacePt, Made, TooFew, Grown, Perm, Gained;
      ghost var t := View();
      ProgressFacts(s, t, src, dst, v);
      InvVisible(t, all, kernel, Slot(dst, v));
      var frame, cowFlags := SharePage(src, v, table);
      SharedPlaced(t.pt, Slot(src, v), cowFlags, Slot(dst, v), cowFlags.(present := true), leaks);
      SharedDropped(t.pt, Slot(src, v), cowFlags);
      ghost var shared := View();
      InvVisible(t, all, kernel, Slot(src, v));
      ok := MapPage(dst, v, frame, cowFlags);
      CopyingPage(s, t, shared, View(), src, dst, v, ok);
      if ok {
        ProgressPage(s, t, View(), src, dst, v, cowFlags);
      } else {
        Release(frame);
        ProgressSame(s, t, View(), src, dst, v);
      }
    }

    /** The loops of as_clone over the entries of one table, each loop calling
        the next level down; base is the first page below the table. */
    method CloneTables(ghost s: State, src: nat, dst: nat, ghost n: Node, table: nat, level: nat, base: nat)
      returns (ok: bool, ghost b: nat)
      requires Valid() && n.space == src && n.level == level <= 3 && base == Lo(n)
      requires Copying(s, View(), src, dst, base) && n in s.at && s.at[n] == table
      modifies this`mem, this`refs, this`free, this`at, this`pt, this`leaks
      ensures Valid() && leaks == old(leaks)
      ensures ok ==> b == base + Width(n) * Span(level) && Copying(s, View(), src, dst, b)
      ensures !ok ==> Progress(s, View(), src, dst, b) && TooFew(s, src, dst)
      decreases level
    {
      hide Inv, Named, Copying, Progress, TooFew, Lo, NodeOk;
      b := base;
      var i := 0;
      while i < Width(Node(src, level, 0))
        invariant 0 <= i <= Width(n) && Valid() && leaks == old(leaks)
        invariant b == base + i * Span(level) && Copying(s, View(), src, dst, b)
      {
        EntryRange(n, i);
        CloneEntry(s, View(), all, kernel, src, dst, n, i, b, base + (i + 1) * Span(level));
        var e := mem[table][i];
        if e.present && !(level > 0 && e.huge) {
          if level > 0 {
            ok, b := CloneTables(s, src, dst, Child(n, i), e.addr, level - 1, base + i * Span(level));
          } else {
            ok := ClonePage(s, src, dst, base + i, table);
          }
          if !ok {
            return;
          }
        }
        i := i + 1;
        b := base + i * Span(level);
      }
      ok := true;
    }

    /** as_clone. */
    method Clone(src: nat, kmallocOk: bool) returns (ok: bool, dst: nat)
      requires Valid() && src in spaces && InHand !in pt
      modifies this`mem, this`refs, this`free, this`spaces, this`nextId, this`at, this`pt, this`leaks
      ensures Valid() && InHand !in pt && leaks == old(leaks)
      ensures ok <==> kmallocOk && 1 + |Tables(Meaning(old(View())), src)| <= |old(free)|
      ensures ok ==> Unknown(old(View()), dst) && dst in spaces && spaces == old(spaces)[dst := spaces[dst]]
      ensures ok ==> dst == old(nextId)
      ensures ok ==> Forked(Meaning(old(View())), Meaning(View()), src, dst)
      ensures ok ==> Grown(old(at), at, dst) && Shares(old(pt), pt, dst)
      ensures !ok ==> pt.Keys == old(pt).Keys
      ensures !ok ==> spaces == old(spaces) && refs == old(refs) && free == old(free) && at == old(at)
      ensures !ok ==> Meaning(View()) == Meaning(old(View()))
    {
      hide Inv, Named, Copying, Progress, Meaning, Gone, TooFew, Tables;
      ok, dst := Create(kmallocOk);
      if !ok {
        return;
      }
      ghost var s := View();
      CloneStart(old(View()), s, all, kernel, src, dst);
      ForkCost(old(View()), s, src, dst);
      ghost var b;
      ok, b := CloneTables(s, src, dst, Root(src), spaces[src].cr3, 3, 0);
      ghost var t := View();
      if ok {
        ForkPaid(s, t, src, dst);
        CloneDone(old(View()), s, t, all, kernel, src, dst);
      } else {
        ProgressFacts(s, t, src, dst, b);
        Destroy(dst);
        CloneUndone(old(View()), s, t, View(), all, kernel, src, dst, b);
      }
    }

    lemma LastRef(s: State, frames: set<nat>, f: nat)
      requires Frames(s, frames) && InHand in s.pt && s.pt[InHand].addr == f && Refs(s.pt, f) == {InHand}
      ensures f in s.refs && s.refs[f] == 1
    {
    }

    lemma NonNull(s: State, frames: set<nat>)
      requires Frames(s, frames)
      ensures 0 !in s.free
      ensures forall n :: n in s.at ==> s.at[n] != 0
      ensures forall k :: k in s.pt ==> s.pt[k].addr != 0
      ensures forall f :: f in s.free ==> f in s.mem && |s.mem[f]| == ENTRIES
    {
    }

    lemma GrowData(s: State, frames: set<nat>, n: Node, i: nat, c: nat)
      requires Frames(s, frames) && Growable(s, n, i, c)
      ensures DataKept(s, Grow(s, n, i, c))
      ensures c != s.at[n]
    {
    }
  }

  /** All count pages, exactly if they can be afforded; or the most that can be, done,
      were made and freed again. */
  ghost predicate RangeOutcome(s: State, t: State, a: nat, v: nat, count: nat, flags: Word, ok: bool, done: nat) {
    && (ok <==> Affordable(s, a, v, count))
    && (ok ==> Filled(Meaning(s), Meaning(t), a, v, count, flags))
    && (!ok ==>
          && done < count && Affordable(s, a, v, done) && !Affordable(s, a, v, done + 1)
          && Meaning(t) == Cleared(Meaning(s), a, v, done)
          && (Meaning(t) == Meaning(s) <==> Vacant(Meaning(s), a, v, done)))
  }

  /** i pages from v have been placed since s. */
  ghost predicate Placing(s: State, t: State, a: nat, v: nat, i: nat, flags: Word) {
    Filled(Meaning(s), Meaning(t), a, v, i, flags) && Paid(s, t, a, v, i) && (i > 0 ==> v + i <= USER_PAGES)
  }

  /** i pages from v have been placed since s, and no more can be. */
  ghost predicate Stuck(s: State, t: State, a: nat, v: nat, i: nat) {
    && Emptied(Meaning(s), Meaning(t), a, v, 0, i) && (i > 0 ==> v + i <= USER_PAGES)
    && Affordable(s, a, v, i) && !Affordable(s, a, v, i + 1)
  }

  lemma PlacingStart(s: State, a: nat, v: nat, flags: Word)
    ensures Placing(s, s, a, v, 0, flags)
  {
    hide Meaning, Filled, Paid;
    FilledStart(Meaning(s), a, v, flags);
    PaidStart(s, a, v);
  }

  lemma RangeFailed(s: State, t: State, a: nat, v: nat, count: nat, flags: Word, i: nat)
    requires i < count && Affordable(s, a, v, i) && !Affordable(s, a, v, i + 1)
    requires Meaning(t) == Cleared(Meaning(s), a, v, i) && (Meaning(t) == Meaning(s) <==> Vacant(Meaning(s), a, v, i))
    ensures RangeOutcome(s, t, a, v, count, flags, false, i)
  {
    hide Affordable, Meaning, Cleared, Vacant;
    NotAll(s, a, v, i, count);
  }

  lemma RangeDone(s: State, t: State, a: nat, v: nat, count: nat, flags: Word)
    requires Placing(s, t, a, v, count, flags)
    ensures RangeOutcome(s, t, a, v, count, flags, true, count)
  {
    hide Meaning, Filled;
    PaidAll(s, t, a, v, count);
  }

  /** A name that nothing bore became a space with one reference and a PML4 of its own. */
  ghost predicate Opened(o: State, s: State, a: nat) {
    && Unknown(o, a) && Root(a) in s.at && s.spaces == o.spaces[a := Space(s.at[Root(a)], 1)]
    && Grown(o.at, s.at, a) && Began(o, s, a)
  }

  /** No page was added other than k. */
  ghost predicate SlotsBut(pt: map<Key, Word>, pt': map<Key, Word>, k: Key) {
    forall j :: j in pt' && j.Slot? ==> j in pt || j == k
  }

  lemma SameBut(s: State, a: nat, k: Key)
    ensures SlotsBut(s.pt, s.pt, k) && Grown(s.at, s.at, a)
  {
  }

  lemma PlacedBut(pt: map<Key, Word>, held: Word, k: Key, w: Word, leak: nat)
    requires k.Slot?
    ensures SlotsBut(pt, PlacePt(pt[InHand := held], k, w, leak), k)
            && InHand !in PlacePt(pt[InHand := held], k, w, leak)
  {
  }

  ghost predicate Vacant(m: map<Key, Seen>, a: nat, v: nat, count: nat) {
    forall k :: k in m && k.Slot? && k.space == a ==> !(v <= k.vpn < v + count)
  }

  /** The count pages from v hold zeroed pages, everything else is as before. */
  ghost predicate Filled(m: map<Key, Seen>, m': map<Key, Seen>, a: nat, v: nat, count: nat, flags: Word) {
    forall k: Key ::
      if k.Slot? && k.space == a && v <= k.vpn < v + count
      then k in m' && m'[k] == Seen(ZeroPage(), Perm(flags.(user := true, present := true)))
      else (k in m <==> k in m') && (k in m ==> m'[k] == m[k])
  }

  /** Pages v .. v+j-1 are gone, v+j .. v+i-1 hold whatever was put there, and all
      others are those of m. */
  ghost predicate Emptied(m: map<Key, Seen>, m': map<Key, Seen>, a: nat, v: nat, j: nat, i: nat) {
    && (forall k: Key :: !(k.Slot? && k.space == a && v <= k.vpn < v + i) ==>
          ((k in m <==> k in m') && (k in m ==> m'[k] == m[k])))
    && (forall k: Key :: k in m' ==> !(k.Slot? && k.space == a && v <= k.vpn < v + j))
  }

  /** Without the pages v .. v+n-1 of space a. */
  ghost function Cleared(m: map<Key, Seen>, a: nat, v: nat, n: nat): map<Key, Seen> {
    map k | k in m && !(k.Slot? && k.space == a && v <= k.vpn < v + n) :: m[k]
  }

  lemma FilledStart(m: map<Key, Seen>, a: nat, v: nat, flags: Word)
    ensures Filled(m, m, a, v, 0, flags)
  {
  }

  lemma FilledStep(m: map<Key, Seen>, m': map<Key, Seen>, a: nat, v: nat, i: nat, count: nat, flags: Word)
    requires Filled(m, m', a, v, i, flags) && i < count
    ensures Vacant(m, a, v, count) ==> Slot(a, v + i) !in m'
    ensures Filled(m, m'[Slot(a, v + i) := Seen(ZeroPage(), Perm(flags.(user := true, present := true)))],
                   a, v, i + 1, flags)
    ensures Emptied(m, m', a, v, 0, i)
  {
  }

  lemma EmptiedStep(m: map<Key, Seen>, m': map<Key, Seen>, a: nat, v: nat, j: nat, i: nat)
    requires Emptied(m, m', a, v, j, i) && j < i
    ensures Emptied(m, m' - {Slot(a, v + j)}, a, v, j + 1, i)
  {
  }

  lemma EmptiedEnd(m: map<Key, Seen>, m': map<Key, Seen>, a: nat, v: nat, i: nat)
    requires Emptied(m, m', a, v, i, i)
    ensures m' == Cleared(m, a, v, i) && (m' == m <==> Vacant(m, a, v, i))
  {
  }

  /** Under eager copying, a store changes one word of one page of one space. */
  ghost predicate Stored(m: map<Key, Seen>, m': map<Key, Seen>, k: Key, i: nat, x: Word) {
    && k in m && m[k].perm.writable && i < |m[k].contents|
    && m' == m[k := m[k].(contents := m[k].contents[i := x])]
  }

  /** The page is writable, or copy-on-write with a frame of its own or one to copy to. */
  ghost predicate Storable(s: State, k: Key) {
    && k in s.pt
    && (s.pt[k].writable || (s.pt[k].cow && (|Refs(s.pt, s.pt[k].addr)| <= 1 || s.free != {})))
  }

  /** Names in use are below the counters that hand them out. */
  ghost predicate Named(s: State, nextId: nat, leaks: nat) {
    && (forall a :: a in s.spaces ==> a < nextId)
    && (forall n :: n in s.at ==> n.space < nextId)
    && (forall k :: k in s.pt && k.Slot? ==> k.space < nextId)
    && (forall n: nat :: Leak(n) in s.pt <==> n < leaks)
  }

  lemma NamedNew(s: State, nextId: nat, leaks: nat)
    requires Named(s, nextId, leaks)
    ensures Unknown(s, nextId)
  {
  }

  lemma NamedNext(s: State, kernel: seq<Word>, a: nat, c: nat, leaks: nat)
    requires Named(s, a, leaks) && |kernel| == ENTRIES
    ensures Named(NewSpace(s, kernel, a, c), a + 1, leaks)
  {
  }

  lemma NamedGrows(s: State, s': State, a: nat, nextId: nat, leaks: nat)
    requires Named(s, nextId, leaks) && Grown(s.at, s'.at, a) && a < nextId
    requires s'.spaces == s.spaces
    requires forall k: Key :: !k.InHand? ==> (k in s'.pt <==> k in s.pt)
    ensures Named(s', nextId, leaks)
  {
  }

  lemma NamedPlaced(s: State, s': State, k: Key, w: Word, nextId: nat, leaks: nat)
    requires Named(s, nextId, leaks) && s'.at == s.at && s'.spaces == s.spaces && k.Slot? && k.space < nextId
    requires s'.pt == PlacePt(s.pt, k, w, leaks)
    ensures Named(s', nextId, if k in s.pt then leaks + 1 else leaks)
  {
  }

  lemma NamedLess(s: State, s': State, nextId: nat, leaks: nat)
    requires Named(s, nextId, leaks) && s'.at.Keys <= s.at.Keys && s'.spaces.Keys <= s.spaces.Keys
    requires forall k :: k in s'.pt && k.Slot? ==> k in s.pt
    requires forall n :: Leak(n) in s'.pt <==> Leak(n) in s.pt
    ensures Named(s', nextId, leaks)
  {
  }

  lemma NamedKnown(s: State, nextId: nat, leaks: nat, a: nat)
    requires Named(s, nextId, leaks) && a in s.spaces
    ensures a < nextId && Leak(leaks) !in s.pt
  {
  }
}
