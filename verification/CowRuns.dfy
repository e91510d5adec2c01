/** Whole runs: any sequence of operations on any number of address spaces
    shows every process what eager copying would show it. */
module CowRuns {
  import opened Paging
  import opened PagingInv
  import opened PagingSpaces
  import opened PagingPrune
  import opened PagingFork
  import opened PagingNeed
  import opened AddressSpaces

  datatype Op =
    | CreateOp(kmallocOk: bool)
    | AllocOp(space: nat, vpn: nat, flags: Word)
    | FreeOp(space: nat, vpn: nat)
    | StoreOp(space: nat, vpn: nat, offset: nat, value: Word)
    | ForkOp(space: nat, kmallocOk: bool)
    | DestroyOp(space: nat)

  /** Failed operations change nothing a process can see. */
  datatype Outcome = Failed | Done | Made(id: nat)

  type Pages = map<Key, Seen>

  function Zeroed(flags: Word): Seen {
    Seen(ZeroPage(), Perm(flags.(user := true, present := true)))
  }

  /** Copies of the pages of src under the name dst. */
  function Copies(m: Pages, src: nat, dst: nat): Pages {
    map k | k in m && k.Slot? && k.space == src :: Slot(dst, k.vpn) := m[k]
  }

  function Without(m: Pages, a: nat): Pages {
    map k | k in m && !(k.Slot? && k.space == a) :: m[k]
  }

  /** One operation under eager copying: a fork copies every page at once. */
  function Eager(m: Pages, op: Op, r: Outcome): Pages {
    if r == Failed then m else
    match op
    case CreateOp(_) => m
    case AllocOp(a, v, flags) => m[Slot(a, v) := Zeroed(flags)]
    case FreeOp(a, v) => m - {Slot(a, v)}
    case StoreOp(a, v, i, x) =>
      var k := Slot(a, v);
      if k in m && i < |m[k].contents| then m[k := m[k].(contents := m[k].contents[i := x])] else m
    case ForkOp(a, _) => if r.Made? then m + Copies(m, a, r.id) else m
    case DestroyOp(a) => Without(m, a)
  }

  function EagerRun(m: Pages, ops: seq<Op>, rs: seq<Outcome>): Pages
    requires |ops| == |rs|
  {
    if ops == [] then m
    else Eager(EagerRun(m, ops[..|ops| - 1], rs[..|rs| - 1]), ops[|ops| - 1], rs[|rs| - 1])
  }

  /** Successful allocations over a page that was already mapped. */
  function Overwrites(m: Pages, ops: seq<Op>, rs: seq<Outcome>): nat
    requires |ops| == |rs|
  {
    if ops == [] then 0
    else
      var n := |ops| - 1;
      Overwrites(m, ops[..n], rs[..n]) + if OverwritesPage(EagerRun(m, ops[..n], rs[..n]), ops[n], rs[n]) then 1 else 0
  }

  predicate OverwritesPage(m: Pages, op: Op, r: Outcome) {
    op.AllocOp? && r == Done && Slot(op.space, op.vpn) in m
  }

  lemma ForkIsEager(m: Pages, m': Pages, src: nat, dst: nat)
    requires Forked(m, m', src, dst) && forall k :: k in m && k.Slot? ==> k.space != dst
    ensures m' == m + Copies(m, src, dst)
  {
  }

  /** How an operation comes out, told from the state before it: when there are too few
      frames, when there is no such space, page or word, and when the page may not be
      written.  Dropping a reference that is not the last one changes no page. */
  ghost function Answer(s: State, nextId: nat, op: Op): Outcome {
    match op
    case CreateOp(kmallocOk) => if kmallocOk && s.free != {} then Made(nextId) else Failed
    case AllocOp(a, v, _) => if a in s.spaces && Affordable(s, a, v, 1) then Done else Failed
    case FreeOp(a, v) => if a in s.spaces && v < USER_PAGES then Done else Failed
    case StoreOp(a, v, i, _) =>
      if a in s.spaces && v < USER_PAGES && i < ENTRIES && Storable(s, Slot(a, v)) then Done else Failed
    case ForkOp(a, kmallocOk) =>
      if a in s.spaces && kmallocOk && 1 + |Tables(Meaning(s), a)| <= |s.free| then Made(nextId) else Failed
    case DestroyOp(a) => if a in s.spaces && s.spaces[a].refCount == 1 then Done else Failed
  }

  /** One operation of a run; operations on spaces that do not exist fail. */
  method Perform(k: Machine, op: Op) returns (r: Outcome)
    requires k.Valid() && Settled(k.View())
    modifies k
    ensures k.Valid() && Settled(k.View())
    ensures r == Answer(old(k.View()), old(k.nextId), op)
    ensures Meaning(k.View()) == Eager(Meaning(old(k.View())), op, r)
    ensures k.leaks == old(k.leaks) + if OverwritesPage(Meaning(old(k.View())), op, r) then 1 else 0
  {
    hide Inv, Named, Meaning, Settled;
    match op
    case CreateOp(kmallocOk) =>
      r := PerformCreate(k, kmallocOk);
    case AllocOp(a, v, flags) =>
      r := PerformAlloc(k, a, v, flags);
    case FreeOp(a, v) =>
      r := Failed;
      if a in k.spaces && v < USER_PAGES {
        SettledMeans(k.View());
        k.FreeUserPage(a, v);
        SettledLess(old(k.View()), k.View());
        r := Done;
      }
    case StoreOp(a, v, i, x) =>
      r := Failed;
      if a in k.spaces && v < USER_PAGES && i < ENTRIES {
        SettledMeans(k.View());
        var ok := k.UserStore(a, v, i, x);
        SettledLess(old(k.View()), k.View());
        r := if ok then Done else Failed;
      }
    case ForkOp(a, kmallocOk) =>
      r := PerformFork(k, a, kmallocOk);
    case DestroyOp(a) =>
      r := PerformDestroy(k, a);
  }

  lemma SettledMeans(s: State)
    requires Settled(s)
    ensures InHand !in s.pt
  {
  }

  lemma SettledGrown(s: State, t: State, a: nat, v: nat)
    requires Settled(s) && Grown(s.at, t.at, a) && SlotsBut(s.pt, t.pt, Slot(a, v))
    requires a in t.spaces && s.spaces.Keys <= t.spaces.Keys && InHand !in t.pt
    ensures Settled(t)
  {
  }

  lemma SettledLess(s: State, t: State)
    requires Settled(s) && t.at == s.at && t.spaces == s.spaces && forall k :: k in t.pt ==> k in s.pt
    ensures Settled(t)
  {
  }

  method PerformCreate(k: Machine, kmallocOk: bool) returns (r: Outcome)
    requires k.Valid() && Settled(k.View())
    modifies k
    ensures k.Valid() && Settled(k.View()) && k.leaks == old(k.leaks)
    ensures r == Answer(old(k.View()), old(k.nextId), CreateOp(kmallocOk))
    ensures Meaning(k.View()) == Meaning(old(k.View()))
  {
    hide Inv, Named, Meaning, Unknown, Began;
    var ok, a := k.Create(kmallocOk);
    r := if ok then Made(a) else Failed;
  }

  method PerformAlloc(k: Machine, a: nat, v: nat, flags: Word) returns (r: Outcome)
    requires k.Valid() && Settled(k.View())
    modifies k
    ensures k.Valid() && Settled(k.View())
    ensures r == Answer(old(k.View()), old(k.nextId), AllocOp(a, v, flags))
    ensures r == Failed ==> Meaning(k.View()) == Meaning(old(k.View())) && k.leaks == old(k.leaks)
    ensures r != Failed ==>
              && Meaning(k.View()) == Meaning(old(k.View()))[Slot(a, v) := Zeroed(flags)]
              && k.leaks == old(k.leaks) + if Slot(a, v) in Meaning(old(k.View())) then 1 else 0
  {
    hide Inv, Named, Meaning, Afforded, Affordable;
    r := Failed;
    if a in k.spaces {
      ghost var s := k.View();
      InvVisible(s, k.all, k.kernel, Slot(a, v));
      var ok := k.AllocUserPage(a, v, flags);
      AffordedOne(s, k.View(), a, v, ok);
      r := if ok then Done else Failed;
    }
  }

  lemma AffordedOne(s: State, t: State, a: nat, v: nat, ok: bool)
    requires Afforded(s, t, a, v, ok)
    ensures ok <==> Affordable(s, a, v, 1)
  {
    hide Path, Route;
    RouteOne(a, v);
  }

  method PerformFork(k: Machine, a: nat, kmallocOk: bool) returns (r: Outcome)
    requires k.Valid() && Settled(k.View())
    modifies k
    ensures k.Valid() && Settled(k.View()) && k.leaks == old(k.leaks)
    ensures r == Answer(old(k.View()), old(k.nextId), ForkOp(a, kmallocOk))
    ensures Meaning(k.View()) == Eager(Meaning(old(k.View())), ForkOp(a, kmallocOk), r)
  {
    hide Inv, Named, Meaning, Forked, Without, Tables;
    r := Failed;
    if a in k.spaces {
      ghost var s := k.View();
      var ok, dst := k.Clone(a, kmallocOk);
      if ok {
        r := Made(dst);
        OnlyKnown(s, dst);
        ForkIsEager(Meaning(s), Meaning(k.View()), a, dst);
      }
    }
  }

  method PerformDestroy(k: Machine, a: nat) returns (r: Outcome)
    requires k.Valid() && Settled(k.View())
    modifies k
    ensures k.Valid() && Settled(k.View()) && k.leaks == old(k.leaks)
    ensures r == Answer(old(k.View()), old(k.nextId), DestroyOp(a))
    ensures Meaning(k.View()) == Eager(Meaning(old(k.View())), DestroyOp(a), r)
  {
    hide Inv, Named, Meaning, Without;
    r := Failed;
    if a in k.spaces {
      var last := k.spaces[a].refCount == 1;
      PositiveRefs(k.View(), k.all, k.kernel, a);
      WithoutIs(Meaning(k.View()), a);
      k.Destroy(a);
      r := if last then Done else Failed;
    }
  }

  lemma PositiveRefs(s: State, all: set<nat>, kernel: seq<Word>, a: nat)
    requires Inv(s, all, kernel) && a in s.spaces
    ensures s.spaces[a].refCount >= 1
  {
  }

  lemma WithoutIs(m: Pages, a: nat)
    ensures Without(m, a) == map k | k in m && !(k.Slot? && k.space == a) :: m[k]
  {
  }

  /** The main theorem, as a program that can run any sequence of operations:
      at the end every process sees exactly its eagerly copied pages; no frame
      is ever lost except by allocating over a mapped page; and once all spaces
      are destroyed, all frames are free exactly when that never happened. */
  method Run(k: Machine, ops: seq<Op>) returns (rs: seq<Outcome>, ghost trace: seq<(State, nat)>)
    requires k.Valid() && Settled(k.View())
    modifies k
    ensures k.Valid() && Settled(k.View())
    ensures |rs| == |ops| && |trace| == |ops| + 1 && trace[0].0 == old(k.View()) && trace[|ops|].0 == k.View()
    ensures forall i :: 0 <= i < |ops| ==> rs[i] == Answer(trace[i].0, trace[i].1, ops[i])
    ensures forall i :: 0 <= i <= |ops| ==> Meaning(trace[i].0) == EagerRun(Meaning(old(k.View())), ops[..i], rs[..i])
    ensures Meaning(k.View()) == EagerRun(Meaning(old(k.View())), ops, rs)
    ensures k.leaks == old(k.leaks) + Overwrites(Meaning(old(k.View())), ops, rs)
    ensures k.spaces == map[] ==> (k.free == k.all <==> k.leaks == 0)
  {
    hide Inv, Named, Meaning, Settled, Answer, Eager, EagerRun, Overwrites;
    rs, trace := [], [(k.View(), k.nextId)];
    var i := 0;
    ghost var m := Meaning(k.View());
    RunStart(m);
    while i < |ops|
      invariant 0 <= i <= |ops| && |rs| == i && |trace| == i + 1
      invariant k.Valid() && Settled(k.View()) && trace[0].0 == old(k.View()) && trace[i] == (k.View(), k.nextId)
      invariant forall j :: 0 <= j < i ==> rs[j] == Answer(trace[j].0, trace[j].1, ops[j])
      invariant forall j :: 0 <= j <= i ==> Meaning(trace[j].0) == EagerRun(m, ops[..j], rs[..j])
      invariant k.leaks == old(k.leaks) + Overwrites(m, ops[..i], rs)
    {
      var r := Perform(k, ops[i]);
      RunStep(m, ops, rs, i, r);
      trace := trace + [(k.View(), k.nextId)];
      rs := rs + [r];
      i := i + 1;
    }
    assert ops[..i] == ops && rs[..i] == rs;
    if k.spaces == map[] {
      AllFramesReturned(k.View(), k.all, k.kernel);
      LeaksNamed(k.View(), k.nextId, k.leaks);
    }
  }

  lemma RunStart(m: Pages)
    ensures EagerRun(m, [], []) == m && Overwrites(m, [], []) == 0
  {
  }

  lemma RunStep(m: Pages, ops: seq<Op>, rs: seq<Outcome>, i: nat, r: Outcome)
    requires i < |ops| && |rs| == i
    ensures rs[..i] == rs && (rs + [r])[..i + 1] == rs + [r]
    ensures forall j :: 0 <= j <= i ==> (rs + [r])[..j] == rs[..j]
    ensures EagerRun(m, ops[..i + 1], rs + [r]) == Eager(EagerRun(m, ops[..i], rs), ops[i], r)
    ensures Overwrites(m, ops[..i + 1], rs + [r])
         == Overwrites(m, ops[..i], rs) + if OverwritesPage(EagerRun(m, ops[..i], rs), ops[i], r) then 1 else 0
  {
    assert ops[..i + 1][..i] == ops[..i] && (rs + [r])[..i] == rs;
  }

  lemma LeaksNamed(s: State, nextId: nat, leaks: nat)
    requires Named(s, nextId, leaks)
    ensures leaks == 0 <==> forall n :: Leak(n) !in s.pt
  {
    assert leaks > 0 ==> Leak(0) in s.pt;
  }

  // --- Where the code falls short ----------------------------------------------------------------

  /** Six frames: a PML4, three tables and a page at page number 5 leave one. */
  method OnePage() returns (k: Machine, a: nat)
    ensures fresh(k) && k.Valid() && Settled(k.View()) && k.leaks == 0 && a in k.spaces && k.spaces[a].refCount == 1
    ensures k.spaces.Keys == {a} && Slot(a, 5) in Meaning(k.View()) && |k.free| == 1 && Path(a, 5) <= k.at.Keys
  {
    hide Inv, Named, Meaning, Path, Along, Unknown, Began, Afforded, Grown, DataKept, SlotsBut;
    k := new Machine({1, 2, 3, 4, 5, 6}, ZeroPage());
    ghost var s0 := k.View();
    var ok;
    ok, a := k.Create(true);
    ghost var s := k.View();
    SettledGrown(s0, s, a, 5);
    ok := k.AllocUserPage(a, 5, ZERO);
    FirstPage(s0, s, k.View(), a, ok);
    SettledGrown(s, k.View(), a, 5);
  }

  lemma FirstPage(o: State, s: State, t: State, a: nat, ok: bool)
    requires o.at == map[] && |o.free| == 6 && Began(o, s, a) && Afforded(s, t, a, 5, ok)
    ensures ok && |t.free| == 1 && Path(a, 5) <= t.at.Keys
  {
    hide Path;
    FreshPath(a, 5);
    assert s.at.Keys == {Root(a)};
  }

  lemma FreshPath(a: nat, v: nat)
    ensures |Path(a, v)| == 3 && Root(a) !in Path(a, v) && Path(a, v) - {Root(a)} == Path(a, v)
    ensures |{Root(a)} + Path(a, v)| == 4
  {
    var p, q, r := Along(a, v, 0), Along(a, v, 1), Along(a, v, 2);
    assert p.level == 0 && q.level == 1 && r.level == 2;
    hide Along;
    assert |{p, q, r}| == 3;
  }

  /** A page allocated twice: after all spaces are destroyed one frame is not free. */
  method LostFrame() returns (k: Machine)
    ensures fresh(k) && k.Valid() && k.spaces == map[] && k.leaks == 1 && k.free != k.all
  {
    hide Inv, Named, Meaning, Path, Grown, SlotsBut, Afforded, Settled, Gone;
    var a;
    k, a := OnePage();
    ghost var s := k.View();
    SettledMeans(s);
    InvVisible(s, k.all, k.kernel, Slot(a, 5));
    var ok := k.AllocUserPage(a, 5, ZERO);
    ghost var t := k.View();
    SecondPage(s, t, a, ok);
    SettledGrown(s, t, a, 5);
    k.Destroy(a);
    SettledGone(t, k.View(), a);
    AllFramesReturned(k.View(), k.all, k.kernel);
    LeaksNamed(k.View(), k.nextId, k.leaks);
  }

  lemma SecondPage(s: State, t: State, a: nat, ok: bool)
    requires |s.free| == 1 && Path(a, 5) <= s.at.Keys && Afforded(s, t, a, 5, ok)
    ensures ok
  {
    assert Path(a, 5) - s.at.Keys == {};
  }

  lemma SettledGone(s: State, t: State, a: nat)
    requires Settled(s) && Gone(s, t, a)
    ensures Settled(t) && (s.spaces.Keys == {a} ==> t.spaces == map[])
  {
  }

  /** A range allocation that fails behind a page that was mapped before takes that
      page away. */
  method PageLost() returns (k: Machine, a: nat, ghost before: Pages)
    ensures fresh(k) && k.Valid() && a in k.spaces
    ensures Slot(a, 5) in before && Slot(a, 5) !in Meaning(k.View())
  {
    hide Inv, Named, Meaning, Path, Settled, RangeOutcome, Vacant;
    k, a := OnePage();
    before := Meaning(k.View());
    ghost var s := k.View();
    SettledMeans(s);
    var ok, done := k.AllocUserPages(a, 5, 2, ZERO);
    RangeRunsOut(s, k.View(), a, ok, done);
  }

  lemma RangeRunsOut(s: State, t: State, a: nat, ok: bool, done: nat)
    requires |s.free| == 1 && Path(a, 5) <= s.at.Keys && RangeOutcome(s, t, a, 5, 2, ZERO, ok, done)
    ensures !ok && Slot(a, 5) !in Meaning(t)
  {
    hide Path, Meaning, Filled, Vacant, Affordable;
    JustOne(s, a);
    assert ok || done == 1;
  }

  lemma JustOne(s: State, a: nat)
    requires |s.free| == 1 && Path(a, 5) <= s.at.Keys
    ensures Affordable(s, a, 5, 1) && !Affordable(s, a, 5, 2)
  {
    hide Path, Route;
    RouteOne(a, 5);
    assert Path(a, 5) - s.at.Keys == {};
  }
}
