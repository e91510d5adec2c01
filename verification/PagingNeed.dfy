/** How many frames the address-space code takes: one per page, and one per page
    table that is missing on the way to it. */
module PagingNeed {
  import opened Paging
  import opened PagingSteps
  import opened PagingInv

  /** The tables below the PML4 on the way to page v. */
  function Path(a: nat, v: nat): set<Node> {
    {Along(a, v, 0), Along(a, v, 1), Along(a, v, 2)}
  }

  /** The tables below the PML4 on the way to the count pages from v on. */
  ghost function Route(a: nat, v: nat, count: nat): set<Node> {
    set w, n | v <= w < v + count && n in Path(a, w) :: n
  }

  /** The pages are in user space, and there is a frame for each of them and for every
      table missing on the way to them. */
  ghost predicate Affordable(s: State, a: nat, v: nat, count: nat) {
    && (count == 0 || v + count <= USER_PAGES)
    && count + |Route(a, v, count) - s.at.Keys| <= |s.free|
  }

  /** The tables of dst on the way to the pages below b that src has. */
  ghost function Copied(m: map<Key, Seen>, src: nat, dst: nat, b: nat): set<Node> {
    set k, n | k in m && k.Slot? && k.space == src && k.vpn < b && n in Path(dst, k.vpn) :: n
  }

  /** The tables of src that lead to a page: a fork makes one of each. */
  ghost function Tables(m: map<Key, Seen>, src: nat): set<Node> {
    Copied(m, src, src, USER_PAGES)
  }

  // --- Frames turned into tables --------------------------------------------------------------------

  ghost function Stock(s: State): nat {
    |s.free| + |s.at.Keys|
  }

  lemma UnionSize(a: set<Node>, b: set<Node>)
    ensures |a + b| == |a| + |b - a|
  {
    assert a + b == a + (b - a);
  }

  /** The walk to page v made the missing tables, or stopped at one. */
  ghost predicate Made(s: State, t: State, a: nat, v: nat, all: bool) {
    && Stock(t) == Stock(s)
    && (all ==> t.at.Keys == s.at.Keys + Path(a, v))
    && (!all ==> t.at.Keys <= s.at.Keys + Path(a, v) && !(Path(a, v) <= t.at.Keys))
  }

  /** One level of the walk: the table at n is there, or is not. */
  ghost predicate Stepped(s: State, t: State, n: Node, got: bool) {
    Stock(t) == Stock(s) && t.at.Keys == s.at.Keys + (if got then {n} else {}) && (!got ==> n !in t.at)
  }

  lemma SteppedNot(s: State, n: Node)
    ensures Stepped(s, s, n, n in s.at)
  {
  }

  lemma SteppedGrow(s: State, n: Node, i: nat, c: nat)
    requires Growable(s, n, i, c)
    ensures Stepped(s, Grow(s, n, i, c), Child(n, i), true)
  {
  }

  lemma MadeNone(s: State, t: State, a: nat, v: nat)
    requires Stepped(s, t, Along(a, v, 2), false)
    ensures Made(s, t, a, v, false)
  {
    hide Along;
  }

  lemma MadeOne(s: State, t: State, u: State, a: nat, v: nat)
    requires Stepped(s, t, Along(a, v, 2), true) && Stepped(t, u, Along(a, v, 1), false)
    ensures Made(s, u, a, v, false)
  {
    hide Along;
  }

  lemma MadeTwo(s: State, t: State, u: State, w: State, a: nat, v: nat, got: bool)
    requires Stepped(s, t, Along(a, v, 2), true) && Stepped(t, u, Along(a, v, 1), true)
    requires Stepped(u, w, Along(a, v, 0), got)
    ensures Made(s, w, a, v, got)
  {
    hide Along, Stock;
  }

  /** Neither tables nor free frames changed afterwards. */
  lemma MadeSame(s: State, t: State, u: State, a: nat, v: nat)
    requires Made(s, t, a, v, true) && u.at == t.at && u.free == t.free
    ensures Made(s, u, a, v, true)
  {
  }

  /** A page at v succeeds exactly when v is in user space and there are frames for the
      page and for the tables missing on the way; that is what it takes. */
  ghost predicate Afforded(s: State, t: State, a: nat, v: nat, ok: bool) {
    && (ok <==> v < USER_PAGES && 1 + |Path(a, v) - s.at.Keys| <= |s.free|)
    && (ok ==> t.at.Keys == s.at.Keys + Path(a, v) && Stock(t) + 1 == Stock(s))
    && (!ok ==> Stock(t) == Stock(s))
  }

  lemma NotAfforded(s: State, a: nat, v: nat)
    requires v >= USER_PAGES || s.free == {}
    ensures Afforded(s, s, a, v, false)
  {
    hide Path;
  }

  /** A page was taken, then the way to v was made. */
  lemma TakenMade(s: State, t: State, u: State, f: nat, a: nat, v: nat)
    requires f in s.free && t.free == s.free - {f} && t.at == s.at && v < USER_PAGES && Made(t, u, a, v, true)
    ensures Afforded(s, u, a, v, true)
  {
    hide Path;
    MadeMeans(t, u, a, v, true);
  }

  /** A page was taken, the way to v could not be made, and the page was given back. */
  lemma GivenBack(s: State, t: State, u: State, w: State, f: nat, a: nat, v: nat)
    requires f in s.free && t.free == s.free - {f} && t.at == s.at && Made(t, u, a, v, false) && u.free == {}
    requires w.free == u.free + {f} && w.at == u.at
    ensures Afforded(s, w, a, v, false)
  {
    hide Path;
    MadeMeans(t, u, a, v, false);
  }

  lemma MadeMeans(s: State, t: State, a: nat, v: nat, all: bool)
    requires Made(s, t, a, v, all) && (!all ==> t.free == {})
    ensures all <==> |Path(a, v) - s.at.Keys| <= |s.free|
  {
    hide Path;
    if all {
      MadeSize(s, t, Path(a, v));
    } else {
      var n :| n in Path(a, v) && n !in t.at;
      RanOut(s, t, Path(a, v), n);
    }
  }

  /** All tables of p were made: they were affordable, and that is what they cost. */
  lemma MadeSize(s: State, t: State, p: set<Node>)
    requires Stock(t) == Stock(s) && t.at.Keys == s.at.Keys + p
    ensures |t.free| == |s.free| - |p - s.at.Keys|
  {
    UnionSize(s.at.Keys, p);
  }

  /** The frames ran out before all tables of p were made: they were not affordable. */
  lemma RanOut(s: State, t: State, p: set<Node>, n: Node)
    requires Stock(t) == Stock(s) && t.free == {} && t.at.Keys <= s.at.Keys + p && n in p && n !in t.at
    ensures |s.free| < |p - s.at.Keys|
  {
    UnionSize(s.at.Keys, p);
    UnionSize(t.at.Keys + {n}, s.at.Keys + p);
    assert t.at.Keys + {n} + (s.at.Keys + p) == s.at.Keys + p;
    assert |t.at.Keys + {n}| == |t.at.Keys| + 1;
  }

  // --- Ranges of pages ---------------------------------------------------------------------------------

  lemma RouteOne(a: nat, v: nat)
    ensures Route(a, v, 1) == Path(a, v)
  {
    hide Path;
  }

  lemma RouteNext(a: nat, v: nat, i: nat)
    ensures Route(a, v, i + 1) == Route(a, v, i) + Path(a, v + i)
    ensures Route(a, v, 0) == {}
  {
    hide Path;
  }

  lemma RouteGrows(a: nat, v: nat, i: nat, j: nat)
    requires i <= j
    ensures Route(a, v, i) <= Route(a, v, j)
  {
    hide Path;
  }

  lemma SubsetSize(a: set<Node>, b: set<Node>)
    requires a <= b
    ensures |a| <= |b|
  {
    assert b == a + (b - a);
  }

  /** Fewer pages cost no more. */
  lemma AffordableBelow(s: State, a: nat, v: nat, i: nat, j: nat)
    requires i <= j && Affordable(s, a, v, j)
    ensures Affordable(s, a, v, i)
  {
    hide Route;
    RouteGrows(a, v, i, j);
    SubsetSize(Route(a, v, i) - s.at.Keys, Route(a, v, j) - s.at.Keys);
  }

  /** After i pages from s to t. */
  ghost predicate Paid(s: State, t: State, a: nat, v: nat, i: nat) {
    Stock(t) + i == Stock(s) && t.at.Keys == s.at.Keys + Route(a, v, i) && Affordable(s, a, v, i)
  }

  lemma PaidStart(s: State, a: nat, v: nat)
    ensures Paid(s, s, a, v, 0)
  {
    RouteNext(a, v, 0);
  }

  /** One more page can be afforded exactly if i + 1 could from the start. */
  lemma PaidStep(s: State, t: State, u: State, a: nat, v: nat, i: nat, ok: bool)
    requires Paid(s, t, a, v, i) && Afforded(t, u, a, v + i, ok)
    ensures ok <==> Affordable(s, a, v, i + 1)
    ensures ok ==> Paid(s, u, a, v, i + 1)
  {
    hide Route, Path;
    RouteNext(a, v, i);
    ThreeSizes(s.at.Keys, Route(a, v, i), Path(a, v + i));
  }

  lemma PaidAll(s: State, t: State, a: nat, v: nat, i: nat)
    requires Paid(s, t, a, v, i)
    ensures Affordable(s, a, v, i)
  {
  }

  lemma NotAll(s: State, a: nat, v: nat, i: nat, count: nat)
    requires i < count && !Affordable(s, a, v, i + 1)
    ensures !Affordable(s, a, v, count)
  {
    hide Affordable;
    if Affordable(s, a, v, count) {
      AffordableBelow(s, a, v, i + 1, count);
    }
  }

  lemma ThreeSizes(a: set<Node>, b: set<Node>, c: set<Node>)
    ensures |a + b| + |c - (a + b)| == |a| + |(b + c) - a|
  {
    UnionSize(a + b, c);
    UnionSize(a, b + c);
    assert a + b + c == a + (b + c);
  }

  // --- Forks ---------------------------------------------------------------------------------------------

  /** The pages below b have been copied: dst has the tables on the way to them. */
  ghost predicate Built(s: State, t: State, src: nat, dst: nat, b: nat) {
    Stock(t) == Stock(s) && t.at.Keys == s.at.Keys + Copied(Meaning(s), src, dst, b)
  }

  lemma BuiltStart(s: State, src: nat, dst: nat)
    ensures Built(s, s, src, dst, 0)
  {
    assert Copied(Meaning(s), src, dst, 0) == {};
  }

  lemma BuiltSkip(s: State, t: State, src: nat, dst: nat, b: nat, b': nat)
    requires Built(s, t, src, dst, b) && b <= b' && forall v :: b <= v < b' ==> Slot(src, v) !in Meaning(s)
    ensures Built(s, t, src, dst, b')
  {
    hide Meaning, Path;
    assert Copied(Meaning(s), src, dst, b') == Copied(Meaning(s), src, dst, b);
  }

  lemma BuiltPage(s: State, t: State, u: State, src: nat, dst: nat, v: nat)
    requires Built(s, t, src, dst, v) && Slot(src, v) in Meaning(s)
    requires Stock(u) == Stock(t) && u.at.Keys == t.at.Keys + Path(dst, v)
    ensures Built(s, u, src, dst, v + 1)
  {
    hide Meaning, Path;
    CopiedNext(Meaning(s), src, dst, v);
    hide Copied;
  }

  lemma CopiedNext(m: map<Key, Seen>, src: nat, dst: nat, v: nat)
    requires Slot(src, v) in m
    ensures Copied(m, src, dst, v + 1) == Copied(m, src, dst, v) + Path(dst, v)
  {
    hide Path;
    forall n | n in Path(dst, v)
      ensures n in Copied(m, src, dst, v + 1)
    {
      assert Slot(src, v) in m && n in Path(dst, Slot(src, v).vpn);
    }
  }

  lemma CopiedNodes(m: map<Key, Seen>, src: nat, dst: nat, b: nat)
    ensures forall n :: n in Copied(m, src, dst, b) ==> n.space == dst && n.level < 3
  {
  }

  /** The frames ran out at page v: the whole copy was not affordable. */
  lemma BuiltFails(s: State, t: State, u: State, src: nat, dst: nat, v: nat, n: Node)
    requires Built(s, t, src, dst, v) && Slot(src, v) in Meaning(s) && v < USER_PAGES
    requires Stock(u) == Stock(t) && u.free == {} && u.at.Keys <= t.at.Keys + Path(dst, v)
    requires n in Path(dst, v) && n !in u.at
    ensures |s.free| < |Copied(Meaning(s), src, dst, USER_PAGES) - s.at.Keys|
  {
    hide Meaning, Path;
    CopiedNext(Meaning(s), src, dst, v);
    CopiedGrows(Meaning(s), src, dst, v + 1);
    hide Copied;
    RanOut(s, u, Copied(Meaning(s), src, dst, USER_PAGES), n);
  }

  lemma CopiedGrows(m: map<Key, Seen>, src: nat, dst: nat, b: nat)
    requires b <= USER_PAGES
    ensures Copied(m, src, dst, b) <= Copied(m, src, dst, USER_PAGES)
  {
    hide Path;
  }

  /** A copy has as many tables as what is copied. */
  lemma SameTables(m: map<Key, Seen>, src: nat, dst: nat)
    ensures |Copied(m, src, dst, USER_PAGES)| == |Tables(m, src)|
  {
    forall k, n | k in m && k.Slot? && k.space == src && n in Path(src, k.vpn)
      ensures Moved(n, dst) in Path(dst, k.vpn)
    {
    }
    forall k, n | k in m && k.Slot? && k.space == src && n in Path(dst, k.vpn)
      ensures Moved(n, src) in Path(src, k.vpn) && Moved(Moved(n, src), dst) == n
    {
    }
    var a := Tables(m, src);
    assert forall n :: n in a ==> n.space == src;
    hide Path;
    assert forall n :: n in a ==> Moved(n, dst) in Copied(m, src, dst, USER_PAGES);
    assert forall n :: n in Copied(m, src, dst, USER_PAGES) ==> Moved(n, src) in a;
    assert Copied(m, src, dst, USER_PAGES) == set n | n in a :: Moved(n, dst);
    MovedSize(a, src, dst);
  }

  function Moved(n: Node, a: nat): Node {
    n.(space := a)
  }

  lemma {:induction false} MovedSize(s: set<Node>, a: nat, b: nat)
    requires forall n :: n in s ==> n.space == a
    ensures |set n | n in s :: Moved(n, b)| == |s|
    decreases |s|
  {
    if s != {} {
      var x :| x in s;
      var rest := s - {x};
      MovedSize(rest, a, b);
      assert Moved(x, b) !in (set n | n in rest :: Moved(n, b));
      assert (set n | n in s :: Moved(n, b)) == (set n | n in rest :: Moved(n, b)) + {Moved(x, b)};
    } else {
      assert (set n | n in s :: Moved(n, b)) == {};
    }
  }
}
