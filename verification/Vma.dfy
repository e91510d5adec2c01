/** The sorted list of memory areas of an address space (kernel/mm/vma.c).
    Addresses are 64 bits wide and wrap around. */
module Vma {

  const PAGE: nat := 4096
  const WORD: nat := 0x1_0000_0000_0000_0000
  const SPACE_START: nat := 0x400000
  const SPACE_END: nat := 0x7FFFFFFFFFFF

  datatype Vma = Vma(start: nat, end: nat, flags: nat, prot: nat, file: nat, offset: nat)

  function Down(x: nat): nat {
    x / PAGE * PAGE
  }

  /** ALIGN_UP on 64 bits. */
  function Up(x: nat): nat {
    (x + (PAGE - 1)) % WORD / PAGE * PAGE
  }

  function Plus(x: nat, y: nat): nat {
    (x + y) % WORD
  }

  // --- The list ----------------------------------------------------------------------------------

  predicate AreaOk(v: Vma) {
    v.start < v.end < WORD && v.start % PAGE == 0 && v.end % PAGE == 0
  }

  /** Areas are page aligned, sorted, and do not overlap. */
  ghost predicate ListOk(vs: seq<Vma>) {
    && (forall i :: 0 <= i < |vs| ==> AreaOk(vs[i]))
    && (forall i, j :: 0 <= i < j < |vs| ==> vs[i].end <= vs[j].start)
  }

  predicate Within(v: Vma, addr: nat) {
    v.start <= addr < v.end
  }

  /** The range shares an address with the area. */
  predicate Meets(v: Vma, start: nat, end: nat) {
    start < v.end && end > v.start
  }

  ghost predicate Clash(vs: seq<Vma>, start: nat, end: nat) {
    exists i :: 0 <= i < |vs| && Meets(vs[i], start, end)
  }

  ghost predicate Taken(vs: seq<Vma>, start: nat, size: nat) {
    Clash(vs, start, start + size)
  }

  /** For a range that is not empty, meeting an area is sharing an address with it. */
  lemma MeetsIs(v: Vma, start: nat, end: nat)
    requires v.start < v.end && start < end
    ensures Meets(v, start, end) <==> exists a: nat :: Within(v, a) && start <= a < end
  {
    if Meets(v, start, end) {
      var a := if start <= v.start then v.start else start;
      assert Within(v, a) && start <= a < end;
    }
  }

  ghost predicate InsertedIn(vs: seq<Vma>, ws: seq<Vma>, v: Vma) {
    exists i :: 0 <= i <= |vs| && ws == vs[..i] + [v] + vs[i..]
  }

  lemma Inserted(vs: seq<Vma>, i: nat, v: Vma)
    requires ListOk(vs) && i <= |vs| && AreaOk(v) && !Clash(vs, v.start, v.end)
    requires forall k :: 0 <= k < i ==> vs[k].start < v.start
    requires i < |vs| ==> vs[i].start >= v.start
    ensures ListOk(vs[..i] + [v] + vs[i..])
  {
  }

  lemma Removed(vs: seq<Vma>, i: nat)
    requires ListOk(vs) && i < |vs|
    ensures ListOk(vs[..i] + vs[i + 1..])
  {
  }

  lemma Aligned(x: nat)
    ensures Down(x) % PAGE == 0 && Down(x) <= x < Down(x) + PAGE
    ensures Up(x) % PAGE == 0 && Up(x) < WORD
    ensures x % PAGE == 0 ==> Down(x) == x && (x < WORD ==> Up(x) == x)
    ensures x + (PAGE - 1) < WORD ==> x <= Up(x) < x + PAGE
  {
  }

  class VmaList {
    var areas: seq<Vma>
    var count: nat

    ghost predicate Valid()
      reads this
    {
      ListOk(areas) && count == |areas|
    }

    constructor ()
      ensures Valid() && areas == []
    {
      areas, count := [], 0;
    }

    /** The early exit loses nothing: the answer is that of an exhaustive search. */
    method Overlaps(start: nat, end: nat) returns (r: bool)
      requires Valid()
      ensures r <==> Clash(areas, start, end)
    {
      for i := 0 to |areas|
        invariant forall k :: 0 <= k < i ==> !Meets(areas[k], start, end)
      {
        if Meets(areas[i], start, end) {
          return true;
        }
        if areas[i].start >= end {
          assert forall k :: i <= k < |areas| ==> areas[k].start >= areas[i].start;
          return false;
        }
      }
      return false;
    }

    method Find(addr: nat) returns (found: bool, i: nat)
      requires Valid()
      ensures found ==> i < |areas| && Within(areas[i], addr)
      ensures found ==> forall k :: 0 <= k < |areas| && Within(areas[k], addr) ==> k == i
      ensures !found ==> forall k :: 0 <= k < |areas| ==> !Within(areas[k], addr)
    {
      for j := 0 to |areas|
        invariant forall k :: 0 <= k < j ==> !Within(areas[k], addr)
      {
        if Within(areas[j], addr) {
          return true, j;
        }
        if areas[j].start > addr {
          assert forall k :: j <= k < |areas| ==> areas[k].start >= areas[j].start;
          return false, 0;
        }
      }
      return false, 0;
    }

    /** The area that holds addr, or else the lowest area above it. */
    method FindOrNext(addr: nat) returns (found: bool, i: nat)
      requires Valid()
      ensures found <==> exists k :: 0 <= k < |areas| && addr < areas[k].end
      ensures found ==> i < |areas| && addr < areas[i].end
      ensures found ==> forall k :: 0 <= k < |areas| && addr < areas[k].end ==> areas[i].start <= areas[k].start
    {
      for j := 0 to |areas|
        invariant forall k :: 0 <= k < j ==> areas[k].end <= addr
      {
        if addr < areas[j].end {
          assert forall k :: j < k < |areas| ==> areas[j].start <= areas[k].start;
          return true, j;
        }
      }
      return false, 0;
    }

    method Insert(v: Vma)
      requires Valid() && AreaOk(v) && !Clash(areas, v.start, v.end)
      modifies this
      ensures Valid() && count == old(count) + 1
      ensures InsertedIn(old(areas), areas, v)
    {
      var i := 0;
      while i < |areas| && areas[i].start < v.start
        invariant 0 <= i <= |areas|
        invariant forall k :: 0 <= k < i ==> areas[k].start < v.start
      {
        i := i + 1;
      }
      Inserted(areas, i, v);
      areas := areas[..i] + [v] + areas[i..];
      count := count + 1;
    }

    /** memory says whether a descriptor can be had. */
    method Create(start: nat, end: nat, flags: nat, prot: nat, memory: bool) returns (ok: bool)
      requires Valid() && start < WORD && end < WORD
      modifies this
      ensures Valid()
      ensures ok <==> Down(start) < Up(end) && !Clash(old(areas), Down(start), Up(end)) && memory
      ensures !ok ==> areas == old(areas)
      ensures ok ==> InsertedIn(old(areas), areas, Vma(Down(start), Up(end), flags, prot, 0, 0))
    {
      hide Down, Up;
      Aligned(start);
      Aligned(end);
      var s, e := Down(start), Up(end);
      if s >= e {
        return false;
      }
      var clash := Overlaps(s, e);
      if clash || !memory {
        return false;
      }
      Insert(Vma(s, e, flags, prot, 0, 0));
      return true;
    }

    method Destroy(i: nat)
      requires Valid() && i < |areas|
      modifies this
      ensures Valid() && areas == old(areas[..i]) + old(areas[i + 1..]) && count == old(count) - 1
    {
      Removed(areas, i);
      areas := areas[..i] + areas[i + 1..];
      count := count - 1;
    }

    /** The hint if it passes the test, or else the first candidate that does.  Both are
        right under exact conditions: HintRight and SearchRight. */
    method FindFree(size: nat, hint: nat) returns (r: nat)
      requires Valid() && size < WORD && hint < WORD
      ensures r == if HintOk(areas, Whole(size), hint) then Up(hint) else FirstFit(areas, 0, Whole(size))
      ensures HintOk(areas, Whole(size), hint) ==>
                (Room(areas, r, Whole(size)) && hint <= r <==> Up(hint) + Whole(size) < WORD)
      ensures !HintOk(areas, Whole(size), hint) ==>
                (Lowest(areas, Whole(size), r) <==> HasGap(areas, Whole(size)) || !WrapsInto(areas, Whole(size)))
    {
      hide Up, Whole, Plus, HasGap, WrapsInto, Lowest, Taken;
      var sz := Up(size);
      ghost var n := Whole(size);
      WholeIs(size);
      if hint != 0 {
        var h := Up(hint);
        SamePlus(h, size);
        if h >= SPACE_START && Plus(h, sz) <= SPACE_END {
          var clash := Overlaps(h, Plus(h, sz));
          if !clash {
            HintRight(areas, n, hint);
            return h;
          }
        }
      }
      SearchRight(areas, n);
      var from := SPACE_START;
      for i := 0 to |areas|
        invariant from == From(areas, i) && FirstFit(areas, 0, n) == FirstFit(areas, i, n)
      {
        SamePlus(from, size);
        if Plus(from, sz) <= areas[i].start {
          return from;
        }
        if areas[i].end > from {
          from := areas[i].end;
        }
      }
      SamePlus(from, size);
      if Plus(from, sz) <= SPACE_END {
        return from;
      }
      return 0;
    }

    /** vma_list_clone; descriptors says how many allocations succeed. */
    method Clone(descriptors: nat) returns (copy: VmaList?)
      requires Valid()
      ensures copy == null <==> descriptors < |areas|
      ensures copy != null ==> fresh(copy) && copy.Valid() && copy.areas == areas
    {
      var dst := new VmaList();
      for i := 0 to |areas|
        invariant fresh(dst) && dst.Valid() && dst.areas == areas[..i] && i <= descriptors
      {
        var v := areas[i];
        Aligned(v.start);
        Aligned(v.end);
        assert !Clash(dst.areas, v.start, v.end);
        var ok := dst.Create(v.start, v.end, v.flags, v.prot, i < descriptors);
        if !ok {
          return null;
        }
        var w := Vma(v.start, v.end, v.flags, v.prot, 0, 0);
        AppendedLast(areas[..i], dst.areas, w);
        dst.areas := dst.areas[i := dst.areas[i].(file := v.file, offset := v.offset)];
        assert dst.areas == areas[..i + 1];
      }
      return dst;
    }
  }

  lemma Behind(vs: seq<Vma>, ws: seq<Vma>, v: Vma, i: nat)
    requires i < |vs| && ws == vs[..i] + [v] + vs[i..] && ListOk(ws)
    ensures v.start < vs[i].start
  {
    assert ws[i] == v && ws[i + 1] == vs[i];
  }

  /** An area above all others is inserted at the end. */
  lemma AppendedLast(vs: seq<Vma>, ws: seq<Vma>, v: Vma)
    requires InsertedIn(vs, ws, v) && ListOk(ws) && forall k :: 0 <= k < |vs| ==> vs[k].start < v.start
    ensures ws == vs + [v]
  {
    var i :| 0 <= i <= |vs| && ws == vs[..i] + [v] + vs[i..];
    if i < |vs| {
      Behind(vs, ws, v, i);
    }
  }

  // --- The search for room ---------------------------------------------------------------------

  /** The size in whole pages, without wrap-around. */
  function Whole(size: nat): nat {
    (size + (PAGE - 1)) / PAGE * PAGE
  }

  lemma WholeIs(size: nat)
    requires size < WORD
    ensures size <= Whole(size) <= WORD && Whole(size) % PAGE == 0
    ensures Up(size) == Whole(size) % WORD
  {
  }

  /** Adding the rounded size on 64 bits is adding whole pages on 64 bits. */
  lemma SamePlus(x: nat, size: nat)
    requires size < WORD
    ensures Plus(x, Up(size)) == Plus(x, Whole(size))
  {
    WholeIs(size);
  }

  /** Candidate i: behind the first i areas, in user space. */
  function From(vs: seq<Vma>, i: nat): nat
    requires i <= |vs|
  {
    if i == 0 || vs[i - 1].end <= SPACE_START then SPACE_START else vs[i - 1].end
  }

  /** Where the room at candidate i ends. */
  function Limit(vs: seq<Vma>, i: nat): nat
    requires i <= |vs|
  {
    if i < |vs| then vs[i].start else SPACE_END
  }

  /** The code's test of candidate i. */
  predicate Passes(vs: seq<Vma>, i: nat, n: nat)
    requires i <= |vs|
  {
    Plus(From(vs, i), n) <= Limit(vs, i)
  }

  /** The first candidate from i on that passes the test; 0 if none does. */
  function FirstFit(vs: seq<Vma>, i: nat, n: nat): nat
    requires i <= |vs|
    decreases |vs| - i
  {
    if Passes(vs, i, n) then From(vs, i) else if i == |vs| then 0 else FirstFit(vs, i + 1, n)
  }

  /** Room for n bytes at s: free, and inside user space or below some area. */
  ghost predicate Room(vs: seq<Vma>, s: nat, n: nat) {
    && SPACE_START <= s && !Taken(vs, s, n)
    && (s + n <= SPACE_END || exists i :: 0 <= i < |vs| && s + n <= vs[i].start)
  }

  ghost predicate HasGap(vs: seq<Vma>, n: nat) {
    exists s: nat :: Room(vs, s, n)
  }

  /** At some candidate the sum leaves the 64 bits and comes down below the limit. */
  ghost predicate WrapsInto(vs: seq<Vma>, n: nat) {
    exists i: nat :: i <= |vs| && WrapsAt(vs, i, n)
  }

  predicate WrapsAt(vs: seq<Vma>, i: nat, n: nat)
    requires i <= |vs|
  {
    WORD <= From(vs, i) + n <= WORD + Limit(vs, i)
  }

  /** r is the lowest place for n bytes; 0 only if there is none in user space. */
  ghost predicate Lowest(vs: seq<Vma>, n: nat, r: nat) {
    if r == 0 then forall s: nat :: SPACE_START <= s && s + n <= SPACE_END ==> Taken(vs, s, n)
    else Room(vs, r, n) && r % PAGE == 0 && forall s: nat :: SPACE_START <= s < r ==> Taken(vs, s, n)
  }

  /** The test is exact unless the sum wraps. */
  lemma PassesIs(vs: seq<Vma>, i: nat, n: nat)
    requires ListOk(vs) && i <= |vs| && n <= WORD
    ensures Passes(vs, i, n) <==> From(vs, i) + n <= Limit(vs, i) || WrapsAt(vs, i, n)
    ensures SPACE_START <= From(vs, i) < WORD && Limit(vs, i) < WORD && From(vs, i) % PAGE == 0
  {
  }

  lemma {:induction false} CandidatesRise(vs: seq<Vma>, i: nat, j: nat)
    requires ListOk(vs) && i <= j <= |vs|
    ensures From(vs, i) <= From(vs, j)
    ensures forall k :: 0 <= k < j ==> vs[k].end <= From(vs, j)
  {
    forall k | 0 <= k < j
      ensures vs[k].end <= From(vs, j)
    {
      assert k < j - 1 ==> vs[k].end <= vs[j - 1].start < vs[j - 1].end;
    }
  }

  lemma RoomAt(vs: seq<Vma>, i: nat, n: nat)
    requires ListOk(vs) && i <= |vs| && From(vs, i) + n <= Limit(vs, i)
    ensures Room(vs, From(vs, i), n)
  {
    CandidatesRise(vs, i, i);
    forall k | 0 <= k < |vs|
      ensures !Meets(vs[k], From(vs, i), From(vs, i) + n)
    {
      assert k > i ==> vs[i].end <= vs[k].start;
    }
  }

  /** Below any room lies a candidate with room. */
  lemma RoomHasCandidate(vs: seq<Vma>, s: nat, n: nat, i: nat) returns (c: nat)
    requires ListOk(vs) && Room(vs, s, n) && i <= |vs| && forall k :: 0 <= k < i ==> vs[k].end <= s
    ensures c <= |vs| && From(vs, c) + n <= Limit(vs, c) && From(vs, c) <= s
    decreases |vs| - i
  {
    c := i;
    if i < |vs| {
      assert !Meets(vs[i], s, s + n);
      if vs[i].end <= s {
        c := RoomHasCandidate(vs, s, n, i + 1);
      }
    }
  }

  lemma {:induction false} TakenBelow(vs: seq<Vma>, i: nat, n: nat)
    requires ListOk(vs) && i <= |vs| && forall j: nat :: j < i ==> From(vs, j) + n > Limit(vs, j)
    ensures forall s: nat :: SPACE_START <= s < From(vs, i) ==> Taken(vs, s, n)
  {
    if i > 0 {
      TakenBelow(vs, i - 1, n);
      forall s: nat | SPACE_START <= s < From(vs, i)
        ensures Taken(vs, s, n)
      {
        if s >= From(vs, i - 1) {
          assert From(vs, i - 1) + n > Limit(vs, i - 1) == vs[i - 1].start;
          assert Meets(vs[i - 1], s, s + n);
        }
      }
    }
  }

  /** Where the search stops. */
  lemma {:induction false} FitIs(vs: seq<Vma>, i: nat, n: nat) returns (k: nat)
    requires i <= |vs|
    ensures i <= k <= |vs| + 1 && forall j: nat :: i <= j < k && j <= |vs| ==> !Passes(vs, j, n)
    ensures k <= |vs| ==> Passes(vs, k, n) && FirstFit(vs, i, n) == From(vs, k)
    ensures k == |vs| + 1 ==> FirstFit(vs, i, n) == 0
    decreases |vs| - i
  {
    hide Passes;
    k := i;
    if !Passes(vs, i, n) {
      k := |vs| + 1;
      if i < |vs| {
        k := FitIs(vs, i + 1, n);
      }
    }
  }

  /** The search answers rightly if and only if there is real room, or no sum that
      leaves the 64 bits comes down below the limit of its candidate. */
  lemma SearchRight(vs: seq<Vma>, n: nat)
    requires ListOk(vs) && n <= WORD
    ensures Lowest(vs, n, FirstFit(vs, 0, n)) <==> HasGap(vs, n) || !WrapsInto(vs, n)
  {
    hide Passes, From, Limit, Taken, Plus, FirstFit;
    var k := FitIs(vs, 0, n);
    forall j: nat | j <= |vs|
      ensures Passes(vs, j, n) <==> From(vs, j) + n <= Limit(vs, j) || WrapsAt(vs, j, n)
      ensures SPACE_START <= From(vs, j) < WORD && Limit(vs, j) < WORD && From(vs, j) % PAGE == 0
    {
      PassesIs(vs, j, n);
    }
    if s: nat :| Room(vs, s, n) {
      var c := RoomHasCandidate(vs, s, n, 0);
      FirstIsExact(vs, n, k, c);
    } else if WrapsInto(vs, n) {
      assert !Room(vs, FirstFit(vs, 0, n), n);
    } else {
      if k <= |vs| {
        RoomAt(vs, k, n);
      }
      NoRoom(vs, n);
    }
  }

  lemma NoRoom(vs: seq<Vma>, n: nat)
    requires !HasGap(vs, n)
    ensures Lowest(vs, n, 0)
  {
    forall s: nat | SPACE_START <= s && s + n <= SPACE_END
      ensures Taken(vs, s, n)
    {
      assert !Room(vs, s, n);
    }
  }

  lemma FirstIsExact(vs: seq<Vma>, n: nat, k: nat, c: nat)
    requires ListOk(vs) && n <= WORD && c <= |vs| && From(vs, c) + n <= Limit(vs, c)
    requires k <= |vs| + 1 && (forall j: nat :: j < k && j <= |vs| ==> !Passes(vs, j, n))
    requires k <= |vs| ==> Passes(vs, k, n)
    ensures k <= |vs| && Lowest(vs, n, From(vs, k))
  {
    hide Taken, Plus;
    PassesIs(vs, c, n);
    CandidatesRise(vs, k, c);
    PassesIs(vs, k, n);
    RoomAt(vs, k, n);
    forall j: nat | j < k
      ensures From(vs, j) + n > Limit(vs, j)
    {
      PassesIs(vs, j, n);
    }
    TakenBelow(vs, k, n);
  }

  ghost predicate HintOk(vs: seq<Vma>, n: nat, hint: nat) {
    && hint != 0 && Up(hint) >= SPACE_START && Plus(Up(hint), n) <= SPACE_END
    && !Clash(vs, Up(hint), Plus(Up(hint), n))
  }

  /** A hint that passes is room for the size if and only if the sum does not wrap. */
  lemma HintRight(vs: seq<Vma>, n: nat, hint: nat)
    requires n <= WORD && hint < WORD && HintOk(vs, n, hint) && ListOk(vs)
    ensures Room(vs, Up(hint), n) && hint <= Up(hint) <==> Up(hint) + n < WORD
  {
    Aligned(hint);
  }

  // --- Inputs on which it goes wrong ---------------------------------------------------------------

  /** A size that rounds up to 2^64 is found room for on an empty list. */
  lemma WrongSize()
    ensures var n := Whole(WORD - 1);
      n == WORD && FirstFit([], 0, n) == SPACE_START && !Lowest([], n, SPACE_START)
  {
  }

  /** A hint is accepted whose range runs over an area and out of the address space. */
  lemma WrongHint()
    ensures var vs := [Vma(0x600000, 0x601000, 0, 0, 0, 0)];
      var n := Whole(WORD - SPACE_START);
      ListOk(vs) && HintOk(vs, n, 0x500000) && Up(0x500000) == 0x500000 && Taken(vs, 0x500000, n)
  {
    var vs := [Vma(0x600000, 0x601000, 0, 0, 0, 0)];
    assert Meets(vs[0], 0x500000, 0x500000 + Whole(WORD - SPACE_START));
  }
}
