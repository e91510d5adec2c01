/** Values and invariants of the paging subsystem (kernel/mm/as.c, fault.c and
    the reference counts of pmm.c): physical memory, page tables inside it, and
    who holds a reference to which frame. */
module Paging {

  const ENTRIES: nat := 512
  const KERNEL_PML4_START: nat := 256
  const USER_PAGES: nat := 256 * 512 * 512 * 512

  /** A 64-bit word, read as a page-table entry: bits 12-51 as a frame number,
      the flag bits the code tests, and the remaining bits. */
  datatype Word = Word(addr: nat, present: bool, writable: bool, user: bool, huge: bool, cow: bool, bits: nat)

  const ZERO: Word := Word(0, false, false, false, false, false, 0)

  function ZeroPage(): (p: seq<Word>)
    ensures |p| == ENTRIES && forall i :: 0 <= i < ENTRIES ==> p[i] == ZERO
  {
    seq(ENTRIES, _ => ZERO)
  }

  /** A page table by position: level 3 is the PML4, level 0 a PT; prefix is
      the leading part of the virtual page numbers below it. */
  datatype Node = Node(space: nat, level: nat, prefix: nat)

  /** What can hold a reference to a user frame: a page-table slot, the kernel
      code running an operation, or nothing reachable any more. */
  datatype Key = Slot(space: nat, vpn: nat) | InHand | Leak(n: nat)

  datatype Space = Space(cr3: nat, refCount: nat)

  datatype State = State(
    mem: map<nat, seq<Word>>,
    refs: map<nat, nat>,
    free: set<nat>,
    spaces: map<nat, Space>,
    at: map<Node, nat>,
    pt: map<Key, Word>)

  // --- Positions ---------------------------------------------------------------

  function Child(n: Node, i: nat): Node
    requires n.level > 0
  {
    Node(n.space, n.level - 1, n.prefix * ENTRIES + i)
  }

  function Parent(n: Node): Node {
    Node(n.space, n.level + 1, n.prefix / ENTRIES)
  }

  function Root(a: nat): Node {
    Node(a, 3, 0)
  }

  function Leaf(a: nat, v: nat): Node {
    Node(a, 0, v / ENTRIES)
  }

  function Width(n: Node): nat {
    if n.level == 3 then KERNEL_PML4_START else ENTRIES
  }

  // --- References ----------------------------------------------------------------

  ghost function Refs(pt: map<Key, Word>, f: nat): set<Key> {
    set k | k in pt && pt[k].addr == f
  }

  ghost predicate IsUser(pt: map<Key, Word>, f: nat) {
    exists k :: k in pt && pt[k].addr == f
  }

  ghost predicate IsTable(at: map<Node, nat>, f: nat) {
    exists n :: n in at && at[n] == f
  }

  /** Every frame is exactly one of free, a page table, or a user frame whose
      count is the number of references to it. */
  ghost predicate FrameOk(s: State, f: nat)
    requires f in s.mem && f in s.refs
  {
    && |s.mem[f]| == ENTRIES
    && (f in s.free ==> !IsUser(s.pt, f) && !IsTable(s.at, f) && s.refs[f] == 0)
    && (IsTable(s.at, f) ==> !IsUser(s.pt, f) && s.refs[f] == 1)
    && (IsUser(s.pt, f) ==> s.refs[f] == |Refs(s.pt, f)|)
    && (f in s.free || IsTable(s.at, f) || IsUser(s.pt, f))
  }

  ghost predicate Frames(s: State, all: set<nat>) {
    && 0 !in all
    && s.mem.Keys == all && s.refs.Keys == all
    && s.free <= all
    && (forall n :: n in s.at ==> s.at[n] in all)
    && (forall k :: k in s.pt ==> s.pt[k].addr in all)
    && (forall n, m :: n in s.at && m in s.at && s.at[n] == s.at[m] ==> n == m)
    && (forall f :: f in all ==> FrameOk(s, f))
  }

  // --- The tables in memory -------------------------------------------------------

  ghost predicate Placed(n: Node) {
    && n.level <= 3
    && n.prefix < (if n.level == 3 then 1 else if n.level == 2 then 256
                   else if n.level == 1 then 256 * 512 else 256 * 512 * 512)
  }

  /** Entry i of a table above the leaves points at the table below it, if any. */
  ghost predicate InnerOk(s: State, n: Node, e: Word, i: nat)
    requires n.level > 0
  {
    && (e.present <==> Child(n, i) in s.at)
    && (e.present ==> !e.huge && e.addr == s.at[Child(n, i)])
  }

  function SlotOf(n: Node, i: nat): Key {
    Slot(n.space, n.prefix * ENTRIES + i)
  }

  ghost predicate LeafOk(s: State, n: Node, e: Word, i: nat) {
    var k := SlotOf(n, i);
    (e.present <==> k in s.pt) && (e.present ==> e == s.pt[k])
  }

  /** The table at position n holds what the positions and slots below it say. */
  ghost predicate NodeOk(s: State, n: Node)
    requires n in s.at
  {
    && Placed(n)
    && s.at[n] in s.mem && |s.mem[s.at[n]]| == ENTRIES
    && (n.level < 3 ==> Parent(n) in s.at)
    && (n.level > 0 ==> forall i: nat :: i < Width(n) ==> InnerOk(s, n, s.mem[s.at[n]][i], i))
    && (n.level == 0 ==> forall i: nat :: i < ENTRIES ==> LeafOk(s, n, s.mem[s.at[n]][i], i))
  }

  ghost predicate SlotOk(s: State, k: Key)
    requires k in s.pt && k.Slot?
  {
    k.vpn < USER_PAGES && Leaf(k.space, k.vpn) in s.at && s.pt[k].present
  }

  /** Tables and slots of the given spaces agree with memory. */
  ghost predicate Tree(s: State, live: set<nat>) {
    && (forall a :: a in live ==> Root(a) in s.at)
    && (forall n :: n in s.at && n.space in live ==> NodeOk(s, n))
    && (forall k :: k in s.pt && k.Slot? && k.space in live ==> SlotOk(s, k))
  }

  /** A writable slot is the only reference to its frame. */
  ghost predicate Exclusive(pt: map<Key, Word>) {
    forall k, j :: k in pt && j in pt && k.Slot? && pt[k].writable && pt[j].addr == pt[k].addr ==> j == k
  }

  ghost predicate KernelHalf(s: State, kernel: seq<Word>)
    requires |kernel| == ENTRIES
  {
    forall a :: a in s.spaces ==>
      && s.spaces[a].cr3 in s.mem && |s.mem[s.spaces[a].cr3]| == ENTRIES
      && (forall i :: KERNEL_PML4_START <= i < ENTRIES ==> s.mem[s.spaces[a].cr3][i] == kernel[i])
  }

  ghost predicate Roots(s: State) {
    forall a :: a in s.spaces ==> Root(a) in s.at && s.at[Root(a)] == s.spaces[a].cr3 && s.spaces[a].refCount > 0
  }

  ghost predicate Inv(s: State, all: set<nat>, kernel: seq<Word>) {
    && |kernel| == ENTRIES
    && Frames(s, all)
    && Tree(s, s.spaces.Keys)
    && Roots(s)
    && Exclusive(s.pt)
    && KernelHalf(s, kernel)
  }

  /** Nothing in hand and every table and slot belongs to a live space. */
  ghost predicate Settled(s: State) {
    && InHand !in s.pt
    && (forall n :: n in s.at ==> n.space in s.spaces)
    && (forall k :: k in s.pt && k.Slot? ==> k.space in s.spaces)
  }

  // --- Walking the tables ---------------------------------------------------------

  /** The table at level l on the way to page v. */
  function Along(a: nat, v: nat, l: nat): Node {
    Node(a, l, if l == 0 then v / 512 else if l == 1 then v / (512 * 512)
               else if l == 2 then v / (512 * 512 * 512) else v / (512 * 512 * 512 * 512))
  }

  /** The macros PML4_INDEX .. PT_INDEX on the page number. */
  function Index(v: nat, l: nat): (i: nat)
    ensures i < ENTRIES
  {
    if l == 0 then v % 512 else if l == 1 then v / 512 % 512
    else if l == 2 then v / (512 * 512) % 512 else v / (512 * 512 * 512) % 512
  }

  lemma AlongStep(a: nat, v: nat, l: nat)
    requires 0 < l <= 3 && v < USER_PAGES
    ensures Child(Along(a, v, l), Index(v, l)) == Along(a, v, l - 1)
    ensures Index(v, l) < Width(Along(a, v, l))
    ensures Along(a, v, 3) == Root(a) && Along(a, v, 0) == Leaf(a, v)
    ensures Parent(Along(a, v, l - 1)) == Along(a, v, l)
  {
  }

  /** Where v is mapped, every table on the way is there. */
  lemma AlongIn(s: State, live: set<nat>, a: nat, v: nat, l: nat)
    requires Tree(s, live) && a in live && Slot(a, v) in s.pt && l <= 3
    ensures Along(a, v, l) in s.at
    decreases l
  {
  }

  /** The leaf entry of a page says whether and how it is mapped. */
  lemma LeafEntry(s: State, live: set<nat>, a: nat, v: nat)
    requires Tree(s, live) && a in live && Leaf(a, v) in s.at
    ensures s.at[Leaf(a, v)] in s.mem && |s.mem[s.at[Leaf(a, v)]]| == ENTRIES
    ensures var e := s.mem[s.at[Leaf(a, v)]][v % ENTRIES];
            (e.present <==> Slot(a, v) in s.pt) && (e.present ==> e == s.pt[Slot(a, v)])
  {
  }

  /** An inner entry says whether and where the next table is. */
  lemma InnerEntry(s: State, live: set<nat>, n: Node, i: nat)
    requires Tree(s, live) && n in s.at && n.space in live && n.level > 0 && i < Width(n)
    ensures s.at[n] in s.mem && |s.mem[s.at[n]]| == ENTRIES
    ensures var e := s.mem[s.at[n]][i];
            (e.present <==> Child(n, i) in s.at) && (e.present ==> !e.huge && e.addr == s.at[Child(n, i)])
  {
  }

  lemma ParentOfChild(n: Node, i: nat)
    requires n.level > 0 && i < ENTRIES
    ensures Parent(Child(n, i)) == n
    ensures Placed(n) && i < Width(n) ==> Placed(Child(n, i))
  {
  }
}
