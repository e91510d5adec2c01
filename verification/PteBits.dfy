/** Page-table entries and addresses as 64-bit words: the mask expressions of
    kernel/mm/as.c and fault.c do what the model does on an entry's fields. */
module PteBits {
  import opened Paging

  const PRESENT: bv64 := 1
  const WRITABLE: bv64 := 2
  const USER: bv64 := 4
  const HUGE: bv64 := 0x80
  const COW: bv64 := 0x200
  const ADDR_MASK: bv64 := 0x000FFFFFFFFFF000
  const REST_MASK: bv64 := 0xFFF0000000000D78

  function Number(x: bv64): nat {
    x as nat
  }

  /** The fields of an entry. */
  function Decode(e: bv64): Word {
    Word(Number((e & ADDR_MASK) >> 12), e & PRESENT != 0, e & WRITABLE != 0, e & USER != 0, e & HUGE != 0, e & COW != 0,
         Number(e & REST_MASK))
  }

  lemma NumberInjective(x: bv64, y: bv64)
    requires Number(x) == Number(y)
    ensures x == y
  {
    assert (x as nat) as bv64 == (y as nat) as bv64;
  }

  lemma PartsEqual(e: bv64, f: bv64)
    requires (e & ADDR_MASK) >> 12 == (f & ADDR_MASK) >> 12 && e & REST_MASK == f & REST_MASK
    requires (e & WRITABLE != 0) == (f & WRITABLE != 0) && (e & USER != 0) == (f & USER != 0)
    requires (e & PRESENT != 0) == (f & PRESENT != 0) && (e & HUGE != 0) == (f & HUGE != 0)
             && (e & COW != 0) == (f & COW != 0)
    ensures e == f
  {
  }

  /** The fields make up the whole entry. */
  lemma DecodeInjective(e: bv64, f: bv64)
    requires Decode(e) == Decode(f)
    ensures e == f
  {
    hide Number;
    NumberInjective((e & ADDR_MASK) >> 12, (f & ADDR_MASK) >> 12);
    NumberInjective(e & REST_MASK, f & REST_MASK);
    PartsEqual(e, f);
  }

  /** as_map_page's entry: the frame's address, the caller's flags, present. */
  lemma MapEntry(phys: bv64, flags: bv64)
    ensures Decode((phys & ADDR_MASK) | (flags & !ADDR_MASK) | PRESENT)
         == Decode(flags).(addr := Number((phys & ADDR_MASK) >> 12), present := true)
  {
  }

  /** The entry of a new table below: present, writable, user. */
  lemma TableEntry(table: bv64)
    requires table & !ADDR_MASK == 0
    ensures Decode(table | PRESENT | WRITABLE | USER)
         == Word(Number(table >> 12), true, true, true, false, false, Number(0))
  {
  }

  /** as_clone's entry for a writable page, in the child and in the parent. */
  lemma ShareEntry(e: bv64)
    ensures Decode((e & ADDR_MASK & ADDR_MASK) | (((e & !ADDR_MASK) & !WRITABLE) | COW))
         == Decode(e).(writable := false, cow := true)
  {
  }

  /** handle_cow_fault, when the frame has no other user. */
  lemma SoleEntry(e: bv64)
    ensures Decode((e | WRITABLE) & !COW) == Decode(e).(writable := true, cow := false)
  {
  }

  /** handle_cow_fault, when it has made a copy. */
  lemma CopyEntry(e: bv64, copy: bv64)
    ensures Decode((copy & ADDR_MASK) | ((e & !ADDR_MASK & !COW) | WRITABLE))
         == Decode(e).(addr := Number((copy & ADDR_MASK) >> 12), writable := true, cow := false)
  {
  }

  // --- Addresses -----------------------------------------------------------------------------------

  function Pml4Index(v: bv64): bv64 { (v >> 39) & 0x1FF }
  function PdptIndex(v: bv64): bv64 { (v >> 30) & 0x1FF }
  function PdIndex(v: bv64): bv64 { (v >> 21) & 0x1FF }
  function PtIndex(v: bv64): bv64 { (v >> 12) & 0x1FF }

  function Compose(i: bv64, j: bv64, k: bv64, l: bv64): bv64 {
    (i << 39) | (j << 30) | (k << 21) | (l << 12)
  }

  /** The address as_clone builds from the four loop indices has those indices. */
  lemma IndicesOfCompose(i: bv64, j: bv64, k: bv64, l: bv64)
    requires i < 512 && j < 512 && k < 512 && l < 512
    ensures Pml4Index(Compose(i, j, k, l)) == i && PdptIndex(Compose(i, j, k, l)) == j
    ensures PdIndex(Compose(i, j, k, l)) == k && PtIndex(Compose(i, j, k, l)) == l
  {
  }

  /** A page-aligned 48-bit address is made of its four indices. */
  lemma ComposeOfIndices(v: bv64)
    requires v & 0xFFF == 0 && v >> 48 == 0
    ensures Compose(Pml4Index(v), PdptIndex(v), PdIndex(v), PtIndex(v)) == v
  {
  }

  /** The index macros are digits of the page number to the base 512. */
  lemma IndicesAreDigits(v: bv64)
    ensures PtIndex(v) == (v >> 12) % 512 && PdIndex(v) == (v >> 12) / 512 % 512
    ensures PdptIndex(v) == (v >> 12) / 0x40000 % 512 && Pml4Index(v) == (v >> 12) / 0x8000000 % 512
  {
  }
}
