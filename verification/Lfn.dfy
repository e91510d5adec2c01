/** Long file names of FAT32 (kernel/fs/fat32.c): a name is cut into directory entries
    of thirteen characters, stored last part first, and put together again. */
module Lfn {
  import opened Bytes

  const CHARS: nat := 13
  const MAX_ENTRIES: nat := 20
  const MAX_LEN: nat := 255
  const LAST: nat := 0x40
  const QUESTION: Byte := 63

  /** The name parts of an entry are of 5, 6 and 2 characters. */
  datatype Entry = Entry(order: nat, name1: seq<nat>, name2: seq<nat>, name3: seq<nat>, checksum: Byte)

  function SetChars(order: nat, chars: seq<nat>, checksum: Byte): Entry
    requires |chars| == CHARS
  {
    Entry(order, chars[..5], chars[5..11], chars[11..], checksum)
  }

  function GetChars(e: Entry): seq<nat> {
    e.name1 + e.name2 + e.name3
  }

  lemma CharsBack(order: nat, chars: seq<nat>, checksum: Byte)
    requires |chars| == CHARS
    ensures GetChars(SetChars(order, chars, checksum)) == chars
  {
  }

  // --- Cutting -------------------------------------------------------------------------------------------

  function Count(n: nat): nat {
    (n + CHARS - 1) / CHARS
  }

  /** The buffer of 256 characters holds the padded name exactly up to length 247. */
  lemma PaddingFits(n: nat)
    requires n <= MAX_LEN
    ensures Count(n) * CHARS <= MAX_LEN + 1 <==> n <= 247
    ensures n <= Count(n) * CHARS < n + CHARS
  {
  }

  /** Character k of the padded name: the name, a zero, then 0xFFFF. */
  function Padded(name: seq<Byte>, k: nat): nat {
    if k < |name| then name[k] else if k == |name| then 0 else 0xFFFF
  }

  function Part(name: seq<Byte>, p: nat): (r: seq<nat>)
    ensures |r| == CHARS
  {
    seq<nat>(CHARS, k requires 0 <= k => Padded(name, p * CHARS + k))
  }

  /** The entries of a name in disk order. */
  ghost predicate Cut(name: seq<Byte>, checksum: Byte, es: seq<Entry>) {
    && |es| == Count(|name|)
    && (forall i :: 0 <= i < |es| ==> es[i] == CutAt(name, checksum, |es|, i))
  }

  function CutAt(name: seq<Byte>, checksum: Byte, count: nat, i: nat): Entry
    requires i < count
  {
    SetChars((count - i) + (if i == 0 then LAST else 0), Part(name, count - i - 1), checksum)
  }

  /** The name, a zero, and 0xFFFF up to a whole number of parts. */
  method Pad(name: seq<Byte>, length: nat) returns (buf: array<nat>)
    requires |name| < MAX_LEN + 1 && length <= MAX_LEN + 1
    ensures fresh(buf) && buf.Length == MAX_LEN + 1
    ensures forall k :: 0 <= k < length ==> buf[k] == Padded(name, k)
  {
    buf := new nat[MAX_LEN + 1];
    for i := 0 to |name|
      invariant forall k :: 0 <= k < i ==> buf[k] == name[k]
    {
      buf[i] := name[i];
    }
    buf[|name|] := 0;
    var j := |name| + 1;
    while j < length
      invariant j <= MAX_LEN + 1
      invariant forall k :: 0 <= k < j ==> buf[k] == Padded(name, k)
    {
      buf[j] := 0xFFFF;
      j := j + 1;
    }
  }

  method CreateLfn(name: seq<Byte>, checksum: Byte, maxEntries: nat) returns (es: seq<Entry>)
    requires |name| <= 247
    ensures Count(|name|) > maxEntries ==> es == []
    ensures Count(|name|) <= maxEntries ==> Cut(name, checksum, es)
  {
    hide Padded, SetChars, Part;
    PaddingFits(|name|);
    var count := (|name| + CHARS - 1) / CHARS;
    if count > maxEntries || count > MAX_ENTRIES {
      return [];
    }
    var buf := Pad(name, count * CHARS);
    es := [];
    for i := 0 to count
      invariant |es| == i
      invariant forall k :: 0 <= k < i ==> es[k] == CutAt(name, checksum, count, k)
      invariant forall k :: 0 <= k < count * CHARS ==> buf[k] == Padded(name, k)
    {
      var order := count - i;
      PartInside(count, order);
      var chars := buf[(order - 1) * CHARS..order * CHARS];
      forall k | 0 <= k < CHARS
        ensures chars[k] == Padded(name, (order - 1) * CHARS + k)
      {
        assert chars[k] == buf[(order - 1) * CHARS + k];
      }
      PartIs(name, order - 1, chars);
      es := es + [SetChars(order + (if i == 0 then LAST else 0), chars, checksum)];
    }
  }

  lemma PartIs(name: seq<Byte>, p: nat, chars: seq<nat>)
    requires |chars| == CHARS && forall k :: 0 <= k < CHARS ==> chars[k] == Padded(name, p * CHARS + k)
    ensures chars == Part(name, p)
  {
  }

  lemma PartInside(count: nat, order: nat)
    requires 0 < order <= count
    ensures 0 <= (order - 1) * CHARS <= order * CHARS <= count * CHARS && order * CHARS == (order - 1) * CHARS + CHARS
  {
  }

  // --- Putting together ------------------------------------------------------------------------------------

  /** Characters beyond 7 bits come back as a question mark. */
  function Plain(c: nat): Byte {
    if c < 128 then c else QUESTION
  }

  /** The bytes of the name at q, zero behind its end. */
  function NameByte(name: seq<Byte>, q: nat): Byte {
    if q < |name| then Plain(name[q]) else 0
  }

  /** The LFN branch of the directory reader: one entry into the buffer. */
  method Assemble(buf: array<Byte>, e: Entry)
    requires buf.Length == MAX_LEN + 1 && |GetChars(e)| == CHARS
    requires 1 <= e.order <= MAX_ENTRIES || LAST < e.order <= LAST + MAX_ENTRIES
    modifies buf
    ensures var pos := (e.order % LAST - 1) * CHARS;
            var base := if e.order >= LAST then seq(buf.Length, _ => 0) else old(buf[..]);
            forall q :: 0 <= q < buf.Length ==> buf[q] == Written(base, pos, GetChars(e), q)
  {
    if e.order >= LAST {
      for k := 0 to buf.Length
        invariant forall q :: 0 <= q < k ==> buf[q] == 0
      {
        buf[k] := 0;
      }
    }
    var order := if e.order >= LAST then e.order - LAST else e.order;
    var pos := (order - 1) * CHARS;
    var chars := GetChars(e);
    ghost var base := buf[..];
    var i := 0;
    while i < CHARS && pos + i < MAX_LEN
      invariant 0 <= i <= CHARS && (pos + i <= MAX_LEN || i == 0)
      invariant forall k :: 0 <= k < i ==> chars[k] != 0 && chars[k] != 0xFFFF
      invariant forall q :: 0 <= q < buf.Length ==> buf[q] == if pos <= q < pos + i then Plain(chars[q - pos])
                else base[q]
    {
      UptoFrom(chars, i);
      if chars[i] == 0 || chars[i] == 0xFFFF {
        break;
      }
      buf[pos + i] := Plain(chars[i]);
      i := i + 1;
    }
    UptoFrom(chars, i);
  }

  /** Number of characters before the first zero or 0xFFFF. */
  function Upto(chars: seq<nat>): (r: nat)
    ensures r <= |chars|
  {
    if chars == [] || chars[0] == 0 || chars[0] == 0xFFFF then 0 else 1 + Upto(chars[1..])
  }

  lemma {:induction false} UptoFrom(chars: seq<nat>, i: nat)
    requires i <= |chars| && forall k :: 0 <= k < i ==> chars[k] != 0 && chars[k] != 0xFFFF
    ensures Upto(chars) >= i
    ensures i < |chars| && (chars[i] == 0 || chars[i] == 0xFFFF) ==> Upto(chars) == i
  {
    if i > 0 {
      UptoFrom(chars[1..], i - 1);
    }
  }

  function Written(base: seq<Byte>, pos: nat, chars: seq<nat>, q: nat): Byte
    requires q < |base|
  {
    if pos <= q < pos + Upto(chars) && q < MAX_LEN then Plain(chars[q - pos]) else base[q]
  }

  /** Part p of the name, laid over zeroes and the parts behind it. */
  lemma PartWritten(name: seq<Byte>, p: nat, base: seq<Byte>, q: nat)
    requires 0 !in name && |name| < MAX_LEN && p * CHARS <= |name| && q < |base| == MAX_LEN + 1
    requires q >= p * CHARS + CHARS || q < p * CHARS ==> base[q] == if q < p * CHARS then 0 else NameByte(name, q)
    requires p * CHARS <= q < p * CHARS + CHARS ==> base[q] == 0
    ensures Written(base, p * CHARS, Part(name, p), q) == if q < p * CHARS then 0 else NameByte(name, q)
  {
    var part, o := Part(name, p), p * CHARS;
    var n := if |name| - o < CHARS then |name| - o else CHARS;
    forall k | 0 <= k < n
      ensures part[k] != 0 && part[k] != 0xFFFF
    {
      assert part[k] == Padded(name, o + k) == name[o + k];
      assert name[o + k] in name;
    }
    UptoFrom(part, n);
    if n < CHARS {
      assert part[n] == Padded(name, o + n) == 0;
    }
    assert Upto(part) == n;
    if o <= q < o + CHARS {
      assert part[q - o] == Padded(name, o + (q - o));
    }
  }

  /** Cutting a name and putting its entries together, in disk order, gives the name
      back with every character beyond 7 bits replaced; so the round trip is exact if
      and only if the name is plain ASCII. */
  method RoundTrip(name: seq<Byte>, checksum: Byte) returns (buf: array<Byte>)
    requires 0 < |name| <= 247 && 0 !in name
    ensures fresh(buf) && buf.Length == MAX_LEN + 1
    ensures forall q :: 0 <= q < buf.Length ==> buf[q] == NameByte(name, q)
    ensures buf[..|name|] == name && buf[|name|] == 0 <==> forall k :: 0 <= k < |name| ==> name[k] < 128
  {
    var es := CreateLfn(name, checksum, MAX_ENTRIES);
    PaddingFits(|name|);
    var n := |es|;
    buf := new Byte[MAX_LEN + 1];
    for i := 0 to n
      invariant i > 0 ==>
                  forall q :: 0 <= q < buf.Length ==>
                    buf[q] == if q < (n - i) * CHARS then 0 else NameByte(name, q)
    {
      var e := es[i];
      ghost var p := n - i - 1;
      CharsBack(e.order, Part(name, p), checksum);
      assert e.order % LAST - 1 == p;
      ghost var base := if i == 0 then seq(buf.Length, _ => 0) else buf[..];
      PartInside(n, n - i);
      Assemble(buf, e);
      forall q: nat | q < buf.Length
        ensures buf[q] == if q < (n - i - 1) * CHARS then 0 else NameByte(name, q)
      {
        PartWritten(name, p, base, q);
      }
    }
    assert buf[..|name|] == name ==> forall k :: 0 <= k < |name| ==> buf[..|name|][k] == name[k];
  }
}
