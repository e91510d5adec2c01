/** One block of an ext2 directory (kernel/fs/ext2.c): variable-length records, each
    with an inode number, its own length, and a name; inode 0 marks an empty record. */
module Ext2Dir {
  import opened Bytes
  import opened Ext2Tree

  const HEADER: nat := 8

  type Name = seq<Byte>

  datatype Entry = Entry(ino: nat, name: Name, kind: Byte)

  const EMPTY := Entry(0, [], 0)

  // --- Fields of the record at offset o ----------------------------------------------------------

  function Ino(b: seq<Byte>, o: nat): nat
    requires o + HEADER <= |b|
  {
    Word32(b, o)
  }

  function Len(b: seq<Byte>, o: nat): nat
    requires o + HEADER <= |b|
  {
    b[o + 4] as int + 256 * (b[o + 5] as int)
  }

  function NameLen(b: seq<Byte>, o: nat): nat
    requires o + HEADER <= |b|
  {
    b[o + 6]
  }

  function NameAt(b: seq<Byte>, o: nat): Name
    requires o + HEADER <= |b| && o + HEADER + NameLen(b, o) <= |b|
  {
    b[o + HEADER..o + HEADER + NameLen(b, o)]
  }

  function KindAt(b: seq<Byte>, o: nat): Byte
    requires o + HEADER <= |b|
  {
    b[o + 7]
  }

  /** Bytes a live record needs, rounded up to a multiple of four. */
  function Need(n: nat): (r: nat)
    ensures r % 4 == 0 && HEADER + n <= r < HEADER + n + 4
  {
    (HEADER + n + 3) / 4 * 4
  }

  // --- A block of records --------------------------------------------------------------------------

  /** The record at o is well formed and ends within the block. */
  ghost predicate Fits(b: seq<Byte>, o: nat) {
    && o + HEADER <= |b| && HEADER <= Len(b, o) && Len(b, o) % 4 == 0 && o + Len(b, o) <= |b|
    && (Ino(b, o) != 0 ==> Need(NameLen(b, o)) <= Len(b, o))
  }

  /** Records follow each other from o to the end of the block. */
  ghost predicate Tiles(b: seq<Byte>, o: nat)
    decreases |b| - o
  {
    o == |b| || (Fits(b, o) && Tiles(b, o + Len(b, o)))
  }

  /** The record as an entry; an empty record has no name. */
  ghost function EntryAt(b: seq<Byte>, o: nat): Entry
    requires Fits(b, o)
  {
    if Ino(b, o) == 0 then EMPTY else Entry(Ino(b, o), NameAt(b, o), KindAt(b, o))
  }

  /** The records from o on, in order. */
  ghost function Recs(b: seq<Byte>, o: nat): seq<Entry>
    requires Tiles(b, o)
    decreases |b| - o
  {
    if o == |b| then [] else [EntryAt(b, o)] + Recs(b, o + Len(b, o))
  }

  ghost predicate HasRecs(b: seq<Byte>, es: seq<Entry>) {
    Tiles(b, 0) && Recs(b, 0) == es
  }

  /** Offset p is reached from o by stepping over whole records. */
  ghost predicate Path(b: seq<Byte>, o: nat, p: nat)
    decreases |b| - o
  {
    o == p || (o < p && Fits(b, o) && Path(b, o + Len(b, o), p))
  }

  /** The records on the way from o to p. */
  ghost function Passed(b: seq<Byte>, o: nat, p: nat): seq<Entry>
    requires Path(b, o, p)
    decreases |b| - o
  {
    if o == p then [] else [EntryAt(b, o)] + Passed(b, o + Len(b, o), p)
  }

  lemma {:induction false} PathStep(b: seq<Byte>, o: nat, p: nat)
    requires Path(b, o, p) && Fits(b, p)
    ensures Path(b, o, p + Len(b, p)) && Passed(b, o, p + Len(b, p)) == Passed(b, o, p) + [EntryAt(b, p)]
    decreases |b| - o
  {
    if o != p {
      PathStep(b, o + Len(b, o), p);
    }
  }

  lemma {:induction false} PathTiles(b: seq<Byte>, o: nat, p: nat)
    requires Path(b, o, p)
    ensures Tiles(b, o) <==> Tiles(b, p)
    ensures Tiles(b, p) ==> Recs(b, o) == Passed(b, o, p) + Recs(b, p)
    decreases |b| - o
  {
    hide EntryAt, Need, Ino, NameLen;
    if o != p {
      var q := o + Len(b, o);
      PathTiles(b, q, p);
      if Tiles(b, p) {
        assert [EntryAt(b, o)] + (Passed(b, q, p) + Recs(b, p)) == [EntryAt(b, o)] + Passed(b, q, p) + Recs(b, p);
      }
    }
  }

  /** The two blocks agree from i up to j. */
  ghost predicate Same(b: seq<Byte>, b': seq<Byte>, i: nat, j: nat) {
    |b| == |b'| && forall k :: i <= k < j && k < |b| ==> b'[k] == b[k]
  }

  lemma RecordSame(b: seq<Byte>, b': seq<Byte>, o: nat)
    requires Fits(b, o) && Same(b, b', o, o + Len(b, o))
    ensures Fits(b', o) && Len(b', o) == Len(b, o) && Ino(b', o) == Ino(b, o) && EntryAt(b', o) == EntryAt(b, o)
  {
  }

  /** Records that lie within bytes that do not change do not change. */
  lemma {:induction false} PathSame(b: seq<Byte>, b': seq<Byte>, o: nat, p: nat)
    requires Path(b, o, p) && Same(b, b', o, p)
    ensures Path(b', o, p) && Passed(b', o, p) == Passed(b, o, p)
    decreases |b| - o
  {
    hide EntryAt;
    if o != p {
      PathEnd(b, o + Len(b, o), p);
      RecordSame(b, b', o);
      PathSame(b, b', o + Len(b, o), p);
    }
  }

  lemma {:induction false} PathEnd(b: seq<Byte>, o: nat, p: nat)
    requires Path(b, o, p)
    ensures o <= p
    decreases |b| - o
  {
  }

  lemma {:induction false} TilesSame(b: seq<Byte>, b': seq<Byte>, o: nat)
    requires Tiles(b, o) && Same(b, b', o, |b|)
    ensures Tiles(b', o) && Recs(b', o) == Recs(b, o)
    decreases |b| - o
  {
    if o != |b| {
      RecordSame(b, b', o);
      TilesSame(b, b', o + Len(b, o));
    }
  }

  // --- Lookup -----------------------------------------------------------------------------------------

  predicate Match(e: Entry, name: Name) {
    e.ino != 0 && e.name == name
  }

  ghost predicate Has(es: seq<Entry>, name: Name) {
    exists i :: 0 <= i < |es| && Match(es[i], name)
  }

  /** The inode of the first entry with the name; 0 if there is none. */
  ghost function Lookup(es: seq<Entry>, name: Name): nat {
    if es == [] then 0 else if Match(es[0], name) then es[0].ino else Lookup(es[1..], name)
  }

  lemma {:induction false} LookupHit(es: seq<Entry>, e: Entry, rest: seq<Entry>)
    requires !Has(es, e.name) && e.ino != 0
    ensures Lookup(es + [e] + rest, e.name) == e.ino
  {
    if es == [] {
      assert es + [e] + rest == [e] + rest;
    } else {
      assert !Match(es[0], e.name);
      assert forall i :: 0 <= i < |es[1..]| ==> es[1..][i] == es[i + 1];
      LookupHit(es[1..], e, rest);
      assert (es + [e] + rest)[1..] == es[1..] + [e] + rest;
    }
  }

  lemma {:induction false} LookupMiss(es: seq<Entry>, name: Name)
    requires !Has(es, name)
    ensures Lookup(es, name) == 0
  {
    if es != [] {
      assert !Match(es[0], name);
      assert forall i :: 0 <= i < |es[1..]| ==> es[1..][i] == es[i + 1];
      LookupMiss(es[1..], name);
    }
  }

  method FindInBlock(buf: seq<Byte>, name: Name) returns (ino: nat)
    requires Tiles(buf, 0)
    ensures ino == Lookup(Recs(buf, 0), name)
  {
    hide EntryAt, Need, Ino;
    var o := 0;
    while o < |buf|
      invariant Path(buf, 0, o) && Tiles(buf, o) && o <= |buf| && !Has(Passed(buf, 0, o), name)
      decreases |buf| - o
    {
      PathStep(buf, 0, o);
      PathTiles(buf, 0, o + Len(buf, o));
      EntryIs(buf, o);
      if Len(buf, o) == 0 {
        break;
      }
      if Ino(buf, o) != 0 && NameLen(buf, o) == |name| && NameAt(buf, o) == name {
        LookupHit(Passed(buf, 0, o), EntryAt(buf, o), Recs(buf, o + Len(buf, o)));
        return Ino(buf, o);
      }
      o := o + Len(buf, o);
    }
    PathTiles(buf, 0, o);
    LookupMiss(Recs(buf, 0), name);
    return 0;
  }

  lemma EntryIs(b: seq<Byte>, o: nat)
    requires Fits(b, o)
    ensures EntryAt(b, o).ino == Ino(b, o)
    ensures Ino(b, o) != 0 ==>
              && o + HEADER + NameLen(b, o) <= |b| && EntryAt(b, o).name == NameAt(b, o)
              && EntryAt(b, o).kind == KindAt(b, o)
    ensures Ino(b, o) == 0 ==> EntryAt(b, o) == EMPTY
  {
  }

  // --- Field updates --------------------------------------------------------------------------------------

  function SetLen(b: seq<Byte>, o: nat, v: nat): (r: seq<Byte>)
    requires o + HEADER <= |b| && v < 65536
    ensures |r| == |b|
  {
    b[o + 4 := v % 256][o + 5 := v / 256]
  }

  function SetIno(b: seq<Byte>, o: nat, v: nat): (r: seq<Byte>)
    requires o + HEADER <= |b| && v < 0x1_0000_0000
    ensures |r| == |b|
  {
    b[o := v % 256][o + 1 := v / 256 % 256][o + 2 := v / 256 / 256 % 256][o + 3 := v / 256 / 256 / 256]
  }

  /** A whole record, as ext2_add_dir_entry stores it. */
  function SetRecord(b: seq<Byte>, o: nat, ino: nat, len: nat, name: Name, kind: Byte): (r: seq<Byte>)
    requires o + HEADER + |name| <= |b| && ino < 0x1_0000_0000 && len < 65536 && |name| < 256
    ensures |r| == |b|
  {
    var h := SetLen(SetIno(b, o, ino), o, len)[o + 6 := |name|][o + 7 := kind];
    h[..o + HEADER] + name + h[o + HEADER + |name|..]
  }

  lemma SetLenIs(b: seq<Byte>, o: nat, v: nat)
    requires o + HEADER <= |b| && v < 65536
    ensures Len(SetLen(b, o, v), o) == v && Ino(SetLen(b, o, v), o) == Ino(b, o)
            && NameLen(SetLen(b, o, v), o) == NameLen(b, o)
    ensures Same(b, SetLen(b, o, v), 0, o) && Same(b, SetLen(b, o, v), o + 6, |b|)
  {
  }

  lemma SetInoIs(b: seq<Byte>, o: nat, v: nat)
    requires o + HEADER <= |b| && v < 0x1_0000_0000
    ensures Ino(SetIno(b, o, v), o) == v && Len(SetIno(b, o, v), o) == Len(b, o)
            && NameLen(SetIno(b, o, v), o) == NameLen(b, o)
    ensures Same(b, SetIno(b, o, v), 0, o) && Same(b, SetIno(b, o, v), o + 4, |b|)
  {
  }

  lemma SetRecordIs(b: seq<Byte>, o: nat, ino: nat, len: nat, name: Name, kind: Byte)
    requires o + HEADER + |name| <= |b| && ino < 0x1_0000_0000 && len < 65536 && |name| < 256
    ensures var r := SetRecord(b, o, ino, len, name, kind);
      Ino(r, o) == ino && Len(r, o) == len && NameLen(r, o) == |name| && NameAt(r, o) == name && KindAt(r, o) == kind
      && Same(b, r, 0, o) && Same(b, r, o + HEADER + |name|, |b|)
  {
  }

  // --- Adding and removing one record ------------------------------------------------------------------------

  /** Bytes before o and from q on are as before, and whole records lead from o to q. */
  lemma Rebuilt(b: seq<Byte>, b': seq<Byte>, o: nat, q: nat)
    requires Path(b, 0, o) && Tiles(b, q) && Same(b, b', 0, o) && Same(b, b', q, |b|) && Path(b', o, q)
    ensures Tiles(b', 0) && Recs(b', 0) == Passed(b, 0, o) + Passed(b', o, q) + Recs(b, q)
  {
    hide EntryAt, Fits, Same;
    PathSame(b, b', 0, o);
    TilesSame(b, b', q);
    PathTiles(b', o, q);
    PathTiles(b', 0, o);
    assert Passed(b, 0, o) + (Passed(b', o, q) + Recs(b, q)) == Passed(b, 0, o) + Passed(b', o, q) + Recs(b, q);
  }

  lemma OneRecord(b: seq<Byte>, o: nat)
    requires Fits(b, o)
    ensures Path(b, o, o + Len(b, o)) && Passed(b, o, o + Len(b, o)) == [EntryAt(b, o)]
  {
  }

  /** A record that holds an entry. */
  lemma Filled(b: seq<Byte>, o: nat, e: Entry)
    requires o + HEADER <= |b| && Len(b, o) % 4 == 0 && o + Len(b, o) <= |b| && Need(NameLen(b, o)) <= Len(b, o)
    requires Ino(b, o) == e.ino != 0 && NameAt(b, o) == e.name && KindAt(b, o) == e.kind
    ensures Fits(b, o) && EntryAt(b, o) == e && Path(b, o, o + Len(b, o)) && Passed(b, o, o + Len(b, o)) == [e]
  {
  }

  /** An empty record is filled. */
  lemma AddedEmpty(b: seq<Byte>, o: nat, ino: nat, name: Name, kind: Byte)
    requires Path(b, 0, o) && Fits(b, o) && Tiles(b, o + Len(b, o)) && Ino(b, o) == 0
    requires Need(|name|) <= Len(b, o) < 65536 && 0 < ino < 0x1_0000_0000 && |name| < 256
    ensures HasRecs(SetRecord(b, o, ino, Len(b, o), name, kind),
                    Passed(b, 0, o) + [Entry(ino, name, kind)] + Recs(b, o + Len(b, o)))
  {
    hide Ino, Len, NameLen, NameAt, SetRecord, Path, Passed, Tiles, Recs, EntryAt;
    var b' := SetRecord(b, o, ino, Len(b, o), name, kind);
    SetRecordIs(b, o, ino, Len(b, o), name, kind);
    Filled(b', o, Entry(ino, name, kind));
    Rebuilt(b, b', o, o + Len(b, o));
  }

  predicate CanSplit(b: seq<Byte>, o: nat, n: nat, ino: nat, name: Name) {
    && o + HEADER <= |b| && o + n + HEADER + |name| <= |b| && n <= Len(b, o) < 65536
    && 0 < ino < 0x1_0000_0000 && |name| < 256
  }

  /** The block after a live record is cut down to n bytes and the rest of it becomes
      the new record. */
  function SplitBlock(b: seq<Byte>, o: nat, n: nat, ino: nat, name: Name, kind: Byte): seq<Byte>
    requires CanSplit(b, o, n, ino, name)
  {
    SetRecord(SetLen(b, o, n), o + n, ino, Len(b, o) - n, name, kind)
  }

  lemma AddedSplit(b: seq<Byte>, o: nat, n: nat, ino: nat, name: Name, kind: Byte)
    requires Path(b, 0, o) && Fits(b, o) && Tiles(b, o + Len(b, o)) && Ino(b, o) != 0 && n == Need(NameLen(b, o))
    requires n + Need(|name|) <= Len(b, o) && CanSplit(b, o, n, ino, name)
    ensures HasRecs(SplitBlock(b, o, n, ino, name, kind),
                    Passed(b, 0, o) + [EntryAt(b, o), Entry(ino, name, kind)] + Recs(b, o + Len(b, o)))
  {
    hide Ino, Len, NameLen, SetRecord, SetLen, Path, Passed, Tiles, Recs;
    var q, c := o + Len(b, o), SetLen(b, o, n);
    var b' := SplitBlock(b, o, n, ino, name, kind);
    SetLenIs(b, o, n);
    assert NameAt(c, o) == NameAt(b, o);
    Filled(c, o, EntryAt(b, o));
    SetRecordIs(c, o + n, ino, Len(b, o) - n, name, kind);
    RecordSame(c, b', o);
    OneRecord(b', o);
    Filled(b', o + n, Entry(ino, name, kind));
    PathTrans(b', o, o + n, q);
    Rebuilt(b, b', o, q);
    assert [EntryAt(b, o)] + [Entry(ino, name, kind)] == [EntryAt(b, o), Entry(ino, name, kind)];
  }

  /** The record at k becomes empty. */
  lemma Cleared(b: seq<Byte>, k: nat)
    requires Path(b, 0, k) && Fits(b, k) && Tiles(b, k + Len(b, k))
    ensures Tiles(SetIno(b, k, 0), 0) && Recs(SetIno(b, k, 0), 0) == Passed(b, 0, k) + [EMPTY] + Recs(b, k + Len(b, k))
  {
    hide Ino, Len, NameLen, SetIno, Path, Passed, Tiles, Recs;
    SetInoIs(b, k, 0);
    OneRecord(SetIno(b, k, 0), k);
    Rebuilt(b, SetIno(b, k, 0), k, k + Len(b, k));
  }

  /** The live record at p is stretched so that it ends at q. */
  lemma Stretched(b: seq<Byte>, p: nat, q: nat)
    requires Path(b, 0, p) && Fits(b, p) && Ino(b, p) != 0 && Tiles(b, q) && (q - p) % 4 == 0
    requires p + Len(b, p) <= q <= |b| < 65536
    ensures Tiles(SetLen(b, p, q - p), 0)
    ensures Recs(SetLen(b, p, q - p), 0) == Passed(b, 0, p) + [EntryAt(b, p)] + Recs(b, q)
  {
    hide Ino, Len, NameLen, SetLen, Path, Passed, Tiles, Recs;
    var b' := SetLen(b, p, q - p);
    SetLenIs(b, p, q - p);
    assert NameAt(b', p) == NameAt(b, p);
    Filled(b', p, EntryAt(b, p));
    Rebuilt(b, b', p, q);
  }

  ghost predicate NoneLive(es: seq<Entry>) {
    forall i :: 0 <= i < |es| ==> es[i].ino == 0
  }

  /** p is the last live record before k. */
  ghost predicate LastLive(b: seq<Byte>, p: nat, k: nat) {
    && Path(b, 0, p) && Fits(b, p) && Ino(b, p) != 0
    && Path(b, p + Len(b, p), k) && NoneLive(Passed(b, p + Len(b, p), k))
  }

  /** What ext2_remove_dir_entry does with the record at k that it has found. */
  ghost predicate RemovedAt(b: seq<Byte>, b': seq<Byte>, k: nat)
    requires Path(b, 0, k) && Fits(b, k) && |b| < 65536
  {
    if NoneLive(Passed(b, 0, k)) then b' == SetIno(b, k, 0)
    else exists p :: LastLive(b, p, k) && Len(b, p) + Len(b, k) < 65536 && b' == SetLen(b, p, Len(b, p) + Len(b, k))
  }

  lemma {:induction false} PathTrans(b: seq<Byte>, o: nat, p: nat, q: nat)
    requires Path(b, o, p) && Path(b, p, q)
    ensures Path(b, o, q) && Passed(b, o, q) == Passed(b, o, p) + Passed(b, p, q)
    decreases |b| - o
  {
    hide EntryAt, Fits, Len;
    if o != p {
      FitsIn(b, o);
      var m := o + Len(b, o);
      PathEnd(b, m, p);
      PathEnd(b, p, q);
      PathTrans(b, m, p, q);
      assert [EntryAt(b, o)] + (Passed(b, m, p) + Passed(b, p, q))
          == [EntryAt(b, o)] + Passed(b, m, p) + Passed(b, p, q);
    }
  }

  lemma FitsIn(b: seq<Byte>, o: nat)
    requires Fits(b, o)
    ensures o + HEADER <= |b| && HEADER <= Len(b, o) && o + Len(b, o) <= |b|
  {
  }

  /** Removal is right when no record before is live, or the record just before is:
      the record becomes empty, or is absorbed. */
  lemma RemovedRight(b: seq<Byte>, b': seq<Byte>, k: nat)
    requires Path(b, 0, k) && Fits(b, k) && Tiles(b, k + Len(b, k)) && |b| < 65536 && RemovedAt(b, b', k)
    requires var es := Passed(b, 0, k); NoneLive(es) || es[|es| - 1].ino != 0
    ensures Tiles(b', 0)
    ensures NoneLive(Passed(b, 0, k)) ==> Recs(b', 0) == Passed(b, 0, k) + [EMPTY] + Recs(b, k + Len(b, k))
    ensures !NoneLive(Passed(b, 0, k)) ==> Recs(b', 0) == Passed(b, 0, k) + Recs(b, k + Len(b, k))
  {
    hide Ino, Len, NameLen, Need, SetIno, SetLen, EntryAt, Path, Passed, Tiles, Recs;
    if NoneLive(Passed(b, 0, k)) {
      Cleared(b, k);
    } else {
      var p :| LastLive(b, p, k) && Len(b, p) + Len(b, k) < 65536 && b' == SetLen(b, p, Len(b, p) + Len(b, k));
      Adjacent(b, p, k);
      Stretched(b, p, k + Len(b, k));
    }
  }

  /** The last live record lies just before k exactly when the last record passed is live. */
  lemma Adjacent(b: seq<Byte>, p: nat, k: nat)
    requires LastLive(b, p, k) && Path(b, 0, k)
    ensures |Passed(b, 0, k)| > 0
    ensures Passed(b, 0, k)[|Passed(b, 0, k)| - 1].ino != 0 <==> p + Len(b, p) == k
    ensures p + Len(b, p) == k ==> Passed(b, 0, k) == Passed(b, 0, p) + [EntryAt(b, p)]
    ensures p + Len(b, p) <= k
  {
    hide Ino, Len, NameLen, Fits, Tiles, Recs, EntryAt;
    EntryIs(b, p);
    PathStep(b, 0, p);
    PathTrans(b, 0, p + Len(b, p), k);
    PathEnd(b, p + Len(b, p), k);
  }

  // --- Where the stretched record ends ------------------------------------------------------------------------

  /** The end of the record at p once the record at k is merged into it. */
  ghost function EndOf(b: seq<Byte>, p: nat, k: nat): nat
    requires p + HEADER <= |b| && k + HEADER <= |b|
  {
    p + (Len(b, p) + Len(b, k))
  }

  /** The block after the record at k is merged into the one at p. */
  ghost function Merged(b: seq<Byte>, p: nat, k: nat): seq<Byte>
    requires p + HEADER <= |b| && k + HEADER <= |b| && Len(b, p) + Len(b, k) < 65536
  {
    SetLen(b, p, Len(b, p) + Len(b, k))
  }

  /** What a removal of the record at k starts from when a record before it is live. */
  ghost predicate Removable(b: seq<Byte>, p: nat, k: nat) {
    && Path(b, 0, k) && Fits(b, k) && Tiles(b, k + Len(b, k)) && |b| < 65536 && LastLive(b, p, k)
    && Len(b, p) + Len(b, k) < 65536
  }

  /** The stretched record is right in length if and only if the record just before is
      live; otherwise an empty record lies between and it ends short. */
  lemma RemovedWrong(b: seq<Byte>, p: nat, k: nat)
    requires Removable(b, p, k)
    ensures |Passed(b, 0, k)| > 0 && EndOf(b, p, k) <= k + Len(b, k)
    ensures EndOf(b, p, k) == k + Len(b, k) <==> Passed(b, 0, k)[|Passed(b, 0, k)| - 1].ino != 0
  {
    hide Ino, Len, NameLen, SetLen, EntryAt, Path, Passed, Tiles, Recs;
    Adjacent(b, p, k);
  }

  /** The records still tile the block if and only if they did from that end on. */
  lemma MergedTiles(b: seq<Byte>, p: nat, k: nat)
    requires Removable(b, p, k)
    ensures Tiles(Merged(b, p, k), 0) <==> Tiles(b, EndOf(b, p, k))
    ensures Tiles(b, EndOf(b, p, k)) ==>
              Recs(Merged(b, p, k), 0) == Passed(b, 0, p) + [EntryAt(b, p)] + Recs(b, EndOf(b, p, k))
  {
    hide Ino, NameLen, SetLen, EntryAt, Path, Passed, Tiles, Recs;
    var b', q := Merged(b, p, k), EndOf(b, p, k);
    Adjacent(b, p, k);
    if Tiles(b, q) {
      Stretched(b, p, q);
    }
    SetLenIs(b, p, q - p);
    hide Len;
    if Tiles(b', 0) {
      PathSame(b, b', 0, p);
      PathTiles(b', 0, p);
      TilesFrom(b', p);
      TilesSame(b', b, q);
    }
  }

  lemma TilesFrom(b: seq<Byte>, o: nat)
    requires Tiles(b, o) && o + HEADER <= |b|
    ensures Tiles(b, o + Len(b, o))
  {
  }

  /** The entries of records that are not empty. */
  ghost function Live(es: seq<Entry>): seq<Entry> {
    if es == [] then [] else (if es[0].ino == 0 then [] else [es[0]]) + Live(es[1..])
  }

  lemma {:induction false} LiveConcat(a: seq<Entry>, b: seq<Entry>)
    ensures Live(a + b) == Live(a) + Live(b)
  {
    if a == [] {
      assert a + b == b;
    } else {
      assert (a + b)[1..] == a[1..] + b;
      LiveConcat(a[1..], b);
    }
  }

  lemma {:induction false} LiveNone(es: seq<Entry>)
    requires NoneLive(es)
    ensures Live(es) == []
  {
    if es != [] {
      LiveNone(es[1..]);
    }
  }

  /** Exactly the entry at k is gone: the block's live entries are those of the records
      before k and behind it. */
  ghost predicate Right(b: seq<Byte>, b': seq<Byte>, k: nat)
    requires Path(b, 0, k) && Fits(b, k) && Tiles(b, k + Len(b, k))
  {
    Tiles(b', 0) && Live(Recs(b', 0)) == Live(Passed(b, 0, k)) + Live(Recs(b, k + Len(b, k)))
  }

  /** Removal is right if and only if the records that would be read from that end on,
      before the call, tile the rest and show what lies behind k and nothing else. */
  lemma RemovedExactly(b: seq<Byte>, p: nat, k: nat)
    requires Removable(b, p, k)
    ensures Right(b, Merged(b, p, k), k) <==>
              Tiles(b, EndOf(b, p, k)) && Live(Recs(b, EndOf(b, p, k))) == Live(Recs(b, k + Len(b, k)))
  {
    hide Ino, Len, NameLen, SetLen, EntryAt, Path, Passed, Tiles, Recs, Fits;
    FitsIn(b, p);
    FitsIn(b, k);
    var q := EndOf(b, p, k);
    MergedTiles(b, p, k);
    PassedLive(b, p, k);
    if Tiles(b, q) {
      var es := Passed(b, 0, p) + [EntryAt(b, p)];
      LiveConcat(es, Recs(b, q));
      assert Live(es) + Live(Recs(b, q)) == Live(es) + Live(Recs(b, k + Len(b, k)))
        ==> Live(Recs(b, q)) == Live(Recs(b, k + Len(b, k))) by {
        Cancelled(Live(es), Live(Recs(b, q)), Live(Recs(b, k + Len(b, k))));
      }
    }
  }

  lemma Cancelled(a: seq<Entry>, b: seq<Entry>, c: seq<Entry>)
    ensures a + b == a + c ==> b == c
  {
    assert (a + b)[|a|..] == b && (a + c)[|a|..] == c;
  }

  /** Behind the last live record nothing before k is live. */
  lemma PassedLive(b: seq<Byte>, p: nat, k: nat)
    requires Path(b, 0, k) && LastLive(b, p, k)
    ensures Live(Passed(b, 0, k)) == Live(Passed(b, 0, p) + [EntryAt(b, p)])
  {
    hide Ino, Len, NameLen, EntryAt, Fits, Path, Passed;
    FitsIn(b, p);
    PathStep(b, 0, p);
    var m := p + Len(b, p);
    PathTrans(b, 0, m, k);
    LiveConcat(Passed(b, 0, m), Passed(b, m, k));
    LiveNone(Passed(b, m, k));
  }

  /** If the stretched record ends at a record at or before k, the name that was to be
      removed is found as before. */
  lemma NameStays(b: seq<Byte>, p: nat, k: nat)
    requires Removable(b, p, k) && Ino(b, k) != 0 && !Has(Passed(b, 0, k), EntryAt(b, k).name)
    requires Path(b, p + Len(b, p), EndOf(b, p, k)) && Path(b, EndOf(b, p, k), k)
    ensures Tiles(Merged(b, p, k), 0)
    ensures Lookup(Recs(Merged(b, p, k), 0), EntryAt(b, k).name) == Ino(b, k)
  {
    hide NameLen, SetLen, Path, Passed, Tiles, Recs, Fits, Len, EntryAt;
    FitsIn(b, p);
    FitsIn(b, k);
    var q, e := EndOf(b, p, k), EntryAt(b, k);
    EntryIs(b, k);
    OneRecord(b, k);
    PathTiles(b, k, k + Len(b, k));
    PathTiles(b, q, k);
    MergedTiles(b, p, k);
    PassedNames(b, p, k, e.name);
    var es := Passed(b, 0, p) + [EntryAt(b, p)] + Passed(b, q, k);
    assert Passed(b, 0, p) + [EntryAt(b, p)] + (Passed(b, q, k) + ([e] + Recs(b, k + Len(b, k))))
        == es + [e] + Recs(b, k + Len(b, k));
    LookupHit(es, e, Recs(b, k + Len(b, k)));
  }

  lemma PassedNames(b: seq<Byte>, p: nat, k: nat, name: Name)
    requires Removable(b, p, k) && !Has(Passed(b, 0, k), name)
    requires Path(b, p + Len(b, p), EndOf(b, p, k)) && Path(b, EndOf(b, p, k), k)
    ensures !Has(Passed(b, 0, p) + [EntryAt(b, p)] + Passed(b, EndOf(b, p, k), k), name)
  {
    hide NameLen, Ino, Path, Passed, Tiles, Recs, Fits, Len, EntryAt;
    FitsIn(b, p);
    FitsIn(b, k);
    var m, q := p + Len(b, p), EndOf(b, p, k);
    PathStep(b, 0, p);
    PathTrans(b, 0, m, k);
    PathTrans(b, m, q, k);
    var x, y, z := Passed(b, 0, m), Passed(b, m, q), Passed(b, q, k);
    assert forall i :: 0 <= i < |x| ==> (x + (y + z))[i] == x[i];
    assert forall i :: 0 <= i < |z| ==> (x + (y + z))[|x| + |y| + i] == z[i];
  }

  // --- The loops over a block -----------------------------------------------------------------------------------

  function Slack(b: seq<Byte>, o: nat): int
    requires o + HEADER <= |b|
  {
    Len(b, o) - if Ino(b, o) == 0 then 0 else Need(NameLen(b, o))
  }

  /** No record from o to p has room for n more bytes. */
  ghost predicate Tight(b: seq<Byte>, o: nat, p: nat, n: nat)
    requires Path(b, o, p)
    decreases |b| - o
  {
    o == p || (Slack(b, o) < n && Tight(b, o + Len(b, o), p, n))
  }

  lemma {:induction false} TightStep(b: seq<Byte>, o: nat, p: nat, n: nat)
    requires Path(b, o, p) && Fits(b, p) && Path(b, o, p + Len(b, p)) && Tight(b, o, p, n) && Slack(b, p) < n
    ensures Tight(b, o, p + Len(b, p), n)
    decreases |b| - o
  {
    hide Slack, EntryAt, Need, Ino, NameLen;
    if o != p {
      PathEnd(b, o + Len(b, o), p);
      PathStep(b, o + Len(b, o), p);
      TightStep(b, o + Len(b, o), p, n);
    }
  }

  /** The new entry e stands where an empty record stood, or right after a live one. */
  ghost predicate Inserted(es: seq<Entry>, es': seq<Entry>, e: Entry) {
    exists i :: 0 <= i < |es| && es' == es[..i] + (if es[i].ino == 0 then [e] else [es[i], e]) + es[i + 1..]
  }

  method StoreLen(buf: array<Byte>, o: nat, v: nat)
    requires o + HEADER <= buf.Length && v < 65536
    modifies buf
    ensures buf[..] == SetLen(old(buf[..]), o, v)
  {
    buf[o + 4], buf[o + 5] := v % 256, v / 256;
  }

  method StoreIno(buf: array<Byte>, o: nat, v: nat)
    requires o + HEADER <= buf.Length && v < 0x1_0000_0000
    modifies buf
    ensures buf[..] == SetIno(old(buf[..]), o, v)
  {
    buf[o], buf[o + 1], buf[o + 2], buf[o + 3] := v % 256, v / 256 % 256, v / 256 / 256 % 256, v / 256 / 256 / 256;
  }

  method StoreRecord(buf: array<Byte>, o: nat, ino: nat, len: nat, name: Name, kind: Byte)
    requires o + HEADER + |name| <= buf.Length && ino < 0x1_0000_0000 && len < 65536 && |name| < 256
    modifies buf
    ensures buf[..] == SetRecord(old(buf[..]), o, ino, len, name, kind)
  {
    hide SetIno, SetLen;
    ghost var b := buf[..];
    StoreIno(buf, o, ino);
    StoreLen(buf, o, len);
    buf[o + 6] := |name|;
    buf[o + 7] := kind;
    ghost var h := SetLen(SetIno(b, o, ino), o, len)[o + 6 := |name|][o + 7 := kind];
    assert buf[..] == h;
    var i := 0;
    while i < |name|
      invariant 0 <= i <= |name|
      invariant forall j :: 0 <= j < i ==> buf[o + HEADER + j] == name[j]
      invariant forall t :: 0 <= t < buf.Length && !(o + HEADER <= t < o + HEADER + i) ==> buf[t] == h[t]
    {
      buf[o + HEADER + i] := name[i];
      i := i + 1;
    }
    assert buf[..] == h[..o + HEADER] + name + h[o + HEADER + |name|..];
  }

  /** The search for room in one block by ext2_add_dir_entry. */
  method AddInBlock(buf: array<Byte>, ino: nat, name: Name, kind: Byte) returns (ok: bool)
    requires Tiles(buf[..], 0) && buf.Length < 65536 && 0 < ino < 0x1_0000_0000 && |name| < 256
    modifies buf
    ensures Tiles(buf[..], 0)
    ensures ok ==> Inserted(old(Recs(buf[..], 0)), Recs(buf[..], 0), Entry(ino, name, kind))
    ensures !ok ==>
              && buf[..] == old(buf[..]) && Path(buf[..], 0, buf.Length)
              && Tight(buf[..], 0, buf.Length, Need(|name|))
  {
    hide EntryAt, SetRecord, SetLen, Tight, Ino, Len, NameLen, Need, Inserted, Path, Passed, Recs;
    ghost var b := buf[..];
    var needed := Need(|name|);
    assert Tight(b, 0, 0, needed) by { TightHere(b, 0, needed); }
    var o := 0;
    while o < buf.Length
      invariant o <= buf.Length && buf[..] == b && Path(b, 0, o) && Tiles(b, o) && Tight(b, 0, o, needed)
      decreases buf.Length - o
    {
      var len := Len(buf[..], o);
      if len == 0 {
        break;
      }
      var actual := if Ino(buf[..], o) == 0 then 0 else Need(NameLen(buf[..], o));
      PathStep(b, 0, o);
      PathTiles(b, 0, o + len);
      EntryIs(b, o);
      if len - actual >= needed {
        if Ino(buf[..], o) != 0 {
          AddedSplit(b, o, actual, ino, name, kind);
          StoreLen(buf, o, actual);
        } else {
          AddedEmpty(b, o, ino, name, kind);
        }
        StoreRecord(buf, o + actual, ino, len - actual, name, kind);
        InsertedAt(Passed(b, 0, o), EntryAt(b, o), Recs(b, o + len), Entry(ino, name, kind));
        return true;
      }
      TightStep(b, 0, o, needed);
      o := o + len;
    }
    return false;
  }

  /** A new block of a directory: one record that spans it. */
  method FirstInBlock(buf: array<Byte>, ino: nat, name: Name, kind: Byte)
    requires buf.Length % 4 == 0 && Need(|name|) <= buf.Length < 65536 && 0 < ino < 0x1_0000_0000 && |name| < 256
    modifies buf
    ensures Tiles(buf[..], 0) && Recs(buf[..], 0) == [Entry(ino, name, kind)]
  {
    hide SetRecord, Ino, Len, NameLen, NameAt, EntryAt;
    for i := 0 to buf.Length {
      buf[i] := 0;
    }
    SetRecordIs(buf[..], 0, ino, buf.Length, name, kind);
    StoreRecord(buf, 0, ino, buf.Length, name, kind);
    Filled(buf[..], 0, Entry(ino, name, kind));
    RecsEnd(buf[..]);
    PathTiles(buf[..], 0, buf.Length);
  }

  lemma TightHere(b: seq<Byte>, o: nat, n: nat)
    ensures Path(b, o, o) && Tight(b, o, o, n)
  {
  }

  lemma InsertedAt(es: seq<Entry>, x: Entry, rest: seq<Entry>, e: Entry)
    ensures Inserted(es + [x] + rest, es + (if x.ino == 0 then [e] else [x, e]) + rest, e)
  {
    var all, i := es + [x] + rest, |es|;
    assert all[..i] == es && all[i] == x && all[i + 1..] == rest;
  }

  /** The search for a name in one block by ext2_remove_dir_entry. */
  method RemoveInBlock(buf: array<Byte>, name: Name) returns (found: bool, ghost k: nat)
    requires Tiles(buf[..], 0) && buf.Length < 65536
    modifies buf
    ensures found <==> Has(old(Recs(buf[..], 0)), name)
    ensures !found ==> buf[..] == old(buf[..])
    ensures found ==>
              && Path(old(buf[..]), 0, k) && k < buf.Length && Fits(old(buf[..]), k)
              && Tiles(old(buf[..]), k + Len(old(buf[..]), k))
              && Match(EntryAt(old(buf[..]), k), name) && !Has(Passed(old(buf[..]), 0, k), name)
              && RemovedAt(old(buf[..]), buf[..], k)
  {
    hide EntryAt, SetIno, SetLen, Ino, Len, NameLen, Need, Path, Passed, Recs, PrevIs, RemovedAt;
    ghost var b := buf[..];
    var o, prev, hasPrev := 0, 0, false;
    k := 0;
    PrevNone(b);
    while o < buf.Length
      invariant 0 <= o <= buf.Length && 0 <= prev && buf[..] == b && Path(b, 0, o) && Tiles(b, o)
      invariant !Has(Passed(b, 0, o), name) && PrevIs(b, hasPrev, prev, o)
      decreases buf.Length - o
    {
      var len := Len(buf[..], o);
      if len == 0 {
        break;
      }
      PathStep(b, 0, o);
      PathTiles(b, 0, o + len);
      EntryIs(b, o);
      if Ino(buf[..], o) != 0 && NameLen(buf[..], o) == |name| && NameAt(buf[..], o) == name {
        k := o;
        PrevRemoves(b, hasPrev, prev, o);
        if hasPrev {
          StoreLen(buf, prev, Len(buf[..], prev) + len);
        } else {
          StoreIno(buf, o, 0);
        }
        assert Recs(b, 0)[|Passed(b, 0, o)|] == EntryAt(b, o);
        return true, k;
      }
      PrevStep(b, hasPrev, prev, o);
      if Ino(buf[..], o) != 0 {
        prev, hasPrev := o, true;
      }
      o := o + len;
    }
    PathTiles(b, 0, o);
    RecsEnd(b);
    return false, k;
  }

  lemma RecsEnd(b: seq<Byte>)
    ensures Recs(b, |b|) == []
  {
  }

  /** The scan's prev_de: the last live record before o, if there is one. */
  ghost predicate PrevIs(b: seq<Byte>, hasPrev: bool, prev: nat, o: nat)
    requires Path(b, 0, o)
  {
    if hasPrev then LastLive(b, prev, o) && !NoneLive(Passed(b, 0, o)) else NoneLive(Passed(b, 0, o))
  }

  lemma PrevNone(b: seq<Byte>)
    ensures Path(b, 0, 0) && Passed(b, 0, 0) == [] && PrevIs(b, false, 0, 0)
  {
  }

  lemma PrevStep(b: seq<Byte>, hasPrev: bool, prev: nat, o: nat)
    requires Path(b, 0, o) && Fits(b, o) && PrevIs(b, hasPrev, prev, o)
    ensures Path(b, 0, o + Len(b, o))
    ensures PrevIs(b, hasPrev || Ino(b, o) != 0, if Ino(b, o) != 0 then o else prev, o + Len(b, o))
  {
    hide EntryAt, Ino, Len, NameLen, Need;
    PathStep(b, 0, o);
    EntryIs(b, o);
    var es, es' := Passed(b, 0, o), Passed(b, 0, o + Len(b, o));
    assert es' == es + [EntryAt(b, o)] && es'[|es|] == EntryAt(b, o);
    if Ino(b, o) == 0 && hasPrev {
      PathStep(b, prev + Len(b, prev), o);
      var i :| 0 <= i < |es| && es[i].ino != 0;
      assert es'[i].ino != 0;
    }
  }

  lemma PrevRemoves(b: seq<Byte>, hasPrev: bool, prev: nat, k: nat)
    requires Path(b, 0, k) && Fits(b, k) && PrevIs(b, hasPrev, prev, k) && |b| < 65536
    ensures hasPrev ==> prev + HEADER <= |b| && Len(b, prev) + Len(b, k) < 65536
    ensures hasPrev ==> RemovedAt(b, SetLen(b, prev, Len(b, prev) + Len(b, k)), k)
    ensures !hasPrev ==> RemovedAt(b, SetIno(b, k, 0), k)
  {
  }
}
