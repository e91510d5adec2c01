/** A directory block made by mkdir, under any sequence of additions and removals,
    is a map from names to inodes. */
module Ext2DirRuns {
  import opened Bytes
  import opened Ext2Tree
  import opened Ext2Dir

  const DOT: Name := [46]
  const DOT_DOT: Name := [46, 46]
  const DIR: Byte := 2

  // --- Entries as a map ----------------------------------------------------------------------------

  /** How many entries have the name, and how many records are empty. */
  ghost function Tally(es: seq<Entry>, n: Name): nat {
    if es == [] then 0 else (if Match(es[0], n) then 1 else 0) + Tally(es[1..], n)
  }

  ghost function Holes(es: seq<Entry>): nat {
    if es == [] then 0 else (if es[0].ino == 0 then 1 else 0) + Holes(es[1..])
  }

  /** Every record is live, each name has one, and it gives the name's inode. */
  ghost predicate Agrees(es: seq<Entry>, m: map<Name, nat>) {
    && Holes(es) == 0
    && (forall n :: Tally(es, n) == if n in m then 1 else 0)
    && (forall n :: n in m ==> Lookup(es, n) == m[n] != 0)
  }

  lemma {:induction false} Concat(a: seq<Entry>, b: seq<Entry>, n: Name)
    ensures Tally(a + b, n) == Tally(a, n) + Tally(b, n)
    ensures Holes(a + b) == Holes(a) + Holes(b)
    ensures Lookup(a + b, n) == if Tally(a, n) > 0 then Lookup(a, n) else Lookup(b, n)
  {
    if a == [] {
      assert a + b == b;
    } else {
      assert (a + b)[1..] == a[1..] + b;
      Concat(a[1..], b, n);
    }
  }

  lemma One(e: Entry, n: Name)
    ensures Tally([e], n) == if Match(e, n) then 1 else 0
    ensures Holes([e]) == if e.ino == 0 then 1 else 0
    ensures Lookup([e], n) == if Match(e, n) then e.ino else 0
  {
  }

  /** An entry between others. */
  lemma Between(a: seq<Entry>, e: Entry, b: seq<Entry>, n: Name)
    ensures Tally(a + [e] + b, n) == Tally(a + b, n) + if Match(e, n) then 1 else 0
    ensures Holes(a + [e] + b) == Holes(a + b) + if e.ino == 0 then 1 else 0
    ensures !Match(e, n) ==> Lookup(a + [e] + b, n) == Lookup(a + b, n)
    ensures Match(e, n) && Tally(a, n) == 0 ==> Lookup(a + [e] + b, n) == e.ino
    ensures Tally(a + b, n) >= Tally(a, n)
  {
    hide Tally, Holes, Lookup;
    One(e, n);
    Concat(a, [e], n);
    Concat(a + [e], b, n);
    Concat(a, b, n);
  }

  lemma AddAgrees(a: seq<Entry>, e: Entry, b: seq<Entry>, m: map<Name, nat>)
    requires Agrees(a + b, m) && e.ino != 0 && e.name !in m
    ensures Agrees(a + [e] + b, m[e.name := e.ino])
  {
    hide Tally, Holes, Lookup;
    Between(a, e, b, e.name);
    forall n
      ensures Tally(a + [e] + b, n) == if n in m[e.name := e.ino] then 1 else 0
      ensures n in m[e.name := e.ino] ==> Lookup(a + [e] + b, n) == m[e.name := e.ino][n] != 0
    {
      Between(a, e, b, n);
    }
  }

  lemma DropAgrees(a: seq<Entry>, e: Entry, b: seq<Entry>, m: map<Name, nat>)
    requires Agrees(a + [e] + b, m)
    ensures e.ino != 0 && e.name in m && Agrees(a + b, m - {e.name})
  {
    hide Tally, Holes, Lookup;
    Between(a, e, b, e.name);
    forall n
      ensures Tally(a + b, n) == if n in m - {e.name} then 1 else 0
      ensures n in m - {e.name} ==> Lookup(a + b, n) == (m - {e.name})[n] != 0
    {
      Between(a, e, b, n);
    }
  }

  lemma LiveAt(es: seq<Entry>, m: map<Name, nat>, i: nat)
    requires Agrees(es, m) && i < |es|
    ensures es[i].ino != 0
  {
    assert es == es[..i] + [es[i]] + es[i + 1..];
    DropAgrees(es[..i], es[i], es[i + 1..], m);
  }

  lemma InsertAgrees(es: seq<Entry>, es': seq<Entry>, m: map<Name, nat>, e: Entry)
    requires Agrees(es, m) && Inserted(es, es', e) && e.ino != 0 && e.name !in m
    ensures Agrees(es', m[e.name := e.ino]) && |es'| == |es| + 1 && es'[0] == es[0]
  {
    hide Agrees;
    var i :| 0 <= i < |es| && es' == es[..i] + (if es[i].ino == 0 then [e] else [es[i], e]) + es[i + 1..];
    LiveAt(es, m, i);
    var front, rest := es[..i + 1], es[i + 1..];
    assert es' == front + [e] + rest;
    assert es == front + rest;
    AddAgrees(front, e, rest, m);
  }

  lemma {:induction false} TallyHas(es: seq<Entry>, n: Name)
    ensures Tally(es, n) > 0 <==> Has(es, n)
    ensures Tally(es, n) == 0 ==> Lookup(es, n) == 0
  {
    if es != [] {
      TallyHas(es[1..], n);
      assert forall i :: 0 <= i < |es[1..]| ==> es[1..][i] == es[i + 1];
      if Has(es, n) && !Match(es[0], n) {
        var i :| 0 <= i < |es| && Match(es[i], n);
        assert es[1..][i - 1] == es[i];
      }
      if Has(es[1..], n) {
        var i :| 0 <= i < |es[1..]| && Match(es[1..][i], n);
        assert Match(es[i + 1], n);
      }
    }
  }

  /** Lookup in the block is lookup in the map. */
  lemma LookupAgrees(es: seq<Entry>, m: map<Name, nat>, n: Name)
    requires Agrees(es, m)
    ensures Lookup(es, n) == if n in m then m[n] else 0
    ensures n in m ==> m[n] != 0
    ensures Has(es, n) <==> n in m
  {
    TallyHas(es, n);
  }

  // --- Runs -----------------------------------------------------------------------------------------

  datatype Op = Add(ino: nat, name: Name, kind: Byte) | Remove(name: Name)

  ghost function After(m: map<Name, nat>, op: Op, ok: bool): map<Name, nat> {
    if !ok then m
    else match op
      case Add(ino, name, _) => m[name := ino]
      case Remove(name) => m - {name}
  }

  ghost function AfterAll(m: map<Name, nat>, ops: seq<Op>, oks: seq<bool>): map<Name, nat>
    requires |oks| == |ops|
  {
    if ops == [] then m
    else
      var k := |ops| - 1;
      After(AfterAll(m, ops[..k], oks[..k]), ops[k], oks[k])
  }

  predicate Legal(op: Op) {
    match op
    case Add(ino, name, _) => 0 < ino < 0x1_0000_0000 && |name| < 256
    case Remove(name) => name != DOT
  }

  /** A block whose first record is the entry of the directory itself. */
  ghost predicate DirBlock(b: seq<Byte>, m: map<Name, nat>) {
    Tiles(b, 0) && |b| < 65536 && Agrees(Recs(b, 0), m) && Recs(b, 0) != [] && Recs(b, 0)[0].name == DOT
  }

  /** The two entries of a new directory. */
  method MakeDir(buf: array<Byte>, self: nat, parent: nat)
    requires 24 <= buf.Length < 65536 && buf.Length % 4 == 0
    requires 0 < self < 0x1_0000_0000 && 0 < parent < 0x1_0000_0000
    modifies buf
    ensures DirBlock(buf[..], map[DOT := self, DOT_DOT := parent])
  {
    hide SetRecord, Ino, Len, NameLen, NameAt, DirBlock;
    for i := 0 to buf.Length {
      buf[i] := 0;
    }
    SetRecordIs(buf[..], 0, self, 12, DOT, DIR);
    StoreRecord(buf, 0, self, 12, DOT, DIR);
    ghost var b := buf[..];
    StoreRecord(buf, 12, parent, buf.Length - 12, DOT_DOT, DIR);
    TwoRecords(b, buf[..], self, parent);
  }

  lemma TwoAgree(self: nat, parent: nat)
    requires self > 0 && parent > 0
    ensures Agrees([Entry(self, DOT, DIR), Entry(parent, DOT_DOT, DIR)], map[DOT := self, DOT_DOT := parent])
  {
    var none: map<Name, nat> := map[];
    assert Agrees([], none);
    AddAgrees([], Entry(self, DOT, DIR), [], none);
    assert [] + [Entry(self, DOT, DIR)] + [] == [Entry(self, DOT, DIR)] + [];
    AddAgrees([Entry(self, DOT, DIR)], Entry(parent, DOT_DOT, DIR), [], none[DOT := self]);
    assert [Entry(self, DOT, DIR)] + [Entry(parent, DOT_DOT, DIR)] + []
        == [Entry(self, DOT, DIR), Entry(parent, DOT_DOT, DIR)];
  }

  lemma TwoRecords(b: seq<Byte>, b': seq<Byte>, self: nat, parent: nat)
    requires 24 <= |b| < 65536 && |b| % 4 == 0 && 0 < self < 0x1_0000_0000 && 0 < parent < 0x1_0000_0000
    requires Ino(b, 0) == self && Len(b, 0) == 12 && NameLen(b, 0) == 1 && NameAt(b, 0) == DOT && KindAt(b, 0) == DIR
    requires b' == SetRecord(b, 12, parent, |b| - 12, DOT_DOT, DIR)
    ensures DirBlock(b', map[DOT := self, DOT_DOT := parent])
  {
    hide SetRecord, Ino, Len, NameLen, NameAt;
    SetRecordIs(b, 12, parent, |b| - 12, DOT_DOT, DIR);
    assert Need(1) == 12 && Need(2) == 12;
    Filled(b, 0, Entry(self, DOT, DIR));
    RecordSame(b, b', 0);
    Filled(b', 12, Entry(parent, DOT_DOT, DIR));
    assert Tiles(b', |b|) && Recs(b', |b|) == [];
    assert Tiles(b', 12) && Recs(b', 12) == [Entry(parent, DOT_DOT, DIR)];
    assert Recs(b', 0) == [Entry(self, DOT, DIR), Entry(parent, DOT_DOT, DIR)];
    TwoAgree(self, parent);
  }

  /** One operation.  Callers look a name up before they add it. */
  method Perform(buf: array<Byte>, op: Op, ghost m: map<Name, nat>) returns (ok: bool)
    requires DirBlock(buf[..], m) && Legal(op)
    modifies buf
    ensures DirBlock(buf[..], After(m, op, ok))
    ensures op.Remove? ==> (ok <==> op.name in m)
    ensures op.Add? && !ok ==>
              op.name in m || (Path(buf[..], 0, buf.Length) && Tight(buf[..], 0, buf.Length, Need(|op.name|)))
    ensures op.Add? && ok ==> op.name !in m
  {
    hide Tiles, Recs, Path, Passed, Fits, Tight, Need, Agrees, RemovedAt, EntryAt;
    ghost var es := Recs(buf[..], 0);
    LookupAgrees(es, m, op.name);
    match op
    case Add(ino, name, kind) =>
      var found := FindInBlock(buf[..], name);
      if found != 0 {
        return false;
      }
      ok := AddInBlock(buf, ino, name, kind);
      if ok {
        InsertAgrees(es, Recs(buf[..], 0), m, Entry(ino, name, kind));
      }
    case Remove(name) =>
      ghost var b := buf[..];
      ghost var k;
      ok, k := RemoveInBlock(buf, name);
      if ok {
        Removed(b, buf[..], k, name, m);
      }
  }

  lemma Removed(b: seq<Byte>, b': seq<Byte>, k: nat, name: Name, m: map<Name, nat>)
    requires DirBlock(b, m) && name != DOT && |b'| == |b|
    requires Path(b, 0, k) && Fits(b, k) && Tiles(b, k + Len(b, k)) && RemovedAt(b, b', k) && Match(EntryAt(b, k), name)
    ensures DirBlock(b', m - {name})
  {
    hide Tiles, Path, Recs, Passed, RemovedAt, EntryAt, Ino, Len, NameLen, Need, Agrees;
    var es, rest := Passed(b, 0, k), Recs(b, k + Len(b, k));
    PathStep(b, 0, k);
    PathTiles(b, 0, k + Len(b, k));
    var all := Recs(b, 0);
    assert all == es + [EntryAt(b, k)] + rest;
    assert all[|es|] == EntryAt(b, k);
    assert |es| > 0;
    assert es[0] == all[0] && es[|es| - 1] == all[|es| - 1];
    LiveAt(all, m, 0);
    LiveAt(all, m, |es| - 1);
    RemovedRight(b, b', k);
    DropAgrees(es, EntryAt(b, k), rest, m);
  }

  /** Whatever names come and go, the block stays a directory block for the map that
      the successful operations make. */
  method Run(buf: array<Byte>, ops: seq<Op>, ghost m: map<Name, nat>) returns (oks: seq<bool>)
    requires DirBlock(buf[..], m) && forall i :: 0 <= i < |ops| ==> Legal(ops[i])
    modifies buf
    ensures |oks| == |ops| && DirBlock(buf[..], AfterAll(m, ops, oks))
  {
    hide DirBlock, Legal, After;
    oks := [];
    while |oks| < |ops|
      invariant |oks| <= |ops| && DirBlock(buf[..], AfterAll(m, ops[..|oks|], oks))
    {
      var k := |oks|;
      var ok := Perform(buf, ops[k], AfterAll(m, ops[..k], oks));
      assert ops[..k + 1][..k] == ops[..k] && (oks + [ok])[..k] == oks;
      oks := oks + [ok];
    }
    assert ops[..|oks|] == ops;
  }

  // --- Where removal goes wrong -----------------------------------------------------------------------

  const A: Name := [65]
  const B: Name := [66]

  const C: Name := [67]

  /** Four records of a 1024-byte block: A, an empty one and B, of twelve bytes each, and
      C, which takes the rest. */
  function Gapped(): seq<Byte> {
    SetRecord(SetRecord(SetRecord(SetRecord(Zeroes(1024), 36, 7, 988, C, 1), 24, 9, 12, B, 1), 12, 0, 12, [], 0),
              0, 5, 12, A, 1)
  }

  lemma GappedIs()
    ensures var b := Gapped();
      && |b| == 1024 && Fits(b, 0) && Fits(b, 12) && Fits(b, 24) && Fits(b, 36)
      && Len(b, 0) == 12 && Len(b, 12) == 12 && Len(b, 24) == 12 && Len(b, 36) == 988
      && EntryAt(b, 0) == Entry(5, A, 1) && EntryAt(b, 12) == EMPTY
      && EntryAt(b, 24) == Entry(9, B, 1) && EntryAt(b, 36) == Entry(7, C, 1)
  {
    hide SetRecord, Ino, Len, NameLen, NameAt, Zeroes;
    var z := Zeroes(1024);
    var y := SetRecord(z, 36, 7, 988, C, 1);
    var c := SetRecord(y, 24, 9, 12, B, 1);
    var d := SetRecord(c, 12, 0, 12, [], 0);
    var b := SetRecord(d, 0, 5, 12, A, 1);
    SetRecordIs(z, 36, 7, 988, C, 1);
    SetRecordIs(y, 24, 9, 12, B, 1);
    SetRecordIs(c, 12, 0, 12, [], 0);
    SetRecordIs(d, 0, 5, 12, A, 1);
    assert Need(1) == 12;
    Filled(y, 36, Entry(7, C, 1));
    RecordSame(y, c, 36);
    RecordSame(c, d, 36);
    RecordSame(d, b, 36);
    Filled(c, 24, Entry(9, B, 1));
    RecordSame(c, d, 24);
    RecordSame(d, b, 24);
    RecordSame(d, b, 12);
    Filled(b, 0, Entry(5, A, 1));
  }

  /** Removing B from that block reports success, and B is found as before. */
  lemma RemovedStays()
    ensures var b := Gapped();
      && Tiles(b, 0) && Removable(b, 0, 24) && EntryAt(b, 24) == Entry(9, B, 1)
      && RemovedAt(b, Merged(b, 0, 24), 24) && Tiles(Merged(b, 0, 24), 0)
      && Lookup(Recs(Merged(b, 0, 24), 0), B) == 9
  {
    hide SetRecord, Gapped, Ino, NameLen, NameAt, SetLen, EntryAt, Len;
    var b := Gapped();
    GappedIs();
    EntryIs(b, 0);
    EntryIs(b, 24);
    assert Tiles(b, 1024);
    assert Tiles(b, 36) && Tiles(b, 24);
    assert Tiles(b, 12) && Tiles(b, 0);
    assert Path(b, 24, 24) && Path(b, 12, 24) && Path(b, 0, 24) && Path(b, 0, 0);
    assert Passed(b, 24, 24) == [] && Passed(b, 12, 24) == [EMPTY] && Passed(b, 0, 24) == [Entry(5, A, 1), EMPTY];
    assert Passed(b, 0, 24)[0].ino != 0;
    assert LastLive(b, 0, 24);
    NameStays(b, 0, 24);
  }
}
