/** The FAT code of kernel/fs/fat32.c: a write-back cache of one FAT sector over
    mirrored FATs on disk, and the cluster allocator and chain operations on
    top of it.  The device always succeeds; a sector is its 32-bit words. */
module Fat32 {
  import opened Division
  import opened FatChains

  const UNKNOWN: nat := 0xFFFFFFFF

  /** Sector of entry c, and its place in the sector, with e words per sector. */
  function SectorOf(c: nat, e: nat): nat
    requires e > 0
  {
    c / e
  }

  function PlaceOf(c: nat, e: nat): nat
    requires e > 0
  {
    c % e
  }

  /** A FAT as one table and as its sectors of e words. */
  ghost predicate Flat(fat: seq<nat>, sectors: seq<seq<nat>>, e: nat) {
    && e > 0
    && (forall s :: 0 <= s < |sectors| ==> |sectors[s]| == e)
    && (forall c: nat :: c < |fat| ==> FlatAt(fat, sectors, e, c))
  }

  ghost predicate FlatAt(fat: seq<nat>, sectors: seq<seq<nat>>, e: nat, c: nat)
    requires e > 0 && c < |fat|
  {
    && SectorOf(c, e) < |sectors|
    && PlaceOf(c, e) < |sectors[SectorOf(c, e)]|
    && fat[c] == sectors[SectorOf(c, e)][PlaceOf(c, e)]
  }

  /** The byte arithmetic of the source finds the same place. */
  lemma EntryPlace(c: nat, e: nat)
    requires e > 0
    ensures (c * 4) / (e * 4) == SectorOf(c, e) && (c * 4) % (e * 4) / 4 == PlaceOf(c, e)
  {
    var q, r := c / e, c % e;
    assert c == q * e + r;
    assert c * 4 == q * (e * 4) + r * 4;
    Divided(c * 4, e * 4, q, r * 4);
  }

  ghost function Poke(sectors: seq<seq<nat>>, s: nat, o: nat, x: nat): seq<seq<nat>>
    requires s < |sectors| && o < |sectors[s]|
  {
    var changed: seq<nat> := sectors[s][o := x];
    sectors[s := changed]
  }

  lemma FlatUpdate(fat: seq<nat>, sectors: seq<seq<nat>>, e: nat, c: nat, x: nat)
    requires Flat(fat, sectors, e) && c < |fat|
    ensures FlatAt(fat, sectors, e, c)
    ensures Flat(fat[c := x], Poke(sectors, SectorOf(c, e), PlaceOf(c, e), x), e)
  {
    hide SectorOf, PlaceOf;
    assert FlatAt(fat, sectors, e, c);
    var fat', sectors' := fat[c := x], Poke(sectors, SectorOf(c, e), PlaceOf(c, e), x);
    forall d: nat | d < |fat'|
      ensures FlatAt(fat', sectors', e, d)
    {
      assert FlatAt(fat, sectors, e, d);
      if d != c {
        OwnPlace(c, d, e);
      }
    }
  }

  lemma OwnPlace(c: nat, d: nat, e: nat)
    requires e > 0 && c != d
    ensures SectorOf(c, e) != SectorOf(d, e) || PlaceOf(c, e) != PlaceOf(d, e)
  {
  }

  // --- The copies on disk ---------------------------------------------------------------

  /** Device sector of sector s of FAT copy i, for FATs of n sectors from base on. */
  function Abs(base: nat, n: nat, i: nat, s: nat): nat {
    base + s + i * n
  }

  lemma AbsApart(base: nat, n: nat, i: nat, s: nat, j: nat, t: nat)
    requires s < n && t < n && Abs(base, n, i, s) == Abs(base, n, j, t)
    ensures i == j && s == t
  {
    Divided(s + i * n, n, i, s);
    Divided(t + j * n, n, j, t);
  }

  /** FAT copy i holds what the logical FAT holds in sector s. */
  ghost predicate Synced(dev: map<nat, seq<nat>>, sectors: seq<seq<nat>>, base: nat, i: nat, s: nat)
    requires s < |sectors|
  {
    Abs(base, |sectors|, i, s) in dev && dev[Abs(base, |sectors|, i, s)] == sectors[s]
  }

  /** All copies agree with the logical FAT, except copies from number done on at sector skip. */
  ghost predicate Mirrored(dev: map<nat, seq<nat>>, sectors: seq<seq<nat>>, base: nat, copies: nat, skip: int,
                           done: nat) {
    forall i: nat, s: nat :: i < copies && s < |sectors| && (s != skip || i < done) ==> Synced(dev, sectors, base, i, s)
  }

  lemma WriteCopy(dev: map<nat, seq<nat>>, sectors: seq<seq<nat>>, base: nat, copies: nat, skip: nat, done: nat)
    requires Mirrored(dev, sectors, base, copies, skip, done) && done < copies && skip < |sectors|
    ensures Mirrored(dev[Abs(base, |sectors|, done, skip) := sectors[skip]], sectors, base, copies, skip, done + 1)
  {
    var dev' := dev[Abs(base, |sectors|, done, skip) := sectors[skip]];
    forall i: nat, s: nat | i < copies && s < |sectors| && (s != skip || i < done + 1)
      ensures Synced(dev', sectors, base, i, s)
    {
      if i != done || s != skip {
        assert Synced(dev, sectors, base, i, s);
        if Abs(base, |sectors|, i, s) == Abs(base, |sectors|, done, skip) {
          AbsApart(base, |sectors|, i, s, done, skip);
        }
      }
    }
  }

  lemma ReadCopy(dev: map<nat, seq<nat>>, sectors: seq<seq<nat>>, base: nat, copies: nat, s: nat)
    requires Mirrored(dev, sectors, base, copies, -1, 0) && copies > 0 && s < |sectors|
    ensures Abs(base, |sectors|, 0, s) in dev && dev[Abs(base, |sectors|, 0, s)] == sectors[s]
  {
    assert Synced(dev, sectors, base, 0, s);
  }

  lemma PokeMirrored(dev: map<nat, seq<nat>>, sectors: seq<seq<nat>>, base: nat, copies: nat, skip: int, s: nat,
                     o: nat, x: nat)
    requires Mirrored(dev, sectors, base, copies, skip, 0) && s < |sectors| && o < |sectors[s]|
             && (skip == -1 || skip == s)
    ensures Mirrored(dev, Poke(sectors, s, o, x), base, copies, s, 0)
  {
    var after := Poke(sectors, s, o, x);
    forall i: nat, t: nat | i < copies && t < |after| && t != s
      ensures Synced(dev, after, base, i, t)
    {
      assert Synced(dev, sectors, base, i, t);
    }
  }

  lemma AllDone(dev: map<nat, seq<nat>>, sectors: seq<seq<nat>>, base: nat, copies: nat, skip: int)
    requires Mirrored(dev, sectors, base, copies, skip, copies)
    ensures Mirrored(dev, sectors, base, copies, -1, 0)
  {
  }

  // --- Where the allocator looks ----------------------------------------------------

  /** Lowest free cluster in from .. limit-1; 0 when there is none. */
  function FirstFree(fat: seq<nat>, from: nat, limit: nat): (c: nat)
    requires 2 <= from && limit <= |fat|
    ensures c == 0 <==> forall d: nat :: from <= d < limit ==> Next(fat, d) != FREE
    ensures c != 0 ==> from <= c < limit && Next(fat, c) == FREE
    ensures c != 0 ==> forall d: nat :: from <= d < c ==> Next(fat, d) != FREE
    decreases if limit > from then limit - from else 0
  {
    if from >= limit then 0 else if Next(fat, from) == FREE then from else FirstFree(fat, from + 1, limit)
  }

  /** What the circular search of fat32_alloc_cluster finds from a start. */
  function Search(fat: seq<nat>, total: nat, start: nat): (c: nat)
    requires total + 2 <= |fat| && 2 <= start && (start < total + 2 || start < |fat|)
  {
    if start < total + 2 then
      var c := FirstFree(fat, start, total + 2);
      if c != 0 then c else FirstFree(fat, 2, start)
    else if Next(fat, start) == FREE then start
    else FirstFree(fat, 2, total + 2)
  }

  /** From a start inside the volume the search is complete: it finds a free
      cluster of the volume whenever there is one. */
  lemma SearchComplete(fat: seq<nat>, total: nat, start: nat)
    requires total + 2 <= |fat| && 2 <= start < total + 2
    ensures Search(fat, total, start) == 0 <==> forall c: nat :: InRange(c, total) ==> Next(fat, c) != FREE
    ensures Search(fat, total, start) != 0 ==>
              InRange(Search(fat, total, start), total) && Next(fat, Search(fat, total, start)) == FREE
  {
  }

  /** The search stays inside the volume exactly when its start does, or when
      the entry at the start is not free. */
  lemma SearchInRange(fat: seq<nat>, total: nat, start: nat)
    requires total + 2 <= |fat| && 2 <= start && (start < total + 2 || start < |fat|)
    ensures (Search(fat, total, start) == 0 || InRange(Search(fat, total, start), total))
            <==> start < total + 2 || Next(fat, start) != FREE
  {
  }

  /** Allocating the last cluster moves the hint to total + 2; with a free spare
      entry there, the next allocation hands out a cluster outside the volume. */
  lemma HintLeavesVolume(total: nat)
    requires 0 < total && total + 2 < BAD
    ensures var fat := seq(total + 3, _ => FREE);
            && Search(fat, total, total + 1) == total + 1
            && var fat' := SetNext(fat, total + 1, EOC);
            && Search(fat', total, total + 2) == total + 2
            && !InRange(total + 2, total)
  {
  }

  /** The search starts inside the volume, or outside it at an entry that is free or
      with some cluster free. */
  ghost predicate SearchEnds(fat: seq<nat>, total: nat, start: nat)
    requires total + 2 <= |fat|
  {
    || start < total + 2
    || (start < |fat| && (Next(fat, start) == FREE || exists c: nat :: InRange(c, total) && Next(fat, c) == FREE))
  }

  /** The cluster that the search looks at in turn n. */
  function Turn(total: nat, start: nat, n: nat): nat {
    if n == 0 then start
    else if Turn(total, start, n - 1) + 1 >= total + 2 then 2
    else Turn(total, start, n - 1) + 1
  }

  /** In turn n the loop stops: the entry is free, or the search is back at its start. */
  ghost predicate StopsAt(fat: seq<nat>, total: nat, start: nat, n: nat) {
    var c := Turn(total, start, n);
    c < |fat| && (Next(fat, c) == FREE || (n > 0 && c == start))
  }

  ghost predicate Stops(fat: seq<nat>, total: nat, start: nat) {
    exists n: nat :: StopsAt(fat, total, start, n)
  }

  /** Turns walk around the volume. */
  lemma {:induction false} TurnIs(total: nat, start: nat, n: nat)
    requires 0 < total && 2 <= start
    ensures n > 0 ==> InRange(Turn(total, start, n), total)
    ensures start + n < total + 2 ==> Turn(total, start, n) == start + n
    ensures start < total + 2 <= start + n < total + start + 1 ==> Turn(total, start, n) == start + n - total
    ensures total + 2 <= start && 0 < n <= total ==> Turn(total, start, n) == n + 1
  {
    if n > 0 {
      TurnIs(total, start, n - 1);
    }
  }

  /** The loop of fat32_alloc_cluster ends if and only if SearchEnds holds. */
  lemma EndsExactly(fat: seq<nat>, total: nat, start: nat)
    requires 0 < total && total + 2 <= |fat| && 2 <= start < |fat|
    ensures Stops(fat, total, start) <==> SearchEnds(fat, total, start)
  {
    if start < total + 2 {
      TurnIs(total, start, total - 1);
      TurnIs(total, start, total);
      assert StopsAt(fat, total, start, total);
    } else if Next(fat, start) == FREE {
      assert StopsAt(fat, total, start, 0);
    } else if c: nat :| InRange(c, total) && Next(fat, c) == FREE {
      TurnIs(total, start, c - 1);
      assert StopsAt(fat, total, start, c - 1);
    } else {
      forall n: nat
        ensures !StopsAt(fat, total, start, n)
      {
        TurnIs(total, start, n);
      }
    }
  }

  function LastFree(total: nat): (fat: seq<nat>)
    ensures |fat| == total + 3
  {
    seq(total + 3, i => if i == total + 1 then FREE else EOC)
  }

  /** A volume with one free cluster, the last, and a spare entry in use: it is
      allocated, the hint moves behind it, and the next search never ends. */
  lemma SearchForever(total: nat)
    requires 0 < total && total + 2 < BAD
    ensures Search(LastFree(total), total, 2) == total + 1
    ensures !Stops(SetNext(LastFree(total), total + 1, EOC), total, total + 2)
  {
    var fat' := SetNext(LastFree(total), total + 1, EOC);
    assert Next(LastFree(total), total + 1) == FREE;
    assert forall c: nat :: c < total + 3 && c != total + 1 ==> Next(LastFree(total), c) == EOC;
    assert forall c: nat :: c < total + 3 ==> Next(fat', c) == EOC;
    EndsExactly(fat', total, total + 2);
  }

  class Fs {
    const bytesPerSector: nat
    const numFats: nat
    const fatStart: nat
    const fatSectors: nat
    const total: nat
    const clusterSize: nat
    const readOnly: bool
    const cache: array<nat>
    var dev: map<nat, seq<nat>>
    var cacheSector: nat
    var cacheDirty: bool
    var freeClusters: nat
    var nextFree: nat
    var dirty: bool
    ghost var fat: seq<nat>
    ghost var sectors: seq<seq<nat>>
    ghost var chains: set<seq<nat>>

    function Words(): nat {
      bytesPerSector / 4
    }

    ghost predicate Sizes()
      reads this
    {
      && bytesPerSector == 4 * Words() && numFats > 0 && clusterSize > 0
      && cache.Length == Words()
      && |sectors| == fatSectors && Flat(fat, sectors, Words())
      && 0 < total && total + 2 <= |fat| && total + 2 <= BAD
    }

    /** The copies agree with the logical FAT except at the dirty cached sector,
        and the cache is a window on it. */
    ghost predicate Valid()
      reads this, cache
    {
      && Sizes()
      && Mirrored(dev, sectors, fatStart, numFats, if cacheDirty then cacheSector else -1, 0)
      && (cacheSector < fatSectors ==> cache[..] == sectors[cacheSector])
      && (cacheDirty ==> cacheSector < fatSectors && !readOnly)
    }

    /** A known free count is the number of free clusters, and the FAT is a forest. */
    ghost predicate Sound()
      reads this
      requires Sizes()
    {
      && Forest(fat, total, chains)
      && (freeClusters != UNKNOWN ==> freeClusters == FreeBelow(fat, total + 2))
    }

    /** fat32_mount, for a volume whose FAT copies agree: nothing is cached yet. */
    constructor (bytes: nat, copies: nat, start: nat, n: nat, clusters: nat, clusterBytes: nat, ro: bool,
                 disk: map<nat, seq<nat>>, freeCount: nat, hint: nat,
                 ghost table: seq<nat>, ghost tableSectors: seq<seq<nat>>, ghost initial: set<seq<nat>>)
      requires bytes == 4 * (bytes / 4) && copies > 0 && clusterBytes > 0 && n <= UNKNOWN
      requires |tableSectors| == n && Flat(table, tableSectors, bytes / 4)
      requires 0 < clusters && clusters + 2 <= |table| && clusters + 2 <= BAD
      requires Mirrored(disk, tableSectors, start, copies, -1, 0)
      ensures Valid() && fat == table && chains == initial && nextFree == hint && freeClusters == freeCount
              && total == clusters
      ensures fresh(cache)
    {
      bytesPerSector, numFats, fatStart, fatSectors := bytes, copies, start, n;
      total, clusterSize, readOnly := clusters, clusterBytes, ro;
      cache := new nat[bytes / 4];
      dev, cacheSector, cacheDirty, dirty := disk, UNKNOWN, false, false;
      freeClusters, nextFree := freeCount, hint;
      fat, sectors, chains := table, tableSectors, initial;
    }

    /** fat32_flush_fat: afterwards every copy equals the logical FAT. */
    method Flush()
      requires Valid()
      modifies this`dev, this`cacheDirty
      ensures Valid() && !cacheDirty
      ensures Mirrored(dev, sectors, fatStart, numFats, -1, 0)
    {
      hide Mirrored, Flat, Abs;
      if !cacheDirty || readOnly {
        return;
      }
      var i := 0;
      while i < numFats
        invariant 0 <= i <= numFats
        invariant Mirrored(dev, sectors, fatStart, numFats, cacheSector, i)
      {
        WriteCopy(dev, sectors, fatStart, numFats, cacheSector, i);
        dev := dev[Abs(fatStart, fatSectors, i, cacheSector) := cache[..]];
        i := i + 1;
      }
      AllDone(dev, sectors, fatStart, numFats, cacheSector);
      cacheDirty := false;
    }

    /** fat32_cache_fat_sector. */
    method CacheFatSector(sector: nat)
      requires Valid() && sector < fatSectors
      modifies this`dev, this`cacheDirty, this`cacheSector, cache
      ensures Valid() && cacheSector == sector
    {
      hide Mirrored, Abs;
      if cacheSector == sector {
        return;
      }
      Flush();
      ReadCopy(dev, sectors, fatStart, numFats, sector);
      var data := dev[Abs(fatStart, fatSectors, 0, sector)];
      forall k | 0 <= k < cache.Length {
        cache[k] := data[k];
      }
      assert cache[..] == data;
      cacheSector := sector;
    }

    /** fat32_get_next_cluster: a read of the logical FAT. */
    method GetNextCluster(c: nat) returns (r: nat)
      requires Valid() && (IsValid(c) ==> c < |fat|)
      modifies this`dev, this`cacheDirty, this`cacheSector, cache
      ensures Valid()
      ensures r == if IsValid(c) then Next(fat, c) else 0
    {
      if !IsValid(c) {
        return 0;
      }
      EntryPlace(c, Words());
      assert FlatAt(fat, sectors, Words(), c);
      hide SectorOf, PlaceOf, Flat;
      var sector := (c * 4) / bytesPerSector;
      var entry := (c * 4) % bytesPerSector / 4;
      CacheFatSector(sector);
      return cache[entry] % BITS28;
    }

    /** fat32_set_cluster: a write of the logical FAT. */
    method SetCluster(c: nat, value: nat) returns (ok: bool)
      requires Valid() && c < |fat|
      modifies this`dev, this`cacheDirty, this`cacheSector, this`fat, this`sectors, this`dirty, cache
      ensures Valid() && ok == !readOnly
      ensures fat == if ok then SetNext(old(fat), c, value) else old(fat)
    {
      if readOnly {
        return false;
      }
      EntryPlace(c, Words());
      assert FlatAt(fat, sectors, Words(), c);
      hide SectorOf, PlaceOf, Flat;
      var sector := (c * 4) / bytesPerSector;
      var entry := (c * 4) % bytesPerSector / 4;
      CacheFatSector(sector);
      hide Mirrored, Abs;
      PokeMirrored(dev, sectors, fatStart, numFats, if cacheDirty then cacheSector else -1, sector, entry,
                   SetNext(fat, c, value)[c]);
      FlatUpdate(fat, sectors, Words(), c, SetNext(fat, c, value)[c]);
      cache[entry] := cache[entry] / BITS28 * BITS28 + value % BITS28;
      fat := SetNext(fat, c, value);
      sectors := Poke(sectors, sector, entry, fat[c]);
      cacheDirty := true;
      dirty := true;
      return true;
    }

    /** Is the entry of cluster c free, as fat32_alloc_cluster decides it. */
    method Probe(c: nat) returns (isFree: bool)
      requires Valid() && c < |fat|
      modifies this`dev, this`cacheDirty, this`cacheSector, cache
      ensures Valid()
      ensures isFree <==> Next(fat, c) == FREE
    {
      var next := GetNextCluster(c);
      if next != 0 {
        return false;
      }
      EntryPlace(c, Words());
      assert FlatAt(fat, sectors, Words(), c);
      hide SectorOf, PlaceOf, Flat;
      CacheFatSector((c * 4) / bytesPerSector);
      return cache[(c * 4) % bytesPerSector / 4] % BITS28 == FREE;
    }

    function Start(): nat
      reads this
    {
      if nextFree >= 2 then nextFree else 2
    }

    /** The do-while loop of fat32_alloc_cluster. */
    method FindFree(start: nat) returns (c: nat)
      requires Valid() && start == Start() && SearchEnds(fat, total, start)
      modifies this`dev, this`cacheDirty, this`cacheSector, cache
      ensures Valid()
      ensures c == Search(fat, total, start)
    {
      hide FatChains.Next;
      var cluster := start;
      while true
        invariant Valid() && 2 <= cluster
        invariant start < total + 2 ==> cluster < total + 2
        invariant start < total + 2 && start <= cluster ==> Passed(fat, start, cluster)
        invariant start < total + 2 && cluster < start ==> Passed(fat, start, total + 2) && Passed(fat, 2, cluster)
        invariant start >= total + 2 && cluster != start ==>
                    && cluster < total + 2 && Next(fat, start) != FREE
                    && Passed(fat, 2, cluster)
        decreases if start < total + 2 then (if start <= cluster then total + 2 - cluster + start else start - cluster)
                  else if cluster == start then total + 3 else total + 2 - cluster
      {
        var isFree := Probe(cluster);
        if isFree {
          FoundFree(fat, total, start, cluster);
          return cluster;
        }
        cluster := cluster + 1;
        if cluster >= total + 2 {
          cluster := 2;
        }
        if cluster == start {
          return 0;
        }
      }
    }

    /** fat32_alloc_cluster: 0 is failure. */
    method AllocCluster() returns (c: nat)
      requires Valid() && (readOnly || freeClusters == 0 || SearchEnds(fat, total, Start()))
      modifies this, cache
      ensures Valid()
      ensures c == if readOnly || old(freeClusters) == 0 then 0 else Search(old(fat), total, old(Start()))
      ensures c == 0 ==>
                && fat == old(fat) && chains == old(chains) && freeClusters == old(freeClusters)
                && nextFree == old(nextFree)
      ensures c != 0 ==> c < |fat| && fat == SetNext(old(fat), c, EOC) && nextFree == c + 1
      ensures old(Sound()) && (c == 0 || InRange(c, total)) ==>
                (c == 0 <==> readOnly || FreeBelow(old(fat), total + 2) == 0)
      ensures c != 0 && !InRange(c, total) ==> chains == old(chains) && total + 2 <= c
      ensures c != 0 && InRange(c, total) && old(Sound()) ==>
                && Sound() && chains == old(chains) + {[c]}
                && !Chained(old(chains), c)
    {
      hide Forest, Chained;
      if readOnly || freeClusters == 0 {
        return 0;
      }
      HonestSearch(fat, total, Start());
      c := FindFree(Start());
      if c == 0 {
        return 0;
      }
      FoundFacts(fat, total, Start(), c);
      if InRange(c, total) && Forest(fat, total, chains) {
        NewChain(fat, total, chains, c);
        FreeBelowUpdate(fat, c, EOC, total + 2);
        chains := chains + {[c]};
      }
      var ok := SetCluster(c, EOC);
      nextFree := c + 1;
      if freeClusters != UNKNOWN {
        freeClusters := freeClusters - 1;
      }
    }

    /** fat32_free_chain from the head of a chain: all of it is free afterwards. */
    method FreeChain(first: nat, ghost ch: seq<nat>) returns (ok: bool)
      requires Valid() && Sound()
      requires IsValid(first) ==> ch in chains && ch[0] == first
      requires !IsValid(first) ==> ch == []
      modifies this, cache
      ensures Valid() && Sound() && ok == !readOnly && nextFree == old(nextFree)
      ensures !ok ==> fat == old(fat) && chains == old(chains)
      ensures ok ==> chains == old(chains) - {ch}
    {
      hide Forest, Rest;
      if readOnly {
        return false;
      }
      var cluster := first;
      ghost var k := 0;
      EmptyIsNoChain(fat, total, chains);
      if IsValid(first) {
        AllValid(fat, total, chains, ch);
      }
      while IsValid(cluster)
        invariant Valid() && Sound() && nextFree == old(nextFree) && 0 <= k <= |ch|
        invariant chains == old(chains) - {ch} + (if k < |ch| then {ch[k..]} else {})
        invariant k < |ch| ==> cluster == ch[k]
        invariant k == |ch| ==> !IsValid(cluster)
        decreases |ch| - k
      {
        ghost var rest := ch[k..];
        ChainFacts(fat, total, chains, rest);
        var next := GetNextCluster(cluster);
        PopChain(fat, total, chains, rest);
        FreeBelowUpdate(fat, cluster, FREE, total + 2);
        NotTooMany(fat, total + 2);
        ok := SetCluster(cluster, FREE);
        chains := chains - {rest} + Rest(rest);
        RestOf(ch, k);
        if freeClusters != UNKNOWN {
          freeClusters := freeClusters + 1;
        }
        RemainingChains(old(fat), total, old(chains), ch, k);
        cluster := next;
        k := k + 1;
      }
      return true;
    }

    /** The walk of fat32_extend_chain to the last cluster, from any cluster of a chain. */
    method LastCluster(chain: nat, ghost ch: seq<nat>, ghost j: nat) returns (last: nat)
      requires Valid() && Forest(fat, total, chains) && ch in chains && j < |ch| && ch[j] == chain
      modifies this`dev, this`cacheDirty, this`cacheSector, cache
      ensures Valid()
      ensures ch != [] && last == ch[|ch| - 1]
    {
      hide Forest;
      last := chain;
      ghost var k := j;
      LinkFacts(fat, total, chains, ch, k);
      var next := GetNextCluster(last);
      while next != 0 && IsValid(next)
        invariant Valid() && k < |ch| && last == ch[k] && last < |fat| && next == Next(fat, last)
        decreases |ch| - k
      {
        LinkFacts(fat, total, chains, ch, k);
        k := k + 1;
        last := next;
        LinkFacts(fat, total, chains, ch, k);
        next := GetNextCluster(last);
      }
      LinkFacts(fat, total, chains, ch, k);
    }

    /** fat32_extend_chain: one new cluster at the end of the chain that holds the given
        cluster, or a new chain.  The chains stay sound unless the cluster found lies
        outside the volume. */
    method ExtendChain(chain: nat, ghost ch: seq<nat>, ghost j: nat) returns (c: nat)
      requires Valid() && Sound() && (readOnly || freeClusters == 0 || SearchEnds(fat, total, Start()))
      requires chain != 0 ==> ch in chains && j < |ch| && ch[j] == chain
      modifies this, cache
      ensures Valid()
      ensures c == if readOnly || old(freeClusters) == 0 then 0 else Search(old(fat), total, old(Start()))
      ensures c == 0 ==> Sound() && fat == old(fat) && chains == old(chains)
      ensures c == 0 || InRange(c, total) ==> (c == 0 <==> readOnly || FreeBelow(old(fat), total + 2) == 0)
      ensures InRange(c, total) ==> Sound() && !Chained(old(chains), c)
      ensures InRange(c, total) ==>
                chains == if chain == 0 then old(chains) + {[c]} else old(chains) - {ch} + {ch + [c]}
      ensures c != 0 && chain == 0 ==> c < |fat| && fat == SetNext(old(fat), c, EOC)
      ensures c != 0 && chain != 0 ==>
                && ch != [] && ch[|ch| - 1] < |fat| && c < |fat|
                && fat == SetNext(SetNext(old(fat), c, EOC), ch[|ch| - 1], c)
    {
      hide Forest, Chained;
      c := AllocCluster();
      if c == 0 {
        return 0;
      }
      if chain != 0 {
        ghost var inside := InRange(c, total);
        if !inside {
          OutsideKeeps(old(fat), total, chains, c);
        } else {
          FreshChain(old(chains), ch, c);
        }
        var last := LastCluster(chain, ch, j);
        LinkFacts(fat, total, chains, ch, |ch| - 1);
        if inside {
          LinkChain(fat, total, chains, ch, c);
          FreeBelowUpdate(fat, last, c, total + 2);
          chains := chains - {ch, [c]} + {ch + [c]};
        }
        var ok := SetCluster(last, c);
      }
    }

    /** fat32_file_truncate on a file of nodeSize bytes whose chain is ch. */
    method Truncate(nodeSize: nat, first: nat, size: nat, ghost ch: seq<nat>)
      returns (ok: bool, newSize: nat, newFirst: nat)
      requires Valid() && Sound()
      requires if first == 0 then ch == [] else ch in chains && ch[0] == first
      modifies this, cache
      ensures Valid() && Sound() && ok == !readOnly
      ensures newSize == if ok then size else nodeSize
      ensures newFirst == if ok && size == 0 && nodeSize != 0 then 0 else first
      ensures chains == if !ok || size >= nodeSize then old(chains)
                        else old(chains) - {ch} + Kept(ch, Needed(size, clusterSize))
    {
      hide Forest, Needed;
      newSize, newFirst := nodeSize, first;
      if readOnly {
        return false, newSize, newFirst;
      }
      EmptyIsNoChain(fat, total, chains);
      if size == nodeSize {
        return true, newSize, newFirst;
      }
      if size == 0 {
        NoneNeeded(clusterSize);
        if first != 0 {
          ChainFacts(fat, total, chains, ch);
          var done := FreeChain(first, ch);
          newFirst := 0;
        }
      } else if size < nodeSize {
        SomeNeeded(size, clusterSize);
        TruncateTo(first, (size + clusterSize - 1) / clusterSize, ch);
      }
      dirty := true;
      return true, size, newFirst;
    }

    /** Keep the first n > 0 clusters of a chain and free the others. */
    method TruncateTo(first: nat, n: nat, ghost ch: seq<nat>)
      requires Valid() && Sound() && !readOnly && n > 0
      requires if first == 0 then ch == [] else ch in chains && ch[0] == first
      modifies this, cache
      ensures Valid() && Sound()
      ensures chains == old(chains) - {ch} + Kept(ch, n)
    {
      hide Forest;
      EmptyIsNoChain(fat, total, chains);
      var cluster := first;
      var i := 1;
      if first != 0 {
        AllValid(fat, total, chains, ch);
      }
      while i < n && IsValid(cluster)
        invariant 1 <= i <= n && Valid() && Sound() && chains == old(chains)
        invariant i <= |ch| ==> cluster == ch[i - 1]
        invariant i > |ch| ==> !IsValid(cluster)
        decreases n - i
      {
        LinkFacts(fat, total, chains, ch, i - 1);
        cluster := GetNextCluster(cluster);
        i := i + 1;
      }
      if IsValid(cluster) {
        LinkFacts(fat, total, chains, ch, i - 1);
        var next := GetNextCluster(cluster);
        if IsValid(next) {
          CutChain(fat, total, chains, ch, i);
          FreeBelowUpdate(fat, cluster, EOC, total + 2);
          var done := SetCluster(cluster, EOC);
          chains := chains - {ch} + {ch[..i], ch[i..]};
          done := FreeChain(next, ch[i..]);
          CutAway(old(fat), total, old(chains), ch, i);
        }
      }
    }
  }

  // --- Facts used by the loops ---------------------------------------------------------

  ghost predicate Passed(fat: seq<nat>, from: nat, limit: nat) {
    forall d: nat :: from <= d < limit && d < |fat| ==> Next(fat, d) != FREE
  }

  lemma FoundFree(fat: seq<nat>, total: nat, start: nat, c: nat)
    requires total + 2 <= |fat| && 2 <= start && 2 <= c < |fat| && Next(fat, c) == FREE
    requires start < total + 2 || start < |fat|
    requires start < total + 2 ==> c < total + 2
    requires start < total + 2 && start <= c ==> Passed(fat, start, c)
    requires start < total + 2 && c < start ==> Passed(fat, start, total + 2) && Passed(fat, 2, c)
    requires start >= total + 2 && c != start ==> c < total + 2 && Next(fat, start) != FREE && Passed(fat, 2, c)
    ensures Search(fat, total, start) == c
  {
  }

  /** A search that stays in the volume finds nothing only if nothing is free. */
  lemma HonestSearch(fat: seq<nat>, total: nat, start: nat)
    requires total + 2 <= |fat| && 2 <= start && SearchEnds(fat, total, start)
    ensures var c := Search(fat, total, start);
      c == 0 || InRange(c, total) ==> (c == 0 <==> FreeBelow(fat, total + 2) == 0)
  {
    NoneFree(fat, total + 2);
  }

  /** An entry behind the volume belongs to no chain. */
  lemma OutsideKeeps(fat: seq<nat>, total: nat, chains: set<seq<nat>>, c: nat)
    requires Forest(fat, total, chains) && total + 2 <= c < |fat|
    ensures Forest(SetNext(fat, c, EOC), total, chains)
  {
  }

  lemma FoundFacts(fat: seq<nat>, total: nat, start: nat, c: nat)
    requires total + 2 <= |fat| && 2 <= start && (start < total + 2 || start < |fat|)
    requires c == Search(fat, total, start) && c != 0
    ensures 2 <= c < |fat| && Next(fat, c) == FREE
  {
  }

  /** Clusters that hold size bytes. */
  function Needed(size: nat, clusterSize: nat): nat
    requires clusterSize > 0
  {
    (size + clusterSize - 1) / clusterSize
  }

  lemma NoneNeeded(clusterSize: nat)
    requires clusterSize > 0
    ensures Needed(0, clusterSize) == 0
  {
  }

  lemma SomeNeeded(size: nat, clusterSize: nat)
    requires clusterSize > 0 && size > 0
    ensures Needed(size, clusterSize) == (size + clusterSize - 1) / clusterSize > 0
    ensures (Needed(size, clusterSize) - 1) * clusterSize < size <= Needed(size, clusterSize) * clusterSize
  {
  }

  /** What is left of a chain cut down to n clusters. */
  ghost function Kept(ch: seq<nat>, n: nat): set<seq<nat>> {
    if n == 0 || ch == [] then {} else if n < |ch| then {ch[..n]} else {ch}
  }

  lemma EmptyIsNoChain(fat: seq<nat>, total: nat, chains: set<seq<nat>>)
    requires Forest(fat, total, chains)
    ensures [] !in chains
  {
  }

  lemma LinkFacts(fat: seq<nat>, total: nat, chains: set<seq<nat>>, ch: seq<nat>, k: nat)
    requires Forest(fat, total, chains) && ch in chains && k < |ch|
    ensures IsValid(ch[k]) && InRange(ch[k], total) && ch[k] < |fat| && Next(fat, ch[k]) != FREE
    ensures k + 1 < |ch| ==> Next(fat, ch[k]) == ch[k + 1] && IsValid(ch[k + 1])
    ensures k + 1 == |ch| ==> !IsValid(Next(fat, ch[k]))
  {
    assert Good(fat, total, ch);
    GoodMember(fat, total, ch, ch[k]);
  }

  lemma AllValid(fat: seq<nat>, total: nat, chains: set<seq<nat>>, ch: seq<nat>)
    requires Forest(fat, total, chains) && ch in chains
    ensures forall k :: 0 <= k < |ch| ==> IsValid(ch[k])
  {
  }

  lemma ChainFacts(fat: seq<nat>, total: nat, chains: set<seq<nat>>, ch: seq<nat>)
    requires Forest(fat, total, chains) && ch in chains
    ensures ch != [] && IsValid(ch[0]) && ch[0] < total + 2 <= |fat| && Next(fat, ch[0]) != FREE
    ensures |ch| > 1 ==> Next(fat, ch[0]) == ch[1]
    ensures |ch| == 1 ==> !IsValid(Next(fat, ch[0]))
  {
    assert Good(fat, total, ch);
    LinkFacts(fat, total, chains, ch, 0);
  }

  lemma {:induction false} NotTooMany(fat: seq<nat>, n: nat)
    requires n <= |fat|
    ensures FreeBelow(fat, n) <= n
    decreases n
  {
    if n > 2 {
      NotTooMany(fat, n - 1);
    }
  }

  lemma RestOf(ch: seq<nat>, k: nat)
    requires k < |ch|
    ensures Rest(ch[k..]) == if k + 1 < |ch| then {ch[k + 1..]} else {}
  {
  }

  /** A proper part of a chain is not itself one of the chains. */
  lemma PartIsNoChain(fat: seq<nat>, total: nat, chains: set<seq<nat>>, ch: seq<nat>, part: seq<nat>)
    requires Forest(fat, total, chains) && ch in chains && part != [] && part[0] in ch && part != ch
    ensures part !in chains
  {
    assert part[0] in part;
  }

  lemma RemainingChains(fat: seq<nat>, total: nat, chains: set<seq<nat>>, ch: seq<nat>, k: nat)
    requires Forest(fat, total, chains) && ch in chains && k < |ch|
    ensures var left := if k + 1 < |ch| then {ch[k + 1..]} else {};
            chains - {ch} + {ch[k..]} - {ch[k..]} + left == chains - {ch} + left
  {
    if k > 0 {
      PartIsNoChain(fat, total, chains, ch, ch[k..]);
    } else {
      assert ch[k..] == ch;
    }
  }

  lemma FreshChain(chains: set<seq<nat>>, ch: seq<nat>, c: nat)
    requires ch in chains && !Chained(chains, c)
    ensures ch != [c] && [c] !in chains
    ensures chains + {[c]} - {ch, [c]} + {ch + [c]} == chains - {ch} + {ch + [c]}
  {
  }

  lemma CutAway(fat: seq<nat>, total: nat, chains: set<seq<nat>>, ch: seq<nat>, i: nat)
    requires Forest(fat, total, chains) && ch in chains && 0 < i < |ch|
    ensures chains - {ch} + {ch[..i], ch[i..]} - {ch[i..]} == chains - {ch} + {ch[..i]}
  {
    PartIsNoChain(fat, total, chains, ch, ch[i..]);
    assert Good(fat, total, ch);
    assert ch[..i][0] == ch[0] && ch[i..][0] == ch[i];
  }
}
