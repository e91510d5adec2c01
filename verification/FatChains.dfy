/** The FAT32 allocation table as a set of cluster chains (kernel/fs/fat32.c). */
module FatChains {
  import opened Sequences

  const FREE: nat := 0
  const EOC: nat := 0x0FFFFFFF
  const BAD: nat := 0x0FFFFFF7
  const BITS28: nat := 0x10000000

  /** FAT32_IS_VALID. */
  predicate IsValid(c: nat) {
    2 <= c < BAD
  }

  /** The 28 bits of an entry that name the next cluster. */
  function Next(fat: seq<nat>, c: nat): (r: nat)
    requires c < |fat|
    ensures r < BITS28
  {
    fat[c] % BITS28
  }

  /** Store v in the low 28 bits of entry c; the top 4 bits stay. */
  function SetNext(fat: seq<nat>, c: nat, v: nat): (r: seq<nat>)
    requires c < |fat|
    ensures |r| == |fat|
    ensures Next(r, c) == v % BITS28 && r[c] / BITS28 == fat[c] / BITS28
    ensures forall d: nat :: d < |fat| && d != c ==> Next(r, d) == Next(fat, d)
  {
    fat[c := fat[c] / BITS28 * BITS28 + v % BITS28]
  }

  predicate InRange(c: nat, total: nat) {
    2 <= c < total + 2
  }

  ghost predicate IsChain(fat: seq<nat>, total: nat, ch: seq<nat>) {
    && ch != []
    && (forall i :: 0 <= i < |ch| ==> InRange(ch[i], total) && ch[i] < |fat|)
    && (forall i :: 0 <= i < |ch| - 1 ==> Next(fat, ch[i]) == ch[i + 1])
    && Ends(Next(fat, ch[|ch| - 1]))
  }

  /** An entry that ends a chain. */
  predicate Ends(e: nat) {
    e != FREE && !IsValid(e)
  }

  ghost predicate Chained(chains: set<seq<nat>>, c: nat) {
    exists ch :: ch in chains && c in ch
  }

  ghost predicate Good(fat: seq<nat>, total: nat, ch: seq<nat>) {
    IsChain(fat, total, ch) && NoDup(ch)
  }

  ghost predicate AllGood(fat: seq<nat>, total: nat, chains: set<seq<nat>>) {
    forall ch :: ch in chains ==> Good(fat, total, ch)
  }

  /** No cluster is in two chains. */
  ghost predicate Apart(chains: set<seq<nat>>) {
    forall x, y, c :: x in chains && y in chains && c in x && c in y ==> x == y
  }

  ghost predicate Covers(fat: seq<nat>, total: nat, chains: set<seq<nat>>)
    requires total + 2 <= |fat|
  {
    forall c: nat :: InRange(c, total) && Next(fat, c) != FREE ==> Chained(chains, c)
  }

  /** Disjoint acyclic in-range chains, and every cluster is in one or free. */
  ghost predicate Forest(fat: seq<nat>, total: nat, chains: set<seq<nat>>) {
    && total + 2 <= |fat| && total + 2 <= BAD
    && AllGood(fat, total, chains)
    && Apart(chains)
    && Covers(fat, total, chains)
  }

  /** A member of a chain is not free. */
  lemma MemberNotFree(fat: seq<nat>, total: nat, ch: seq<nat>, c: nat)
    requires IsChain(fat, total, ch) && c in ch
    ensures c < |fat| && InRange(c, total) && Next(fat, c) != FREE
  {
    var i :| 0 <= i < |ch| && ch[i] == c;
    if i < |ch| - 1 {
      assert Next(fat, ch[i]) == ch[i + 1] && InRange(ch[i + 1], total);
    }
  }

  /** Writing one entry leaves the chains it is not in as they are. */
  lemma GoodElsewhere(fat: seq<nat>, total: nat, chains: set<seq<nat>>, c: nat, v: nat)
    requires AllGood(fat, total, chains) && c < |fat| && forall ch :: ch in chains ==> c !in ch
    ensures AllGood(SetNext(fat, c, v), total, chains)
  {
  }

  /** Coverage after entry c changes and the chain (or no chain) around it is
      replaced by others with the same clusters, c itself perhaps excepted. */
  lemma CoversAfter(fat: seq<nat>, total: nat, chains: set<seq<nat>>, c: nat, v: nat, after: set<seq<nat>>)
    requires total + 2 <= |fat| && Covers(fat, total, chains) && c < |fat|
    requires forall d: nat :: Chained(chains, d) && d != c ==> Chained(after, d)
    requires v % BITS28 != FREE ==> Chained(after, c)
    ensures Covers(SetNext(fat, c, v), total, after)
  {
  }

  /** A free cluster becomes a chain of its own. */
  lemma NewChain(fat: seq<nat>, total: nat, chains: set<seq<nat>>, c: nat)
    requires Forest(fat, total, chains) && InRange(c, total) && Next(fat, c) == FREE
    ensures Forest(SetNext(fat, c, EOC), total, chains + {[c]})
    ensures !Chained(chains, c)
  {
    forall ch | ch in chains
      ensures c !in ch
    {
      assert Good(fat, total, ch);
      if c in ch {
        MemberNotFree(fat, total, ch, c);
      }
    }
    var after := chains + {[c]};
    GoodElsewhere(fat, total, chains, c, EOC);
    forall d: nat | Chained(chains, d) || d == c
      ensures Chained(after, d)
    {
      var x :| x in after && d in x;
    }
    CoversAfter(fat, total, chains, c, EOC, after);
    hide Covers;
  }

  lemma LinkGood(fat: seq<nat>, total: nat, ch: seq<nat>, c: nat)
    requires Good(fat, total, ch) && Good(fat, total, [c]) && c !in ch && total + 2 <= BAD
    ensures Good(SetNext(fat, ch[|ch| - 1], c), total, ch + [c])
  {
  }

  lemma LinkChained(chains: set<seq<nat>>, ch: seq<nat>, c: nat)
    ensures forall d: nat :: Chained(chains, d) ==> Chained(chains - {ch, [c]} + {ch + [c]}, d)
  {
  }

  lemma NotShared(chains: set<seq<nat>>, x: seq<nat>, c: nat)
    requires Apart(chains) && x in chains && c in x
    ensures forall y :: y in chains && y != x ==> c !in y
  {
  }

  /** The last cluster of one chain is linked to a one-cluster chain. */
  lemma LinkChain(fat: seq<nat>, total: nat, chains: set<seq<nat>>, ch: seq<nat>, c: nat)
    requires Forest(fat, total, chains) && ch in chains && [c] in chains && ch != [c]
    ensures ch != [] && ch[|ch| - 1] < |fat|
    ensures Forest(SetNext(fat, ch[|ch| - 1], c), total, chains - {ch, [c]} + {ch + [c]})
  {
    assert Good(fat, total, ch) && Good(fat, total, [c]);
    var last := ch[|ch| - 1];
    hide Covers, Good, Apart, Chained, IsChain;
    assert c in [c] && last in ch;
    NotShared(chains, [c], c);
    NotShared(chains, ch, last);
    LinkGood(fat, total, ch, c);
    GoodElsewhere(fat, total, chains - {ch, [c]}, last, c);
    LinkApart(chains, ch, c);
    LinkChained(chains, ch, c);
    MemberChained(chains - {ch, [c]} + {ch + [c]}, ch + [c], last);
    CoversAfter(fat, total, chains, last, c, chains - {ch, [c]} + {ch + [c]});
  }

  lemma MemberChained(chains: set<seq<nat>>, ch: seq<nat>, c: nat)
    requires ch in chains && c in ch
    ensures Chained(chains, c)
  {
  }

  lemma LinkApart(chains: set<seq<nat>>, ch: seq<nat>, c: nat)
    requires Apart(chains) && ch in chains && [c] in chains
    ensures Apart(chains - {ch, [c]} + {ch + [c]})
  {
  }

  lemma PopGood(fat: seq<nat>, total: nat, ch: seq<nat>)
    requires Good(fat, total, ch)
    ensures AllGood(SetNext(fat, ch[0], FREE), total, Rest(ch))
  {
  }

  lemma PopChained(chains: set<seq<nat>>, ch: seq<nat>)
    requires ch != []
    ensures forall d: nat :: Chained(chains, d) && d != ch[0] ==> Chained(chains - {ch} + Rest(ch), d)
    ensures Apart(chains) && ch in chains ==> Apart(chains - {ch} + Rest(ch))
  {
  }

  /** Freeing the first cluster of a chain leaves the rest of it. */
  lemma PopChain(fat: seq<nat>, total: nat, chains: set<seq<nat>>, ch: seq<nat>)
    requires Forest(fat, total, chains) && ch in chains
    ensures ch != [] && ch[0] < |fat|
    ensures Forest(SetNext(fat, ch[0], FREE), total, chains - {ch} + Rest(ch))
  {
    assert Good(fat, total, ch);
    var c := ch[0];
    hide Covers, Good, Apart, Chained, IsChain, Rest;
    assert c in ch;
    NotShared(chains, ch, c);
    PopGood(fat, total, ch);
    GoodElsewhere(fat, total, chains - {ch}, c, FREE);
    PopChained(chains, ch);
    CoversAfter(fat, total, chains, c, FREE, chains - {ch} + Rest(ch));
  }

  ghost function Rest(ch: seq<nat>): set<seq<nat>> {
    if |ch| <= 1 then {} else {ch[1..]}
  }

  lemma CutGood(fat: seq<nat>, total: nat, ch: seq<nat>, j: nat)
    requires Good(fat, total, ch) && 0 < j < |ch|
    ensures Good(SetNext(fat, ch[j - 1], EOC), total, ch[..j])
    ensures Good(SetNext(fat, ch[j - 1], EOC), total, ch[j..])
  {
  }

  lemma CutChained(chains: set<seq<nat>>, ch: seq<nat>, j: nat)
    requires 0 < j < |ch|
    ensures forall d: nat :: Chained(chains, d) ==> Chained(chains - {ch} + {ch[..j], ch[j..]}, d)
  {
  }

  /** Ending a chain after its first j clusters makes two chains of it. */
  lemma CutChain(fat: seq<nat>, total: nat, chains: set<seq<nat>>, ch: seq<nat>, j: nat)
    requires Forest(fat, total, chains) && ch in chains && 0 < j < |ch|
    ensures ch[j - 1] < |fat|
    ensures Forest(SetNext(fat, ch[j - 1], EOC), total, chains - {ch} + {ch[..j], ch[j..]})
  {
    hide Covers, Good, Apart, Chained, IsChain, NoDup;
    assert Good(fat, total, ch);
    var c := ch[j - 1];
    var after := chains - {ch} + {ch[..j], ch[j..]};
    assert c in ch && c == ch[..j][j - 1];
    GoodMember(fat, total, ch, c);
    CutApart(chains, fat, total, ch, j);
    NotShared(chains, ch, c);
    CutGood(fat, total, ch, j);
    GoodElsewhere(fat, total, chains - {ch}, c, EOC);
    CutChained(chains, ch, j);
    MemberChained(after, ch[..j], c);
    CoversAfter(fat, total, chains, c, EOC, after);
  }

  lemma GoodMember(fat: seq<nat>, total: nat, ch: seq<nat>, c: nat)
    requires Good(fat, total, ch) && c in ch
    ensures c < |fat| && InRange(c, total) && Next(fat, c) != FREE
  {
    MemberNotFree(fat, total, ch, c);
  }

  lemma CutApart(chains: set<seq<nat>>, fat: seq<nat>, total: nat, ch: seq<nat>, j: nat)
    requires 0 < j < |ch| && Good(fat, total, ch) && Apart(chains) && ch in chains
    ensures Apart(chains - {ch} + {ch[..j], ch[j..]})
  {
  }

  // --- Counting free clusters --------------------------------------------------------

  /** Free clusters among 2 .. n-1. */
  ghost function FreeBelow(fat: seq<nat>, n: nat): nat
    requires n <= |fat|
  {
    if n <= 2 then 0 else FreeBelow(fat, n - 1) + if Next(fat, n - 1) == FREE then 1 else 0
  }

  lemma {:induction false} FreeBelowUpdate(fat: seq<nat>, c: nat, v: nat, n: nat)
    requires 2 <= c < |fat| && n <= |fat| && v < BITS28
    ensures FreeBelow(SetNext(fat, c, v), n) ==
            FreeBelow(fat, n) + if c < n then (if v == FREE then 1 else 0) - (if Next(fat, c) == FREE then 1 else 0)
              else 0
    decreases n
  {
    if n > 2 {
      FreeBelowUpdate(fat, c, v, n - 1);
    }
  }

  lemma {:induction false} NoneFree(fat: seq<nat>, n: nat)
    requires n <= |fat|
    ensures FreeBelow(fat, n) == 0 <==> forall c: nat :: 2 <= c < n ==> Next(fat, c) != FREE
    decreases n
  {
    if n > 2 {
      NoneFree(fat, n - 1);
    }
  }
}
