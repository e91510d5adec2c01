/** Block bitmaps of ext2 block groups (kernel/fs/ext2.c). */
module Ext2Bitmap {
  import opened Bytes
  import opened Dyadic

  // --- Bits of a byte, by halving ---------------------------------------------------------

  /** x & (1 << k). */
  predicate BitOf(x: nat, k: nat) {
    if k == 0 then x % 2 == 1 else BitOf(x / 2, k - 1)
  }

  /** x | (1 << k). */
  function OrBit(x: nat, k: nat): nat {
    if k == 0 then x - x % 2 + 1 else 2 * OrBit(x / 2, k - 1) + x % 2
  }

  /** x & ~(1 << k). */
  function AndNotBit(x: nat, k: nat): nat {
    if k == 0 then x - x % 2 else 2 * AndNotBit(x / 2, k - 1) + x % 2
  }

  lemma {:induction false} OrBitIs(x: nat, k: nat, m: nat)
    ensures BitOf(OrBit(x, k), m) <==> m == k || BitOf(x, m)
    decreases k
  {
    if k > 0 && m > 0 {
      OrBitIs(x / 2, k - 1, m - 1);
      assert OrBit(x, k) / 2 == OrBit(x / 2, k - 1);
    }
  }

  lemma {:induction false} AndNotBitIs(x: nat, k: nat, m: nat)
    ensures BitOf(AndNotBit(x, k), m) <==> m != k && BitOf(x, m)
    decreases k
  {
    if k > 0 && m > 0 {
      AndNotBitIs(x / 2, k - 1, m - 1);
      assert AndNotBit(x, k) / 2 == AndNotBit(x / 2, k - 1);
    }
  }

  lemma {:induction false} BitsBounded(x: nat, k: nat, n: nat)
    requires k < n && x < Pow2(n)
    ensures OrBit(x, k) < Pow2(n) && AndNotBit(x, k) < Pow2(n)
    decreases k
  {
    if k > 0 {
      BitsBounded(x / 2, k - 1, n - 1);
    }
  }

  function OrByte(x: Byte, k: nat): Byte
    requires k < 8
  {
    BitsBounded(x, k, 8);
    assert Pow2(8) == 256 by { assert Pow2(4) == 16; }
    OrBit(x, k)
  }

  function AndNotByte(x: Byte, k: nat): Byte
    requires k < 8
  {
    BitsBounded(x, k, 8);
    assert Pow2(8) == 256 by { assert Pow2(4) == 16; }
    AndNotBit(x, k)
  }

  // --- Bitmaps -------------------------------------------------------------------------------

  predicate Marked(bm: seq<Byte>, i: nat)
    requires i / 8 < |bm|
  {
    BitOf(bm[i / 8], i % 8)
  }

  function Mark(bm: seq<Byte>, i: nat): (r: seq<Byte>)
    requires i / 8 < |bm|
    ensures |r| == |bm|
  {
    bm[i / 8 := OrByte(bm[i / 8], i % 8)]
  }

  function Unmark(bm: seq<Byte>, i: nat): (r: seq<Byte>)
    requires i / 8 < |bm|
    ensures |r| == |bm|
  {
    bm[i / 8 := AndNotByte(bm[i / 8], i % 8)]
  }

  lemma MarkIs(bm: seq<Byte>, i: nat, j: nat)
    requires i / 8 < |bm| && j / 8 < |bm|
    ensures Marked(Mark(bm, i), j) <==> j == i || Marked(bm, j)
    ensures Marked(Unmark(bm, i), j) <==> j != i && Marked(bm, j)
  {
    if j / 8 == i / 8 {
      OrBitIs(bm[i / 8], i % 8, j % 8);
      AndNotBitIs(bm[i / 8], i % 8, j % 8);
      assert j % 8 == i % 8 <==> j == i;
    }
  }

  /** Unmarked bits among the first n. */
  ghost function Clear(bm: seq<Byte>, n: nat): nat
    requires n <= 8 * |bm|
  {
    if n == 0 then 0 else Clear(bm, n - 1) + if Marked(bm, n - 1) then 0 else 1
  }

  lemma {:induction false} ClearAfter(bm: seq<Byte>, i: nat, n: nat)
    requires n <= 8 * |bm| && i < 8 * |bm|
    ensures Clear(Mark(bm, i), n) == Clear(bm, n) - if i < n && !Marked(bm, i) then 1 else 0
    ensures Clear(Unmark(bm, i), n) == Clear(bm, n) + if i < n && Marked(bm, i) then 1 else 0
  {
    if n > 0 {
      ClearAfter(bm, i, n - 1);
      MarkIs(bm, i, n - 1);
    }
  }

  lemma {:induction false} ClearZero(bm: seq<Byte>, n: nat)
    requires n <= 8 * |bm|
    ensures Clear(bm, n) == 0 <==> forall i: nat :: i < n ==> Marked(bm, i)
  {
    if n > 0 {
      ClearZero(bm, n - 1);
    }
  }
}
