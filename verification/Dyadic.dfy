/** Arithmetic of naturally aligned power-of-two runs of pages.

    Alignment is expressed by repeated halving, which keeps every step linear;
    AlignedIsMod ties it back to the mask test of the C code. */
module Dyadic {
  import opened Division

  function Pow2(k: nat): (r: nat)
    ensures r >= 1
  {
    if k == 0 then 1 else 2 * Pow2(k - 1)
  }

  /** First page of the aligned run of 2^k pages that holds page p. */
  function Down(p: nat, k: nat): (r: nat)
    ensures r <= p < r + Pow2(k)
  {
    if k == 0 then p else 2 * Down(p / 2, k - 1)
  }

  predicate Aligned(p: nat, k: nat) {
    Down(p, k) == p
  }

  /** The other half of the order-(k+1) run around an aligned order-k run. */
  function Buddy(b: nat, k: nat): (r: nat)
    requires Aligned(b, k)
  {
    if Aligned(b, k + 1) then b + Pow2(k) else Down(b, k + 1)
  }

  lemma {:induction false} AlignedIsMod(p: nat, k: nat)
    ensures Aligned(p, k) <==> p % Pow2(k) == 0
  {
    if k > 0 {
      AlignedIsMod(p / 2, k - 1);
      HalveMod(p, Pow2(k - 1));
    }
  }

  lemma HalveMod(p: nat, m: nat)
    requires m > 0
    ensures p % (2 * m) == 0 <==> p % 2 == 0 && (p / 2) % m == 0
  {
    var q, r := p / (2 * m), p % (2 * m);
    assert p == q * (2 * m) + r;
    assert p == 2 * (q * m) + r;
    assert p / 2 == q * m + r / 2;
    Divided(p / 2, m, q, r / 2);
  }

  lemma {:induction false} DownDown(p: nat, j: nat, k: nat)
    requires j <= k
    ensures Down(Down(p, j), k) == Down(p, k)
  {
    if j > 0 {
      DownDown(p / 2, j - 1, k - 1);
    }
  }

  lemma {:induction false} AlignedBelow(p: nat, j: nat, k: nat)
    requires j <= k && Aligned(p, k)
    ensures Aligned(p, j)
  {
    if j > 0 {
      AlignedBelow(p / 2, j - 1, k - 1);
    }
  }

  /** Membership in an aligned run, by address range or by rounding down. */
  lemma {:induction false} RunMembers(p: nat, b: nat, k: nat)
    requires Aligned(b, k)
    ensures b <= p < b + Pow2(k) <==> Down(p, k) == b
  {
    if k > 0 {
      RunMembers(p / 2, b / 2, k - 1);
    }
  }

  /** An order-(k+1) run is its two order-k halves. */
  lemma {:induction false} Halves(p: nat, k: nat)
    ensures Aligned(Down(p, k + 1), k)
    ensures Aligned(Down(p, k + 1) + Pow2(k), k)
    ensures !Aligned(Down(p, k + 1) + Pow2(k), k + 1)
    ensures Down(Down(p, k + 1) + Pow2(k), k + 1) == Down(p, k + 1)
    ensures Down(p, k) == Down(p, k + 1) || Down(p, k) == Down(p, k + 1) + Pow2(k)
  {
    if k > 0 {
      Halves(p / 2, k - 1);
      var d := Down(p / 2, k);
      assert Down(p, k + 1) == 2 * d && 2 * d / 2 == d;
      assert Pow2(k) == 2 * Pow2(k - 1) && (2 * d + Pow2(k)) / 2 == d + Pow2(k - 1);
    }
  }

  /** The pages of an order-(k+1) run are those of its two halves. */
  lemma HalfOf(p: nat, b: nat, k: nat)
    requires Aligned(b, k + 1)
    ensures Down(p, k + 1) == b <==> Down(p, k) == b || Down(p, k) == b + Pow2(k)
  {
    Halves(p, k);
    Halves(b, k);
    DownDown(p, k, k + 1);
  }

  lemma BuddyFacts(b: nat, k: nat)
    requires Aligned(b, k)
    ensures Aligned(Buddy(b, k), k)
    ensures Buddy(b, k) != b
    ensures Buddy(Buddy(b, k), k) == b
    ensures Down(Buddy(b, k), k + 1) == Down(b, k + 1)
    ensures Down(b, k + 1) == if Buddy(b, k) < b then Buddy(b, k) else b
  {
    Halves(b, k);
    DownDown(b, k + 1, k + 1);
  }

  /** p ^ (1 << k), bit by bit. */
  function FlipBit(p: nat, k: nat): (r: nat) {
    if k == 0 then (if p % 2 == 0 then p + 1 else p - 1) else 2 * FlipBit(p / 2, k - 1) + p % 2
  }

  /** On an aligned run the xor finds the other half of the enclosing run. */
  lemma {:induction false} FlipIsBuddy(b: nat, k: nat)
    requires Aligned(b, k)
    ensures FlipBit(b, k) == Buddy(b, k)
  {
    if k > 0 {
      FlipIsBuddy(b / 2, k - 1);
    }
  }
}
