/** The Internet checksum and the IPv4 header code around it (kernel/net/ip.c). */
module Checksum {
  import opened Bytes
  import opened Division

  const M: nat := 65535
  const WORD32: nat := 0x1_0000_0000

  // --- Sums ------------------------------------------------------------------------------------------

  /** The k-th 16-bit word, low byte first. */
  function Word(b: seq<Byte>, k: nat): nat
    requires 2 * k + 1 < |b|
  {
    b[2 * k] as int + 256 * (b[2 * k + 1] as int)
  }

  /** Sum of the first n words. */
  function Words(b: seq<Byte>, n: nat): nat
    requires 2 * n <= |b|
  {
    if n == 0 then 0 else Words(b, n - 1) + Word(b, n - 1)
  }

  /** Sum of all words, an odd last byte counting as a word of its own. */
  function Total(b: seq<Byte>): nat {
    Words(b, |b| / 2) + if |b| % 2 == 1 then b[|b| - 1] else 0
  }

  /** The 16-bit one's complement sum of a number: its residue modulo 65535, where only
      0 itself gives 0. */
  function Ones(s: nat): (r: nat)
    ensures r <= M && (r == 0 <==> s == 0)
  {
    if s == 0 then 0 else (s - 1) % M + 1
  }

  lemma {:induction false} WordsBound(b: seq<Byte>, n: nat)
    requires 2 * n <= |b|
    ensures Words(b, n) <= n * M
  {
    if n > 0 {
      WordsBound(b, n - 1);
    }
  }

  /** Up to 65537 words, or 65536 and a byte, the 32-bit sum cannot overflow. */
  lemma NoOverflow(b: seq<Byte>)
    requires |b| <= 2 * 65537
    ensures Total(b) < WORD32
  {
    WordsBound(b, |b| / 2);
  }

  /** One fold keeps the one's complement sum. */
  lemma Fold(s: nat)
    requires s >= 65536
    ensures 0 < s % 65536 + s / 65536 < s
    ensures Ones(s % 65536 + s / 65536) == Ones(s)
  {
  }

  /** A number from 1 to 65535 is its own sum. */
  lemma Unique(s: nat, f: nat, k: int)
    requires s > 0 && 0 < f <= M && s == f + k * M
    ensures Ones(s) == f
  {
  }

  method Compute(b: seq<Byte>) returns (r: nat)
    ensures r <= M
    ensures Total(b) < WORD32 ==> r == M - Ones(Total(b))
  {
    hide Ones;
    var sum, len, i := 0, |b|, 0;
    while len > 1
      invariant 0 <= len && len == |b| - 2 * i && 0 <= i && sum < WORD32 && sum >= 0
      invariant Words(b, i) < WORD32 ==> sum == Words(b, i)
    {
      sum := (sum + Word(b, i)) % WORD32;
      WordsGrow(b, i);
      i := i + 1;
      len := len - 2;
    }
    WordsUpTo(b, i, |b| / 2);
    if len > 0 {
      sum := (sum + b[|b| - 1]) % WORD32;
    }
    assert Total(b) < WORD32 ==> sum == Total(b);
    ghost var s := sum;
    while sum / 65536 != 0
      invariant 0 <= sum && Ones(sum) == Ones(s)
      decreases sum
    {
      Fold(sum);
      sum := sum % 65536 + sum / 65536;
    }
    Small(sum);
    return M - sum;
  }

  lemma WordsGrow(b: seq<Byte>, n: nat)
    requires 2 * n + 2 <= |b|
    ensures Words(b, n + 1) == Words(b, n) + Word(b, n)
  {
  }

  lemma WordsUpTo(b: seq<Byte>, i: nat, n: nat)
    requires i <= n && 2 * n <= |b| && |b| - 2 * i <= 1
    ensures i == n
  {
  }

  lemma Small(s: nat)
    requires s <= M
    ensures Ones(s) == s
  {
  }

  // --- Filling in and verifying the checksum ------------------------------------------------------------

  function SetWord(b: seq<Byte>, k: nat, w: nat): (r: seq<Byte>)
    requires 2 * k + 1 < |b| && w <= M
    ensures |r| == |b|
  {
    b[2 * k := w % 256][2 * k + 1 := w / 256]
  }

  lemma {:induction false} WordsSet(b: seq<Byte>, k: nat, w: nat, n: nat)
    requires 2 * k + 1 < |b| && w <= M && 2 * n <= |b|
    ensures Words(SetWord(b, k, w), n) == Words(b, n) + if k < n then w - Word(b, k) else 0
    ensures Word(SetWord(b, k, w), k) == w
  {
    if n > 0 {
      WordsSet(b, k, w, n - 1);
    }
  }

  lemma TotalSet(b: seq<Byte>, k: nat, w: nat)
    requires 2 * k + 1 < |b| && w <= M
    ensures Total(SetWord(b, k, w)) == Total(b) + w - Word(b, k)
  {
    WordsSet(b, k, w, |b| / 2);
  }

  /** Which words in the checksum's place make the whole buffer's checksum 0: the
      computed one, and 65535 where the computed one is 0. */
  lemma Verifies(b: seq<Byte>, k: nat, w: nat)
    requires 2 * k + 1 < |b| && w <= M && Word(b, k) == 0
    ensures var c := M - Ones(Total(b));
      M - Ones(Total(SetWord(b, k, w))) == 0 <==> w == c || (c == 0 && w == M)
  {
    TotalSet(b, k, w);
    var t, f := Total(b), Ones(Total(b));
    if t == 0 {
      Small(w);
    } else {
      var q := (t - 1) / M;
      assert t == q * M + f;
      if f + w <= M {
        Unique(t + w, f + w, q);
      } else {
        Unique(t + w, f + w - M, q + 1);
      }
    }
  }

  function Swap(w: nat): (r: nat)
    requires w <= M
    ensures r <= M && (r == 0 <==> w == 0)
  {
    w % 256 * 256 + w / 256
  }

  /** Bytes of every word exchanged. */
  function Swapped(b: seq<Byte>): (r: seq<Byte>)
    requires |b| % 2 == 0
    ensures |r| == |b|
  {
    seq(|b|, i requires 0 <= i < |b| => if i % 2 == 0 then b[i + 1] else b[i - 1])
  }

  lemma {:induction false} WordsSwapped(b: seq<Byte>, n: nat) returns (k: nat)
    requires |b| % 2 == 0 && 2 * n <= |b|
    ensures Words(Swapped(b), n) + k * M == 256 * Words(b, n)
    ensures Words(Swapped(b), n) == 0 <==> Words(b, n) == 0
  {
    k := 0;
    if n > 0 {
      var j := WordsSwapped(b, n - 1);
      k := j + b[2 * (n - 1) + 1];
      assert Word(Swapped(b), n - 1) == 256 * Word(b, n - 1) - b[2 * (n - 1) + 1] as int * M;
    }
  }

  /** The checksum does not depend on byte order: exchanging the bytes of every word
      exchanges the bytes of the result. */
  lemma SwapCommutes(b: seq<Byte>)
    requires |b| % 2 == 0
    ensures M - Ones(Total(Swapped(b))) == Swap(M - Ones(Total(b)))
  {
    var k := WordsSwapped(b, |b| / 2);
    var t, f := Total(b), Ones(Total(b));
    if t > 0 {
      var q := (t - 1) / M;
      assert t == q * M + f;
      assert Swap(f) == 256 * f - f / 256 * M;
      Unique(Total(Swapped(b)), Swap(f), 256 * q + f / 256 - k);
    }
    assert Swap(M - f) == M - Swap(f) by { SwapComplement(f); }
  }

  lemma SwapComplement(f: nat)
    requires f <= M
    ensures Swap(M - f) == M - Swap(f)
  {
  }

  // --- The IPv4 header ---------------------------------------------------------------------------------

  const HEADER: nat := 20
  const FIELD: nat := 5

  function HeaderLength(p: seq<Byte>): nat
    requires |p| > 0
  {
    p[0] % 16 * 4
  }

  /** What ip_receive demands of a packet's header. */
  ghost predicate Accepts(p: seq<Byte>) {
    && |p| >= HEADER && p[0] / 16 == 4 && HEADER <= HeaderLength(p) <= |p|
    && Word(p, FIELD) == M - Ones(Total(SetWord(p[..HeaderLength(p)], FIELD, 0)))
  }

  /** The header checks of ip_receive, which clears the checksum in place and restores it. */
  method CheckHeader(pkt: array<Byte>) returns (ok: bool)
    modifies pkt
    ensures pkt[..] == old(pkt[..])
    ensures ok <==> Accepts(pkt[..])
  {
    hide Words, Ones, Total;
    if pkt.Length < HEADER || pkt[0] / 16 != 4 {
      return false;
    }
    var n := pkt[0] % 16 * 4;
    if n < HEADER || n > pkt.Length {
      return false;
    }
    ghost var p := pkt[..];
    var low, high := pkt[10], pkt[11];
    pkt[10], pkt[11] := 0, 0;
    assert pkt[..n] == SetWord(p[..n], FIELD, 0);
    assert Total(pkt[..n]) < WORD32 by { NoOverflow(pkt[..n]); }
    var calculated := Compute(pkt[..n]);
    pkt[10], pkt[11] := low, high;
    assert pkt[..] == p;
    return calculated == low as int + 256 * (high as int);
  }

  /** Exchanging the bytes of a 16-bit value, as htons does. */
  method PutBig(pkt: array<Byte>, o: nat, v: nat)
    requires o + 1 < pkt.Length && v <= M
    modifies pkt
    ensures pkt[o] == v / 256 && pkt[o + 1] == v % 256
    ensures forall k :: 0 <= k < pkt.Length && k != o && k != o + 1 ==> pkt[k] == old(pkt[k])
  {
    pkt[o], pkt[o + 1] := v / 256, v % 256;
  }

  method Put32(pkt: array<Byte>, o: nat, v: nat)
    requires o + 3 < pkt.Length && v < WORD32
    modifies pkt
    ensures pkt[o] == v % 256 && pkt[o + 1] == v / 256 % 256 && pkt[o + 2] == v / 256 / 256 % 256
            && pkt[o + 3] == v / 256 / 256 / 256
    ensures forall k :: 0 <= k < pkt.Length && !(o <= k < o + 4) ==> pkt[k] == old(pkt[k])
  {
    pkt[o], pkt[o + 1], pkt[o + 2], pkt[o + 3] := v % 256, v / 256 % 256, v / 256 / 256 % 256, v / 256 / 256 / 256;
  }

  lemma GetIs(b: seq<Byte>, o: nat, v: nat)
    requires o + 3 < |b| && v < WORD32
    requires b[o] == v % 256 && b[o + 1] == v / 256 % 256 && b[o + 2] == v / 256 / 256 % 256
             && b[o + 3] == v / 256 / 256 / 256
    ensures Word32(b, o) == v
  {
  }

  lemma GetSame(b: seq<Byte>, b': seq<Byte>, o: nat)
    requires o + 3 < |b| == |b'| && forall k :: o <= k < o + 4 ==> b'[k] == b[k]
    ensures Word32(b', o) == Word32(b, o)
  {
  }

  /** The fields of the header but for the checksum, which is 0. */
  ghost predicate Fields(p: seq<Byte>, source: nat, destination: nat, protocol: Byte, id: nat) {
    && |p| >= HEADER && p[0] == 0x45 && p[8] == 64 && p[9] == protocol && p[1] == p[6] == p[7] == 0
    && p[2] as int * 256 + p[3] as int == |p| % 65536 && p[4] as int * 256 + p[5] as int == id
    && Word32(p, 12) == source && Word32(p, 16) == destination
  }

  method FillStart(pkt: array<Byte>, protocol: Byte, id: nat)
    requires HEADER <= pkt.Length && id <= M
    modifies pkt
    ensures forall k :: HEADER <= k < pkt.Length ==> pkt[k] == old(pkt[k])
    ensures pkt[0] == 0x45 && pkt[8] == 64 && pkt[9] == protocol
            && pkt[1] == pkt[6] == pkt[7] == pkt[10] == pkt[11] == 0
    ensures pkt[2] as int * 256 + pkt[3] as int == pkt.Length % 65536 && pkt[4] as int * 256 + pkt[5] as int == id
  {
    for i := 0 to HEADER
      invariant forall k :: HEADER <= k < pkt.Length ==> pkt[k] == old(pkt[k])
      invariant forall k :: 0 <= k < i ==> pkt[k] == 0
    {
      pkt[i] := 0;
    }
    pkt[0] := 0x45;
    PutBig(pkt, 2, pkt.Length % 65536);
    PutBig(pkt, 4, id);
    pkt[8] := 64;
    pkt[9] := protocol;
  }

  method FillFields(pkt: array<Byte>, source: nat, destination: nat, protocol: Byte, id: nat)
    requires HEADER <= pkt.Length && source < WORD32 && destination < WORD32 && id <= M
    modifies pkt
    ensures Fields(pkt[..], source, destination, protocol, id) && pkt[10] == pkt[11] == 0
    ensures forall i :: HEADER <= i < pkt.Length ==> pkt[i] == old(pkt[i])
  {
    hide Word32;
    FillStart(pkt, protocol, id);
    Put32(pkt, 12, source);
    GetIs(pkt[..], 12, source);
    ghost var mid := pkt[..];
    Put32(pkt, 16, destination);
    GetIs(pkt[..], 16, destination);
    GetSame(mid, pkt[..], 12);
  }

  /** The header that ip_send builds is one that ip_receive accepts, whatever the
      addresses, the protocol and the payload. */
  method BuildHeader(pkt: array<Byte>, source: nat, destination: nat, protocol: Byte, id: nat)
    requires HEADER <= pkt.Length && source < WORD32 && destination < WORD32 && id <= M
    modifies pkt
    ensures Accepts(pkt[..]) && Fields(pkt[..], source, destination, protocol, id)
    ensures forall i :: HEADER <= i < pkt.Length ==> pkt[i] == old(pkt[i])
  {
    hide Words, Ones, Total, Word, Word32;
    FillFields(pkt, source, destination, protocol, id);
    ghost var p, h := pkt[..], pkt[..HEADER];
    assert Total(h) < WORD32 by { NoOverflow(h); }
    var c := Compute(pkt[..HEADER]);
    pkt[10], pkt[11] := c % 256, c / 256;
    assert SetWord(pkt[..HEADER], FIELD, 0) == h;
    assert pkt[..][..HEADER] == pkt[..HEADER];
    WordIs(pkt[..], FIELD);
    GetSame(p, pkt[..], 12);
    GetSame(p, pkt[..], 16);
  }

  lemma WordIs(b: seq<Byte>, k: nat)
    requires 2 * k + 1 < |b|
    ensures Word(b, k) == b[2 * k] as int + 256 * (b[2 * k + 1] as int)
  {
  }

  /** A header is accepted exactly when its words sum to the all-ones word, save that a
      stored 65535 is refused where the computed checksum is 0. */
  lemma AcceptsIs(p: seq<Byte>)
    requires |p| >= HEADER && p[0] / 16 == 4 && HEADER <= HeaderLength(p) <= |p|
    ensures var h := p[..HeaderLength(p)];
      Accepts(p) <==> Ones(Total(h)) == M && !(Word(p, FIELD) == M && Ones(Total(SetWord(h, FIELD, 0))) == M)
  {
    hide Words, Ones, Total;
    var h := p[..HeaderLength(p)];
    var z, w := SetWord(h, FIELD, 0), Word(p, FIELD);
    assert SetWord(z, FIELD, w) == h;
    Verifies(z, FIELD, w);
  }

  // --- A header that is refused ------------------------------------------------------------------------

  lemma {:induction false} ZeroWords(b: seq<Byte>, n: nat)
    requires 2 * n <= |b| && forall i :: 0 <= i < |b| ==> b[i] == 0
    ensures Words(b, n) == 0
  {
    if n > 0 {
      ZeroWords(b, n - 1);
    }
  }

  /** Version 4, 20 bytes, an address word that makes the sum 65535, and 65535 stored. */
  function FullSum(): seq<Byte> {
    SetWord(SetWord(SetWord(seq(20, _ => 0), 0, 0x45), 6, M - 0x45), FIELD, M)
  }

  /** The whole header sums to all ones, as RFC 1071 asks, and is refused. */
  lemma FullSumRefused()
    ensures var p := FullSum();
      && |p| == HEADER && p[0] / 16 == 4 && HeaderLength(p) == HEADER
      && M - Ones(Total(p)) == 0 && !Accepts(p)
  {
    hide Words, Total;
    var z: seq<Byte> := seq(20, _ => 0);
    assert Total(z) == 0 by { ZeroTotal(z); }
    var a := SetWord(z, 0, 0x45);
    TotalSet(z, 0, 0x45);
    var b := SetWord(a, 6, M - 0x45);
    TotalSet(a, 6, M - 0x45);
    var p := SetWord(b, FIELD, M);
    TotalSet(b, FIELD, M);
    assert Total(p) == 2 * M;
    assert SetWord(p[..HEADER], FIELD, 0) == b && p[..HEADER] == p;
    Unique(M, M, 0);
    Unique(2 * M, M, 1);
  }

  lemma ZeroTotal(b: seq<Byte>)
    requires |b| % 2 == 0 && forall i :: 0 <= i < |b| ==> b[i] == 0
    ensures Total(b) == 0
  {
    ZeroWords(b, |b| / 2);
  }
}
