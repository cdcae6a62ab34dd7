/** Octets and the few arithmetic helpers shared by every component. */
module Bytes {
  type byte = x: int | 0 <= x < 256

  type bytes = seq<byte>

  function Min(a: int, b: int): int { if a < b then a else b }

  function Max(a: int, b: int): int { if a > b then a else b }

  /** `memset` of a fresh buffer. */
  function Fill(n: nat, b: byte): bytes { seq(n, _ => b) }

  /** `memcpy(dst + at, src, |src|)` */
  method CopyInto(dst: array<byte>, at: nat, src: bytes)
    requires at + |src| <= dst.Length
    modifies dst
    ensures dst[..] == old(dst[..at]) + src + old(dst[at + |src|..])
  {
    for i := 0 to |src|
      invariant dst[..at] == old(dst[..at])
      invariant dst[at..at + i] == src[..i]
      invariant dst[at + i..] == old(dst[at + i..])
    {
      dst[at + i] := src[i];
    }
    assert dst[..] == dst[..at] + dst[at..at + |src|] + dst[at + |src|..];
  }

  // ------------------------------------------------------- fixed-width integers

  function Pow256(k: nat): nat { if k == 0 then 1 else 256 * Pow256(k - 1) }

  /** The low `k` bytes of `n`, least significant first. */
  function ToLe(n: nat, k: nat): (s: bytes)
    ensures |s| == k
  {
    if k == 0 then [] else [n % 256] + ToLe(n / 256, k - 1)
  }

  function FromLe(s: bytes): nat {
    if s == [] then 0 else s[0] + 256 * FromLe(s[1..])
  }

  lemma {:induction false} LeRoundTrip(n: nat, k: nat)
    requires n < Pow256(k)
    ensures FromLe(ToLe(n, k)) == n
  {
    if k > 0 {
      assert ToLe(n, k)[1..] == ToLe(n / 256, k - 1);
      LeRoundTrip(n / 256, k - 1);
    }
  }

  /** Byte `j`, as shifting and masking yields it. */
  lemma {:induction false} ToLeAt(n: nat, k: nat, j: nat)
    requires j < k
    ensures Pow256(j) > 0 && ToLe(n, k)[j] == n / Pow256(j) % 256
  {
    if j > 0 {
      ToLeAt(n / 256, k - 1, j - 1);
      DivTwice(n, Pow256(j - 1));
    }
  }

  lemma DivTwice(n: nat, d: nat)
    requires d > 0
    ensures n / 256 / d == n / (256 * d)
  {
    var q := n / (256 * d);
    var r := n % (256 * d);
    assert n == 256 * (d * q) + r;
    assert n / 256 == d * q + r / 256;
    assert r / 256 < d;
    QuotientIs(n / 256, d, q, r / 256);
  }

  lemma QuotientIs(n: nat, d: nat, q: nat, r: nat)
    requires r < d && n == d * q + r
    ensures n / d == q && n % d == r
  {
    assert d * (n / d - q) == r - n % d;
    var x := n / d - q;
    Multiple(d, if x >= 0 then x else -x);
  }

  lemma {:induction false} Multiple(d: nat, x: nat)
    ensures x > 0 ==> d * x >= d
  {
    if x > 0 {
      Multiple(d, x - 1);
      assert d * x == d + d * (x - 1);
    }
  }

  lemma Factor(low: nat, p: nat, high: nat)
    ensures low + 256 * p * high == 256 * (low / 256 + p * high) + low % 256
  {
    assert 256 * p * high == 256 * (p * high);
  }

  lemma ToLeStep(q: nat, r: byte, k: nat)
    ensures ToLe(256 * q + r, k + 1) == [r] + ToLe(q, k)
  {
    assert (256 * q + r) / 256 == q;
  }

  /** Two numbers side by side are one wider number. */
  lemma {:induction false} ToLeOfSum(low: nat, j: nat, high: nat, k: nat)
    requires low < Pow256(j)
    ensures ToLe(low + Pow256(j) * high, j + k) == ToLe(low, j) + ToLe(high, k)
  {
    hide ToLe;
    if j == 0 {
      assert ToLe(0, 0) == [];
    } else {
      Factor(low, Pow256(j - 1), high);
      ToLeStep(low / 256 + Pow256(j - 1) * high, low % 256, j - 1 + k);
      ToLeStep(low / 256, low % 256, j - 1);
      ToLeOfSum(low / 256, j - 1, high, k);
    }
  }

  /** The low `k` bytes of `n`, most significant first. */
  function ToBe(n: nat, k: nat): (s: bytes)
    ensures |s| == k
  {
    if k == 0 then [] else ToBe(n / 256, k - 1) + [n % 256]
  }

  /** Byte `j` from the front, as shifting and masking yields it. */
  lemma {:induction false} ToBeAt(n: nat, k: nat, j: nat)
    requires j < k
    ensures Pow256(k - 1 - j) > 0 && ToBe(n, k)[j] == n / Pow256(k - 1 - j) % 256
  {
    if j < k - 1 {
      ToBeAt(n / 256, k - 1, j);
      DivTwice(n, Pow256(k - 2 - j));
    }
  }

  lemma ToBeStep(q: nat, r: byte, k: nat)
    ensures ToBe(256 * q + r, k + 1) == ToBe(q, k) + [r]
  {
    assert (256 * q + r) / 256 == q;
  }

  lemma {:induction false} ToBeOfSum(high: nat, k: nat, low: nat, j: nat)
    requires low < Pow256(j)
    ensures ToBe(low + Pow256(j) * high, k + j) == ToBe(high, k) + ToBe(low, j)
  {
    hide ToBe;
    if j == 0 {
      assert ToBe(0, 0) == [];
    } else {
      Factor(low, Pow256(j - 1), high);
      ToBeStep(low / 256 + Pow256(j - 1) * high, low % 256, k + (j - 1));
      ToBeStep(low / 256, low % 256, j - 1);
      ToBeOfSum(high, k, low / 256, j - 1);
    }
  }

  function FromBe(s: bytes): nat {
    if s == [] then 0 else 256 * FromBe(s[..|s| - 1]) + s[|s| - 1]
  }

  lemma {:induction false} BeRoundTrip(n: nat, k: nat)
    requires n < Pow256(k)
    ensures FromBe(ToBe(n, k)) == n
  {
    if k > 0 {
      assert ToBe(n, k)[..k - 1] == ToBe(n / 256, k - 1);
      BeRoundTrip(n / 256, k - 1);
    }
  }
}
