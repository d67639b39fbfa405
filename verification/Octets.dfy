/** Octet strings and big-endian numbers. */
module Octets {
  import opened Decimal

  newtype Octet = x: int | 0 <= x < 256

  type Blob = seq<Octet>

  function Pow256(k: nat): (p: nat)
    ensures p >= 1
  {
    if k == 0 then 1 else 256 * Pow256(k - 1)
  }

  const U16_LIMIT: nat := 0x1_0000
  const U24_LIMIT: nat := 0x100_0000

  type U16 = x: nat | x < 0x1_0000
  type U32 = x: nat | x < 0x1_0000_0000

  /** The last `k` base-256 digits of a number, highest first. */
  function ToBe(n: nat, k: nat): (b: Blob)
    ensures |b| == k
  {
    if k == 0 then [] else ToBe(n / 256, k - 1) + [(n % 256) as Octet]
  }

  function FromBe(b: Blob): nat {
    if b == [] then 0 else FromBe(b[..|b| - 1]) * 256 + b[|b| - 1] as nat
  }

  lemma {:induction false} FromBeToBe(n: nat, k: nat)
    requires n < Pow256(k)
    ensures FromBe(ToBe(n, k)) == n
  {
    if k > 0 {
      FromBeToBe(n / 256, k - 1);
      assert ToBe(n, k)[..k - 1] == ToBe(n / 256, k - 1);
    }
  }

  lemma {:induction false} ToBeFromBe(b: Blob)
    ensures FromBe(b) < Pow256(|b|) && ToBe(FromBe(b), |b|) == b
  {
    if b != [] {
      ToBeFromBe(b[..|b| - 1]);
    }
  }

  lemma PowersOf256()
    ensures Pow256(1) == 256 && Pow256(2) == U16_LIMIT && Pow256(3) == U24_LIMIT && Pow256(4) == U32_LIMIT
  {
    assert Pow256(2) == 256 * Pow256(1);
    assert Pow256(3) == 256 * Pow256(2);
    assert Pow256(4) == 256 * Pow256(3);
  }
}
