/** Fixed-width big-endian integers. */
module Encoding {
  import opened Values

  function Pow256(width: nat): (r: nat)
    ensures r > 0
  {
    if width == 0 then 1 else 256 * Pow256(width - 1)
  }

  function Be(n: nat, width: nat): (r: Bytes)
    ensures |r| == width
  {
    if width == 0 then [] else Be(n / 256, width - 1) + [n % 256]
  }

  function FromBe(b: Bytes): (r: nat)
    ensures r < Pow256(|b|)
  {
    if b == [] then 0 else FromBe(b[..|b| - 1]) * 256 + b[|b| - 1]
  }

  lemma {:induction false} DecodeEncoded(n: nat, width: nat)
    requires n < Pow256(width)
    ensures FromBe(Be(n, width)) == n
  {
    if width > 0 {
      DecodeEncoded(n / 256, width - 1);
      assert Be(n, width)[..width - 1] == Be(n / 256, width - 1);
    }
  }

  lemma {:induction false} EncodeDecoded(b: Bytes)
    ensures Be(FromBe(b), |b|) == b
    decreases |b|
  {
    if b != [] {
      EncodeDecoded(b[..|b| - 1]);
      assert b == b[..|b| - 1] + [b[|b| - 1]];
    }
  }

  const ID_WIDTH: nat := 16
  const U64_WIDTH: nat := 8
}
