/** Big-endian integers as `encoding/binary` writes them. */
module Bytes {

  type byte = x: int | 0 <= x < 256

  function Pow256(w: nat): (r: nat)
    ensures r > 0
  {
    if w == 0 then 1 else 256 * Pow256(w - 1)
  }

  /** The low `w` bytes of `n`, most significant first. */
  function BE(n: nat, w: nat): (s: seq<byte>)
    ensures |s| == w
  {
    if w == 0 then [] else BE(n / 256, w - 1) + [n % 256]
  }

  function Val(s: seq<byte>): nat {
    if s == [] then 0 else Val(s[..|s| - 1]) * 256 + s[|s| - 1]
  }

  lemma {:induction false} ValBound(s: seq<byte>)
    ensures Val(s) < Pow256(|s|)
  {
    if s != [] {
      ValBound(s[..|s| - 1]);
    }
  }

  lemma {:induction false} ValOfBE(n: nat, w: nat)
    requires n < Pow256(w)
    ensures Val(BE(n, w)) == n
  {
    if w > 0 {
      ValOfBE(n / 256, w - 1);
      assert BE(n, w)[..w - 1] == BE(n / 256, w - 1);
    }
  }

  lemma {:induction false} BEOfVal(s: seq<byte>)
    ensures BE(Val(s), |s|) == s
  {
    if s != [] {
      var n := |s| - 1;
      BEOfVal(s[..n]);
      assert Val(s) / 256 == Val(s[..n]) && Val(s) % 256 == s[n];
      assert s == s[..n] + [s[n]];
    }
  }

  /** Different values have different encodings. */
  lemma BEInjective(n: nat, m: nat, w: nat)
    requires n < Pow256(w) && m < Pow256(w) && BE(n, w) == BE(m, w)
    ensures n == m
  {
    ValOfBE(n, w);
    ValOfBE(m, w);
  }

  lemma Powers()
    ensures Pow256(2) == 0x1_0000 && Pow256(4) == 0x1_0000_0000 && Pow256(8) == 0x1_0000_0000_0000_0000
  {
    assert Pow256(1) == 256;
    assert Pow256(2) == 0x1_0000;
    assert Pow256(3) == 0x100_0000;
    assert Pow256(4) == 0x1_0000_0000;
    assert Pow256(5) == 0x100_0000_0000;
    assert Pow256(6) == 0x1_0000_0000_0000;
    assert Pow256(7) == 0x100_0000_0000_0000;
  }
}
