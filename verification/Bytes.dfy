/** Bytes and the little-endian integers that both sides of every wire format use. */
module Bytes {

  type byte = x: int | 0 <= x < 256

  const SLASH: byte := 47

  function Zeros(n: nat): (s: seq<byte>)
    ensures |s| == n && forall k :: 0 <= k < n ==> s[k] == 0
  {
    if n == 0 then [] else Zeros(n - 1) + [0]
  }

  function Pow256(k: nat): (p: nat)
    ensures p > 0
  {
    if k == 0 then 1 else 256 * Pow256(k - 1)
  }

  /** The k low-order bytes of n, least significant first. */
  function Le(n: nat, k: nat): (s: seq<byte>)
    ensures |s| == k
  {
    if k == 0 then [] else [n % 256] + Le(n / 256, k - 1)
  }

  function FromLe(s: seq<byte>): nat {
    if s == [] then 0 else s[0] + 256 * FromLe(s[1..])
  }

  lemma {:induction false} FromLeOfLe(n: nat, k: nat)
    requires n < Pow256(k)
    ensures FromLe(Le(n, k)) == n
  {
    if k > 0 {
      FromLeOfLe(n / 256, k - 1);
      assert Le(n, k)[1..] == Le(n / 256, k - 1);
    }
  }

  lemma {:induction false} LeOfFromLe(s: seq<byte>)
    ensures FromLe(s) < Pow256(|s|)
    ensures Le(FromLe(s), |s|) == s
  {
    if s != [] {
      LeOfFromLe(s[1..]);
      assert s == [s[0]] + s[1..];
    }
  }

  lemma {:induction false} WordSizes()
    ensures Pow256(2) == 0x1_0000
    ensures Pow256(4) == 0x1_0000_0000
    ensures Pow256(8) == 0x1_0000_0000_0000_0000
  {
  }
}
