/** Fixed-width big-endian and little-endian integers. */
module Bytes {
  import opened Lex
  import opened Crc

  function Pow256(w: nat): (p: nat)
    ensures p > 0
  {
    if w == 0 then 1 else 256 * Pow256(w - 1)
  }

  function BE(n: nat, w: nat): (s: Text)
    ensures |s| == w && IsBytes(s)
  {
    if w == 0 then [] else BE(n / 256, w - 1) + [n % 256]
  }

  function FromBE(s: Text): nat {
    if s == [] then 0 else 256 * FromBE(s[..|s| - 1]) + s[|s| - 1]
  }

  lemma {:induction false} FromBEInverts(n: nat, w: nat)
    requires n < Pow256(w)
    ensures FromBE(BE(n, w)) == n
  {
    if w > 0 {
      FromBEInverts(n / 256, w - 1);
      assert BE(n, w)[..w - 1] == BE(n / 256, w - 1);
    }
  }

  lemma {:induction false} BEInverts(s: Text)
    requires IsBytes(s)
    ensures FromBE(s) < Pow256(|s|) && BE(FromBE(s), |s|) == s
  {
    if s != [] {
      BEInverts(s[..|s| - 1]);
      assert s == s[..|s| - 1] + [s[|s| - 1]] && s[|s| - 1] < 256;
    }
  }

  lemma {:induction false} FromBEInjective(s: Text, t: Text)
    requires |s| == |t| && IsBytes(s) && IsBytes(t) && FromBE(s) == FromBE(t)
    ensures s == t
  {
    if s != [] {
      FromBEInjective(s[..|s| - 1], t[..|s| - 1]);
      assert s == s[..|s| - 1] + [s[|s| - 1]] && t == t[..|s| - 1] + [t[|s| - 1]];
    }
  }

  lemma {:induction false} FromBEZero(s: Text)
    requires FromBE(s) == 0
    ensures forall i :: 0 <= i < |s| ==> s[i] == 0
  {
    if s != [] { FromBEZero(s[..|s| - 1]); }
  }

  lemma Widths()
    ensures Pow256(2) == 0x1_0000 && Pow256(4) == 0x1_0000_0000 && Pow256(8) == 0x1_0000_0000_0000_0000
    ensures Pow2(32) == Pow256(4)
  {
    RegisterSize();
  }

  function LE(n: nat, w: nat): (s: Text)
    ensures |s| == w && IsBytes(s)
  {
    if w == 0 then [] else [n % 256] + LE(n / 256, w - 1)
  }

  function FromLE(s: Text): nat {
    if s == [] then 0 else s[0] + 256 * FromLE(s[1..])
  }

  lemma {:induction false} FromLEInverts(n: nat, w: nat)
    requires n < Pow256(w)
    ensures FromLE(LE(n, w)) == n
  {
    if w > 0 {
      FromLEInverts(n / 256, w - 1);
      assert LE(n, w)[1..] == LE(n / 256, w - 1);
    }
  }
}
