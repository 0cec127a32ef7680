/** CRC-32 (section 8 of RFC 1952), bit by bit, and why it sees every single-byte change.
    Registers are numbers below 2^32. */
module Crc {
  import opened Lex

  predicate IsBytes(s: Text) { forall i :: 0 <= i < |s| ==> s[i] < 256 }

  function Pow2(w: nat): (p: nat)
    ensures p > 0
  {
    if w == 0 then 1 else 2 * Pow2(w - 1)
  }

  /** Bitwise exclusive or. */
  function Xor(a: nat, b: nat): nat
    decreases a + b
  {
    if a == 0 && b == 0 then 0 else 2 * Xor(a / 2, b / 2) + (a + b) % 2
  }

  const POLYNOMIAL: nat := 0xEDB8_8320
  /** A register has 32 bits. */
  const REGISTER: nat := 0x1_0000_0000
  const ONES: nat := 0xFFFF_FFFF

  function BitStep(c: nat): nat {
    if c % 2 == 1 then Xor(c / 2, POLYNOMIAL) else c / 2
  }

  function BitSteps(c: nat, n: nat): nat {
    if n == 0 then c else BitStep(BitSteps(c, n - 1))
  }

  /** The register after one more input byte. */
  function ByteStep(c: nat, b: nat): nat { BitSteps(Xor(c, b), 8) }

  /** The register after the bytes of `s`. */
  function Update(c: nat, s: Text): nat {
    if s == [] then c else ByteStep(Update(c, s[..|s| - 1]), s[|s| - 1])
  }

  function Checksum(s: Text): nat { Xor(Update(ONES, s), ONES) }

  // ---- exclusive or -----------------------------------------------------------------------

  lemma {:induction false} XorCommutes(a: nat, b: nat)
    ensures Xor(a, b) == Xor(b, a)
    decreases a + b
  {
    if a + b != 0 { XorCommutes(a / 2, b / 2); }
  }

  lemma {:induction false} XorInjective(a: nat, b: nat, x: nat)
    requires Xor(a, x) == Xor(b, x)
    ensures a == b
    decreases a + b + x
  {
    if a + b + x != 0 {
      assert Xor(a, x) == 2 * Xor(a / 2, x / 2) + (a + x) % 2;
      assert Xor(b, x) == 2 * Xor(b / 2, x / 2) + (b + x) % 2;
      XorInjective(a / 2, b / 2, x / 2);
    }
  }

  lemma {:induction false} XorFits(a: nat, b: nat, w: nat)
    requires a < Pow2(w) && b < Pow2(w)
    ensures Xor(a, b) < Pow2(w)
    decreases w
  {
    if w > 0 { XorFits(a / 2, b / 2, w - 1); }
  }

  /** A top bit set on one side only stays set. */
  lemma {:induction false} XorTop(a: nat, b: nat, w: nat)
    requires a < Pow2(w) <= b < Pow2(w + 1)
    ensures Pow2(w) <= Xor(a, b) < Pow2(w + 1)
    decreases w
  {
    if w > 0 { XorTop(a / 2, b / 2, w - 1); }
  }

  lemma RegisterSize()
    ensures Pow2(31) == 0x8000_0000 && Pow2(32) == 0x1_0000_0000
  {
    assert Pow2(8) == 256;
    assert Pow2(16) == 65536;
    assert Pow2(24) == 65536 * 256;
  }

  // ---- injectivity of the steps --------------------------------------------------------------

  lemma BitStepShape(c: nat)
    requires c < Pow2(32)
    ensures BitStep(c) < Pow2(32) && (BitStep(c) >= Pow2(31) <==> c % 2 == 1)
  {
    RegisterSize();
    if c % 2 == 1 { XorTop(c / 2, POLYNOMIAL, 31); }
  }

  lemma BitStepInjective(c: nat, d: nat)
    requires c < Pow2(32) && d < Pow2(32) && BitStep(c) == BitStep(d)
    ensures c == d
  {
    BitStepShape(c);
    BitStepShape(d);
    if c % 2 == 1 { XorInjective(c / 2, d / 2, POLYNOMIAL); }
  }

  lemma BitStepFits(c: nat)
    requires c < REGISTER
    ensures BitStep(c) < REGISTER
  {
    RegisterSize();
    BitStepShape(c);
  }

  lemma {:induction false} BitStepsFit(c: nat, n: nat)
    requires c < REGISTER
    ensures BitSteps(c, n) < REGISTER
  {
    if n > 0 {
      BitStepsFit(c, n - 1);
      BitStepFits(BitSteps(c, n - 1));
    }
  }

  lemma {:induction false} BitStepsInjective(c: nat, d: nat, n: nat)
    requires c < REGISTER && d < REGISTER && BitSteps(c, n) == BitSteps(d, n)
    ensures c == d
  {
    if n > 0 {
      BitStepsFit(c, n - 1);
      BitStepsFit(d, n - 1);
      SameStep(BitSteps(c, n - 1), BitSteps(d, n - 1));
      BitStepsInjective(c, d, n - 1);
    }
  }

  lemma SameStep(c: nat, d: nat)
    requires c < REGISTER && d < REGISTER && BitStep(c) == BitStep(d)
    ensures c == d
  {
    RegisterSize();
    BitStepInjective(c, d);
  }

  lemma ByteStepFits(c: nat, b: nat)
    requires c < Pow2(32) && b < 256
    ensures ByteStep(c, b) < Pow2(32) && Xor(c, b) < Pow2(32)
  {
    RegisterSize();
    XorFits(c, b, 32);
    BitStepsFit(Xor(c, b), 8);
  }

  /** One step is injective in the register and in the byte. */
  lemma ByteStepInjective(c: nat, d: nat, a: nat, b: nat)
    requires c < Pow2(32) && d < Pow2(32) && a < 256 && b < 256
    requires ByteStep(c, a) == ByteStep(d, b) && (c == d || a == b)
    ensures c == d && a == b
  {
    RegisterSize();
    ByteStepFits(c, a);
    ByteStepFits(d, b);
    BitStepsInjective(Xor(c, a), Xor(d, b), 8);
    if a == b {
      XorInjective(c, d, a);
    } else {
      XorCommutes(c, a);
      XorCommutes(d, b);
      XorInjective(a, b, c);
    }
  }

  lemma {:induction false} UpdateFits(c: nat, s: Text)
    requires c < Pow2(32) && IsBytes(s)
    ensures Update(c, s) < Pow2(32)
  {
    if s != [] {
      UpdateFits(c, s[..|s| - 1]);
      ByteStepFits(Update(c, s[..|s| - 1]), s[|s| - 1]);
    }
  }

  lemma {:induction false} UpdateInjective(c: nat, d: nat, s: Text)
    requires c < Pow2(32) && d < Pow2(32) && IsBytes(s) && Update(c, s) == Update(d, s)
    ensures c == d
  {
    if s != [] {
      var p, b := s[..|s| - 1], s[|s| - 1];
      UpdateFits(c, p);
      UpdateFits(d, p);
      ByteStepInjective(Update(c, p), Update(d, p), b, b);
      UpdateInjective(c, d, p);
    }
  }

  lemma {:induction false} UpdateAppend(c: nat, s: Text, t: Text)
    ensures Update(c, s + t) == Update(Update(c, s), t)
    decreases |t|
  {
    if t == [] {
      assert s + t == s;
    } else {
      assert (s + t)[..|s + t| - 1] == s + t[..|t| - 1];
      UpdateAppend(c, s, t[..|t| - 1]);
    }
  }

  lemma ChecksumFits(s: Text)
    requires IsBytes(s)
    ensures Checksum(s) < Pow2(32)
  {
    RegisterSize();
    UpdateFits(ONES, s);
    XorFits(Update(ONES, s), ONES, 32);
  }

  /** Changing one byte of a message always changes its checksum. */
  lemma ByteChangeSeen(s: Text, i: nat, b: nat)
    requires IsBytes(s) && i < |s| && b < 256 && b != s[i]
    ensures Checksum(s[i := b]) != Checksum(s)
  {
    RegisterSize();
    var r, q := Update(ONES, s[..i]), s[i + 1..];
    UpdateFits(ONES, s[..i]);
    AroundByte(s, i, s[i]);
    AroundByte(s, i, b);
    assert s[i := s[i]] == s;
    var c, d := ByteStep(r, s[i]), ByteStep(r, b);
    ByteStepFits(r, s[i]);
    ByteStepFits(r, b);
    if Checksum(s[i := b]) == Checksum(s) {
      XorInjective(Update(c, q), Update(d, q), ONES);
      UpdateInjective(c, d, q);
      ByteStepInjective(r, r, s[i], b);
      assert false;
    }
  }

  /** The register passes the bytes before, one byte, and the bytes after. */
  lemma AroundByte(s: Text, i: nat, b: nat)
    requires i < |s|
    ensures Update(ONES, s[i := b]) == Update(ByteStep(Update(ONES, s[..i]), b), s[i + 1..])
  {
    var p, q := s[..i], s[i + 1..];
    assert s[i := b] == (p + [b]) + q;
    UpdateAppend(ONES, p + [b], q);
    assert (p + [b])[..i] == p;
  }
}
