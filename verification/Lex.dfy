/** Byte strings, their lexicographic order, and ordered enumeration of finite key sets.

    A `Text` is the sequence of code units of a string: UTF-8 bytes in the Rust core (whose
    string and key comparisons are bytewise), UTF-16 units in the TypeScript bridge. */
module Lex {
  type Text = seq<nat>

  /** The unit sequence of an ASCII literal. */
  function T(s: string): (t: Text)
    ensures |t| == |s|
    ensures forall i :: 0 <= i < |s| ==> t[i] == s[i] as nat
  {
    seq(|s|, i requires 0 <= i < |s| => s[i] as nat)
  }

  /** Strict lexicographic order: the order in which the store keeps its keys. */
  predicate Less(a: Text, b: Text) {
    b != [] && (a == [] || a[0] < b[0] || (a[0] == b[0] && Less(a[1..], b[1..])))
  }

  predicate AtMost(a: Text, b: Text) {
    a == b || Less(a, b)
  }

  lemma {:induction false} LessIrreflexive(a: Text)
    ensures !Less(a, a)
  {
    if a != [] { LessIrreflexive(a[1..]); }
  }

  lemma {:induction false} LessTransitive(a: Text, b: Text, c: Text)
    requires Less(a, b) && Less(b, c)
    ensures Less(a, c)
  {
    if a != [] && a[0] == b[0] && b[0] == c[0] { LessTransitive(a[1..], b[1..], c[1..]); }
  }

  lemma {:induction false} LessTotal(a: Text, b: Text)
    ensures a == b || Less(a, b) || Less(b, a)
  {
    if a != [] && b != [] && a[0] == b[0] {
      LessTotal(a[1..], b[1..]);
      assert a == [a[0]] + a[1..] && b == [b[0]] + b[1..];
    }
  }

  lemma LessAsymmetric(a: Text, b: Text)
    requires Less(a, b)
    ensures !Less(b, a) && a != b
  {
    LessIrreflexive(a);
    if Less(b, a) { LessTransitive(a, b, a); }
  }

  /** A common prefix does not influence the order. */
  lemma {:induction false} PrefixLess(p: Text, a: Text, b: Text)
    ensures Less(p + a, p + b) <==> Less(a, b)
    decreases |p|
  {
    if p == [] {
      assert p + a == a && p + b == b;
    } else {
      assert (p + a)[1..] == p[1..] + a && (p + b)[1..] == p[1..] + b;
      PrefixLess(p[1..], a, b);
    }
  }

  /** `lo <= k < hi`, the half-open ranges of the store's scans. */
  predicate InRange(lo: Text, k: Text, hi: Text) {
    AtMost(lo, k) && Less(k, hi)
  }

  lemma LessBelowOne(k: Text)
    ensures InRange([0], k, [1]) <==> [0] <= k
  {
    assert [0][1..] == [] && [1][1..] == [];
    if k != [] {
      assert [0] <= k <==> k[0] == 0;
      assert k == [k[0]] + k[1..];
      assert Less([0], k) <==> 0 < k[0] || (k[0] == 0 && k[1..] != []);
      assert Less(k, [1]) <==> k[0] == 0;
    }
  }

  /** The separator trick: between `p\0` (inclusive) and `p\1` (exclusive) lie exactly the
      keys that continue `p\0`. */
  lemma {:induction false} RangeIsPrefix(p: Text, k: Text)
    ensures InRange(p + [0], k, p + [1]) <==> p + [0] <= k
    decreases |p|
  {
    if p == [] {
      assert p + [0] == [0] && p + [1] == [1];
      LessBelowOne(k);
    } else if k == [] {
    } else {
      var q, l := p[1..], k[1..];
      assert (p + [0])[1..] == q + [0] && (p + [1])[1..] == q + [1];
      RangeIsPrefix(q, l);
      assert k == [k[0]] + l;
      assert p + [0] == [p[0]] + (q + [0]);
      if k[0] == p[0] {
        assert (p + [0] == k) <==> (q + [0] == l);
        assert (p + [0] <= k) <==> (q + [0] <= l);
      }
    }
  }

  // ---- sorted enumeration -------------------------------------------------------------

  predicate StrictlySorted(q: seq<Text>) {
    forall i, j :: 0 <= i < j < |q| ==> Less(q[i], q[j])
  }

  predicate IsLeast(s: set<Text>, m: Text) {
    m in s && forall k :: k in s ==> AtMost(m, k)
  }

  lemma {:induction false} LeastExists(s: set<Text>)
    requires s != {}
    ensures exists m :: IsLeast(s, m)
    decreases |s|
  {
    var m :| m in s;
    if s == {m} {
      assert IsLeast(s, m);
    } else {
      var rest := s - {m};
      assert |rest| < |s|;
      assert rest != {};
      LeastExists(rest);
      var n :| IsLeast(rest, n);
      LessTotal(m, n);
      if Less(n, m) {
        assert IsLeast(s, n);
      } else {
        forall k | k in s ensures AtMost(m, k) {
          assert k != m ==> k in rest;
          if k != m && n != k && m != n { LessTransitive(m, n, k); }
        }
        assert IsLeast(s, m);
      }
    }
  }

  lemma LeastUnique(s: set<Text>, m: Text, n: Text)
    requires IsLeast(s, m) && IsLeast(s, n)
    ensures m == n
  {
    if m != n { LessAsymmetric(m, n); }
  }

  /** The least key of a non-empty set. */
  function Least(s: set<Text>): (m: Text)
    requires s != {}
    ensures IsLeast(s, m)
  {
    LeastExists(s);
    assert forall m, n | IsLeast(s, m) && IsLeast(s, n) :: m == n by {
      forall m, n | IsLeast(s, m) && IsLeast(s, n) ensures m == n { LeastUnique(s, m, n); }
    }
    var w :| w in s && IsLeast(s, w);
    w
  }

  /** The keys of `s` in ascending order: what an ordered table iterates. */
  function SortedSeq(s: set<Text>): (q: seq<Text>)
    decreases |s|
  {
    if s == {} then [] else
      var m := Least(s);
      assert |s - {m}| < |s|;
      [m] + SortedSeq(s - {m})
  }

  lemma {:induction false} SortedSeqFacts(s: set<Text>)
    ensures StrictlySorted(SortedSeq(s))
    ensures forall k :: k in SortedSeq(s) <==> k in s
    ensures |SortedSeq(s)| == |s|
    decreases |s|
  {
    if s != {} {
      var m := Least(s);
      var rest := s - {m};
      assert |rest| < |s|;
      SortedSeqFacts(rest);
      var q := SortedSeq(rest);
      assert SortedSeq(s) == [m] + q;
      forall i | 0 <= i < |q| ensures Less(m, q[i]) { assert q[i] in rest; }
    }
  }

  lemma FirstIsLeast(q: seq<Text>)
    requires StrictlySorted(q) && q != []
    ensures forall k :: k in q ==> AtMost(q[0], k)
  {
  }

  /** A strictly ascending sequence is determined by its elements. */
  lemma {:induction false} SortedUnique(a: seq<Text>, b: seq<Text>)
    requires StrictlySorted(a) && StrictlySorted(b)
    requires forall k :: k in a <==> k in b
    ensures a == b
  {
    assert a != [] ==> a[0] in a;
    assert b != [] ==> b[0] in b;
    if a != [] {
      FirstIsLeast(a);
      FirstIsLeast(b);
      assert AtMost(a[0], b[0]) && AtMost(b[0], a[0]);
      if a[0] != b[0] { LessAsymmetric(a[0], b[0]); }
      forall k ensures k in a[1..] <==> k in b[1..] {
        LessIrreflexive(a[0]);
        if k in a[1..] {
          assert k in a && Less(a[0], k);
          assert k in b;
        }
        if k in b[1..] {
          assert k in b && Less(b[0], k);
          assert k in a;
        }
      }
      SortedUnique(a[1..], b[1..]);
      assert a == [a[0]] + a[1..] && b == [b[0]] + b[1..];
    }
  }

  /** The elements of `q` that lie in `s`, in the order of `q`. */
  function Keep(q: seq<Text>, s: set<Text>): seq<Text> {
    if q == [] then [] else (if q[0] in s then [q[0]] else []) + Keep(q[1..], s)
  }

  lemma {:induction false} KeepFacts(q: seq<Text>, s: set<Text>)
    requires StrictlySorted(q)
    ensures StrictlySorted(Keep(q, s))
    ensures forall k :: k in Keep(q, s) <==> k in q && k in s
  {
    if q != [] {
      KeepFacts(q[1..], s);
      var r := Keep(q[1..], s);
      forall i | 0 <= i < |r| ensures Less(q[0], r[i]) { assert r[i] in q[1..]; }
      assert q == [q[0]] + q[1..];
    }
  }

  /** Filtering an ordered scan equals an ordered scan of the filtered keys. */
  lemma KeepSorted(t: set<Text>, s: set<Text>)
    ensures Keep(SortedSeq(t), s) == SortedSeq(t * s)
  {
    SortedSeqFacts(t);
    SortedSeqFacts(t * s);
    KeepFacts(SortedSeq(t), s);
    SortedUnique(Keep(SortedSeq(t), s), SortedSeq(t * s));
  }

  // ---- NUL separators -----------------------------------------------------------------

  predicate NulFree(a: Text) { 0 !in a }

  function FirstNul(k: Text): nat {
    if k == [] || k[0] == 0 then 0 else 1 + FirstNul(k[1..])
  }

  lemma {:induction false} FirstNulAt(a: Text, x: Text)
    requires NulFree(a)
    ensures FirstNul(a + [0] + x) == |a|
    decreases |a|
  {
    if a != [] {
      assert (a + [0] + x)[1..] == a[1..] + [0] + x;
      FirstNulAt(a[1..], x);
    }
  }

  function LastNul(k: Text): nat {
    if k == [] || k[|k| - 1] == 0 then |k| else LastNul(k[..|k| - 1])
  }

  lemma {:induction false} LastNulAt(x: Text, a: Text)
    requires NulFree(a)
    ensures LastNul(x + [0] + a) == |x| + 1
    decreases |a|
  {
    if a != [] {
      var k := x + [0] + a;
      assert k[..|k| - 1] == x + [0] + a[..|a| - 1];
      LastNulAt(x, a[..|a| - 1]);
    } else {
      assert x + [0] + a == x + [0];
    }
  }

  /** The first separator splits uniquely when the parts before it are NUL-free. */
  lemma SplitFirst(a: Text, x: Text, b: Text, y: Text)
    requires NulFree(a) && NulFree(b)
    requires a + [0] + x == b + [0] + y
    ensures a == b && x == y
  {
    FirstNulAt(a, x);
    FirstNulAt(b, y);
    var k := a + [0] + x;
    assert a == k[..|a|] && b == (b + [0] + y)[..|a|];
    assert x == k[|a| + 1..] && y == (b + [0] + y)[|a| + 1..];
  }

  /** The last separator splits uniquely when the parts after it are NUL-free. */
  lemma SplitLast(x: Text, a: Text, y: Text, b: Text)
    requires NulFree(a) && NulFree(b)
    requires x + [0] + a == y + [0] + b
    ensures a == b && x == y
  {
    LastNulAt(x, a);
    LastNulAt(y, b);
    var k := x + [0] + a;
    assert x == k[..|x|] && y == (y + [0] + b)[..|x|];
    assert a == k[|x| + 1..] && b == (y + [0] + b)[|x| + 1..];
  }

  /** A key that continues `a\0`, with the part before its own first separator NUL-free,
      has exactly `a` before it. */
  lemma SplitPrefix(a: Text, b: Text, y: Text)
    requires NulFree(a) && NulFree(b)
    requires a + [0] <= b + [0] + y
    ensures a == b
  {
    var k := b + [0] + y;
    var x := k[|a| + 1..];
    assert k == a + [0] + x;
    SplitFirst(a, x, b, y);
  }

  // ---- concatenation ------------------------------------------------------------------

  lemma Assoc(a: Text, b: Text, c: Text)
    ensures a + b + c == a + (b + c)
  {
  }

  /** Equal concatenations with heads of one length are equal part by part. */
  lemma SplitSame(a: Text, x: Text, b: Text, y: Text)
    requires a + x == b + y && |a| == |b|
    ensures a == b && x == y
  {
    assert (a + x)[..|a|] == a && (b + y)[..|b|] == b;
    assert (a + x)[|a|..] == x && (b + y)[|b|..] == y;
  }
}
