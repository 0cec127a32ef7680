/** The JSON values that documents, filters and index keys are made of. */
module Json {
  import opened Lex

  /** The integers a JSON number can hold in the core: `i64` or `u64`. */
  type JsonInt = n: int | -0x8000_0000_0000_0000 <= n < 0x1_0000_0000_0000_0000

  datatype Value =
    | Null
    | Bool(b: bool)
    | Num(n: JsonInt)
    | Str(s: Text)
    | Arr(items: seq<Value>)
    | Obj(fields: map<Text, Value>)
  {
    /** The value of an object's field; `None` on a missing field and on a non-object. */
    function Get(field: Text): Option<Value> {
      if Obj? && field in fields then Some(fields[field]) else None
    }
  }

  datatype Option<+T> = None | Some(value: T)

  datatype Error = SchemaError | InvalidArg | Conflict | Corruption | TransactionError

  datatype Result<+R> = Ok(value: R) | Err(error: Error)

  datatype Ordering = Before | Same | After
  {
    function Reverse(): Ordering {
      match this case Before => After case Same => Same case After => Before
    }
  }

  // ---- decimal text -------------------------------------------------------------------

  function Digits(n: nat): Text {
    if n < 10 then [48 + n] else Digits(n / 10) + [48 + n % 10]
  }

  function Decimal(n: int): Text {
    if n < 0 then [45] + Digits(-n) else Digits(n)
  }

  /** The number a digit string denotes. */
  function Denotes(t: Text): int {
    if t == [] then 0 else 10 * Denotes(t[..|t| - 1]) + t[|t| - 1] as int - 48
  }

  lemma {:induction false} DigitsDenote(n: nat)
    ensures Digits(n) != [] && Denotes(Digits(n)) == n
    ensures forall u :: u in Digits(n) ==> 48 <= u <= 57
  {
    if n >= 10 {
      DigitsDenote(n / 10);
      assert Digits(n)[..|Digits(n)| - 1] == Digits(n / 10);
    } else {
      assert [48 + n][..0] == [];
    }
  }

  /** Distinct integers have distinct texts, and no text holds a separator. */
  lemma DecimalInjective(m: int, n: int)
    ensures NulFree(Decimal(m))
    ensures Decimal(m) == Decimal(n) ==> m == n
  {
    DigitsDenote(if m < 0 then -m else m);
    DigitsDenote(if n < 0 then -n else n);
    var dm, dn := Digits(if m < 0 then -m else m), Digits(if n < 0 then -n else n);
    assert dm[0] in dm && dn[0] in dn;
    if Decimal(m) == Decimal(n) {
      assert Decimal(m)[0] == Decimal(n)[0];
      assert m < 0 ==> Decimal(m)[1..] == dm;
      assert n < 0 ==> Decimal(n)[1..] == dn;
    }
  }

  // ---- JSON text (only for array and object values, which no index ever stores) -----------

  function HexDigit(d: nat): nat {
    if d < 10 then 48 + d else 87 + d
  }

  /** The escape of one code unit inside a JSON string. */
  function Escape(u: nat): Text {
    if u == 34 then [92, 34]
    else if u == 92 then [92, 92]
    else if u == 8 then [92, 98]
    else if u == 9 then [92, 116]
    else if u == 10 then [92, 110]
    else if u == 12 then [92, 102]
    else if u == 13 then [92, 114]
    else if u < 32 then [92, 117, 48, 48, HexDigit(u / 16), HexDigit(u % 16)]
    else [u]
  }

  function EscapeAll(s: Text): Text {
    if s == [] then [] else Escape(s[0]) + EscapeAll(s[1..])
  }

  function Quote(s: Text): Text { [34] + EscapeAll(s) + [34] }

  /** Compact JSON text, object keys in ascending order. */
  function ToText(v: Value): Text
    decreases v, 1, 0
  {
    match v
    case Null => T("null")
    case Bool(b) => if b then T("true") else T("false")
    case Num(n) => Decimal(n)
    case Str(s) => Quote(s)
    case Arr(items) => assert forall i :: i in items ==> i < v; [91] + ItemsText(v, items) + [93]
    case Obj(fields) => SortedSeqFacts(fields.Keys); [123] + FieldsText(v, SortedSeq(fields.Keys)) + [125]
  }

  function ItemsText(ghost parent: Value, items: seq<Value>): Text
    requires forall i :: i in items ==> i < parent
    decreases parent, 0, |items|
  {
    if items == [] then [] else
      assert items[0] in items;
      ToText(items[0]) + (if |items| == 1 then [] else assert forall i :: i in items[1..] ==> i in items; [44] + ItemsText(parent, items[1..]))
  }

  function FieldsText(parent: Value, keys: seq<Text>): Text
    requires parent.Obj? && forall k :: k in keys ==> k in parent.fields
    decreases parent, 0, |keys|
  {
    if keys == [] then [] else
      Quote(keys[0]) + [58] + ToText(parent.fields[keys[0]])
      + (if |keys| == 1 then [] else [44] + FieldsText(parent, keys[1..]))
  }

  // ---- numbers as doubles -------------------------------------------------------------

  /** Rounding of a magnitude to 53 significant bits, to nearest and ties to even. `sticky`
      says whether a bit that was shifted out was set. */
  function RoundMagnitude(m: nat, sticky: bool): (r: nat)
    requires 0x20_0000_0000_0000 <= m
    ensures 0 < r
  {
    if m < 0x40_0000_0000_0000 then
      2 * (m / 2 + (if m % 2 == 1 && (sticky || m / 2 % 2 == 1) then 1 else 0))
    else
      2 * RoundMagnitude(m / 2, sticky || m % 2 == 1)
  }

  /** `as_f64` of an integer. */
  function F64(n: JsonInt): (r: int)
    ensures -0x20_0000_0000_0000 < n < 0x20_0000_0000_0000 ==> r == n
    ensures n < 0 ==> r < 0
    ensures 0 < n ==> 0 < r
  {
    if -0x20_0000_0000_0000 < n < 0x20_0000_0000_0000 then n
    else if n < 0 then 0 - RoundMagnitude(-n, false)
    else RoundMagnitude(n, false)
  }

  function TwoTo(e: nat): (p: int)
    ensures p > 0
  {
    if e == 0 then 1 else 2 * TwoTo(e - 1)
  }

  /** `r` is a number of 53 significant bits nearest to `v`; of two that are equally near, the one
      with an even last bit. */
  predicate NearestAt(r: int, v: real, e: nat, k: nat) {
    && e > 0 && 0x10_0000_0000_0000 <= k <= 0x20_0000_0000_0000 && r == k * TwoTo(e)
    && -(TwoTo(e - 1) as real) <= r as real - v <= TwoTo(e - 1) as real
    && (r as real - v == TwoTo(e - 1) as real || v - r as real == TwoTo(e - 1) as real ==> k % 2 == 0)
  }

  ghost predicate IsNearest(r: int, v: real) { exists e: nat, k: nat :: NearestAt(r, v, e, k) }

  /** `v` has the whole part `m`, and a shifted-out bit is what is left of it. */
  lemma {:induction false} RoundIsNearest(m: nat, sticky: bool, v: real)
    requires 0x20_0000_0000_0000 <= m && m as real <= v < m as real + 1.0 && (sticky <==> v > m as real)
    ensures IsNearest(RoundMagnitude(m, sticky), v)
  {
    if m < 0x40_0000_0000_0000 {
      LastBit(m, sticky, v);
    } else {
      var r := RoundMagnitude(m / 2, sticky || m % 2 == 1);
      RoundIsNearest(m / 2, sticky || m % 2 == 1, v / 2.0);
      var e: nat, k: nat :| NearestAt(r, v / 2.0, e, k);
      TwiceNearest(r, v, e, k);
    }
  }

  lemma LastBit(m: nat, sticky: bool, v: real)
    requires 0x20_0000_0000_0000 <= m < 0x40_0000_0000_0000
    requires m as real <= v < m as real + 1.0 && (sticky <==> v > m as real)
    ensures IsNearest(RoundMagnitude(m, sticky), v)
  {
    var k := m / 2 + (if m % 2 == 1 && (sticky || m / 2 % 2 == 1) then 1 else 0);
    assert TwoTo(1) == 2 * TwoTo(0) && TwoTo(0) == 1;
    assert NearestAt(RoundMagnitude(m, sticky), v, 1, k);
  }

  lemma TwiceNearest(r: int, v: real, e: nat, k: nat)
    requires NearestAt(r, v / 2.0, e, k)
    ensures NearestAt(2 * r, v, e + 1, k)
  {
    assert TwoTo(e + 1) == 2 * TwoTo(e) && TwoTo(e) == 2 * TwoTo(e - 1);
  }

  /** Beyond 2^53 `as_f64` is rounding to the nearest double, ties to even. */
  lemma F64IsNearest(n: JsonInt)
    ensures 0x20_0000_0000_0000 <= n ==> IsNearest(F64(n), n as real)
    ensures n <= -0x20_0000_0000_0000 ==> IsNearest(-F64(n), (-n) as real)
  {
    if 0x20_0000_0000_0000 <= n { RoundIsNearest(n, false, n as real); }
    if n <= -0x20_0000_0000_0000 { RoundIsNearest(-n, false, (-n) as real); }
  }

  lemma {:induction false} RoundAtLeast(m: nat, sticky: bool)
    requires 0x20_0000_0000_0000 <= m
    ensures RoundMagnitude(m, sticky) >= 0x20_0000_0000_0000
  {
    if m >= 0x40_0000_0000_0000 { RoundAtLeast(m / 2, sticky || m % 2 == 1); }
  }

  /** Rounding keeps the order, a shifted-out bit counting as the smallest difference. */
  lemma {:induction false} RoundMonotone(m: nat, s: bool, m': nat, s': bool)
    requires 0x20_0000_0000_0000 <= m && (m < m' || (m == m' && (s ==> s')))
    ensures RoundMagnitude(m, s) <= RoundMagnitude(m', s')
  {
    if m >= 0x40_0000_0000_0000 {
      RoundMonotone(m / 2, s || m % 2 == 1, m' / 2, s' || m' % 2 == 1);
    } else if m' >= 0x40_0000_0000_0000 {
      RoundAtLeast(m' / 2, s' || m' % 2 == 1);
    }
  }

  /** Doubles keep the order of integers, though not strictly, and hold those up to 2^53. */
  lemma F64Monotone(m: JsonInt, n: JsonInt)
    ensures m <= n ==> F64(m) <= F64(n)
    ensures -0x20_0000_0000_0000 <= n <= 0x20_0000_0000_0000 ==> F64(n) == n
  {
    if m <= n {
      if 0x20_0000_0000_0000 <= m { RoundMonotone(m, false, n, false); }
      if n <= -0x20_0000_0000_0000 { RoundMonotone(-n, false, -m, false); }
      if 0x20_0000_0000_0000 <= n { RoundAtLeast(n, false); }
      if m <= -0x20_0000_0000_0000 { RoundAtLeast(-m, false); }
    }
  }
}
