/** The canonical descriptor text of the multi-process handshake. A parsed JSON value keeps its
    object keys in insertion order; the canonical text sorts them at every level. */
module Canonical {
  import opened Lex
  import opened Json

  /** A number as `JSON.stringify` prints it. A literal beyond the doubles parses to an
      infinity, which prints as `null`. */
  datatype Number = Finite(text: Text) | Infinite(negative: bool)

  datatype Js =
    | JNull
    | JBool(b: bool)
    | JNum(n: Number)
    | JStr(s: Text)
    | JArr(items: seq<Js>)
    | JObj(entries: seq<(Text, Js)>)

  function KeySet(entries: seq<(Text, Js)>): set<Text> { set e | e in entries :: e.0 }

  /** Where the property `k` is. */
  function At(entries: seq<(Text, Js)>, k: Text): (i: nat)
    requires k in KeySet(entries)
    ensures i < |entries| && entries[i].0 == k
  {
    if entries[0].0 == k then 0 else
      assert entries == [entries[0]] + entries[1..];
      1 + At(entries[1..], k)
  }

  predicate NumberUnit(u: nat) { 48 <= u <= 57 || u in [43, 45, 46, 101] }

  predicate NumberText(t: Text) {
    t != [] && (t[0] == 45 || 48 <= t[0] <= 57) && forall u :: u in t ==> NumberUnit(u)
  }

  /** What JSON parsing yields: numbers with their printed text, objects with distinct keys. */
  predicate Proper(v: Js) {
    match v
    case JNum(Finite(t)) => NumberText(t)
    case JArr(items) => forall i :: 0 <= i < |items| ==> Proper(items[i])
    case JObj(entries) =>
      && (forall i, j :: 0 <= i < j < |entries| ==> entries[i].0 != entries[j].0)
      && (forall i :: 0 <= i < |entries| ==> Proper(entries[i].1))
    case _ => true
  }

  // ---- the serializer ------------------------------------------------------------------------

  predicate High(u: nat) { 0xD800 <= u < 0xDC00 }

  predicate Low(u: nat) { 0xDC00 <= u < 0xE000 }

  function Hex(u: nat, w: nat): (t: Text)
    ensures |t| == w
  {
    if w == 0 then [] else Hex(u / 16, w - 1) + [HexDigit(u % 16)]
  }

  function Hex4(u: nat): Text { [92, 117] + Hex(u, 4) }

  /** The escapes of a string's units; a surrogate without its partner is escaped too. */
  function EscapeUnits(s: Text): Text {
    if s == [] then []
    else if High(s[0]) && |s| > 1 && Low(s[1]) then [s[0], s[1]] + EscapeUnits(s[2..])
    else if High(s[0]) || Low(s[0]) then Hex4(s[0]) + EscapeUnits(s[1..])
    else Escape(s[0]) + EscapeUnits(s[1..])
  }

  function Quoted(s: Text): Text { [34] + (EscapeUnits(s) + [34]) }

  function Join(texts: seq<Text>): Text {
    if texts == [] then []
    else if |texts| == 1 then texts[0]
    else texts[0] + ([44] + Join(texts[1..]))
  }

  function NumText(n: Number): Text {
    match n case Finite(t) => t case Infinite(_) => T("null")
  }

  function Canonicalize(v: Js): Text {
    match v
    case JNull => T("null")
    case JBool(b) => if b then T("true") else T("false")
    case JNum(n) => NumText(n)
    case JStr(s) => Quoted(s)
    case JArr(items) => [91] + (Join(ItemTexts(v)) + [93])
    case JObj(entries) => [123] + (Join(PropTexts(v)) + [125])
  }

  function ItemTexts(v: Js): (q: seq<Text>)
    requires v.JArr?
    ensures |q| == |v.items|
    decreases v, 0
  {
    seq(|v.items|, i requires 0 <= i < |v.items| => Canonicalize(v.items[i]))
  }

  /** The keys of an object in ascending order. */
  function Keys(v: Js): (q: seq<Text>)
    requires v.JObj?
    ensures StrictlySorted(q) && forall k :: k in q <==> k in KeySet(v.entries)
  {
    SortedSeqFacts(KeySet(v.entries));
    SortedSeq(KeySet(v.entries))
  }

  function Prop(v: Js, k: Text): (p: Js)
    requires v.JObj? && k in KeySet(v.entries)
    ensures p < v
  {
    v.entries[At(v.entries, k)].1
  }

  function PropTexts(v: Js): (q: seq<Text>)
    requires v.JObj?
    ensures |q| == |Keys(v)|
    decreases v, 0
  {
    seq(|Keys(v)|, i requires 0 <= i < |Keys(v)| =>
      assert Keys(v)[i] in Keys(v); Quoted(Keys(v)[i]) + ([58] + Canonicalize(Prop(v, Keys(v)[i]))))
  }

  // ---- equality up to key order ----------------------------------------------------------------

  predicate PrintsNull(v: Js) { v.JNull? || (v.JNum? && v.n.Infinite?) }

  /** Equality up to the order of object keys at every depth. On the wire, infinities and null
      are one. */
  predicate Equal(a: Js, b: Js, wire: bool)
    decreases a
  {
    if wire && PrintsNull(a) then PrintsNull(b)
    else match a
      case JArr(items) => b.JArr? && |items| == |b.items| && forall i :: 0 <= i < |items| ==> Equal(items[i], b.items[i], wire)
      case JObj(entries) =>
        && b.JObj? && KeySet(entries) == KeySet(b.entries)
        && forall k :: k in KeySet(entries) ==> Equal(Prop(a, k), Prop(b, k), wire)
      case _ => a == b
  }

  predicate AllFinite(v: Js) {
    match v
    case JNum(n) => n.Finite?
    case JArr(items) => forall i :: 0 <= i < |items| ==> AllFinite(items[i])
    case JObj(entries) => forall i :: 0 <= i < |entries| ==> AllFinite(entries[i].1)
    case _ => true
  }

  lemma {:induction false} FiniteEqual(a: Js, b: Js)
    requires AllFinite(a) && AllFinite(b)
    ensures Equal(a, b, true) <==> Equal(a, b, false)
    decreases a
  {
    if a.JArr? && b.JArr? && |a.items| == |b.items| {
      forall i | 0 <= i < |a.items| ensures Equal(a.items[i], b.items[i], true) <==> Equal(a.items[i], b.items[i], false) {
        FiniteEqual(a.items[i], b.items[i]);
      }
    } else if a.JObj? && b.JObj? && KeySet(a.entries) == KeySet(b.entries) {
      forall k | k in KeySet(a.entries) ensures Equal(Prop(a, k), Prop(b, k), true) <==> Equal(Prop(a, k), Prop(b, k), false) {
        FiniteEqual(Prop(a, k), Prop(b, k));
      }
    }
  }

  // ---- strings can be read back ------------------------------------------------------------------

  /** The escape of the first unit (or surrogate pair) and the number of units it covers. */
  function FirstToken(s: Text): (Text, nat)
    requires s != []
  {
    if High(s[0]) && |s| > 1 && Low(s[1]) then ([s[0], s[1]], 2)
    else if High(s[0]) || Low(s[0]) then (Hex4(s[0]), 1)
    else (Escape(s[0]), 1)
  }

  lemma FirstTokenSplits(s: Text)
    requires s != []
    ensures 1 <= FirstToken(s).1 <= |s|
    ensures EscapeUnits(s) == FirstToken(s).0 + EscapeUnits(s[FirstToken(s).1..])
  {
  }

  predicate Units(s: Text) { forall i :: 0 <= i < |s| ==> s[i] < 0x1_0000 }

  lemma HexDigitInjective(d: nat, e: nat)
    requires HexDigit(d) == HexDigit(e) && d < 16 && e < 16
    ensures d == e
  {
  }

  function Pow16(w: nat): nat { if w == 0 then 1 else 16 * Pow16(w - 1) }

  lemma {:induction false} HexInjective(u: nat, v: nat, w: nat)
    requires u < Pow16(w) && v < Pow16(w) && Hex(u, w) == Hex(v, w)
    ensures u == v
  {
    if w > 0 {
      SplitSame(Hex(u / 16, w - 1), [HexDigit(u % 16)], Hex(v / 16, w - 1), [HexDigit(v % 16)]);
      assert [HexDigit(u % 16)][0] == [HexDigit(v % 16)][0];
      HexDigitInjective(u % 16, v % 16);
      HexInjective(u / 16, v / 16, w - 1);
    }
  }

  /** Escapes beginning `\u`: control characters without a short form, and lone surrogates. */
  predicate HexEscaped(u: nat) { (u < 32 && u !in [8, 9, 10, 12, 13]) || High(u) || Low(u) }

  lemma ControlIsHex(u: nat)
    requires u < 32 && HexEscaped(u)
    ensures Escape(u) == Hex4(u)
  {
    assert u / 16 / 16 == 0 && u / 16 % 16 == u / 16;
    assert Hex(0, 1) == [48];
    assert Hex(0, 2) == [48, 48];
    assert Hex(u / 16, 3) == Hex(0, 2) + [HexDigit(u / 16)];
    assert Hex(u, 4) == Hex(u / 16, 3) + [HexDigit(u % 16)];
  }

  /** The shape of a token by its first units. */
  lemma TokenShape(s: Text)
    requires s != [] && Units(s)
    ensures var (t, n) := FirstToken(s); t != [] && t[0] != 34
    ensures var (t, n) := FirstToken(s);
            if High(s[0]) && |s| > 1 && Low(s[1]) then t == [s[0], s[1]] && n == 2
            else if HexEscaped(s[0]) then t == Hex4(s[0]) && n == 1
            else if s[0] in [34, 92, 8, 9, 10, 12, 13] then |t| == 2 && t[0] == 92 && t[1] != 117 && n == 1
            else t == [s[0]] && n == 1 && s[0] != 92 && !High(s[0])
  {
    if s[0] < 32 && HexEscaped(s[0]) { ControlIsHex(s[0]); }
  }

  /** What a text starts with determines its first token and the units behind it. */
  lemma TokenCancel(s: Text, t: Text, x: Text, y: Text)
    requires s != [] && t != [] && Units(s) && Units(t)
    requires FirstToken(s).0 + x == FirstToken(t).0 + y
    ensures FirstToken(s).1 == FirstToken(t).1 && s[..FirstToken(s).1] == t[..FirstToken(t).1] && x == y
  {
    TokenShape(s);
    TokenShape(t);
    var a, b := FirstToken(s).0, FirstToken(t).0;
    assert (a + x)[0] == a[0] && (b + y)[0] == b[0];
    if |a| > 1 { assert (a + x)[1] == a[1]; }
    if |b| > 1 { assert (b + y)[1] == b[1]; }
    assert |a| == |b|;
    SplitSame(a, x, b, y);
    if HexEscaped(s[0]) && HexEscaped(t[0]) && a == Hex4(s[0]) && b == Hex4(t[0]) {
      SplitSame([92, 117], Hex(s[0], 4), [92, 117], Hex(t[0], 4));
      assert Pow16(4) == 0x1_0000;
      HexInjective(s[0], t[0], 4);
    }
  }

  /** Only the end of a string shows an unescaped quotation mark. */
  lemma EscapeStart(s: Text, p: Text)
    requires Units(s) && p != [] && p[0] == 34
    ensures (EscapeUnits(s) + p)[0] == 34 <==> s == []
  {
    if s != [] {
      FirstTokenSplits(s);
      TokenShape(s);
      Assoc(FirstToken(s).0, EscapeUnits(s[FirstToken(s).1..]), p);
    }
  }

  lemma {:induction false} EscapeCancel(s: Text, t: Text, x: Text, y: Text)
    requires Units(s) && Units(t) && EscapeUnits(s) + ([34] + x) == EscapeUnits(t) + ([34] + y)
    ensures s == t && x == y
    decreases |s|
  {
    var p, q := [34] + x, [34] + y;
    EscapeStart(s, p);
    EscapeStart(t, q);
    if s == [] {
      assert [] + p == p && [] + q == q;
      SplitSame([34], x, [34], y);
    } else {
      var n, m := FirstToken(s).1, FirstToken(t).1;
      FirstTokenSplits(s);
      FirstTokenSplits(t);
      Assoc(FirstToken(s).0, EscapeUnits(s[n..]), p);
      Assoc(FirstToken(t).0, EscapeUnits(t[m..]), q);
      TokenCancel(s, t, EscapeUnits(s[n..]) + p, EscapeUnits(t[m..]) + q);
      EscapeCancel(s[n..], t[n..], x, y);
      assert s == s[..n] + s[n..] && t == t[..n] + t[n..];
    }
  }

  lemma QuotedCancel(s: Text, t: Text, x: Text, y: Text)
    requires Units(s) && Units(t) && Quoted(s) + x == Quoted(t) + y
    ensures s == t && x == y
  {
    Assoc([34], EscapeUnits(s) + [34], x);
    Assoc([34], EscapeUnits(t) + [34], y);
    SplitSame([34], EscapeUnits(s) + [34] + x, [34], EscapeUnits(t) + [34] + y);
    Assoc(EscapeUnits(s), [34], x);
    Assoc(EscapeUnits(t), [34], y);
    EscapeCancel(s, t, x, y);
  }

  // ---- whole texts can be read back ----------------------------------------------------------------

  /** What may follow a value: nothing, a comma or a closing bracket. */
  predicate Stops(x: Text) { x == [] || x[0] in [44, 93, 125] }

  /** The end of either text is recognisable. */
  ghost predicate Cancels(s: Text, t: Text) {
    forall x, y :: Stops(x) && Stops(y) && s + x == t + y ==> s == t
  }

  ghost predicate Aligned(p: seq<Text>, q: seq<Text>) {
    forall i :: 0 <= i < |p| && i < |q| ==> Cancels(p[i], q[i])
  }

  /** No element is empty or begins like a closing bracket. */
  predicate Opens(p: seq<Text>) {
    forall i :: 0 <= i < |p| ==> p[i] != [] && p[i][0] !in [93, 125]
  }

  function Rest(p: seq<Text>, close: nat, x: Text): Text
    requires p != []
  {
    if |p| == 1 then [close] + x else [44] + (Join(p[1..]) + ([close] + x))
  }

  lemma JoinHead(p: seq<Text>, close: nat, x: Text)
    requires p != []
    ensures Join(p) + ([close] + x) == p[0] + Rest(p, close, x)
  {
    if |p| > 1 {
      Assoc(p[0], [44] + Join(p[1..]), [close] + x);
      Assoc([44], Join(p[1..]), [close] + x);
    }
  }

  lemma JoinStart(p: seq<Text>, close: nat, x: Text)
    requires Opens(p) && close in [93, 125]
    ensures (Join(p) + ([close] + x))[0] == close <==> p == []
  {
    if p != [] {
      JoinHead(p, close, x);
      assert (p[0] + Rest(p, close, x))[0] == p[0][0];
    }
  }

  lemma {:induction false} JoinCancel(p: seq<Text>, q: seq<Text>, close: nat, x: Text, y: Text)
    requires Aligned(p, q) && Opens(p) && Opens(q) && close in [93, 125]
    requires Join(p) + ([close] + x) == Join(q) + ([close] + y)
    ensures p == q
    decreases |p|
  {
    JoinStart(p, close, x);
    JoinStart(q, close, y);
    if p != [] {
      JoinHead(p, close, x);
      JoinHead(q, close, y);
      assert Cancels(p[0], q[0]);
      SplitSame(p[0], Rest(p, close, x), q[0], Rest(q, close, y));
      TailsAgree(p, q, close, x, y);
      if |p| > 1 { JoinCancel(p[1..], q[1..], close, x, y); }
      assert p == [p[0]] + p[1..] && q == [q[0]] + q[1..];
    }
  }

  lemma TailsAgree(p: seq<Text>, q: seq<Text>, close: nat, x: Text, y: Text)
    requires p != [] && q != [] && close in [93, 125] && Rest(p, close, x) == Rest(q, close, y)
    ensures |p| == 1 <==> |q| == 1
    ensures |p| > 1 ==> Join(p[1..]) + ([close] + x) == Join(q[1..]) + ([close] + y)
  {
    assert Rest(p, close, x)[0] == if |p| == 1 then close else 44;
    assert Rest(q, close, y)[0] == if |q| == 1 then close else 44;
    if |p| > 1 && |q| > 1 {
      SplitSame([44], Join(p[1..]) + ([close] + x), [44], Join(q[1..]) + ([close] + y));
    }
  }

  predicate UnitsOnly(v: Js) {
    match v
    case JStr(s) => Units(s)
    case JArr(items) => forall i :: 0 <= i < |items| ==> UnitsOnly(items[i])
    case JObj(entries) => forall i :: 0 <= i < |entries| ==> Units(entries[i].0) && UnitsOnly(entries[i].1)
    case _ => true
  }

  /** A value as JSON parsing yields it, its strings in 16-bit units. */
  predicate Parsed(v: Js) { Proper(v) && UnitsOnly(v) }

  /** The first unit of a canonical text tells what kind of value it is. */
  lemma Start(v: Js)
    requires Proper(v)
    ensures Canonicalize(v) != []
    ensures var u := Canonicalize(v)[0];
            if PrintsNull(v) then u == 110
            else match v
              case JBool(b) => u == if b then 116 else 102
              case JNum(_) => u == 45 || 48 <= u <= 57
              case JStr(_) => u == 34
              case JArr(_) => u == 91
              case _ => u == 123
  {
  }

  lemma KeyAt(v: Js, i: nat)
    requires v.JObj? && i < |Keys(v)|
    ensures Keys(v)[i] in KeySet(v.entries)
  {
    assert Keys(v)[i] in Keys(v);
  }

  lemma PropParsed(v: Js, k: Text)
    requires v.JObj? && k in KeySet(v.entries) && Parsed(v)
    ensures Units(k) && Parsed(Prop(v, k))
  {
  }

  lemma {:induction false} NumberCancel(s: Text, t: Text, x: Text, y: Text)
    requires (forall u :: u in s ==> NumberUnit(u)) && (forall u :: u in t ==> NumberUnit(u))
    requires Stops(x) && Stops(y) && s + x == t + y
    ensures s == t
    decreases |s|
  {
    assert s != [] ==> s[0] in s && (s + x)[0] == s[0];
    assert t != [] ==> t[0] in t && (t + y)[0] == t[0];
    assert [] + x == x && [] + y == y;
    if s != [] && t != [] {
      assert (s + x)[1..] == s[1..] + x && (t + y)[1..] == t[1..] + y;
      NumberCancel(s[1..], t[1..], x, y);
      assert s == [s[0]] + s[1..] && t == [t[0]] + t[1..];
    }
  }

  /** Canonical texts are self-delimiting. */
  lemma {:induction false} TextsCancel(a: Js, b: Js)
    requires Parsed(a) && Parsed(b)
    ensures Cancels(Canonicalize(a), Canonicalize(b))
    decreases a
  {
    var s, t := Canonicalize(a), Canonicalize(b);
    Start(a);
    Start(b);
    forall x, y | Stops(x) && Stops(y) && s + x == t + y ensures s == t {
      assert (s + x)[0] == s[0] && (t + y)[0] == t[0];
      match a {
        case JStr(c) => QuotedCancel(c, b.s, x, y);
        case JArr(_) => ArraysCancel(a, b, x, y);
        case JObj(_) => ObjectsCancel(a, b, x, y);
        case JNum(Finite(c)) => NumberCancel(c, b.n.text, x, y);
        case _ =>
      }
    }
  }

  lemma {:induction false} ArraysCancel(a: Js, b: Js, x: Text, y: Text)
    requires a.JArr? && b.JArr? && Parsed(a) && Parsed(b) && Canonicalize(a) + x == Canonicalize(b) + y
    ensures ItemTexts(a) == ItemTexts(b)
    decreases a, 0
  {
    forall i | 0 <= i < |a.items| && i < |b.items| ensures Cancels(ItemTexts(a)[i], ItemTexts(b)[i]) {
      TextsCancel(a.items[i], b.items[i]);
    }
    ItemsOpen(a);
    ItemsOpen(b);
    Bracketed(91, ItemTexts(a), ItemTexts(b), 93, x, y);
  }

  /** Two bracketed lists that continue alike are the same list. */
  lemma Bracketed(open: nat, p: seq<Text>, q: seq<Text>, close: nat, x: Text, y: Text)
    requires Aligned(p, q) && Opens(p) && Opens(q) && close in [93, 125]
    requires [open] + (Join(p) + [close]) + x == [open] + (Join(q) + [close]) + y
    ensures p == q
  {
    Assoc([open], Join(p) + [close], x);
    Assoc([open], Join(q) + [close], y);
    SplitSame([open], Join(p) + [close] + x, [open], Join(q) + [close] + y);
    Assoc(Join(p), [close], x);
    Assoc(Join(q), [close], y);
    JoinCancel(p, q, close, x, y);
  }

  lemma ItemsOpen(v: Js)
    requires v.JArr? && Proper(v)
    ensures Opens(ItemTexts(v))
  {
    forall i | 0 <= i < |v.items| ensures ItemTexts(v)[i] != [] && ItemTexts(v)[i][0] !in [93, 125] {
      Start(v.items[i]);
    }
  }

  lemma PropsOpen(v: Js)
    requires v.JObj?
    ensures Opens(PropTexts(v))
  {
    forall i | 0 <= i < |Keys(v)| ensures PropTexts(v)[i] != [] && PropTexts(v)[i][0] == 34 {
      KeyAt(v, i);
    }
  }

  function PropText(k: Text, v: Js): Text { Quoted(k) + ([58] + Canonicalize(v)) }

  lemma PropCancel(k: Text, v: Js, l: Text, w: Js, x: Text, y: Text)
    requires Units(k) && Units(l) && PropText(k, v) + x == PropText(l, w) + y
    ensures k == l && Canonicalize(v) + x == Canonicalize(w) + y
  {
    Assoc(Quoted(k), [58] + Canonicalize(v), x);
    Assoc(Quoted(l), [58] + Canonicalize(w), y);
    QuotedCancel(k, l, [58] + Canonicalize(v) + x, [58] + Canonicalize(w) + y);
    Assoc([58], Canonicalize(v), x);
    Assoc([58], Canonicalize(w), y);
    SplitSame([58], Canonicalize(v) + x, [58], Canonicalize(w) + y);
  }

  lemma PropsCancel(k: Text, v: Js, l: Text, w: Js)
    requires Units(k) && Units(l) && Cancels(Canonicalize(v), Canonicalize(w))
    ensures Cancels(PropText(k, v), PropText(l, w))
  {
    forall x, y | Stops(x) && Stops(y) && PropText(k, v) + x == PropText(l, w) + y ensures PropText(k, v) == PropText(l, w) {
      PropCancel(k, v, l, w, x, y);
    }
  }

  lemma {:induction false} ObjectsCancel(a: Js, b: Js, x: Text, y: Text)
    requires a.JObj? && b.JObj? && Parsed(a) && Parsed(b) && Canonicalize(a) + x == Canonicalize(b) + y
    ensures PropTexts(a) == PropTexts(b)
    decreases a, 0
  {
    forall i | 0 <= i < |Keys(a)| && i < |Keys(b)| ensures Cancels(PropTexts(a)[i], PropTexts(b)[i]) {
      KeyAt(a, i);
      KeyAt(b, i);
      var k, l := Keys(a)[i], Keys(b)[i];
      PropParsed(a, k);
      PropParsed(b, l);
      TextsCancel(Prop(a, k), Prop(b, l));
      PropsCancel(k, Prop(a, k), l, Prop(b, l));
    }
    PropsOpen(a);
    PropsOpen(b);
    Bracketed(123, PropTexts(a), PropTexts(b), 125, x, y);
  }

  // ---- the theorem -----------------------------------------------------------------------------------

  lemma {:induction false} SameTextIsEqual(a: Js, b: Js)
    requires Parsed(a) && Parsed(b) && Canonicalize(a) == Canonicalize(b)
    ensures Equal(a, b, true)
    decreases a
  {
    Start(a);
    Start(b);
    var s := Canonicalize(a);
    assert s + [] == Canonicalize(b) + [];
    if a.JArr? {
      ArraysCancel(a, b, [], []);
      forall i | 0 <= i < |a.items| ensures Equal(a.items[i], b.items[i], true) {
        assert ItemTexts(a)[i] == ItemTexts(b)[i];
        SameTextIsEqual(a.items[i], b.items[i]);
      }
    } else if a.JObj? {
      ObjectsCancel(a, b, [], []);
      SamePropsAreEqual(a, b);
    } else if a.JStr? {
      QuotedCancel(a.s, b.s, [], []);
    }
  }

  lemma {:induction false} SamePropsAreEqual(a: Js, b: Js)
    requires a.JObj? && b.JObj? && Parsed(a) && Parsed(b) && PropTexts(a) == PropTexts(b)
    ensures Equal(a, b, true)
    decreases a, 0
  {
    forall i | 0 <= i < |Keys(a)|
      ensures i < |Keys(b)| && Keys(a)[i] == Keys(b)[i] && Keys(a)[i] in KeySet(a.entries) && Keys(a)[i] in KeySet(b.entries)
      ensures Equal(Prop(a, Keys(a)[i]), Prop(b, Keys(a)[i]), true)
    {
      KeyAt(a, i);
      KeyAt(b, i);
      var k, l := Keys(a)[i], Keys(b)[i];
      PropParsed(a, k);
      PropParsed(b, l);
      assert PropTexts(a)[i] == PropTexts(b)[i];
      assert PropText(k, Prop(a, k)) + [] == PropText(l, Prop(b, l)) + [];
      PropCancel(k, Prop(a, k), l, Prop(b, l), [], []);
      assert Canonicalize(Prop(a, k)) + [] == Canonicalize(Prop(a, k)) && Canonicalize(Prop(b, l)) + [] == Canonicalize(Prop(b, l));
      SameTextIsEqual(Prop(a, k), Prop(b, l));
    }
    assert Keys(a) == Keys(b);
    forall k | k in KeySet(a.entries) ensures Equal(Prop(a, k), Prop(b, k), true) {
      var i :| 0 <= i < |Keys(a)| && Keys(a)[i] == k;
    }
  }

  lemma {:induction false} EqualIsSameText(a: Js, b: Js)
    requires Equal(a, b, true)
    ensures Canonicalize(a) == Canonicalize(b)
    decreases a
  {
    if a.JArr? {
      forall i | 0 <= i < |a.items| ensures ItemTexts(a)[i] == ItemTexts(b)[i] {
        EqualIsSameText(a.items[i], b.items[i]);
      }
      assert ItemTexts(a) == ItemTexts(b);
    } else if a.JObj? {
      forall i | 0 <= i < |Keys(a)| ensures PropTexts(a)[i] == PropTexts(b)[i] {
        KeyAt(a, i);
        EqualIsSameText(Prop(a, Keys(a)[i]), Prop(b, Keys(a)[i]));
      }
      assert PropTexts(a) == PropTexts(b);
    }
  }

  /** Two descriptors have the same canonical text exactly when they are equal up to key order,
      where a number beyond the doubles counts as null. */
  lemma CanonicalDecides(a: Js, b: Js)
    requires Parsed(a) && Parsed(b)
    ensures Canonicalize(a) == Canonicalize(b) <==> Equal(a, b, true)
  {
    if Canonicalize(a) == Canonicalize(b) { SameTextIsEqual(a, b); }
    if Equal(a, b, true) { EqualIsSameText(a, b); }
  }

  /** Without such numbers the text decides equality up to key order outright. */
  lemma CanonicalDecidesFinite(a: Js, b: Js)
    requires Parsed(a) && Parsed(b) && AllFinite(a) && AllFinite(b)
    ensures Canonicalize(a) == Canonicalize(b) <==> Equal(a, b, false)
  {
    CanonicalDecides(a, b);
    FiniteEqual(a, b);
  }

  /** With them it does not: a bound of `1e999` and an absent one serialize alike. */
  lemma InfinityPassesForNull(negative: bool)
    ensures var a, b := JArr([JNum(Infinite(negative))]), JArr([JNull]);
            Parsed(a) && Parsed(b) && Canonicalize(a) == Canonicalize(b) && !Equal(a, b, false)
  {
    var a, b := JArr([JNum(Infinite(negative))]), JArr([JNull]);
    assert Equal(a.items[0], b.items[0], true) && !Equal(a.items[0], b.items[0], false);
    EqualIsSameText(a, b);
  }

  // ---- which values only their equals pass for ------------------------------------------------------------

  /** Neither null nor an infinity anywhere. */
  predicate NullFree(v: Js) {
    match v
    case JArr(items) => forall i :: 0 <= i < |items| ==> NullFree(items[i])
    case JObj(entries) => forall i :: 0 <= i < |entries| ==> NullFree(entries[i].1)
    case _ => !PrintsNull(v)
  }

  /** Every null an infinity and every infinity a null. */
  function Swapped(v: Js): Js {
    match v
    case JNull => JNum(Infinite(false))
    case JNum(Infinite(_)) => JNull
    case JArr(items) => JArr(seq(|items|, i requires 0 <= i < |items| => Swapped(items[i])))
    case JObj(entries) => JObj(seq(|entries|, i requires 0 <= i < |entries| => (entries[i].0, Swapped(entries[i].1))))
    case _ => v
  }

  lemma {:induction false} NullFreeIsPlain(a: Js, v: Js)
    requires NullFree(v) && Equal(a, v, true)
    ensures Equal(a, v, false)
    decreases a
  {
    if a.JArr? {
      forall i | 0 <= i < |a.items| ensures Equal(a.items[i], v.items[i], false) {
        NullFreeIsPlain(a.items[i], v.items[i]);
      }
    } else if a.JObj? {
      forall k | k in KeySet(a.entries) ensures Equal(Prop(a, k), Prop(v, k), false) {
        NullFreeIsPlain(Prop(a, k), Prop(v, k));
      }
    }
  }

  lemma {:induction false} PlainIsWire(a: Js, b: Js)
    requires Equal(a, b, false)
    ensures Equal(a, b, true)
    decreases a
  {
    if a.JArr? {
      forall i | 0 <= i < |a.items| ensures Equal(a.items[i], b.items[i], true) { PlainIsWire(a.items[i], b.items[i]); }
    } else if a.JObj? {
      forall k | k in KeySet(a.entries) ensures Equal(Prop(a, k), Prop(b, k), true) { PlainIsWire(Prop(a, k), Prop(b, k)); }
    }
  }

  lemma {:induction false} SameAt(p: seq<(Text, Js)>, q: seq<(Text, Js)>, k: Text)
    requires |p| == |q| && (forall i :: 0 <= i < |p| ==> p[i].0 == q[i].0) && k in KeySet(p)
    ensures k in KeySet(q) && At(p, k) == At(q, k)
  {
    var i :| 0 <= i < |p| && p[i].0 == k;
    assert q[i] in q;
    if p[0].0 != k {
      assert p == [p[0]] + p[1..] && q == [q[0]] + q[1..];
      assert p[1..][i - 1] == p[i];
      SameAt(p[1..], q[1..], k);
    }
  }

  lemma SwappedProps(v: Js)
    requires v.JObj?
    ensures KeySet(Swapped(v).entries) == KeySet(v.entries)
    ensures forall k :: k in KeySet(v.entries) ==> k in KeySet(Swapped(v).entries) && Prop(Swapped(v), k) == Swapped(Prop(v, k))
  {
    var p, q := v.entries, Swapped(v).entries;
    forall k | k in KeySet(p) ensures k in KeySet(q) && Prop(Swapped(v), k) == Swapped(Prop(v, k)) { SameAt(p, q, k); }
    forall k | k in KeySet(q) ensures k in KeySet(p) { SameAt(q, p, k); }
  }

  /** The swapped value is a parsed value with the same text, and is not equal unless there was
      nothing to swap. */
  lemma {:induction false} SwappedPasses(v: Js)
    requires Parsed(v)
    ensures Parsed(Swapped(v)) && Equal(Swapped(v), v, true)
    ensures Equal(Swapped(v), v, false) ==> NullFree(v)
  {
    match v
    case JArr(items) =>
      forall i | 0 <= i < |items|
        ensures Parsed(Swapped(items[i])) && Equal(Swapped(items[i]), items[i], true)
        ensures Equal(Swapped(items[i]), items[i], false) ==> NullFree(items[i])
      {
        SwappedPasses(items[i]);
      }
    case JObj(entries) =>
      forall i | 0 <= i < |entries|
        ensures Parsed(Swapped(entries[i].1)) && Units(entries[i].0)
      {
        SwappedPasses(entries[i].1);
      }
      SwappedObject(v);
    case _ =>
  }

  lemma {:induction false} SwappedObject(v: Js)
    requires Parsed(v) && v.JObj?
    ensures Equal(Swapped(v), v, true)
    ensures Equal(Swapped(v), v, false) ==> NullFree(v)
    decreases v, 0
  {
    SwappedProps(v);
    forall k | k in KeySet(v.entries)
      ensures Equal(Swapped(Prop(v, k)), Prop(v, k), true)
      ensures Equal(Swapped(Prop(v, k)), Prop(v, k), false) ==> NullFree(Prop(v, k))
    {
      PropParsed(v, k);
      SwappedPasses(Prop(v, k));
    }
    if Equal(Swapped(v), v, false) {
      forall i | 0 <= i < |v.entries| ensures NullFree(v.entries[i].1) {
        var k := v.entries[i].0;
        assert v.entries[i] in v.entries && k in KeySet(Swapped(v).entries);
        assert At(v.entries, k) == i && Prop(v, k) == v.entries[i].1;
        assert Equal(Prop(Swapped(v), k), Prop(v, k), false);
      }
    }
  }

  /** Only its equals up to key order share a value's text if and only if the value holds neither
      null nor an infinity. */
  lemma OnlyEqualsPassExactlyWhen(v: Js)
    requires Parsed(v)
    ensures (forall a :: Parsed(a) && Canonicalize(a) == Canonicalize(v) ==> Equal(a, v, false)) <==> NullFree(v)
  {
    SwappedPasses(v);
    CanonicalDecides(Swapped(v), v);
    if NullFree(v) {
      forall a | Parsed(a) && Canonicalize(a) == Canonicalize(v) ensures Equal(a, v, false) {
        CanonicalDecides(a, v);
        NullFreeIsPlain(a, v);
      }
    }
  }
}
