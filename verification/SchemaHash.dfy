/** The byte stream hashed for a schema, and why distinct schemas give distinct streams. */
module SchemaHash {
  import opened Lex
  import opened Json
  import opened Schema
  import opened Bytes

  const U64: nat := 8

  /** A length as fed to the hasher: eight little-endian bytes. */
  function Count(n: nat): (s: Text)
    ensures |s| == U64
  {
    LE(n, U64)
  }

  /** Length-prefixed bytes. */
  function Str(s: Text): Text { Count(|s|) + s }

  function Flag(b: bool): Text { [if b then 1 else 0] }

  function TypeMarks(ty: FieldType): Text {
    match ty
    case IdType => [0x01]
    case StringType => [0x02]
    case NumberType => [0x03]
    case BoolType => [0x04]
    case DateType => [0x05]
    case EnumType => [0x06]
    case ArrayType(inner) => [0x10] + TypeMarks(inner)
  }

  function OptBits(o: Option<nat>): Text {
    match o case None => Flag(false) case Some(n) => Flag(true) + LE(n, U64)
  }

  function OptStr(o: Option<Text>): Text {
    match o case None => Flag(false) case Some(s) => Flag(true) + Str(s)
  }

  function Concat<X>(enc: X -> Text, q: seq<X>): Text {
    if q == [] then [] else enc(q[0]) + Concat(enc, q[1..])
  }

  /** A counted list. */
  function Listed<X>(enc: X -> Text, q: seq<X>): Text { Count(|q|) + Concat(enc, q) }

  function Flags(f: FieldIr): (s: Text)
    ensures |s| == 4
  {
    Flag(f.optional) + Flag(f.nullable) + Flag(f.int_) + Flag(f.email)
  }

  function FieldHead(f: FieldIr): Text { Str(f.name) + (TypeMarks(f.ty) + Flags(f)) }

  function FieldTail(f: FieldIr): Text { OptBits(f.min) + (OptBits(f.max) + (OptStr(f.regex) + Listed(Str, f.variants))) }

  function FieldBytes(f: FieldIr): Text { FieldHead(f) + FieldTail(f) }

  function IndexBytes(i: IndexIr): Text { Str(i.field) + Flag(i.unique) }

  type Named = (Text, CollectionIr)

  function CollectionBytes(c: Named): Text {
    Str(c.0) + (Str(c.1.idField) + (Listed(FieldBytes, c.1.fields) + Listed(IndexBytes, c.1.indexes)))
  }

  /** The collections in the order of their names. */
  function ByName(schema: SchemaIr): seq<Named> {
    SortedSeqFacts(schema.collections.Keys);
    var q := SortedSeq(schema.collections.Keys);
    assert forall i :: 0 <= i < |q| ==> q[i] in q;
    seq(|q|, i requires 0 <= i < |q| => (q[i], schema.collections[q[i]]))
  }

  function PreImage(schema: SchemaIr): Text { Concat(CollectionBytes, ByName(schema)) }

  // ---- the hashing loops ---------------------------------------------------------------------

  lemma {:induction false} ConcatAppend<X>(enc: X -> Text, q: seq<X>, x: X)
    ensures Concat(enc, q + [x]) == Concat(enc, q) + enc(x)
  {
    if q == [] {
      assert [x][1..] == [];
    } else {
      assert (q + [x])[1..] == q[1..] + [x];
      ConcatAppend(enc, q[1..], x);
    }
  }

  lemma ConcatStep<X>(enc: X -> Text, q: seq<X>, i: nat)
    requires i < |q|
    ensures Concat(enc, q[..i + 1]) == Concat(enc, q[..i]) + enc(q[i])
  {
    ConcatAppend(enc, q[..i], q[i]);
    assert q[..i + 1] == q[..i] + [q[i]];
  }

  /** A digest in progress: `fed` is everything it was updated with. */
  class Hasher {
    var fed: Text

    constructor ()
      ensures fed == []
    {
      fed := [];
    }

    method Update(bytes: Text)
      modifies this
      ensures fed == old(fed) + bytes
    {
      fed := fed + bytes;
    }
  }

  method Feed(h: Hasher, bytes: Text)
    modifies h
    ensures h.fed == old(h.fed) + Str(bytes)
  {
    h.Update(Count(|bytes|));
    h.Update(bytes);
  }

  method FeedFieldType(h: Hasher, ty: FieldType)
    modifies h
    ensures h.fed == old(h.fed) + TypeMarks(ty)
    decreases ty
  {
    match ty {
      case IdType => h.Update([0x01]);
      case StringType => h.Update([0x02]);
      case NumberType => h.Update([0x03]);
      case BoolType => h.Update([0x04]);
      case DateType => h.Update([0x05]);
      case EnumType => h.Update([0x06]);
      case ArrayType(inner) =>
        h.Update([0x10]);
        FeedFieldType(h, inner);
    }
  }

  /** An optional bound: presence marker, then the bit pattern. */
  method FeedBound(h: Hasher, o: Option<nat>)
    modifies h
    ensures h.fed == old(h.fed) + OptBits(o)
  {
    h.Update(Flag(o.Some?));
    if o.Some? { h.Update(LE(o.value, U64)); }
  }

  method FeedRegex(h: Hasher, o: Option<Text>)
    modifies h
    ensures h.fed == old(h.fed) + OptStr(o)
  {
    h.Update(Flag(o.Some?));
    if o.Some? { Feed(h, o.value); }
  }

  method FeedVariants(h: Hasher, variants: seq<Text>)
    modifies h
    ensures h.fed == old(h.fed) + Listed(Str, variants)
  {
    ghost var o := h.fed;
    h.Update(Count(|variants|));
    for i := 0 to |variants|
      invariant h.fed == o + Listed'(|variants|, Str, variants[..i])
    {
      ConcatStep(Str, variants, i);
      Nest'(o, Count(|variants|), Concat(Str, variants[..i]), Str(variants[i]));
      Feed(h, variants[i]);
    }
    assert variants[..|variants|] == variants;
  }

  method FeedHead(h: Hasher, f: FieldIr)
    modifies h
    ensures h.fed == old(h.fed) + FieldHead(f)
  {
    ghost var o := h.fed;
    Feed(h, f.name);
    FeedFieldType(h, f.ty);
    ghost var p := h.fed;
    h.Update(Flag(f.optional));
    h.Update(Flag(f.nullable));
    h.Update(Flag(f.int_));
    h.Update(Flag(f.email));
    assert h.fed == p + Flags(f);
    Nest(o, Str(f.name), TypeMarks(f.ty), Flags(f));
  }

  method FeedTail(h: Hasher, f: FieldIr)
    modifies h
    ensures h.fed == old(h.fed) + FieldTail(f)
  {
    ghost var o := h.fed;
    FeedBound(h, f.min);
    FeedBound(h, f.max);
    FeedRegex(h, f.regex);
    FeedVariants(h, f.variants);
    Nest(o, OptBits(f.min), OptBits(f.max), OptStr(f.regex) + Listed(Str, f.variants));
    Assoc(o + OptBits(f.min) + OptBits(f.max), OptStr(f.regex), Listed(Str, f.variants));
  }

  method FeedField(h: Hasher, f: FieldIr)
    modifies h
    ensures h.fed == old(h.fed) + FieldBytes(f)
  {
    ghost var o := h.fed;
    FeedHead(h, f);
    FeedTail(h, f);
    Assoc(o, FieldHead(f), FieldTail(f));
  }

  lemma Nest(o: Text, a: Text, b: Text, c: Text)
    ensures o + a + b + c == o + (a + (b + c))
  {
  }

  method FeedFields(h: Hasher, fields: seq<FieldIr>)
    modifies h
    ensures h.fed == old(h.fed) + Listed(FieldBytes, fields)
  {
    ghost var o := h.fed;
    h.Update(Count(|fields|));
    for i := 0 to |fields|
      invariant h.fed == o + Listed'(|fields|, FieldBytes, fields[..i])
    {
      ConcatStep(FieldBytes, fields, i);
      Nest'(o, Count(|fields|), Concat(FieldBytes, fields[..i]), FieldBytes(fields[i]));
      FeedField(h, fields[i]);
    }
    assert fields[..|fields|] == fields;
  }

  /** A list announced with count `n` of which `q` has been fed. */
  ghost function Listed'<X>(n: nat, enc: X -> Text, q: seq<X>): Text { Count(n) + Concat(enc, q) }

  lemma Nest'(o: Text, a: Text, b: Text, c: Text)
    ensures o + (a + b) + c == o + (a + (b + c))
  {
  }

  method FeedIndexes(h: Hasher, indexes: seq<IndexIr>)
    modifies h
    ensures h.fed == old(h.fed) + Listed(IndexBytes, indexes)
  {
    ghost var o := h.fed;
    h.Update(Count(|indexes|));
    for i := 0 to |indexes|
      invariant h.fed == o + Listed'(|indexes|, IndexBytes, indexes[..i])
    {
      ConcatStep(IndexBytes, indexes, i);
      Nest'(o, Count(|indexes|), Concat(IndexBytes, indexes[..i]), IndexBytes(indexes[i]));
      Assoc(h.fed, Str(indexes[i].field), Flag(indexes[i].unique));
      Feed(h, indexes[i].field);
      h.Update(Flag(indexes[i].unique));
    }
    assert indexes[..|indexes|] == indexes;
  }

  method FeedCollection(h: Hasher, c: Named)
    modifies h
    ensures h.fed == old(h.fed) + CollectionBytes(c)
  {
    ghost var o := h.fed;
    Feed(h, c.0);
    Feed(h, c.1.idField);
    FeedFields(h, c.1.fields);
    FeedIndexes(h, c.1.indexes);
    Nest(o, Str(c.0), Str(c.1.idField), Listed(FieldBytes, c.1.fields) + Listed(IndexBytes, c.1.indexes));
    Assoc(o + Str(c.0) + Str(c.1.idField), Listed(FieldBytes, c.1.fields), Listed(IndexBytes, c.1.indexes));
  }

  /** Everything `schema_hash` feeds to the digest. */
  method FeedSchema(schema: SchemaIr) returns (h: Hasher)
    ensures fresh(h) && h.fed == PreImage(schema)
  {
    h := new Hasher();
    var q := ByName(schema);
    for i := 0 to |q|
      invariant fresh(h) && h.fed == Concat(CollectionBytes, q[..i])
    {
      ConcatStep(CollectionBytes, q, i);
      FeedCollection(h, q[i]);
    }
    assert q[..|q|] == q;
  }

  // ---- unique decoding -------------------------------------------------------------------------

  /** The stream tells where an encoded value ends and which value it was. */
  ghost predicate PrefixFree<X(!new)>(enc: X -> Text, ok: X -> bool) {
    forall a, b, x, y :: ok(a) && ok(b) && Same(enc(a), x, enc(b), y) ==> a == b && x == y
  }

  predicate Same(a: Text, x: Text, b: Text, y: Text) { a + x == b + y }

  predicate Sized(s: Text) { |s| < Pow256(U64) }

  lemma CountCancel(n: nat, m: nat, x: Text, y: Text)
    requires Count(n) + x == Count(m) + y && n < Pow256(U64) && m < Pow256(U64)
    ensures n == m && x == y
  {
    SplitSame(Count(n), x, Count(m), y);
    FromLEInverts(n, U64);
    FromLEInverts(m, U64);
  }

  lemma StrCancel(a: Text, b: Text, x: Text, y: Text)
    requires Str(a) + x == Str(b) + y && Sized(a) && Sized(b)
    ensures a == b && x == y
  {
    Assoc(Count(|a|), a, x);
    Assoc(Count(|b|), b, y);
    CountCancel(|a|, |b|, a + x, b + y);
    SplitSame(a, x, b, y);
  }

  lemma FlagCancel(a: bool, b: bool, x: Text, y: Text)
    requires Flag(a) + x == Flag(b) + y
    ensures a == b && x == y
  {
    SplitSame(Flag(a), x, Flag(b), y);
  }

  lemma {:induction false} TypeCancel(a: FieldType, b: FieldType, x: Text, y: Text)
    requires TypeMarks(a) + x == TypeMarks(b) + y
    ensures a == b && x == y
  {
    var p, q := TypeMarks(a) + x, TypeMarks(b) + y;
    assert p[0] == q[0] && p[1..] == q[1..];
    if a.ArrayType? {
      assert p[1..] == TypeMarks(a.inner) + x && q[1..] == TypeMarks(b.inner) + y;
      TypeCancel(a.inner, b.inner, x, y);
    } else {
      assert p[1..] == x && q[1..] == y;
    }
  }

  predicate BitsFit(o: Option<nat>) { o.Some? ==> o.value < Pow256(U64) }

  lemma OptBitsCancel(a: Option<nat>, b: Option<nat>, x: Text, y: Text)
    requires OptBits(a) + x == OptBits(b) + y && BitsFit(a) && BitsFit(b)
    ensures a == b && x == y
  {
    var p, q := if a.Some? then Count(a.value) else [], if b.Some? then Count(b.value) else [];
    assert OptBits(a) == Flag(a.Some?) + p && OptBits(b) == Flag(b.Some?) + q;
    MarkCancel(a.Some?, b.Some?, p, q, x, y);
    if a.Some? { CountCancel(a.value, b.value, x, y); } else { assert [] + x == x && [] + y == y; }
  }

  /** A flag in front of a value. */
  lemma MarkCancel(a: bool, b: bool, p: Text, q: Text, x: Text, y: Text)
    requires Flag(a) + p + x == Flag(b) + q + y
    ensures a == b && p + x == q + y
  {
    Assoc(Flag(a), p, x);
    Assoc(Flag(b), q, y);
    FlagCancel(a, b, p + x, q + y);
  }

  predicate StrFits(o: Option<Text>) { o.Some? ==> Sized(o.value) }

  lemma OptStrCancel(a: Option<Text>, b: Option<Text>, x: Text, y: Text)
    requires OptStr(a) + x == OptStr(b) + y && StrFits(a) && StrFits(b)
    ensures a == b && x == y
  {
    var p, q := if a.Some? then Str(a.value) else [], if b.Some? then Str(b.value) else [];
    assert OptStr(a) == Flag(a.Some?) + p && OptStr(b) == Flag(b.Some?) + q;
    MarkCancel(a.Some?, b.Some?, p, q, x, y);
    if a.Some? { StrCancel(a.value, b.value, x, y); } else { assert [] + x == x && [] + y == y; }
  }

  lemma {:induction false} ConcatCancel<X(!new)>(enc: X -> Text, ok: X -> bool, p: seq<X>, q: seq<X>, x: Text, y: Text)
    requires PrefixFree(enc, ok) && (forall e :: e in p ==> ok(e)) && (forall e :: e in q ==> ok(e))
    requires |p| == |q| && Concat(enc, p) + x == Concat(enc, q) + y
    ensures p == q && x == y
  {
    if p == [] {
      assert [] + x == x && [] + y == y;
    } else {
      var r, s := Concat(enc, p[1..]) + x, Concat(enc, q[1..]) + y;
      Assoc(enc(p[0]), Concat(enc, p[1..]), x);
      Assoc(enc(q[0]), Concat(enc, q[1..]), y);
      assert p[0] in p && q[0] in q && Same(enc(p[0]), r, enc(q[0]), s);
      ConcatCancel(enc, ok, p[1..], q[1..], x, y);
      assert p == [p[0]] + p[1..] && q == [q[0]] + q[1..];
    }
  }

  ghost predicate ListFits<X>(ok: X -> bool, q: seq<X>) { |q| < Pow256(U64) && forall e :: e in q ==> ok(e) }

  lemma ListedCancel<X(!new)>(enc: X -> Text, ok: X -> bool, p: seq<X>, q: seq<X>, x: Text, y: Text)
    requires PrefixFree(enc, ok) && ListFits(ok, p) && ListFits(ok, q)
    requires Listed(enc, p) + x == Listed(enc, q) + y
    ensures p == q && x == y
  {
    Assoc(Count(|p|), Concat(enc, p), x);
    Assoc(Count(|q|), Concat(enc, q), y);
    CountCancel(|p|, |q|, Concat(enc, p) + x, Concat(enc, q) + y);
    ConcatCancel(enc, ok, p, q, x, y);
  }

  /** A list without a count is still determined when the stream ends with it. */
  lemma {:induction false} ConcatInjective<X(!new)>(enc: X -> Text, ok: X -> bool, p: seq<X>, q: seq<X>)
    requires PrefixFree(enc, ok) && (forall e :: e in p ==> ok(e)) && (forall e :: e in q ==> ok(e))
    requires forall e :: enc(e) != []
    requires Concat(enc, p) == Concat(enc, q)
    ensures p == q
    decreases |p|
  {
    if p != [] && q != [] {
      assert p[0] in p && q[0] in q && Same(enc(p[0]), Concat(enc, p[1..]), enc(q[0]), Concat(enc, q[1..]));
      ConcatInjective(enc, ok, p[1..], q[1..]);
      assert p == [p[0]] + p[1..] && q == [q[0]] + q[1..];
    } else {
      ConcatNonempty(enc, p);
      ConcatNonempty(enc, q);
    }
  }

  lemma ConcatNonempty<X(!new)>(enc: X -> Text, q: seq<X>)
    requires forall e :: enc(e) != []
    ensures Concat(enc, q) == [] <==> q == []
  {
    if q != [] { assert enc(q[0]) != []; }
  }

  // ---- fields, indexes, collections ------------------------------------------------------------

  lemma StrPrefixFree()
    ensures PrefixFree(Str, Sized)
  {
    forall a, b, x, y | Sized(a) && Sized(b) && Same(Str(a), x, Str(b), y) ensures a == b && x == y {
      StrCancel(a, b, x, y);
    }
  }

  ghost predicate FieldFits(f: FieldIr) {
    Sized(f.name) && BitsFit(f.min) && BitsFit(f.max) && StrFits(f.regex) && ListFits(Sized, f.variants)
  }

  lemma FieldHeadCancel(f: FieldIr, g: FieldIr, x: Text, y: Text)
    requires FieldHead(f) + x == FieldHead(g) + y && Sized(f.name) && Sized(g.name)
    ensures x == y && f.name == g.name && f.ty == g.ty
    ensures f.optional == g.optional && f.nullable == g.nullable && f.int_ == g.int_ && f.email == g.email
  {
    HeadTail(Str(f.name), TypeMarks(f.ty), Flags(f), x);
    HeadTail(Str(g.name), TypeMarks(g.ty), Flags(g), y);
    StrCancel(f.name, g.name, TypeMarks(f.ty) + (Flags(f) + x), TypeMarks(g.ty) + (Flags(g) + y));
    TypeCancel(f.ty, g.ty, Flags(f) + x, Flags(g) + y);
    SplitSame(Flags(f), x, Flags(g), y);
    assert forall i :: 0 <= i < 4 ==> Flags(f)[i] == Flags(g)[i];
    FlagBytes(f);
    FlagBytes(g);
  }

  lemma FlagBytes(f: FieldIr)
    ensures Flags(f)[0] == Flag(f.optional)[0] && Flags(f)[1] == Flag(f.nullable)[0]
    ensures Flags(f)[2] == Flag(f.int_)[0] && Flags(f)[3] == Flag(f.email)[0]
  {
  }

  lemma HeadTail(a: Text, b: Text, c: Text, x: Text)
    ensures a + (b + c) + x == a + (b + (c + x))
  {
  }

  lemma FieldTailCancel(f: FieldIr, g: FieldIr, x: Text, y: Text)
    requires FieldTail(f) + x == FieldTail(g) + y && FieldFits(f) && FieldFits(g)
    ensures x == y && f.min == g.min && f.max == g.max && f.regex == g.regex && f.variants == g.variants
  {
    var v, w := Listed(Str, f.variants), Listed(Str, g.variants);
    var r, s := OptStr(f.regex), OptStr(g.regex);
    HeadTail(OptBits(f.min), OptBits(f.max), r + v, x);
    HeadTail(OptBits(g.min), OptBits(g.max), s + w, y);
    OptBitsCancel(f.min, g.min, OptBits(f.max) + (r + v + x), OptBits(g.max) + (s + w + y));
    OptBitsCancel(f.max, g.max, r + v + x, s + w + y);
    Assoc(r, v, x);
    Assoc(s, w, y);
    OptStrCancel(f.regex, g.regex, v + x, w + y);
    StrPrefixFree();
    ListedCancel(Str, Sized, f.variants, g.variants, x, y);
  }

  lemma FieldCancel(f: FieldIr, g: FieldIr, x: Text, y: Text)
    requires FieldBytes(f) + x == FieldBytes(g) + y && FieldFits(f) && FieldFits(g)
    ensures f == g && x == y
  {
    Assoc(FieldHead(f), FieldTail(f), x);
    Assoc(FieldHead(g), FieldTail(g), y);
    FieldHeadCancel(f, g, FieldTail(f) + x, FieldTail(g) + y);
    FieldTailCancel(f, g, x, y);
  }

  lemma FieldPrefixFree()
    ensures PrefixFree(FieldBytes, FieldFits)
  {
    forall a, b, x, y | FieldFits(a) && FieldFits(b) && Same(FieldBytes(a), x, FieldBytes(b), y) ensures a == b && x == y {
      FieldCancel(a, b, x, y);
    }
  }

  predicate IndexFits(i: IndexIr) { Sized(i.field) }

  lemma IndexCancel(i: IndexIr, j: IndexIr, x: Text, y: Text)
    requires IndexBytes(i) + x == IndexBytes(j) + y && IndexFits(i) && IndexFits(j)
    ensures i == j && x == y
  {
    Assoc(Str(i.field), Flag(i.unique), x);
    Assoc(Str(j.field), Flag(j.unique), y);
    StrCancel(i.field, j.field, Flag(i.unique) + x, Flag(j.unique) + y);
    FlagCancel(i.unique, j.unique, x, y);
  }

  lemma IndexPrefixFree()
    ensures PrefixFree(IndexBytes, IndexFits)
  {
    forall a, b, x, y | IndexFits(a) && IndexFits(b) && Same(IndexBytes(a), x, IndexBytes(b), y) ensures a == b && x == y {
      IndexCancel(a, b, x, y);
    }
  }

  /** Lengths and bit patterns below 2^64: what the stream's fixed-width counts can hold. */
  ghost predicate CollectionFits(c: Named) {
    Sized(c.0) && Sized(c.1.idField) && ListFits(FieldFits, c.1.fields) && ListFits(IndexFits, c.1.indexes)
  }

  lemma CollectionCancel(c: Named, d: Named, x: Text, y: Text)
    requires CollectionBytes(c) + x == CollectionBytes(d) + y && CollectionFits(c) && CollectionFits(d)
    ensures c == d && x == y
  {
    var p, q := Listed(FieldBytes, c.1.fields), Listed(FieldBytes, d.1.fields);
    var r, s := Listed(IndexBytes, c.1.indexes), Listed(IndexBytes, d.1.indexes);
    HeadTail(Str(c.0), Str(c.1.idField), p + r, x);
    HeadTail(Str(d.0), Str(d.1.idField), q + s, y);
    StrCancel(c.0, d.0, Str(c.1.idField) + (p + r + x), Str(d.1.idField) + (q + s + y));
    StrCancel(c.1.idField, d.1.idField, p + r + x, q + s + y);
    Assoc(p, r, x);
    Assoc(q, s, y);
    FieldPrefixFree();
    ListedCancel(FieldBytes, FieldFits, c.1.fields, d.1.fields, r + x, s + y);
    IndexPrefixFree();
    ListedCancel(IndexBytes, IndexFits, c.1.indexes, d.1.indexes, x, y);
  }

  lemma CollectionPrefixFree()
    ensures PrefixFree(CollectionBytes, CollectionFits)
  {
    forall a, b, x, y | CollectionFits(a) && CollectionFits(b) && Same(CollectionBytes(a), x, CollectionBytes(b), y)
      ensures a == b && x == y
    {
      CollectionCancel(a, b, x, y);
    }
  }

  ghost predicate SchemaFits(s: SchemaIr) {
    forall c :: c in s.collections ==> CollectionFits((c, s.collections[c]))
  }

  lemma ByNameFits(s: SchemaIr)
    requires SchemaFits(s)
    ensures forall e :: e in ByName(s) ==> CollectionFits(e)
  {
    SortedSeqFacts(s.collections.Keys);
    var q := SortedSeq(s.collections.Keys);
    forall e | e in ByName(s) ensures CollectionFits(e) {
      var i :| 0 <= i < |q| && ByName(s)[i] == e;
      assert q[i] in q;
    }
  }

  lemma ByNameDetermines(s: SchemaIr, t: SchemaIr)
    requires ByName(s) == ByName(t)
    ensures s == t
  {
    NamesListed(s);
    NamesListed(t);
    assert s.collections == t.collections;
  }

  lemma NamesListed(s: SchemaIr)
    ensures forall c :: c in s.collections <==> exists i :: 0 <= i < |ByName(s)| && ByName(s)[i].0 == c
    ensures forall i :: 0 <= i < |ByName(s)| ==> ByName(s)[i].0 in s.collections && ByName(s)[i].1 == s.collections[ByName(s)[i].0]
  {
    SortedSeqFacts(s.collections.Keys);
    var q := SortedSeq(s.collections.Keys);
    assert forall i :: 0 <= i < |q| ==> q[i] in q;
    forall c | c in s.collections ensures exists i :: 0 <= i < |ByName(s)| && ByName(s)[i].0 == c {
      var i :| 0 <= i < |q| && q[i] == c;
      assert ByName(s)[i].0 == c;
    }
  }

  /** Two schemas feed the digest the same bytes exactly when they are the same schema. */
  lemma PreImageDetermines(s: SchemaIr, t: SchemaIr)
    requires SchemaFits(s) && SchemaFits(t)
    ensures PreImage(s) == PreImage(t) <==> s == t
  {
    if PreImage(s) == PreImage(t) {
      CollectionPrefixFree();
      ByNameFits(s);
      ByNameFits(t);
      ConcatInjective(CollectionBytes, CollectionFits, ByName(s), ByName(t));
      ByNameDetermines(s, t);
    }
  }
}
