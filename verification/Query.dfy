/** Query options: multi-key sort with an id tie-break, then offset and limit. */
module Query {
  import opened Lex
  import opened Json
  import opened Schema

  datatype SortDir = Asc | Desc

  datatype SortKey = SortKey(field: Text, dir: SortDir)

  datatype QueryOptions = QueryOptions(sort: seq<SortKey>, limit: Option<nat>, offset: nat)

  const DEFAULT_OPTIONS := QueryOptions([], None, 0)

  // ---- comparison of two values --------------------------------------------------------

  predicate IsAbsent(v: Option<Value>) { v.None? || v.value.Null? }

  function CompareInts(a: int, b: int): Ordering {
    if a < b then Before else if a > b then After else Same
  }

  predicate IsI64(n: int) { -0x8000_0000_0000_0000 <= n < 0x8000_0000_0000_0000 }

  /** Integers of one width are compared exactly; otherwise the doubles are compared. */
  function CompareNumbers(x: JsonInt, y: JsonInt): Ordering {
    if IsI64(x) && IsI64(y) then CompareInts(x, y)
    else if 0 <= x && 0 <= y then CompareInts(x, y)
    else CompareInts(F64(x), F64(y))
  }

  function CompareTexts(a: Text, b: Text): Ordering {
    if Less(a, b) then Before else if a == b then Same else After
  }

  function TypeRank(v: Value): nat {
    match v case Bool(_) => 0 case Num(_) => 1 case Str(_) => 2 case _ => 3
  }

  function CompareValues(a: Option<Value>, b: Option<Value>): Ordering {
    if IsAbsent(a) then (if IsAbsent(b) then Same else After)
    else if IsAbsent(b) then Before
    else match (a.value, b.value)
      case (Num(x), Num(y)) => CompareNumbers(x, y)
      case (Str(x), Str(y)) => CompareTexts(x, y)
      case (Bool(x), Bool(y)) => if x == y then Same else if y then Before else After
      case (x, y) => CompareInts(TypeRank(x), TypeRank(y))
  }

  function CompareField(key: SortKey, a: Value, b: Value): Ordering {
    var (av, bv) := (a.Get(key.field), b.Get(key.field));
    var ord := CompareValues(av, bv);
    if key.dir.Desc? && !IsAbsent(av) && !IsAbsent(bv) then ord.Reverse() else ord
  }

  /** `Option<&str>` comparison: absent first. */
  function CompareIds(a: Option<Text>, b: Option<Text>): Ordering {
    match (a, b)
    case (None, None) => Same
    case (None, Some(_)) => Before
    case (Some(_), None) => After
    case (Some(x), Some(y)) => CompareTexts(x, y)
  }

  function IdText(idField: Text, d: Value): Option<Text> {
    var v := d.Get(idField);
    if v.Some? && v.value.Str? then Some(v.value.s) else None
  }

  /** The comparator handed to the sort: the first decisive key, then the id. */
  function Compare(sort: seq<SortKey>, idField: Text, a: Value, b: Value): Ordering {
    if sort == [] then CompareIds(IdText(idField, a), IdText(idField, b))
    else Then(CompareField(sort[0], a, b), Compare(sort[1..], idField, a, b))
  }

  /** Integers of the two widths: the comparison never loses precision. */
  lemma CompareNumbersIsExact(x: JsonInt, y: JsonInt)
    ensures CompareNumbers(x, y) == CompareInts(x, y)
  {
  }

  // ---- the comparator is a total order -------------------------------------------------

  lemma CompareTextsLaws(a: Text, b: Text, c: Text)
    ensures CompareTexts(b, a) == CompareTexts(a, b).Reverse()
    ensures CompareTexts(a, b) == Same <==> a == b
    ensures CompareTexts(a, b) == Before && CompareTexts(b, c) == Before ==> CompareTexts(a, c) == Before
  {
    LessTotal(a, b);
    LessIrreflexive(a);
    if Less(a, b) {
      LessAsymmetric(a, b);
      if Less(b, c) { LessTransitive(a, b, c); }
    }
    if Less(b, a) { LessAsymmetric(b, a); }
  }

  /** Three-way comparison as a weak order: antisymmetric, and `<=` transitive with a strict
      conclusion as soon as one premise is strict. */
  predicate Coherent(ab: Ordering, ba: Ordering, bc: Ordering, ac: Ordering) {
    && ba == ab.Reverse()
    && (ab != After && bc != After ==> ac != After)
    && (ab != After && bc != After && (ab == Before || bc == Before) ==> ac == Before)
    && (ab == Same && bc == Same ==> ac == Same)
  }

  /** The first decisive comparison wins. */
  function Then(first: Ordering, second: Ordering): Ordering {
    if first != Same then first else second
  }

  lemma ThenCoherent(ab: Ordering, ba: Ordering, bc: Ordering, ac: Ordering,
                     ab': Ordering, ba': Ordering, bc': Ordering, ac': Ordering)
    requires Coherent(ab, ba, bc, ac) && Coherent(ab', ba', bc', ac')
    ensures Coherent(Then(ab, ab'), Then(ba, ba'), Then(bc, bc'), Then(ac, ac'))
  {
  }

  lemma CompareValuesCoherent(a: Option<Value>, b: Option<Value>, c: Option<Value>)
    ensures Coherent(CompareValues(a, b), CompareValues(b, a), CompareValues(b, c), CompareValues(a, c))
  {
    if !IsAbsent(a) && !IsAbsent(b) {
      match (a.value, b.value)
      case (Num(x), Num(y)) =>
        CompareNumbersIsExact(x, y);
        CompareNumbersIsExact(y, x);
        if !IsAbsent(c) && c.value.Num? {
          CompareNumbersIsExact(y, c.value.n);
          CompareNumbersIsExact(x, c.value.n);
        }
      case (Str(x), Str(y)) =>
        CompareTextsLaws(x, y, x);
        if !IsAbsent(c) && c.value.Str? {
          CompareTextsLaws(x, y, c.value.s);
          CompareTextsLaws(y, c.value.s, x);
        }
      case _ =>
    }
  }

  lemma CompareFieldCoherent(key: SortKey, a: Value, b: Value, c: Value)
    ensures Coherent(CompareField(key, a, b), CompareField(key, b, a), CompareField(key, b, c), CompareField(key, a, c))
  {
    var (av, bv, cv) := (a.Get(key.field), b.Get(key.field), c.Get(key.field));
    CompareValuesCoherent(av, bv, cv);
    CompareValuesCoherent(cv, bv, av);
    CompareValuesCoherent(bv, cv, av);
    CompareValuesCoherent(av, cv, bv);
  }

  lemma IdsCoherent(x: Option<Text>, y: Option<Text>, z: Option<Text>)
    ensures Coherent(CompareIds(x, y), CompareIds(y, x), CompareIds(y, z), CompareIds(x, z))
  {
    if x.Some? && y.Some? {
      CompareTextsLaws(x.value, y.value, if z.Some? then z.value else []);
      if z.Some? { CompareTextsLaws(y.value, z.value, x.value); }
    }
  }

  lemma {:induction false} CompareCoherent(sort: seq<SortKey>, idField: Text, a: Value, b: Value, c: Value)
    ensures Coherent(Compare(sort, idField, a, b), Compare(sort, idField, b, a),
                     Compare(sort, idField, b, c), Compare(sort, idField, a, c))
  {
    if sort == [] {
      IdsCoherent(IdText(idField, a), IdText(idField, b), IdText(idField, c));
    } else {
      var (key, rest) := (sort[0], sort[1..]);
      CompareFieldCoherent(key, a, b, c);
      CompareCoherent(rest, idField, a, b, c);
      ThenCoherent(CompareField(key, a, b), CompareField(key, b, a), CompareField(key, b, c), CompareField(key, a, c),
                   Compare(rest, idField, a, b), Compare(rest, idField, b, a),
                   Compare(rest, idField, b, c), Compare(rest, idField, a, c));
    }
  }

  /** Documents tie only when they carry the same id. */
  lemma {:induction false} TiesShareId(sort: seq<SortKey>, idField: Text, a: Value, b: Value)
    requires Compare(sort, idField, a, b) == Same
    ensures IdText(idField, a) == IdText(idField, b)
  {
    if sort != [] { TiesShareId(sort[1..], idField, a, b); }
  }

  /** Missing and null sort last, whatever the direction of the key. */
  lemma AbsentLast(key: SortKey, rest: seq<SortKey>, idField: Text, a: Value, b: Value)
    requires !IsAbsent(a.Get(key.field)) && IsAbsent(b.Get(key.field))
    ensures Compare([key] + rest, idField, a, b) == Before
    ensures Compare([key] + rest, idField, b, a) == After
  {
  }

  // ---- sorting ------------------------------------------------------------------------

  /** Stable insertion: `d` goes before the first element that is strictly greater. */
  function Insert(sort: seq<SortKey>, idField: Text, d: Value, q: seq<Value>): seq<Value> {
    if q == [] then [d]
    else if Compare(sort, idField, d, q[0]) == Before then [d] + q
    else [q[0]] + Insert(sort, idField, d, q[1..])
  }

  /** The stable sort of `docs`. */
  function Sorted(sort: seq<SortKey>, idField: Text, docs: seq<Value>): seq<Value> {
    if docs == [] then []
    else Insert(sort, idField, docs[|docs| - 1], Sorted(sort, idField, docs[..|docs| - 1]))
  }

  predicate Ascending(sort: seq<SortKey>, idField: Text, q: seq<Value>) {
    forall i, j :: 0 <= i < j < |q| ==> Compare(sort, idField, q[i], q[j]) != After
  }

  lemma {:induction false} InsertPermutes(sort: seq<SortKey>, idField: Text, d: Value, q: seq<Value>)
    ensures multiset(Insert(sort, idField, d, q)) == multiset(q) + multiset{d}
  {
    if q != [] {
      assert q == [q[0]] + q[1..];
      InsertPermutes(sort, idField, d, q[1..]);
    }
  }

  lemma {:induction false} InsertAscends(sort: seq<SortKey>, idField: Text, d: Value, q: seq<Value>)
    requires Ascending(sort, idField, q)
    ensures Ascending(sort, idField, Insert(sort, idField, d, q))
  {
    if q != [] {
      if Compare(sort, idField, d, q[0]) == Before {
        forall j | 0 <= j < |q| ensures Compare(sort, idField, d, q[j]) != After {
          CompareCoherent(sort, idField, d, q[0], q[j]);
        }
      } else {
        var s := Insert(sort, idField, d, q[1..]);
        InsertAscends(sort, idField, d, q[1..]);
        forall j | 0 <= j < |s| ensures Compare(sort, idField, q[0], s[j]) != After {
          HeadStaysFirst(sort, idField, d, q, j);
        }
      }
    }
  }

  lemma HeadStaysFirst(sort: seq<SortKey>, idField: Text, d: Value, q: seq<Value>, j: nat)
    requires q != [] && Ascending(sort, idField, q) && Compare(sort, idField, d, q[0]) != Before
    requires j < |Insert(sort, idField, d, q[1..])|
    ensures Compare(sort, idField, q[0], Insert(sort, idField, d, q[1..])[j]) != After
  {
    var s := Insert(sort, idField, d, q[1..]);
    InsertPermutes(sort, idField, d, q[1..]);
    assert s[j] in multiset(s);
    if s[j] == d {
      CompareCoherent(sort, idField, d, q[0], d);
    } else {
      assert s[j] in q[1..];
    }
  }

  lemma {:induction false} SortedPermutes(sort: seq<SortKey>, idField: Text, docs: seq<Value>)
    ensures multiset(Sorted(sort, idField, docs)) == multiset(docs)
  {
    if docs != [] {
      var front, last := docs[..|docs| - 1], docs[|docs| - 1];
      SortedPermutes(sort, idField, front);
      InsertPermutes(sort, idField, last, Sorted(sort, idField, front));
      assert docs == front + [last];
    }
  }

  lemma {:induction false} SortedAscends(sort: seq<SortKey>, idField: Text, docs: seq<Value>)
    ensures Ascending(sort, idField, Sorted(sort, idField, docs))
  {
    if docs != [] {
      SortedAscends(sort, idField, docs[..|docs| - 1]);
      InsertAscends(sort, idField, docs[|docs| - 1], Sorted(sort, idField, docs[..|docs| - 1]));
    }
  }

  lemma SortedFacts(sort: seq<SortKey>, idField: Text, docs: seq<Value>)
    ensures Ascending(sort, idField, Sorted(sort, idField, docs))
    ensures multiset(Sorted(sort, idField, docs)) == multiset(docs)
    ensures |Sorted(sort, idField, docs)| == |docs|
  {
    SortedAscends(sort, idField, docs);
    SortedPermutes(sort, idField, docs);
    SameSize(Sorted(sort, idField, docs), docs);
  }

  lemma SameSize<T>(p: seq<T>, q: seq<T>)
    requires multiset(p) == multiset(q)
    ensures |p| == |q|
  {
    assert |multiset(p)| == |multiset(q)|;
  }

  predicate DistinctIds(idField: Text, docs: seq<Value>) {
    forall i, j :: 0 <= i < j < |docs| ==> IdText(idField, docs[i]) != IdText(idField, docs[j])
  }

  /** Any two documents with different ids are strictly ordered, one way or the other. */
  lemma ComparatorIsStrictOnDistinctIds(sort: seq<SortKey>, idField: Text, a: Value, b: Value)
    requires IdText(idField, a) != IdText(idField, b)
    ensures Compare(sort, idField, a, b) != Same
    ensures Compare(sort, idField, a, b) == Before <==> Compare(sort, idField, b, a) == After
  {
    if Compare(sort, idField, a, b) == Same { TiesShareId(sort, idField, a, b); }
    CompareCoherent(sort, idField, a, b, a);
  }

  /** The result of the sort does not depend on the algorithm: among documents with distinct
      ids there is exactly one ascending permutation. */
  lemma {:induction false} SortedIsUnique(sort: seq<SortKey>, idField: Text, p: seq<Value>, q: seq<Value>)
    requires multiset(p) == multiset(q) && DistinctIds(idField, p)
    requires Ascending(sort, idField, p) && Ascending(sort, idField, q)
    ensures p == q
  {
    assert |p| == |multiset(p)| && |q| == |multiset(q)|;
    if p != [] {
      SameFirst(sort, idField, p, q);
      assert p == [p[0]] + p[1..] && q == [q[0]] + q[1..];
      assert multiset(p[1..]) == multiset(p) - multiset{p[0]};
      assert multiset(q[1..]) == multiset(q) - multiset{q[0]};
      TailKeeps(sort, idField, p, q);
      SortedIsUnique(sort, idField, p[1..], q[1..]);
    }
  }

  lemma TailKeeps(sort: seq<SortKey>, idField: Text, p: seq<Value>, q: seq<Value>)
    requires p != [] && q != [] && DistinctIds(idField, p)
    requires Ascending(sort, idField, p) && Ascending(sort, idField, q)
    ensures DistinctIds(idField, p[1..])
    ensures Ascending(sort, idField, p[1..]) && Ascending(sort, idField, q[1..])
  {
  }

  lemma SameFirst(sort: seq<SortKey>, idField: Text, p: seq<Value>, q: seq<Value>)
    requires p != [] && q != [] && multiset(p) == multiset(q) && DistinctIds(idField, p)
    requires Ascending(sort, idField, p) && Ascending(sort, idField, q)
    ensures p[0] == q[0]
  {
    assert p[0] in multiset(q) && q[0] in multiset(p);
    var i :| 0 <= i < |p| && p[i] == q[0];
    var j :| 0 <= j < |q| && q[j] == p[0];
    CompareCoherent(sort, idField, p[0], q[0], p[0]);
    assert i != 0 ==> Compare(sort, idField, p[0], p[i]) != After;
    assert j != 0 ==> Compare(sort, idField, q[0], q[j]) != After;
    if i != 0 { ComparatorIsStrictOnDistinctIds(sort, idField, p[0], p[i]); }
  }

  // ---- validation, offset, limit ---------------------------------------------------------

  /** Every sort field exists and is not an array. */
  predicate SortFieldsOk(ir: CollectionIr, sort: seq<SortKey>) {
    forall k :: k in sort ==> ir.Field(k.field).Some? && !ir.Field(k.field).value.ty.ArrayType?
  }

  method ValidateSortFields(ir: CollectionIr, opts: QueryOptions) returns (r: Result<()>)
    ensures r == if SortFieldsOk(ir, opts.sort) then Ok(()) else Err(SchemaError)
  {
    for i := 0 to |opts.sort|
      invariant SortFieldsOk(ir, opts.sort[..i])
    {
      var key := opts.sort[i];
      match ir.Field(key.field) {
        case None =>
          assert key in opts.sort;
          return Err(SchemaError);
        case Some(f) =>
          if f.ty.ArrayType? {
            assert key in opts.sort;
            return Err(SchemaError);
          }
      }
      assert opts.sort[..i + 1] == opts.sort[..i] + [key];
    }
    assert opts.sort[..|opts.sort|] == opts.sort;
    return Ok(());
  }

  function Min(a: nat, b: nat): nat { if a < b then a else b }

  function Page<X>(docs: seq<X>, offset: nat, limit: Option<nat>): seq<X> {
    var rest := docs[Min(offset, |docs|)..];
    if limit.Some? then rest[..Min(limit.value, |rest|)] else rest
  }

  /** All matching documents in the requested order, before paging. */
  function Ordered(opts: QueryOptions, ir: CollectionIr, docs: seq<Value>): seq<Value> {
    if opts.sort == [] then docs else Sorted(opts.sort, ir.idField, docs)
  }

  function ApplyOptions(opts: QueryOptions, ir: CollectionIr, docs: seq<Value>): Result<seq<Value>> {
    if SortFieldsOk(ir, opts.sort) then Ok(Page(Ordered(opts, ir, docs), opts.offset, opts.limit))
    else Err(SchemaError)
  }

  lemma WholePage<X>(docs: seq<X>)
    ensures Page(docs, 0, None) == docs
  {
    assert docs[0..] == docs;
  }

  /** `QueryOptions::apply`: sort, split off the offset, truncate to the limit. `sort_by` is the
      library's stable sort; by `SortedIsUnique` any correct sort gives the same documents. */
  method Apply(opts: QueryOptions, ir: CollectionIr, docs: seq<Value>) returns (r: Result<seq<Value>>)
    ensures r == ApplyOptions(opts, ir, docs)
  {
    var v := ValidateSortFields(ir, opts);
    if v.Err? { return Err(v.error); }
    var all := docs;
    if opts.sort != [] { all := Sorted(opts.sort, ir.idField, all); }
    var start := Min(opts.offset, |all|);
    var out := all[start..];
    if opts.limit.Some? { out := out[..Min(opts.limit.value, |out|)]; }
    return Ok(out);
  }

  // ---- pagination ---------------------------------------------------------------------

  lemma PagesAreAdjacent<X>(docs: seq<X>, offset: nat, l: nat, l': nat)
    ensures Page(docs, offset, Some(l)) + Page(docs, offset + l, Some(l')) == Page(docs, offset, Some(l + l'))
    ensures Page(docs, offset, Some(l)) + Page(docs, offset + l, None) == Page(docs, offset, None)
  {
  }

  /** The first `n` pages of size `l`, one after the other. */
  function Pages<X>(docs: seq<X>, l: nat, n: nat): seq<X> {
    if n == 0 then [] else Pages(docs, l, n - 1) + Page(docs, (n - 1) * l, Some(l))
  }

  lemma {:induction false} PagesTile<X>(docs: seq<X>, l: nat, n: nat)
    ensures Pages(docs, l, n) == docs[..Min(n * l, |docs|)]
    ensures |docs| <= n * l ==> Pages(docs, l, n) == docs
  {
    if n != 0 {
      PagesTile(docs, l, n - 1);
      assert n * l == (n - 1) * l + l;
      PagesAreAdjacent(docs, 0, (n - 1) * l, l);
      assert Page(docs, 0, Some((n - 1) * l)) == docs[..Min((n - 1) * l, |docs|)];
      assert Page(docs, 0, Some(n * l)) == docs[..Min(n * l, |docs|)];
    }
  }

  /** `count_with`: the arithmetic that replaces sorting and paging when only a count is asked. */
  function CountPage(total: nat, opts: QueryOptions): nat {
    var afterOffset := if total < opts.offset then 0 else total - opts.offset;
    if opts.limit.Some? then Min(afterOffset, opts.limit.value) else afterOffset
  }

  /** A count accepts and rejects the same options as a find, and is the length of its result. */
  lemma CountIsLength(opts: QueryOptions, ir: CollectionIr, docs: seq<Value>)
    ensures ApplyOptions(opts, ir, docs).Ok? <==> SortFieldsOk(ir, opts.sort)
    ensures ApplyOptions(opts, ir, docs).Ok? ==> |ApplyOptions(opts, ir, docs).value| == CountPage(|docs|, opts)
  {
    SortedFacts(opts.sort, ir.idField, docs);
  }
}
