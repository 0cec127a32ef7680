/** What a sort order and a page mean, in terms of the stored values, and with the filter the whole
    answer of a query. */
module QueryMeaning {
  import opened Lex
  import opened Json
  import opened Schema
  import opened Codec
  import opened Storage
  import opened Query
  import opened Collection
  import opened Invariants
  import opened FastPath
  import opened FilterMeaning
  import opened History

  // ---- one value before another -------------------------------------------------------------

  /** The texts agree up to `n`, where `a` ends or has the smaller unit. */
  predicate BelowAt(a: Text, b: Text, n: nat) {
    n <= |a| && n < |b| && a[..n] == b[..n] && (n == |a| || a[n] < b[n])
  }

  /** The order of texts is the dictionary's. */
  lemma {:induction false} LessMeans(a: Text, b: Text)
    ensures Less(a, b) <==> exists n: nat :: BelowAt(a, b, n)
  {
    if a == [] || b == [] || a[0] != b[0] {
      if Less(a, b) { assert BelowAt(a, b, 0); }
      forall n: nat | 0 < n <= |a| && n < |b| ensures !BelowAt(a, b, n) { assert a[..n][0] == a[0] && b[..n][0] == b[0]; }
    } else {
      LessMeans(a[1..], b[1..]);
      forall n: nat | n > 0 ensures BelowAt(a, b, n) <==> BelowAt(a[1..], b[1..], n - 1) { BelowAtTail(a, b, n); }
      if n: nat :| BelowAt(a[1..], b[1..], n) { assert BelowAt(a, b, n + 1); }
    }
  }

  lemma BelowAtTail(a: Text, b: Text, n: nat)
    requires a != [] && b != [] && a[0] == b[0] && n > 0
    ensures BelowAt(a, b, n) <==> BelowAt(a[1..], b[1..], n - 1)
  {
    if n <= |a| && n < |b| {
      assert a[..n] == [a[0]] + a[1..][..n - 1] && b[..n] == [a[0]] + b[1..][..n - 1];
      assert a[..n][1..] == a[1..][..n - 1] && b[..n][1..] == b[1..][..n - 1];
    }
  }

  /** Booleans, then numbers, then texts, then arrays and objects; of a kind false before true, the
      smaller number, the text first in the dictionary. */
  predicate ValueBelow(x: Value, y: Value) {
    match x
    case Bool(p) => y.Num? || y.Str? || y.Arr? || y.Obj? || (y.Bool? && !p && y.b)
    case Num(m) => y.Str? || y.Arr? || y.Obj? || (y.Num? && m < y.n)
    case Str(s) => y.Arr? || y.Obj? || (y.Str? && Less(s, y.s))
    case _ => false
  }

  /** A field that is there and not null. */
  predicate Present(d: Value, f: Text) { d.Get(f).Some? && !d.Get(f).value.Null? }

  /** `a` comes before `b` by this key: its value does, or `b` has none. The direction turns values
      round, not their absence. */
  predicate KeyBelow(key: SortKey, a: Value, b: Value) {
    && Present(a, key.field)
    && (Present(b, key.field) ==>
          var x, y := a.Get(key.field).value, b.Get(key.field).value;
          if key.dir.Asc? then ValueBelow(x, y) else ValueBelow(y, x))
  }

  predicate KeyTied(key: SortKey, a: Value, b: Value) { !KeyBelow(key, a, b) && !KeyBelow(key, b, a) }

  /** A document without a text id comes first, then the smaller id. */
  predicate IdBelow(idField: Text, a: Value, b: Value) {
    var x, y := a.Get(idField), b.Get(idField);
    && y.Some? && y.value.Str?
    && (x.Some? && x.value.Str? ==> Less(x.value.s, y.value.s))
  }

  /** The documents tie on the first `n` keys, and the next one, or the id behind the last one,
      puts `a` first. */
  predicate DecidedAt(sort: seq<SortKey>, idField: Text, a: Value, b: Value, n: nat) {
    && n <= |sort|
    && (forall k :: 0 <= k < n ==> KeyTied(sort[k], a, b))
    && if n < |sort| then KeyBelow(sort[n], a, b) else IdBelow(idField, a, b)
  }

  /** The first key that tells the documents apart decides, or the id if none does. */
  ghost predicate DocBelow(sort: seq<SortKey>, idField: Text, a: Value, b: Value) {
    exists n: nat :: DecidedAt(sort, idField, a, b, n)
  }

  // ---- the comparator has this meaning --------------------------------------------------------

  lemma ValuesMean(a: Option<Value>, b: Option<Value>)
    requires !IsAbsent(a) && !IsAbsent(b)
    ensures CompareValues(a, b) == Before <==> ValueBelow(a.value, b.value)
    ensures CompareValues(a, b) == After <==> ValueBelow(b.value, a.value)
  {
    match (a.value, b.value)
    case (Num(x), Num(y)) => CompareNumbersIsExact(x, y);
    case (Str(x), Str(y)) => CompareTextsLaws(x, y, x);
    case _ =>
  }

  lemma FieldMeans(key: SortKey, a: Value, b: Value)
    ensures CompareField(key, a, b) == Before <==> KeyBelow(key, a, b)
    ensures CompareField(key, a, b) == After <==> KeyBelow(key, b, a)
  {
    var av, bv := a.Get(key.field), b.Get(key.field);
    if !IsAbsent(av) && !IsAbsent(bv) { ValuesMean(av, bv); }
  }

  lemma IdsMean(idField: Text, a: Value, b: Value)
    ensures CompareIds(IdText(idField, a), IdText(idField, b)) == Before <==> IdBelow(idField, a, b)
    ensures CompareIds(IdText(idField, a), IdText(idField, b)) == After <==> IdBelow(idField, b, a)
  {
    var x, y := IdText(idField, a), IdText(idField, b);
    if x.Some? && y.Some? { CompareTextsLaws(x.value, y.value, x.value); }
  }

  lemma {:induction false} CompareMeans(sort: seq<SortKey>, idField: Text, a: Value, b: Value)
    ensures Compare(sort, idField, a, b) == Before <==> DocBelow(sort, idField, a, b)
    ensures Compare(sort, idField, a, b) == After <==> DocBelow(sort, idField, b, a)
  {
    if sort == [] {
      IdsMean(idField, a, b);
      NoKeys(idField, a, b);
      NoKeys(idField, b, a);
    } else {
      FieldMeans(sort[0], a, b);
      CompareMeans(sort[1..], idField, a, b);
      FirstKey(sort, idField, a, b);
      FirstKey(sort, idField, b, a);
    }
  }

  lemma NoKeys(idField: Text, a: Value, b: Value)
    ensures DocBelow([], idField, a, b) <==> IdBelow(idField, a, b)
  {
    assert DecidedAt([], idField, a, b, 0) <==> IdBelow(idField, a, b);
  }

  lemma FirstKey(sort: seq<SortKey>, idField: Text, a: Value, b: Value)
    requires sort != []
    ensures DocBelow(sort, idField, a, b) <==>
            KeyBelow(sort[0], a, b) || (KeyTied(sort[0], a, b) && DocBelow(sort[1..], idField, a, b))
  {
    assert DecidedAt(sort, idField, a, b, 0) <==> KeyBelow(sort[0], a, b);
    forall n: nat | n > 0
      ensures DecidedAt(sort, idField, a, b, n) <==> KeyTied(sort[0], a, b) && DecidedAt(sort[1..], idField, a, b, n - 1)
    {
      DecidedLater(sort, idField, a, b, n);
    }
    if n: nat :| DecidedAt(sort[1..], idField, a, b, n) && KeyTied(sort[0], a, b) {
      assert DecidedAt(sort, idField, a, b, n + 1);
    }
  }

  lemma DecidedLater(sort: seq<SortKey>, idField: Text, a: Value, b: Value, n: nat)
    requires sort != [] && n > 0
    ensures DecidedAt(sort, idField, a, b, n) <==> KeyTied(sort[0], a, b) && DecidedAt(sort[1..], idField, a, b, n - 1)
  {
    var rest := sort[1..];
    if n <= |sort| {
      assert forall k :: 1 <= k < |sort| ==> sort[k] == rest[k - 1];
      assert (forall k :: 0 <= k < n ==> KeyTied(sort[k], a, b)) <==>
             KeyTied(sort[0], a, b) && forall k :: 0 <= k < n - 1 ==> KeyTied(rest[k], a, b) by {
        if KeyTied(sort[0], a, b) && forall k :: 0 <= k < n - 1 ==> KeyTied(rest[k], a, b) {
          forall k | 0 <= k < n ensures KeyTied(sort[k], a, b) { assert k > 0 ==> KeyTied(rest[k - 1], a, b); }
        }
        if forall k :: 0 <= k < n ==> KeyTied(sort[k], a, b) {
          forall k | 0 <= k < n - 1 ensures KeyTied(rest[k], a, b) { assert KeyTied(sort[k + 1], a, b); }
        }
      }
    }
  }

  // ---- the result of a query --------------------------------------------------------------------

  /** `r` is `q` from `offset` on, cut to `limit`. */
  predicate IsWindow(q: seq<Value>, offset: nat, limit: Option<nat>, r: seq<Value>) {
    && |r| == (if |q| <= offset then 0
               else if limit.Some? && limit.value < |q| - offset then limit.value
               else |q| - offset)
    && forall i :: 0 <= i < |r| ==> r[i] == q[offset + i]
  }

  lemma PageMeans(q: seq<Value>, offset: nat, limit: Option<nat>)
    ensures IsWindow(q, offset, limit, Page(q, offset, limit))
  {
  }

  /** No document comes after one that belongs behind it. */
  ghost predicate InOrder(sort: seq<SortKey>, idField: Text, q: seq<Value>) {
    forall i, j :: 0 <= i < j < |q| ==> !DocBelow(sort, idField, q[j], q[i])
  }

  /** The options of a query: refused exactly if a sort key names an unknown or an array field, and
      otherwise a window of the documents in the order the keys ask for. Without keys they stay as
      they are. */
  lemma ApplyMeans(opts: QueryOptions, ir: CollectionIr, docs: seq<Value>)
    ensures ApplyOptions(opts, ir, docs).Ok? <==>
            forall k :: k in opts.sort ==> ir.Field(k.field).Some? && !ir.Field(k.field).value.ty.ArrayType?
    ensures ApplyOptions(opts, ir, docs).Err? ==> ApplyOptions(opts, ir, docs).error == SchemaError
    ensures ApplyOptions(opts, ir, docs).Ok? ==>
            exists q :: multiset(q) == multiset(docs) && IsWindow(q, opts.offset, opts.limit, ApplyOptions(opts, ir, docs).value)
                        && (if opts.sort == [] then q == docs else InOrder(opts.sort, ir.idField, q))
  {
    if SortFieldsOk(ir, opts.sort) {
      PageMeans(Ordered(opts, ir, docs), opts.offset, opts.limit);
      OrderedMeans(opts, ir, docs);
    }
  }

  lemma OrderedMeans(opts: QueryOptions, ir: CollectionIr, docs: seq<Value>)
    ensures var q := Ordered(opts, ir, docs);
            multiset(q) == multiset(docs) && if opts.sort == [] then q == docs else InOrder(opts.sort, ir.idField, q)
  {
    if opts.sort != [] {
      SortedAscends(opts.sort, ir.idField, docs);
      SortedPermutes(opts.sort, ir.idField, docs);
      AscendingIsInOrder(opts.sort, ir.idField, Sorted(opts.sort, ir.idField, docs));
    }
  }

  lemma AscendingIsInOrder(sort: seq<SortKey>, idField: Text, q: seq<Value>)
    requires Ascending(sort, idField, q)
    ensures InOrder(sort, idField, q)
  {
    forall i, j | 0 <= i < j < |q| ensures !DocBelow(sort, idField, q[j], q[i]) { CompareMeans(sort, idField, q[i], q[j]); }
  }

  /** The keys in turn: of two documents in a sorted result that tie on the first `n` keys, the
      next key does not put the second one first; on all keys, the ids ascend. */
  lemma KeysInTurn(opts: QueryOptions, ir: CollectionIr, docs: seq<Value>, i: nat, j: nat, n: nat)
    requires ApplyOptions(opts, ir, docs).Ok? && opts.sort != []
    requires i < j < |ApplyOptions(opts, ir, docs).value| && n <= |opts.sort|
    requires var r := ApplyOptions(opts, ir, docs).value; forall k :: 0 <= k < n ==> KeyTied(opts.sort[k], r[i], r[j])
    ensures var r := ApplyOptions(opts, ir, docs).value;
            if n < |opts.sort| then !KeyBelow(opts.sort[n], r[j], r[i]) else !IdBelow(ir.idField, r[j], r[i])
  {
    var r := ApplyOptions(opts, ir, docs).value;
    ApplyMeans(opts, ir, docs);
    assert !DocBelow(opts.sort, ir.idField, r[j], r[i]);
    assert !DecidedAt(opts.sort, ir.idField, r[j], r[i], n);
  }

  /** One key: among numbers, texts and booleans the values ascend or descend as the key says, and
      equal values are in the order of their ids. */
  lemma OneKeyMeans(key: SortKey, limit: Option<nat>, offset: nat, ir: CollectionIr, docs: seq<Value>, i: nat, j: nat)
    requires ApplyOptions(QueryOptions([key], limit, offset), ir, docs).Ok?
    requires i < j < |ApplyOptions(QueryOptions([key], limit, offset), ir, docs).value|
    ensures var r := ApplyOptions(QueryOptions([key], limit, offset), ir, docs).value;
            var x, y := r[i].Get(key.field), r[j].Get(key.field);
            && (x.Some? && y.Some? && x.value.Num? && y.value.Num? ==>
                  if key.dir.Asc? then x.value.n <= y.value.n else x.value.n >= y.value.n)
            && (x.Some? && y.Some? && x.value.Str? && y.value.Str? ==>
                  if key.dir.Asc? then !Less(y.value.s, x.value.s) else !Less(x.value.s, y.value.s))
            && (x.Some? && y.Some? && x.value.Bool? && y.value.Bool? ==>
                  if key.dir.Asc? then x.value.b ==> y.value.b else y.value.b ==> x.value.b)
            && (x == y ==> !IdBelow(ir.idField, r[j], r[i]))
            && (Present(r[j], key.field) ==> Present(r[i], key.field))
  {
    var opts := QueryOptions([key], limit, offset);
    var r := ApplyOptions(opts, ir, docs).value;
    KeysInTurn(opts, ir, docs, i, j, 0);
    var x, y := r[i].Get(key.field), r[j].Get(key.field);
    if x == y {
      if x.Some? && x.value.Str? { LessIrreflexive(x.value.s); }
      assert forall k :: 0 <= k < 1 ==> KeyTied(opts.sort[k], r[i], r[j]);
      KeysInTurn(opts, ir, docs, i, j, 1);
    }
  }

  // ---- the whole answer ---------------------------------------------------------------------------

  /** All stored documents that match, each once, in the order the keys ask for; without keys in
      the order of their ids. */
  ghost predicate IsAnswer(t: DocTables, c: Text, idField: Text, filter: Value, sort: seq<SortKey>, q: seq<Value>) {
    && (forall d :: d in q <==> IsStored(t, c, d) && Matches(d, filter))
    && (forall i, j :: 0 <= i < j < |q| ==> DocBelow(sort, idField, q[i], q[j]))
  }

  /** On every committed state of a clean run a query is refused exactly for a bad sort key, and
      otherwise returns a window of all matching documents in the requested order. */
  lemma QueryAlways(env: Env, h: seq<DocTables>, log: seq<Transaction>, next: seq<DocTx>, n: nat,
                    c: Text, filter: Value, opts: QueryOptions)
    requires env.Compiled() && CleanSchema(env)
    requires Run(env, h, log, next) && n < |h| && Usable(env, c)
    requires CleanLog(env, log)
    ensures FindWith(env, c, h[n], h[n], filter, opts).Ok? <==>
            forall k :: k in opts.sort ==> Ir(env, c).Field(k.field).Some? && !Ir(env, c).Field(k.field).value.ty.ArrayType?
    ensures FindWith(env, c, h[n], h[n], filter, opts).Ok? ==>
            exists q :: IsAnswer(h[n], c, Ir(env, c).idField, filter, opts.sort, q)
                        && IsWindow(q, opts.offset, opts.limit, FindWith(env, c, h[n], h[n], filter, opts).value)
  {
    InvAt(env, h, log, next, n);
    CleanAlways(env, h, log, next, n);
    QueryMeans(env, c, h[n], filter, opts);
  }

  lemma QueryMeans(env: Env, c: Text, t: DocTables, filter: Value, opts: QueryOptions)
    requires env.Compiled() && CleanSchema(env) && Clean(env, t) && Usable(env, c) && RowsValid(env, t) && Indexed(env, t)
    ensures FindWith(env, c, t, t, filter, opts).Ok? <==>
            forall k :: k in opts.sort ==> Ir(env, c).Field(k.field).Some? && !Ir(env, c).Field(k.field).value.ty.ArrayType?
    ensures FindWith(env, c, t, t, filter, opts).Ok? ==>
            exists q :: IsAnswer(t, c, Ir(env, c).idField, filter, opts.sort, q)
                        && IsWindow(q, opts.offset, opts.limit, FindWith(env, c, t, t, filter, opts).value)
  {
    var ir, docs := Ir(env, c), Answer(t, c, filter);
    FastPathRefinesScan(env, c, t, filter);
    if SortFieldsOk(ir, opts.sort) {
      var q := Ordered(opts, ir, docs);
      PageMeans(q, opts.offset, opts.limit);
      OrderedIsAnswer(env, c, t, filter, opts);
    }
  }

  lemma OrderedIsAnswer(env: Env, c: Text, t: DocTables, filter: Value, opts: QueryOptions)
    requires Usable(env, c) && RowsValid(env, t)
    ensures IsAnswer(t, c, Ir(env, c).idField, filter, opts.sort, Ordered(opts, Ir(env, c), Answer(t, c, filter)))
  {
    var ir, docs := Ir(env, c), Answer(t, c, filter);
    var q := Ordered(opts, ir, docs);
    SortedPermutes(opts.sort, ir.idField, docs);
    if opts.sort != [] { SortedAscends(opts.sort, ir.idField, docs); }
    forall d ensures d in q <==> IsStored(t, c, d) && Matches(d, filter) {
      SameElements(q, docs, d);
      AnswersAreMatches(t, c, filter, d);
    }
    forall i, j | 0 <= i < j < |q| ensures DocBelow(opts.sort, ir.idField, q[i], q[j]) {
      CompareMeans(opts.sort, ir.idField, q[i], q[j]);
      if opts.sort == [] {
        AnswerAscends(env, c, t, filter, i, j);
      } else {
        AnswerIdsDistinct(env, c, t, filter);
        DistinctPermuted(ir.idField, docs, q, i, j);
        ComparatorIsStrictOnDistinctIds(opts.sort, ir.idField, q[i], q[j]);
      }
    }
  }

  lemma SameElements(p: seq<Value>, q: seq<Value>, d: Value)
    requires multiset(p) == multiset(q)
    ensures d in p <==> d in q
  {
    assert d in p <==> d in multiset(p);
    assert d in q <==> d in multiset(q);
  }

  lemma DistinctPermuted(idField: Text, docs: seq<Value>, q: seq<Value>, i: nat, j: nat)
    requires DistinctIds(idField, docs) && multiset(q) == multiset(docs) && i < j < |q|
    ensures IdText(idField, q[i]) != IdText(idField, q[j])
  {
    assert q[i] in multiset(docs) && q[j] in multiset(docs);
    var m :| 0 <= m < |docs| && docs[m] == q[i];
    var n :| 0 <= n < |docs| && docs[n] == q[j];
    if q[i] == q[j] {
      TwiceCounted(q, i, j);
      CountedOnce(idField, docs, q[i]);
    } else {
      assert m < n || n < m;
    }
  }

  lemma TwiceCounted(q: seq<Value>, i: nat, j: nat)
    requires i < j < |q| && q[i] == q[j]
    ensures multiset(q)[q[i]] >= 2
  {
    assert q == q[..i] + [q[i]] + q[i + 1..j] + [q[j]] + q[j + 1..];
  }

  lemma {:induction false} CountedOnce(idField: Text, docs: seq<Value>, d: Value)
    requires DistinctIds(idField, docs)
    ensures multiset(docs)[d] <= 1
  {
    if docs != [] {
      var rest := docs[1..];
      CountedOnce(idField, rest, d);
      assert docs == [docs[0]] + rest;
      forall k | 0 <= k < |rest| ensures rest[k] != docs[0] { assert docs[k + 1] == rest[k]; }
    }
  }

  lemma AnswerAscends(env: Env, c: Text, t: DocTables, filter: Value, i: nat, j: nat)
    requires Usable(env, c) && RowsValid(env, t) && i < j < |Answer(t, c, filter)|
    ensures Compare([], Ir(env, c).idField, Answer(t, c, filter)[i], Answer(t, c, filter)[j]) == Before
  {
    var us := SortedSeq(MatchIds(t, c, filter));
    SortedSeqFacts(MatchIds(t, c, filter));
    assert us[i] in us && us[j] in us;
    assert ValidRow(env, c, us[i], RowAt(t, c, us[i])) && ValidRow(env, c, us[j], RowAt(t, c, us[j]));
  }
}
