/** Every access path of `find` against one reference: the matching rows in id order. */
module FastPath {
  import opened Lex
  import opened Json
  import opened Schema
  import opened Codec
  import opened IndexEngine
  import opened Storage
  import opened Query
  import opened Collection
  import opened Invariants

  /** The ids of the rows that satisfy the filter. */
  function MatchIds(t: DocTables, c: Text, filter: Value): set<Text> {
    set u | u in UserKeys(t.entries, c) && HasRow(t, c, u) && Matches(RowAt(t, c, u), filter)
  }

  /** The rows under `ids`, one for each. */
  function DocsOf(t: DocTables, c: Text, ids: seq<Text>): seq<Value>
    requires forall u :: u in ids ==> HasRow(t, c, u)
  {
    seq(|ids|, i requires 0 <= i < |ids| => RowAt(t, c, ids[i]))
  }

  /** The reference answer: all matching rows of the collection, ordered by id. */
  function Answer(t: DocTables, c: Text, filter: Value): seq<Value> {
    SortedSeqFacts(MatchIds(t, c, filter));
    DocsOf(t, c, SortedSeq(MatchIds(t, c, filter)))
  }

  lemma MatchIsAnswered(t: DocTables, c: Text, filter: Value, u: Text)
    requires u in MatchIds(t, c, filter)
    ensures RowAt(t, c, u) in Answer(t, c, filter)
  {
    var us := SortedSeq(MatchIds(t, c, filter));
    SortedSeqFacts(MatchIds(t, c, filter));
    var n :| 0 <= n < |us| && us[n] == u;
    assert Answer(t, c, filter)[n] == RowAt(t, c, u);
  }

  // ---- the full scan --------------------------------------------------------------------

  lemma {:induction false} FilterKeepsMatches(t: DocTables, c: Text, filter: Value, q: seq<Text>, ids: set<Text>)
    requires forall u :: u in q ==> HasRow(t, c, u) && (u in ids <==> Matches(RowAt(t, c, u), filter))
    ensures forall u :: u in Keep(q, ids) ==> HasRow(t, c, u)
    ensures FilterDocs(DocsOf(t, c, q), filter) == DocsOf(t, c, Keep(q, ids))
  {
    if q != [] {
      assert q[0] in q;
      var row, rest := RowAt(t, c, q[0]), Keep(q[1..], ids);
      FilterKeepsMatches(t, c, filter, q[1..], ids);
      DocsOfCons(t, c, q);
      assert ([row] + DocsOf(t, c, q[1..]))[1..] == DocsOf(t, c, q[1..]);
      if q[0] in ids {
        assert Keep(q, ids) == [q[0]] + rest && Keep(q, ids)[1..] == rest;
        DocsOfCons(t, c, Keep(q, ids));
      } else {
        assert Keep(q, ids) == rest;
      }
    }
  }

  lemma DocsOfCons(t: DocTables, c: Text, q: seq<Text>)
    requires q != [] && forall u :: u in q ==> HasRow(t, c, u)
    ensures DocsOf(t, c, q) == [RowAt(t, c, q[0])] + DocsOf(t, c, q[1..])
  {
    assert forall u :: u in q[1..] ==> u in q;
  }

  lemma ScanIsAnswer(t: DocTables, c: Text, filter: Value)
    ensures FilterDocs(AllDocs(t, c), filter) == Answer(t, c, filter)
  {
    var q := SortedSeq(UserKeys(t.entries, c));
    SortedSeqFacts(UserKeys(t.entries, c));
    RowsAreStored(t.entries, c, q);
    assert AllDocs(t, c) == DocsOf(t, c, q);
    var ids := MatchIds(t, c, filter);
    FilterKeepsMatches(t, c, filter, q, ids);
    KeepSorted(UserKeys(t.entries, c), ids);
    assert UserKeys(t.entries, c) * ids == ids;
  }

  // ---- the id path --------------------------------------------------------------------

  lemma IdPathIsAnswer(env: Env, c: Text, t: DocTables, filter: Value)
    requires Usable(env, c) && RowsValid(env, t)
    requires ChoosePath(Ir(env, c), filter).IdPath?
    ensures FilterDocs(Fetch(t.entries, c, [ChoosePath(Ir(env, c), filter).id]), filter) == Answer(t, c, filter)
  {
    var ir := Ir(env, c);
    var id := ChoosePath(ir, filter).id;
    var ids := MatchIds(t, c, filter);
    forall u | u in ids ensures u == id {
      assert ValidRow(env, c, u, RowAt(t, c, u));
      assert ConditionHolds(RowAt(t, c, u).Get(ir.idField), filter.fields[ir.idField]);
    }
    UserKeysMember(t.entries, c, id);
    assert Fetch(t.entries, c, [id][1..]) == [];
    assert Fetch(t.entries, c, [id]) == if HasRow(t, c, id) then [RowAt(t, c, id)] else [];
    SortedSeqFacts(ids);
    if id in ids {
      assert ids == {id};
      SortedSingle(id);
    } else {
      assert ids == {};
    }
  }

  lemma SortedSingle(u: Text)
    ensures SortedSeq({u}) == [u]
  {
    SortedSeqFacts({u});
    assert SortedSeq({u})[0] in SortedSeq({u});
  }

  // ---- the index path -----------------------------------------------------------------

  function GroupOf(s: DocTables, c: Text, field: Text, v: Value): set<Text> {
    RangeKeys(s.index, GroupLower(c, field, EncodeIndexValue(v)), GroupUpper(c, field, EncodeIndexValue(v)))
  }

  /** The keys of an index group that lead to a matching row. */
  function Productive(s1: DocTables, s2: DocTables, c: Text, field: Text, v: Value, filter: Value): set<Text> {
    set k | k in GroupOf(s1, c, field, v) && s1.index[k] in MatchIds(s2, c, filter)
  }

  /** The rows that the index entries under `q` lead to. */
  function RowsVia(index: map<Text, Text>, t: DocTables, c: Text, q: seq<Text>): seq<Value>
    requires forall k :: k in q ==> k in index && HasRow(t, c, index[k])
  {
    seq(|q|, i requires 0 <= i < |q| => assert q[i] in q; RowAt(t, c, index[q[i]]))
  }

  lemma {:induction false} FetchFilter(s1: DocTables, s2: DocTables, c: Text, filter: Value, q: seq<Text>, p: set<Text>)
    requires forall k :: k in q ==> k in s1.index && (k in p <==> s1.index[k] in MatchIds(s2, c, filter))
    ensures forall k :: k in Keep(q, p) ==> k in s1.index && HasRow(s2, c, s1.index[k])
    ensures FilterDocs(Fetch(s2.entries, c, Lookup(s1.index, q)), filter) == RowsVia(s1.index, s2, c, Keep(q, p))
  {
    if q != [] {
      assert q[0] in q;
      var u := s1.index[q[0]];
      UserKeysMember(s2.entries, c, u);
      assert Lookup(s1.index, q)[1..] == Lookup(s1.index, q[1..]);
      FetchFilter(s1, s2, c, filter, q[1..], p);
      FetchFilterStep(s2, c, filter, u, Lookup(s1.index, q));
      var rest := Keep(q[1..], p);
      if q[0] in p {
        assert Keep(q, p) == [q[0]] + rest && Keep(q, p)[1..] == rest;
        RowsViaCons(s1.index, s2, c, Keep(q, p));
      } else {
        assert Keep(q, p) == rest;
      }
    }
  }

  lemma RowsViaCons(index: map<Text, Text>, t: DocTables, c: Text, q: seq<Text>)
    requires q != [] && forall k :: k in q ==> k in index && HasRow(t, c, index[k])
    ensures RowsVia(index, t, c, q) == [RowAt(t, c, index[q[0]])] + RowsVia(index, t, c, q[1..])
  {
    assert forall k :: k in q[1..] ==> k in q;
  }

  lemma FetchFilterStep(t: DocTables, c: Text, filter: Value, u: Text, ids: seq<Text>)
    requires ids != [] && ids[0] == u
    ensures FilterDocs(Fetch(t.entries, c, ids), filter)
         == (if HasRow(t, c, u) && Matches(RowAt(t, c, u), filter) then [RowAt(t, c, u)] else [])
            + FilterDocs(Fetch(t.entries, c, ids[1..]), filter)
  {
    var rest := Fetch(t.entries, c, ids[1..]);
    if HasRow(t, c, u) {
      assert Fetch(t.entries, c, ids) == [RowAt(t, c, u)] + rest;
      assert ([RowAt(t, c, u)] + rest)[1..] == rest;
    } else {
      assert Fetch(t.entries, c, ids) == rest;
    }
  }

  /** What the index path computes: one row for every productive key, in key order. */
  lemma IndexPathResult(s1: DocTables, s2: DocTables, c: Text, field: Text, v: Value, filter: Value)
    ensures var q := SortedSeq(Productive(s1, s2, c, field, v, filter));
            && (forall k :: k in q ==> k in s1.index && HasRow(s2, c, s1.index[k]))
            && FilterDocs(Fetch(s2.entries, c, LookupEq(s1, c, field, v)), filter) == RowsVia(s1.index, s2, c, q)
  {
    var group := GroupOf(s1, c, field, v);
    var p := Productive(s1, s2, c, field, v, filter);
    SortedSeqFacts(group);
    FetchFilter(s1, s2, c, filter, SortedSeq(group), p);
    KeepSorted(group, p);
    assert group * p == p;
  }

  /** The keys of the matching rows' current values. */
  function Primary(t: DocTables, c: Text, field: Text, v: Value, filter: Value): set<Text> {
    set u | u in MatchIds(t, c, filter) :: IndexKey(c, field, EncodeIndexValue(v), u)
  }

  lemma PrimarySorted(t: DocTables, c: Text, field: Text, v: Value, filter: Value)
    ensures var us := SortedSeq(MatchIds(t, c, filter));
            SortedSeq(Primary(t, c, field, v, filter))
            == seq(|us|, i requires 0 <= i < |us| => IndexKey(c, field, EncodeIndexValue(v), us[i]))
    ensures |Primary(t, c, field, v, filter)| == |MatchIds(t, c, filter)|
  {
    var us := SortedSeq(MatchIds(t, c, filter));
    var e := EncodeIndexValue(v);
    var ks := seq(|us|, i requires 0 <= i < |us| => IndexKey(c, field, e, us[i]));
    SortedSeqFacts(MatchIds(t, c, filter));
    SortedSeqFacts(Primary(t, c, field, v, filter));
    forall i, j | 0 <= i < j < |ks| ensures Less(ks[i], ks[j]) { GroupOrder(c, field, e, us[i], us[j]); }
    forall k ensures k in ks <==> k in SortedSeq(Primary(t, c, field, v, filter)) {
      PrimaryMember(t, c, field, v, filter, ks, k);
    }
    SortedUnique(ks, SortedSeq(Primary(t, c, field, v, filter)));
  }

  lemma PrimaryMember(t: DocTables, c: Text, field: Text, v: Value, filter: Value, ks: seq<Text>, k: Text)
    requires var us := SortedSeq(MatchIds(t, c, filter));
             |ks| == |us| && forall i :: 0 <= i < |us| ==> ks[i] == IndexKey(c, field, EncodeIndexValue(v), us[i])
    ensures k in ks <==> k in Primary(t, c, field, v, filter)
  {
    var us := SortedSeq(MatchIds(t, c, filter));
    SortedSeqFacts(MatchIds(t, c, filter));
    if k in Primary(t, c, field, v, filter) {
      var u :| u in MatchIds(t, c, filter) && k == IndexKey(c, field, EncodeIndexValue(v), u);
      assert u in us;
      var i :| 0 <= i < |us| && us[i] == u;
      assert ks[i] == k;
    }
    if k in ks {
      var i :| 0 <= i < |ks| && ks[i] == k;
      assert us[i] in us;
    }
  }

  /** Every matching row is found through its own key, which complete indexing guarantees. */
  lemma PrimaryIsProductive(env: Env, c: Text, t: DocTables, filter: Value)
    requires Usable(env, c) && RowsValid(env, t) && Indexed(env, t)
    requires ChoosePath(Ir(env, c), filter).IndexPath?
    ensures var f := ChoosePath(Ir(env, c), filter).field;
            && Primary(t, c, f, filter.fields[f], filter) <= Productive(t, t, c, f, filter.fields[f], filter)
            && FoundByKey(t, c, f, filter.fields[f], MatchIds(t, c, filter))
  {
    var ir := Ir(env, c);
    var f := ChoosePath(ir, filter).field;
    var v := filter.fields[f];
    var e := EncodeIndexValue(v);
    forall u | u in MatchIds(t, c, filter)
      ensures var k := IndexKey(c, f, e, u); k in t.index && t.index[k] == u && k in GroupOf(t, c, f, v)
    {
      var d := RowAt(t, c, u);
      var idx :| idx in ir.indexes && idx.field == f;
      assert ConditionHolds(d.Get(f), v);
      var k := IndexKey(c, f, e, u);
      assert k == KeyOf(c, idx, d, u);
      assert k in RowKeys(ir, c, u, d);
      GroupRange(c, f, e, k);
      assert k == GroupLower(c, f, e) + u;
    }
  }

  /** Every productive key is the key of the current value of the row it leads to. */
  predicate NoOtherKeyProductive(t: DocTables, c: Text, field: Text, v: Value, filter: Value) {
    forall k :: k in GroupOf(t, c, field, v) && t.index[k] in MatchIds(t, c, filter)
                ==> k == IndexKey(c, field, EncodeIndexValue(v), t.index[k])
  }

  /** The index path returns the reference answer if and only if no other key of the probed
      group leads to a matching row. */
  lemma IndexPathExactlyWhen(env: Env, c: Text, t: DocTables, filter: Value)
    requires Usable(env, c) && RowsValid(env, t) && Indexed(env, t)
    requires ChoosePath(Ir(env, c), filter).IndexPath?
    ensures var f := ChoosePath(Ir(env, c), filter).field; var v := filter.fields[f];
            FilterDocs(Fetch(t.entries, c, LookupEq(t, c, f, v)), filter) == Answer(t, c, filter)
            <==> NoOtherKeyProductive(t, c, f, v, filter)
  {
    var f := ChoosePath(Ir(env, c), filter).field;
    var v := filter.fields[f];
    PrimaryIsProductive(env, c, t, filter);
    PrimaryRows(t, c, f, v, filter);
    IndexPathResult(t, t, c, f, v, filter);
    if NoOtherKeyProductive(t, c, f, v, filter) { OnlyPrimaryProductive(t, c, f, v, filter); }
    if RowsVia(t.index, t, c, SortedSeq(Productive(t, t, c, f, v, filter))) == Answer(t, c, filter) {
      AllProductivePrimary(t, c, f, v, filter);
    }
  }

  lemma OnlyPrimaryProductive(t: DocTables, c: Text, f: Text, v: Value, filter: Value)
    requires NoOtherKeyProductive(t, c, f, v, filter)
    requires Primary(t, c, f, v, filter) <= Productive(t, t, c, f, v, filter)
    ensures Primary(t, c, f, v, filter) == Productive(t, t, c, f, v, filter)
  {
  }

  /** As many productive keys as matching rows: then every productive key is primary. */
  lemma AllProductivePrimary(t: DocTables, c: Text, f: Text, v: Value, filter: Value)
    requires Primary(t, c, f, v, filter) <= Productive(t, t, c, f, v, filter)
    requires FoundByKey(t, c, f, v, MatchIds(t, c, filter))
    requires |SortedSeq(Productive(t, t, c, f, v, filter))| == |Answer(t, c, filter)|
    ensures NoOtherKeyProductive(t, c, f, v, filter)
  {
    var p, q := Primary(t, c, f, v, filter), Productive(t, t, c, f, v, filter);
    SortedSeqFacts(q);
    SortedSeqFacts(MatchIds(t, c, filter));
    PrimarySorted(t, c, f, v, filter);
    SubsetSameSize(p, q);
    forall k | k in q ensures k == IndexKey(c, f, EncodeIndexValue(v), t.index[k]) {
      var u :| u in MatchIds(t, c, filter) && k == IndexKey(c, f, EncodeIndexValue(v), u);
    }
  }

  predicate FoundByKey(t: DocTables, c: Text, f: Text, v: Value, us: set<Text>) {
    forall u :: u in us ==> var k := IndexKey(c, f, EncodeIndexValue(v), u); k in t.index && t.index[k] == u
  }

  lemma PrimaryRows(t: DocTables, c: Text, f: Text, v: Value, filter: Value)
    requires FoundByKey(t, c, f, v, MatchIds(t, c, filter))
    ensures var q := SortedSeq(Primary(t, c, f, v, filter));
            && (forall k :: k in q ==> k in t.index && HasRow(t, c, t.index[k]))
            && RowsVia(t.index, t, c, q) == Answer(t, c, filter)
  {
    PrimarySorted(t, c, f, v, filter);
    var us := SortedSeq(MatchIds(t, c, filter));
    var q := SortedSeq(Primary(t, c, f, v, filter));
    SortedSeqFacts(MatchIds(t, c, filter));
    forall i | 0 <= i < |us| ensures q[i] in t.index && t.index[q[i]] == us[i] && HasRow(t, c, us[i]) {
      assert us[i] in us && us[i] in MatchIds(t, c, filter);
    }
    SameDocs(t, c, q, us);
  }

  /** Keys that lead to the given rows, one each. */
  lemma SameDocs(t: DocTables, c: Text, q: seq<Text>, us: seq<Text>)
    requires |q| == |us| && forall u :: u in us ==> HasRow(t, c, u)
    requires forall i :: 0 <= i < |us| ==> q[i] in t.index && t.index[q[i]] == us[i]
    ensures forall k :: k in q ==> k in t.index && HasRow(t, c, t.index[k])
    ensures RowsVia(t.index, t, c, q) == DocsOf(t, c, us)
  {
    forall k | k in q ensures k in t.index && HasRow(t, c, t.index[k]) {
      var i :| 0 <= i < |q| && q[i] == k;
      assert us[i] in us;
    }
  }

  lemma SubsetSameSize(a: set<Text>, b: set<Text>)
    requires a <= b && |a| == |b|
    ensures a == b
  {
    assert |b - a| == |b| - |a|;
  }

  // ---- when no text hides a separator -----------------------------------------------------

  predicate Separated(v: Value) { v.Str? ==> NulFree(v.s) }

  predicate CleanDoc(ir: CollectionIr, d: Value) {
    forall i :: i in ir.indexes ==> Separated(ValueAt(d, i.field))
  }

  ghost predicate CleanSchema(env: Env) {
    forall c, i :: Usable(env, c) && i in Ir(env, c).indexes ==> NulFree(i.field)
  }

  ghost predicate CleanRows(env: Env, t: DocTables) {
    forall c, u :: Usable(env, c) && HasRow(t, c, u) ==> CleanDoc(Ir(env, c), RowAt(t, c, u))
  }

  /** Stored documents and the documents behind index entries carry no NUL in indexed strings. */
  ghost predicate Clean(env: Env, t: DocTables) {
    && CleanRows(env, t)
    && (forall k :: k in t.index ==> exists c, d :: WrittenFor(env, k, c, t.index[k], d) && CleanDoc(Ir(env, c), d))
  }

  /** Two clean values of one field type: a group of one never holds a key of the other. */
  lemma CleanValuesSeparate(ty: FieldType, v: Value, w: Value, u: Text)
    requires !ty.ArrayType? && HasType(ty, v) && HasType(ty, w) && Separated(v) && Separated(w)
    requires EncodeIndexValue(v) + [0] <= EncodeIndexValue(w) + [0] + u
    ensures v == w
  {
    var e, e' := EncodeIndexValue(v), EncodeIndexValue(w);
    if v.Bool? {
      assert (e + [0])[0] == (e' + [0] + u)[0];
    } else {
      if v.Num? { DecimalInjective(v.n, w.n); DecimalInjective(w.n, v.n); }
      SplitPrefix(e, e', u);
    }
    EncodingInjective(ty, v, w);
  }

  /** A clean key in the group of a clean document's value was written for that same value. */
  lemma CleanKeyInGroup(env: Env, c: Text, idx: IndexIr, row: Value, c': Text, d: Value, u: Text, k: Text)
    requires env.Compiled() && CleanSchema(env) && Usable(env, c) && idx in Ir(env, c).indexes
    requires Validates(env, Ir(env, c), row) && CleanDoc(Ir(env, c), row)
    requires WrittenFor(env, k, c', u, d) && CleanDoc(Ir(env, c'), d)
    requires GroupLower(c, idx.field, EncodeIndexValue(ValueAt(row, idx.field))) <= k
    ensures k == IndexKey(c, idx.field, EncodeIndexValue(ValueAt(row, idx.field)), u)
    ensures c == c' && ValueAt(row, idx.field) == ValueAt(d, idx.field)
  {
    var ir, f := Ir(env, c), idx.field;
    var i :| i in Ir(env, c').indexes && k == KeyOf(c', i, d, u);
    KeyInGroup(c, f, EncodeIndexValue(ValueAt(row, f)), c', i.field, EncodeIndexValue(ValueAt(d, i.field)), u);
    IndexedFieldIsScalar(env, ir, row, idx);
    IndexedFieldIsScalar(env, ir, d, i);
    assert Indexable(ir.fields, f);
    CleanValuesSeparate(ir.Field(f).value.ty, ValueAt(row, f), ValueAt(d, f), u);
  }

  /** On the index path a matching row holds the very value that was looked up. */
  lemma MatchHoldsValue(ir: CollectionIr, filter: Value, row: Value)
    requires ChoosePath(ir, filter).IndexPath? && Matches(row, filter)
    ensures var f := ChoosePath(ir, filter).field; row.Get(f) == Some(filter.fields[f]) && ValueAt(row, f) == filter.fields[f]
  {
    var f := ChoosePath(ir, filter).field;
    assert ConditionHolds(row.Get(f), filter.fields[f]);
  }

  lemma CleanGroup(env: Env, c: Text, filter: Value, f: Text, k: Text, u: Text, row: Value)
    requires env.Compiled() && CleanSchema(env) && Usable(env, c)
    requires ChoosePath(Ir(env, c), filter) == IndexPath(f) && Matches(row, filter)
    requires ValidRow(env, c, u, row) && CleanDoc(Ir(env, c), row)
    requires GroupLower(c, f, EncodeIndexValue(filter.fields[f])) <= k
    requires exists c', d :: WrittenFor(env, k, c', u, d) && CleanDoc(Ir(env, c'), d)
    ensures k == IndexKey(c, f, EncodeIndexValue(filter.fields[f]), u)
  {
    MatchHoldsValue(Ir(env, c), filter, row);
    var idx :| idx in Ir(env, c).indexes && idx.field == f;
    var c', d :| WrittenFor(env, k, c', u, d) && CleanDoc(Ir(env, c'), d);
    CleanKeyInGroup(env, c, idx, row, c', d, u, k);
  }

  lemma CleanOrigin(env: Env, t: DocTables, k: Text)
    requires Clean(env, t) && k in t.index
    ensures exists c, d :: WrittenFor(env, k, c, t.index[k], d) && CleanDoc(Ir(env, c), d)
  {
  }

  lemma CleanStateSeparates(env: Env, c: Text, t: DocTables, filter: Value, f: Text)
    requires env.Compiled() && CleanSchema(env) && Clean(env, t) && RowsValid(env, t) && Usable(env, c)
    requires ChoosePath(Ir(env, c), filter) == IndexPath(f)
    ensures NoOtherKeyProductive(t, c, f, filter.fields[f], filter)
  {
    forall k | k in GroupOf(t, c, f, filter.fields[f]) && t.index[k] in MatchIds(t, c, filter)
      ensures k == IndexKey(c, f, EncodeIndexValue(filter.fields[f]), t.index[k])
    {
      GroupRange(c, f, EncodeIndexValue(filter.fields[f]), k);
      CleanOrigin(env, t, k);
      CleanGroup(env, c, filter, f, k, t.index[k], RowAt(t, c, t.index[k]));
    }
  }

  /** On every clean state all three paths return the matching rows in id order, stale index
      entries notwithstanding: the fast paths refine the filtered scan. */
  lemma FastPathRefinesScan(env: Env, c: Text, t: DocTables, filter: Value)
    requires env.Compiled() && CleanSchema(env) && Clean(env, t) && Usable(env, c)
    requires RowsValid(env, t) && Indexed(env, t)
    ensures Find(Ir(env, c), c, t, t, filter) == Ok(FilterDocs(AllDocs(t, c), filter))
    ensures Find(Ir(env, c), c, t, t, filter) == Ok(Answer(t, c, filter))
  {
    ScanIsAnswer(t, c, filter);
    match ChoosePath(Ir(env, c), filter)
    case ScanPath =>
    case IdPath(_) => IdPathIsAnswer(env, c, t, filter);
    case IndexPath(f) =>
      IndexPathExactlyWhen(env, c, t, filter);
      CleanStateSeparates(env, c, t, filter, f);
  }

  /** The ids of the answer are distinct, so sorting it is deterministic. */
  lemma AnswerIdsDistinct(env: Env, c: Text, t: DocTables, filter: Value)
    requires Usable(env, c) && RowsValid(env, t)
    ensures DistinctIds(Ir(env, c).idField, Answer(t, c, filter))
  {
    var us := SortedSeq(MatchIds(t, c, filter));
    SortedSeqFacts(MatchIds(t, c, filter));
    forall i | 0 <= i < |us| ensures IdText(Ir(env, c).idField, Answer(t, c, filter)[i]) == Some(us[i]) {
      assert us[i] in us;
      assert ValidRow(env, c, us[i], RowAt(t, c, us[i]));
    }
    forall i, j | 0 <= i < j < |us| ensures us[i] != us[j] { LessIrreflexive(us[i]); }
  }
}
