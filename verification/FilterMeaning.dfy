/** What filters mean, operator by operator, in terms of the stored values. */
module FilterMeaning {
  import opened Lex
  import opened Json
  import opened Schema
  import opened Storage
  import opened Collection
  import opened Invariants
  import opened FastPath

  /** The filter `{ f: cond }`. */
  function OnField(f: Text, cond: Value): Value { Obj(map[f := cond]) }

  /** The filter `{ f: { op: want } }`. */
  function OnOp(f: Text, op: string, want: Value): Value { OnField(f, Obj(map[T(op) := want])) }

  // ---- the shape of a filter ------------------------------------------------------------------

  /** Several fields: all of them must hold. The empty filter, and one that is no object, match
      everything. */
  lemma FieldsConjoin(doc: Value, filter: Value)
    requires filter.Obj?
    ensures Matches(doc, filter) <==> forall f :: f in filter.fields ==> Matches(doc, OnField(f, filter.fields[f]))
  {
    forall f | f in filter.fields
      ensures Matches(doc, OnField(f, filter.fields[f])) <==> ConditionHolds(doc.Get(f), filter.fields[f])
    {
      assert OnField(f, filter.fields[f]).fields[f] == filter.fields[f];
    }
  }

  lemma EmptyMatchesAll(doc: Value, filter: Value)
    ensures filter == Obj(map[]) || !filter.Obj? ==> Matches(doc, filter)
  {
  }

  /** Several operators on one field: all of them must hold. If one key is an operator and another
      is not, nothing matches. */
  lemma OperatorsConjoin(doc: Value, f: Text, ops: map<Text, Value>)
    requires exists k :: k in ops && IsOperator(k)
    ensures Matches(doc, OnField(f, Obj(ops))) <==>
            forall k :: k in ops ==> IsOperator(k) && Matches(doc, OnField(f, Obj(map[k := ops[k]])))
  {
    OperatorNames();
    assert OnField(f, Obj(ops)).fields[f] == Obj(ops);
    forall k | k in ops
      ensures OpHolds(k, doc.Get(f), ops[k]) <==> IsOperator(k) && Matches(doc, OnField(f, Obj(map[k := ops[k]])))
    {
      if IsOperator(k) { OneOperator(doc, f, k, ops[k]); }
    }
  }

  lemma OneOperator(doc: Value, f: Text, k: Text, want: Value)
    requires IsOperator(k)
    ensures Matches(doc, OnField(f, Obj(map[k := want]))) <==> OpHolds(k, doc.Get(f), want)
  {
    var cond := Obj(map[k := want]);
    assert OnField(f, cond).fields[f] == cond && k in cond.fields && cond.fields[k] == want;
  }

  const NAMES := ["$ne", "$exists", "$in", "$nin", "$gt", "$gte", "$lt", "$lte"]

  /** The operators' names are operators and differ. */
  lemma OperatorNames()
    ensures forall i :: 0 <= i < 8 ==> IsOperator(T(NAMES[i]))
    ensures forall i, j :: 0 <= i < j < 8 ==> T(NAMES[i]) != T(NAMES[j])
  {
    forall i, j | 0 <= i < j < 8 ensures T(NAMES[i]) != T(NAMES[j]) {
      var s, t := NAMES[i], NAMES[j];
      if |s| == |t| {
        assert s[1] != t[1];
        assert T(s)[1] != T(t)[1];
      }
    }
  }

  /** Without an operator among its keys a condition asks for an equal value. */
  lemma PlainMeansEqual(doc: Value, f: Text, cond: Value)
    requires cond.Obj? ==> forall k :: k in cond.fields ==> !IsOperator(k)
    ensures Matches(doc, OnField(f, cond)) <==> doc.Get(f) == Some(cond)
  {
    assert OnField(f, cond).fields[f] == cond;
  }

  // ---- equality and membership ------------------------------------------------------------------

  /** `$ne`: a missing field is different from every value. */
  lemma NeMeans(doc: Value, f: Text, want: Value)
    ensures Matches(doc, OnOp(f, "$ne", want)) <==> doc.Get(f).None? || doc.Get(f).value != want
  {
    OperatorNames();
    OneOperator(doc, f, T(NAMES[0]), want);
  }

  /** `$exists`: null is a value. Anything but `false` asks for the field. */
  lemma ExistsMeans(doc: Value, f: Text, want: Value)
    ensures Matches(doc, OnOp(f, "$exists", want)) <==> if want == Bool(false) then doc.Get(f).None? else doc.Get(f).Some?
  {
    OperatorNames();
    OneOperator(doc, f, T(NAMES[1]), want);
  }

  /** `$in`: the field is there and its value listed. A list that is no array matches nothing. */
  lemma InMeans(doc: Value, f: Text, want: Value)
    ensures Matches(doc, OnOp(f, "$in", want)) <==>
            want.Arr? && exists i :: 0 <= i < |want.items| && doc.Get(f) == Some(want.items[i])
  {
    OperatorNames();
    OneOperator(doc, f, T(NAMES[2]), want);
    var a := doc.Get(f);
    assert T(NAMES[2]) != T(NAMES[0]) && T(NAMES[2]) != T(NAMES[1]);
    assert Matches(doc, OnOp(f, "$in", want)) <==> want.Arr? && a.Some? && a.value in want.items;
    if want.Arr? && a.Some? && a.value in want.items {
      var i :| 0 <= i < |want.items| && want.items[i] == a.value;
      assert a == Some(want.items[i]);
    }
  }

  /** `$nin`: the field is missing or its value not listed; also false of a list that is no array. */
  lemma NinMeans(doc: Value, f: Text, want: Value)
    ensures Matches(doc, OnOp(f, "$nin", want)) <==>
            want.Arr? && forall i :: 0 <= i < |want.items| ==> doc.Get(f) != Some(want.items[i])
  {
    OperatorNames();
    OneOperator(doc, f, T(NAMES[3]), want);
  }

  // ---- comparison ---------------------------------------------------------------------------------

  predicate Small(n: int) { -0x20_0000_0000_0000 <= n <= 0x20_0000_0000_0000 }

  /** The four comparisons of two numbers that doubles hold. */
  lemma ComparisonsMean(doc: Value, f: Text, m: JsonInt, n: JsonInt)
    requires doc.Get(f) == Some(Num(m)) && Small(m) && Small(n)
    ensures Matches(doc, OnOp(f, "$gt", Num(n))) <==> m > n
    ensures Matches(doc, OnOp(f, "$gte", Num(n))) <==> m >= n
    ensures Matches(doc, OnOp(f, "$lt", Num(n))) <==> m < n
    ensures Matches(doc, OnOp(f, "$lte", Num(n))) <==> m <= n
  {
    F64Monotone(n, m);
    F64Monotone(m, n);
    ComparesDoubles(doc, f, Num(n));
  }

  /** Both are numbers. */
  predicate BothNumbers(a: Option<Value>, want: Value) { a.Some? && a.value.Num? && want.Num? }

  lemma ComparesDoubles(doc: Value, f: Text, want: Value)
    ensures var a := doc.Get(f); var both := BothNumbers(a, want);
            && (Matches(doc, OnOp(f, "$gt", want)) <==> both && F64(a.value.n) > F64(want.n))
            && (Matches(doc, OnOp(f, "$gte", want)) <==> both && F64(a.value.n) >= F64(want.n))
            && (Matches(doc, OnOp(f, "$lt", want)) <==> both && F64(a.value.n) < F64(want.n))
            && (Matches(doc, OnOp(f, "$lte", want)) <==> both && F64(a.value.n) <= F64(want.n))
  {
    forall i | 4 <= i < 8 ensures Matches(doc, OnOp(f, NAMES[i], want)) <==> CompareOp(T(NAMES[i]), doc.Get(f), want) {
      OperatorNames();
      OneOperator(doc, f, T(NAMES[i]), want);
      IsComparison(i, doc.Get(f), want);
    }
    ComparisonsDiffer(doc.Get(f), want);
    assert NAMES[4] == "$gt" && NAMES[5] == "$gte" && NAMES[6] == "$lt" && NAMES[7] == "$lte";
  }

  lemma IsComparison(i: nat, a: Option<Value>, want: Value)
    requires 4 <= i < 8
    ensures OpHolds(T(NAMES[i]), a, want) <==> CompareOp(T(NAMES[i]), a, want)
  {
    OperatorNames();
    assert T(NAMES[i]) in [T(NAMES[4]), T(NAMES[5]), T(NAMES[6]), T(NAMES[7])];
  }

  lemma ComparisonsDiffer(a: Option<Value>, want: Value)
    ensures CompareOp(T(NAMES[4]), a, want) <==> BothNumbers(a, want) && F64(a.value.n) > F64(want.n)
    ensures CompareOp(T(NAMES[5]), a, want) <==> BothNumbers(a, want) && F64(a.value.n) >= F64(want.n)
    ensures CompareOp(T(NAMES[6]), a, want) <==> BothNumbers(a, want) && F64(a.value.n) < F64(want.n)
    ensures CompareOp(T(NAMES[7]), a, want) <==> BothNumbers(a, want) && F64(a.value.n) <= F64(want.n)
  {
    OperatorNames();
  }

  /** Of any two numbers: a strict match is a strict difference, and a strict difference is at
      least a weak match. */
  lemma LargeComparisonsMean(doc: Value, f: Text, m: JsonInt, n: JsonInt)
    requires doc.Get(f) == Some(Num(m))
    ensures Matches(doc, OnOp(f, "$gt", Num(n))) ==> m > n
    ensures Matches(doc, OnOp(f, "$lt", Num(n))) ==> m < n
    ensures m >= n ==> Matches(doc, OnOp(f, "$gte", Num(n)))
    ensures m <= n ==> Matches(doc, OnOp(f, "$lte", Num(n)))
  {
    F64Monotone(n, m);
    F64Monotone(m, n);
    ComparesDoubles(doc, f, Num(n));
  }

  /** Beyond the doubles a strict difference can be lost. */
  lemma DoublesCollapse(doc: Value, f: Text)
    requires doc.Get(f) == Some(Num(0x20_0000_0000_0001))
    ensures !Matches(doc, OnOp(f, "$gt", Num(0x20_0000_0000_0000)))
  {
    ComparesDoubles(doc, f, Num(0x20_0000_0000_0000));
    assert F64(0x20_0000_0000_0001) == 0x20_0000_0000_0000 == F64(0x20_0000_0000_0000);
  }

  /** A comparison with or of anything but a number matches nothing. */
  lemma ComparisonsNeedNumbers(doc: Value, f: Text, want: Value)
    requires !want.Num? || doc.Get(f).None? || !doc.Get(f).value.Num?
    ensures forall i :: 4 <= i < 8 ==> !Matches(doc, OnOp(f, NAMES[i], want))
  {
    ComparesDoubles(doc, f, want);
    assert NAMES[4] == "$gt" && NAMES[5] == "$gte" && NAMES[6] == "$lt" && NAMES[7] == "$lte";
  }

  lemma UnknownOperator(doc: Value, f: Text, k: Text, want: Value)
    requires IsOperator(k) && forall i :: 0 <= i < 8 ==> k != T(NAMES[i])
    ensures !Matches(doc, OnField(f, Obj(map[k := want])))
  {
    OneOperator(doc, f, k, want);
    assert forall i :: 0 <= i < 8 ==> k != T(NAMES[i]);
    assert k != T(NAMES[0]) && k != T(NAMES[1]) && k != T(NAMES[2]) && k != T(NAMES[3]);
    assert k != T(NAMES[4]) && k != T(NAMES[5]) && k != T(NAMES[6]) && k != T(NAMES[7]);
  }

  // ---- what a query and a delete do with it -------------------------------------------------------

  ghost predicate IsStored(t: DocTables, c: Text, d: Value) { exists u :: HasRow(t, c, u) && RowAt(t, c, u) == d }

  /** On a clean state a find returns a document if and only if it is a row that matches. */
  lemma FindReturnsExactlyMatches(env: Env, c: Text, t: DocTables, filter: Value, d: Value)
    requires env.Compiled() && CleanSchema(env) && Clean(env, t) && Usable(env, c) && RowsValid(env, t) && Indexed(env, t)
    ensures Find(Ir(env, c), c, t, t, filter).Ok?
    ensures d in Find(Ir(env, c), c, t, t, filter).value <==> IsStored(t, c, d) && Matches(d, filter)
  {
    FastPathRefinesScan(env, c, t, filter);
    AnswersAreMatches(t, c, filter, d);
  }

  lemma AnswersAreMatches(t: DocTables, c: Text, filter: Value, d: Value)
    ensures d in Answer(t, c, filter) <==> IsStored(t, c, d) && Matches(d, filter)
  {
    var us := SortedSeq(MatchIds(t, c, filter));
    SortedSeqFacts(MatchIds(t, c, filter));
    if d in Answer(t, c, filter) {
      var n :| 0 <= n < |us| && Answer(t, c, filter)[n] == d;
      assert us[n] in us && HasRow(t, c, us[n]) && RowAt(t, c, us[n]) == d;
    }
    if IsStored(t, c, d) && Matches(d, filter) {
      var u :| HasRow(t, c, u) && RowAt(t, c, u) == d;
      UserKeysMember(t.entries, c, u);
      MatchIsAnswered(t, c, filter, u);
    }
  }

  /** The filter `{ f: { $gte: lo, $lt: hi } }`. */
  function Between(f: Text, lo: JsonInt, hi: JsonInt): Value {
    OnField(f, Obj(map[T("$gte") := Num(lo), T("$lt") := Num(hi)]))
  }

  lemma BetweenMeans(doc: Value, f: Text, lo: JsonInt, hi: JsonInt)
    ensures Matches(doc, Between(f, lo, hi)) <==>
            Matches(doc, OnOp(f, "$gte", Num(lo))) && Matches(doc, OnOp(f, "$lt", Num(hi)))
  {
    var ops := map[T("$gte") := Num(lo), T("$lt") := Num(hi)];
    OperatorNames();
    assert NAMES[5] == "$gte" && NAMES[6] == "$lt";
    assert T(NAMES[5]) in ops && T(NAMES[6]) in ops && T(NAMES[5]) != T(NAMES[6]);
    OperatorsConjoin(doc, f, ops);
  }

  /** So a range of small numbers is answered by exactly the rows inside it. */
  lemma RangeQuery(env: Env, c: Text, t: DocTables, f: Text, lo: JsonInt, hi: JsonInt, d: Value)
    requires env.Compiled() && CleanSchema(env) && Clean(env, t) && Usable(env, c) && RowsValid(env, t) && Indexed(env, t)
    requires Small(lo) && Small(hi)
    requires d.Get(f).Some? && d.Get(f).value.Num? ==> Small(d.Get(f).value.n)
    ensures Find(Ir(env, c), c, t, t, Between(f, lo, hi)).Ok?
    ensures d in Find(Ir(env, c), c, t, t, Between(f, lo, hi)).value <==>
            IsStored(t, c, d) && d.Get(f).Some? && d.Get(f).value.Num? && lo <= d.Get(f).value.n < hi
  {
    FindReturnsExactlyMatches(env, c, t, Between(f, lo, hi), d);
    InRangeMeans(d, f, lo, hi);
  }

  lemma InRangeMeans(d: Value, f: Text, lo: JsonInt, hi: JsonInt)
    requires Small(lo) && Small(hi)
    requires d.Get(f).Some? && d.Get(f).value.Num? ==> Small(d.Get(f).value.n)
    ensures Matches(d, Between(f, lo, hi)) <==> d.Get(f).Some? && d.Get(f).value.Num? && lo <= d.Get(f).value.n < hi
  {
    BetweenMeans(d, f, lo, hi);
    if d.Get(f).Some? && d.Get(f).value.Num? {
      ComparisonsMean(d, f, d.Get(f).value.n, lo);
      ComparisonsMean(d, f, d.Get(f).value.n, hi);
    } else {
      ComparesDoubles(d, f, Num(lo));
    }
  }
}
