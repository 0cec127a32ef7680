/** What the writes do, in terms of rows, errors and announced changes. */
module WriteMeaning {
  import opened Lex
  import opened Json
  import opened Schema
  import opened Codec
  import opened Storage
  import opened Query
  import opened Collection
  import opened Invariants
  import opened FastPath
  import opened ExactIndex
  import opened UpdateAtomic
  import opened UpdateHits

  // ---- valid documents ------------------------------------------------------------------------

  /** A value of a type: a string, one of the variants, a number, a boolean, or an array of such;
      and the foreign checks accept it at every level. */
  ghost predicate IsOf(env: Env, f: FieldIr, ty: FieldType, v: Value) {
    env.constraintOk(f, ty, v) &&
    match ty
    case NumberType => v.Num?
    case BoolType => v.Bool?
    case EnumType => v.Str? && exists i :: 0 <= i < |f.variants| && f.variants[i] == v.s
    case ArrayType(inner) => v.Arr? && forall i :: 0 <= i < |v.items| ==> IsOf(env, f, inner, v.items[i])
    case _ => v.Str?
  }

  lemma {:induction false} CheckMeans(env: Env, ty: FieldType, f: FieldIr, v: Value)
    ensures CheckValue(env, ty, f, v) <==> IsOf(env, f, ty, v)
    decreases ty
  {
    if ty.ArrayType? && v.Arr? {
      forall x | x in v.items ensures CheckValue(env, ty.inner, f, x) <==> IsOf(env, f, ty.inner, x) {
        CheckMeans(env, ty.inner, f, x);
      }
      if forall i :: 0 <= i < |v.items| ==> IsOf(env, f, ty.inner, v.items[i]) {
        forall x | x in v.items ensures CheckValue(env, ty.inner, f, x) { }
      }
    }
  }

  /** A document is valid if and only if it is an object without undeclared fields in which every
      declared field holds a value of its type; it may be missing if it is optional and null if it
      is nullable. */
  lemma ValidatesMeans(env: Env, ir: CollectionIr, doc: Value)
    ensures Validates(env, ir, doc) <==>
            && doc.Obj?
            && (forall k :: k in doc.fields ==> exists f :: f in ir.fields && f.name == k)
            && forall f :: f in ir.fields ==>
                 if f.name !in doc.fields then f.optional
                 else if doc.fields[f.name] == Null then f.nullable
                 else IsOf(env, f, f.ty, doc.fields[f.name])
  {
    if doc.Obj? {
      forall f | f in ir.fields && f.name in doc.fields
        ensures CheckValue(env, f.ty, f, doc.fields[f.name]) <==> IsOf(env, f, f.ty, doc.fields[f.name])
      {
        CheckMeans(env, f.ty, f, doc.fields[f.name]);
      }
    }
  }

  // ---- insert -----------------------------------------------------------------------------------

  /** An insert that succeeds stores exactly the document under its id, leaves every other row of
      every collection, and announces that one change. */
  lemma InsertMeans(env: Env, c: Text, s: DocTx, doc: Value, c': Text, u: Text)
    requires InsertInTxSpec(env, c, s, doc).Ok? && NulFree(c')
    ensures Usable(env, c) && Validates(env, Ir(env, c), doc)
    ensures var s' := InsertInTxSpec(env, c, s, doc).value; var id := doc.Get(Ir(env, c).idField);
            && id.Some? && id.value.Str?
            && s'.touched == s.touched + [DocChange(c, ChangeOp.Insert, id.value.s)]
            && (HasRow(s'.tables, c', u) <==> HasRow(s.tables, c', u) || (c' == c && u == id.value.s))
            && (HasRow(s'.tables, c', u) ==>
                  RowAt(s'.tables, c', u) == if c' == c && u == id.value.s then doc else RowAt(s.tables, c', u))
  {
    var ir := Ir(env, c);
    var id := IdText(ir.idField, doc).value;
    RowAfterInsert(ir, c, s, doc, id, c', u);
  }

  /** An insert that fails: an undeclared collection, an invalid document or one without a string
      id is a schema error; then a NUL in the id is an invalid argument; then a taken unique value
      is a conflict; only then the collection's name is looked at. */
  lemma InsertErrors(env: Env, c: Text, s: DocTx, doc: Value)
    ensures InsertInTxSpec(env, c, s, doc) == Err(SchemaError) <==>
            c !in env.schema.collections || !Validates(env, env.schema.collections[c], doc)
            || doc.Get(env.schema.collections[c].idField).None? || !doc.Get(env.schema.collections[c].idField).value.Str?
    ensures InsertInTxSpec(env, c, s, doc) == Err(InvalidArg) <==>
            && c in env.schema.collections && Validates(env, env.schema.collections[c], doc)
            && IdText(env.schema.collections[c].idField, doc).Some?
            && (0 in IdText(env.schema.collections[c].idField, doc).value
                || (!UniqueTaken(env.schema.collections[c], c, s.tables, doc) && (c == [] || 0 in c)))
    ensures InsertInTxSpec(env, c, s, doc).Err? ==> InsertInTxSpec(env, c, s, doc).error in {SchemaError, InvalidArg, Conflict}
  {
  }

  /** Some stored document has the same value of a unique field. */
  ghost predicate SharesUnique(env: Env, t: DocTables, c: Text, doc: Value)
    requires Usable(env, c)
  {
    exists u, i :: HasRow(t, c, u) && UniqueIndex(env, c, i) && RowAt(t, c, u).Get(i.field) == doc.Get(i.field)
  }

  /** On an exact index an insert conflicts exactly with a stored document that has the same value
      of a unique field. */
  lemma ConflictExactlyWhen(env: Env, c: Text, s: DocTx, doc: Value)
    requires env.Compiled() && CleanSchema(env) && Usable(env, c) && CleanDoc(Ir(env, c), doc)
    requires RowsValid(env, s.tables) && Indexed(env, s.tables) && CleanRows(env, s.tables) && NoStale(env, s.tables)
    requires Validates(env, Ir(env, c), doc) && IdText(Ir(env, c).idField, doc).Some?
    requires NulFree(IdText(Ir(env, c).idField, doc).value)
    ensures InsertInTxSpec(env, c, s, doc) == Err(Conflict) <==> SharesUnique(env, s.tables, c, doc)
  {
    InsertSucceedsExactlyWhen(env, c, s, doc);
    NothingBlocks(env, s.tables, c, doc);
    ValueFreeMeans(env, s.tables, c, doc);
    OnlyConflictLeft(env, c, s, doc);
  }

  lemma OnlyConflictLeft(env: Env, c: Text, s: DocTx, doc: Value)
    requires Usable(env, c) && Validates(env, Ir(env, c), doc) && IdText(Ir(env, c).idField, doc).Some?
    requires NulFree(IdText(Ir(env, c).idField, doc).value)
    ensures InsertInTxSpec(env, c, s, doc).Ok? || InsertInTxSpec(env, c, s, doc) == Err(Conflict)
  {
  }

  lemma NothingBlocks(env: Env, t: DocTables, c: Text, doc: Value)
    requires Usable(env, c) && NoStale(env, t)
    ensures !StaleBlocks(env, t, c, doc)
  {
  }

  lemma ValueFreeMeans(env: Env, t: DocTables, c: Text, doc: Value)
    requires env.Compiled() && Usable(env, c) && RowsValid(env, t) && Validates(env, Ir(env, c), doc)
    ensures ValueFree(env, t, c, doc) <==> !SharesUnique(env, t, c, doc)
  {
    forall u, i | HasRow(t, c, u) && UniqueIndex(env, c, i)
      ensures ValueAt(RowAt(t, c, u), i.field) == ValueAt(doc, i.field) <==> RowAt(t, c, u).Get(i.field) == doc.Get(i.field)
    {
      assert ValidRow(env, c, u, RowAt(t, c, u));
      IndexedFieldIsScalar(env, Ir(env, c), doc, i);
      IndexedFieldIsScalar(env, Ir(env, c), RowAt(t, c, u), i);
    }
  }

  // ---- delete -----------------------------------------------------------------------------------

  function Removals(c: Text, us: seq<Text>): seq<DocChange> {
    seq(|us|, i requires 0 <= i < |us| => DocChange(c, ChangeOp.Delete, us[i]))
  }

  /** A delete on a committed clean state always succeeds: it removes exactly the rows that match,
      leaves every other row of every collection, and announces each removal once, in id order. */
  lemma DeleteMeans(env: Env, c: Text, base: DocTables, filter: Value, c': Text, u: Text)
    requires env.Compiled() && CleanSchema(env) && Clean(env, base) && Usable(env, c) && RowsValid(env, base) && Indexed(env, base)
    requires NulFree(c')
    ensures DeleteInTxSpec(env, c, TxState(base, []), base, base, filter).Ok?
    ensures var s' := DeleteInTxSpec(env, c, TxState(base, []), base, base, filter).value;
            && s'.touched == Removals(c, SortedSeq(MatchIds(base, c, filter)))
            && (HasRow(s'.tables, c', u) <==> HasRow(base, c', u) && !(c' == c && Matches(RowAt(base, c', u), filter)))
            && (HasRow(s'.tables, c', u) ==> RowAt(s'.tables, c', u) == RowAt(base, c', u))
    ensures |Find(Ir(env, c), c, base, base, filter).value| == |MatchIds(base, c, filter)|
  {
    FastPathRefinesScan(env, c, base, filter);
    SortedSeqFacts(MatchIds(base, c, filter));
    MatchesRemovable(env, c, base, filter);
    AnnouncesRemovals(env, c, TxState(base, []), base, SortedSeq(MatchIds(base, c, filter)));
    AnswerGone(env, c, base, filter, c', u);
  }

  lemma AnswerGone(env: Env, c: Text, base: DocTables, filter: Value, c': Text, u: Text)
    requires Usable(env, c) && RowsValid(env, base) && NulFree(c')
    requires DeleteVictimsSpec(Ir(env, c), c, TxState(base, []), Answer(base, c, filter)).Ok?
    ensures var t := DeleteVictimsSpec(Ir(env, c), c, TxState(base, []), Answer(base, c, filter)).value.tables;
            && (HasRow(t, c', u) <==> HasRow(base, c', u) && !(c' == c && Matches(RowAt(base, c', u), filter)))
            && (HasRow(t, c', u) ==> RowAt(t, c', u) == RowAt(base, c', u))
  {
    var victims := Answer(base, c, filter);
    if c' == c {
      VictimsAreGone(env, c, TxState(base, []), victims, u);
      AnswerHolds(env, c, base, filter, u);
    } else {
      OtherCollection(CompositeKey(c', u), c, c', u);
      VictimsLeaveOthers(Ir(env, c), c, TxState(base, []), victims, CompositeKey(c', u));
    }
  }

  /** Different rows of `base` that are stored in `t` as well. */
  ghost predicate Removable(env: Env, c: Text, t: DocTables, base: DocTables, us: seq<Text>)
    requires Usable(env, c)
  {
    && (forall v :: v in us ==> HasRow(base, c, v) && ValidRow(env, c, v, RowAt(base, c, v)) && HasRow(t, c, v))
    && (forall m, n :: 0 <= m < n < |us| ==> us[m] != us[n])
  }

  lemma MatchesRemovable(env: Env, c: Text, base: DocTables, filter: Value)
    requires Usable(env, c) && RowsValid(env, base)
    ensures Removable(env, c, base, base, SortedSeq(MatchIds(base, c, filter)))
  {
    var us := SortedSeq(MatchIds(base, c, filter));
    SortedSeqFacts(MatchIds(base, c, filter));
    forall m, n | 0 <= m < n < |us| ensures us[m] != us[n] { LessIrreflexive(us[m]); }
  }

  /** The view after the first removal. */
  function FirstRemoved(env: Env, c: Text, s: DocTx, base: DocTables, us: seq<Text>): DocTx
    requires Usable(env, c) && us != [] && HasRow(base, c, us[0])
  {
    AfterDeleteVictim(Ir(env, c), c, s, RowAt(base, c, us[0]), us[0])
  }

  lemma RemovesFirst(env: Env, c: Text, s: DocTx, base: DocTables, us: seq<Text>)
    requires Usable(env, c) && us != [] && Removable(env, c, s.tables, base, us)
    ensures var s1 := FirstRemoved(env, c, s, base, us);
            && Removable(env, c, s1.tables, base, us[1..])
            && s1.touched == s.touched + [DocChange(c, ChangeOp.Delete, us[0])]
            && DeleteVictimsSpec(Ir(env, c), c, s, DocsOf(base, c, us))
               == DeleteVictimsSpec(Ir(env, c), c, s1, DocsOf(base, c, us[1..]))
  {
    var d := RowAt(base, c, us[0]);
    assert us[0] in us && ValidRow(env, c, us[0], d);
    DocsOfCons(base, c, us);
    assert DocsOf(base, c, us)[1..] == DocsOf(base, c, us[1..]);
    forall v | v in us[1..] ensures HasRow(FirstRemoved(env, c, s, base, us).tables, c, v) {
      assert v in us && v != us[0];
      RowAfterDelete(Ir(env, c), c, s, d, us[0], c, v);
    }
  }

  lemma RemovalsCons(c: Text, us: seq<Text>)
    requires us != []
    ensures Removals(c, us) == [DocChange(c, ChangeOp.Delete, us[0])] + Removals(c, us[1..])
  {
  }

  /** The removal of stored rows announces each of them once. */
  lemma {:induction false} AnnouncesRemovals(env: Env, c: Text, s: DocTx, base: DocTables, us: seq<Text>)
    requires Usable(env, c) && Removable(env, c, s.tables, base, us)
    ensures DeleteVictimsSpec(Ir(env, c), c, s, DocsOf(base, c, us)).Ok?
    ensures DeleteVictimsSpec(Ir(env, c), c, s, DocsOf(base, c, us)).value.touched == s.touched + Removals(c, us)
    decreases |us|
  {
    if us != [] {
      RemovesFirst(env, c, s, base, us);
      AnnouncesRemovals(env, c, FirstRemoved(env, c, s, base, us), base, us[1..]);
      RemovalsCons(c, us);
    }
  }
}
