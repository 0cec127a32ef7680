/** Concrete runs in which the properties that fail do fail. */
module Witnesses {
  import opened Lex
  import opened Json
  import opened Schema
  import opened Codec
  import opened IndexEngine
  import opened Storage
  import opened Database
  import opened Query
  import opened Collection
  import opened Invariants
  import opened FastPath
  import opened History
  import opened ExactIndex
  import opened Transactions
  import opened Update
  import opened UpdateAtomic
  import opened UpdateRuns
  import opened UpdateHits
  import LiveMachine
  import LiveProperties
  import LiveFresh

  // ---- three small schemas ---------------------------------------------------------------------

  function IdFieldIr(name: Text): FieldIr { FieldIr(name, IdType, false, false, None, None, false, false, None, []) }

  function StringFieldIr(name: Text): FieldIr { FieldIr(name, StringType, false, false, None, None, false, false, None, []) }

  function C(): Text { T("c") }

  function KEY(): Text { T("key") }

  function V(): Text { T("v") }

  /** The id field is called `key`; there is no field `id`. */
  function KeyedIr(): CollectionIr { CollectionIr(KEY(), [IdFieldIr(KEY())], []) }

  /** The id field is called `key`; an ordinary field is called `id`. */
  function SharedIr(): CollectionIr { CollectionIr(KEY(), [IdFieldIr(KEY()), StringFieldIr(ID())], []) }

  /** The field `v` is unique. */
  function UniqueIr(): CollectionIr { CollectionIr(ID(), [IdFieldIr(ID()), StringFieldIr(V())], [IndexIr(V(), true)]) }

  /** A schema of one collection whose values meet every foreign check. */
  function EnvOf(ir: CollectionIr): Env { Env(SchemaIr(map[C() := ir]), (f, ty, v) => true) }

  function Keyed(k: Text): Value { Obj(map[KEY() := Str(k)]) }

  function Shared(k: Text, id: Text): Value { Obj(map[KEY() := Str(k), ID() := Str(id)]) }

  function Unique(id: Text, v: Text): Value { Obj(map[ID() := Str(id), V() := Str(v)]) }

  lemma Names()
    ensures KEY() != ID() && ID() != V() && T("a") != T("b") && T("x") != T("y")
    ensures ValidCollection(C()) && NulFree(T("a")) && NulFree(T("b")) && NulFree(T("x")) && NulFree(T("y")) && NulFree(V())
  {
    assert |KEY()| == 3 && |ID()| == 2 && |V()| == 1;
    assert T("a")[0] == 97 && T("b")[0] == 98 && T("x")[0] == 120 && T("y")[0] == 121;
  }

  lemma Schemas(ir: CollectionIr)
    requires ir in [KeyedIr(), SharedIr(), UniqueIr()]
    ensures EnvOf(ir).Compiled() && CleanSchema(EnvOf(ir)) && Usable(EnvOf(ir), C()) && Ir(EnvOf(ir), C()) == ir
  {
    Names();
    assert ir.fields[0] in ir.fields && ir.fields[0].name == ir.idField && ir.fields[0].ty == IdType;
    IndexesFit(ir);
    OneCollection(ir);
  }

  lemma IndexesFit(ir: CollectionIr)
    requires ir in [KeyedIr(), SharedIr(), UniqueIr()]
    ensures forall i :: i in ir.indexes ==> i == IndexIr(V(), true) && ir.Field(V()) == Some(StringFieldIr(V()))
  {
    Names();
    if ir == UniqueIr() { assert FindField(ir.fields[1..], V()) == Some(StringFieldIr(V())); }
  }

  lemma OneCollection(ir: CollectionIr)
    ensures EnvOf(ir).schema.collections.Keys == {C()} && EnvOf(ir).schema.collections[C()] == ir
  {
  }

  lemma KeyedIsValid(k: Text)
    ensures Validates(EnvOf(KeyedIr()), KeyedIr(), Keyed(k)) && IdText(KEY(), Keyed(k)) == Some(k)
  {
    assert KeyedIr().Field(KEY()) == Some(IdFieldIr(KEY()));
  }

  /** Documents of an id field and a string field. */
  lemma PairIsValid(ir: CollectionIr, f: Text, id: Text, v: Text)
    requires ir.fields == [IdFieldIr(ir.idField), StringFieldIr(f)] && f != ir.idField
    ensures var doc := Obj(map[ir.idField := Str(id), f := Str(v)]);
            Validates(EnvOf(ir), ir, doc) && IdText(ir.idField, doc) == Some(id)
  {
    assert FindField(ir.fields[1..], f) == Some(StringFieldIr(f));
  }

  lemma SharedIsValid(k: Text, id: Text)
    ensures Validates(EnvOf(SharedIr()), SharedIr(), Shared(k, id)) && IdText(KEY(), Shared(k, id)) == Some(k)
  {
    Names();
    PairIsValid(SharedIr(), ID(), k, id);
  }

  lemma UniqueIsValid(id: Text, v: Text)
    ensures Validates(EnvOf(UniqueIr()), UniqueIr(), Unique(id, v)) && IdText(ID(), Unique(id, v)) == Some(id)
  {
    Names();
    PairIsValid(UniqueIr(), V(), id, v);
  }

  // ---- two inserts, one after the other ----------------------------------------------------------

  lemma SingleCommits(env: Env, h: seq<DocTables>, op: Op, next: DocTx)
    requires h != [] && Timed(op, |h|) && ApplyOp(env, h, TxState(h[|h| - 1], []), op) == Ok(next)
    ensures Commits(env, h, [op], next)
  {
    assert [op][1..] == [];
  }

  /** One more transaction of one operation. */
  lemma RunGrows(env: Env, h: seq<DocTables>, log: seq<Transaction>, next: seq<DocTx>, op: Op, x: DocTx)
    requires Run(env, h, log, next)
    requires Timed(op, |h|) && ApplyOp(env, h, TxState(h[|h| - 1], []), op) == Ok(x)
    ensures Run(env, h + [x.tables], log + [[op]], next + [x])
  {
    var h', log', next' := h + [x.tables], log + [[op]], next + [x];
    SingleCommits(env, h, op, x);
    forall n | 0 <= n < |log'| ensures Commits(env, h'[..n + 1], log'[n], next'[n]) && h'[n + 1] == next'[n].tables {
      if n < |log| { assert h'[..n + 1] == h[..n + 1]; } else { assert h'[..n + 1] == h; }
    }
  }

  ghost predicate TwoInserts(env: Env, c: Text, d1: Value, d2: Value, x1: DocTx, x2: DocTx) {
    InsertInTxSpec(env, c, TxState(EMPTY, []), d1) == Ok(x1) && InsertInTxSpec(env, c, TxState(x1.tables, []), d2) == Ok(x2)
  }

  lemma TwoInsertsRun(env: Env, c: Text, d1: Value, d2: Value, x1: DocTx, x2: DocTx)
    requires TwoInserts(env, c, d1, d2, x1, x2)
    ensures Run(env, [EMPTY, x1.tables, x2.tables], [[InsertOp(c, d1)], [InsertOp(c, d2)]], [x1, x2])
  {
    OneInsertRuns(env, c, d1, x1);
    RunGrows(env, [EMPTY, x1.tables], [[InsertOp(c, d1)]], [x1], InsertOp(c, d2), x2);
    assert [EMPTY, x1.tables] + [x2.tables] == [EMPTY, x1.tables, x2.tables];
    assert [[InsertOp(c, d1)]] + [[InsertOp(c, d2)]] == [[InsertOp(c, d1)], [InsertOp(c, d2)]];
    assert [x1] + [x2] == [x1, x2];
  }

  lemma OneInsertRuns(env: Env, c: Text, d: Value, x: DocTx)
    requires InsertInTxSpec(env, c, TxState(EMPTY, []), d) == Ok(x)
    ensures Run(env, [EMPTY, x.tables], [[InsertOp(c, d)]], [x])
  {
    RunGrows(env, [EMPTY], [], [], InsertOp(c, d), x);
    assert [EMPTY] + [x.tables] == [EMPTY, x.tables];
    assert [] + [[InsertOp(c, d)]] == [[InsertOp(c, d)]] && [] + [x] == [x];
  }

  /** Such a run leads to a consistent and clean state if the documents are clean. */
  lemma TwoInsertsSettle(env: Env, c: Text, d1: Value, d2: Value, x1: DocTx, x2: DocTx)
    requires env.Compiled() && CleanSchema(env) && Usable(env, c) && TwoInserts(env, c, d1, d2, x1, x2)
    requires CleanDoc(Ir(env, c), d1) && CleanDoc(Ir(env, c), d2)
    ensures Settled(env, c, x1.tables) && Settled(env, c, x2.tables)
  {
    TwoInsertsRun(env, c, d1, d2, x1, x2);
    TwoInsertsClean(env, c, d1, d2);
    BothSettle(env, c, [EMPTY, x1.tables, x2.tables], [[InsertOp(c, d1)], [InsertOp(c, d2)]], [x1, x2]);
  }

  lemma TwoInsertsClean(env: Env, c: Text, d1: Value, d2: Value)
    requires CleanOp(env, InsertOp(c, d1)) && CleanOp(env, InsertOp(c, d2))
    ensures CleanLog(env, [[InsertOp(c, d1)], [InsertOp(c, d2)]])
  {
  }

  lemma BothSettle(env: Env, c: Text, h: seq<DocTables>, log: seq<Transaction>, next: seq<DocTx>)
    requires env.Compiled() && CleanSchema(env) && Usable(env, c) && Run(env, h, log, next) && CleanLog(env, log) && |h| == 3
    ensures Settled(env, c, h[1]) && Settled(env, c, h[2])
  {
    RunSettles(env, h, log, next, 1, c);
    RunSettles(env, h, log, next, 2, c);
  }

  lemma RunSettles(env: Env, h: seq<DocTables>, log: seq<Transaction>, next: seq<DocTx>, n: nat, c: Text)
    requires env.Compiled() && CleanSchema(env) && Usable(env, c) && Run(env, h, log, next) && CleanLog(env, log) && n < |h|
    ensures Settled(env, c, h[n])
  {
    InvAt(env, h, log, next, n);
    CleanAlways(env, h, log, next, n);
  }

  // ---- collections without an index accept every valid document --------------------------------------

  lemma IndexlessInsert(env: Env, c: Text, s: DocTx, d: Value, id: Text)
    requires Usable(env, c) && Ir(env, c).indexes == []
    requires Validates(env, Ir(env, c), d) && IdText(Ir(env, c).idField, d) == Some(id) && NulFree(id)
    ensures InsertInTxSpec(env, c, s, d) == Ok(AfterInsert(Ir(env, c), c, s, d, id))
  {
  }

  lemma {:induction false} DeletesGo(env: Env, c: Text, s: DocTx, victims: seq<Value>)
    requires Usable(env, c) && forall d :: d in victims ==> IdText(Ir(env, c).idField, d).Some?
    ensures DeleteVictimsSpec(Ir(env, c), c, s, victims).Ok?
    decreases |victims|
  {
    if victims != [] {
      assert victims[0] in victims;
      DeletesGo(env, c, AfterDeleteVictim(Ir(env, c), c, s, victims[0], IdText(Ir(env, c).idField, victims[0]).value), victims[1..]);
    }
  }

  lemma DeleteGoes(env: Env, c: Text, base: DocTables, s: DocTx, filter: Value) returns (s': DocTx)
    requires Usable(env, c) && Ir(env, c).indexes == [] && RowsValid(env, base)
    ensures DeleteInTxSpec(env, c, s, base, base, filter) == Ok(s')
  {
    FoundVictimsOk(env, c, base, base, filter);
    DeletesGo(env, c, s, Find(Ir(env, c), c, base, base, filter).value);
    s' := DeleteInTxSpec(env, c, s, base, base, filter).value;
  }

  lemma MatchGoes(env: Env, c: Text, base: DocTables, s: DocTx, d: Value, patch: Patch, id: Text)
    requires Usable(env, c) && Ir(env, c).indexes == [] && RowsValid(env, base)
    requires Validates(env, Ir(env, c), Merge(d, patch)) && IdText(Ir(env, c).idField, Merge(d, patch)) == Some(id) && NulFree(id)
    ensures Replay(env, base, s, OpsFor(c, d, patch)).Ok?
  {
    var s' := DeleteGoes(env, c, base, s, IdFilter(d));
    ReplayTwo(env, base, s, PendingDelete(c, Some(IdFilter(d))), PendingInsert(c, Some(Merge(d, patch))));
    IndexlessInsert(env, c, s', Merge(d, patch), id);
  }

  /** The patch that changes nothing. */
  const NO_CHANGE: Patch := map[]

  lemma MergeNothing(d: Value)
    requires d.Obj?
    ensures Merge(d, NO_CHANGE) == d
  {
    assert Merge(d, NO_CHANGE).fields == d.fields;
  }

  ghost predicate IsRow(base: DocTables, c: Text, d: Value) { exists u :: HasRow(base, c, u) && RowAt(base, c, u) == d }

  lemma RowGoes(env: Env, c: Text, base: DocTables, s: DocTx, d: Value)
    requires Usable(env, c) && Ir(env, c).indexes == [] && RowsValid(env, base) && IsRow(base, c, d)
    ensures Replay(env, base, s, OpsFor(c, d, NO_CHANGE)).Ok?
  {
    var u :| HasRow(base, c, u) && RowAt(base, c, u) == d;
    assert ValidRow(env, c, u, d);
    MergeNothing(d);
    MatchGoes(env, c, base, s, d, NO_CHANGE, u);
  }

  lemma {:induction false} MatchesGo(env: Env, c: Text, base: DocTables, s: DocTx, docs: seq<Value>)
    requires Usable(env, c) && Ir(env, c).indexes == [] && RowsValid(env, base)
    requires forall d :: d in docs ==> IsRow(base, c, d)
    ensures Replay(env, base, s, UpdateOps(c, docs, NO_CHANGE)).Ok?
    decreases |docs|
  {
    if docs != [] {
      var ops := OpsFor(c, docs[0], NO_CHANGE);
      assert docs[0] in docs;
      RowGoes(env, c, base, s, docs[0]);
      ReplayAppend(env, base, s, ops, UpdateOps(c, docs[1..], NO_CHANGE));
      MatchesGo(env, c, base, Replay(env, base, s, ops).value, docs[1..]);
    }
  }

  /** There an update that changes nothing always succeeds. */
  lemma NoChangeSucceeds(env: Env, c: Text, base: DocTables, filter: Value)
    requires Settled(env, c, base) && Ir(env, c).indexes == []
    ensures UpdateSpec(env, c, base, filter, NO_CHANGE).Ok?
  {
    FastPathRefinesScan(env, c, base, filter);
    forall d | d in Answer(base, c, filter) ensures IsRow(base, c, d) {
      FindReturnsRows(Ir(env, c), c, base, base, filter, d);
    }
    MatchesGo(env, c, base, TxState(base, []), Answer(base, c, filter));
    MatchesInOrder(base, c, filter, NO_CHANGE);
    UpdateSpecIs(env, c, base, filter, NO_CHANGE);
  }

  const EVERYTHING: Value := Obj(map[])

  /** Two rows under ids `a` and `b`. */
  lemma TwoRows(env: Env, c: Text, d1: Value, d2: Value) returns (x1: DocTx, x2: DocTx)
    requires Usable(env, c) && Ir(env, c).indexes == []
    requires Validates(env, Ir(env, c), d1) && IdText(Ir(env, c).idField, d1) == Some(T("a"))
    requires Validates(env, Ir(env, c), d2) && IdText(Ir(env, c).idField, d2) == Some(T("b"))
    ensures TwoInserts(env, c, d1, d2, x1, x2)
    ensures HasRow(x2.tables, c, T("a")) && RowAt(x2.tables, c, T("a")) == d1
    ensures HasRow(x2.tables, c, T("b")) && RowAt(x2.tables, c, T("b")) == d2
  {
    Names();
    var ir := Ir(env, c);
    x1 := AfterInsert(ir, c, TxState(EMPTY, []), d1, T("a"));
    x2 := AfterInsert(ir, c, TxState(x1.tables, []), d2, T("b"));
    IndexlessInsert(env, c, TxState(EMPTY, []), d1, T("a"));
    IndexlessInsert(env, c, TxState(x1.tables, []), d2, T("b"));
    RowAfterInsert(ir, c, TxState(EMPTY, []), d1, T("a"), c, T("a"));
    RowAfterInsert(ir, c, TxState(x1.tables, []), d2, T("b"), c, T("a"));
    RowAfterInsert(ir, c, TxState(x1.tables, []), d2, T("b"), c, T("b"));
  }

  // ---- updates that lose rows ------------------------------------------------------------------------------

  /** Two inserts and a successful update that changes no field: one of the two rows is gone. */
  lemma UpdateLosesAMatch() returns (x1: DocTx, x2: DocTx, t: DocTables)
    ensures TwoInserts(EnvOf(KeyedIr()), C(), Keyed(T("a")), Keyed(T("b")), x1, x2)
    ensures UpdateSpec(EnvOf(KeyedIr()), C(), x2.tables, EVERYTHING, NO_CHANGE).Ok?
    ensures t == UpdateSpec(EnvOf(KeyedIr()), C(), x2.tables, EVERYTHING, NO_CHANGE).value.tables
    ensures HasRow(x2.tables, C(), T("a")) && HasRow(x2.tables, C(), T("b"))
    ensures exists u :: OnlyRow(t, C(), u)
  {
    var env := EnvOf(KeyedIr());
    Schemas(KeyedIr());
    KeyedIsValid(T("a"));
    KeyedIsValid(T("b"));
    x1, x2 := TwoRows(env, C(), Keyed(T("a")), Keyed(T("b")));
    TwoInsertsSettle(env, C(), Keyed(T("a")), Keyed(T("b")), x1, x2);
    NoChangeSucceeds(env, C(), x2.tables, EVERYTHING);
    t := UpdateSpec(env, C(), x2.tables, EVERYTHING, NO_CHANGE).value.tables;
    Names();
    EverythingMatches(env, x2.tables, T("a"));
    UpdateWithoutIdWipes(env, C(), x2.tables, EVERYTHING, NO_CHANGE);
  }

  lemma EverythingMatches(env: Env, t: DocTables, u: Text)
    requires Settled(env, C(), t) && HasRow(t, C(), u)
    ensures Find(Ir(env, C()), C(), t, t, EVERYTHING).Ok? && Find(Ir(env, C()), C(), t, t, EVERYTHING).value != []
  {
    FastPathRefinesScan(env, C(), t, EVERYTHING);
    UserKeysMember(t.entries, C(), u);
    MatchIsAnswered(t, C(), EVERYTHING, u);
  }

  /** Two rows share a value of the ordinary field `id`; an update that matches only one of them and
      changes nothing removes the other. */
  lemma UpdateLosesAnUnmatchedRow() returns (x1: DocTx, x2: DocTx, t: DocTables)
    ensures TwoInserts(EnvOf(SharedIr()), C(), Shared(T("a"), T("x")), Shared(T("b"), T("x")), x1, x2)
    ensures var filter := Obj(map[KEY() := Str(T("a"))]);
            && MatchIds(x2.tables, C(), filter) == {T("a")}
            && UpdateSpec(EnvOf(SharedIr()), C(), x2.tables, filter, NO_CHANGE).Ok?
            && t == UpdateSpec(EnvOf(SharedIr()), C(), x2.tables, filter, NO_CHANGE).value.tables
    ensures HasRow(x2.tables, C(), T("b")) && t.entries != Replaced(x2.tables.entries, C(), {T("a")}, NO_CHANGE)
  {
    Names();
    Schemas(SharedIr());
    SharedIsValid(T("a"), T("x"));
    SharedIsValid(T("b"), T("x"));
    x1, x2, t := UnmatchedLost(EnvOf(SharedIr()), Shared(T("a"), T("x")), Shared(T("b"), T("x")));
  }

  lemma UnmatchedLost(env: Env, d1: Value, d2: Value) returns (x1: DocTx, x2: DocTx, t: DocTables)
    requires env.Compiled() && CleanSchema(env) && Usable(env, C()) && Ir(env, C()).indexes == [] && Ir(env, C()).idField == KEY()
    requires ValidRow(env, C(), T("a"), d1) && ValidRow(env, C(), T("b"), d2)
    requires CleanDoc(Ir(env, C()), d1) && CleanDoc(Ir(env, C()), d2)
    requires d1.Get(ID()) == d2.Get(ID()) && d1.Get(ID()).Some?
    ensures TwoInserts(env, C(), d1, d2, x1, x2)
    ensures var filter := Obj(map[KEY() := Str(T("a"))]);
            && MatchIds(x2.tables, C(), filter) == {T("a")}
            && UpdateSpec(env, C(), x2.tables, filter, NO_CHANGE).Ok?
            && t == UpdateSpec(env, C(), x2.tables, filter, NO_CHANGE).value.tables
    ensures HasRow(x2.tables, C(), T("b")) && t.entries != Replaced(x2.tables.entries, C(), {T("a")}, NO_CHANGE)
  {
    var filter := Obj(map[KEY() := Str(T("a"))]);
    Names();
    x1, x2 := TwoRows(env, C(), d1, d2);
    TwoInsertsSettle(env, C(), d1, d2, x1, x2);
    OnlyAMatches(env, x2.tables, filter);
    NoChangeSucceeds(env, C(), x2.tables, filter);
    t := UpdateSpec(env, C(), x2.tables, filter, NO_CHANGE).value.tables;
    SharedIdLoses(env, C(), x2.tables, filter, NO_CHANGE, T("a"), T("b"));
  }

  lemma SharedIdLoses(env: Env, c: Text, t: DocTables, filter: Value, patch: Patch, u: Text, v: Text)
    requires Settled(env, c, t) && UpdateSpec(env, c, t, filter, patch).Ok? && MatchIds(t, c, filter) == {u}
    requires HasRow(t, c, v) && v != u
    requires RowAt(t, c, v).Get(ID()) == RowAt(t, c, u).Get(ID()) && RowAt(t, c, u).Get(ID()).Some?
    ensures UpdateSpec(env, c, t, filter, patch).value.tables.entries != Replaced(t.entries, c, {u}, patch)
  {
    assert u in MatchIds(t, c, filter) && !OwnId(t, c, u);
    UpdateWithIdReplacesExactlyWhen(env, c, t, filter, patch);
  }

  lemma OnlyAMatches(env: Env, t: DocTables, filter: Value)
    requires Usable(env, C()) && RowsValid(env, t) && Ir(env, C()).idField == KEY()
    requires filter == Obj(map[KEY() := Str(T("a"))]) && HasRow(t, C(), T("a"))
    ensures MatchIds(t, C(), filter) == {T("a")}
  {
    UserKeysMember(t.entries, C(), T("a"));
    assert ValidRow(env, C(), T("a"), RowAt(t, C(), T("a")));
    assert Matches(RowAt(t, C(), T("a")), filter);
    forall u | u in MatchIds(t, C(), filter) ensures u == T("a") {
      assert ValidRow(env, C(), u, RowAt(t, C(), u));
      assert ConditionHolds(RowAt(t, C(), u).Get(KEY()), filter.fields[KEY()]);
    }
  }

  // ---- a stale key ------------------------------------------------------------------------------------------

  /** From the empty database, an insert over an existing id leaves a stale key, which then refuses
      a valid document whose unique value no stored document has. */
  lemma OverwriteLeavesStaleKey() returns (x1: DocTx, x2: DocTx)
    ensures var env := EnvOf(UniqueIr()); var bx := Unique(T("b"), T("x"));
            && TwoInserts(env, C(), Unique(T("a"), T("x")), Unique(T("a"), T("y")), x1, x2)
            && Usable(env, C()) && !NoStale(env, x2.tables) && ValueFree(env, x2.tables, C(), bx)
            && Validates(env, UniqueIr(), bx) && InsertInTxSpec(env, C(), TxState(x2.tables, []), bx).Err?
  {
    var env, a, b, x, y := EnvOf(UniqueIr()), T("a"), T("b"), T("x"), T("y");
    Names();
    Schemas(UniqueIr());
    UniqueIsValid(a, x);
    UniqueIsValid(a, y);
    UniqueIsValid(b, x);
    UniqueIsClean(a, x);
    UniqueIsClean(a, y);
    UniqueValues(env, a, b, x, y);
    x1, x2 := OverwriteBlocks(env, C(), Unique(a, x), Unique(a, y), Unique(b, x), a, IndexIr(V(), true));
  }

  /** The same of any two documents with one id and a document that shares a unique value with the
      first of them only. */
  lemma OverwriteBlocks(env: Env, c: Text, d: Value, e: Value, f: Value, id: Text, i: IndexIr) returns (x1: DocTx, x2: DocTx)
    requires env.Compiled() && CleanSchema(env) && Usable(env, c) && Ir(env, c).indexes == [i] && i.unique
    requires ValidRow(env, c, id, d) && ValidRow(env, c, id, e) && CleanDoc(Ir(env, c), d) && CleanDoc(Ir(env, c), e)
    requires Validates(env, Ir(env, c), f) && DiffersIn(env, c, d, e) && DiffersIn(env, c, e, f)
    requires ValueAt(f, i.field) == ValueAt(d, i.field)
    ensures TwoInserts(env, c, d, e, x1, x2)
    ensures !NoStale(env, x2.tables) && ValueFree(env, x2.tables, c, f) && InsertInTxSpec(env, c, TxState(x2.tables, []), f).Err?
  {
    x1 := FirstRow(env, c, d, id);
    x2 := Overwrite(env, c, x1, d, e, id);
    OldValueBlocked(env, c, x1, d, e, f, id, i);
    NowFree(env, c, x1, e, f, id);
  }

  lemma OnlyIndex(env: Env, c: Text, i: IndexIr)
    requires Usable(env, c) && Ir(env, c).indexes == [i] && i.unique
    ensures UniqueIndex(env, c, i) && forall j :: j in Ir(env, c).indexes ==> j == i
  {
  }

  lemma OldValueBlocked(env: Env, c: Text, x1: DocTx, d: Value, e: Value, f: Value, id: Text, i: IndexIr)
    requires env.Compiled() && CleanSchema(env) && Usable(env, c) && Ir(env, c).indexes == [i] && i.unique
    requires Inv(env, x1.tables) && HasRow(x1.tables, c, id) && RowAt(x1.tables, c, id) == d
    requires ValidRow(env, c, id, e) && Validates(env, Ir(env, c), f)
    requires ValueAt(d, i.field) != ValueAt(e, i.field) && ValueAt(f, i.field) == ValueAt(d, i.field)
    ensures var t := AfterInsert(Ir(env, c), c, TxState(x1.tables, []), e, id).tables;
            !NoStale(env, t) && InsertInTxSpec(env, c, TxState(t, []), f).Err?
  {
    OnlyIndex(env, c, i);
    OverwrittenValueStaysTaken(env, c, TxState(x1.tables, []), e, f, id, i);
  }

  lemma UniqueIsClean(id: Text, v: Text)
    requires NulFree(v)
    ensures CleanDoc(UniqueIr(), Unique(id, v))
  {
    Names();
  }

  lemma UniqueValues(env: Env, a: Text, b: Text, x: Text, y: Text)
    requires Usable(env, C()) && Ir(env, C()) == UniqueIr() && x != y
    ensures DiffersIn(env, C(), Unique(a, x), Unique(a, y)) && DiffersIn(env, C(), Unique(a, y), Unique(b, x))
    ensures ValueAt(Unique(b, x), V()) == ValueAt(Unique(a, x), V()) == Str(x)
  {
    Names();
  }

  /** The two documents share no unique value. */
  ghost predicate DiffersIn(env: Env, c: Text, d: Value, e: Value)
    requires Usable(env, c)
  {
    forall i :: UniqueIndex(env, c, i) ==> ValueAt(d, i.field) != ValueAt(e, i.field)
  }

  lemma FirstRow(env: Env, c: Text, d: Value, id: Text) returns (x1: DocTx)
    requires Usable(env, c) && ValidRow(env, c, id, d) && CleanDoc(Ir(env, c), d)
    ensures InsertInTxSpec(env, c, TxState(EMPTY, []), d) == Ok(x1)
    ensures Exact(env, x1.tables) && Clean(env, x1.tables) && OnlyRow(x1.tables, c, id) && RowAt(x1.tables, c, id) == d
  {
    var s := TxState(EMPTY, []);
    EmptyInv(env);
    forall i ensures GroupKeys(EMPTY, c, i, d) == {} { }
    x1 := AfterInsert(Ir(env, c), c, s, d, id);
    InsertKeepsInv(env, c, s, d);
    InsertLeavesNoStale(env, c, s, d, id);
    InsertKeepsClean(env, c, s, d);
    OnlyInserted(Ir(env, c), c, s, d, id);
    RowAfterInsert(Ir(env, c), c, s, d, id, c, id);
  }

  lemma Overwrite(env: Env, c: Text, x1: DocTx, d: Value, e: Value, id: Text) returns (x2: DocTx)
    requires env.Compiled() && CleanSchema(env) && Usable(env, c) && Exact(env, x1.tables) && Clean(env, x1.tables)
    requires OnlyRow(x1.tables, c, id) && RowAt(x1.tables, c, id) == d
    requires ValidRow(env, c, id, e) && CleanDoc(Ir(env, c), e) && DiffersIn(env, c, d, e)
    ensures InsertInTxSpec(env, c, TxState(x1.tables, []), e) == Ok(x2)
    ensures x2 == AfterInsert(Ir(env, c), c, TxState(x1.tables, []), e, id)
  {
    ExactBlocksNothing(env, x1.tables, c, e);
    InsertSucceedsExactlyWhen(env, c, TxState(x1.tables, []), e);
    x2 := AfterInsert(Ir(env, c), c, TxState(x1.tables, []), e, id);
  }

  lemma NowFree(env: Env, c: Text, x1: DocTx, e: Value, f: Value, id: Text)
    requires Usable(env, c) && OnlyRow(x1.tables, c, id) && DiffersIn(env, c, e, f)
    ensures ValueFree(env, AfterInsert(Ir(env, c), c, TxState(x1.tables, []), e, id).tables, c, f)
  {
    var t := AfterInsert(Ir(env, c), c, TxState(x1.tables, []), e, id).tables;
    forall u, i | HasRow(t, c, u) && UniqueIndex(env, c, i) ensures ValueAt(RowAt(t, c, u), i.field) != ValueAt(f, i.field) {
      RowAfterInsert(Ir(env, c), c, TxState(x1.tables, []), e, id, c, u);
    }
  }

  // ---- a subscription caught in the gap ----------------------------------------------------------------------

  /** A registration, one insert and two snapshots that differ: what the subscriber was given and
      what a query gives at rest. */
  lemma GapShowsOldSnapshot() returns (h: seq<DocTables>, log: seq<Transaction>, next: seq<DocTx>,
                                       run: seq<LiveMachine.State>, steps: seq<LiveMachine.Step>)
    ensures Run(EnvOf(KeyedIr()), h, log, next) && LiveProperties.Behaviour(run, steps)
    ensures var s := run[|run| - 1];
            && LiveFresh.Joined(s, h, next) && LiveProperties.Quiescent(s)
            && 0 in s.subs && 0 !in s.closed && 0 in s.records && |h| == 2
            && LiveFresh.LastRead(s.records[0]) == LiveMachine.Read(0, 0)
            && LiveFresh.Envelope(EnvOf(KeyedIr()), h, s.subs[0], LiveMachine.Read(0, 0)) == Ok([])
            && LiveFresh.Envelope(EnvOf(KeyedIr()), h, s.subs[0], LiveMachine.Read(1, 1)) == Ok([Keyed(T("a"))])
  {
    Names();
    Schemas(KeyedIr());
    KeyedIsValid(T("a"));
    h, log, next, run, steps := GapHides(EnvOf(KeyedIr()), C(), Keyed(T("a")), T("a"));
  }

  lemma GapHides(env: Env, c: Text, d: Value, id: Text)
    returns (h: seq<DocTables>, log: seq<Transaction>, next: seq<DocTx>, run: seq<LiveMachine.State>, steps: seq<LiveMachine.Step>)
    requires Usable(env, c) && ValidRow(env, c, id, d) && CleanDoc(Ir(env, c), d)
    ensures Run(env, h, log, next) && LiveProperties.Behaviour(run, steps)
    ensures var s := run[|run| - 1];
            && LiveFresh.Joined(s, h, next) && LiveProperties.Quiescent(s)
            && 0 in s.subs && 0 !in s.closed && 0 in s.records && |h| == 2
            && LiveFresh.LastRead(s.records[0]) == LiveMachine.Read(0, 0)
            && LiveFresh.Envelope(env, h, s.subs[0], LiveMachine.Read(0, 0)) == Ok([])
            && LiveFresh.Envelope(env, h, s.subs[0], LiveMachine.Read(1, 1)) == Ok([d])
  {
    var x := FirstRow(env, c, d, id);
    h, log, next := FirstRun(env, c, d, x);
    TouchedByInsert(env, c, d, x, id);
    run, steps := LiveProperties.GapIsMissed(c, EVERYTHING, DEFAULT_OPTIONS);
    ScanOf(env, c, EMPTY, []);
    ScanOf(env, c, x.tables, [id]);
  }

  lemma FirstRun(env: Env, c: Text, d: Value, x: DocTx) returns (h: seq<DocTables>, log: seq<Transaction>, next: seq<DocTx>)
    requires InsertInTxSpec(env, c, TxState(EMPTY, []), d) == Ok(x)
    ensures Run(env, h, log, next) && h == [EMPTY, x.tables] && next == [x]
  {
    h, log, next := [EMPTY, x.tables], [[InsertOp(c, d)]], [x];
    OneInsertRuns(env, c, d, x);
  }

  lemma TouchedByInsert(env: Env, c: Text, d: Value, x: DocTx, id: Text)
    requires InsertInTxSpec(env, c, TxState(EMPTY, []), d) == Ok(x) && Usable(env, c) && IdText(Ir(env, c).idField, d) == Some(id)
    ensures TouchedCollections(x.touched) == {c}
  {
    assert x.touched == [DocChange(c, ChangeOp.Insert, id)];
  }

  /** The unfiltered query returns the rows of the collection, here at most one. */
  lemma ScanOf(env: Env, c: Text, t: DocTables, ids: seq<Text>)
    requires |ids| <= 1 && (forall u :: HasRow(t, c, u) <==> u in ids) && Usable(env, c)
    ensures FindWith(env, c, t, t, EVERYTHING, DEFAULT_OPTIONS) == Ok(if ids == [] then [] else [RowAt(t, c, ids[0])])
  {
    DefaultIsFind(env, c, t, EVERYTHING);
    UnfilteredIsAnswer(Ir(env, c), c, t);
    AnswerOf(t, c, ids);
  }

  lemma UnfilteredIsAnswer(ir: CollectionIr, c: Text, t: DocTables)
    requires ValidCollection(c)
    ensures Find(ir, c, t, t, EVERYTHING) == Ok(Answer(t, c, EVERYTHING))
  {
    NoIndexForEmpty(ir.indexes);
    ScanIsAnswer(t, c, EVERYTHING);
  }

  lemma AnswerOf(t: DocTables, c: Text, ids: seq<Text>)
    requires |ids| <= 1 && forall u :: HasRow(t, c, u) <==> u in ids
    ensures Answer(t, c, EVERYTHING) == if ids == [] then [] else [RowAt(t, c, ids[0])]
  {
    FoundAre(t, c, ids);
    if ids != [] { SortedSingle(ids[0]); }
  }

  lemma FoundAre(t: DocTables, c: Text, ids: seq<Text>)
    requires |ids| <= 1 && forall u :: HasRow(t, c, u) <==> u in ids
    ensures MatchIds(t, c, EVERYTHING) == if ids == [] then {} else {ids[0]}
  {
    forall u ensures u in MatchIds(t, c, EVERYTHING) <==> u in ids { UserKeysMember(t.entries, c, u); }
  }

}
