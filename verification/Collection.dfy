/** Typed operations on one collection: filters, candidate selection, insert and delete. */
module Collection {
  import opened Lex
  import opened Json
  import opened Schema
  import opened Codec
  import opened IndexEngine
  import opened Storage
  import opened Query
  import opened Database

  type DocTables = Tables<Value>
  type DocTx = TxState<Value>

  // ---- filters ------------------------------------------------------------------------

  predicate IsOperator(k: Text) { k != [] && k[0] == 36 }

  /** `$gt`, `$gte`, `$lt`, `$lte` compare the doubles of two numbers. */
  predicate CompareOp(op: Text, actual: Option<Value>, want: Value) {
    && actual.Some? && actual.value.Num? && want.Num?
    && var a, b := F64(actual.value.n), F64(want.n);
       if op == T("$gt") then a > b
       else if op == T("$gte") then a >= b
       else if op == T("$lt") then a < b
       else a <= b
  }

  predicate OpHolds(op: Text, actual: Option<Value>, want: Value) {
    if op == T("$ne") then actual != Some(want)
    else if op == T("$exists") then (if want.Bool? then want.b else true) == actual.Some?
    else if op == T("$in") then want.Arr? && actual.Some? && actual.value in want.items
    else if op == T("$nin") then want.Arr? && (actual.None? || actual.value !in want.items)
    else if op in [T("$gt"), T("$gte"), T("$lt"), T("$lte")] then CompareOp(op, actual, want)
    else false
  }

  predicate ConditionHolds(actual: Option<Value>, cond: Value) {
    if cond.Obj? && exists k :: k in cond.fields && IsOperator(k) then
      forall op :: op in cond.fields ==> OpHolds(op, actual, cond.fields[op])
    else actual == Some(cond)
  }

  predicate Matches(doc: Value, filter: Value) {
    filter.Obj? ==> forall f :: f in filter.fields ==> ConditionHolds(doc.Get(f), filter.fields[f])
  }

  function FilterDocs(docs: seq<Value>, filter: Value): seq<Value> {
    if docs == [] then []
    else (if Matches(docs[0], filter) then [docs[0]] else []) + FilterDocs(docs[1..], filter)
  }

  // ---- reads --------------------------------------------------------------------------

  function AllDocs(t: DocTables, c: Text): seq<Value> {
    var rows := Rows(t.entries, c);
    seq(|rows|, i requires 0 <= i < |rows| => rows[i].1)
  }

  /** The rows that exist among `ids`, in the order of `ids`. */
  function Fetch(m: map<Text, Value>, c: Text, ids: seq<Text>): seq<Value> {
    if ids == [] then []
    else (if CompositeKey(c, ids[0]) in m then [m[CompositeKey(c, ids[0])]] else []) + Fetch(m, c, ids[1..])
  }

  function LookupEq(t: DocTables, c: Text, field: Text, v: Value): seq<Text> {
    var e := EncodeIndexValue(v);
    RangeValues(t.index, GroupLower(c, field, e), GroupUpper(c, field, e))
  }

  /** The first index whose field the filter constrains to a non-object value. */
  function UsableIndex(indexes: seq<IndexIr>, filter: Value): (r: Option<Text>)
    requires filter.Obj?
    ensures r.Some? ==> r.value in filter.fields && !filter.fields[r.value].Obj?
                        && exists i :: i in indexes && i.field == r.value
  {
    if indexes == [] then None
    else if indexes[0].field in filter.fields && !filter.fields[indexes[0].field].Obj? then Some(indexes[0].field)
    else UsableIndex(indexes[1..], filter)
  }

  datatype Path = IdPath(id: Text) | IndexPath(field: Text) | ScanPath

  /** Which way `candidates` takes. */
  function ChoosePath(ir: CollectionIr, filter: Value): Path {
    if !filter.Obj? then ScanPath
    else if ir.idField in filter.fields && filter.fields[ir.idField].Str? then IdPath(filter.fields[ir.idField].s)
    else match UsableIndex(ir.indexes, filter)
      case Some(f) => IndexPath(f)
      case None => ScanPath
  }

  /** `candidates`. The index path looks ids up in one snapshot (`s1`) and fetches rows from a
      later one (`s2`); the other paths read once. */
  function Candidates(ir: CollectionIr, c: Text, s1: DocTables, s2: DocTables, filter: Value): Result<seq<Value>> {
    match ChoosePath(ir, filter)
    case IdPath(id) =>
      if ValidCollection(c) then Ok(Fetch(s2.entries, c, [id])) else Err(InvalidArg)
    case IndexPath(field) =>
      var ids := LookupEq(s1, c, field, filter.fields[field]);
      if ids == [] || ValidCollection(c) then Ok(Fetch(s2.entries, c, ids)) else Err(InvalidArg)
    case ScanPath =>
      if ValidCollection(c) then Ok(AllDocs(s2, c)) else Err(InvalidArg)
  }

  /** `find` over two snapshots. */
  function Find(ir: CollectionIr, c: Text, s1: DocTables, s2: DocTables, filter: Value): Result<seq<Value>> {
    match Candidates(ir, c, s1, s2, filter)
    case Err(e) => Err(e)
    case Ok(docs) => Ok(FilterDocs(docs, filter))
  }

  function FindWith(env: Env, c: Text, s1: DocTables, s2: DocTables, filter: Value, opts: QueryOptions): Result<seq<Value>> {
    if c !in env.schema.collections then Err(SchemaError) else
      var ir := env.schema.collections[c];
      match Find(ir, c, s1, s2, filter)
      case Err(e) => Err(e)
      case Ok(docs) => ApplyOptions(opts, ir, docs)
  }

  function CountWith(env: Env, c: Text, s1: DocTables, s2: DocTables, filter: Value, opts: QueryOptions): Result<nat> {
    if c !in env.schema.collections then Err(SchemaError) else
      var ir := env.schema.collections[c];
      if !SortFieldsOk(ir, opts.sort) then Err(SchemaError)
      else match Find(ir, c, s1, s2, filter)
        case Err(e) => Err(e)
        case Ok(docs) => Ok(CountPage(|docs|, opts))
  }

  /** `count_with` succeeds exactly when `find_with` does, and is the length of its result. */
  lemma CountWithIsLength(env: Env, c: Text, s1: DocTables, s2: DocTables, filter: Value, opts: QueryOptions)
    ensures CountWith(env, c, s1, s2, filter, opts).Ok? <==> FindWith(env, c, s1, s2, filter, opts).Ok?
    ensures var r := FindWith(env, c, s1, s2, filter, opts);
            r.Ok? ==> CountWith(env, c, s1, s2, filter, opts) == Ok(|r.value|)
  {
    if c in env.schema.collections {
      var ir := env.schema.collections[c];
      var found := Find(ir, c, s1, s2, filter);
      if found.Ok? { CountIsLength(opts, ir, found.value); }
    }
  }

  // ---- writes -------------------------------------------------------------------------

  /** A missing field is indexed as null. */
  function ValueAt(doc: Value, field: Text): Value {
    var v := doc.Get(field);
    if v.Some? then v.value else Null
  }

  function KeyOf(c: Text, idx: IndexIr, doc: Value, id: Text): Text {
    IndexKey(c, idx.field, EncodeIndexValue(ValueAt(doc, idx.field)), id)
  }

  /** The index keys of one row. */
  function RowKeys(ir: CollectionIr, c: Text, id: Text, doc: Value): set<Text> {
    set idx | idx in ir.indexes :: KeyOf(c, idx, doc, id)
  }

  function GroupKeys(t: DocTables, c: Text, idx: IndexIr, doc: Value): set<Text> {
    var e := EncodeIndexValue(ValueAt(doc, idx.field));
    RangeKeys(t.index, GroupLower(c, idx.field, e), GroupUpper(c, idx.field, e))
  }

  /** The unique pre-check against the transaction's own view. */
  predicate UniqueTaken(ir: CollectionIr, c: Text, t: DocTables, doc: Value) {
    exists i :: 0 <= i < |ir.indexes| && Taken(t, c, ir.indexes[i], doc)
  }

  predicate Taken(t: DocTables, c: Text, idx: IndexIr, doc: Value) {
    idx.unique && GroupKeys(t, c, idx, doc) != {}
  }

  function WithKeys(index: map<Text, Text>, keys: set<Text>, id: Text): map<Text, Text> {
    index + map k | k in keys :: id
  }

  lemma WithKeysStep(index: map<Text, Text>, keys: set<Text>, k: Text, id: Text)
    ensures WithKeys(index, keys + {k}, id) == WithKeys(index, keys, id)[k := id]
  {
  }

  function AfterInsert(ir: CollectionIr, c: Text, s: DocTx, doc: Value, id: Text): DocTx {
    var p := AfterPut(s, c, id, doc);
    p.(tables := p.tables.(index := WithKeys(s.tables.index, RowKeys(ir, c, id, doc), id)))
  }

  /** The index keys removed are those of the victim as it was read, whatever the row is now. */
  function AfterDeleteVictim(ir: CollectionIr, c: Text, s: DocTx, victim: Value, id: Text): DocTx {
    var p := AfterDelete(s, c, id);
    p.(tables := p.tables.(index := s.tables.index - RowKeys(ir, c, id, victim)))
  }

  function InsertInTxSpec(env: Env, c: Text, s: DocTx, doc: Value): Result<DocTx> {
    if c !in env.schema.collections then Err(SchemaError) else
      var ir := env.schema.collections[c];
      if !Validates(env, ir, doc) then Err(SchemaError) else
        match IdText(ir.idField, doc)
        case None => Err(SchemaError)
        case Some(id) =>
          if 0 in id then Err(InvalidArg)
          else if UniqueTaken(ir, c, s.tables, doc) then Err(Conflict)
          else if !ValidCollection(c) then Err(InvalidArg)
          else Ok(AfterInsert(ir, c, s, doc, id))
  }

  function DeleteVictimsSpec(ir: CollectionIr, c: Text, s: DocTx, victims: seq<Value>): Result<DocTx>
    decreases |victims|
  {
    if victims == [] then Ok(s) else
      match IdText(ir.idField, victims[0])
      case None => Err(SchemaError)
      case Some(id) =>
        if !ValidCollection(c) then Err(InvalidArg)
        else DeleteVictimsSpec(ir, c, AfterDeleteVictim(ir, c, s, victims[0], id), victims[1..])
  }

  /** `delete_in_tx` with the victims found in the snapshots `s1` and `s2`. */
  function DeleteInTxSpec(env: Env, c: Text, s: DocTx, s1: DocTables, s2: DocTables, filter: Value): Result<DocTx> {
    if c !in env.schema.collections then Err(SchemaError) else
      var ir := env.schema.collections[c];
      match Find(ir, c, s1, s2, filter)
      case Err(e) => Err(e)
      case Ok(victims) => DeleteVictimsSpec(ir, c, s, victims)
  }

  // ---- the operations, step by step ------------------------------------------------------

  method IndexValueExistsWriting(tx: WriteTx<Value>, c: Text, idx: IndexIr, doc: Value) returns (b: bool)
    ensures b <==> GroupKeys(tx.State().tables, c, idx, doc) != {}
  {
    var lo, hi := BuildPrefix(c, idx.field, EncodeIndexValue(ValueAt(doc, idx.field)));
    var found := IndexRangeValues(tx.indexTable, lo, hi);
    SortedSeqFacts(RangeKeys(tx.indexTable, lo, hi));
    b := found != [];
  }

  /** The unique pre-check, index by index. */
  method CheckUnique(ir: CollectionIr, c: Text, tx: WriteTx<Value>, doc: Value) returns (taken: bool)
    ensures taken <==> UniqueTaken(ir, c, tx.State().tables, doc)
  {
    for i := 0 to |ir.indexes|
      invariant forall j :: 0 <= j < i ==> !Taken(tx.State().tables, c, ir.indexes[j], doc)
    {
      var found := IndexTaken(c, tx, ir.indexes[i], doc);
      if found { return true; }
    }
    return false;
  }

  method IndexTaken(c: Text, tx: WriteTx<Value>, idx: IndexIr, doc: Value) returns (b: bool)
    ensures b == Taken(tx.State().tables, c, idx, doc)
  {
    b := false;
    if idx.unique { b := IndexValueExistsWriting(tx, c, idx, doc); }
  }

  method BuildRowKey(c: Text, idx: IndexIr, doc: Value, id: Text) returns (k: Text)
    ensures k == KeyOf(c, idx, doc, id)
  {
    k := BuildKey(c, idx.field, EncodeIndexValue(ValueAt(doc, idx.field)), id);
  }

  method PutIndexEntries(ir: CollectionIr, c: Text, tx: WriteTx<Value>, doc: Value, id: Text)
    modifies tx`indexTable
    ensures tx.indexTable == WithKeys(old(tx.indexTable), RowKeys(ir, c, id, doc), id)
  {
    ghost var base := tx.indexTable;
    ghost var done: set<Text> := {};
    for i := 0 to |ir.indexes|
      invariant done == KeysUpTo(ir, c, id, doc, i)
      invariant tx.indexTable == WithKeys(base, done, id)
    {
      var k := BuildRowKey(c, ir.indexes[i], doc, id);
      KeysStep(ir, c, id, doc, i);
      WithKeysStep(base, done, k, id);
      tx.IndexPut(k, id);
      done := done + {k};
    }
    KeysAll(ir, c, id, doc);
  }

  method DeleteIndexEntries(ir: CollectionIr, c: Text, tx: WriteTx<Value>, doc: Value, id: Text)
    modifies tx`indexTable
    ensures tx.indexTable == old(tx.indexTable) - RowKeys(ir, c, id, doc)
  {
    for i := 0 to |ir.indexes|
      invariant tx.indexTable == old(tx.indexTable) - KeysUpTo(ir, c, id, doc, i)
    {
      var k := BuildRowKey(c, ir.indexes[i], doc, id);
      KeysStep(ir, c, id, doc, i);
      tx.IndexDelete(k);
    }
    KeysAll(ir, c, id, doc);
  }

  method InsertValidatedInTx(ir: CollectionIr, c: Text, tx: WriteTx<Value>, doc: Value, id: Text) returns (r: Result<()>)
    modifies tx
    ensures r == (if UniqueTaken(ir, c, old(tx.State()).tables, doc) then Err(Conflict)
                  else if !ValidCollection(c) then Err(InvalidArg) else Ok(()))
    ensures r.Ok? ==> tx.State() == AfterInsert(ir, c, old(tx.State()), doc, id)
    ensures r.Err? ==> tx.State() == old(tx.State())
  {
    var taken := CheckUnique(ir, c, tx, doc);
    if taken { return Err(Conflict); }
    r := tx.Put(c, id, doc);
    if r.Ok? { PutIndexEntries(ir, c, tx, doc, id); }
  }

  /** The keys of the first `n` indexes. */
  ghost function KeysUpTo(ir: CollectionIr, c: Text, id: Text, doc: Value, n: nat): set<Text>
    requires n <= |ir.indexes|
  {
    set i | 0 <= i < n :: KeyOf(c, ir.indexes[i], doc, id)
  }

  lemma KeysStep(ir: CollectionIr, c: Text, id: Text, doc: Value, n: nat)
    requires n < |ir.indexes|
    ensures KeysUpTo(ir, c, id, doc, n + 1) == KeysUpTo(ir, c, id, doc, n) + {KeyOf(c, ir.indexes[n], doc, id)}
  {
  }

  lemma KeysAll(ir: CollectionIr, c: Text, id: Text, doc: Value)
    ensures KeysUpTo(ir, c, id, doc, |ir.indexes|) == RowKeys(ir, c, id, doc)
  {
    forall k | k in RowKeys(ir, c, id, doc) ensures k in KeysUpTo(ir, c, id, doc, |ir.indexes|) {
      var idx :| idx in ir.indexes && k == KeyOf(c, idx, doc, id);
      var i :| 0 <= i < |ir.indexes| && ir.indexes[i] == idx;
    }
  }

  method InsertInTx(env: Env, c: Text, tx: WriteTx<Value>, doc: Value) returns (r: Result<()>)
    modifies tx
    ensures r.Ok? <==> InsertInTxSpec(env, c, old(tx.State()), doc).Ok?
    ensures r.Ok? ==> tx.State() == InsertInTxSpec(env, c, old(tx.State()), doc).value
    ensures r.Err? ==> r.error == InsertInTxSpec(env, c, old(tx.State()), doc).error && tx.State() == old(tx.State())
  {
    if c !in env.schema.collections { return Err(SchemaError); }
    var ir := env.schema.collections[c];
    if !Validates(env, ir, doc) { return Err(SchemaError); }
    match IdText(ir.idField, doc) {
      case None => return Err(SchemaError);
      case Some(id) =>
        if 0 in id { return Err(InvalidArg); }
        r := InsertValidatedInTx(ir, c, tx, doc, id);
    }
  }

  method DeleteVictimsInTx(ir: CollectionIr, c: Text, tx: WriteTx<Value>, victims: seq<Value>) returns (r: Result<()>)
    modifies tx
    ensures r.Ok? <==> DeleteVictimsSpec(ir, c, old(tx.State()), victims).Ok?
    ensures r.Ok? ==> tx.State() == DeleteVictimsSpec(ir, c, old(tx.State()), victims).value
    ensures r.Err? ==> r.error == DeleteVictimsSpec(ir, c, old(tx.State()), victims).error
  {
    assert victims[0..] == victims;
    for n := 0 to |victims|
      invariant DeleteVictimsSpec(ir, c, old(tx.State()), victims) == DeleteVictimsSpec(ir, c, tx.State(), victims[n..])
    {
      var d := victims[n];
      assert victims[n..][0] == d && victims[n..][1..] == victims[n + 1..];
      assert victims[n..] != [];
      match IdText(ir.idField, d) {
        case None => return Err(SchemaError);
        case Some(id) =>
          ghost var before := tx.State();
          DeleteIndexEntries(ir, c, tx, d, id);
          var removed := tx.Delete(c, id);
          if removed.Err? { return Err(removed.error); }
          assert tx.State() == AfterDeleteVictim(ir, c, before, d, id);
      }
    }
    assert victims[|victims|..] == [];
    return Ok(());
  }

  /** `delete_in_tx`: the victims come from the committed state, the removal goes to `tx`. */
  method DeleteInTx(env: Env, c: Text, db: Db<Value>, tx: WriteTx<Value>, filter: Value) returns (r: Result<nat>)
    modifies tx
    ensures var spec := DeleteInTxSpec(env, c, old(tx.State()), db.committed, db.committed, filter);
            (r.Ok? <==> spec.Ok?) && (r.Ok? ==> tx.State() == spec.value) && (r.Err? ==> r.error == spec.error)
    ensures r.Ok? ==> r.value == |Find(env.schema.collections[c], c, db.committed, db.committed, filter).value|
  {
    if c !in env.schema.collections { return Err(SchemaError); }
    var ir := env.schema.collections[c];
    var victims := Find(ir, c, db.committed, db.committed, filter);
    if victims.Err? { return Err(victims.error); }
    if victims.value == [] { return Ok(0); }
    var done := DeleteVictimsInTx(ir, c, tx, victims.value);
    if done.Err? { return Err(done.error); }
    return Ok(|victims.value|);
  }

  // ---- top-level operations: one write transaction each -----------------------------------

  method Insert(env: Env, c: Text, db: Db<Value>, doc: Value) returns (r: Result<()>)
    modifies db`committed, db.notifier`delivered
    ensures var spec := InsertInTxSpec(env, c, TxState(old(db.committed), []), doc);
            && (r.Ok? <==> spec.Ok?)
            && (r.Ok? ==> db.committed == spec.value.tables
                          && db.notifier.delivered == old(db.notifier.delivered) + Announced(db.notifier.slots, spec.value.touched))
            && (r.Err? ==> r.error == spec.error && db.committed == old(db.committed))
  {
    var tx := new WriteTx(db.committed);
    r := InsertInTx(env, c, tx, doc);
    r := db.Finish(tx, r);
  }

  /** `delete`: the snapshots in which the victims were found may be older than the state the
      removal is applied to. */
  method Delete(env: Env, c: Text, db: Db<Value>, s1: DocTables, s2: DocTables, filter: Value) returns (r: Result<nat>)
    modifies db`committed, db.notifier`delivered
    ensures var spec := DeleteInTxSpec(env, c, TxState(old(db.committed), []), s1, s2, filter);
            && (r.Ok? <==> spec.Ok?)
            && (r.Ok? ==> db.committed == spec.value.tables
                          && db.notifier.delivered == old(db.notifier.delivered) + Announced(db.notifier.slots, spec.value.touched))
            && (r.Err? ==> r.error == spec.error && db.committed == old(db.committed))
    ensures r.Ok? ==> r.value == |Find(env.schema.collections[c], c, s1, s2, filter).value|
  {
    if c !in env.schema.collections { return Err(SchemaError); }
    var ir := env.schema.collections[c];
    var victims := Find(ir, c, s1, s2, filter);
    if victims.Err? { return Err(victims.error); }
    if victims.value == [] { return Ok(0); }
    var tx := new WriteTx(db.committed);
    var done := DeleteVictimsInTx(ir, c, tx, victims.value);
    done := db.Finish(tx, done);
    if done.Err? { return Err(done.error); }
    return Ok(|victims.value|);
  }
}
