/** `update(filter, patch)`: find, then delete and re-insert every match in one buffered
    transaction. */
module Update {
  import opened Lex
  import opened Json
  import opened Schema
  import opened Codec
  import opened Storage
  import opened Database
  import opened Query
  import opened Collection
  import opened Invariants
  import opened FastPath
  import opened History
  import opened ExactIndex
  import opened Transactions

  /** `None` is a key whose value is `undefined`: it disappears from the JSON text. */
  type Patch = map<Text, Option<Value>>

  function ID(): Text { T("id") }

  function FieldsOf(doc: Value): map<Text, Value> { if doc.Obj? then doc.fields else map[] }

  /** `{...doc, ...patch}`, as it is written out. */
  function Merge(doc: Value, patch: Patch): Value {
    Obj(map k | k in FieldsOf(doc).Keys + patch.Keys && (k in patch ==> patch[k].Some?)
          :: if k in patch then patch[k].value else FieldsOf(doc)[k])
  }

  /** The merged document has the patch's value in every patched field, none if that is undefined,
      and the old value everywhere else. */
  lemma MergeMeans(doc: Value, patch: Patch, f: Text)
    requires doc.Obj?
    ensures Merge(doc, patch).Obj?
    ensures Merge(doc, patch).Get(f) == if f in patch then patch[f] else doc.Get(f)
  {
  }

  /** Arrays and objects are equal to no other value under `!==`, not even to an equal one. */
  predicate ByReference(v: Option<Value>) { v.Some? && (v.value.Arr? || v.value.Obj?) }

  /** The guard refuses a patch that names `id` with anything but the matched id. */
  predicate GuardHolds(doc: Value, patch: Patch) {
    ID() in patch ==> patch[ID()] == doc.Get(ID()) && !ByReference(patch[ID()])
  }

  /** The filter `{ id: doc.id }`; an undefined id disappears and leaves the empty filter. */
  function IdFilter(doc: Value): Value {
    match doc.Get(ID())
    case Some(v) => Obj(map[ID() := v])
    case None => Obj(map[])
  }

  function OpsFor(c: Text, doc: Value, patch: Patch): seq<PendingOp> {
    [PendingDelete(c, Some(IdFilter(doc))), PendingInsert(c, Some(Merge(doc, patch)))]
  }

  /** What the loop buffers for the matches in order. */
  function UpdateOps(c: Text, docs: seq<Value>, patch: Patch): seq<PendingOp> {
    if docs == [] then [] else OpsFor(c, docs[0], patch) + UpdateOps(c, docs[1..], patch)
  }

  lemma {:induction false} UpdateOpsAppend(c: Text, docs: seq<Value>, d: Value, patch: Patch)
    ensures UpdateOps(c, docs + [d], patch) == UpdateOps(c, docs, patch) + OpsFor(c, d, patch)
  {
    if docs == [] {
      assert docs + [d] == [d];
    } else {
      assert (docs + [d])[0] == docs[0] && (docs + [d])[1..] == docs[1..] + [d];
      UpdateOpsAppend(c, docs[1..], d, patch);
    }
  }

  /** Buffers one match: its delete, then its merged insert. */
  method BufferMatch(reg: TxRegistry, h: int, c: Text, doc: Value, patch: Patch)
    requires reg.Valid() && h in reg.txStates
    modifies reg`txStates
    ensures reg.Valid() && reg.txStates == old(reg.txStates)[h := old(reg.txStates)[h] + OpsFor(c, doc, patch)]
    ensures reg.txStates - {h} == old(reg.txStates) - {h}
  {
    var merged := Merge(doc, patch);
    ghost var before := reg.txStates[h];
    var deleted := reg.TxDeleteMany(h, c, Some(IdFilter(doc)));
    var inserted := reg.TxInsert(h, c, Some(merged));
    assert reg.txStates[h] == before + OpsFor(c, doc, patch);
  }

  lemma MoreOps(c: Text, docs: seq<Value>, n: nat, patch: Patch, before: seq<PendingOp>)
    requires n < |docs|
    ensures docs[..n + 1] == docs[..n] + [docs[n]]
    ensures before + UpdateOps(c, docs[..n], patch) + OpsFor(c, docs[n], patch) == before + UpdateOps(c, docs[..n + 1], patch)
  {
    assert docs[..n + 1] == docs[..n] + [docs[n]];
    UpdateOpsAppend(c, docs[..n], docs[n], patch);
  }

  /** The loop over the matches. It stops at the first one whose id the patch would change. */
  method BufferMatches(reg: TxRegistry, h: int, c: Text, docs: seq<Value>, patch: Patch) returns (r: Result<nat>)
    requires reg.Valid() && h in reg.txStates
    modifies reg`txStates
    ensures reg.Valid() && h in reg.txStates && reg.txStates - {h} == old(reg.txStates) - {h}
    ensures r.Ok? <==> (ID() in patch ==> forall d :: d in docs ==>
                          patch[ID()] == d.Get(ID()) && (patch[ID()].Some? ==> !patch[ID()].value.Arr? && !patch[ID()].value.Obj?))
    ensures r == if r.Ok? then Ok(|docs|) else Err(SchemaError)
    ensures r.Ok? ==> reg.txStates[h] == old(reg.txStates)[h] + UpdateOps(c, docs, patch)
  {
    var count := 0;
    assert docs[..0] == [];
    while count < |docs|
      invariant count <= |docs| && reg.Valid() && h in reg.txStates
      invariant forall d :: d in docs[..count] ==> GuardHolds(d, patch)
      invariant reg.txStates - {h} == old(reg.txStates) - {h}
      invariant reg.txStates[h] == old(reg.txStates)[h] + UpdateOps(c, docs[..count], patch)
    {
      var doc := docs[count];
      assert doc in docs;
      if ID() in patch && (patch[ID()] != doc.Get(ID()) || ByReference(patch[ID()])) { return Err(SchemaError); }
      BufferMatch(reg, h, c, doc, patch);
      MoreOps(c, docs, count, patch, old(reg.txStates)[h]);
      count := count + 1;
    }
    assert docs[..count] == docs;
    return Ok(count);
  }

  /** Without options a query returns what `find` finds. */
  lemma DefaultIsFind(env: Env, c: Text, base: DocTables, filter: Value)
    ensures FindWith(env, c, base, base, filter, DEFAULT_OPTIONS)
            == if c in env.schema.collections then Find(env.schema.collections[c], c, base, base, filter) else Err(SchemaError)
  {
    if c in env.schema.collections {
      var found := Find(env.schema.collections[c], c, base, base, filter);
      if found.Ok? { DefaultIsWhole(env.schema.collections[c], found.value); }
    }
  }

  lemma DefaultIsWhole(ir: CollectionIr, docs: seq<Value>)
    ensures ApplyOptions(DEFAULT_OPTIONS, ir, docs) == Ok(docs)
  {
    WholePage(docs);
  }

  /** `applyUpdateLoop`: find the matches, then buffer a replacement of each. */
  method ApplyUpdateLoop(reg: TxRegistry, h: int, c: Text, filter: Value, patch: Patch) returns (r: Result<nat>)
    requires reg.Valid() && h in reg.txStates
    modifies reg`txStates
    ensures reg.Valid() && h in reg.txStates && reg.txStates - {h} == old(reg.txStates) - {h}
    ensures var spec := BufferSpec(reg.env, c, reg.db.committed, filter, patch);
            && (r.Ok? <==> spec.Ok?)
            && (r.Ok? ==> reg.txStates[h] == old(reg.txStates)[h] + spec.value
                          && r.value == MatchCount(reg.env, c, reg.db.committed, filter))
            && (r.Err? ==> r.error == spec.error)
  {
    var found := reg.TxFind(h, c, filter, DEFAULT_OPTIONS);
    if found.Err? { return Err(found.error); }
    DefaultIsFind(reg.env, c, reg.db.committed, filter);
    r := BufferMatches(reg, h, c, found.value, patch);
  }

  function MatchCount(env: Env, c: Text, base: DocTables, filter: Value): nat {
    if c in env.schema.collections && Find(env.schema.collections[c], c, base, base, filter).Ok? then
      |Find(env.schema.collections[c], c, base, base, filter).value|
    else 0
  }

  /** The operations an update buffers, or the error it stops with. */
  function BufferSpec(env: Env, c: Text, base: DocTables, filter: Value, patch: Patch): Result<seq<PendingOp>> {
    if c !in env.schema.collections then Err(SchemaError) else
      match Find(env.schema.collections[c], c, base, base, filter)
      case Err(e) => Err(e)
      case Ok(docs) =>
        if exists d :: d in docs && !GuardHolds(d, patch) then Err(SchemaError)
        else Ok(UpdateOps(c, docs, patch))
  }

  /** The whole update on the committed state `base`. */
  function UpdateSpec(env: Env, c: Text, base: DocTables, filter: Value, patch: Patch): Result<DocTx> {
    match BufferSpec(env, c, base, filter, patch)
    case Err(e) => Err(e)
    case Ok(ops) => Replay(env, base, TxState(base, []), ops)
  }

  /** Commits what was buffered; the count stands if that goes through. */
  method CommitBuffer(reg: TxRegistry, h: int, count: nat) returns (r: Result<nat>)
    requires reg.Valid() && h in reg.txStates
    modifies reg`txStates, reg.db`committed, reg.db.notifier`delivered
    ensures reg.Valid() && reg.txStates == old(reg.txStates) - {h}
    ensures match Replay(reg.env, old(reg.db.committed), TxState(old(reg.db.committed), []), old(reg.txStates)[h])
            case Ok(x) => r == Ok(count) && reg.db.committed == x.tables
            case Err(e) => r == Err(e) && reg.db.committed == old(reg.db.committed)
  {
    var committed := reg.CommitWriteTxn(h);
    return if committed.Ok? then Ok(count) else Err(committed.error);
  }

  /** The body of the transaction: run the loop, commit; on an error roll back. */
  method RunUpdate(reg: TxRegistry, h: int, c: Text, filter: Value, patch: Patch) returns (r: Result<nat>)
    requires reg.Valid() && h in reg.txStates && reg.txStates[h] == []
    modifies reg`txStates, reg.db`committed, reg.db.notifier`delivered
    ensures reg.Valid() && reg.txStates == old(reg.txStates) - {h}
    ensures var spec := UpdateSpec(reg.env, c, old(reg.db.committed), filter, patch);
            && (r.Ok? <==> spec.Ok?)
            && (r.Ok? ==> reg.db.committed == spec.value.tables
                          && r.value == MatchCount(reg.env, c, old(reg.db.committed), filter))
            && (r.Err? ==> r.error == spec.error && reg.db.committed == old(reg.db.committed))
  {
    ghost var spec := BufferSpec(reg.env, c, reg.db.committed, filter, patch);
    r := ApplyUpdateLoop(reg, h, c, filter, patch);
    if r.Ok? {
      assert reg.txStates[h] == spec.value;
      r := CommitBuffer(reg, h, r.value);
    }
    if r.Err? { var rolledBack := reg.RollbackWriteTxn(h); }
  }

  /** The handle of the TypeScript surface: its flag admits one transaction at a time. */
  class SchemaHandle {
    const reg: TxRegistry
    var inWriteTxn: bool

    constructor (reg: TxRegistry)
      ensures this.reg == reg && !inWriteTxn
    {
      this.reg, inWriteTxn := reg, false;
    }

    /** `transaction` with the update callback. The flag is released and the handle gone on every
        path. */
    method UpdateDocs(c: Text, filter: Value, patch: Patch) returns (r: Result<nat>)
      requires reg.Valid()
      modifies this`inWriteTxn, reg, reg.db`committed, reg.db.notifier`delivered
      ensures reg.Valid() && reg.txStates == old(reg.txStates)
      ensures inWriteTxn == old(inWriteTxn)
      ensures old(inWriteTxn) ==> r == Err(TransactionError) && reg.db.committed == old(reg.db.committed)
      ensures !old(inWriteTxn) ==>
                var spec := UpdateSpec(reg.env, c, old(reg.db.committed), filter, patch);
                && (r.Ok? <==> spec.Ok?)
                && (r.Ok? ==> reg.db.committed == spec.value.tables
                              && r.value == MatchCount(reg.env, c, old(reg.db.committed), filter))
                && (r.Err? ==> r.error == spec.error && reg.db.committed == old(reg.db.committed))
    {
      if inWriteTxn { return Err(TransactionError); }
      inWriteTxn := true;
      var h := reg.BeginWriteTxn();
      r := RunUpdate(reg, h, c, filter, patch);
      assert reg.txStates == old(reg.txStates);
      inWriteTxn := false;
    }
  }
}
