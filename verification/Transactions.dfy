/** Buffered write transactions: operations are queued under a handle and replayed, in order,
    inside one write transaction when the handle commits. */
module Transactions {
  import opened Lex
  import opened Json
  import opened Schema
  import opened Storage
  import opened Database
  import opened Query
  import opened Collection
  import opened History

  /** A buffered call. The JSON text is decoded at replay; `None` stands for malformed text. */
  datatype PendingOp =
    | PendingInsert(collection: Text, doc: Option<Value>)
    | PendingDelete(collection: Text, filter: Option<Value>)

  /** Deletes find their victims in the committed state `base`; inserts see the view `s`. */
  function ReplayOp(env: Env, base: DocTables, s: DocTx, op: PendingOp): Result<DocTx> {
    match op
    case PendingInsert(c, None) => Err(SchemaError)
    case PendingInsert(c, Some(doc)) => InsertInTxSpec(env, c, s, doc)
    case PendingDelete(c, None) => Err(SchemaError)
    case PendingDelete(c, Some(filter)) => DeleteInTxSpec(env, c, s, base, base, filter)
  }

  function Replay(env: Env, base: DocTables, s: DocTx, ops: seq<PendingOp>): Result<DocTx>
    decreases |ops|
  {
    if ops == [] then Ok(s) else
      match ReplayOp(env, base, s, ops[0])
      case Err(e) => Err(e)
      case Ok(s') => Replay(env, base, s', ops[1..])
  }

  predicate Decoded(op: PendingOp) {
    match op case PendingInsert(_, d) => d.Some? case PendingDelete(_, f) => f.Some?
  }

  /** The same operation as a step of a run, its victims looked up in the latest state. */
  function AsRunOp(op: PendingOp, latest: nat): Op
    requires Decoded(op)
  {
    match op
    case PendingInsert(c, d) => InsertOp(c, d.value)
    case PendingDelete(c, f) => DeleteOp(c, f.value, latest, latest)
  }

  function AsRunOps(ops: seq<PendingOp>, latest: nat): Transaction
    requires forall op :: op in ops ==> Decoded(op)
  {
    if ops == [] then [] else
      assert ops[0] in ops;
      [AsRunOp(ops[0], latest)] + AsRunOps(ops[1..], latest)
  }

  lemma ReplayOpIsStep(env: Env, h: seq<DocTables>, s: DocTx, op: PendingOp)
    requires h != [] && ReplayOp(env, h[|h| - 1], s, op).Ok?
    ensures Decoded(op) && Timed(AsRunOp(op, |h| - 1), |h|)
    ensures ApplyOp(env, h, s, AsRunOp(op, |h| - 1)) == ReplayOp(env, h[|h| - 1], s, op)
  {
  }

  lemma {:induction false} ReplayedAreDecoded(env: Env, base: DocTables, s: DocTx, ops: seq<PendingOp>)
    requires Replay(env, base, s, ops).Ok?
    ensures forall op :: op in ops ==> Decoded(op)
    decreases |ops|
  {
    if ops != [] {
      assert ops == [ops[0]] + ops[1..];
      ReplayedAreDecoded(env, base, ReplayOp(env, base, s, ops[0]).value, ops[1..]);
    }
  }

  /** A committed replay is a transaction of a run, so everything proved of runs covers it. */
  lemma {:induction false} ReplayIsTransaction(env: Env, h: seq<DocTables>, s: DocTx, ops: seq<PendingOp>)
    requires h != [] && Replay(env, h[|h| - 1], s, ops).Ok?
    ensures forall op :: op in ops ==> Decoded(op)
    ensures forall op :: op in AsRunOps(ops, |h| - 1) ==> Timed(op, |h|)
    ensures ApplyOps(env, h, s, AsRunOps(ops, |h| - 1)) == Replay(env, h[|h| - 1], s, ops)
    decreases |ops|
  {
    ReplayedAreDecoded(env, h[|h| - 1], s, ops);
    if ops != [] {
      ReplayOpIsStep(env, h, s, ops[0]);
      var s' := ReplayOp(env, h[|h| - 1], s, ops[0]).value;
      ReplayIsTransaction(env, h, s', ops[1..]);
      FirstStep(env, h, s, AsRunOp(ops[0], |h| - 1), AsRunOps(ops[1..], |h| - 1), s');
    }
  }

  lemma FirstStep(env: Env, h: seq<DocTables>, s: DocTx, op: Op, rest: Transaction, s': DocTx)
    requires Timed(op, |h|) && (forall o :: o in rest ==> Timed(o, |h|)) && ApplyOp(env, h, s, op) == Ok(s')
    ensures ApplyOps(env, h, s, [op] + rest) == ApplyOps(env, h, s', rest)
  {
    assert ([op] + rest)[1..] == rest;
  }

  lemma {:induction false} ReplayAppend(env: Env, base: DocTables, s: DocTx, a: seq<PendingOp>, b: seq<PendingOp>)
    ensures Replay(env, base, s, a + b) ==
            match Replay(env, base, s, a) case Err(e) => Err(e) case Ok(s') => Replay(env, base, s', b)
    decreases |a|
  {
    if a == [] {
      assert a + b == b;
    } else {
      assert (a + b)[0] == a[0] && (a + b)[1..] == a[1..] + b;
      match ReplayOp(env, base, s, a[0]) {
        case Err(_) =>
        case Ok(s') => ReplayAppend(env, base, s', a[1..], b);
      }
    }
  }

  /** The table of open transactions. */
  class TxRegistry {
    const env: Env
    const db: Db<Value>
    var txStates: map<int, seq<PendingOp>>
    var nextTxId: int

    /** Handles are never reused: every open one was minted before the next. */
    ghost predicate Valid()
      reads this
    {
      1 <= nextTxId && forall h :: h in txStates ==> 1 <= h < nextTxId
    }

    constructor (env: Env, db: Db<Value>)
      ensures Valid() && this.env == env && this.db == db && txStates == map[]
    {
      this.env, this.db, txStates, nextTxId := env, db, map[], 1;
    }

    method BeginWriteTxn() returns (h: int)
      requires Valid()
      modifies this
      ensures Valid() && h == old(nextTxId) && h !in old(txStates)
      ensures txStates == old(txStates)[h := []] && nextTxId == old(nextTxId) + 1
    {
      h := nextTxId;
      nextTxId := nextTxId + 1;
      txStates := txStates[h := []];
    }

    /** Buffers one operation; nothing is validated or written yet. */
    method Buffer(h: int, op: PendingOp) returns (r: Result<()>)
      requires Valid()
      modifies this`txStates
      ensures Valid()
      ensures h !in old(txStates) ==> r == Err(TransactionError) && txStates == old(txStates)
      ensures h in old(txStates) ==> r == Ok(()) && txStates == old(txStates)[h := old(txStates)[h] + [op]]
    {
      if h !in txStates { return Err(TransactionError); }
      txStates := txStates[h := txStates[h] + [op]];
      return Ok(());
    }

    method TxInsert(h: int, c: Text, doc: Option<Value>) returns (r: Result<()>)
      requires Valid()
      modifies this`txStates
      ensures Valid()
      ensures h !in old(txStates) ==> r == Err(TransactionError) && txStates == old(txStates)
      ensures h in old(txStates) ==> r == Ok(()) && txStates == old(txStates)[h := old(txStates)[h] + [PendingInsert(c, doc)]]
    {
      r := Buffer(h, PendingInsert(c, doc));
    }

    /** Always answers zero: the count is only known at replay. */
    method TxDeleteMany(h: int, c: Text, filter: Option<Value>) returns (r: Result<nat>)
      requires Valid()
      modifies this`txStates
      ensures Valid()
      ensures h !in old(txStates) ==> r == Err(TransactionError) && txStates == old(txStates)
      ensures h in old(txStates) ==> r == Ok(0) && txStates == old(txStates)[h := old(txStates)[h] + [PendingDelete(c, filter)]]
    {
      var b := Buffer(h, PendingDelete(c, filter));
      if b.Err? { return Err(b.error); }
      return Ok(0);
    }

    /** Reads inside a transaction see the committed state, not the buffer. */
    method TxFind(h: int, c: Text, filter: Value, opts: QueryOptions) returns (r: Result<seq<Value>>)
      ensures r == if h in txStates then FindWith(env, c, db.committed, db.committed, filter, opts) else Err(TransactionError)
      ensures h in txStates && c !in env.schema.collections ==> r == Err(SchemaError)
    {
      if h !in txStates { return Err(TransactionError); }
      if c !in env.schema.collections { return Err(SchemaError); }
      var found := Find(env.schema.collections[c], c, db.committed, db.committed, filter);
      if found.Err? { return found; }
      r := Apply(opts, env.schema.collections[c], found.value);
    }

    /** Replays the buffer in one write transaction. The handle is consumed in every case; an
        error in any operation leaves the committed tables as they were. */
    method CommitWriteTxn(h: int) returns (r: Result<()>)
      requires Valid()
      modifies this`txStates, db`committed, db.notifier`delivered
      ensures Valid() && txStates == old(txStates) - {h}
      ensures h !in old(txStates) ==>
                r == Err(TransactionError) && db.committed == old(db.committed) && db.notifier.delivered == old(db.notifier.delivered)
      ensures h in old(txStates) ==>
                var spec := Replay(env, old(db.committed), TxState(old(db.committed), []), old(txStates)[h]);
                && (r.Ok? <==> spec.Ok?)
                && (r.Ok? ==> db.committed == spec.value.tables
                              && db.notifier.delivered == old(db.notifier.delivered) + Announced(db.notifier.slots, spec.value.touched))
                && (r.Err? ==> r.error == spec.error && db.committed == old(db.committed)
                               && db.notifier.delivered == old(db.notifier.delivered))
    {
      if h !in txStates { return Err(TransactionError); }
      var ops := txStates[h];
      txStates := txStates - {h};
      var tx := new WriteTx(db.committed);
      r := ReplayOps(tx, ops);
      r := db.Finish(tx, r);
    }

    method ReplayOps(tx: WriteTx<Value>, ops: seq<PendingOp>) returns (r: Result<()>)
      modifies tx
      ensures var spec := Replay(env, db.committed, old(tx.State()), ops);
              (r.Ok? <==> spec.Ok?) && (r.Ok? ==> tx.State() == spec.value) && (r.Err? ==> r.error == spec.error)
    {
      assert ops[0..] == ops;
      for n := 0 to |ops|
        invariant Replay(env, db.committed, old(tx.State()), ops) == Replay(env, db.committed, tx.State(), ops[n..])
      {
        assert ops[n..] != [] && ops[n..][0] == ops[n] && ops[n..][1..] == ops[n + 1..];
        r := ReplayOne(tx, ops[n]);
        if r.Err? { return; }
      }
      assert ops[|ops|..] == [];
      return Ok(());
    }

    method ReplayOne(tx: WriteTx<Value>, op: PendingOp) returns (r: Result<()>)
      modifies tx
      ensures var spec := ReplayOp(env, db.committed, old(tx.State()), op);
              (r.Ok? <==> spec.Ok?) && (r.Ok? ==> tx.State() == spec.value) && (r.Err? ==> r.error == spec.error)
    {
      match op {
        case PendingInsert(c, doc) =>
          if doc.None? { return Err(SchemaError); }
          r := InsertInTx(env, c, tx, doc.value);
        case PendingDelete(c, filter) =>
          if filter.None? { return Err(SchemaError); }
          var n := DeleteInTx(env, c, db, tx, filter.value);
          r := if n.Ok? then Ok(()) else Err(n.error);
      }
    }

    /** Discards the buffer without writing. */
    method RollbackWriteTxn(h: int) returns (r: Result<()>)
      requires Valid()
      modifies this`txStates
      ensures Valid() && txStates == old(txStates) - {h}
      ensures r == if h in old(txStates) then Ok(()) else Err(TransactionError)
    {
      if h !in txStates { return Err(TransactionError); }
      txStates := txStates - {h};
      return Ok(());
    }
  }
}
