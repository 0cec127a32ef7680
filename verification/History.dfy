/** Whole runs: committed states produced by transactions of inserts and deletes, where a delete
    may resolve its victims on older snapshots. */
module History {
  import opened Lex
  import opened Json
  import opened Schema
  import opened Codec
  import opened Storage
  import opened Database
  import opened Query
  import opened Collection
  import opened Invariants
  import opened FastPath

  /** `i` and `j` name the committed states in which a delete looks its victims up: an index
      lookup in state `i`, the rows in state `j`. */
  datatype Op = InsertOp(c: Text, doc: Value) | DeleteOp(c: Text, filter: Value, i: nat, j: nat)

  type Transaction = seq<Op>

  predicate Timed(op: Op, now: nat) { op.DeleteOp? ==> op.i < now && op.j < now }

  function ApplyOp(env: Env, h: seq<DocTables>, s: DocTx, op: Op): Result<DocTx>
    requires Timed(op, |h|)
  {
    match op
    case InsertOp(c, doc) => InsertInTxSpec(env, c, s, doc)
    case DeleteOp(c, filter, i, j) => DeleteInTxSpec(env, c, s, h[i], h[j], filter)
  }

  /** The operations in order; the first error ends the transaction. */
  function ApplyOps(env: Env, h: seq<DocTables>, s: DocTx, ops: Transaction): Result<DocTx>
    requires forall op :: op in ops ==> Timed(op, |h|)
    decreases |ops|
  {
    if ops == [] then Ok(s) else
      match ApplyOp(env, h, s, ops[0])
      case Err(e) => Err(e)
      case Ok(s') => ApplyOps(env, h, s', ops[1..])
  }

  ghost predicate Commits(env: Env, h: seq<DocTables>, ops: Transaction, next: DocTx)
    requires h != []
  {
    (forall op :: op in ops ==> Timed(op, |h|)) && ApplyOps(env, h, TxState(h[|h| - 1], []), ops) == Ok(next)
  }

  /** `h` are the successive committed states and `log` the transactions between them; failed
      transactions leave no trace. */
  ghost predicate Run(env: Env, h: seq<DocTables>, log: seq<Transaction>, next: seq<DocTx>) {
    && |h| == |log| + 1 == |next| + 1
    && h[0] == EMPTY
    && forall n :: 0 <= n < |log| ==> Commits(env, h[..n + 1], log[n], next[n]) && h[n + 1] == next[n].tables
  }

  /** The transaction that produced state `n`, and the states before it. */
  lemma RunStep(env: Env, h: seq<DocTables>, log: seq<Transaction>, next: seq<DocTx>, n: nat) returns (past: seq<DocTables>)
    requires Run(env, h, log, next) && 0 < n < |h|
    ensures past == h[..n] && past != [] && past[|past| - 1] == h[n - 1]
    ensures Commits(env, past, log[n - 1], next[n - 1]) && h[n] == next[n - 1].tables
  {
    past := h[..n];
    assert h[..n - 1 + 1] == past;
  }

  /** No operation of the log stores a hidden separator. */
  ghost predicate CleanLog(env: Env, log: seq<Transaction>) {
    forall ops, op :: ops in log && op in ops ==> CleanOp(env, op)
  }

  lemma OpKeepsInv(env: Env, h: seq<DocTables>, s: DocTx, op: Op)
    requires Timed(op, |h|) && Inv(env, s.tables) && (forall t :: t in h ==> Inv(env, t))
    requires ApplyOp(env, h, s, op).Ok?
    ensures Inv(env, ApplyOp(env, h, s, op).value.tables)
  {
    match op
    case InsertOp(c, doc) => InsertKeepsInv(env, c, s, doc);
    case DeleteOp(c, filter, i, j) =>
      assert h[j] in h;
      DeleteKeepsInv(env, c, s, h[i], h[j], filter);
  }

  lemma {:induction false} OpsKeepInv(env: Env, h: seq<DocTables>, s: DocTx, ops: Transaction)
    requires (forall op :: op in ops ==> Timed(op, |h|)) && Inv(env, s.tables) && (forall t :: t in h ==> Inv(env, t))
    requires ApplyOps(env, h, s, ops).Ok?
    ensures Inv(env, ApplyOps(env, h, s, ops).value.tables)
    decreases |ops|
  {
    if ops != [] {
      assert ops[0] in ops;
      OpKeepsInv(env, h, s, ops[0]);
      assert forall op :: op in ops[1..] ==> op in ops;
      OpsKeepInv(env, h, ApplyOp(env, h, s, ops[0]).value, ops[1..]);
    }
  }

  lemma CommitKeepsInv(env: Env, h: seq<DocTables>, ops: Transaction, next: DocTx)
    requires h != [] && Commits(env, h, ops, next) && forall t :: t in h ==> Inv(env, t)
    ensures Inv(env, next.tables)
  {
    OpsKeepInv(env, h, TxState(h[|h| - 1], []), ops);
  }

  /** Every committed state of every run is consistent: valid rows, complete index entries, and
      no two documents of a collection sharing a value of a unique field. */
  lemma {:induction false} InvAlways(env: Env, h: seq<DocTables>, log: seq<Transaction>, next: seq<DocTx>, n: nat)
    requires Run(env, h, log, next) && n < |h|
    ensures forall t :: t in h[..n + 1] ==> Inv(env, t)
  {
    if n == 0 {
      EmptyInv(env);
    } else {
      InvAlways(env, h, log, next, n - 1);
      var past := RunStep(env, h, log, next, n);
      assert past == h[..n - 1 + 1];
      CommitKeepsInv(env, past, log[n - 1], next[n - 1]);
      assert h[..n + 1] == h[..n] + [h[n]];
    }
  }

  /** Every state of the past is consistent. Recursive, so that it travels as one fact. */
  ghost predicate Consistent(env: Env, past: seq<DocTables>) {
    past == [] || (Inv(env, past[|past| - 1]) && Consistent(env, past[..|past| - 1]))
  }

  lemma {:induction false} ConsistentStates(env: Env, past: seq<DocTables>)
    ensures Consistent(env, past) <==> forall t :: t in past ==> Inv(env, t)
  {
    if past != [] {
      var p, t := past[..|past| - 1], past[|past| - 1];
      ConsistentStates(env, p);
      assert past == p + [t];
    }
  }

  lemma PastConsistent(env: Env, h: seq<DocTables>, log: seq<Transaction>, next: seq<DocTx>, n: nat)
    requires Run(env, h, log, next) && n < |h|
    ensures Consistent(env, h[..n + 1])
  {
    InvAlways(env, h, log, next, n);
    ConsistentStates(env, h[..n + 1]);
  }

  lemma InvAt(env: Env, h: seq<DocTables>, log: seq<Transaction>, next: seq<DocTx>, n: nat)
    requires Run(env, h, log, next) && n < |h|
    ensures Inv(env, h[n])
  {
    InvAlways(env, h, log, next, n);
    assert h[..n + 1][n] == h[n];
  }

  lemma UniquenessAlways(env: Env, h: seq<DocTables>, log: seq<Transaction>, next: seq<DocTx>, n: nat,
                         c: Text, u: Text, u': Text, field: Text)
    requires Run(env, h, log, next) && n < |h|
    requires Usable(env, c) && HasRow(h[n], c, u) && HasRow(h[n], c, u')
    requires exists i :: i in Ir(env, c).indexes && i.unique && i.field == field
    requires ValueAt(RowAt(h[n], c, u), field) == ValueAt(RowAt(h[n], c, u'), field)
    ensures u == u'
  {
    InvAt(env, h, log, next, n);
    var i :| i in Ir(env, c).indexes && i.unique && i.field == field;
    assert UniqueIndex(env, c, i);
  }

  // ---- clean runs ------------------------------------------------------------------------

  /** Every inserted document is free of NUL in its indexed strings. */
  predicate CleanOp(env: Env, op: Op) {
    op.InsertOp? && Usable(env, op.c) ==> CleanDoc(Ir(env, op.c), op.doc)
  }

  lemma InsertKeepsClean(env: Env, c: Text, s: DocTx, doc: Value)
    requires Clean(env, s.tables) && InsertInTxSpec(env, c, s, doc).Ok? && CleanDoc(Ir(env, c), doc)
    ensures Clean(env, InsertInTxSpec(env, c, s, doc).value.tables)
  {
    var ir := Ir(env, c);
    var id := IdText(ir.idField, doc).value;
    var t := AfterInsert(ir, c, s, doc, id).tables;
    forall c', u | Usable(env, c') && HasRow(t, c', u) ensures CleanDoc(Ir(env, c'), RowAt(t, c', u)) {
      RowAfterInsert(ir, c, s, doc, id, c', u);
    }
    forall k | k in t.index
      ensures exists c', d :: WrittenFor(env, k, c', t.index[k], d) && CleanDoc(Ir(env, c'), d)
    {
      if k in RowKeys(ir, c, id, doc) {
        assert WrittenFor(env, k, c, t.index[k], doc) && CleanDoc(Ir(env, c), doc);
      } else {
        CleanOrigin(env, s.tables, k);
      }
    }
  }

  lemma DeleteVictimKeepsClean(env: Env, c: Text, s: DocTx, d: Value, id: Text)
    requires Clean(env, s.tables) && Usable(env, c)
    ensures Clean(env, AfterDeleteVictim(Ir(env, c), c, s, d, id).tables)
  {
    var t := AfterDeleteVictim(Ir(env, c), c, s, d, id).tables;
    forall c', u | Usable(env, c') && HasRow(t, c', u) ensures CleanDoc(Ir(env, c'), RowAt(t, c', u)) {
      RowAfterDelete(Ir(env, c), c, s, d, id, c', u);
    }
    forall k | k in t.index
      ensures exists c', d' :: WrittenFor(env, k, c', t.index[k], d') && CleanDoc(Ir(env, c'), d')
    {
      CleanOrigin(env, s.tables, k);
    }
  }

  lemma {:induction false} DeleteVictimsKeepClean(env: Env, c: Text, s: DocTx, victims: seq<Value>)
    requires Clean(env, s.tables) && Usable(env, c) && DeleteVictimsSpec(Ir(env, c), c, s, victims).Ok?
    ensures Clean(env, DeleteVictimsSpec(Ir(env, c), c, s, victims).value.tables)
    decreases |victims|
  {
    if victims != [] {
      var id := IdText(Ir(env, c).idField, victims[0]).value;
      DeleteVictimKeepsClean(env, c, s, victims[0], id);
      DeleteVictimsKeepClean(env, c, AfterDeleteVictim(Ir(env, c), c, s, victims[0], id), victims[1..]);
    }
  }

  lemma OpKeepsClean(env: Env, h: seq<DocTables>, s: DocTx, op: Op)
    requires Timed(op, |h|) && CleanOp(env, op) && Clean(env, s.tables) && ApplyOp(env, h, s, op).Ok?
    ensures Clean(env, ApplyOp(env, h, s, op).value.tables)
  {
    match op
    case InsertOp(c, doc) => InsertKeepsClean(env, c, s, doc);
    case DeleteOp(c, filter, i, j) =>
      var victims := Find(env.schema.collections[c], c, h[i], h[j], filter).value;
      if victims != [] { DeleteVictimsKeepClean(env, c, s, victims); }
  }

  lemma {:induction false} OpsKeepClean(env: Env, h: seq<DocTables>, s: DocTx, ops: Transaction)
    requires forall op :: op in ops ==> Timed(op, |h|) && CleanOp(env, op)
    requires Clean(env, s.tables) && ApplyOps(env, h, s, ops).Ok?
    ensures Clean(env, ApplyOps(env, h, s, ops).value.tables)
    decreases |ops|
  {
    if ops != [] {
      assert ops[0] in ops;
      OpKeepsClean(env, h, s, ops[0]);
      assert forall o :: o in ops[1..] ==> o in ops;
      OpsKeepClean(env, h, ApplyOp(env, h, s, ops[0]).value, ops[1..]);
    }
  }

  lemma CommitKeepsClean(env: Env, h: seq<DocTables>, ops: Transaction, next: DocTx)
    requires h != [] && Commits(env, h, ops, next) && forall op :: op in ops ==> CleanOp(env, op)
    requires Clean(env, h[|h| - 1])
    ensures Clean(env, next.tables)
  {
    OpsKeepClean(env, h, TxState(h[|h| - 1], []), ops);
  }

  lemma {:induction false} CleanAlways(env: Env, h: seq<DocTables>, log: seq<Transaction>, next: seq<DocTx>, n: nat)
    requires Run(env, h, log, next) && n < |h|
    requires CleanLog(env, log)
    ensures Clean(env, h[n])
  {
    if n != 0 {
      CleanAlways(env, h, log, next, n - 1);
      RunStepKeepsClean(env, h, log, next, n);
    }
  }

  lemma RunStepKeepsClean(env: Env, h: seq<DocTables>, log: seq<Transaction>, next: seq<DocTx>, n: nat)
    requires Run(env, h, log, next) && 0 < n < |h| && CleanLog(env, log) && Clean(env, h[n - 1])
    ensures Clean(env, h[n])
  {
    var past := RunStep(env, h, log, next, n);
    assert log[n - 1] in log;
    CommitKeepsClean(env, past, log[n - 1], next[n - 1]);
  }

  /** In every state of every clean run a find through any path equals the filtered scan. */
  lemma FindIsScanAlways(env: Env, h: seq<DocTables>, log: seq<Transaction>, next: seq<DocTx>, n: nat,
                         c: Text, filter: Value)
    requires env.Compiled() && CleanSchema(env)
    requires Run(env, h, log, next) && n < |h| && Usable(env, c)
    requires CleanLog(env, log)
    ensures Find(Ir(env, c), c, h[n], h[n], filter) == Ok(FilterDocs(AllDocs(h[n], c), filter))
  {
    InvAt(env, h, log, next, n);
    CleanAlways(env, h, log, next, n);
    FastPathRefinesScan(env, c, h[n], filter);
  }
}
