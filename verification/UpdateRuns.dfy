/** Updates inside runs: what is proved of one committed state holds in every state of a run, and
    an update is a transaction that leaves an exact index exact. */
module UpdateRuns {
  import opened Lex
  import opened Json
  import opened Schema
  import opened Storage
  import opened Query
  import opened Collection
  import opened Invariants
  import opened FastPath
  import opened History
  import opened ExactIndex
  import opened Transactions
  import opened Update
  import opened UpdateAtomic

  /** A successful update, under any id field, leaves a consistent state. */
  lemma UpdateKeepsInv(env: Env, c: Text, base: DocTables, filter: Value, patch: Patch)
    requires Inv(env, base) && UpdateSpec(env, c, base, filter, patch).Ok?
    ensures Inv(env, UpdateSpec(env, c, base, filter, patch).value.tables)
  {
    var ops := BufferSpec(env, c, base, filter, patch).value;
    ReplayIsTransaction(env, [base], TxState(base, []), ops);
    OpsKeepInv(env, [base], TxState(base, []), AsRunOps(ops, 0));
  }

  /** Every state of a clean run meets the assumptions on an update, so there a successful update
      is a map-replace, whatever was overwritten before. */
  lemma UpdateInEveryRun(env: Env, h: seq<DocTables>, log: seq<Transaction>, next: seq<DocTx>, n: nat,
                         c: Text, filter: Value, patch: Patch)
    requires env.Compiled() && CleanSchema(env) && Usable(env, c) && Ir(env, c).idField == ID()
    requires Run(env, h, log, next) && n < |h| && CleanLog(env, log)
    ensures Updatable(env, c, h[n])
    ensures UpdateSpec(env, c, h[n], filter, patch).Ok? ==>
              UpdateSpec(env, c, h[n], filter, patch).value.tables.entries
              == Replaced(h[n].entries, c, MatchIds(h[n], c, filter), patch)
  {
    InvAt(env, h, log, next, n);
    CleanAlways(env, h, log, next, n);
    if UpdateSpec(env, c, h[n], filter, patch).Ok? { UpdateIsMapReplace(env, c, h[n], filter, patch); }
  }

  // ---- an update is a fresh transaction ------------------------------------------------------

  lemma {:induction false} UpdateOpsDecoded(c: Text, docs: seq<Value>, patch: Patch)
    ensures forall op :: op in UpdateOps(c, docs, patch) ==> Decoded(op)
  {
    if docs != [] { UpdateOpsDecoded(c, docs[1..], patch); }
  }

  /** The transaction that replays an update of `docs`. */
  function UpdateTransaction(c: Text, docs: seq<Value>, patch: Patch, latest: nat): Transaction {
    UpdateOpsDecoded(c, docs, patch);
    AsRunOps(UpdateOps(c, docs, patch), latest)
  }

  lemma TransactionStep(c: Text, docs: seq<Value>, patch: Patch, latest: nat)
    requires docs != []
    ensures UpdateTransaction(c, docs, patch, latest)
         == [DeleteOp(c, IdFilter(docs[0]), latest, latest), InsertOp(c, Merge(docs[0], patch))]
            + UpdateTransaction(c, docs[1..], patch, latest)
  {
    UpdateOpsDecoded(c, docs, patch);
    UpdateOpsDecoded(c, docs[1..], patch);
    var ops := UpdateOps(c, docs, patch);
    assert ops == OpsFor(c, docs[0], patch) + UpdateOps(c, docs[1..], patch);
    var rest := ops[1..];
    assert ops[0] == PendingDelete(c, Some(IdFilter(docs[0])));
    assert rest[0] == PendingInsert(c, Some(Merge(docs[0], patch))) && rest[1..] == UpdateOps(c, docs[1..], patch);
    assert forall op :: op in rest ==> op in ops;
    assert AsRunOps(rest, latest) == [AsRunOp(rest[0], latest)] + AsRunOps(rest[1..], latest);
  }

  lemma {:induction false} TransactionTimed(c: Text, docs: seq<Value>, patch: Patch, latest: nat)
    ensures forall op :: op in UpdateTransaction(c, docs, patch, latest) ==> Timed(op, latest + 1)
  {
    if docs != [] {
      TransactionTimed(c, docs[1..], patch, latest);
      TransactionStep(c, docs, patch, latest);
    }
  }

  /** The delete of a match meets it as it was read. */
  lemma MatchDeleteIsFresh(env: Env, c: Text, h: seq<DocTables>, s: DocTx, done: set<Text>, patch: Patch, u: Text)
    requires h != [] && Usable(env, c) && RowsValid(env, h[|h| - 1]) && Ir(env, c).idField == ID()
    requires HasRow(h[|h| - 1], c, u) && u !in done && RowsAs(s.tables, h[|h| - 1], c, done, patch)
    ensures var op := DeleteOp(c, IdFilter(RowAt(h[|h| - 1], c, u)), |h| - 1, |h| - 1);
            && FreshOp(env, h, s, op)
            && ApplyOp(env, h, s, op) == Ok(AfterMatchDelete(env, c, s, h[|h| - 1], u))
  {
    CurrentIsFresh(env, c, h, s, done, patch, u);
    MatchDelete(env, c, s, h[|h| - 1], u);
  }

  lemma CurrentIsFresh(env: Env, c: Text, h: seq<DocTables>, s: DocTx, done: set<Text>, patch: Patch, u: Text)
    requires h != [] && Usable(env, c) && RowsValid(env, h[|h| - 1]) && Ir(env, c).idField == ID()
    requires HasRow(h[|h| - 1], c, u) && u !in done && RowsAs(s.tables, h[|h| - 1], c, done, patch)
    ensures FreshOp(env, h, s, DeleteOp(c, IdFilter(RowAt(h[|h| - 1], c, u)), |h| - 1, |h| - 1))
  {
    IdFilterFinds(env, c, h[|h| - 1], u);
    MatchIsCurrent(env, c, h[|h| - 1], s.tables, done, patch, u);
    FoundIsFresh(env, c, h, s, IdFilter(RowAt(h[|h| - 1], c, u)), [RowAt(h[|h| - 1], c, u)]);
  }

  lemma FoundIsFresh(env: Env, c: Text, h: seq<DocTables>, s: DocTx, filter: Value, docs: seq<Value>)
    requires h != [] && Usable(env, c) && Find(Ir(env, c), c, h[|h| - 1], h[|h| - 1], filter) == Ok(docs)
    requires AllCurrent(s.tables, Ir(env, c), c, docs)
    ensures FreshOp(env, h, s, DeleteOp(c, filter, |h| - 1, |h| - 1))
  {
  }

  lemma MatchIsCurrent(env: Env, c: Text, base: DocTables, t: DocTables, done: set<Text>, patch: Patch, u: Text)
    requires Usable(env, c) && RowsValid(env, base) && HasRow(base, c, u) && u !in done && RowsAs(t, base, c, done, patch)
    ensures AllCurrent(t, Ir(env, c), c, [RowAt(base, c, u)])
  {
    assert ValidRow(env, c, u, RowAt(base, c, u));
    ReplacedRow(base, t, c, done, patch, u);
  }

  /** Its re-insert uses an id that is free by then. */
  lemma MatchInsertIsFresh(env: Env, c: Text, h: seq<DocTables>, s: DocTx, patch: Patch, u: Text, d: Value)
    requires Usable(env, c) && Ir(env, c).idField == ID() && ValidRow(env, c, u, d) && GuardHolds(d, patch)
    requires !HasRow(s.tables, c, u)
    ensures FreshOp(env, h, s, InsertOp(c, Merge(d, patch)))
  {
    MergeKeepsId(env, c, u, d, patch);
  }

  lemma FreshPair(env: Env, h: seq<DocTables>, s: DocTx, a: Op, s': DocTx, b: Op, rest: Transaction)
    requires Timed(a, |h|) && Timed(b, |h|) && (forall op :: op in rest ==> Timed(op, |h|))
    requires FreshOp(env, h, s, a) && ApplyOp(env, h, s, a) == Ok(s') && FreshOp(env, h, s', b)
    requires ApplyOp(env, h, s', b).Ok? ==> FreshOps(env, h, ApplyOp(env, h, s', b).value, rest)
    ensures (forall op :: op in [a, b] + rest ==> Timed(op, |h|)) && FreshOps(env, h, s, [a, b] + rest)
  {
    FreshCons(env, h, s', b, rest);
    FreshCons(env, h, s, a, [b] + rest);
    assert [a] + ([b] + rest) == [a, b] + rest;
  }

  lemma FreshCons(env: Env, h: seq<DocTables>, s: DocTx, op: Op, rest: Transaction)
    requires Timed(op, |h|) && (forall o :: o in rest ==> Timed(o, |h|)) && FreshOp(env, h, s, op)
    requires ApplyOp(env, h, s, op).Ok? ==> FreshOps(env, h, ApplyOp(env, h, s, op).value, rest)
    ensures (forall o :: o in [op] + rest ==> Timed(o, |h|)) && FreshOps(env, h, s, [op] + rest)
  {
    assert ([op] + rest)[1..] == rest;
  }

  /** Delete and insert of one match are fresh one after the other. */
  lemma MatchIsFresh(env: Env, c: Text, h: seq<DocTables>, s: DocTx, done: set<Text>, patch: Patch, u: Text, rest: Transaction)
    requires h != [] && Usable(env, c) && Ir(env, c).idField == ID()
    requires RowsValid(env, h[|h| - 1]) && Indexed(env, h[|h| - 1])
    requires HasRow(h[|h| - 1], c, u) && u !in done && GuardHolds(RowAt(h[|h| - 1], c, u), patch)
    requires RowsAs(s.tables, h[|h| - 1], c, done, patch)
    requires forall op :: op in rest ==> Timed(op, |h|)
    requires var r := InsertInTxSpec(env, c, AfterMatchDelete(env, c, s, h[|h| - 1], u), Merge(RowAt(h[|h| - 1], c, u), patch));
             r.Ok? ==> FreshOps(env, h, r.value, rest)
    ensures var d := RowAt(h[|h| - 1], c, u);
            var ops := [DeleteOp(c, IdFilter(d), |h| - 1, |h| - 1), InsertOp(c, Merge(d, patch))] + rest;
            (forall op :: op in ops ==> Timed(op, |h|)) && FreshOps(env, h, s, ops)
  {
    var d := RowAt(h[|h| - 1], c, u);
    var s' := AfterMatchDelete(env, c, s, h[|h| - 1], u);
    MatchDeleteIsFresh(env, c, h, s, done, patch, u);
    assert ValidRow(env, c, u, d);
    RowAfterDelete(Ir(env, c), c, s, d, u, c, u);
    MatchInsertIsFresh(env, c, h, s', patch, u, d);
    FreshPair(env, h, s, DeleteOp(c, IdFilter(d), |h| - 1, |h| - 1), s', InsertOp(c, Merge(d, patch)), rest);
  }

  /** The next match from a state in `Progress`: fresh if what follows it is. */
  lemma NextMatchIsFresh(env: Env, c: Text, h: seq<DocTables>, patch: Patch, us: seq<Text>, n: nat, s: DocTx, rest: Transaction)
    requires h != [] && Usable(env, c) && Consistent(env, h) && Ir(env, c).idField == ID()
    requires Matched(h[|h| - 1], c, us, patch) && n < |us| && Keeps(env, c, h[|h| - 1], patch, us)(n, s)
    requires forall op :: op in rest ==> Timed(op, |h|)
    requires var r := NextView(env, c, h[|h| - 1], patch, us[n], s); r.Ok? ==> FreshOps(env, h, r.value, rest)
    ensures var d := RowAt(h[|h| - 1], c, us[n]);
            var ops := [DeleteOp(c, IdFilter(d), |h| - 1, |h| - 1), InsertOp(c, Merge(d, patch))] + rest;
            (forall op :: op in ops ==> Timed(op, |h|)) && FreshOps(env, h, s, ops)
  {
    assert us[n] !in FirstIds(us, n);
    MatchIsFresh(env, c, h, s, FirstIds(us, n), patch, us[n], rest);
  }

  /** The view after the next match, if its insert is accepted. */
  function NextView(env: Env, c: Text, base: DocTables, patch: Patch, u: Text, s: DocTx): Result<DocTx>
    requires Usable(env, c) && HasRow(base, c, u)
  {
    InsertInTxSpec(env, c, AfterMatchDelete(env, c, s, base, u), Merge(RowAt(base, c, u), patch))
  }

  lemma NextMatchKeeps(env: Env, c: Text, h: seq<DocTables>, patch: Patch, us: seq<Text>, n: nat, s: DocTx)
    requires h != [] && Usable(env, c) && Consistent(env, h) && Ir(env, c).idField == ID()
    requires Matched(h[|h| - 1], c, us, patch) && n < |us| && Keeps(env, c, h[|h| - 1], patch, us)(n, s)
    ensures var r := NextView(env, c, h[|h| - 1], patch, us[n], s);
            r.Ok? ==> Keeps(env, c, h[|h| - 1], patch, us)(n + 1, r.value)
  {
    assert us[n] !in FirstIds(us, n);
    MatchProgress(env, c, h[|h| - 1], patch, us, n, s);
    OneMatch(env, c, s, h[|h| - 1], FirstIds(us, n), patch, us[n]);
  }

  lemma {:induction false} MatchesAreFresh(env: Env, c: Text, h: seq<DocTables>, patch: Patch, us: seq<Text>, n: nat, s: DocTx)
    requires h != [] && Usable(env, c) && Consistent(env, h) && Ir(env, c).idField == ID() && n <= |us|
    requires Matched(h[|h| - 1], c, us, patch) && Keeps(env, c, h[|h| - 1], patch, us)(n, s)
    ensures var ops := UpdateTransaction(c, MatchDocs(h[|h| - 1], c, us)[n..], patch, |h| - 1);
            (forall op :: op in ops ==> Timed(op, |h|)) && FreshOps(env, h, s, ops)
    decreases |us| - n
  {
    var docs := MatchDocs(h[|h| - 1], c, us)[n..];
    TransactionTimed(c, docs, patch, |h| - 1);
    if n < |us| {
      TransactionStep(c, docs, patch, |h| - 1);
      assert docs[1..] == MatchDocs(h[|h| - 1], c, us)[n + 1..];
      TransactionTimed(c, docs[1..], patch, |h| - 1);
      var r := NextView(env, c, h[|h| - 1], patch, us[n], s);
      NextMatchKeeps(env, c, h, patch, us, n, s);
      if r.Ok? { MatchesAreFresh(env, c, h, patch, us, n + 1, r.value); }
      NextMatchIsFresh(env, c, h, patch, us, n, s, UpdateTransaction(c, docs[1..], patch, |h| - 1));
    }
  }

  /** The transaction that replays a guarded update is fresh: runs that mix updates with inserts
      under unused ids and deletes on the latest state keep their index exact. */
  lemma UpdateIsFresh(env: Env, c: Text, h: seq<DocTables>, filter: Value, patch: Patch)
    requires h != [] && Consistent(env, h) && Updatable(env, c, h[|h| - 1])
    requires ID() in patch ==> forall u :: u in MatchIds(h[|h| - 1], c, filter) ==> patch[ID()] == Some(Str(u))
    ensures BufferSpec(env, c, h[|h| - 1], filter, patch)
         == Ok(UpdateOps(c, Answer(h[|h| - 1], c, filter), patch))
    ensures FreshTransaction(env, h, UpdateTransaction(c, Answer(h[|h| - 1], c, filter), patch, |h| - 1))
  {
    var base := h[|h| - 1];
    var us := SortedSeq(MatchIds(base, c, filter));
    GuardMeans(env, c, base, filter, patch);
    MatchesInOrder(base, c, filter, patch);
    FastPathRefinesScan(env, c, base, filter);
    ProgressStart(env, c, base, patch, us);
    MatchesAreFresh(env, c, h, patch, us, 0, TxState(base, []));
    assert MatchDocs(base, c, us)[0..] == MatchDocs(base, c, us);
  }
}
