/** When the index holds no stale entry: runs whose inserts use unused ids and whose deletes see
    the latest state. */
module ExactIndex {
  import opened Lex
  import opened Json
  import opened Schema
  import opened Codec
  import opened IndexEngine
  import opened Storage
  import opened Query
  import opened Collection
  import opened Invariants
  import opened FastPath
  import opened History

  ghost predicate OwnedBy(env: Env, t: DocTables, k: Text, c: Text)
    requires k in t.index
  {
    Usable(env, c) && HasRow(t, c, t.index[k]) && k in RowKeys(Ir(env, c), c, t.index[k], RowAt(t, c, t.index[k]))
  }

  /** No index entry is stale: each is a key of the row it names. */
  ghost predicate NoStale(env: Env, t: DocTables) {
    forall k :: k in t.index ==> exists c :: OwnedBy(env, t, k, c)
  }

  ghost predicate Exact(env: Env, t: DocTables) { Inv(env, t) && NoStale(env, t) }

  /** The index table is exactly the set of keys derived from the stored rows, each with its id. */
  lemma ExactMeansDerived(env: Env, t: DocTables, k: Text)
    requires Exact(env, t)
    ensures k in t.index <==>
            exists c, u :: Usable(env, c) && HasRow(t, c, u) && k in RowKeys(Ir(env, c), c, u, RowAt(t, c, u))
    ensures forall c, u :: Usable(env, c) && HasRow(t, c, u) && k in RowKeys(Ir(env, c), c, u, RowAt(t, c, u))
                           ==> k in t.index && t.index[k] == u
  {
    if k in t.index {
      var c :| OwnedBy(env, t, k, c);
    }
  }

  /** Stored rows determine an exact index. */
  lemma ExactIndexIsDetermined(env: Env, t: DocTables, t': DocTables)
    requires Indexed(env, t) && NoStale(env, t) && Indexed(env, t') && NoStale(env, t') && t.entries == t'.entries
    ensures t.index == t'.index
  {
    IndexIncluded(env, t, t');
    IndexIncluded(env, t', t);
    MutualInclusion(t.index, t'.index);
  }

  lemma MutualInclusion(a: map<Text, Text>, b: map<Text, Text>)
    requires forall k :: k in a ==> k in b && b[k] == a[k]
    requires forall k :: k in b ==> k in a && a[k] == b[k]
    ensures a == b
  {
  }

  lemma IndexIncluded(env: Env, t: DocTables, t': DocTables)
    requires NoStale(env, t) && Indexed(env, t') && t.entries == t'.entries
    ensures forall k :: k in t.index ==> k in t'.index && t'.index[k] == t.index[k]
  {
    forall k | k in t.index ensures k in t'.index && t'.index[k] == t.index[k] {
      var c :| OwnedBy(env, t, k, c);
      assert HasRow(t', c, t.index[k]);
    }
  }

  // ---- insert -------------------------------------------------------------------------

  /** An insert leaves a stale entry behind exactly when it overwrites a row one of whose index
      keys the new document does not have. */
  lemma InsertKeepsExactWhen(env: Env, c: Text, s: DocTx, doc: Value, id: Text)
    requires Exact(env, s.tables) && Usable(env, c) && ValidRow(env, c, id, doc)
    ensures NoStale(env, AfterInsert(Ir(env, c), c, s, doc, id).tables) <==>
            (HasRow(s.tables, c, id) ==>
               RowKeys(Ir(env, c), c, id, RowAt(s.tables, c, id)) <= RowKeys(Ir(env, c), c, id, doc))
  {
    var ir := Ir(env, c);
    if HasRow(s.tables, c, id) ==> RowKeys(ir, c, id, RowAt(s.tables, c, id)) <= RowKeys(ir, c, id, doc) {
      InsertLeavesNoStale(env, c, s, doc, id);
    } else {
      var k :| k in RowKeys(ir, c, id, RowAt(s.tables, c, id)) && k !in RowKeys(ir, c, id, doc);
      InsertLeavesStale(env, c, s, doc, id, k);
    }
  }

  lemma InsertLeavesNoStale(env: Env, c: Text, s: DocTx, doc: Value, id: Text)
    requires NoStale(env, s.tables) && Usable(env, c)
    requires HasRow(s.tables, c, id) ==>
               RowKeys(Ir(env, c), c, id, RowAt(s.tables, c, id)) <= RowKeys(Ir(env, c), c, id, doc)
    ensures NoStale(env, AfterInsert(Ir(env, c), c, s, doc, id).tables)
  {
    var t := AfterInsert(Ir(env, c), c, s, doc, id).tables;
    forall k | k in t.index ensures exists c' :: OwnedBy(env, t, k, c') {
      if k in RowKeys(Ir(env, c), c, id, doc) {
        RowAfterInsert(Ir(env, c), c, s, doc, id, c, id);
        assert OwnedBy(env, t, k, c);
      } else {
        var c' :| OwnedBy(env, s.tables, k, c');
        RowAfterInsert(Ir(env, c), c, s, doc, id, c', t.index[k]);
        assert OwnedBy(env, t, k, c');
      }
    }
  }

  lemma InsertLeavesStale(env: Env, c: Text, s: DocTx, doc: Value, id: Text, k: Text)
    requires Inv(env, s.tables) && Usable(env, c) && ValidRow(env, c, id, doc) && HasRow(s.tables, c, id)
    requires k in RowKeys(Ir(env, c), c, id, RowAt(s.tables, c, id)) && k !in RowKeys(Ir(env, c), c, id, doc)
    ensures !NoStale(env, AfterInsert(Ir(env, c), c, s, doc, id).tables)
  {
    var t := AfterInsert(Ir(env, c), c, s, doc, id).tables;
    assert KeysPresent(s.tables.index, RowKeys(Ir(env, c), c, id, RowAt(s.tables, c, id)), id);
    assert k in t.index && t.index[k] == id;
    forall c' | OwnedBy(env, t, k, c') ensures false {
      RowKeysDisjoint(env, c, id, RowAt(s.tables, c, id), c', id, RowAt(t, c', id), k);
      RowAfterInsert(Ir(env, c), c, s, doc, id, c, id);
    }
  }

  // ---- delete -------------------------------------------------------------------------

  /** The victim was read in the state it is removed from. */
  predicate Current(t: DocTables, c: Text, id: Text, d: Value) {
    HasRow(t, c, id) ==> RowAt(t, c, id) == d
  }

  lemma DeleteVictimLeavesNoStale(env: Env, c: Text, s: DocTx, d: Value, id: Text)
    requires Exact(env, s.tables) && Usable(env, c) && NulFree(id) && Current(s.tables, c, id, d)
    ensures NoStale(env, AfterDeleteVictim(Ir(env, c), c, s, d, id).tables)
  {
    var t := AfterDeleteVictim(Ir(env, c), c, s, d, id).tables;
    forall k | k in t.index ensures exists c' :: OwnedBy(env, t, k, c') {
      var c' :| OwnedBy(env, s.tables, k, c');
      RowAfterDelete(Ir(env, c), c, s, d, id, c', s.tables.index[k]);
      assert OwnedBy(env, t, k, c');
    }
  }

  lemma {:induction false} DeleteVictimsKeepExact(env: Env, c: Text, s: DocTx, victims: seq<Value>)
    requires Exact(env, s.tables) && Usable(env, c) && VictimsOk(Ir(env, c), victims)
    requires AllCurrent(s.tables, Ir(env, c), c, victims)
    requires DeleteVictimsSpec(Ir(env, c), c, s, victims).Ok?
    ensures Exact(env, DeleteVictimsSpec(Ir(env, c), c, s, victims).value.tables)
    decreases |victims|
  {
    if victims != [] {
      var ir, d := Ir(env, c), victims[0];
      assert d in victims;
      var id := IdText(ir.idField, d).value;
      var s' := AfterDeleteVictim(ir, c, s, d, id);
      DeleteVictimKeepsInv(env, c, s, d, id);
      DeleteVictimLeavesNoStale(env, c, s, d, id);
      forall e | e in victims[1..] && IdText(ir.idField, e).Some?
        ensures e in victims && Current(s'.tables, c, IdText(ir.idField, e).value, e)
      {
        RowAfterDelete(ir, c, s, d, id, c, IdText(ir.idField, e).value);
      }
      DeleteVictimsKeepExact(env, c, s', victims[1..]);
    }
  }

  /** A filter delete that resolves its victims in the state it modifies keeps the index exact. */
  lemma DeleteKeepsExact(env: Env, c: Text, s: DocTx, filter: Value)
    requires Exact(env, s.tables) && DeleteInTxSpec(env, c, s, s.tables, s.tables, filter).Ok?
    ensures Exact(env, DeleteInTxSpec(env, c, s, s.tables, s.tables, filter).value.tables)
  {
    var ir, t := env.schema.collections[c], s.tables;
    var victims := Find(ir, c, t, t, filter).value;
    if victims != [] {
      FoundVictimsOk'(env, c, t, t, filter, victims);
      FoundAreCurrent(env, c, t, filter);
      DeleteVictimsKeepExact(env, c, s, victims);
    }
  }

  // ---- runs ---------------------------------------------------------------------------

  /** The operation adds no stale key to the view it meets: an insert uses an unused id, and a
      delete meets its victims as it read them. */
  ghost predicate FreshOp(env: Env, h: seq<DocTables>, s: DocTx, op: Op)
    requires Timed(op, |h|)
  {
    match op
    case InsertOp(c, doc) =>
      Usable(env, c) ==> var id := IdText(Ir(env, c).idField, doc); id.Some? ==> !HasRow(s.tables, c, id.value)
    case DeleteOp(c, filter, i, j) =>
      Usable(env, c) && Find(Ir(env, c), c, h[i], h[j], filter).Ok? ==>
        AllCurrent(s.tables, Ir(env, c), c, Find(Ir(env, c), c, h[i], h[j], filter).value)
  }

  ghost predicate AllCurrent(t: DocTables, ir: CollectionIr, c: Text, victims: seq<Value>) {
    forall d :: d in victims && IdText(ir.idField, d).Some? ==> Current(t, c, IdText(ir.idField, d).value, d)
  }

  /** Every operation of the transaction is fresh when its turn comes. */
  ghost predicate FreshOps(env: Env, h: seq<DocTables>, s: DocTx, ops: Transaction)
    requires forall op :: op in ops ==> Timed(op, |h|)
    decreases |ops|
  {
    ops == [] ||
    (FreshOp(env, h, s, ops[0])
     && (ApplyOp(env, h, s, ops[0]).Ok? ==> FreshOps(env, h, ApplyOp(env, h, s, ops[0]).value, ops[1..])))
  }

  ghost predicate FreshTransaction(env: Env, h: seq<DocTables>, ops: Transaction)
    requires h != []
  {
    (forall op :: op in ops ==> Timed(op, |h|)) && FreshOps(env, h, TxState(h[|h| - 1], []), ops)
  }

  lemma FreshOpKeepsExact(env: Env, h: seq<DocTables>, s: DocTx, op: Op)
    requires Timed(op, |h|) && FreshOp(env, h, s, op) && Exact(env, s.tables) && (forall t :: t in h ==> RowsValid(env, t))
    requires ApplyOp(env, h, s, op).Ok?
    ensures Exact(env, ApplyOp(env, h, s, op).value.tables)
  {
    match op
    case InsertOp(c, doc) =>
      InsertKeepsInv(env, c, s, doc);
      InsertKeepsExactWhen(env, c, s, doc, IdText(Ir(env, c).idField, doc).value);
    case DeleteOp(c, filter, i, j) =>
      assert h[j] in h;
      var victims := Find(env.schema.collections[c], c, h[i], h[j], filter).value;
      if victims != [] {
        FoundVictimsOk'(env, c, h[i], h[j], filter, victims);
        DeleteVictimsKeepExact(env, c, s, victims);
      }
  }

  lemma {:induction false} FreshOpsKeepExact(env: Env, h: seq<DocTables>, s: DocTx, ops: Transaction)
    requires forall op :: op in ops ==> Timed(op, |h|)
    requires FreshOps(env, h, s, ops) && Exact(env, s.tables) && (forall t :: t in h ==> RowsValid(env, t))
    requires ApplyOps(env, h, s, ops).Ok?
    ensures Exact(env, ApplyOps(env, h, s, ops).value.tables)
    decreases |ops|
  {
    if ops != [] {
      assert ops[0] in ops;
      FreshOpKeepsExact(env, h, s, ops[0]);
      assert forall op :: op in ops[1..] ==> op in ops;
      FreshOpsKeepExact(env, h, ApplyOp(env, h, s, ops[0]).value, ops[1..]);
    }
  }

  lemma FreshCommitKeepsExact(env: Env, h: seq<DocTables>, ops: Transaction, next: DocTx)
    requires h != [] && Commits(env, h, ops, next) && FreshTransaction(env, h, ops)
    requires Exact(env, h[|h| - 1]) && Consistent(env, h)
    ensures Exact(env, next.tables)
  {
    ConsistentStates(env, h);
    forall t | t in h ensures RowsValid(env, t) { assert Inv(env, t); }
    FreshOpsKeepExact(env, h, TxState(h[|h| - 1], []), ops);
  }

  /** The index is exact in every state of a run of fresh transactions, each of any number of
      operations. */
  lemma {:induction false} ExactAlways(env: Env, h: seq<DocTables>, log: seq<Transaction>, next: seq<DocTx>, n: nat)
    requires Run(env, h, log, next) && n < |h|
    requires forall m :: 0 <= m < |log| ==> FreshTransaction(env, h[..m + 1], log[m])
    ensures Exact(env, h[n])
  {
    if n == 0 {
      EmptyInv(env);
    } else {
      ExactAlways(env, h, log, next, n - 1);
      var past := RunStep(env, h, log, next, n);
      assert past == h[..n - 1 + 1];
      PastConsistent(env, h, log, next, n - 1);
      FreshCommitKeepsExact(env, past, log[n - 1], next[n - 1]);
    }
  }

  /** A single delete that resolves its victims in the latest state is fresh. */
  lemma LatestDeleteIsFresh(env: Env, h: seq<DocTables>, c: Text, filter: Value)
    requires h != [] && RowsValid(env, h[|h| - 1])
    ensures FreshTransaction(env, h, [DeleteOp(c, filter, |h| - 1, |h| - 1)])
  {
    var op := DeleteOp(c, filter, |h| - 1, |h| - 1);
    var s := TxState(h[|h| - 1], []);
    if Usable(env, c) && Find(Ir(env, c), c, s.tables, s.tables, filter).Ok? {
      FoundAreCurrent(env, c, s.tables, filter);
    }
    SingleIsFresh(env, h, s, op);
  }

  lemma SingleIsFresh(env: Env, h: seq<DocTables>, s: DocTx, op: Op)
    requires Timed(op, |h|) && FreshOp(env, h, s, op)
    ensures FreshOps(env, h, s, [op])
  {
    assert [op][0] == op && [op][1..] == [];
    var r := ApplyOp(env, h, s, op);
    assert r.Ok? ==> FreshOps(env, h, r.value, []);
  }

  lemma FoundAreCurrent(env: Env, c: Text, t: DocTables, filter: Value)
    requires Usable(env, c) && RowsValid(env, t) && Find(Ir(env, c), c, t, t, filter).Ok?
    ensures AllCurrent(t, Ir(env, c), c, Find(Ir(env, c), c, t, t, filter).value)
  {
    var ir := Ir(env, c);
    forall d | d in Find(ir, c, t, t, filter).value && IdText(ir.idField, d).Some?
      ensures Current(t, c, IdText(ir.idField, d).value, d)
    {
      FindReturnsRows(ir, c, t, t, filter, d);
      var u :| HasRow(t, c, u) && RowAt(t, c, u) == d;
      assert ValidRow(env, c, u, d);
    }
  }

  /** Inserts under ids that the state does not have, no two of them the same. */
  ghost predicate UnusedIds(env: Env, t: DocTables, ops: Transaction) {
    && (forall op :: op in ops ==> op.InsertOp? && (Usable(env, op.c) ==> Unused(env, t, op.c, op.doc)))
    && (forall m, n :: 0 <= m < n < |ops| && ops[m].InsertOp? && ops[n].InsertOp? && ops[m].c == ops[n].c && Usable(env, ops[n].c) ==>
          IdText(Ir(env, ops[n].c).idField, ops[m].doc) != IdText(Ir(env, ops[n].c).idField, ops[n].doc))
  }

  predicate Unused(env: Env, t: DocTables, c: Text, doc: Value)
    requires Usable(env, c)
  {
    var id := IdText(Ir(env, c).idField, doc); id.Some? ==> !HasRow(t, c, id.value)
  }

  /** A transaction of any number of inserts under distinct unused ids is fresh. */
  lemma {:induction false} InsertsAreFresh(env: Env, h: seq<DocTables>, s: DocTx, ops: Transaction)
    requires UnusedIds(env, s.tables, ops)
    ensures (forall op :: op in ops ==> Timed(op, |h|)) && FreshOps(env, h, s, ops)
    decreases |ops|
  {
    if ops != [] {
      var op, r := ops[0], ApplyOp(env, h, s, ops[0]);
      assert op in ops && FreshOp(env, h, s, op);
      assert forall o :: o in ops[1..] ==> o in ops;
      if r.Ok? {
        var id := IdText(Ir(env, op.c).idField, op.doc).value;
        forall o | o in ops[1..] && Usable(env, o.c) ensures Unused(env, r.value.tables, o.c, o.doc) {
          var n :| 0 <= n < |ops| - 1 && ops[1..][n] == o;
          assert ops[n + 1] == o;
          var other := IdText(Ir(env, o.c).idField, o.doc);
          if other.Some? { RowAfterInsert(Ir(env, op.c), op.c, s, op.doc, id, o.c, other.value); }
        }
        forall m, n | 0 <= m < n < |ops| - 1 ensures ops[1..][m] == ops[m + 1] && ops[1..][n] == ops[n + 1] { }
        InsertsAreFresh(env, h, r.value, ops[1..]);
      } else {
        assert forall o :: o in ops ==> Timed(o, |h|);
      }
    }
  }

  // ---- when an insert succeeds --------------------------------------------------------------

  ghost predicate ValueFree(env: Env, t: DocTables, c: Text, doc: Value)
    requires Usable(env, c)
  {
    forall u, i :: HasRow(t, c, u) && UniqueIndex(env, c, i) ==> ValueAt(RowAt(t, c, u), i.field) != ValueAt(doc, i.field)
  }

  /** A key left behind by an overwritten document: no row owns it. */
  ghost predicate Stale(env: Env, t: DocTables, k: Text) {
    k in t.index && forall c :: !OwnedBy(env, t, k, c)
  }

  /** A stale key occupies one of the document's unique values. */
  ghost predicate StaleBlocks(env: Env, t: DocTables, c: Text, doc: Value)
    requires Usable(env, c)
  {
    exists i, k :: UniqueIndex(env, c, i) && Stale(env, t, k) && k in GroupKeys(t, c, i, doc)
  }

  /** On a consistent, clean state an insert is accepted if and only if the document is valid, its
      id is NUL-free, no stored document has one of its unique values, and no stale key does. */
  lemma InsertSucceedsExactlyWhen(env: Env, c: Text, s: DocTx, doc: Value)
    requires env.Compiled() && CleanSchema(env)
    requires RowsValid(env, s.tables) && Indexed(env, s.tables) && CleanRows(env, s.tables)
    requires Usable(env, c) && CleanDoc(Ir(env, c), doc)
    ensures InsertInTxSpec(env, c, s, doc).Ok? <==>
            && Validates(env, Ir(env, c), doc)
            && IdText(Ir(env, c).idField, doc).Some? && NulFree(IdText(Ir(env, c).idField, doc).value)
            && ValueFree(env, s.tables, c, doc) && !StaleBlocks(env, s.tables, c, doc)
  {
    var ir, t := Ir(env, c), s.tables;
    if Validates(env, ir, doc) {
      TakenExactlyWhen(env, c, t, doc);
    }
  }

  /** An exact index blocks nothing. */
  lemma ExactBlocksNothing(env: Env, t: DocTables, c: Text, doc: Value)
    requires Usable(env, c) && NoStale(env, t)
    ensures !StaleBlocks(env, t, c, doc)
  {
  }

  lemma TakenExactlyWhen(env: Env, c: Text, t: DocTables, doc: Value)
    requires env.Compiled() && CleanSchema(env) && RowsValid(env, t) && Indexed(env, t) && CleanRows(env, t)
    requires Usable(env, c) && CleanDoc(Ir(env, c), doc) && Validates(env, Ir(env, c), doc)
    ensures UniqueTaken(Ir(env, c), c, t, doc) <==> !ValueFree(env, t, c, doc) || StaleBlocks(env, t, c, doc)
  {
    if !ValueFree(env, t, c, doc) { StoredMeansTaken(env, c, t, doc); }
    if StaleBlocks(env, t, c, doc) { BlockedMeansTaken(env, c, t, doc); }
    if UniqueTaken(Ir(env, c), c, t, doc) && !StaleBlocks(env, t, c, doc) { TakenMeansStored(env, c, t, doc); }
  }

  lemma BlockedMeansTaken(env: Env, c: Text, t: DocTables, doc: Value)
    requires Usable(env, c) && StaleBlocks(env, t, c, doc)
    ensures UniqueTaken(Ir(env, c), c, t, doc)
  {
    var i, k :| UniqueIndex(env, c, i) && Stale(env, t, k) && k in GroupKeys(t, c, i, doc);
    KeyTakes(env, c, t, doc, i, k);
  }

  /** Any key in the group of a unique value makes the pre-check fail. */
  lemma KeyTakes(env: Env, c: Text, t: DocTables, doc: Value, i: IndexIr, k: Text)
    requires Usable(env, c) && UniqueIndex(env, c, i) && k in GroupKeys(t, c, i, doc)
    ensures UniqueTaken(Ir(env, c), c, t, doc)
  {
    var n :| 0 <= n < |Ir(env, c).indexes| && Ir(env, c).indexes[n] == i;
    assert Taken(t, c, Ir(env, c).indexes[n], doc);
  }

  lemma StoredMeansTaken(env: Env, c: Text, t: DocTables, doc: Value)
    requires Usable(env, c) && Indexed(env, t) && !ValueFree(env, t, c, doc)
    ensures UniqueTaken(Ir(env, c), c, t, doc)
  {
    var u, i :| HasRow(t, c, u) && UniqueIndex(env, c, i) && ValueAt(RowAt(t, c, u), i.field) == ValueAt(doc, i.field);
    SameValueIsTaken(env, c, t, doc, u, i);
  }

  lemma TakenMeansStored(env: Env, c: Text, t: DocTables, doc: Value)
    requires env.Compiled() && CleanSchema(env) && RowsValid(env, t) && CleanRows(env, t)
    requires Usable(env, c) && CleanDoc(Ir(env, c), doc) && Validates(env, Ir(env, c), doc)
    requires UniqueTaken(Ir(env, c), c, t, doc) && !StaleBlocks(env, t, c, doc)
    ensures !ValueFree(env, t, c, doc)
  {
    var n :| 0 <= n < |Ir(env, c).indexes| && Taken(t, c, Ir(env, c).indexes[n], doc);
    var i := Ir(env, c).indexes[n];
    var k :| k in GroupKeys(t, c, i, doc);
    assert UniqueIndex(env, c, i);
    assert !Stale(env, t, k);
    var c' :| OwnedBy(env, t, k, c');
    GroupRange(c, i.field, EncodeIndexValue(ValueAt(doc, i.field)), k);
    CleanHit(env, c, doc, i, k, c', t.index[k], RowAt(t, c', t.index[k]));
  }

  lemma CleanHit(env: Env, c: Text, doc: Value, i: IndexIr, k: Text, c': Text, u: Text, row: Value)
    requires env.Compiled() && CleanSchema(env) && Usable(env, c) && i in Ir(env, c).indexes
    requires Validates(env, Ir(env, c), doc) && CleanDoc(Ir(env, c), doc)
    requires Usable(env, c') && ValidRow(env, c', u, row) && CleanDoc(Ir(env, c'), row)
    requires k in RowKeys(Ir(env, c'), c', u, row)
    requires GroupLower(c, i.field, EncodeIndexValue(ValueAt(doc, i.field))) <= k
    ensures c' == c && ValueAt(row, i.field) == ValueAt(doc, i.field)
  {
    assert WrittenFor(env, k, c', u, row);
    CleanKeyInGroup(env, c, i, doc, c', row, u, k);
  }

  /** Overwriting a document does not free its unique values: its key stays behind, stale, and
      refuses every later document with the value, though no stored document has it. */
  lemma OverwrittenValueStaysTaken(env: Env, c: Text, s: DocTx, new_: Value, doc: Value, id: Text, i: IndexIr)
    requires CleanSchema(env) && env.Compiled() && Usable(env, c) && Inv(env, s.tables) && HasRow(s.tables, c, id)
    requires ValidRow(env, c, id, new_) && UniqueIndex(env, c, i)
    requires ValueAt(new_, i.field) != ValueAt(RowAt(s.tables, c, id), i.field)
    requires Validates(env, Ir(env, c), doc) && ValueAt(doc, i.field) == ValueAt(RowAt(s.tables, c, id), i.field)
    requires forall j :: j in Ir(env, c).indexes && j.field == i.field ==> j == i
    ensures var t := AfterInsert(Ir(env, c), c, s, new_, id).tables;
            !NoStale(env, t) && InsertInTxSpec(env, c, TxState(t, []), doc).Err?
  {
    OldKeyIsStale(env, c, s, new_, id, i);
    OldKeyTakes(env, c, s, new_, doc, id, i);
    TakenRefuses(env, c, TxState(AfterInsert(Ir(env, c), c, s, new_, id).tables, []), doc);
  }

  lemma OldKeyIsStale(env: Env, c: Text, s: DocTx, new_: Value, id: Text, i: IndexIr)
    requires CleanSchema(env) && env.Compiled() && Usable(env, c) && Inv(env, s.tables) && HasRow(s.tables, c, id)
    requires ValidRow(env, c, id, new_) && i in Ir(env, c).indexes
    requires ValueAt(new_, i.field) != ValueAt(RowAt(s.tables, c, id), i.field)
    requires forall j :: j in Ir(env, c).indexes && j.field == i.field ==> j == i
    ensures !NoStale(env, AfterInsert(Ir(env, c), c, s, new_, id).tables)
  {
    var old_ := RowAt(s.tables, c, id);
    assert KeyOf(c, i, old_, id) in RowKeys(Ir(env, c), c, id, old_);
    NewKeysDiffer(env, c, old_, new_, id, i);
    InsertLeavesStale(env, c, s, new_, id, KeyOf(c, i, old_, id));
  }

  lemma TakenRefuses(env: Env, c: Text, s: DocTx, doc: Value)
    requires Usable(env, c) && UniqueTaken(Ir(env, c), c, s.tables, doc)
    ensures InsertInTxSpec(env, c, s, doc).Err?
  {
  }

  lemma OldKeyTakes(env: Env, c: Text, s: DocTx, new_: Value, doc: Value, id: Text, i: IndexIr)
    requires Usable(env, c) && Indexed(env, s.tables) && HasRow(s.tables, c, id) && UniqueIndex(env, c, i)
    requires ValueAt(doc, i.field) == ValueAt(RowAt(s.tables, c, id), i.field)
    ensures UniqueTaken(Ir(env, c), c, AfterInsert(Ir(env, c), c, s, new_, id).tables, doc)
  {
    var ir, old_ := Ir(env, c), RowAt(s.tables, c, id);
    var k := KeyOf(c, i, old_, id);
    assert KeysPresent(s.tables.index, RowKeys(ir, c, id, old_), id);
    assert k in RowKeys(ir, c, id, old_);
    GroupRange(c, i.field, EncodeIndexValue(ValueAt(doc, i.field)), k);
    assert k == GroupLower(c, i.field, EncodeIndexValue(ValueAt(doc, i.field))) + id;
    KeyTakes(env, c, AfterInsert(ir, c, s, new_, id).tables, doc, i, k);
  }

  lemma NewKeysDiffer(env: Env, c: Text, old_: Value, new_: Value, id: Text, i: IndexIr)
    requires CleanSchema(env) && env.Compiled() && Usable(env, c) && i in Ir(env, c).indexes
    requires ValidRow(env, c, id, old_) && ValidRow(env, c, id, new_)
    requires ValueAt(new_, i.field) != ValueAt(old_, i.field)
    requires forall j :: j in Ir(env, c).indexes && j.field == i.field ==> j == i
    ensures KeyOf(c, i, old_, id) !in RowKeys(Ir(env, c), c, id, new_)
  {
    var ir := Ir(env, c);
    IndexedFieldIsScalar(env, ir, old_, i);
    IndexedFieldIsScalar(env, ir, new_, i);
    EncodingInjective(ir.Field(i.field).value.ty, ValueAt(old_, i.field), ValueAt(new_, i.field));
    forall j | j in ir.indexes ensures KeyOf(c, j, new_, id) != KeyOf(c, i, old_, id) {
      KeyInjective(c, j.field, EncodeIndexValue(ValueAt(new_, j.field)), id, c, i.field, EncodeIndexValue(ValueAt(old_, i.field)), id);
    }
  }

  /** Deleting a document frees its unique values: right after a filter delete, a valid document
      with the values of any victim is accepted again. */
  lemma DeleteFreesValues(env: Env, c: Text, s: DocTx, filter: Value, victim: Value, doc: Value)
    requires env.Compiled() && CleanSchema(env) && Exact(env, s.tables) && Clean(env, s.tables) && Usable(env, c)
    requires DeleteInTxSpec(env, c, s, s.tables, s.tables, filter).Ok?
    requires victim in Find(Ir(env, c), c, s.tables, s.tables, filter).value
    requires CleanDoc(Ir(env, c), doc) && Validates(env, Ir(env, c), doc)
    requires IdText(Ir(env, c).idField, doc).Some? && NulFree(IdText(Ir(env, c).idField, doc).value)
    requires forall i :: UniqueIndex(env, c, i) ==> ValueAt(doc, i.field) == ValueAt(victim, i.field)
    ensures InsertInTxSpec(env, c, DeleteInTxSpec(env, c, s, s.tables, s.tables, filter).value, doc).Ok?
  {
    var ir, t := Ir(env, c), s.tables;
    var victims := Find(ir, c, t, t, filter).value;
    var s' := DeleteInTxSpec(env, c, s, t, t, filter).value;
    FoundVictimsOk(env, c, t, t, filter);
    DeleteKeepsExact(env, c, s, filter);
    DeleteVictimsKeepClean(env, c, s, victims);
    FindReturnsRows(ir, c, t, t, filter, victim);
    var u :| HasRow(t, c, u) && RowAt(t, c, u) == victim;
    assert ValidRow(env, c, u, victim);
    forall u', i | HasRow(s'.tables, c, u') && UniqueIndex(env, c, i)
      ensures ValueAt(RowAt(s'.tables, c, u'), i.field) != ValueAt(doc, i.field)
    {
      VictimsAreGone(env, c, s, victims, u');
      assert HasRow(t, c, u') && RowAt(t, c, u') == RowAt(s'.tables, c, u');
      assert u' != u;
    }
    ExactBlocksNothing(env, s'.tables, c, doc);
    InsertSucceedsExactlyWhen(env, c, s', doc);
  }

  /** A row survives a deletion unchanged if and only if its id is not a victim's. */
  lemma {:induction false} VictimsAreGone(env: Env, c: Text, s: DocTx, victims: seq<Value>, u: Text)
    requires Usable(env, c) && DeleteVictimsSpec(Ir(env, c), c, s, victims).Ok?
    ensures var t := DeleteVictimsSpec(Ir(env, c), c, s, victims).value.tables;
            && (HasRow(t, c, u) <==> HasRow(s.tables, c, u) && forall d :: d in victims ==> IdText(Ir(env, c).idField, d) != Some(u))
            && (HasRow(t, c, u) ==> RowAt(t, c, u) == RowAt(s.tables, c, u))
    decreases |victims|
  {
    if victims != [] {
      var ir, d := Ir(env, c), victims[0];
      var id := IdText(ir.idField, d).value;
      RowAfterDelete(ir, c, s, d, id, c, u);
      VictimsAreGone(env, c, AfterDeleteVictim(ir, c, s, d, id), victims[1..], u);
      assert victims == [d] + victims[1..];
    }
  }
}
