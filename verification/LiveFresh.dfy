/** The live engine over the real tables: what an emission at rest shows. */
module LiveFresh {
  import opened Lex
  import opened Json
  import opened Schema
  import opened Codec
  import opened IndexEngine
  import opened Storage
  import opened Database
  import opened Query
  import opened Collection
  import opened Invariants
  import opened FastPath
  import opened History
  import opened QueryMeaning
  import Live
  import LiveMachine
  import LiveProperties

  // ---- what a query on a collection depends on ----------------------------------------------

  ghost predicate SameRows(t: DocTables, t': DocTables, c: Text) {
    forall u :: (HasRow(t, c, u) <==> HasRow(t', c, u)) && (HasRow(t, c, u) ==> RowAt(t, c, u) == RowAt(t', c, u))
  }

  /** An index entry that a lookup in the collection can turn into a row. */
  predicate Relevant(t: DocTables, c: Text, k: Text) {
    k in t.index && c + [0] <= k && HasRow(t, c, t.index[k])
  }

  ghost predicate SameEntries(t: DocTables, t': DocTables, c: Text) {
    forall k :: (Relevant(t, c, k) <==> Relevant(t', c, k)) && (Relevant(t, c, k) ==> t.index[k] == t'.index[k])
  }

  ghost predicate SameView(t: DocTables, t': DocTables, c: Text) {
    SameRows(t, t', c) && SameEntries(t, t', c)
  }

  lemma SameMatches(t: DocTables, t': DocTables, c: Text, filter: Value)
    requires SameRows(t, t', c)
    ensures MatchIds(t, c, filter) == MatchIds(t', c, filter)
  {
    forall u ensures u in MatchIds(t, c, filter) <==> u in MatchIds(t', c, filter) {
      UserKeysMember(t.entries, c, u);
      UserKeysMember(t'.entries, c, u);
    }
  }

  lemma GroupInCollection(t: DocTables, c: Text, field: Text, v: Value, k: Text)
    requires k in GroupOf(t, c, field, v)
    ensures c + [0] <= k
  {
    var e := EncodeIndexValue(v);
    GroupRange(c, field, e, k);
    assert GroupLower(c, field, e) == c + [0] + (field + [0] + e + [0]);
  }

  lemma ProductiveIncluded(s1: DocTables, s2: DocTables, t1: DocTables, t2: DocTables, c: Text, field: Text, v: Value,
                           filter: Value, k: Text)
    requires SameEntries(s1, t1, c) && SameRows(s1, s2, c) && MatchIds(s2, c, filter) == MatchIds(t2, c, filter)
    requires k in Productive(s1, s2, c, field, v, filter)
    ensures k in Productive(t1, t2, c, field, v, filter) && s1.index[k] == t1.index[k]
  {
    GroupInCollection(s1, c, field, v, k);
    assert Relevant(s1, c, k);
  }

  lemma SameProductive(s1: DocTables, s2: DocTables, t: DocTables, c: Text, field: Text, v: Value, filter: Value)
    requires SameView(s1, t, c) && SameRows(s2, t, c)
    ensures Productive(s1, s2, c, field, v, filter) == Productive(t, t, c, field, v, filter)
    ensures forall k :: k in Productive(t, t, c, field, v, filter) ==> s1.index[k] == t.index[k]
  {
    SameMatches(s2, t, c, filter);
    RowsTransitive(s1, t, s2, c);
    forall k | k in Productive(s1, s2, c, field, v, filter) ensures k in Productive(t, t, c, field, v, filter) {
      ProductiveIncluded(s1, s2, t, t, c, field, v, filter, k);
    }
    forall k | k in Productive(t, t, c, field, v, filter)
      ensures k in Productive(s1, s2, c, field, v, filter) && s1.index[k] == t.index[k]
    {
      ProductiveIncluded(t, t, s1, s2, c, field, v, filter, k);
    }
  }

  lemma RowsTransitive(s1: DocTables, t: DocTables, s2: DocTables, c: Text)
    requires SameRows(s1, t, c) && SameRows(s2, t, c)
    ensures SameRows(s1, s2, c)
  {
  }

  /** A find whose reads both show the same view of the collection gives the same documents as a
      find on that view, through whichever path and with whatever stale entries. */
  lemma FindDependsOnView(ir: CollectionIr, c: Text, s1: DocTables, s2: DocTables, t: DocTables, filter: Value)
    requires SameView(s1, t, c) && SameView(s2, t, c) && ValidCollection(c)
    ensures Find(ir, c, s1, s2, filter) == Find(ir, c, t, t, filter)
  {
    match ChoosePath(ir, filter)
    case IdPath(id) => SameFetch(s2, t, c, [id]);
    case IndexPath(f) => IndexPathDependsOnView(c, s1, s2, t, f, filter.fields[f], filter);
    case ScanPath => ScanDependsOnRows(c, s2, t, filter);
  }

  lemma IndexPathDependsOnView(c: Text, s1: DocTables, s2: DocTables, t: DocTables, f: Text, v: Value, filter: Value)
    requires SameView(s1, t, c) && SameRows(s2, t, c)
    ensures FilterDocs(Fetch(s2.entries, c, LookupEq(s1, c, f, v)), filter)
         == FilterDocs(Fetch(t.entries, c, LookupEq(t, c, f, v)), filter)
  {
    IndexPathResult(s1, s2, c, f, v, filter);
    IndexPathResult(t, t, c, f, v, filter);
    SameProductive(s1, s2, t, c, f, v, filter);
    SameRowsVia(s1.index, t.index, s2, t, c, Productive(t, t, c, f, v, filter));
  }

  lemma ScanDependsOnRows(c: Text, s: DocTables, t: DocTables, filter: Value)
    requires SameRows(s, t, c)
    ensures FilterDocs(AllDocs(s, c), filter) == FilterDocs(AllDocs(t, c), filter)
  {
    ScanIsAnswer(s, c, filter);
    ScanIsAnswer(t, c, filter);
    SameMatches(s, t, c, filter);
    SortedSeqFacts(MatchIds(t, c, filter));
    var us := SortedSeq(MatchIds(t, c, filter));
    forall i | 0 <= i < |us| ensures HasRow(t, c, us[i]) && HasRow(s, c, us[i]) && RowAt(s, c, us[i]) == RowAt(t, c, us[i]) {
      assert us[i] in us;
    }
  }

  lemma {:induction false} SameFetch(t: DocTables, t': DocTables, c: Text, ids: seq<Text>)
    requires SameRows(t, t', c)
    ensures Fetch(t.entries, c, ids) == Fetch(t'.entries, c, ids)
  {
    if ids != [] {
      assert HasRow(t, c, ids[0]) <==> HasRow(t', c, ids[0]);
      SameFetch(t, t', c, ids[1..]);
    }
  }

  lemma SameRowsVia(index: map<Text, Text>, index': map<Text, Text>, s: DocTables, t: DocTables, c: Text, keys: set<Text>)
    requires SameRows(s, t, c) && forall k :: k in keys ==> k in index && k in index' && index[k] == index'[k]
    requires forall k :: k in keys ==> HasRow(t, c, index[k])
    ensures forall k :: k in SortedSeq(keys) ==> k in keys
    ensures RowsVia(index, s, c, SortedSeq(keys)) == RowsVia(index', t, c, SortedSeq(keys))
  {
    SortedSeqFacts(keys);
    var q := SortedSeq(keys);
    forall i | 0 <= i < |q| ensures RowAt(s, c, index[q[i]]) == RowAt(t, c, index'[q[i]]) { assert q[i] in q; }
  }

  lemma FindWithDependsOnView(env: Env, c: Text, s1: DocTables, s2: DocTables, t: DocTables, filter: Value, opts: QueryOptions)
    requires c in env.schema.collections ==> ValidCollection(c) && SameView(s1, t, c) && SameView(s2, t, c)
    ensures FindWith(env, c, s1, s2, filter, opts) == FindWith(env, c, t, t, filter, opts)
  {
    if c in env.schema.collections { FindDependsOnView(env.schema.collections[c], c, s1, s2, t, filter); }
  }

  // ---- commits that do not touch a collection -----------------------------------------------

  /** `s'` extends `s` with changes none of which names the collection, and shows the same view. */
  ghost predicate Untouched(s: DocTx, s': DocTx, c: Text) {
    (forall ch :: ch in s'.touched ==> ch.collection != c) ==> SameView(s.tables, s'.tables, c)
  }

  lemma ViewTransitive(a: DocTables, b: DocTables, d: DocTables, c: Text)
    requires SameView(a, b, c) && SameView(b, d, c)
    ensures SameView(a, d, c)
  {
  }

  /** A key of a row of another collection is no entry of this one. */
  lemma OtherCollectionKey(env: Env, c: Text, c': Text, u: Text, d: Value, k: Text)
    requires Usable(env, c') && NulFree(c) && c != c' && k in RowKeys(Ir(env, c'), c', u, d)
    ensures !(c + [0] <= k)
  {
    var i :| i in Ir(env, c').indexes && k == KeyOf(c', i, d, u);
    if c + [0] <= k { KeyCollection(c, c', i.field, EncodeIndexValue(ValueAt(d, i.field)), u); }
  }

  lemma InsertElsewhere(env: Env, c: Text, s: DocTx, c': Text, doc: Value, id: Text)
    requires Usable(env, c') && NulFree(c) && c != c'
    ensures SameView(s.tables, AfterInsert(Ir(env, c'), c', s, doc, id).tables, c)
  {
    var t := AfterInsert(Ir(env, c'), c', s, doc, id).tables;
    forall u { RowAfterInsert(Ir(env, c'), c', s, doc, id, c, u); }
    assert SameRows(s.tables, t, c);
    forall k ensures (Relevant(s.tables, c, k) <==> Relevant(t, c, k)) && (Relevant(t, c, k) ==> s.tables.index[k] == t.index[k]) {
      if k in RowKeys(Ir(env, c'), c', id, doc) { OtherCollectionKey(env, c, c', id, doc, k); }
    }
  }

  lemma DeleteElsewhere(env: Env, c: Text, s: DocTx, c': Text, d: Value, id: Text)
    requires Usable(env, c') && NulFree(c) && c != c'
    ensures SameView(s.tables, AfterDeleteVictim(Ir(env, c'), c', s, d, id).tables, c)
  {
    var t := AfterDeleteVictim(Ir(env, c'), c', s, d, id).tables;
    forall u { RowAfterDelete(Ir(env, c'), c', s, d, id, c, u); }
    assert SameRows(s.tables, t, c);
    forall k ensures (Relevant(s.tables, c, k) <==> Relevant(t, c, k)) && (Relevant(t, c, k) ==> s.tables.index[k] == t.index[k]) {
      if k in RowKeys(Ir(env, c'), c', id, d) { OtherCollectionKey(env, c, c', id, d, k); }
    }
  }

  /** Deleting a row that is already gone announces nothing; the index keys it removes belong to
      no stored row. */
  lemma DeleteAbsent(env: Env, c: Text, s: DocTx, d: Value, id: Text)
    requires Usable(env, c) && NulFree(id) && IndexOrigin(env, s.tables) && !HasRow(s.tables, c, id)
    ensures SameView(s.tables, AfterDeleteVictim(Ir(env, c), c, s, d, id).tables, c)
  {
    var t := AfterDeleteVictim(Ir(env, c), c, s, d, id).tables;
    assert t.entries == s.tables.entries && SameRows(s.tables, t, c);
    assert t.index == s.tables.index - RowKeys(Ir(env, c), c, id, d);
    forall k ensures (Relevant(s.tables, c, k) <==> Relevant(t, c, k)) && (Relevant(t, c, k) ==> s.tables.index[k] == t.index[k]) {
      AbsentKey(env, c, s.tables, t, id, d, k);
    }
  }

  lemma AbsentKey(env: Env, c: Text, t: DocTables, t': DocTables, id: Text, d: Value, k: Text)
    requires Usable(env, c) && NulFree(id) && IndexOrigin(env, t) && !HasRow(t, c, id)
    requires t'.entries == t.entries && t'.index == t.index - RowKeys(Ir(env, c), c, id, d)
    ensures (Relevant(t, c, k) <==> Relevant(t', c, k)) && (Relevant(t', c, k) ==> t.index[k] == t'.index[k])
  {
    if k in RowKeys(Ir(env, c), c, id, d) && k in t.index { KeyNamesRow(env, c, t, id, d, k); }
  }

  /** An entry under a key of row `id` names that row. */
  lemma KeyNamesRow(env: Env, c: Text, t: DocTables, id: Text, d: Value, k: Text)
    requires Usable(env, c) && NulFree(id) && k in RowKeys(Ir(env, c), c, id, d)
    requires IndexOrigin(env, t) && k in t.index
    ensures t.index[k] == id
  {
    var c', d' :| WrittenFor(env, k, c', t.index[k], d');
    RowKeysDisjoint(env, c, id, d, c', t.index[k], d', k);
  }

  lemma VictimUntouched(env: Env, c: Text, s: DocTx, c': Text, d: Value, id: Text)
    requires Usable(env, c') && NulFree(c) && NulFree(id) && IndexOrigin(env, s.tables)
    ensures var s' := AfterDeleteVictim(Ir(env, c'), c', s, d, id);
            s.touched <= s'.touched && ((forall ch :: ch in s'.touched ==> ch.collection != c) ==> SameView(s.tables, s'.tables, c))
  {
    var s' := AfterDeleteVictim(Ir(env, c'), c', s, d, id);
    if c != c' {
      DeleteElsewhere(env, c, s, c', d, id);
    } else if !HasRow(s.tables, c, id) {
      DeleteAbsent(env, c, s, d, id);
    } else {
      assert DocChange(c, ChangeOp.Delete, id) in s'.touched;
    }
  }

  lemma {:induction false} VictimsUntouched(env: Env, c: Text, s: DocTx, c': Text, victims: seq<Value>)
    requires Usable(env, c') && NulFree(c) && Inv(env, s.tables) && VictimsOk(Ir(env, c'), victims)
    requires DeleteVictimsSpec(Ir(env, c'), c', s, victims).Ok?
    ensures var s' := DeleteVictimsSpec(Ir(env, c'), c', s, victims).value; s.touched <= s'.touched && Untouched(s, s', c)
    decreases |victims|
  {
    if victims == [] {
      assert SameView(s.tables, s.tables, c);
    } else {
      assert victims[0] in victims;
      var id := IdText(Ir(env, c').idField, victims[0]).value;
      var s1 := AfterDeleteVictim(Ir(env, c'), c', s, victims[0], id);
      VictimUntouched(env, c, s, c', victims[0], id);
      DeleteVictimKeepsInv(env, c', s, victims[0], id);
      assert forall d :: d in victims[1..] ==> d in victims;
      VictimsUntouched(env, c, s1, c', victims[1..]);
      ChainUntouched(s, s1, DeleteVictimsSpec(Ir(env, c'), c', s, victims).value, c);
    }
  }

  lemma ChainUntouched(a: DocTx, b: DocTx, d: DocTx, c: Text)
    requires b.touched <= d.touched && Untouched(a, b, c) && Untouched(b, d, c)
    ensures Untouched(a, d, c)
  {
    if forall ch :: ch in d.touched ==> ch.collection != c {
      assert forall ch :: ch in b.touched ==> ch in d.touched;
      ViewTransitive(a.tables, b.tables, d.tables, c);
    }
  }

  lemma OpUntouched(env: Env, h: seq<DocTables>, s: DocTx, op: Op, c: Text)
    requires Timed(op, |h|) && Inv(env, s.tables) && (forall t :: t in h ==> Inv(env, t)) && NulFree(c)
    requires ApplyOp(env, h, s, op).Ok?
    ensures var s' := ApplyOp(env, h, s, op).value; s.touched <= s'.touched && Untouched(s, s', c)
  {
    var s' := ApplyOp(env, h, s, op).value;
    match op
    case InsertOp(c', doc) =>
      var id := IdText(Ir(env, c').idField, doc).value;
      if c != c' { InsertElsewhere(env, c, s, c', doc, id); }
      assert DocChange(c', ChangeOp.Insert, id) in s'.touched;
    case DeleteOp(c', filter, i, j) =>
      assert h[j] in h;
      var victims := Find(env.schema.collections[c'], c', h[i], h[j], filter).value;
      if victims != [] {
        FoundVictimsOk'(env, c', h[i], h[j], filter, victims);
        VictimsUntouched(env, c, s, c', victims);
      } else {
        assert SameView(s.tables, s.tables, c);
      }
  }

  lemma {:induction false} OpsUntouched(env: Env, h: seq<DocTables>, s: DocTx, ops: Transaction, c: Text)
    requires (forall op :: op in ops ==> Timed(op, |h|)) && Inv(env, s.tables) && Consistent(env, h)
    requires NulFree(c) && ApplyOps(env, h, s, ops).Ok?
    ensures var s' := ApplyOps(env, h, s, ops).value; s.touched <= s'.touched && Untouched(s, s', c)
    decreases |ops|
  {
    if ops == [] {
      assert SameView(s.tables, s.tables, c);
    } else {
      assert ops[0] in ops;
      OneUntouched(env, h, s, ops[0], c);
      assert forall op :: op in ops[1..] ==> op in ops;
      var s1 := ApplyOp(env, h, s, ops[0]).value;
      OpsUntouched(env, h, s1, ops[1..], c);
      ChainUntouched(s, s1, ApplyOps(env, h, s, ops).value, c);
    }
  }

  lemma OneUntouched(env: Env, h: seq<DocTables>, s: DocTx, op: Op, c: Text)
    requires Timed(op, |h|) && Inv(env, s.tables) && Consistent(env, h)
    requires NulFree(c) && ApplyOp(env, h, s, op).Ok?
    ensures var s' := ApplyOp(env, h, s, op).value; s.touched <= s'.touched && Untouched(s, s', c) && Inv(env, s'.tables)
  {
    ConsistentStates(env, h);
    OpUntouched(env, h, s, op, c);
    OpKeepsInv(env, h, s, op);
  }

  /** A commit that does not announce a collection leaves every query on it unchanged. */
  lemma CommitUntouched(env: Env, h: seq<DocTables>, log: seq<Transaction>, next: seq<DocTx>, n: nat, c: Text)
    requires Run(env, h, log, next) && n < |log| && NulFree(c) && c !in TouchedCollections(next[n].touched)
    ensures SameView(h[n], h[n + 1], c)
  {
    var past := RunStep(env, h, log, next, n + 1);
    PastConsistent(env, h, log, next, n);
    TransactionUntouched(env, past, log[n], next[n], c);
  }

  lemma TransactionUntouched(env: Env, past: seq<DocTables>, ops: Transaction, next: DocTx, c: Text)
    requires past != [] && Commits(env, past, ops, next) && Consistent(env, past)
    requires NulFree(c) && c !in TouchedCollections(next.touched)
    ensures SameView(past[|past| - 1], next.tables, c)
  {
    OpsUntouched(env, past, TxState(past[|past| - 1], []), ops, c);
    assert forall ch :: ch in next.touched ==> ch.collection in TouchedCollections(next.touched);
  }

  lemma {:induction false} ViewStable(env: Env, h: seq<DocTables>, log: seq<Transaction>, next: seq<DocTx>,
                                      v: nat, w: nat, c: Text)
    requires Run(env, h, log, next) && v <= w < |h| && NulFree(c)
    requires forall n :: v <= n < w ==> c !in TouchedCollections(next[n].touched)
    ensures SameView(h[v], h[w], c)
    decreases w
  {
    if v < w {
      ViewStable(env, h, log, next, v, w - 1, c);
      CommitUntouched(env, h, log, next, w - 1, c);
      ViewTransitive(h[v], h[w - 1], h[w], c);
    }
  }

  // ---- the engine and the tables together ------------------------------------------------------

  /** The engine's commits are those of the database run. */
  ghost predicate Joined(s: LiveMachine.State, h: seq<DocTables>, next: seq<DocTx>) {
    |h| == |s.commits| + 1 == |next| + 1 && forall n :: 0 <= n < |next| ==> s.commits[n] == TouchedCollections(next[n].touched)
  }

  /** `recompute_envelope` over two reads; a panic is not modelled. */
  function Envelope(env: Env, h: seq<DocTables>, sub: Live.LiveSub, read: LiveMachine.Read): Result<seq<Value>>
    requires read.first < |h| && read.second < |h|
  {
    FindWith(env, sub.collection, h[read.first], h[read.second], sub.filter, sub.options)
  }

  /** The snapshot a subscriber saw last. */
  function LastRead(rec: LiveMachine.Record): LiveMachine.Read {
    if rec.emissions == [] then rec.initial else rec.emissions[|rec.emissions| - 1]
  }

  /** When the engine is at rest, the last snapshot of every open subscription is its query, with
      its sort order, offset and limit, on the latest committed state. A subscription that has never emitted is covered unless a commit
      on its collection fell between its initial read and its insertion. */
  lemma QuiescentFreshness(env: Env, h: seq<DocTables>, log: seq<Transaction>, next: seq<DocTx>,
                           run: seq<LiveMachine.State>, steps: seq<LiveMachine.Step>, i: nat, id: nat)
    requires Run(env, h, log, next) && LiveProperties.Behaviour(run, steps) && i < |run|
    requires Joined(run[i], h, next) && LiveProperties.Quiescent(run[i])
    requires id in run[i].subs && id !in run[i].closed
    requires run[i].subs[id].collection in env.schema.collections ==> ValidCollection(run[i].subs[id].collection)
    requires id in run[i].records && run[i].records[id].emissions == [] ==>
               !LiveProperties.GapTouched(run[i], run[i].records[id], run[i].subs[id].collection)
    ensures id in run[i].records
    ensures var sub := run[i].subs[id]; var last := LastRead(run[i].records[id]); var latest := |h| - 1;
            && last.first < |h| && last.second < |h|
            && Envelope(env, h, sub, last) == FindWith(env, sub.collection, h[latest], h[latest], sub.filter, sub.options)
  {
    var s := run[i];
    LiveProperties.InvAlways(run, steps, i);
    var rec, c, last, latest := s.records[id], s.subs[id].collection, LastRead(s.records[id]), |h| - 1;
    LiveProperties.EmissionsAccounted(run, steps, i, id);
    assert last.first <= last.second <= latest;
    if c in env.schema.collections {
      forall n | last.first <= n < latest ensures c !in TouchedCollections(next[n].touched) {
        LiveProperties.QuiescentIsFresh(run, steps, i, id, n);
        assert s.commits[n] == TouchedCollections(next[n].touched);
      }
      ViewStable(env, h, log, next, last.first, latest, c);
      ViewStable(env, h, log, next, last.second, latest, c);
    }
    FindWithDependsOnView(env, c, h[last.first], h[last.second], h[latest], s.subs[id].filter, s.subs[id].options);
  }

  /** So at rest, in a clean run, an open subscription on a declared collection shows a window of
      all matching documents of the latest state in the order it asked for; or the query's error. */
  lemma QuiescentShowsAnswer(env: Env, h: seq<DocTables>, log: seq<Transaction>, next: seq<DocTx>,
                             run: seq<LiveMachine.State>, steps: seq<LiveMachine.Step>, i: nat, id: nat)
    requires env.Compiled() && CleanSchema(env) && CleanLog(env, log)
    requires Run(env, h, log, next) && LiveProperties.Behaviour(run, steps) && i < |run|
    requires Joined(run[i], h, next) && LiveProperties.Quiescent(run[i])
    requires id in run[i].subs && id !in run[i].closed && Usable(env, run[i].subs[id].collection)
    requires id in run[i].records && run[i].records[id].emissions == [] ==>
               !LiveProperties.GapTouched(run[i], run[i].records[id], run[i].subs[id].collection)
    ensures id in run[i].records
    ensures var sub := run[i].subs[id]; var last := LastRead(run[i].records[id]);
            && last.first < |h| && last.second < |h|
            && (Envelope(env, h, sub, last).Ok? ==>
                  exists q :: IsAnswer(h[|h| - 1], sub.collection, Ir(env, sub.collection).idField, sub.filter, sub.options.sort, q)
                              && IsWindow(q, sub.options.offset, sub.options.limit, Envelope(env, h, sub, last).value))
  {
    var sub := run[i].subs[id];
    QuiescentFreshness(env, h, log, next, run, steps, i, id);
    QueryAlways(env, h, log, next, |h| - 1, sub.collection, sub.filter, sub.options);
  }
}
