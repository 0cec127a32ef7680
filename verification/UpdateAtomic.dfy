/** What an update does to the tables: an atomic replacement of every match, or nothing. */
module UpdateAtomic {
  import opened Lex
  import opened Json
  import opened Schema
  import opened Codec
  import opened Storage
  import opened Query
  import opened Collection
  import opened Invariants
  import opened FastPath
  import opened History
  import opened ExactIndex
  import opened Transactions
  import opened Update

  /** The state with the rows under `ids` merged with the patch, every other entry as it was. */
  function Replaced(m: map<Text, Value>, c: Text, ids: set<Text>, patch: Patch): map<Text, Value> {
    map k | k in m ::
      if StripPrefix(k, c).Some? && StripPrefix(k, c).value in ids then Merge(m[k], patch) else m[k]
  }

  predicate RowsAs(t: DocTables, base: DocTables, c: Text, done: set<Text>, patch: Patch) {
    t.entries == Replaced(base.entries, c, done, patch)
  }

  lemma ReplacedRow(base: DocTables, t: DocTables, c: Text, done: set<Text>, patch: Patch, u: Text)
    requires RowsAs(t, base, c, done, patch)
    ensures HasRow(t, c, u) <==> HasRow(base, c, u)
    ensures HasRow(t, c, u) ==> RowAt(t, c, u) == if u in done then Merge(RowAt(base, c, u), patch) else RowAt(base, c, u)
  {
    StripInverts(CompositeKey(c, u), c, u);
  }

  /** A patched field reads the patch, any other field the old document. */
  lemma MergedValue(doc: Value, patch: Patch, f: Text)
    requires doc.Obj?
    ensures ValueAt(Merge(doc, patch), f) ==
            if f in patch then (if patch[f].Some? then patch[f].value else Null) else ValueAt(doc, f)
  {
  }

  // ---- one match ------------------------------------------------------------------------

  /** The assumptions about the committed state: consistent, no hidden separator, and an id field
      that is literally called `id`. Stale index entries are allowed. */
  ghost predicate Updatable(env: Env, c: Text, base: DocTables) {
    && env.Compiled() && CleanSchema(env) && Usable(env, c)
    && Inv(env, base) && Clean(env, base)
    && Ir(env, c).idField == ID()
  }

  /** The patch puts no NUL into an indexed string. */
  predicate PatchSeparated(env: Env, c: Text, patch: Patch)
    requires Usable(env, c)
  {
    forall i :: i in Ir(env, c).indexes && i.field in patch && patch[i.field].Some? ==> Separated(patch[i.field].value)
  }

  /** The buffered delete of a match finds exactly that match. */
  lemma IdFilterFinds(env: Env, c: Text, base: DocTables, u: Text)
    requires Usable(env, c) && RowsValid(env, base) && Ir(env, c).idField == ID() && HasRow(base, c, u)
    ensures Find(Ir(env, c), c, base, base, IdFilter(RowAt(base, c, u))) == Ok([RowAt(base, c, u)])
  {
    var d := RowAt(base, c, u);
    assert ValidRow(env, c, u, d);
    var filter := IdFilter(d);
    assert filter.fields == map[ID() := Str(u)];
    assert ChoosePath(Ir(env, c), filter) == IdPath(u);
    assert Matches(d, filter);
    FetchOne(base, c, u);
    assert FilterDocs([d], filter) == [d] by { assert FilterDocs([d][1..], filter) == []; }
  }

  lemma FetchOne(t: DocTables, c: Text, u: Text)
    requires HasRow(t, c, u)
    ensures Fetch(t.entries, c, [u]) == [RowAt(t, c, u)]
  {
    assert Fetch(t.entries, c, [u][1..]) == [];
  }

  /** The view after the delete of one match. */
  function AfterMatchDelete(env: Env, c: Text, s: DocTx, base: DocTables, u: Text): DocTx
    requires Usable(env, c) && HasRow(base, c, u)
  {
    AfterDeleteVictim(Ir(env, c), c, s, RowAt(base, c, u), u)
  }

  lemma MatchDelete(env: Env, c: Text, s: DocTx, base: DocTables, u: Text)
    requires Usable(env, c) && RowsValid(env, base) && Ir(env, c).idField == ID() && HasRow(base, c, u)
    ensures DeleteInTxSpec(env, c, s, base, base, IdFilter(RowAt(base, c, u))) == Ok(AfterMatchDelete(env, c, s, base, u))
  {
    var d := RowAt(base, c, u);
    IdFilterFinds(env, c, base, u);
    assert ValidRow(env, c, u, d);
    var s' := AfterMatchDelete(env, c, s, base, u);
    assert [d][1..] == [];
    assert DeleteVictimsSpec(Ir(env, c), c, s', []) == Ok(s');
  }

  /** `t` has the stale keys of `base` and no others. */
  ghost predicate Tracked(env: Env, base: DocTables, t: DocTables) {
    && (forall k :: Stale(env, base, k) ==> k in t.index)
    && (forall k :: Stale(env, t, k) ==> Stale(env, base, k))
  }

  lemma MatchDeleteKeeps(env: Env, c: Text, s: DocTx, base: DocTables, done: set<Text>, patch: Patch, u: Text)
    requires Usable(env, c) && RowsValid(env, base) && Indexed(env, base) && HasRow(base, c, u) && u !in done
    requires Inv(env, s.tables) && RowsAs(s.tables, base, c, done, patch) && Tracked(env, base, s.tables)
    ensures var s' := AfterMatchDelete(env, c, s, base, u);
            Inv(env, s'.tables) && !HasRow(s'.tables, c, u) && Tracked(env, base, s'.tables)
  {
    var d := RowAt(base, c, u);
    assert ValidRow(env, c, u, d);
    ReplacedRow(base, s.tables, c, done, patch, u);
    DeleteVictimKeepsInv(env, c, s, d, u);
    DeleteTracked(env, c, s, base, u);
  }

  lemma DeleteTracked(env: Env, c: Text, s: DocTx, base: DocTables, u: Text)
    requires Usable(env, c) && Indexed(env, base) && HasRow(base, c, u) && Tracked(env, base, s.tables)
    requires HasRow(s.tables, c, u) && RowAt(s.tables, c, u) == RowAt(base, c, u)
    ensures Tracked(env, base, AfterMatchDelete(env, c, s, base, u).tables)
  {
    var d := RowAt(base, c, u);
    var t := AfterMatchDelete(env, c, s, base, u).tables;
    assert KeysPresent(base.index, RowKeys(Ir(env, c), c, u, d), u);
    forall k | k in RowKeys(Ir(env, c), c, u, d) ensures k in base.index && OwnedBy(env, base, k, c) { }
    forall k | Stale(env, t, k) ensures Stale(env, base, k) {
      forall c' | OwnedBy(env, s.tables, k, c') ensures false {
        RowAfterDelete(Ir(env, c), c, s, d, u, c', s.tables.index[k]);
        assert OwnedBy(env, t, k, c');
      }
      assert Stale(env, s.tables, k);
    }
  }

  lemma InsertTracked(env: Env, c: Text, s: DocTx, base: DocTables, m: Value, u: Text)
    requires Usable(env, c) && !HasRow(s.tables, c, u) && Tracked(env, base, s.tables)
    ensures Tracked(env, base, AfterInsert(Ir(env, c), c, s, m, u).tables)
  {
    var t := AfterInsert(Ir(env, c), c, s, m, u).tables;
    forall k | Stale(env, t, k) ensures Stale(env, base, k) {
      RowAfterInsert(Ir(env, c), c, s, m, u, c, u);
      if k in RowKeys(Ir(env, c), c, u, m) { assert OwnedBy(env, t, k, c); }
      forall c' | OwnedBy(env, s.tables, k, c') ensures false {
        RowAfterInsert(Ir(env, c), c, s, m, u, c', s.tables.index[k]);
        assert OwnedBy(env, t, k, c');
      }
      assert Stale(env, s.tables, k);
    }
  }

  /** The guard keeps the id. */
  lemma MergeKeepsId(env: Env, c: Text, u: Text, d: Value, patch: Patch)
    requires Usable(env, c) && Ir(env, c).idField == ID() && ValidRow(env, c, u, d) && GuardHolds(d, patch)
    ensures IdText(ID(), Merge(d, patch)) == Some(u)
  {
  }

  lemma MatchReplaced(env: Env, c: Text, s: DocTx, base: DocTables, done: set<Text>, patch: Patch, u: Text)
    requires Usable(env, c) && HasRow(base, c, u) && u !in done
    requires RowsAs(s.tables, base, c, done, patch)
    ensures RowsAs(AfterInsert(Ir(env, c), c, AfterMatchDelete(env, c, s, base, u), Merge(RowAt(base, c, u), patch), u).tables,
                   base, c, done + {u}, patch)
  {
    var key, m := CompositeKey(c, u), Merge(RowAt(base, c, u), patch);
    OneMoreReplaced(base, c, done, patch, u);
    assert AfterInsert(Ir(env, c), c, AfterMatchDelete(env, c, s, base, u), m, u).tables.entries
        == (s.tables.entries - {key})[key := m];
  }

  lemma OneMoreReplaced(base: DocTables, c: Text, done: set<Text>, patch: Patch, u: Text)
    requires HasRow(base, c, u) && u !in done
    ensures var key := CompositeKey(c, u);
            Replaced(base.entries, c, done + {u}, patch)
            == (Replaced(base.entries, c, done, patch) - {key})[key := Merge(RowAt(base, c, u), patch)]
  {
    StripInverts(CompositeKey(c, u), c, u);
    forall k | k in base.entries ensures StripPrefix(k, c) == Some(u) <==> k == CompositeKey(c, u) { StripInverts(k, c, u); }
  }

  /** Delete and re-insert of one match. If it succeeds, the state has one more row replaced, is as
      consistent as before, has the stale keys it had, and none of them stood in the way. */
  lemma OneMatch(env: Env, c: Text, s: DocTx, base: DocTables, done: set<Text>, patch: Patch, u: Text)
    requires Usable(env, c) && Inv(env, base) && Ir(env, c).idField == ID()
    requires HasRow(base, c, u) && u !in done && GuardHolds(RowAt(base, c, u), patch)
    requires Inv(env, s.tables) && RowsAs(s.tables, base, c, done, patch) && Tracked(env, base, s.tables)
    ensures var r := Replay(env, base, s, OpsFor(c, RowAt(base, c, u), patch));
            var m := Merge(RowAt(base, c, u), patch);
            && r == InsertInTxSpec(env, c, AfterMatchDelete(env, c, s, base, u), m)
            && (r.Ok? ==> Inv(env, r.value.tables) && RowsAs(r.value.tables, base, c, done + {u}, patch)
                          && Tracked(env, base, r.value.tables)
                          && Validates(env, Ir(env, c), m) && !StaleBlocks(env, base, c, m))
  {
    var m := Merge(RowAt(base, c, u), patch);
    var s' := AfterMatchDelete(env, c, s, base, u);
    MatchDelete(env, c, s, base, u);
    TwoOps(env, c, s, base, patch, u);
    MatchDeleteKeeps(env, c, s, base, done, patch, u);
    assert ValidRow(env, c, u, RowAt(base, c, u));
    MergeKeepsId(env, c, u, RowAt(base, c, u), patch);
    if InsertInTxSpec(env, c, s', m).Ok? {
      InsertKeepsInv(env, c, s', m);
      InsertTracked(env, c, s', base, m, u);
      MatchReplaced(env, c, s, base, done, patch, u);
      PassedMeansUnblocked(env, c, s'.tables, base, m);
    }
  }

  /** A stale key of the base that blocks a document is still there to refuse it. */
  lemma PassedMeansUnblocked(env: Env, c: Text, t: DocTables, base: DocTables, m: Value)
    requires Usable(env, c) && Tracked(env, base, t) && !UniqueTaken(Ir(env, c), c, t, m)
    ensures !StaleBlocks(env, base, c, m)
  {
    if StaleBlocks(env, base, c, m) {
      var i, k :| UniqueIndex(env, c, i) && Stale(env, base, k) && k in GroupKeys(base, c, i, m);
      KeyTakes(env, c, t, m, i, k);
    }
  }

  /** Whether the insert of a match goes through, given what was replaced before it. */
  ghost predicate StepOk(env: Env, c: Text, s: DocTx, base: DocTables, patch: Patch, u: Text)
    requires Usable(env, c) && HasRow(base, c, u)
  {
    var m := Merge(RowAt(base, c, u), patch);
    Validates(env, Ir(env, c), m) && ValueFree(env, AfterMatchDelete(env, c, s, base, u).tables, c, m)
  }

  lemma StepGoes(env: Env, c: Text, s: DocTx, base: DocTables, done: set<Text>, patch: Patch, u: Text)
    requires Updatable(env, c, base) && PatchSeparated(env, c, patch)
    requires HasRow(base, c, u) && u !in done && GuardHolds(RowAt(base, c, u), patch)
    requires Inv(env, s.tables) && RowsAs(s.tables, base, c, done, patch) && Tracked(env, base, s.tables)
    requires StepOk(env, c, s, base, patch, u) && !StaleBlocks(env, base, c, Merge(RowAt(base, c, u), patch))
    ensures Replay(env, base, s, OpsFor(c, RowAt(base, c, u), patch)).Ok?
  {
    var d := RowAt(base, c, u);
    var m := Merge(d, patch);
    var s' := AfterMatchDelete(env, c, s, base, u);
    OneMatch(env, c, s, base, done, patch, u);
    MatchDeleteKeeps(env, c, s, base, done, patch, u);
    assert ValidRow(env, c, u, d);
    MergeKeepsId(env, c, u, d, patch);
    MergeIsClean(env, c, base, patch, u);
    MergedRowsAreClean(env, c, s, base, done, patch, u);
    if StaleBlocks(env, s'.tables, c, m) { BlockedFromTheStart(env, c, s'.tables, base, m); }
    InsertSucceedsExactlyWhen(env, c, s', m);
  }

  /** A stale key that blocks now blocked from the start. */
  lemma BlockedFromTheStart(env: Env, c: Text, t: DocTables, base: DocTables, m: Value)
    requires Usable(env, c) && Tracked(env, base, t) && StaleBlocks(env, t, c, m)
    ensures StaleBlocks(env, base, c, m)
  {
    var i, k :| UniqueIndex(env, c, i) && Stale(env, t, k) && k in GroupKeys(t, c, i, m);
    assert Stale(env, base, k) && k in GroupKeys(base, c, i, m);
  }

  lemma MergeIsClean(env: Env, c: Text, base: DocTables, patch: Patch, u: Text)
    requires Usable(env, c) && RowsValid(env, base) && CleanRows(env, base) && PatchSeparated(env, c, patch) && HasRow(base, c, u)
    ensures CleanDoc(Ir(env, c), Merge(RowAt(base, c, u), patch))
  {
    var d := RowAt(base, c, u);
    assert ValidRow(env, c, u, d) && CleanDoc(Ir(env, c), d);
    forall i | i in Ir(env, c).indexes ensures Separated(ValueAt(Merge(d, patch), i.field)) {
      MergedValue(d, patch, i.field);
    }
  }

  lemma MergedRowsAreClean(env: Env, c: Text, s: DocTx, base: DocTables, done: set<Text>, patch: Patch, u: Text)
    requires Usable(env, c) && HasRow(base, c, u)
    requires RowsValid(env, base) && CleanRows(env, base) && PatchSeparated(env, c, patch)
    requires RowsAs(s.tables, base, c, done, patch)
    ensures CleanRows(env, AfterMatchDelete(env, c, s, base, u).tables)
  {
    var t := AfterMatchDelete(env, c, s, base, u).tables;
    forall c', v | Usable(env, c') && HasRow(t, c', v) ensures CleanDoc(Ir(env, c'), RowAt(t, c', v)) {
      RowAfterDelete(Ir(env, c), c, s, RowAt(base, c, u), u, c', v);
      if c' == c {
        ReplacedRow(base, s.tables, c, done, patch, v);
        if v in done { MergeIsClean(env, c, base, patch, v); }
      } else {
        OtherRow(base, s.tables, c, done, patch, c', v);
      }
    }
  }

  /** Rows of other collections are not touched. */
  lemma OtherRow(base: DocTables, t: DocTables, c: Text, done: set<Text>, patch: Patch, c': Text, v: Text)
    requires RowsAs(t, base, c, done, patch) && c' != c && NulFree(c) && NulFree(c')
    ensures HasRow(t, c', v) <==> HasRow(base, c', v)
    ensures HasRow(t, c', v) ==> RowAt(t, c', v) == RowAt(base, c', v)
  {
    var k := CompositeKey(c', v);
    if StripPrefix(k, c).Some? {
      StripInverts(k, c, StripPrefix(k, c).value);
      CompositeKeyInjective(c', v, c, StripPrefix(k, c).value);
    }
  }

  lemma TwoOps(env: Env, c: Text, s: DocTx, base: DocTables, patch: Patch, u: Text)
    requires Usable(env, c) && HasRow(base, c, u)
    requires DeleteInTxSpec(env, c, s, base, base, IdFilter(RowAt(base, c, u))) == Ok(AfterMatchDelete(env, c, s, base, u))
    ensures Replay(env, base, s, OpsFor(c, RowAt(base, c, u), patch))
         == InsertInTxSpec(env, c, AfterMatchDelete(env, c, s, base, u), Merge(RowAt(base, c, u), patch))
  {
    ReplayTwo(env, base, s, OpsFor(c, RowAt(base, c, u), patch)[0], OpsFor(c, RowAt(base, c, u), patch)[1]);
  }

  lemma ReplayTwo(env: Env, base: DocTables, s: DocTx, a: PendingOp, b: PendingOp)
    ensures Replay(env, base, s, [a, b]) ==
            match ReplayOp(env, base, s, a) case Err(e) => Err(e) case Ok(s') => ReplayOp(env, base, s', b)
  {
    assert [a] + [b] == [a, b];
    ReplayAppend(env, base, s, [a], [b]);
    ReplayOne(env, base, s, a);
    var r := ReplayOp(env, base, s, a);
    if r.Ok? { ReplayOne(env, base, r.value, b); }
  }

  lemma ReplayOne(env: Env, base: DocTables, s: DocTx, a: PendingOp)
    ensures Replay(env, base, s, [a]) == ReplayOp(env, base, s, a)
  {
    var r := ReplayOp(env, base, s, a);
    if r.Ok? { ReplayNothing(env, base, r.value, [a][1..]); }
  }

  lemma ReplayNothing(env: Env, base: DocTables, s: DocTx, ops: seq<PendingOp>)
    requires ops == []
    ensures Replay(env, base, s, ops) == Ok(s)
  {
  }

  // ---- the whole update -------------------------------------------------------------------

  function Concat(batches: seq<seq<PendingOp>>): seq<PendingOp> {
    if batches == [] then [] else batches[0] + Concat(batches[1..])
  }

  type Tracker = (nat, DocTx) -> bool

  ghost predicate StepAt(env: Env, base: DocTables, batch: seq<PendingOp>, m: nat, x: DocTx, keep: Tracker, go: Tracker) {
    keep(m, x) ==> var r := Replay(env, base, x, batch); (r.Ok? <==> go(m, x)) && (r.Ok? ==> keep(m + 1, r.value))
  }

  /** Every batch goes through exactly under `go`, and then leads from `keep` to the next `keep`. */
  ghost predicate BatchStep(env: Env, base: DocTables, batches: seq<seq<PendingOp>>, keep: Tracker, go: Tracker) {
    forall m: nat, x: DocTx :: m < |batches| ==> StepAt(env, base, batches[m], m, x, keep, go)
  }

  ghost predicate AlwaysGo(n: nat, keep: Tracker, go: Tracker) {
    forall m: nat, x: DocTx :: m < n && keep(m, x) ==> go(m, x)
  }

  lemma {:induction false} ReplayBatches(env: Env, base: DocTables, s: DocTx, batches: seq<seq<PendingOp>>, n: nat,
                                         keep: Tracker, go: Tracker)
    requires n <= |batches| && keep(n, s) && BatchStep(env, base, batches, keep, go)
    ensures Replay(env, base, s, Concat(batches[n..])).Ok? ==> keep(|batches|, Replay(env, base, s, Concat(batches[n..])).value)
    ensures AlwaysGo(|batches|, keep, go) ==> Replay(env, base, s, Concat(batches[n..])).Ok?
    decreases |batches| - n
  {
    if n < |batches| {
      assert batches[n..][1..] == batches[n + 1..];
      ReplayAppend(env, base, s, batches[n], Concat(batches[n + 1..]));
      var r := Replay(env, base, s, batches[n]);
      assert StepAt(env, base, batches[n], n, s, keep, go);
      if r.Ok? { ReplayBatches(env, base, r.value, batches, n + 1, keep, go); }
    }
  }

  function Batches(base: DocTables, c: Text, us: seq<Text>, patch: Patch): seq<seq<PendingOp>>
    requires forall n :: 0 <= n < |us| ==> HasRow(base, c, us[n])
  {
    seq(|us|, n requires 0 <= n < |us| => OpsFor(c, RowAt(base, c, us[n]), patch))
  }

  lemma {:induction false} ConcatBatches(base: DocTables, c: Text, us: seq<Text>, patch: Patch)
    requires forall n :: 0 <= n < |us| ==> HasRow(base, c, us[n])
    ensures Concat(Batches(base, c, us, patch)) == UpdateOps(c, MatchDocs(base, c, us), patch)
    decreases |us|
  {
    if us != [] {
      ConcatBatches(base, c, us[1..], patch);
      assert Batches(base, c, us, patch)[1..] == Batches(base, c, us[1..], patch);
      assert MatchDocs(base, c, us)[1..] == MatchDocs(base, c, us[1..]);
    }
  }

  function FirstIds(us: seq<Text>, n: nat): set<Text>
    requires n <= |us|
  {
    set m | 0 <= m < n :: us[m]
  }

  /** No stale key stands in the way of the first `n` merged documents, and they are valid. */
  ghost predicate Passed(env: Env, c: Text, base: DocTables, patch: Patch, us: seq<Text>, n: nat)
    requires Usable(env, c) && n <= |us| && forall j :: 0 <= j < |us| ==> HasRow(base, c, us[j])
  {
    forall j :: 0 <= j < n ==> PassedOne(env, c, base, patch, us[j])
  }

  ghost predicate PassedOne(env: Env, c: Text, base: DocTables, patch: Patch, u: Text)
    requires Usable(env, c) && HasRow(base, c, u)
  {
    var m := Merge(RowAt(base, c, u), patch);
    Validates(env, Ir(env, c), m) && !StaleBlocks(env, base, c, m)
  }

  /** After `n` matches: consistent, exactly the first `n` rows replaced, the same stale keys. */
  ghost predicate Progress(env: Env, c: Text, base: DocTables, patch: Patch, us: seq<Text>, n: nat, x: DocTx)
    requires Usable(env, c) && Matched(base, c, us, patch)
  {
    && n <= |us| && Inv(env, x.tables) && RowsAs(x.tables, base, c, FirstIds(us, n), patch) && Tracked(env, base, x.tables)
    && Passed(env, c, base, patch, us, n)
  }

  ghost predicate Matched(base: DocTables, c: Text, us: seq<Text>, patch: Patch) {
    && (forall n :: 0 <= n < |us| ==> HasRow(base, c, us[n]) && GuardHolds(RowAt(base, c, us[n]), patch))
    && (forall m, n :: 0 <= m < n < |us| ==> us[m] != us[n])
  }

  lemma MatchProgress(env: Env, c: Text, base: DocTables, patch: Patch, us: seq<Text>, n: nat, x: DocTx)
    requires Usable(env, c) && Inv(env, base) && Ir(env, c).idField == ID() && Matched(base, c, us, patch) && n < |us|
    requires Progress(env, c, base, patch, us, n, x)
    ensures var r := Replay(env, base, x, OpsFor(c, RowAt(base, c, us[n]), patch));
            r.Ok? ==> Progress(env, c, base, patch, us, n + 1, r.value)
  {
    assert us[n] !in FirstIds(us, n);
    OneMatch(env, c, x, base, FirstIds(us, n), patch, us[n]);
    assert FirstIds(us, n + 1) == FirstIds(us, n) + {us[n]};
  }

  function MatchDocs(base: DocTables, c: Text, us: seq<Text>): seq<Value>
    requires forall n :: 0 <= n < |us| ==> HasRow(base, c, us[n])
  {
    seq(|us|, n requires 0 <= n < |us| => RowAt(base, c, us[n]))
  }

  /** No two rows of one collection share a unique value. */
  ghost predicate UniqueIn(env: Env, t: DocTables, c: Text)
    requires Usable(env, c)
  {
    forall u, u', i | HasRow(t, c, u) && HasRow(t, c, u') && UniqueIndex(env, c, i) ::
      ValueAt(RowAt(t, c, u), i.field) == ValueAt(RowAt(t, c, u'), i.field) ==> u == u'
  }

  /** The replacement itself is acceptable: merged documents are valid, and unique afterwards. */
  ghost predicate Acceptable(env: Env, c: Text, base: DocTables, ids: set<Text>, patch: Patch)
    requires Usable(env, c)
  {
    && (forall u :: u in ids && HasRow(base, c, u) ==> Validates(env, Ir(env, c), Merge(RowAt(base, c, u), patch)))
    && UniqueIn(env, Tables(Replaced(base.entries, c, ids, patch), map[]), c)
  }

  /** If the final state is acceptable, no step meets a conflict: a clash with a row not yet
      replaced would still be there at the end. */
  lemma AcceptableStep(env: Env, c: Text, s: DocTx, base: DocTables, done: set<Text>, ids: set<Text>, patch: Patch, u: Text)
    requires Usable(env, c) && RowsValid(env, base) && UniqueHolds(env, base)
    requires Acceptable(env, c, base, ids, patch) && done <= ids && u in ids && u !in done && HasRow(base, c, u)
    requires RowsAs(s.tables, base, c, done, patch)
    ensures StepOk(env, c, s, base, patch, u)
  {
    var m := Merge(RowAt(base, c, u), patch);
    var s' := AfterMatchDelete(env, c, s, base, u);
    var final := Tables(Replaced(base.entries, c, ids, patch), map[]);
    forall u', i | HasRow(s'.tables, c, u') && UniqueIndex(env, c, i)
      ensures ValueAt(RowAt(s'.tables, c, u'), i.field) != ValueAt(m, i.field)
    {
      RowAfterDelete(Ir(env, c), c, s, RowAt(base, c, u), u, c, u');
      ReplacedRow(base, s.tables, c, done, patch, u');
      ReplacedRow(base, final, c, ids, patch, u');
      ReplacedRow(base, final, c, ids, patch, u);
      assert ValidRow(env, c, u, RowAt(base, c, u)) && ValidRow(env, c, u', RowAt(base, c, u'));
      MergedValue(RowAt(base, c, u), patch, i.field);
      MergedValue(RowAt(base, c, u'), patch, i.field);
    }
  }

  lemma AcceptableProgress(env: Env, c: Text, base: DocTables, patch: Patch, us: seq<Text>, n: nat, x: DocTx)
    requires Updatable(env, c, base) && PatchSeparated(env, c, patch) && Matched(base, c, us, patch) && n < |us|
    requires Progress(env, c, base, patch, us, n, x)
    requires Acceptable(env, c, base, FirstIds(us, |us|), patch) && PassedOne(env, c, base, patch, us[n])
    ensures Replay(env, base, x, OpsFor(c, RowAt(base, c, us[n]), patch)).Ok?
  {
    assert us[n] !in FirstIds(us, n);
    AcceptableStep(env, c, x, base, FirstIds(us, n), FirstIds(us, |us|), patch, us[n]);
    StepGoes(env, c, x, base, FirstIds(us, n), patch, us[n]);
  }

  ghost function Keeps(env: Env, c: Text, base: DocTables, patch: Patch, us: seq<Text>): Tracker
    requires Usable(env, c) && Matched(base, c, us, patch)
  {
    (n: nat, x: DocTx) => Progress(env, c, base, patch, us, n, x)
  }

  /** A batch goes through. */
  ghost function Goes(env: Env, base: DocTables, batches: seq<seq<PendingOp>>): Tracker {
    (n: nat, x: DocTx) => n < |batches| && Replay(env, base, x, batches[n]).Ok?
  }

  lemma MatchStepAt(env: Env, c: Text, base: DocTables, patch: Patch, us: seq<Text>, m: nat, x: DocTx)
    requires Usable(env, c) && Inv(env, base) && Ir(env, c).idField == ID() && Matched(base, c, us, patch) && m < |us|
    ensures var batches := Batches(base, c, us, patch);
            StepAt(env, base, batches[m], m, x, Keeps(env, c, base, patch, us), Goes(env, base, batches))
  {
    if Progress(env, c, base, patch, us, m, x) { MatchProgress(env, c, base, patch, us, m, x); }
  }

  lemma MatchesStep(env: Env, c: Text, base: DocTables, patch: Patch, us: seq<Text>)
    requires Usable(env, c) && Inv(env, base) && Ir(env, c).idField == ID() && Matched(base, c, us, patch)
    ensures var batches := Batches(base, c, us, patch);
            BatchStep(env, base, batches, Keeps(env, c, base, patch, us), Goes(env, base, batches))
  {
    forall m: nat, x: DocTx | m < |us| {
      MatchStepAt(env, c, base, patch, us, m, x);
    }
  }

  lemma ProgressStart(env: Env, c: Text, base: DocTables, patch: Patch, us: seq<Text>)
    requires Usable(env, c) && Inv(env, base) && Matched(base, c, us, patch)
    ensures Keeps(env, c, base, patch, us)(0, TxState(base, []))
  {
    assert RowsAs(base, base, c, FirstIds(us, 0), patch);
  }

  lemma AcceptableGoes(env: Env, c: Text, base: DocTables, patch: Patch, us: seq<Text>)
    requires Updatable(env, c, base) && PatchSeparated(env, c, patch) && Matched(base, c, us, patch)
    requires Acceptable(env, c, base, FirstIds(us, |us|), patch) && Passed(env, c, base, patch, us, |us|)
    ensures AlwaysGo(|us|, Keeps(env, c, base, patch, us), Goes(env, base, Batches(base, c, us, patch)))
  {
    var keep, go := Keeps(env, c, base, patch, us), Goes(env, base, Batches(base, c, us, patch));
    forall m: nat, x: DocTx | m < |us| && keep(m, x) ensures go(m, x) {
      AcceptableProgress(env, c, base, patch, us, m, x);
    }
  }

  /** All matches in order, as one replay. */
  lemma ReplayMatches(env: Env, c: Text, base: DocTables, patch: Patch, us: seq<Text>, keep: Tracker, go: Tracker)
    requires Matched(base, c, us, patch) && BatchStep(env, base, Batches(base, c, us, patch), keep, go)
    requires keep(0, TxState(base, []))
    ensures var r := Replay(env, base, TxState(base, []), UpdateOps(c, MatchDocs(base, c, us), patch));
            (r.Ok? ==> keep(|us|, r.value)) && (AlwaysGo(|us|, keep, go) ==> r.Ok?)
  {
    var batches := Batches(base, c, us, patch);
    ReplayBatches(env, base, TxState(base, []), batches, 0, keep, go);
    assert batches[0..] == batches;
    ConcatBatches(base, c, us, patch);
  }

  /** The patch leaves the id of every match alone. */
  ghost predicate Guarded(base: DocTables, c: Text, filter: Value, patch: Patch) {
    forall u :: u in MatchIds(base, c, filter) ==> GuardHolds(RowAt(base, c, u), patch)
  }

  /** Some match's merged document would take a unique value that a stale key occupies. */
  ghost predicate Obstructed(env: Env, c: Text, base: DocTables, filter: Value, patch: Patch)
    requires Usable(env, c)
  {
    exists u :: u in MatchIds(base, c, filter) && StaleBlocks(env, base, c, Merge(RowAt(base, c, u), patch))
  }

  /** An update is an atomic map-replace: on every consistent state, stale index entries or not, a
      successful update leaves exactly the old entries with every match merged. */
  lemma UpdateIsMapReplace(env: Env, c: Text, base: DocTables, filter: Value, patch: Patch)
    requires Updatable(env, c, base)
    requires UpdateSpec(env, c, base, filter, patch).Ok?
    ensures UpdateSpec(env, c, base, filter, patch).value.tables.entries
         == Replaced(base.entries, c, MatchIds(base, c, filter), patch)
  {
    if Guarded(base, c, filter, patch) {
      GuardedUpdate(env, c, base, filter, patch);
    } else {
      UnguardedUpdate(env, c, base, filter, patch);
    }
  }

  /** Its stale keys are the old ones, so the index is exact if it was before. */
  lemma UpdateKeepsStaleKeys(env: Env, c: Text, base: DocTables, filter: Value, patch: Patch)
    requires Updatable(env, c, base)
    requires UpdateSpec(env, c, base, filter, patch).Ok?
    ensures var t := UpdateSpec(env, c, base, filter, patch).value.tables;
            Tracked(env, base, t) && (NoStale(env, base) ==> NoStale(env, t))
  {
    if Guarded(base, c, filter, patch) {
      GuardedUpdate(env, c, base, filter, patch);
      TrackedExact(env, base, UpdateSpec(env, c, base, filter, patch).value.tables);
    } else {
      UnguardedUpdate(env, c, base, filter, patch);
    }
  }

  lemma TrackedExact(env: Env, base: DocTables, t: DocTables)
    requires Tracked(env, base, t)
    ensures NoStale(env, base) ==> NoStale(env, t)
  {
    if NoStale(env, base) {
      forall k | k in t.index ensures exists c :: OwnedBy(env, t, k, c) { assert !Stale(env, base, k); }
    }
  }

  lemma GuardedUpdate(env: Env, c: Text, base: DocTables, filter: Value, patch: Patch)
    requires Updatable(env, c, base) && Guarded(base, c, filter, patch)
    requires UpdateSpec(env, c, base, filter, patch).Ok?
    ensures var t := UpdateSpec(env, c, base, filter, patch).value.tables;
            && t.entries == Replaced(base.entries, c, MatchIds(base, c, filter), patch)
            && Inv(env, t) && Tracked(env, base, t)
  {
    MatchesInOrder(base, c, filter, patch);
    UpdateSpecIs(env, c, base, filter, patch);
    ReplayReplaces(env, c, base, patch, SortedSeq(MatchIds(base, c, filter)));
  }

  /** Row by row: an update keeps the ids of every collection and every row that does not match; a
      matching row has the patch's value in every patched field and its own in all others. The
      count it returns is the number of matching rows. */
  lemma UpdateMeans(env: Env, c: Text, base: DocTables, filter: Value, patch: Patch, c': Text, u: Text, f: Text)
    requires Updatable(env, c, base) && NulFree(c')
    requires UpdateSpec(env, c, base, filter, patch).Ok?
    ensures MatchCount(env, c, base, filter) == |MatchIds(base, c, filter)|
    ensures var t := UpdateSpec(env, c, base, filter, patch).value.tables;
            && (HasRow(t, c', u) <==> HasRow(base, c', u))
            && (HasRow(t, c', u) ==>
                  if c' == c && Matches(RowAt(base, c', u), filter) then
                    RowAt(t, c', u).Get(f) == if f in patch then patch[f] else RowAt(base, c', u).Get(f)
                  else RowAt(t, c', u) == RowAt(base, c', u))
  {
    UpdateIsMapReplace(env, c, base, filter, patch);
    CountsMatches(env, c, base, filter);
    if HasRow(base, c', u) { ReplacedMeans(env, c, base, filter, patch, c', u, f); }
  }

  lemma ReplacedMeans(env: Env, c: Text, base: DocTables, filter: Value, patch: Patch, c': Text, u: Text, f: Text)
    requires Usable(env, c) && RowsValid(env, base) && NulFree(c') && HasRow(base, c', u)
    ensures var e := Replaced(base.entries, c, MatchIds(base, c, filter), patch)[CompositeKey(c', u)];
            if c' == c && Matches(RowAt(base, c', u), filter) then
              e.Get(f) == if f in patch then patch[f] else RowAt(base, c', u).Get(f)
            else e == RowAt(base, c', u)
  {
    if c' == c {
      StripInverts(CompositeKey(c, u), c, u);
      UserKeysMember(base.entries, c, u);
      assert ValidRow(env, c, u, RowAt(base, c, u));
      MergeMeans(RowAt(base, c, u), patch, f);
    } else {
      OtherCollection(CompositeKey(c', u), c, c', u);
    }
  }

  lemma OtherCollection(k: Text, c: Text, c': Text, u: Text)
    requires k == CompositeKey(c', u) && c' != c && NulFree(c) && NulFree(c')
    ensures StripPrefix(k, c).None?
  {
    if StripPrefix(k, c).Some? {
      var v := StripPrefix(k, c).value;
      StripInverts(k, c, v);
      CompositeKeyInjective(c, v, c', u);
    }
  }

  lemma CountsMatches(env: Env, c: Text, base: DocTables, filter: Value)
    requires Updatable(env, c, base)
    ensures MatchCount(env, c, base, filter) == |MatchIds(base, c, filter)|
  {
    FastPathRefinesScan(env, c, base, filter);
    SortedSeqFacts(MatchIds(base, c, filter));
  }

  /** The matched rows carry their id as the string `id`, so the guard compares the patch with it. */
  lemma GuardMeans(env: Env, c: Text, base: DocTables, filter: Value, patch: Patch)
    requires Usable(env, c) && RowsValid(env, base) && Ir(env, c).idField == ID()
    ensures Guarded(base, c, filter, patch) <==>
            (ID() in patch ==> forall u :: u in MatchIds(base, c, filter) ==> patch[ID()] == Some(Str(u)))
  {
    forall u | u in MatchIds(base, c, filter)
      ensures GuardHolds(RowAt(base, c, u), patch) <==> (ID() in patch ==> patch[ID()] == Some(Str(u)))
    {
      assert ValidRow(env, c, u, RowAt(base, c, u));
    }
  }

  /** It succeeds if and only if the patch changes no match's id, every merged document is valid,
      the replaced collection has no duplicate unique value, and no stale key occupies a unique
      value of a merged document. */
  lemma UpdateSucceedsExactlyWhen(env: Env, c: Text, base: DocTables, filter: Value, patch: Patch)
    requires Updatable(env, c, base) && PatchSeparated(env, c, patch)
    ensures UpdateSpec(env, c, base, filter, patch).Ok? <==>
            && (ID() in patch ==> forall u :: u in MatchIds(base, c, filter) ==> patch[ID()] == Some(Str(u)))
            && Acceptable(env, c, base, MatchIds(base, c, filter), patch)
            && !Obstructed(env, c, base, filter, patch)
  {
    GuardMeans(env, c, base, filter, patch);
    SucceedsWhenGuarded(env, c, base, filter, patch);
  }

  lemma SucceedsWhenGuarded(env: Env, c: Text, base: DocTables, filter: Value, patch: Patch)
    requires Updatable(env, c, base) && PatchSeparated(env, c, patch)
    ensures UpdateSpec(env, c, base, filter, patch).Ok? <==>
            && Guarded(base, c, filter, patch) && Acceptable(env, c, base, MatchIds(base, c, filter), patch)
            && !Obstructed(env, c, base, filter, patch)
  {
    if Guarded(base, c, filter, patch) {
      var us := SortedSeq(MatchIds(base, c, filter));
      MatchesInOrder(base, c, filter, patch);
      UpdateSpecIs(env, c, base, filter, patch);
      ReplayGoesExactlyWhen(env, c, base, patch, us);
      PassedIsUnobstructed(env, c, base, filter, patch, us);
    } else {
      UnguardedUpdate(env, c, base, filter, patch);
    }
  }

  /** On an exact index there is nothing to be obstructed by. */
  lemma ExactUpdateSucceedsExactlyWhen(env: Env, c: Text, base: DocTables, filter: Value, patch: Patch)
    requires Updatable(env, c, base) && PatchSeparated(env, c, patch) && Exact(env, base)
    ensures UpdateSpec(env, c, base, filter, patch).Ok? <==>
            && (ID() in patch ==> forall u :: u in MatchIds(base, c, filter) ==> patch[ID()] == Some(Str(u)))
            && Acceptable(env, c, base, MatchIds(base, c, filter), patch)
  {
    UpdateSucceedsExactlyWhen(env, c, base, filter, patch);
    NothingObstructs(env, c, base, filter, patch);
  }

  lemma NothingObstructs(env: Env, c: Text, base: DocTables, filter: Value, patch: Patch)
    requires Usable(env, c) && Exact(env, base)
    ensures !Obstructed(env, c, base, filter, patch)
  {
  }

  lemma PassedIsUnobstructed(env: Env, c: Text, base: DocTables, filter: Value, patch: Patch, us: seq<Text>)
    requires Usable(env, c) && us == SortedSeq(MatchIds(base, c, filter)) && Matched(base, c, us, patch)
    requires FirstIds(us, |us|) == MatchIds(base, c, filter)
    ensures Acceptable(env, c, base, MatchIds(base, c, filter), patch) ==>
              (Passed(env, c, base, patch, us, |us|) <==> !Obstructed(env, c, base, filter, patch))
  {
    if Obstructed(env, c, base, filter, patch) {
      var u :| u in MatchIds(base, c, filter) && StaleBlocks(env, base, c, Merge(RowAt(base, c, u), patch));
      var n :| 0 <= n < |us| && us[n] == u;
      assert !PassedOne(env, c, base, patch, us[n]);
    } else if Acceptable(env, c, base, MatchIds(base, c, filter), patch) {
      forall n | 0 <= n < |us| ensures PassedOne(env, c, base, patch, us[n]) {
        assert us[n] in FirstIds(us, |us|);
      }
    }
  }

  lemma UnguardedUpdate(env: Env, c: Text, base: DocTables, filter: Value, patch: Patch)
    requires env.Compiled() && CleanSchema(env) && Usable(env, c) && RowsValid(env, base) && Indexed(env, base) && Clean(env, base)
    requires !Guarded(base, c, filter, patch)
    ensures UpdateSpec(env, c, base, filter, patch).Err?
  {
    var u :| u in MatchIds(base, c, filter) && !GuardHolds(RowAt(base, c, u), patch);
    FastPathRefinesScan(env, c, base, filter);
    MatchIsAnswered(base, c, filter, u);
    LoopStops(env, c, base, filter, patch, Answer(base, c, filter), RowAt(base, c, u));
  }

  lemma LoopStops(env: Env, c: Text, base: DocTables, filter: Value, patch: Patch, docs: seq<Value>, d: Value)
    requires Usable(env, c) && Find(Ir(env, c), c, base, base, filter) == Ok(docs) && d in docs && !GuardHolds(d, patch)
    ensures BufferSpec(env, c, base, filter, patch) == Err(SchemaError)
  {
  }

  lemma UpdateSpecIs(env: Env, c: Text, base: DocTables, filter: Value, patch: Patch)
    requires env.Compiled() && CleanSchema(env) && Usable(env, c) && RowsValid(env, base) && Indexed(env, base) && Clean(env, base)
    requires forall d :: d in Answer(base, c, filter) ==> GuardHolds(d, patch)
    ensures UpdateSpec(env, c, base, filter, patch)
         == Replay(env, base, TxState(base, []), UpdateOps(c, Answer(base, c, filter), patch))
  {
    FastPathRefinesScan(env, c, base, filter);
  }

  lemma ReplayReplaces(env: Env, c: Text, base: DocTables, patch: Patch, us: seq<Text>)
    requires Usable(env, c) && Inv(env, base) && Ir(env, c).idField == ID() && Matched(base, c, us, patch)
    requires Replay(env, base, TxState(base, []), UpdateOps(c, MatchDocs(base, c, us), patch)).Ok?
    ensures Progress(env, c, base, patch, us, |us|,
                     Replay(env, base, TxState(base, []), UpdateOps(c, MatchDocs(base, c, us), patch)).value)
  {
    MatchesStep(env, c, base, patch, us);
    ProgressStart(env, c, base, patch, us);
    ReplayMatches(env, c, base, patch, us, Keeps(env, c, base, patch, us), Goes(env, base, Batches(base, c, us, patch)));
  }

  lemma ReplayGoesExactlyWhen(env: Env, c: Text, base: DocTables, patch: Patch, us: seq<Text>)
    requires Updatable(env, c, base) && PatchSeparated(env, c, patch) && Matched(base, c, us, patch)
    ensures Replay(env, base, TxState(base, []), UpdateOps(c, MatchDocs(base, c, us), patch)).Ok? <==>
            Acceptable(env, c, base, FirstIds(us, |us|), patch) && Passed(env, c, base, patch, us, |us|)
  {
    var r := Replay(env, base, TxState(base, []), UpdateOps(c, MatchDocs(base, c, us), patch));
    if r.Ok? {
      ReplayReplaces(env, c, base, patch, us);
      FinalIsAcceptable(env, c, base, patch, us, r.value);
    }
    if Acceptable(env, c, base, FirstIds(us, |us|), patch) && Passed(env, c, base, patch, us, |us|) {
      AcceptableGoes(env, c, base, patch, us);
      MatchesStep(env, c, base, patch, us);
      ProgressStart(env, c, base, patch, us);
      ReplayMatches(env, c, base, patch, us, Keeps(env, c, base, patch, us), Goes(env, base, Batches(base, c, us, patch)));
    }
  }

  lemma FinalIsAcceptable(env: Env, c: Text, base: DocTables, patch: Patch, us: seq<Text>, x: DocTx)
    requires Usable(env, c) && Matched(base, c, us, patch) && Progress(env, c, base, patch, us, |us|, x)
    ensures Acceptable(env, c, base, FirstIds(us, |us|), patch)
  {
    FinalIsUnique(env, c, base, FirstIds(us, |us|), patch, x.tables);
    forall u | u in FirstIds(us, |us|) && HasRow(base, c, u)
      ensures Validates(env, Ir(env, c), Merge(RowAt(base, c, u), patch))
    {
      var n :| 0 <= n < |us| && us[n] == u;
      assert PassedOne(env, c, base, patch, us[n]);
    }
  }

  lemma MatchesInOrder(base: DocTables, c: Text, filter: Value, patch: Patch)
    requires forall u :: u in MatchIds(base, c, filter) ==> GuardHolds(RowAt(base, c, u), patch)
    ensures var us := SortedSeq(MatchIds(base, c, filter));
            && Matched(base, c, us, patch) && FirstIds(us, |us|) == MatchIds(base, c, filter)
            && Answer(base, c, filter) == MatchDocs(base, c, us)
            && forall d :: d in Answer(base, c, filter) ==> GuardHolds(d, patch)
  {
    var ids := MatchIds(base, c, filter);
    var us := SortedSeq(ids);
    SortedSeqFacts(ids);
    forall n | 0 <= n < |us| ensures us[n] in ids { assert us[n] in us; }
    forall m, n | 0 <= m < n < |us| ensures us[m] != us[n] { LessIrreflexive(us[m]); }
    forall u | u in ids ensures u in FirstIds(us, |us|) {
      assert u in us;
      var n :| 0 <= n < |us| && us[n] == u;
    }
  }

  lemma FinalIsUnique(env: Env, c: Text, base: DocTables, ids: set<Text>, patch: Patch, t: DocTables)
    requires Usable(env, c) && UniqueHolds(env, t) && RowsAs(t, base, c, ids, patch)
    ensures UniqueIn(env, Tables(Replaced(base.entries, c, ids, patch), map[]), c)
  {
    var final := Tables(Replaced(base.entries, c, ids, patch), map[]);
    forall u ensures HasRow(final, c, u) <==> HasRow(t, c, u) { }
    forall u | HasRow(final, c, u) ensures RowAt(final, c, u) == RowAt(t, c, u) { }
  }
}
