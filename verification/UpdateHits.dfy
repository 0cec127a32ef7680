/** Updates under any id field. The loop deletes by the field `id`, whatever the collection's id
    field is called: which rows its deletes hit, and when the update still is a map-replace. */
module UpdateHits {
  import opened Lex
  import opened Json
  import opened Schema
  import opened Codec
  import opened Storage
  import opened Query
  import opened Collection
  import opened Invariants
  import opened FastPath
  import opened History
  import opened ExactIndex
  import opened Transactions
  import opened Update
  import opened UpdateAtomic
  import opened UpdateRuns

  // ---- what a buffered delete hits -------------------------------------------------------------

  /** The buffered delete of row `u` removes row `v`. */
  predicate Hits(base: DocTables, c: Text, u: Text, v: Text)
    requires HasRow(base, c, u)
  {
    HasRow(base, c, v) && Matches(RowAt(base, c, v), IdFilter(RowAt(base, c, u)))
  }

  /** It hits the rows with the same value of `id`, or every row if `u` has none. */
  lemma HitsMeans(env: Env, c: Text, base: DocTables, u: Text, v: Text)
    requires Usable(env, c) && RowsValid(env, base) && HasRow(base, c, u) && HasRow(base, c, v)
    ensures Hits(base, c, u, v) <==>
            RowAt(base, c, u).Get(ID()).None? || RowAt(base, c, v).Get(ID()) == RowAt(base, c, u).Get(ID())
  {
    var d := RowAt(base, c, u);
    assert ValidRow(env, c, u, d);
    if d.Get(ID()).Some? {
      NoObjects(env, Ir(env, c), d, ID());
      MatchesById(d, RowAt(base, c, v));
    }
  }

  lemma MatchesById(d: Value, e: Value)
    requires d.Get(ID()).Some? && !d.Get(ID()).value.Obj?
    ensures Matches(e, IdFilter(d)) <==> e.Get(ID()) == d.Get(ID())
  {
    assert IdFilter(d).fields == map[ID() := d.Get(ID()).value];
  }

  /** No field of a valid document holds an object. */
  lemma NoObjects(env: Env, ir: CollectionIr, d: Value, f: Text)
    requires Validates(env, ir, d) && d.Get(f).Some?
    ensures !d.Get(f).value.Obj?
  {
    var field := ir.Field(f).value;
    assert FieldAccepts(env, field, d.Get(field.name));
  }

  lemma DeletedRows(env: Env, c: Text, s: DocTx, base: DocTables, u: Text, v: Text)
    requires env.Compiled() && CleanSchema(env) && Usable(env, c)
    requires RowsValid(env, base) && Indexed(env, base) && Clean(env, base) && HasRow(base, c, u)
    requires DeleteInTxSpec(env, c, s, base, base, IdFilter(RowAt(base, c, u))).Ok?
    ensures var t := DeleteInTxSpec(env, c, s, base, base, IdFilter(RowAt(base, c, u))).value.tables;
            && (HasRow(t, c, v) <==> HasRow(s.tables, c, v) && !Hits(base, c, u, v))
            && (HasRow(t, c, v) ==> RowAt(t, c, v) == RowAt(s.tables, c, v))
  {
    var ir, filter := Ir(env, c), IdFilter(RowAt(base, c, u));
    var victims := Answer(base, c, filter);
    FastPathRefinesScan(env, c, base, filter);
    VictimsAreGone(env, c, s, victims, v);
    AnswerHolds(env, c, base, filter, v);
  }

  /** The ids of an answer are those of the matching rows. */
  lemma AnswerHolds(env: Env, c: Text, base: DocTables, filter: Value, v: Text)
    requires Usable(env, c) && RowsValid(env, base)
    ensures (exists d :: d in Answer(base, c, filter) && IdText(Ir(env, c).idField, d) == Some(v))
            <==> HasRow(base, c, v) && Matches(RowAt(base, c, v), filter)
  {
    var us := SortedSeq(MatchIds(base, c, filter));
    SortedSeqFacts(MatchIds(base, c, filter));
    UserKeysMember(base.entries, c, v);
    if d :| d in Answer(base, c, filter) && IdText(Ir(env, c).idField, d) == Some(v) {
      var n :| 0 <= n < |us| && Answer(base, c, filter)[n] == d;
      assert us[n] in us && ValidRow(env, c, us[n], d);
    }
    if HasRow(base, c, v) && Matches(RowAt(base, c, v), filter) {
      MatchIsAnswered(base, c, filter, v);
      assert ValidRow(env, c, v, RowAt(base, c, v));
    }
  }

  /** Deletes of one collection leave every key of another alone. */
  lemma {:induction false} VictimsLeaveOthers(ir: CollectionIr, c: Text, s: DocTx, victims: seq<Value>, k: Text)
    requires DeleteVictimsSpec(ir, c, s, victims).Ok? && StripPrefix(k, c).None?
    ensures var t := DeleteVictimsSpec(ir, c, s, victims).value.tables;
            && (k in t.entries <==> k in s.tables.entries) && (k in t.entries ==> t.entries[k] == s.tables.entries[k])
    decreases |victims|
  {
    if victims != [] {
      var id := IdText(ir.idField, victims[0]).value;
      StripInverts(CompositeKey(c, id), c, id);
      VictimsLeaveOthers(ir, c, AfterDeleteVictim(ir, c, s, victims[0], id), victims[1..], k);
    }
  }

  // ---- the rows after n matches ---------------------------------------------------------------------

  ghost predicate AllRows(base: DocTables, c: Text, us: seq<Text>) {
    forall n :: 0 <= n < |us| ==> HasRow(base, c, us[n])
  }

  /** Every delete of the first `n` matches that hit row `v` was followed by the re-insert of `v`. */
  ghost predicate Alive(base: DocTables, c: Text, us: seq<Text>, n: nat, v: Text)
    requires n <= |us| && AllRows(base, c, us)
  {
    forall j :: 0 <= j < n && Hits(base, c, us[j], v) ==> Redone(us, j, n, v)
  }

  ghost predicate Redone(us: seq<Text>, j: nat, n: nat, v: Text)
    requires n <= |us|
  {
    exists i :: j <= i < n && us[i] == v
  }

  ghost predicate RowAccount(base: DocTables, c: Text, patch: Patch, us: seq<Text>, n: nat, t: DocTables, v: Text)
    requires n <= |us| && AllRows(base, c, us)
  {
    && (HasRow(t, c, v) <==> HasRow(base, c, v) && Alive(base, c, us, n, v))
    && (HasRow(t, c, v) && HasRow(base, c, v) ==>
          RowAt(t, c, v) == if v in FirstIds(us, n) then Merge(RowAt(base, c, v), patch) else RowAt(base, c, v))
  }

  ghost predicate OtherKey(base: DocTables, c: Text, t: DocTables, k: Text) {
    StripPrefix(k, c).None? ==>
      (k in t.entries <==> k in base.entries) && (k in t.entries ==> t.entries[k] == base.entries[k])
  }

  /** The rows after `n` matches. */
  ghost predicate Account(base: DocTables, c: Text, patch: Patch, us: seq<Text>, n: nat, x: DocTx)
    requires AllRows(base, c, us)
  {
    && n <= |us| && (forall v :: RowAccount(base, c, patch, us, n, x.tables, v))
    && (forall k :: OtherKey(base, c, x.tables, k))
  }

  /** The merged document of every match keeps its id. */
  ghost predicate IdsKept(env: Env, c: Text, base: DocTables, us: seq<Text>, patch: Patch)
    requires Usable(env, c) && AllRows(base, c, us)
  {
    forall n :: 0 <= n < |us| ==> IdText(Ir(env, c).idField, Merge(RowAt(base, c, us[n]), patch)) == Some(us[n])
  }

  lemma AliveStep(base: DocTables, c: Text, us: seq<Text>, n: nat, v: Text)
    requires n < |us| && AllRows(base, c, us)
    ensures Alive(base, c, us, n + 1, v) <==> v == us[n] || (Alive(base, c, us, n, v) && !Hits(base, c, us[n], v))
  {
    if v == us[n] {
      var m := n + 1;
      forall j | 0 <= j < m ensures Redone(us, j, m, v) { assert us[n] == v; }
    } else {
      forall j | 0 <= j < n ensures Redone(us, j, n + 1, v) <==> Redone(us, j, n, v) {
        if Redone(us, j, n, v) { var i :| j <= i < n && us[i] == v; assert j <= i < n + 1; }
      }
      assert !Redone(us, n, n + 1, v);
    }
  }

  lemma HitStep(env: Env, c: Text, base: DocTables, patch: Patch, us: seq<Text>, n: nat, x: DocTx)
    requires env.Compiled() && CleanSchema(env) && Usable(env, c)
    requires RowsValid(env, base) && Indexed(env, base) && Clean(env, base)
    requires n < |us| && AllRows(base, c, us) && IdsKept(env, c, base, us, patch) && Account(base, c, patch, us, n, x)
    requires Replay(env, base, x, OpsFor(c, RowAt(base, c, us[n]), patch)).Ok?
    ensures Account(base, c, patch, us, n + 1, Replay(env, base, x, OpsFor(c, RowAt(base, c, us[n]), patch)).value)
  {
    var u, d := us[n], RowAt(base, c, us[n]);
    var s' := ReplayedMatch(env, c, x, base, patch, d);
    var r := AfterInsert(Ir(env, c), c, s', Merge(d, patch), u);
    InsertedAs(env, c, s', Merge(d, patch), u);
    var m := n + 1;
    forall v ensures RowAccount(base, c, patch, us, m, r.tables, v) {
      DeletedRows(env, c, x, base, u, v);
      HitStepRow(env, c, base, patch, us, n, x, s', v);
    }
    forall k ensures OtherKey(base, c, r.tables, k) {
      OtherKeyStep(env, c, x, base, patch, d, s', u, k);
    }
  }

  lemma InsertedAs(env: Env, c: Text, s: DocTx, m: Value, u: Text)
    requires Usable(env, c) && InsertInTxSpec(env, c, s, m).Ok? && IdText(Ir(env, c).idField, m) == Some(u)
    ensures InsertInTxSpec(env, c, s, m) == Ok(AfterInsert(Ir(env, c), c, s, m, u))
  {
  }

  lemma HitStepRow(env: Env, c: Text, base: DocTables, patch: Patch, us: seq<Text>, n: nat, x: DocTx, s': DocTx, v: Text)
    requires Usable(env, c) && n < |us| && AllRows(base, c, us) && RowAccount(base, c, patch, us, n, x.tables, v)
    requires HasRow(s'.tables, c, v) <==> HasRow(x.tables, c, v) && !Hits(base, c, us[n], v)
    requires HasRow(s'.tables, c, v) ==> RowAt(s'.tables, c, v) == RowAt(x.tables, c, v)
    ensures var t := AfterInsert(Ir(env, c), c, s', Merge(RowAt(base, c, us[n]), patch), us[n]).tables;
            RowAccount(base, c, patch, us, n + 1, t, v)
  {
    RowAfterInsert(Ir(env, c), c, s', Merge(RowAt(base, c, us[n]), patch), us[n], c, v);
    AliveStep(base, c, us, n, v);
    assert FirstIds(us, n + 1) == FirstIds(us, n) + {us[n]};
  }

  lemma OtherKeyStep(env: Env, c: Text, x: DocTx, base: DocTables, patch: Patch, d: Value, s': DocTx, u: Text, k: Text)
    requires Usable(env, c) && OtherKey(base, c, x.tables, k)
    requires DeleteInTxSpec(env, c, x, base, base, IdFilter(d)) == Ok(s')
    ensures OtherKey(base, c, AfterInsert(Ir(env, c), c, s', Merge(d, patch), u).tables, k)
  {
    if StripPrefix(k, c).None? {
      VictimsLeaveOthers(Ir(env, c), c, x, Find(Ir(env, c), c, base, base, IdFilter(d)).value, k);
      StripInverts(CompositeKey(c, u), c, u);
    }
  }

  lemma {:induction false} ReplayAccount(env: Env, c: Text, base: DocTables, patch: Patch, us: seq<Text>, n: nat, x: DocTx)
    requires env.Compiled() && CleanSchema(env) && Usable(env, c)
    requires RowsValid(env, base) && Indexed(env, base) && Clean(env, base)
    requires AllRows(base, c, us) && IdsKept(env, c, base, us, patch) && Account(base, c, patch, us, n, x)
    requires Replay(env, base, x, UpdateOps(c, MatchDocs(base, c, us)[n..], patch)).Ok?
    ensures Account(base, c, patch, us, |us|, Replay(env, base, x, UpdateOps(c, MatchDocs(base, c, us)[n..], patch)).value)
    decreases |us| - n
  {
    var docs := MatchDocs(base, c, us)[n..];
    if n < |us| {
      assert docs[1..] == MatchDocs(base, c, us)[n + 1..];
      ReplayAppend(env, base, x, OpsFor(c, docs[0], patch), UpdateOps(c, docs[1..], patch));
      HitStep(env, c, base, patch, us, n, x);
      var x' := Replay(env, base, x, OpsFor(c, docs[0], patch)).value;
      ReplayAccount(env, c, base, patch, us, n + 1, x');
    } else {
      assert UpdateOps(c, docs, patch) == [];
    }
  }

  // ---- when an update is a map-replace ----------------------------------------------------------------

  /** Every row that the delete of match `j` hits is that match or a later one. */
  ghost predicate HarmlessAt(base: DocTables, c: Text, us: seq<Text>, j: nat)
    requires AllRows(base, c, us) && j < |us|
  {
    forall v :: Hits(base, c, us[j], v) ==> Redone(us, j, |us|, v)
  }

  ghost predicate Harmless(base: DocTables, c: Text, us: seq<Text>)
    requires AllRows(base, c, us)
  {
    forall j :: 0 <= j < |us| ==> HarmlessAt(base, c, us, j)
  }

  lemma AccountIsReplaced(base: DocTables, c: Text, patch: Patch, us: seq<Text>, x: DocTx)
    requires AllRows(base, c, us) && Account(base, c, patch, us, |us|, x)
    ensures x.tables.entries == Replaced(base.entries, c, FirstIds(us, |us|), patch) <==> Harmless(base, c, us)
  {
    var goal := Replaced(base.entries, c, FirstIds(us, |us|), patch);
    if Harmless(base, c, us) {
      forall k ensures k in x.tables.entries <==> k in goal { KeyReplaced(base, c, patch, us, x, k); }
      forall k | k in goal ensures x.tables.entries[k] == goal[k] { KeyReplaced(base, c, patch, us, x, k); }
    }
    if x.tables.entries == goal {
      forall j, v | 0 <= j < |us| && Hits(base, c, us[j], v) ensures Redone(us, j, |us|, v) {
        assert RowAccount(base, c, patch, us, |us|, x.tables, v);
        assert HasRow(x.tables, c, v);
      }
    }
  }

  lemma KeyReplaced(base: DocTables, c: Text, patch: Patch, us: seq<Text>, x: DocTx, k: Text)
    requires AllRows(base, c, us) && Account(base, c, patch, us, |us|, x) && Harmless(base, c, us)
    ensures var goal := Replaced(base.entries, c, FirstIds(us, |us|), patch);
            (k in x.tables.entries <==> k in goal) && (k in goal ==> x.tables.entries[k] == goal[k])
  {
    assert OtherKey(base, c, x.tables, k);
    if StripPrefix(k, c).Some? {
      var v := StripPrefix(k, c).value;
      StripInverts(k, c, v);
      assert RowAccount(base, c, patch, us, |us|, x.tables, v);
      HarmlessIsAlive(base, c, us, v);
    }
  }

  lemma HarmlessIsAlive(base: DocTables, c: Text, us: seq<Text>, v: Text)
    requires AllRows(base, c, us) && Harmless(base, c, us)
    ensures Alive(base, c, us, |us|, v)
  {
    forall j | 0 <= j < |us| && Hits(base, c, us[j], v) ensures Redone(us, j, |us|, v) { assert HarmlessAt(base, c, us, j); }
  }

  /** The patch does not re-key a match. */
  ghost predicate KeysKept(env: Env, c: Text, base: DocTables, filter: Value, patch: Patch)
    requires Usable(env, c)
  {
    Ir(env, c).idField in patch ==> forall u :: u in MatchIds(base, c, filter) ==> patch[Ir(env, c).idField] == Some(Str(u))
  }

  lemma KeyKeptIsIdKept(env: Env, c: Text, d: Value, patch: Patch, u: Text)
    requires Usable(env, c) && ValidRow(env, c, u, d)
    ensures IdText(Ir(env, c).idField, Merge(d, patch)) == Some(u)
            <==> (Ir(env, c).idField in patch ==> patch[Ir(env, c).idField] == Some(Str(u)))
  {
  }

  lemma KeysKeptIsIdsKept(env: Env, c: Text, base: DocTables, filter: Value, patch: Patch, us: seq<Text>)
    requires Usable(env, c) && RowsValid(env, base) && AllRows(base, c, us) && FirstIds(us, |us|) == MatchIds(base, c, filter)
    ensures KeysKept(env, c, base, filter, patch) <==> IdsKept(env, c, base, us, patch)
  {
    forall n | 0 <= n < |us|
      ensures us[n] in MatchIds(base, c, filter)
      ensures IdText(Ir(env, c).idField, Merge(RowAt(base, c, us[n]), patch)) == Some(us[n])
              <==> (Ir(env, c).idField in patch ==> patch[Ir(env, c).idField] == Some(Str(us[n])))
    {
      assert us[n] in FirstIds(us, |us|);
      KeyKeptIsIdKept(env, c, RowAt(base, c, us[n]), patch, us[n]);
    }
  }

  /** A consistent, clean state; the id field may have any name. */
  ghost predicate Settled(env: Env, c: Text, base: DocTables) {
    env.Compiled() && CleanSchema(env) && Usable(env, c) && Inv(env, base) && Clean(env, base)
  }

  /** Under any id field, the loop buffers every match if and only if a patch that names `id` has
      the same value, no array or object, as each of them; otherwise it stops with a schema error. */
  lemma LoopPassesExactlyWhen(env: Env, c: Text, base: DocTables, filter: Value, patch: Patch)
    requires Settled(env, c, base)
    ensures BufferSpec(env, c, base, filter, patch).Ok? <==>
            (ID() in patch ==> forall u :: u in MatchIds(base, c, filter) ==>
               && patch[ID()] == RowAt(base, c, u).Get(ID())
               && (patch[ID()].Some? ==> !patch[ID()].value.Arr? && !patch[ID()].value.Obj?))
    ensures BufferSpec(env, c, base, filter, patch) ==
            if BufferSpec(env, c, base, filter, patch).Ok? then Ok(UpdateOps(c, Answer(base, c, filter), patch))
            else Err(SchemaError)
  {
    BufferedWhenGuarded(env, c, base, filter, patch);
  }

  lemma BufferedWhenGuarded(env: Env, c: Text, base: DocTables, filter: Value, patch: Patch)
    requires Settled(env, c, base)
    ensures BufferSpec(env, c, base, filter, patch) ==
            if Guarded(base, c, filter, patch) then Ok(UpdateOps(c, Answer(base, c, filter), patch)) else Err(SchemaError)
  {
    FastPathRefinesScan(env, c, base, filter);
    if Guarded(base, c, filter, patch) {
      MatchesInOrder(base, c, filter, patch);
      LoopPasses(env, c, base, filter, patch, Answer(base, c, filter));
    } else {
      var u :| u in MatchIds(base, c, filter) && !GuardHolds(RowAt(base, c, u), patch);
      MatchIsAnswered(base, c, filter, u);
      LoopStops(env, c, base, filter, patch, Answer(base, c, filter), RowAt(base, c, u));
    }
  }

  lemma LoopPasses(env: Env, c: Text, base: DocTables, filter: Value, patch: Patch, docs: seq<Value>)
    requires Usable(env, c) && Find(Ir(env, c), c, base, base, filter) == Ok(docs)
    requires forall d :: d in docs ==> GuardHolds(d, patch)
    ensures BufferSpec(env, c, base, filter, patch) == Ok(UpdateOps(c, docs, patch))
  {
  }

  /** Under any id field, a successful update leaves the old entries with every match merged if and
      only if the patch re-keys no match and every row that the delete of a match hits is that
      match or a later one. */
  lemma UpdateReplacesExactlyWhen(env: Env, c: Text, base: DocTables, filter: Value, patch: Patch)
    requires Settled(env, c, base) && UpdateSpec(env, c, base, filter, patch).Ok?
    ensures var us := SortedSeq(MatchIds(base, c, filter));
            && AllRows(base, c, us)
            && (UpdateSpec(env, c, base, filter, patch).value.tables.entries
                == Replaced(base.entries, c, MatchIds(base, c, filter), patch)
                <==> KeysKept(env, c, base, filter, patch) && Harmless(base, c, us))
  {
    var us := SortedSeq(MatchIds(base, c, filter));
    if !Guarded(base, c, filter, patch) { UnguardedUpdate(env, c, base, filter, patch); }
    MatchesInOrder(base, c, filter, patch);
    KeysKeptIsIdsKept(env, c, base, filter, patch, us);
    if KeysKept(env, c, base, filter, patch) {
      KeptUpdate(env, c, base, filter, patch, us);
    } else {
      RekeyedUpdate(env, c, base, filter, patch);
    }
  }

  lemma KeptUpdate(env: Env, c: Text, base: DocTables, filter: Value, patch: Patch, us: seq<Text>)
    requires Settled(env, c, base) && UpdateSpec(env, c, base, filter, patch).Ok? && Guarded(base, c, filter, patch)
    requires us == SortedSeq(MatchIds(base, c, filter)) && AllRows(base, c, us) && IdsKept(env, c, base, us, patch)
    ensures UpdateSpec(env, c, base, filter, patch).value.tables.entries
            == Replaced(base.entries, c, MatchIds(base, c, filter), patch)
            <==> Harmless(base, c, us)
  {
    MatchesInOrder(base, c, filter, patch);
    UpdateSpecIs(env, c, base, filter, patch);
    KeptReplay(env, c, base, patch, us);
  }

  lemma KeptReplay(env: Env, c: Text, base: DocTables, patch: Patch, us: seq<Text>)
    requires env.Compiled() && CleanSchema(env) && Usable(env, c)
    requires RowsValid(env, base) && Indexed(env, base) && Clean(env, base)
    requires AllRows(base, c, us) && IdsKept(env, c, base, us, patch)
    requires Replay(env, base, TxState(base, []), UpdateOps(c, MatchDocs(base, c, us), patch)).Ok?
    ensures Replay(env, base, TxState(base, []), UpdateOps(c, MatchDocs(base, c, us), patch)).value.tables.entries
            == Replaced(base.entries, c, FirstIds(us, |us|), patch)
            <==> Harmless(base, c, us)
  {
    var x, docs := TxState(base, []), MatchDocs(base, c, us);
    AccountStart(base, c, patch, us);
    assert docs[0..] == docs;
    ReplayAccount(env, c, base, patch, us, 0, x);
    AccountIsReplaced(base, c, patch, us, Replay(env, base, x, UpdateOps(c, docs, patch)).value);
  }

  lemma AccountStart(base: DocTables, c: Text, patch: Patch, us: seq<Text>)
    requires AllRows(base, c, us)
    ensures Account(base, c, patch, us, 0, TxState(base, []))
  {
  }

  /** A re-keyed match would be filed under an id that is not its own. */
  lemma RekeyedUpdate(env: Env, c: Text, base: DocTables, filter: Value, patch: Patch)
    requires Usable(env, c) && Inv(env, base) && UpdateSpec(env, c, base, filter, patch).Ok?
    requires !KeysKept(env, c, base, filter, patch)
    ensures UpdateSpec(env, c, base, filter, patch).value.tables.entries
         != Replaced(base.entries, c, MatchIds(base, c, filter), patch)
  {
    var t := UpdateSpec(env, c, base, filter, patch).value.tables;
    UpdateKeepsInv(env, c, base, filter, patch);
    var u :| u in MatchIds(base, c, filter) && patch[Ir(env, c).idField] != Some(Str(u));
    if t.entries == Replaced(base.entries, c, MatchIds(base, c, filter), patch) {
      ReplacedKeepsKey(env, c, base, t, MatchIds(base, c, filter), patch, u);
    }
  }

  lemma ReplacedKeepsKey(env: Env, c: Text, base: DocTables, t: DocTables, ids: set<Text>, patch: Patch, u: Text)
    requires Usable(env, c) && RowsValid(env, t) && RowsAs(t, base, c, ids, patch) && u in ids && HasRow(base, c, u)
    requires Ir(env, c).idField in patch
    ensures patch[Ir(env, c).idField] == Some(Str(u))
  {
    ReplacedRow(base, t, c, ids, patch, u);
    assert ValidRow(env, c, u, RowAt(t, c, u));
  }

  /** Where documents have no field `id`, deletes are harmless if and only if nothing matches or
      the collection has a single row. */
  lemma HarmlessWithoutId(env: Env, c: Text, base: DocTables, us: seq<Text>)
    requires Usable(env, c) && RowsValid(env, base) && Ir(env, c).Field(ID()).None?
    requires AllRows(base, c, us) && forall m, n :: 0 <= m < n < |us| ==> us[m] != us[n]
    ensures Harmless(base, c, us) <==> us == [] || OnlyRow(base, c, us[0])
  {
    if us != [] {
      if Harmless(base, c, us) { HarmlessLeavesLast(env, c, base, us); }
      if OnlyRow(base, c, us[0]) {
        forall j, v | 0 <= j < |us| && Hits(base, c, us[j], v) ensures Redone(us, j, |us|, v) { assert us[j] == v == us[0]; }
      }
    }
  }

  lemma HarmlessLeavesLast(env: Env, c: Text, base: DocTables, us: seq<Text>)
    requires Usable(env, c) && RowsValid(env, base) && Ir(env, c).Field(ID()).None?
    requires AllRows(base, c, us) && us != [] && Harmless(base, c, us)
    ensures OnlyRow(base, c, us[0])
  {
    var last := |us| - 1;
    forall v | HasRow(base, c, v) ensures v == us[last] {
      AllAreHit(env, c, base, us[last], v);
      LastHitsItself(base, c, us, v);
    }
    assert HasRow(base, c, us[0]) && HasRow(base, c, us[last]);
  }

  lemma LastHitsItself(base: DocTables, c: Text, us: seq<Text>, v: Text)
    requires AllRows(base, c, us) && us != [] && Harmless(base, c, us) && Hits(base, c, us[|us| - 1], v)
    ensures v == us[|us| - 1]
  {
    HitIsRedone(base, c, us, |us| - 1, v);
  }

  lemma AllAreHit(env: Env, c: Text, base: DocTables, u: Text, v: Text)
    requires Usable(env, c) && RowsValid(env, base) && Ir(env, c).Field(ID()).None?
    requires HasRow(base, c, u) && HasRow(base, c, v)
    ensures Hits(base, c, u, v)
  {
    HitsMeans(env, c, base, u, v);
    assert ValidRow(env, c, u, RowAt(base, c, u));
  }

  /** So an update of such a collection is a map-replace if and only if it matches nothing or meets
      a single row, and does not re-key it. */
  lemma UpdateWithoutIdReplacesExactlyWhen(env: Env, c: Text, base: DocTables, filter: Value, patch: Patch)
    requires Settled(env, c, base) && UpdateSpec(env, c, base, filter, patch).Ok?
    requires Ir(env, c).Field(ID()).None?
    ensures var ids := MatchIds(base, c, filter);
            UpdateSpec(env, c, base, filter, patch).value.tables.entries == Replaced(base.entries, c, ids, patch)
            <==> KeysKept(env, c, base, filter, patch) && (ids == {} || exists u :: u in ids && OnlyRow(base, c, u))
  {
    var us := SortedSeq(MatchIds(base, c, filter));
    UpdateReplacesExactlyWhen(env, c, base, filter, patch);
    SortedSeqFacts(MatchIds(base, c, filter));
    DistinctIdsInOrder(base, c, filter);
    HarmlessWithoutId(env, c, base, us);
    if us != [] {
      assert us[0] in us;
      if u :| u in MatchIds(base, c, filter) && OnlyRow(base, c, u) { assert HasRow(base, c, us[0]); }
    }
  }

  lemma DistinctIdsInOrder(base: DocTables, c: Text, filter: Value)
    ensures var us := SortedSeq(MatchIds(base, c, filter)); forall m, n :: 0 <= m < n < |us| ==> us[m] != us[n]
  {
    var us := SortedSeq(MatchIds(base, c, filter));
    SortedSeqFacts(MatchIds(base, c, filter));
    forall m, n | 0 <= m < n < |us| ensures us[m] != us[n] { LessIrreflexive(us[m]); }
  }

  /** Where every match has a value of `id`, deletes are harmless if and only if no other row of the
      collection has the `id` value of a match. */
  lemma HarmlessWithId(env: Env, c: Text, base: DocTables, us: seq<Text>)
    requires Usable(env, c) && RowsValid(env, base) && AllRows(base, c, us)
    requires forall m, n :: 0 <= m < n < |us| ==> us[m] != us[n]
    requires forall n :: 0 <= n < |us| ==> RowAt(base, c, us[n]).Get(ID()).Some?
    ensures Harmless(base, c, us) <==> forall n :: 0 <= n < |us| ==> OwnId(base, c, us[n])
  {
    if Harmless(base, c, us) {
      forall n | 0 <= n < |us| ensures OwnId(base, c, us[n]) { HarmlessOwnsId(env, c, base, us, n); }
    }
    if forall n :: 0 <= n < |us| ==> OwnId(base, c, us[n]) {
      forall j, v | 0 <= j < |us| && Hits(base, c, us[j], v) ensures Redone(us, j, |us|, v) {
        HitsMeans(env, c, base, us[j], v);
        assert OwnId(base, c, us[j]);
      }
    }
  }

  lemma HarmlessOwnsId(env: Env, c: Text, base: DocTables, us: seq<Text>, n: nat)
    requires Usable(env, c) && RowsValid(env, base) && AllRows(base, c, us) && Harmless(base, c, us)
    requires (forall m, k :: 0 <= m < k < |us| ==> us[m] != us[k]) && n < |us|
    ensures OwnId(base, c, us[n])
  {
    forall v | HasRow(base, c, v) && RowAt(base, c, v).Get(ID()) == RowAt(base, c, us[n]).Get(ID()) ensures v == us[n] {
      HitsMeans(env, c, base, us[n], v);
      HitsMeans(env, c, base, v, us[n]);
      MutualHits(base, c, us, n, v);
    }
  }

  /** Of two matches that hit each other, one is hit after its re-insert. */
  lemma MutualHits(base: DocTables, c: Text, us: seq<Text>, n: nat, v: Text)
    requires AllRows(base, c, us) && Harmless(base, c, us) && n < |us| && HasRow(base, c, v)
    requires forall m, k :: 0 <= m < k < |us| ==> us[m] != us[k]
    requires Hits(base, c, us[n], v) && Hits(base, c, v, us[n])
    ensures v == us[n]
  {
    HitIsRedone(base, c, us, n, v);
    var i :| n <= i < |us| && us[i] == v;
    HitIsRedone(base, c, us, i, us[n]);
    RedoneIsLater(us, i, n);
  }

  lemma RedoneIsLater(us: seq<Text>, i: nat, n: nat)
    requires n < |us| && Redone(us, i, |us|, us[n])
    requires forall m, k :: 0 <= m < k < |us| ==> us[m] != us[k]
    ensures i <= n
  {
    var j :| i <= j < |us| && us[j] == us[n];
    assert j == n;
  }

  lemma HitIsRedone(base: DocTables, c: Text, us: seq<Text>, n: nat, v: Text)
    requires AllRows(base, c, us) && Harmless(base, c, us) && n < |us| && Hits(base, c, us[n], v)
    ensures Redone(us, n, |us|, v)
  {
    assert HarmlessAt(base, c, us, n);
  }

  /** No other committed row of the collection has the `id` value of row `u`. */
  ghost predicate OwnId(base: DocTables, c: Text, u: Text)
    requires HasRow(base, c, u)
  {
    forall v :: HasRow(base, c, v) && RowAt(base, c, v).Get(ID()) == RowAt(base, c, u).Get(ID()) ==> v == u
  }

  /** So an update whose matches all have a value of `id`, as under a required field of that name,
      is a map-replace if and only if no other committed row shares the value with a match, and
      the patch re-keys none. */
  lemma UpdateWithIdReplacesExactlyWhen(env: Env, c: Text, base: DocTables, filter: Value, patch: Patch)
    requires Settled(env, c, base) && UpdateSpec(env, c, base, filter, patch).Ok?
    requires forall u :: u in MatchIds(base, c, filter) ==> RowAt(base, c, u).Get(ID()).Some?
    ensures UpdateSpec(env, c, base, filter, patch).value.tables.entries
            == Replaced(base.entries, c, MatchIds(base, c, filter), patch)
            <==> && KeysKept(env, c, base, filter, patch)
                 && forall u :: u in MatchIds(base, c, filter) ==> OwnId(base, c, u)
  {
    var us := SortedSeq(MatchIds(base, c, filter));
    UpdateReplacesExactlyWhen(env, c, base, filter, patch);
    SortedSeqFacts(MatchIds(base, c, filter));
    DistinctIdsInOrder(base, c, filter);
    forall n | 0 <= n < |us| ensures us[n] in MatchIds(base, c, filter) { assert us[n] in us; }
    HarmlessWithId(env, c, base, us);
    forall u | u in MatchIds(base, c, filter) ensures u in us { }
  }

  // ---- what is left of a collection without a field `id` ------------------------------------------------

  /** The buffered delete `{ id: doc.id }` of a document without a field `id` is the empty filter:
      it deletes every committed row of the collection. */
  lemma MissingIdDeletesAll(env: Env, c: Text, s: DocTx, base: DocTables, d: Value)
    requires Usable(env, c) && RowsValid(env, base) && d.Get(ID()).None?
    requires forall u :: HasRow(s.tables, c, u) ==> HasRow(base, c, u)
    requires DeleteInTxSpec(env, c, s, base, base, IdFilter(d)).Ok?
    ensures forall u :: !HasRow(DeleteInTxSpec(env, c, s, base, base, IdFilter(d)).value.tables, c, u)
  {
    var ir := Ir(env, c);
    var victims := Find(ir, c, base, base, IdFilter(d)).value;
    assert ChoosePath(ir, IdFilter(d)).ScanPath? by { NoIndexForEmpty(ir.indexes); }
    ScanIsAnswer(base, c, IdFilter(d));
    var us := SortedSeq(MatchIds(base, c, IdFilter(d)));
    SortedSeqFacts(MatchIds(base, c, IdFilter(d)));
    forall u ensures !HasRow(DeleteInTxSpec(env, c, s, base, base, IdFilter(d)).value.tables, c, u) {
      VictimsAreGone(env, c, s, victims, u);
      if HasRow(base, c, u) {
        UserKeysMember(base.entries, c, u);
        assert u in us;
        var n :| 0 <= n < |us| && us[n] == u;
        assert victims[n] == RowAt(base, c, u) && victims[n] in victims;
        assert ValidRow(env, c, u, RowAt(base, c, u));
      }
    }
  }

  lemma {:induction false} NoIndexForEmpty(indexes: seq<IndexIr>)
    ensures UsableIndex(indexes, Obj(map[])) == None
  {
    if indexes != [] { NoIndexForEmpty(indexes[1..]); }
  }

  ghost predicate OnlyRow(t: DocTables, c: Text, id: Text) {
    forall u :: HasRow(t, c, u) <==> u == id
  }

  lemma OneMatchWipes(env: Env, c: Text, s: DocTx, base: DocTables, patch: Patch, d: Value, id: Text)
    requires Usable(env, c) && RowsValid(env, base) && d.Get(ID()).None?
    requires HasRow(base, c, id) && RowAt(base, c, id) == d && Ir(env, c).idField !in patch
    requires forall u :: HasRow(s.tables, c, u) ==> HasRow(base, c, u)
    requires Replay(env, base, s, OpsFor(c, d, patch)).Ok?
    ensures OnlyRow(Replay(env, base, s, OpsFor(c, d, patch)).value.tables, c, id)
  {
    MergedId(env, c, d, patch, id);
    var s' := EmptiedMatch(env, c, s, base, patch, d);
    InsertIntoEmpty(env, c, s', Merge(d, patch), id);
  }

  lemma MergedId(env: Env, c: Text, d: Value, patch: Patch, id: Text)
    requires Usable(env, c) && ValidRow(env, c, id, d) && Ir(env, c).idField !in patch
    ensures IdText(Ir(env, c).idField, Merge(d, patch)) == Some(id)
  {
  }

  /** After the delete there is no row left; the insert follows. */
  lemma EmptiedMatch(env: Env, c: Text, s: DocTx, base: DocTables, patch: Patch, d: Value) returns (s': DocTx)
    requires Usable(env, c) && RowsValid(env, base) && d.Get(ID()).None? && NoNewRows(s.tables, base, c)
    requires Replay(env, base, s, OpsFor(c, d, patch)).Ok?
    ensures forall u :: !HasRow(s'.tables, c, u)
    ensures Replay(env, base, s, OpsFor(c, d, patch)) == InsertInTxSpec(env, c, s', Merge(d, patch))
  {
    s' := ReplayedMatch(env, c, s, base, patch, d);
    MissingIdDeletesAll(env, c, s, base, d);
  }

  /** Replaying one match: its delete, then its insert. */
  lemma ReplayedMatch(env: Env, c: Text, s: DocTx, base: DocTables, patch: Patch, d: Value) returns (s': DocTx)
    requires Replay(env, base, s, OpsFor(c, d, patch)).Ok?
    ensures DeleteInTxSpec(env, c, s, base, base, IdFilter(d)) == Ok(s')
    ensures Replay(env, base, s, OpsFor(c, d, patch)) == InsertInTxSpec(env, c, s', Merge(d, patch))
  {
    var del := PendingDelete(c, Some(IdFilter(d)));
    ReplayTwo(env, base, s, del, PendingInsert(c, Some(Merge(d, patch))));
    s' := ReplayOp(env, base, s, del).value;
  }

  lemma InsertIntoEmpty(env: Env, c: Text, s: DocTx, m: Value, id: Text)
    requires Usable(env, c) && InsertInTxSpec(env, c, s, m).Ok? && IdText(Ir(env, c).idField, m) == Some(id)
    requires forall u :: !HasRow(s.tables, c, u)
    ensures OnlyRow(InsertInTxSpec(env, c, s, m).value.tables, c, id)
  {
    assert InsertInTxSpec(env, c, s, m).value == AfterInsert(Ir(env, c), c, s, m, id);
    OnlyInserted(Ir(env, c), c, s, m, id);
  }

  lemma OnlyInserted(ir: CollectionIr, c: Text, s: DocTx, m: Value, id: Text)
    requires NulFree(c) && forall u :: !HasRow(s.tables, c, u)
    ensures OnlyRow(AfterInsert(ir, c, s, m, id).tables, c, id)
  {
    forall u { RowAfterInsert(ir, c, s, m, id, c, u); }
  }

  /** A matched document that carries no field `id`. */
  ghost predicate Idless(base: DocTables, c: Text, d: Value) {
    d.Get(ID()).None? && exists u :: HasRow(base, c, u) && RowAt(base, c, u) == d
  }

  ghost predicate NoNewRows(t: DocTables, base: DocTables, c: Text) {
    forall u :: HasRow(t, c, u) ==> HasRow(base, c, u)
  }

  lemma FirstMatchWipes(env: Env, c: Text, s: DocTx, base: DocTables, patch: Patch, d: Value)
    requires Usable(env, c) && RowsValid(env, base) && Idless(base, c, d) && Ir(env, c).idField !in patch
    requires NoNewRows(s.tables, base, c) && Replay(env, base, s, OpsFor(c, d, patch)).Ok?
    ensures var t := Replay(env, base, s, OpsFor(c, d, patch)).value.tables; var id := IdText(Ir(env, c).idField, d);
            id.Some? && OnlyRow(t, c, id.value) && NoNewRows(t, base, c)
  {
    var id :| HasRow(base, c, id) && RowAt(base, c, id) == d;
    assert ValidRow(env, c, id, d);
    OneMatchWipes(env, c, s, base, patch, d, id);
  }

  lemma {:induction false} MatchesWipe(env: Env, c: Text, s: DocTx, base: DocTables, patch: Patch, docs: seq<Value>)
    requires Usable(env, c) && RowsValid(env, base) && docs != [] && Ir(env, c).idField !in patch
    requires (forall d :: d in docs ==> Idless(base, c, d)) && NoNewRows(s.tables, base, c)
    requires Replay(env, base, s, UpdateOps(c, docs, patch)).Ok?
    ensures var last := IdText(Ir(env, c).idField, docs[|docs| - 1]);
            last.Some? && OnlyRow(Replay(env, base, s, UpdateOps(c, docs, patch)).value.tables, c, last.value)
    decreases |docs|
  {
    assert docs[0] in docs;
    ReplayAppend(env, base, s, OpsFor(c, docs[0], patch), UpdateOps(c, docs[1..], patch));
    FirstMatchWipes(env, c, s, base, patch, docs[0]);
    var s' := Replay(env, base, s, OpsFor(c, docs[0], patch)).value;
    if |docs| > 1 {
      MatchesWipe(env, c, s', base, patch, docs[1..]);
    } else {
      assert UpdateOps(c, docs[1..], patch) == [];
    }
  }

  /** Where the schema's documents have no field `id`, a successful update does not replace its
      matches: it leaves the collection with a single row, that of the last match. */
  lemma UpdateWithoutIdWipes(env: Env, c: Text, base: DocTables, filter: Value, patch: Patch)
    requires Usable(env, c) && RowsValid(env, base)
    requires Ir(env, c).Field(ID()).None? && Ir(env, c).idField !in patch
    requires UpdateSpec(env, c, base, filter, patch).Ok? && Find(Ir(env, c), c, base, base, filter).value != []
    ensures var docs := Find(Ir(env, c), c, base, base, filter).value;
            var last := IdText(Ir(env, c).idField, docs[|docs| - 1]);
            last.Some? && OnlyRow(UpdateSpec(env, c, base, filter, patch).value.tables, c, last.value)
  {
    SpecWipes(env, c, base, filter, patch, UpdateSpec(env, c, base, filter, patch).value);
  }

  /** The row of the last document is the only one. */
  ghost predicate LastLeft(ir: CollectionIr, c: Text, docs: seq<Value>, t: DocTables) {
    docs != [] && var last := IdText(ir.idField, docs[|docs| - 1]); last.Some? && OnlyRow(t, c, last.value)
  }

  lemma SpecWipes(env: Env, c: Text, base: DocTables, filter: Value, patch: Patch, x: DocTx)
    requires Usable(env, c) && RowsValid(env, base)
    requires Ir(env, c).Field(ID()).None? && Ir(env, c).idField !in patch
    requires UpdateSpec(env, c, base, filter, patch) == Ok(x)
    requires Find(Ir(env, c), c, base, base, filter).Ok? && Find(Ir(env, c), c, base, base, filter).value != []
    ensures LastLeft(Ir(env, c), c, Find(Ir(env, c), c, base, base, filter).value, x.tables)
  {
    var docs := UpdateReplaysFound(env, c, base, filter, patch, x);
    FoundWipe(env, c, base, filter, patch, docs, x);
  }

  lemma FoundWipe(env: Env, c: Text, base: DocTables, filter: Value, patch: Patch, docs: seq<Value>, x: DocTx)
    requires Usable(env, c) && RowsValid(env, base) && Ir(env, c).Field(ID()).None? && Ir(env, c).idField !in patch
    requires Find(Ir(env, c), c, base, base, filter) == Ok(docs) && docs != []
    requires Replay(env, base, TxState(base, []), UpdateOps(c, docs, patch)) == Ok(x)
    ensures LastLeft(Ir(env, c), c, docs, x.tables)
  {
    FoundAreIdless(env, c, base, filter);
    MatchesWipe(env, c, TxState(base, []), base, patch, docs);
  }

  lemma UpdateReplaysFound(env: Env, c: Text, base: DocTables, filter: Value, patch: Patch, x: DocTx) returns (docs: seq<Value>)
    requires Usable(env, c) && UpdateSpec(env, c, base, filter, patch) == Ok(x)
    ensures Find(Ir(env, c), c, base, base, filter) == Ok(docs)
    ensures Replay(env, base, TxState(base, []), UpdateOps(c, docs, patch)) == Ok(x)
  {
    docs := Find(Ir(env, c), c, base, base, filter).value;
  }

  lemma FoundAreIdless(env: Env, c: Text, base: DocTables, filter: Value)
    requires Usable(env, c) && RowsValid(env, base) && Ir(env, c).Field(ID()).None?
    requires Find(Ir(env, c), c, base, base, filter).Ok?
    ensures forall d :: d in Find(Ir(env, c), c, base, base, filter).value ==> Idless(base, c, d)
  {
    forall d | d in Find(Ir(env, c), c, base, base, filter).value ensures Idless(base, c, d) {
      FindReturnsRows(Ir(env, c), c, base, base, filter, d);
      var u :| HasRow(base, c, u) && RowAt(base, c, u) == d;
      assert ValidRow(env, c, u, d);
    }
  }
}
