/** What every typed write keeps: valid rows, complete index entries, unique values. */
module Invariants {
  import opened Lex
  import opened Json
  import opened Schema
  import opened Codec
  import opened IndexEngine
  import opened Storage
  import opened Query
  import opened Collection

  /** A declared collection whose name the key codec accepts. */
  predicate Usable(env: Env, c: Text) { c in env.schema.collections && ValidCollection(c) }

  function Ir(env: Env, c: Text): CollectionIr
    requires Usable(env, c)
  {
    env.schema.collections[c]
  }

  predicate HasRow(t: DocTables, c: Text, u: Text) { CompositeKey(c, u) in t.entries }

  function RowAt(t: DocTables, c: Text, u: Text): Value
    requires HasRow(t, c, u)
  {
    t.entries[CompositeKey(c, u)]
  }

  predicate ValidRow(env: Env, c: Text, u: Text, d: Value)
    requires Usable(env, c)
  {
    Validates(env, Ir(env, c), d) && IdText(Ir(env, c).idField, d) == Some(u) && NulFree(u)
  }

  /** Every stored row is a valid document filed under its own id. */
  ghost predicate RowsValid(env: Env, t: DocTables) {
    forall c, u :: Usable(env, c) && HasRow(t, c, u) ==> ValidRow(env, c, u, RowAt(t, c, u))
  }

  /** Every stored row has all its index keys. */
  ghost predicate Indexed(env: Env, t: DocTables) {
    forall c, u :: Usable(env, c) && HasRow(t, c, u) ==>
      KeysPresent(t.index, RowKeys(Ir(env, c), c, u, RowAt(t, c, u)), u)
  }

  predicate KeysPresent(index: map<Text, Text>, keys: set<Text>, u: Text) {
    forall k :: k in keys ==> k in index && index[k] == u
  }

  /** The key `k` was once written for the valid document `d` under id `u`. */
  ghost predicate WrittenFor(env: Env, k: Text, c: Text, u: Text, d: Value) {
    Usable(env, c) && ValidRow(env, c, u, d) && k in RowKeys(Ir(env, c), c, u, d)
  }

  /** Every index entry, stale or not, was written for some valid document and holds its id. */
  ghost predicate IndexOrigin(env: Env, t: DocTables) {
    forall k :: k in t.index ==> exists c, d :: WrittenFor(env, k, c, t.index[k], d)
  }

  /** No two stored documents of a collection share a value of a unique field. */
  ghost predicate UniqueHolds(env: Env, t: DocTables) {
    forall c, u, u', i | Usable(env, c) && HasRow(t, c, u) && HasRow(t, c, u') && UniqueIndex(env, c, i) ::
      ValueAt(RowAt(t, c, u), i.field) == ValueAt(RowAt(t, c, u'), i.field) ==> u == u'
  }

  predicate UniqueIndex(env: Env, c: Text, i: IndexIr)
    requires Usable(env, c)
  {
    i in Ir(env, c).indexes && i.unique
  }

  ghost predicate Inv(env: Env, t: DocTables) {
    RowsValid(env, t) && Indexed(env, t) && IndexOrigin(env, t) && UniqueHolds(env, t)
  }

  const EMPTY: DocTables := Tables(map[], map[])

  lemma EmptyInv(env: Env)
    ensures Inv(env, EMPTY)
  {
  }

  /** Keys of different rows differ, whatever their fields and values. */
  lemma RowKeysDisjoint(env: Env, c: Text, u: Text, d: Value, c': Text, u': Text, d': Value, k: Text)
    requires Usable(env, c) && Usable(env, c') && NulFree(u) && NulFree(u')
    requires k in RowKeys(Ir(env, c), c, u, d) && k in RowKeys(Ir(env, c'), c', u', d')
    ensures c == c' && u == u'
  {
    var i :| i in Ir(env, c).indexes && k == KeyOf(c, i, d, u);
    var j :| j in Ir(env, c').indexes && k == KeyOf(c', j, d', u');
    KeyDeterminesRow(c, i.field, EncodeIndexValue(ValueAt(d, i.field)), u,
                     c', j.field, EncodeIndexValue(ValueAt(d', j.field)), u');
  }

  lemma RowKeysApart(env: Env, c: Text, u: Text, d: Value, c': Text, u': Text, d': Value)
    requires Usable(env, c) && Usable(env, c') && NulFree(u) && NulFree(u') && !(c == c' && u == u')
    ensures RowKeys(Ir(env, c), c, u, d) !! RowKeys(Ir(env, c'), c', u', d')
  {
    forall k | k in RowKeys(Ir(env, c), c, u, d) && k in RowKeys(Ir(env, c'), c', u', d') ensures false {
      RowKeysDisjoint(env, c, u, d, c', u', d', k);
    }
  }

  // ---- insert -------------------------------------------------------------------------

  lemma RowAfterInsert(ir: CollectionIr, c: Text, s: DocTx, doc: Value, id: Text, c': Text, u': Text)
    requires NulFree(c) && NulFree(c')
    ensures var t := AfterInsert(ir, c, s, doc, id).tables;
            && (HasRow(t, c', u') <==> HasRow(s.tables, c', u') || (c' == c && u' == id))
            && (HasRow(t, c', u') ==> RowAt(t, c', u') == if c' == c && u' == id then doc else RowAt(s.tables, c', u'))
  {
    if CompositeKey(c', u') == CompositeKey(c, id) { CompositeKeyInjective(c', u', c, id); }
  }

  lemma InsertKeepsRows(env: Env, c: Text, s: DocTx, doc: Value, id: Text)
    requires Usable(env, c) && ValidRow(env, c, id, doc) && RowsValid(env, s.tables)
    ensures RowsValid(env, AfterInsert(Ir(env, c), c, s, doc, id).tables)
  {
    var t := AfterInsert(Ir(env, c), c, s, doc, id).tables;
    forall c', u' | Usable(env, c') && HasRow(t, c', u') ensures ValidRow(env, c', u', RowAt(t, c', u')) {
      RowAfterInsert(Ir(env, c), c, s, doc, id, c', u');
    }
  }

  lemma InsertKeepsIndexed(env: Env, c: Text, s: DocTx, doc: Value, id: Text)
    requires Usable(env, c) && ValidRow(env, c, id, doc) && RowsValid(env, s.tables) && Indexed(env, s.tables)
    ensures Indexed(env, AfterInsert(Ir(env, c), c, s, doc, id).tables)
  {
    var ir := Ir(env, c);
    var t := AfterInsert(ir, c, s, doc, id).tables;
    forall c', u' | Usable(env, c') && HasRow(t, c', u')
      ensures KeysPresent(t.index, RowKeys(Ir(env, c'), c', u', RowAt(t, c', u')), u')
    {
      RowAfterInsert(ir, c, s, doc, id, c', u');
      if !(c' == c && u' == id) {
        assert ValidRow(env, c', u', RowAt(s.tables, c', u'));
        RowKeysApart(env, c, id, doc, c', u', RowAt(s.tables, c', u'));
      }
    }
  }

  lemma InsertKeepsOrigin(env: Env, c: Text, s: DocTx, doc: Value, id: Text)
    requires Usable(env, c) && ValidRow(env, c, id, doc) && IndexOrigin(env, s.tables)
    ensures IndexOrigin(env, AfterInsert(Ir(env, c), c, s, doc, id).tables)
  {
    var t := AfterInsert(Ir(env, c), c, s, doc, id).tables;
    forall k | k in t.index ensures exists c', d :: WrittenFor(env, k, c', t.index[k], d) {
      if k in RowKeys(Ir(env, c), c, id, doc) {
        assert WrittenFor(env, k, c, t.index[k], doc);
      }
    }
  }

  /** A stored document with the same unique value shows up in the group that insert probes. */
  lemma SameValueIsTaken(env: Env, c: Text, t: DocTables, doc: Value, u: Text, i: IndexIr)
    requires Usable(env, c) && Indexed(env, t) && HasRow(t, c, u) && UniqueIndex(env, c, i)
    requires ValueAt(RowAt(t, c, u), i.field) == ValueAt(doc, i.field)
    ensures UniqueTaken(Ir(env, c), c, t, doc)
  {
    var e := EncodeIndexValue(ValueAt(doc, i.field));
    var k := KeyOf(c, i, RowAt(t, c, u), u);
    assert k in RowKeys(Ir(env, c), c, u, RowAt(t, c, u));
    GroupRange(c, i.field, e, k);
    assert k == GroupLower(c, i.field, e) + u;
    assert k in GroupKeys(t, c, i, doc);
    var n :| 0 <= n < |Ir(env, c).indexes| && Ir(env, c).indexes[n] == i;
    assert Taken(t, c, Ir(env, c).indexes[n], doc);
  }

  lemma InsertKeepsUnique(env: Env, c: Text, s: DocTx, doc: Value, id: Text)
    requires Usable(env, c) && ValidRow(env, c, id, doc)
    requires Indexed(env, s.tables) && UniqueHolds(env, s.tables)
    requires !UniqueTaken(Ir(env, c), c, s.tables, doc)
    ensures UniqueHolds(env, AfterInsert(Ir(env, c), c, s, doc, id).tables)
  {
    var ir := Ir(env, c);
    var t := AfterInsert(ir, c, s, doc, id).tables;
    forall c', u, u', i | Usable(env, c') && HasRow(t, c', u) && HasRow(t, c', u') && UniqueIndex(env, c', i)
      && ValueAt(RowAt(t, c', u), i.field) == ValueAt(RowAt(t, c', u'), i.field)
      ensures u == u'
    {
      RowAfterInsert(ir, c, s, doc, id, c', u);
      RowAfterInsert(ir, c, s, doc, id, c', u');
      if c' == c && u == id && u' != id { SameValueIsTaken(env, c, s.tables, doc, u', i); }
      if c' == c && u' == id && u != id { SameValueIsTaken(env, c, s.tables, doc, u, i); }
    }
  }

  /** A successful insert keeps every invariant, also when it overwrites an existing id. */
  lemma InsertKeepsInv(env: Env, c: Text, s: DocTx, doc: Value)
    requires Inv(env, s.tables) && InsertInTxSpec(env, c, s, doc).Ok?
    ensures Inv(env, InsertInTxSpec(env, c, s, doc).value.tables)
  {
    var id := IdText(Ir(env, c).idField, doc).value;
    InsertKeepsRows(env, c, s, doc, id);
    InsertKeepsIndexed(env, c, s, doc, id);
    InsertKeepsOrigin(env, c, s, doc, id);
    InsertKeepsUnique(env, c, s, doc, id);
  }

  // ---- delete -------------------------------------------------------------------------

  lemma RowAfterDelete(ir: CollectionIr, c: Text, s: DocTx, d: Value, id: Text, c': Text, u': Text)
    requires NulFree(c) && NulFree(c')
    ensures var t := AfterDeleteVictim(ir, c, s, d, id).tables;
            && (HasRow(t, c', u') <==> HasRow(s.tables, c', u') && !(c' == c && u' == id))
            && (HasRow(t, c', u') ==> RowAt(t, c', u') == RowAt(s.tables, c', u'))
  {
    if CompositeKey(c', u') == CompositeKey(c, id) { CompositeKeyInjective(c', u', c, id); }
  }

  lemma DeleteVictimKeepsRows(env: Env, c: Text, s: DocTx, d: Value, id: Text)
    requires Usable(env, c) && RowsValid(env, s.tables)
    ensures RowsValid(env, AfterDeleteVictim(Ir(env, c), c, s, d, id).tables)
  {
    var t := AfterDeleteVictim(Ir(env, c), c, s, d, id).tables;
    forall c', u' | Usable(env, c') && HasRow(t, c', u') ensures ValidRow(env, c', u', RowAt(t, c', u')) {
      RowAfterDelete(Ir(env, c), c, s, d, id, c', u');
    }
  }

  lemma DeleteVictimKeepsIndexed(env: Env, c: Text, s: DocTx, d: Value, id: Text)
    requires Usable(env, c) && NulFree(id) && RowsValid(env, s.tables) && Indexed(env, s.tables)
    ensures Indexed(env, AfterDeleteVictim(Ir(env, c), c, s, d, id).tables)
  {
    var t := AfterDeleteVictim(Ir(env, c), c, s, d, id).tables;
    forall c', u' | Usable(env, c') && HasRow(t, c', u')
      ensures KeysPresent(t.index, RowKeys(Ir(env, c'), c', u', RowAt(t, c', u')), u')
    {
      RowAfterDelete(Ir(env, c), c, s, d, id, c', u');
      assert ValidRow(env, c', u', RowAt(s.tables, c', u'));
      RowKeysApart(env, c, id, d, c', u', RowAt(s.tables, c', u'));
    }
  }

  lemma DeleteVictimKeepsUnique(env: Env, c: Text, s: DocTx, d: Value, id: Text)
    requires Usable(env, c) && UniqueHolds(env, s.tables)
    ensures UniqueHolds(env, AfterDeleteVictim(Ir(env, c), c, s, d, id).tables)
  {
    var t := AfterDeleteVictim(Ir(env, c), c, s, d, id).tables;
    forall c', u, u', i | Usable(env, c') && HasRow(t, c', u) && HasRow(t, c', u') && UniqueIndex(env, c', i)
      && ValueAt(RowAt(t, c', u), i.field) == ValueAt(RowAt(t, c', u'), i.field)
      ensures u == u'
    {
      RowAfterDelete(Ir(env, c), c, s, d, id, c', u);
      RowAfterDelete(Ir(env, c), c, s, d, id, c', u');
    }
  }

  /** Removing a victim, read from whatever snapshot, keeps every invariant: the keys it takes
      out of the index belong to the row it takes out of the table. */
  lemma DeleteVictimKeepsInv(env: Env, c: Text, s: DocTx, d: Value, id: Text)
    requires Usable(env, c) && NulFree(id) && Inv(env, s.tables)
    ensures Inv(env, AfterDeleteVictim(Ir(env, c), c, s, d, id).tables)
  {
    DeleteVictimKeepsRows(env, c, s, d, id);
    DeleteVictimKeepsIndexed(env, c, s, d, id);
    DeleteVictimKeepsUnique(env, c, s, d, id);
    var t := AfterDeleteVictim(Ir(env, c), c, s, d, id).tables;
    forall k | k in t.index ensures exists c', d' :: WrittenFor(env, k, c', t.index[k], d') {
      var c', d' :| WrittenFor(env, k, c', s.tables.index[k], d');
    }
  }

  /** Victims carry NUL-free ids: they were valid rows of some state. */
  predicate VictimsOk(ir: CollectionIr, victims: seq<Value>) {
    forall d :: d in victims ==> var id := IdText(ir.idField, d); id.Some? ==> NulFree(id.value)
  }

  lemma {:induction false} DeleteVictimsKeepsInv(env: Env, c: Text, s: DocTx, victims: seq<Value>)
    requires Usable(env, c) && Inv(env, s.tables) && VictimsOk(Ir(env, c), victims)
    requires DeleteVictimsSpec(Ir(env, c), c, s, victims).Ok?
    ensures Inv(env, DeleteVictimsSpec(Ir(env, c), c, s, victims).value.tables)
    decreases |victims|
  {
    if victims != [] {
      assert victims[0] in victims;
      var id := IdText(Ir(env, c).idField, victims[0]).value;
      DeleteVictimKeepsInv(env, c, s, victims[0], id);
      assert forall d :: d in victims[1..] ==> d in victims;
      DeleteVictimsKeepsInv(env, c, AfterDeleteVictim(Ir(env, c), c, s, victims[0], id), victims[1..]);
    }
  }

  // ---- what a find returns ---------------------------------------------------------------

  lemma {:induction false} FilterMember(docs: seq<Value>, filter: Value, d: Value)
    ensures d in FilterDocs(docs, filter) <==> d in docs && Matches(d, filter)
  {
    if docs != [] {
      FilterMember(docs[1..], filter, d);
      assert docs == [docs[0]] + docs[1..];
    }
  }

  lemma {:induction false} FetchMember(t: DocTables, c: Text, ids: seq<Text>, d: Value)
    requires d in Fetch(t.entries, c, ids)
    ensures exists u :: HasRow(t, c, u) && RowAt(t, c, u) == d
  {
    if HasRow(t, c, ids[0]) && RowAt(t, c, ids[0]) == d {
    } else {
      FetchMember(t, c, ids[1..], d);
    }
  }

  lemma AllDocsMember(t: DocTables, c: Text, d: Value)
    requires d in AllDocs(t, c)
    ensures exists u :: HasRow(t, c, u) && RowAt(t, c, u) == d
  {
    var rows := Rows(t.entries, c);
    var i :| 0 <= i < |rows| && rows[i].1 == d;
    var q := SortedSeq(UserKeys(t.entries, c));
    SortedSeqFacts(UserKeys(t.entries, c));
    RowsAreStored(t.entries, c, q);
    assert HasRow(t, c, q[i]) && RowAt(t, c, q[i]) == d;
  }

  /** Every document a find returns is a row of the snapshot it fetched from. */
  lemma FindReturnsRows(ir: CollectionIr, c: Text, s1: DocTables, s2: DocTables, filter: Value, d: Value)
    requires Find(ir, c, s1, s2, filter).Ok? && d in Find(ir, c, s1, s2, filter).value
    ensures Matches(d, filter) && exists u :: HasRow(s2, c, u) && RowAt(s2, c, u) == d
  {
    var docs := Candidates(ir, c, s1, s2, filter).value;
    FilterMember(docs, filter, d);
    match ChoosePath(ir, filter)
    case IdPath(id) => FetchMember(s2, c, [id], d);
    case IndexPath(field) => FetchMember(s2, c, LookupEq(s1, c, field, filter.fields[field]), d);
    case ScanPath => AllDocsMember(s2, c, d);
  }

  lemma FoundVictimsOk(env: Env, c: Text, s1: DocTables, s2: DocTables, filter: Value)
    requires Usable(env, c) && RowsValid(env, s2) && Find(Ir(env, c), c, s1, s2, filter).Ok?
    ensures VictimsOk(Ir(env, c), Find(Ir(env, c), c, s1, s2, filter).value)
    ensures forall d :: d in Find(Ir(env, c), c, s1, s2, filter).value ==> IdText(Ir(env, c).idField, d).Some?
  {
    var victims := Find(Ir(env, c), c, s1, s2, filter).value;
    forall d | d in victims
      ensures IdText(Ir(env, c).idField, d).Some? && NulFree(IdText(Ir(env, c).idField, d).value)
    {
      FindReturnsRows(Ir(env, c), c, s1, s2, filter, d);
      var u :| HasRow(s2, c, u) && RowAt(s2, c, u) == d;
      assert ValidRow(env, c, u, d);
    }
  }

  lemma DeleteKeepsInv(env: Env, c: Text, s: DocTx, s1: DocTables, s2: DocTables, filter: Value)
    requires Inv(env, s.tables) && RowsValid(env, s2)
    requires DeleteInTxSpec(env, c, s, s1, s2, filter).Ok?
    ensures Inv(env, DeleteInTxSpec(env, c, s, s1, s2, filter).value.tables)
  {
    var ir := env.schema.collections[c];
    var victims := Find(ir, c, s1, s2, filter).value;
    if victims != [] {
      FoundVictimsOk'(env, c, s1, s2, filter, victims);
      DeleteVictimsKeepsInv(env, c, s, victims);
    }
  }

  /** A deletion that removes something acts on a usable collection. */
  lemma FoundVictimsOk'(env: Env, c: Text, s1: DocTables, s2: DocTables, filter: Value, victims: seq<Value>)
    requires c in env.schema.collections && RowsValid(env, s2) && victims != []
    requires Find(env.schema.collections[c], c, s1, s2, filter) == Ok(victims)
    ensures Usable(env, c) && VictimsOk(Ir(env, c), victims)
  {
    FoundVictimsOk(env, c, s1, s2, filter);
  }
}
