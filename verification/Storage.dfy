/** Read snapshots and write transactions over the entries and index tables. `V` is the type
    of a stored value: the core never looks inside it here. */
module Storage {
  import opened Lex
  import opened Json
  import opened Codec

  /** The two ordered tables: a committed state, a read snapshot, or a transaction's view. */
  datatype Tables<V> = Tables(entries: map<Text, V>, index: map<Text, Text>)

  datatype ChangeOp = Insert | Delete

  datatype DocChange = DocChange(collection: Text, op: ChangeOp, docId: Text)

  /** A transaction's view together with the changes it will announce on commit. */
  datatype TxState<V> = TxState(tables: Tables<V>, touched: seq<DocChange>)

  // ---- ordered scans -----------------------------------------------------------------

  function RangeKeys<V>(m: map<Text, V>, lo: Text, hi: Text): set<Text> {
    set k | k in m && InRange(lo, k, hi)
  }

  function Lookup<V>(m: map<Text, V>, q: seq<Text>): seq<V>
    requires forall k :: k in q ==> k in m
  {
    seq(|q|, i requires 0 <= i < |q| => m[q[i]])
  }

  /** The values of a half-open key range, in key order. */
  function RangeValues<V>(m: map<Text, V>, lo: Text, hi: Text): seq<V> {
    SortedSeqFacts(RangeKeys(m, lo, hi));
    Lookup(m, SortedSeq(RangeKeys(m, lo, hi)))
  }

  /** The user keys stored under a collection. */
  function UserKeys<V>(m: map<Text, V>, c: Text): set<Text> {
    set k | k in m && StripPrefix(k, c).Some? :: StripPrefix(k, c).value
  }

  lemma UserKeysMember<V>(m: map<Text, V>, c: Text, u: Text)
    ensures u in UserKeys(m, c) <==> CompositeKey(c, u) in m
  {
    StripInverts(CompositeKey(c, u), c, u);
    if u in UserKeys(m, c) {
      var k :| k in m && StripPrefix(k, c).Some? && StripPrefix(k, c).value == u;
      StripInverts(k, c, u);
    }
  }

  /** The rows of a collection in the order of their user keys. */
  function Rows<V>(m: map<Text, V>, c: Text): seq<(Text, V)> {
    var q := SortedSeq(UserKeys(m, c));
    SortedSeqFacts(UserKeys(m, c));
    RowsAreStored(m, c, q);
    seq(|q|, i requires 0 <= i < |q| => (q[i], m[CompositeKey(c, q[i])]))
  }

  lemma RowsAreStored<V>(m: map<Text, V>, c: Text, q: seq<Text>)
    requires forall u :: u in q ==> u in UserKeys(m, c)
    ensures forall i :: 0 <= i < |q| ==> CompositeKey(c, q[i]) in m
  {
    forall i | 0 <= i < |q| ensures CompositeKey(c, q[i]) in m {
      assert q[i] in q;
      UserKeysMember(m, c, q[i]);
    }
  }

  /** Scanning the composite range yields the rows: same keys, same order. */
  lemma ScanOrder<V>(m: map<Text, V>, c: Text, q: seq<Text>)
    requires q == SortedSeq(RangeKeys(m, Lower(c), Upper(c)))
    ensures |q| == |Rows(m, c)|
    ensures forall i :: 0 <= i < |q| ==> q[i] in m && StripPrefix(q[i], c) == Some(Rows(m, c)[i].0) && Rows(m, c)[i].1 == m[q[i]]
  {
    var us := SortedSeq(UserKeys(m, c));
    SortedSeqFacts(RangeKeys(m, Lower(c), Upper(c)));
    SortedSeqFacts(UserKeys(m, c));
    var p := seq(|us|, i requires 0 <= i < |us| => CompositeKey(c, us[i]));
    ScanKeys(m, c, us, p, q);
    forall i | 0 <= i < |q|
      ensures q[i] in m && StripPrefix(q[i], c) == Some(Rows(m, c)[i].0) && Rows(m, c)[i].1 == m[q[i]]
    {
      assert q[i] in q;
      StripInverts(q[i], c, us[i]);
    }
  }

  lemma ScanKeys<V>(m: map<Text, V>, c: Text, us: seq<Text>, p: seq<Text>, q: seq<Text>)
    requires us == SortedSeq(UserKeys(m, c)) && q == SortedSeq(RangeKeys(m, Lower(c), Upper(c)))
    requires |p| == |us| && forall i :: 0 <= i < |us| ==> p[i] == CompositeKey(c, us[i])
    ensures p == q
  {
    SortedSeqFacts(RangeKeys(m, Lower(c), Upper(c)));
    SortedSeqFacts(UserKeys(m, c));
    forall i, j | 0 <= i < j < |p| ensures Less(p[i], p[j]) { CompositeKeyOrder(c, us[i], us[j]); }
    forall k ensures k in p <==> k in q {
      ScanIsExact(c, k);
      if k in q {
        var u := StripPrefix(k, c).value;
        StripInverts(k, c, u);
        assert u in us;
        var i :| 0 <= i < |us| && us[i] == u;
        assert p[i] == k;
      }
      if k in p {
        var i :| 0 <= i < |p| && p[i] == k;
        assert us[i] in us;
        UserKeysMember(m, c, us[i]);
      }
    }
    SortedUnique(p, q);
  }

  /** `list_collection`: a range scan that strips the prefix of each key. The Corruption branch
      is dead: the scan only meets keys that strip. */
  method ListCollection<V>(m: map<Text, V>, c: Text) returns (r: Result<seq<(Text, V)>>)
    ensures ValidCollection(c) ==> r == Ok(Rows(m, c))
    ensures !ValidCollection(c) ==> r == Err(InvalidArg)
  {
    var lower := EncodeKey(c, []);
    if lower.Err? { return Err(lower.error); }
    var upper := CollectionPrefixUpper(c);  // the name was accepted above
    var q := SortedSeq(RangeKeys(m, lower.value, upper.value));
    ScanOrder(m, c, q);
    ghost var rows := Rows(m, c);
    var out: seq<(Text, V)> := [];
    for i := 0 to |q|
      invariant out == rows[..i]
    {
      var stripped := StripPrefix(q[i], c);
      if stripped.None? { return Err(Corruption); }
      out := out + [(stripped.value, m[q[i]])];
    }
    assert rows[..|q|] == rows;
    return Ok(out);
  }

  method IndexRangeValues(m: map<Text, Text>, lo: Text, hi: Text) returns (out: seq<Text>)
    ensures out == RangeValues(m, lo, hi)
  {
    var q := SortedSeq(RangeKeys(m, lo, hi));
    SortedSeqFacts(RangeKeys(m, lo, hi));
    out := [];
    for i := 0 to |q|
      invariant out == RangeValues(m, lo, hi)[..i]
    {
      assert q[i] in q;
      out := out + [m[q[i]]];
    }
  }

  /** Every entry of the database in key order: what a backup streams. */
  function AllEntries<V>(m: map<Text, V>): seq<(Text, V)> {
    SortedSeqFacts(m.Keys);
    var q := SortedSeq(m.Keys);
    assert forall i :: 0 <= i < |q| ==> q[i] in q;
    seq(|q|, i requires 0 <= i < |q| => (q[i], m[q[i]]))
  }

  method ListEntriesRaw<V>(m: map<Text, V>) returns (out: seq<(Text, V)>)
    ensures out == AllEntries(m)
  {
    SortedSeqFacts(m.Keys);
    var q := SortedSeq(m.Keys);
    out := [];
    for i := 0 to |q|
      invariant out == AllEntries(m)[..i]
    {
      assert q[i] in q;
      out := out + [(q[i], m[q[i]])];
    }
  }

  // ---- effects on a transaction's view -------------------------------------------------

  function AfterPut<V>(s: TxState<V>, c: Text, u: Text, v: V): TxState<V> {
    TxState(s.tables.(entries := s.tables.entries[CompositeKey(c, u) := v]),
            s.touched + [DocChange(c, Insert, u)])
  }

  /** Only the removal of a row that existed is announced. */
  function AfterDelete<V>(s: TxState<V>, c: Text, u: Text): TxState<V> {
    if CompositeKey(c, u) in s.tables.entries then
      TxState(s.tables.(entries := s.tables.entries - {CompositeKey(c, u)}),
              s.touched + [DocChange(c, Delete, u)])
    else s
  }

  class WriteTx<V> {
    var table: map<Text, V>
    var indexTable: map<Text, Text>
    var touched: seq<DocChange>

    function State(): TxState<V>
      reads this
    {
      TxState(Tables(table, indexTable), touched)
    }

    /** Opens a transaction: a private copy of the committed tables, nothing touched. */
    constructor (committed: Tables<V>)
      ensures State() == TxState(committed, [])
    {
      table, indexTable, touched := committed.entries, committed.index, [];
    }

    method TakeTouched() returns (t: seq<DocChange>)
      modifies this`touched
      ensures t == old(touched) && touched == []
    {
      t := touched;
      touched := [];
    }

    method Put(c: Text, u: Text, v: V) returns (r: Result<()>)
      modifies this
      ensures ValidCollection(c) ==> r == Ok(()) && State() == AfterPut(old(State()), c, u, v)
      ensures !ValidCollection(c) ==> r == Err(InvalidArg) && State() == old(State())
    {
      var k := EncodeKey(c, u);
      if k.Err? { return Err(k.error); }
      table := table[k.value := v];
      touched := touched + [DocChange(c, Insert, u)];
      return Ok(());
    }

    method Get(c: Text, u: Text) returns (r: Result<Option<V>>)
      ensures ValidCollection(c) ==> r == Ok(if CompositeKey(c, u) in table then Some(table[CompositeKey(c, u)]) else None)
      ensures !ValidCollection(c) ==> r == Err(InvalidArg)
    {
      var k := EncodeKey(c, u);
      if k.Err? { return Err(k.error); }
      return Ok(if k.value in table then Some(table[k.value]) else None);
    }

    method Delete(c: Text, u: Text) returns (r: Result<bool>)
      modifies this
      ensures ValidCollection(c) ==>
                r == Ok(CompositeKey(c, u) in old(table)) && State() == AfterDelete(old(State()), c, u)
      ensures !ValidCollection(c) ==> r == Err(InvalidArg) && State() == old(State())
    {
      var k := EncodeKey(c, u);
      if k.Err? { return Err(k.error); }
      var existed := k.value in table;
      table := table - {k.value};
      if existed { touched := touched + [DocChange(c, ChangeOp.Delete, u)]; }
      return Ok(existed);
    }

    method IndexPut(k: Text, v: Text)
      modifies this`indexTable
      ensures indexTable == old(indexTable)[k := v]
    {
      indexTable := indexTable[k := v];
    }

    method IndexDelete(k: Text)
      modifies this`indexTable
      ensures indexTable == old(indexTable) - {k}
    {
      indexTable := indexTable - {k};
    }

    method HasAnyEntry() returns (b: bool)
      ensures b <==> table != map[]
    {
      b := |table| > 0;
    }

    /** Empties the entries and the index. */
    method ClearEntries()
      modifies this
      ensures table == map[] && indexTable == map[] && touched == old(touched)
    {
      table, indexTable := map[], map[];
    }

    /** Restores one raw entry: neither the index nor the announced changes are maintained. */
    method PutRaw(k: Text, v: V)
      modifies this`table
      ensures table == old(table)[k := v]
    {
      table := table[k := v];
    }
  }
}
