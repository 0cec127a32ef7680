/** The portable backup stream: header, length-framed entries, a zero-length sentinel and a
    CRC-32 footer; and the restore that replays it in one write transaction. */
module Backup {
  import opened Lex
  import opened Json
  import opened Storage
  import opened Database
  import opened Crc
  import opened Bytes

  type RawTables = Tables<Text>
  type Entry = (Text, Text)

  function MAGIC(): Text { T("NOOKBKUP") }
  const FORMAT_VER: nat := 1
  const REDB_MARKER: nat := 0x0200_0000
  const HEADER_SIZE: nat := 63

  /** Byte widths of the integers. */
  const U16: nat := 2
  const U32: nat := 4
  const U64: nat := 8

  datatype Header = Header(formatVer: nat, createdMs: nat, schemaHash: Option<Text>, redbMarker: nat, entryCountHint: nat)

  datatype BackupStats = BackupStats(entryCount: nat, bytesWritten: nat)
  datatype RestoreStats = RestoreStats(entryCount: nat, bytesRead: nat)
  datatype RestoreOptions = RestoreOptions(allowOverwrite: bool, skipSchemaCheck: bool, currentSchemaHash: Option<Text>)

  // ---- the stream as a value -----------------------------------------------------------------

  function Zeros(n: nat): (s: Text)
    ensures |s| == n && IsBytes(s)
  {
    seq(n, _ => 0)
  }

  function HashField(h: Option<Text>): Text {
    match h case Some(x) => [1] + x case None => [0] + Zeros(32)
  }

  function HeaderBytes(h: Header): Text {
    MAGIC() + BE(h.formatVer, U16) + BE(h.createdMs, U64) + HashField(h.schemaHash) + BE(h.redbMarker, U32) + BE(h.entryCountHint, U64)
  }

  function EntryBytes(e: Entry): Text {
    BE(|e.0|, U32) + e.0 + BE(|e.1|, U32) + e.1
  }

  function EntriesBytes(es: seq<Entry>): Text {
    if es == [] then [] else EntryBytes(es[0]) + EntriesBytes(es[1..])
  }

  function SENTINEL(): Text { BE(0, U32) }

  function Body(h: Header, es: seq<Entry>): Text {
    HeaderBytes(h) + EntriesBytes(es) + SENTINEL()
  }

  function Stream(h: Header, es: seq<Entry>): Text {
    Body(h, es) + BE(Checksum(Body(h, es)), U32)
  }

  // ---- the parser as a value -----------------------------------------------------------------

  function ParseHeader(s: Text): Result<Header> {
    if |s| < HEADER_SIZE || s[..8] != MAGIC() || FromBE(s[8..10]) != FORMAT_VER || s[18] > 1 then Err(Corruption)
    else Ok(Header(FromBE(s[8..10]), FromBE(s[10..18]), if s[18] == 1 then Some(s[19..51]) else None,
                   FromBE(s[51..55]), FromBE(s[55..63])))
  }

  datatype ReadEntry = Read(entry: Entry) | Sentinel

  /** The next entry or the sentinel, and what follows it. */
  function ParseEntry(s: Text): (r: Result<(ReadEntry, Text)>)
    ensures r.Ok? ==> |r.value.1| < |s|
  {
    if |s| < 4 then Err(Corruption) else
      var n := FromBE(s[..4]);
      if n == 0 then Ok((Sentinel, s[4..]))
      else if |s| < n + 8 then Err(Corruption)
      else
        var m := FromBE(s[n + 4..n + 8]);
        if |s| < n + 8 + m then Err(Corruption)
        else Ok((Read((s[4..n + 4], s[n + 8..n + 8 + m])), s[n + 8 + m..]))
  }

  /** All entries up to the sentinel, and what follows it. */
  function ParseEntries(s: Text): (r: Result<(seq<Entry>, Text)>)
    ensures r.Ok? ==> |r.value.1| <= |s|
    decreases |s|
  {
    match ParseEntry(s)
    case Err(e) => Err(e)
    case Ok((Sentinel, rest)) => Ok(([], rest))
    case Ok((Read(e), rest)) =>
      match ParseEntries(rest)
      case Err(e') => Err(e')
      case Ok((es, rest')) => Ok(([e] + es, rest'))
  }

  predicate SchemaClash(h: Header, opts: RestoreOptions) {
    !opts.skipSchemaCheck && h.schemaHash.Some? && opts.currentSchemaHash.Some? && h.schemaHash != opts.currentSchemaHash
  }

  /** The four footer bytes hold the checksum of everything consumed before them. */
  function CheckFooter(body: Text, rest: Text): Result<Text> {
    if |rest| < 4 || FromBE(rest[..4]) != Checksum(body) then Err(Corruption) else Ok(rest[4..])
  }

  datatype Parsed = Parsed(entries: seq<Entry>, rest: Text)

  /** The entries and the footer behind an accepted header. */
  function ParseRest(s: Text): (r: Result<Parsed>)
    requires |s| >= HEADER_SIZE
    ensures r.Ok? ==> |r.value.rest| < |s|
  {
    match ParseEntries(s[HEADER_SIZE..])
    case Err(e) => Err(e)
    case Ok((es, tail)) =>
      match CheckFooter(s[..|s| - |tail|], tail)
      case Err(e) => Err(e)
      case Ok(rest) => Ok(Parsed(es, rest))
  }

  /** Everything a restore does before it opens its write transaction. */
  function Parse(s: Text, opts: RestoreOptions): (r: Result<Parsed>)
    ensures r.Ok? ==> |r.value.rest| < |s|
  {
    match ParseHeader(s)
    case Err(e) => Err(e)
    case Ok(h) => if SchemaClash(h, opts) then Err(SchemaError) else ParseRest(s)
  }

  function PutAll(m: map<Text, Text>, es: seq<Entry>): map<Text, Text> {
    if es == [] then m else
      var last := es[|es| - 1];
      PutAll(m, es[..|es| - 1])[last.0 := last.1]
  }

  /** The tables after replaying the entries. Without overwrite the target must be empty. */
  function Replayed(target: RawTables, es: seq<Entry>, opts: RestoreOptions): Result<RawTables> {
    if opts.allowOverwrite then Ok(Tables(PutAll(map[], es), map[]))
    else if target.entries != map[] then Err(Conflict)
    else Ok(Tables(PutAll(map[], es), target.index))
  }

  /** What restoring the stream `s` over `target` amounts to. */
  function Restored(target: RawTables, s: Text, opts: RestoreOptions): Result<(RawTables, RestoreStats)> {
    match Parse(s, opts)
    case Err(e) => Err(e)
    case Ok(p) =>
      match Replayed(target, p.entries, opts)
      case Err(e) => Err(e)
      case Ok(t) => Ok((t, RestoreStats(|p.entries|, |s| - |p.rest|)))
  }

  // ---- writing ---------------------------------------------------------------------------------

  class CrcWriter {
    var out: Text
    var crc: nat
    var count: nat

    /** The register has seen everything written so far. */
    ghost predicate Valid()
      reads this
    {
      count == |out| && crc == Update(ONES, out)
    }

    constructor ()
      ensures Valid() && out == []
    {
      out, crc, count := [], ONES, 0;
    }

    method WriteAll(buf: Text)
      requires Valid()
      modifies this
      ensures Valid() && out == old(out) + buf
    {
      UpdateAppend(ONES, out, buf);
      crc := Absorb(crc, buf);
      out := out + buf;
      count := count + |buf|;
    }

    /** Appends the footer, which the checksum does not cover. */
    method Finish()
      requires Valid()
      modifies this
      ensures out == old(out) + BE(Checksum(old(out)), U32) && count == |out|
    {
      out := out + BE(Xor(crc, ONES), U32);
      count := count + 4;
    }
  }

  method Absorb(crc: nat, buf: Text) returns (c: nat)
    ensures c == Update(crc, buf)
  {
    c := crc;
    for i := 0 to |buf|
      invariant c == Update(crc, buf[..i])
    {
      assert buf[..i + 1][..i] == buf[..i];
      c := ByteStep(c, buf[i]);
    }
    assert buf[..|buf|] == buf;
  }

  method WriteHeader(w: CrcWriter, h: Header)
    requires w.Valid()
    modifies w
    ensures w.Valid() && w.out == old(w.out) + HeaderBytes(h)
  {
    ghost var o := w.out;
    w.WriteAll(MAGIC());
    w.WriteAll(BE(h.formatVer, U16));
    w.WriteAll(BE(h.createdMs, U64));
    WriteHash(w, h.schemaHash);
    w.WriteAll(BE(h.redbMarker, U32));
    w.WriteAll(BE(h.entryCountHint, U64));
    Joined(o, MAGIC(), BE(h.formatVer, U16), BE(h.createdMs, U64), HashField(h.schemaHash));
    Joined(o, MAGIC() + BE(h.formatVer, U16) + BE(h.createdMs, U64) + HashField(h.schemaHash), BE(h.redbMarker, U32),
           BE(h.entryCountHint, U64), []);
  }

  /** Four writes in a row append one string. */
  lemma Joined(o: Text, a: Text, b: Text, c: Text, d: Text)
    ensures o + a + b + c + d == o + (a + b + c + d)
    ensures d == [] ==> o + a + b + c == o + (a + b + c)
  {
    assert d == [] ==> o + a + b + c + d == o + a + b + c && a + b + c + d == a + b + c;
  }

  /** The presence byte and the hash, or its placeholder. */
  method WriteHash(w: CrcWriter, h: Option<Text>)
    requires w.Valid()
    modifies w
    ensures w.Valid() && w.out == old(w.out) + HashField(h)
  {
    ghost var o := w.out;
    match h {
      case Some(x) =>
        w.WriteAll([1]);
        w.WriteAll(x);
        Assoc(o, [1], x);
      case None =>
        w.WriteAll([0]);
        w.WriteAll(Zeros(32));
        Assoc(o, [0], Zeros(32));
    }
  }

  method WriteEntry(w: CrcWriter, key: Text, value: Text)
    requires w.Valid()
    modifies w
    ensures w.Valid() && w.out == old(w.out) + EntryBytes((key, value))
  {
    ghost var o := w.out;
    w.WriteAll(BE(|key|, U32));
    w.WriteAll(key);
    w.WriteAll(BE(|value|, U32));
    w.WriteAll(value);
    Joined(o, BE(|key|, U32), key, BE(|value|, U32), value);
  }

  lemma {:induction false} EntriesBytesAppend(es: seq<Entry>, e: Entry)
    ensures EntriesBytes(es + [e]) == EntriesBytes(es) + EntryBytes(e)
  {
    if es == [] {
      assert EntriesBytes([e][1..]) == [];
    } else {
      assert (es + [e])[1..] == es[1..] + [e];
      EntriesBytesAppend(es[1..], e);
    }
  }

  function HeaderFor(count: nat, createdMs: nat, schemaHash: Option<Text>): Header {
    Header(FORMAT_VER, createdMs, schemaHash, REDB_MARKER, count)
  }

  /** What the frames can carry: byte strings below 2^32 bytes, keys not empty. */
  predicate Frameable(e: Entry) {
    0 < |e.0| < Pow256(U32) && |e.1| < Pow256(U32) && IsBytes(e.0) && IsBytes(e.1)
  }

  predicate Storable(m: map<Text, Text>) {
    forall k :: k in m ==> Frameable((k, m[k]))
  }

  method WriteEntries(w: CrcWriter, entries: seq<Entry>)
    requires w.Valid()
    modifies w
    ensures w.Valid() && w.out == old(w.out) + EntriesBytes(entries)
  {
    assert entries[..0] == [];
    for i := 0 to |entries|
      invariant w.Valid() && w.out == old(w.out) + EntriesBytes(entries[..i])
    {
      EntriesBytesAppend(entries[..i], entries[i]);
      Assoc(old(w.out), EntriesBytes(entries[..i]), EntryBytes(entries[i]));
      assert entries[..i + 1] == entries[..i] + [entries[i]];
      WriteEntry(w, entries[i].0, entries[i].1);
    }
    assert entries[..|entries|] == entries;
  }

  method WriteStream(header: Header, entries: seq<Entry>) returns (out: Text, count: nat)
    ensures out == Stream(header, entries) && count == |out|
  {
    var w := new CrcWriter();
    WriteHeader(w, header);
    ghost var hb := w.out;
    assert hb == HeaderBytes(header);
    WriteEntries(w, entries);
    w.WriteAll(SENTINEL());
    assert w.out == hb + EntriesBytes(entries) + SENTINEL();
    w.Finish();
    return w.out, w.count;
  }

  method WriteBackup(db: Db<Text>, createdMs: nat, schemaHash: Option<Text>) returns (out: Text, stats: BackupStats)
    requires Storable(db.committed.entries)
    ensures var es := AllEntries(db.committed.entries);
            && out == Stream(HeaderFor(|es|, createdMs, schemaHash), es)
            && stats == BackupStats(|es|, |out|)
  {
    var entries := ListEntriesRaw(db.committed.entries);
    var count;
    out, count := WriteStream(HeaderFor(|entries|, createdMs, schemaHash), entries);
    return out, BackupStats(|entries|, count);
  }

  // ---- reading ---------------------------------------------------------------------------------

  class CrcReader {
    const input: Text
    var count: nat
    var crc: nat

    ghost predicate Valid()
      reads this
    {
      count <= |input| && crc == Update(ONES, input[..count])
    }

    function Rest(): Text
      requires count <= |input|
      reads this
    {
      input[count..]
    }

    constructor (input: Text)
      ensures Valid() && this.input == input && count == 0
    {
      this.input, count, crc := input, 0, ONES;
    }

    method ReadExact(n: nat) returns (r: Result<Text>)
      requires Valid()
      modifies this
      ensures |old(Rest())| < n ==> r == Err(Corruption)
      ensures |old(Rest())| >= n ==>
                Valid() && count == old(count) + n && r == Ok(old(Rest())[..n]) && Rest() == old(Rest())[n..]
    {
      ghost var s := Rest();
      if |input| - count < n { return Err(Corruption); }
      var buf := input[count..count + n];
      assert input[..count + n] == input[..count] + buf;
      UpdateAppend(ONES, input[..count], buf);
      crc := Absorb(crc, buf);
      assert buf == s[..n] && input[count + n..] == s[n..];
      count := count + n;
      return Ok(buf);
    }

    /** Reads the footer past the checksum and compares. */
    method FinishAndVerify() returns (r: Result<()>)
      requires Valid()
      modifies this
      ensures r.Ok? <==> CheckFooter(input[..old(count)], old(Rest())).Ok?
      ensures r.Ok? ==> count == old(count) + 4 <= |input| && Rest() == CheckFooter(input[..old(count)], old(Rest())).value
      ensures r.Err? ==> r == Err(Corruption)
    {
      if |input| - count < 4 { return Err(Corruption); }
      var footer := input[count..count + 4];
      assert footer == Rest()[..4];
      count := count + 4;
      if FromBE(footer) != Xor(crc, ONES) { return Err(Corruption); }
      return Ok(());
    }
  }

  /** The next slice of a rest, and what is behind it. */
  lemma Ahead(s: Text, a: nat, n: nat)
    requires a + n <= |s|
    ensures s[a..][..n] == s[a..a + n] && s[a..][n..] == s[a + n..]
  {
  }

  /** The first fields of a header: its magic and version. */
  method ReadMagicAndVersion(rd: CrcReader) returns (r: Result<nat>)
    requires rd.Valid()
    modifies rd
    ensures var s := old(rd.Rest());
            if |s| < 10 || s[..8] != MAGIC() || FromBE(s[8..10]) != FORMAT_VER then r == Err(Corruption)
            else r == Ok(FORMAT_VER) && rd.Valid() && rd.Rest() == s[10..]
  {
    ghost var s := rd.Rest();
    var magic := rd.ReadExact(8);
    if magic.Err? { return Err(magic.error); }
    if magic.value != MAGIC() { return Err(Corruption); }
    var fv := rd.ReadExact(2);
    if fv.Err? { return Err(fv.error); }
    Ahead(s, 8, 2);
    if FromBE(fv.value) != FORMAT_VER { return Err(Corruption); }
    return Ok(FromBE(fv.value));
  }

  method ReadHeader(rd: CrcReader) returns (r: Result<Header>)
    requires rd.Valid()
    modifies rd
    ensures r == ParseHeader(old(rd.Rest()))
    ensures r.Ok? ==> rd.Valid() && rd.Rest() == old(rd.Rest())[HEADER_SIZE..]
  {
    ghost var s := rd.Rest();
    var fv := ReadMagicAndVersion(rd);
    if fv.Err? { return Err(fv.error); }
    var cm := rd.ReadExact(8);
    if cm.Err? { return Err(cm.error); }
    Ahead(s, 10, 8);
    var sp := rd.ReadExact(1);
    if sp.Err? { return Err(sp.error); }
    Ahead(s, 18, 1);
    var sh := rd.ReadExact(32);
    if sh.Err? { return Err(sh.error); }
    Ahead(s, 19, 32);
    if sp.value[0] > 1 { return Err(Corruption); }
    var hash := if sp.value[0] == 1 then Some(sh.value) else None;
    var rm := rd.ReadExact(4);
    if rm.Err? { return Err(rm.error); }
    Ahead(s, 51, 4);
    var ec := rd.ReadExact(8);
    if ec.Err? { return Err(ec.error); }
    Ahead(s, 55, 8);
    return Ok(Header(fv.value, FromBE(cm.value), hash, FromBE(rm.value), FromBE(ec.value)));
  }

  /** `ParseEntry` one piece after the other. */
  function NextEntry(s: Text): Result<(ReadEntry, Text)> {
    if |s| < 4 then Err(Corruption) else
      var n, t := FromBE(s[..4]), s[4..];
      if n == 0 then Ok((Sentinel, t))
      else if |t| < n || |t[n..]| < 4 then Err(Corruption)
      else
        var m, u := FromBE(t[n..][..4]), t[n..][4..];
        if |u| < m then Err(Corruption) else Ok((Read((t[..n], u[..m])), u[m..]))
  }

  lemma NextIsParsed(s: Text)
    ensures NextEntry(s) == ParseEntry(s)
  {
    if |s| >= 4 {
      var n, t := FromBE(s[..4]), s[4..];
      if |t| >= n + 4 {
        assert t[n..][..4] == s[n + 4..n + 8];
        var m, u := FromBE(t[n..][..4]), t[n..][4..];
        if |u| >= m { assert t[..n] == s[4..n + 4] && u[..m] == s[n + 8..n + 8 + m] && u[m..] == s[n + 8 + m..]; }
      }
    }
  }

  method ReadLength(rd: CrcReader) returns (r: Result<nat>)
    requires rd.Valid()
    modifies rd
    ensures var s := old(rd.Rest());
            if |s| < 4 then r == Err(Corruption) else r == Ok(FromBE(s[..4])) && rd.Valid() && rd.Rest() == s[4..]
  {
    var buf := rd.ReadExact(4);
    if buf.Err? { return Err(buf.error); }
    return Ok(FromBE(buf.value));
  }

  /** What `read_one_entry` does, piece by piece. */
  method ReadFrame(rd: CrcReader) returns (r: Result<ReadEntry>)
    requires rd.Valid()
    modifies rd
    ensures var p := NextEntry(old(rd.Rest()));
            match p
            case Err(e) => r == Err(e)
            case Ok((item, rest)) => r == Ok(item) && rd.Valid() && rd.Rest() == rest
  {
    var n := ReadLength(rd);
    if n.Err? { return Err(n.error); }
    if n.value == 0 { return Ok(Sentinel); }
    var key := rd.ReadExact(n.value);
    if key.Err? { return Err(key.error); }
    var m := ReadLength(rd);
    if m.Err? { return Err(m.error); }
    var value := rd.ReadExact(m.value);
    if value.Err? { return Err(value.error); }
    return Ok(Read((key.value, value.value)));
  }

  method ReadOneEntry(rd: CrcReader) returns (r: Result<ReadEntry>)
    requires rd.Valid()
    modifies rd
    ensures var p := ParseEntry(old(rd.Rest()));
            match p
            case Err(e) => r == Err(e)
            case Ok((item, rest)) => r == Ok(item) && rd.Valid() && rd.Rest() == rest
  {
    NextIsParsed(rd.Rest());
    r := ReadFrame(rd);
  }

  /** The reading loop. */
  method ReadEntries(rd: CrcReader) returns (r: Result<seq<Entry>>)
    requires rd.Valid()
    modifies rd
    ensures var p := ParseEntries(old(rd.Rest()));
            match p
            case Err(e) => r == Err(e)
            case Ok((es, rest)) => r == Ok(es) && rd.Valid() && rd.Rest() == rest
  {
    ghost var s := rd.Rest();
    var entries: seq<Entry> := [];
    PrependNone(ParseEntries(s));
    while true
      invariant rd.Valid()
      invariant ParseEntries(s) == Prepend(entries, ParseEntries(rd.Rest()))
      decreases |rd.Rest()|
    {
      var item := ReadOneEntry(rd);
      if item.Err? { return Err(item.error); }
      match item.value {
        case Sentinel =>
          assert entries + [] == entries;
          return Ok(entries);
        case Read(e) =>
          PrependOne(entries, e, ParseEntries(rd.Rest()));
          entries := entries + [e];
      }
    }
  }

  ghost function Prepend(done: seq<Entry>, r: Result<(seq<Entry>, Text)>): Result<(seq<Entry>, Text)> {
    match r case Err(e) => Err(e) case Ok((es, rest)) => Ok((done + es, rest))
  }

  lemma PrependNone(r: Result<(seq<Entry>, Text)>)
    ensures Prepend([], r) == r
  {
    if r.Ok? { assert [] + r.value.0 == r.value.0; }
  }

  lemma PrependOne(done: seq<Entry>, e: Entry, r: Result<(seq<Entry>, Text)>)
    ensures Prepend(done, Prepend([e], r)) == Prepend(done + [e], r)
  {
    if r.Ok? { assert done + ([e] + r.value.0) == done + [e] + r.value.0; }
  }

  /** Restores a stream. Every failure leaves the committed tables as they were; success
      installs exactly the replayed ones, announcing nothing. */
  method ReadBackup(db: Db<Text>, input: Text, opts: RestoreOptions) returns (r: Result<RestoreStats>)
    modifies db`committed, db.notifier`delivered
    ensures db.notifier.delivered == old(db.notifier.delivered)
    ensures r.Err? ==> db.committed == old(db.committed)
    ensures match Restored(old(db.committed), input, opts)
            case Err(e) => r == Err(e)
            case Ok((t, stats)) => r == Ok(stats) && db.committed == t
  {
    var rd := new CrcReader(input);
    assert rd.Rest() == input;
    var parsed := ReadStream(rd, opts);
    if parsed.Err? { return Err(parsed.error); }
    var tx := new WriteTx(db.committed);
    var outcome := ReplayInTx(tx, parsed.value, opts);
    var done := db.Finish(tx, outcome);
    if done.Err? { return Err(done.error); }
    return Ok(RestoreStats(|parsed.value|, rd.count));
  }

  /** Everything up to the verified footer; nothing is written meanwhile. */
  method ReadStream(rd: CrcReader, opts: RestoreOptions) returns (r: Result<seq<Entry>>)
    requires rd.Valid() && rd.count == 0
    modifies rd
    ensures match Parse(rd.input, opts)
            case Err(e) => r == Err(e)
            case Ok(p) => r == Ok(p.entries) && rd.count == |rd.input| - |p.rest|
  {
    assert rd.Rest() == rd.input;
    var header := ReadHeader(rd);
    if header.Err? { return Err(header.error); }
    if SchemaClash(header.value, opts) { return Err(SchemaError); }
    var entries := ReadEntries(rd);
    if entries.Err? { return Err(entries.error); }
    assert rd.count == |rd.input| - |rd.Rest()|;
    var ok := rd.FinishAndVerify();
    if ok.Err? { return Err(ok.error); }
    return Ok(entries.value);
  }

  /** The closure of the restore's write transaction. */
  method ReplayInTx(tx: WriteTx<Text>, es: seq<Entry>, opts: RestoreOptions) returns (r: Result<()>)
    modifies tx
    ensures tx.touched == old(tx.touched)
    ensures match Replayed(old(tx.State().tables), es, opts)
            case Err(e) => r == Err(e)
            case Ok(t) => r == Ok(()) && tx.State().tables == t
  {
    if opts.allowOverwrite {
      tx.ClearEntries();
    } else {
      var any := tx.HasAnyEntry();
      if any { return Err(Conflict); }
    }
    for i := 0 to |es|
      invariant tx.table == PutAll(map[], es[..i]) && tx.touched == old(tx.touched)
      invariant tx.indexTable == if opts.allowOverwrite then map[] else old(tx.indexTable)
    {
      assert es[..i + 1][..i] == es[..i];
      tx.PutRaw(es[i].0, es[i].1);
    }
    assert es[..|es|] == es;
    return Ok(());
  }
}
