/** What a backup is for: restoring gives the same entries back, and damage is noticed. */
module BackupProofs {
  import opened Lex
  import opened Json
  import opened Storage
  import opened Crc
  import opened Bytes
  import opened Backup

  predicate GoodHeader(h: Header) {
    && h.formatVer == FORMAT_VER && h.createdMs < Pow256(U64) && h.redbMarker < Pow256(U32) && h.entryCountHint < Pow256(U64)
    && (h.schemaHash.Some? ==> |h.schemaHash.value| == 32 && IsBytes(h.schemaHash.value))
  }

  predicate AllFrameable(es: seq<Entry>) { forall i :: 0 <= i < |es| ==> Frameable(es[i]) }

  // ---- parsing what was printed --------------------------------------------------------------

  /** The fields of a printed header by position. */
  lemma HeaderFields(h: Header)
    requires GoodHeader(h)
    ensures |HeaderBytes(h)| == HEADER_SIZE
    ensures var s := HeaderBytes(h);
            && s[..8] == MAGIC() && s[8..10] == BE(h.formatVer, U16) && s[10..18] == BE(h.createdMs, U64)
            && s[18..51] == HashField(h.schemaHash) && s[51..55] == BE(h.redbMarker, U32) && s[55..63] == BE(h.entryCountHint, U64)
  {
    var a, b, c := MAGIC(), BE(h.formatVer, U16), BE(h.createdMs, U64);
    var d, e, f := HashField(h.schemaHash), BE(h.redbMarker, U32), BE(h.entryCountHint, U64);
    assert |a| == 8 && |d| == 33;
    SixFields(a, b, c, d, e, f);
  }

  lemma SixFields(a: Text, b: Text, c: Text, d: Text, e: Text, f: Text)
    requires |a| == 8 && |b| == 2 && |c| == 8 && |d| == 33 && |e| == 4 && |f| == 8
    ensures var s := a + b + c + d + e + f;
            |s| == 63 && s[..8] == a && s[8..10] == b && s[10..18] == c && s[18..51] == d && s[51..55] == e && s[55..63] == f
  {
  }

  lemma HeaderRoundTrip(h: Header, x: Text)
    requires GoodHeader(h)
    ensures ParseHeader(HeaderBytes(h) + x) == Ok(h) && (HeaderBytes(h) + x)[HEADER_SIZE..] == x
  {
    HeaderFields(h);
    var p := HeaderBytes(h);
    var s := p + x;
    Widths();
    FromBEInverts(h.formatVer, U16);
    FromBEInverts(h.createdMs, U64);
    FromBEInverts(h.redbMarker, U32);
    FromBEInverts(h.entryCountHint, U64);
    PrefixSlice(p, x, 0, 8);
    PrefixSlice(p, x, 8, 10);
    PrefixSlice(p, x, 10, 18);
    PrefixSlice(p, x, 51, 55);
    PrefixSlice(p, x, 55, 63);
    HashRoundTrip(h, x);
    assert p[0..8] == p[..8] && s[0..8] == s[..8];
  }

  lemma PrefixSlice(p: Text, x: Text, a: nat, b: nat)
    requires a <= b <= |p|
    ensures (p + x)[a..b] == p[a..b]
  {
  }

  lemma HashRoundTrip(h: Header, x: Text)
    requires GoodHeader(h) && |HeaderBytes(h)| == HEADER_SIZE && HeaderBytes(h)[18..51] == HashField(h.schemaHash)
    ensures var s := HeaderBytes(h) + x;
            s[18] <= 1 && (if s[18] == 1 then Some(s[19..51]) else None) == h.schemaHash
  {
    var p := HeaderBytes(h);
    var f := p[18..51];
    assert p[18] == f[0] && (p + x)[19..51] == f[1..];
  }

  lemma EntryRoundTrip(e: Entry, x: Text)
    requires Frameable(e)
    ensures ParseEntry(EntryBytes(e) + x) == Ok((Read(e), x))
  {
    var a, b := BE(|e.0|, U32), BE(|e.1|, U32);
    var s := EntryBytes(e) + x;
    FromBEInverts(|e.0|, U32);
    FromBEInverts(|e.1|, U32);
    EntrySlices(a, e.0, b, e.1, x);
    assert s == a + e.0 + b + e.1 + x;
  }

  lemma EntrySlices(a: Text, k: Text, b: Text, v: Text, x: Text)
    requires |a| == 4 && |b| == 4
    ensures var s := a + k + b + v + x; var n := |k|; var m := |v|;
            && |s| == n + 8 + m + |x| && s[..4] == a && s[4..n + 4] == k && s[n + 4..n + 8] == b
            && s[n + 8..n + 8 + m] == v && s[n + 8 + m..] == x
  {
  }

  /** Printed entries parse back, whatever follows them. */
  lemma {:induction false} EntriesThen(es: seq<Entry>, x: Text)
    requires AllFrameable(es)
    ensures ParseEntries(EntriesBytes(es) + x) == Prepend(es, ParseEntries(x))
    decreases |es|
  {
    if es == [] {
      assert EntriesBytes(es) + x == x;
      PrependNone(ParseEntries(x));
    } else {
      var rest := EntriesBytes(es[1..]) + x;
      assert EntriesBytes(es) + x == EntryBytes(es[0]) + rest;
      EntryRoundTrip(es[0], rest);
      EntriesThen(es[1..], x);
      PrependFirst(es, ParseEntries(x));
    }
  }

  lemma PrependFirst(es: seq<Entry>, r: Result<(seq<Entry>, Text)>)
    requires es != []
    ensures Prepend([es[0]], Prepend(es[1..], r)) == Prepend(es, r)
  {
    if r.Ok? { assert [es[0]] + (es[1..] + r.value.0) == es + r.value.0; }
  }

  lemma SentinelEnds(x: Text)
    ensures ParseEntries(SENTINEL() + x) == Ok(([], x))
  {
    Widths();
    FromBEInverts(0, U32);
    assert (SENTINEL() + x)[..4] == SENTINEL() && (SENTINEL() + x)[4..] == x;
  }

  lemma EntriesRoundTrip(es: seq<Entry>, x: Text)
    requires AllFrameable(es)
    ensures ParseEntries(EntriesBytes(es) + SENTINEL() + x) == Ok((es, x))
  {
    SentinelEnds(x);
    EntriesThen(es, SENTINEL() + x);
    assert EntriesBytes(es) + SENTINEL() + x == EntriesBytes(es) + (SENTINEL() + x);
    assert es + [] == es;
  }

  /** A printed body followed by any four footer bytes: the footer decides. */
  lemma ParseBody(h: Header, es: seq<Entry>, f: Text, x: Text, opts: RestoreOptions)
    requires GoodHeader(h) && AllFrameable(es) && |f| == 4
    ensures Parse(Body(h, es) + f + x, opts) ==
            if SchemaClash(h, opts) then Err(SchemaError)
            else if FromBE(f) == Checksum(Body(h, es)) then Ok(Parsed(es, x))
            else Err(Corruption)
  {
    var rest := EntriesBytes(es) + SENTINEL() + (f + x);
    Layout(HeaderBytes(h), EntriesBytes(es), SENTINEL(), f, x);
    HeaderRoundTrip(h, rest);
    EntriesRoundTrip(es, f + x);
    ParseParts(HeaderBytes(h) + rest, h, es, f + x, opts);
  }

  lemma Layout(a: Text, b: Text, c: Text, f: Text, x: Text)
    ensures a + b + c + f + x == a + (b + c + (f + x))
    ensures (a + (b + c + (f + x)))[..|a + (b + c + (f + x))| - |f + x|] == a + b + c
    ensures (f + x)[..|f|] == f && (f + x)[|f|..] == x
  {
    assert a + (b + c + (f + x)) == (a + b + c) + (f + x);
  }

  lemma ParseParts(s: Text, h: Header, es: seq<Entry>, tail: Text, opts: RestoreOptions)
    requires ParseHeader(s) == Ok(h) && ParseEntries(s[HEADER_SIZE..]) == Ok((es, tail))
    ensures Parse(s, opts) ==
            if SchemaClash(h, opts) then Err(SchemaError)
            else match CheckFooter(s[..|s| - |tail|], tail)
                 case Err(e) => Err(e)
                 case Ok(x) => Ok(Parsed(es, x))
  {
  }

  lemma BothBytes(a: Text, b: Text)
    requires IsBytes(a) && IsBytes(b)
    ensures IsBytes(a + b)
  {
  }

  lemma HeaderIsBytes(h: Header)
    requires GoodHeader(h)
    ensures IsBytes(HeaderBytes(h))
  {
    var a, b, c := MAGIC(), BE(h.formatVer, U16), BE(h.createdMs, U64);
    assert IsBytes(a) && IsBytes(HashField(h.schemaHash));
    BothBytes(a, b);
    BothBytes(a + b, c);
    BothBytes(a + b + c, HashField(h.schemaHash));
    BothBytes(a + b + c + HashField(h.schemaHash), BE(h.redbMarker, U32));
    BothBytes(a + b + c + HashField(h.schemaHash) + BE(h.redbMarker, U32), BE(h.entryCountHint, U64));
  }

  lemma BodyIsBytes(h: Header, es: seq<Entry>)
    requires GoodHeader(h) && AllFrameable(es)
    ensures IsBytes(Body(h, es))
  {
    HeaderIsBytes(h);
    EntriesAreBytes(es);
    BothBytes(HeaderBytes(h), EntriesBytes(es));
    BothBytes(HeaderBytes(h) + EntriesBytes(es), SENTINEL());
  }

  lemma {:induction false} EntriesAreBytes(es: seq<Entry>)
    requires AllFrameable(es)
    ensures IsBytes(EntriesBytes(es))
  {
    if es != [] { EntriesAreBytes(es[1..]); }
  }

  lemma FooterHolds(h: Header, es: seq<Entry>)
    requires GoodHeader(h) && AllFrameable(es)
    ensures FromBE(BE(Checksum(Body(h, es)), U32)) == Checksum(Body(h, es))
  {
    BodyIsBytes(h, es);
    ChecksumFits(Body(h, es));
    Widths();
    FromBEInverts(Checksum(Body(h, es)), U32);
  }

  lemma ParseStream(h: Header, es: seq<Entry>, x: Text, opts: RestoreOptions)
    requires GoodHeader(h) && AllFrameable(es)
    ensures Parse(Stream(h, es) + x, opts) == if SchemaClash(h, opts) then Err(SchemaError) else Ok(Parsed(es, x))
  {
    FooterHolds(h, es);
    ParseBody(h, es, BE(Checksum(Body(h, es)), U32), x, opts);
  }

  // ---- the round trip ---------------------------------------------------------------------------

  predicate AllFrom(m: map<Text, Text>, es: seq<Entry>) {
    forall i :: 0 <= i < |es| ==> es[i].0 in m && es[i].1 == m[es[i].0]
  }

  lemma {:induction false} PutAllFrom(m: map<Text, Text>, es: seq<Entry>)
    requires AllFrom(m, es)
    ensures forall k :: k in PutAll(map[], es) ==> k in m && PutAll(map[], es)[k] == m[k]
    ensures forall i :: 0 <= i < |es| ==> es[i].0 in PutAll(map[], es)
  {
    if es != [] { PutAllFrom(m, es[..|es| - 1]); }
  }

  lemma ReplayRestores(m: map<Text, Text>)
    ensures PutAll(map[], AllEntries(m)) == m && |AllEntries(m)| == |m|
  {
    SortedSeqFacts(m.Keys);
    var q, es := SortedSeq(m.Keys), AllEntries(m);
    assert forall i :: 0 <= i < |q| ==> q[i] in q;
    PutAllFrom(m, es);
    forall k | k in m ensures k in PutAll(map[], es) {
      var i :| 0 <= i < |q| && q[i] == k;
      assert es[i].0 == k;
    }
  }

  lemma EntriesFrameable(m: map<Text, Text>)
    requires Storable(m)
    ensures AllFrameable(AllEntries(m))
  {
    SortedSeqFacts(m.Keys);
    forall i | 0 <= i < |AllEntries(m)| ensures Frameable(AllEntries(m)[i]) {
      assert SortedSeq(m.Keys)[i] in m;
    }
  }

  /** Restoring a backup, whatever bytes follow it in the stream: refused if both schema hashes are
      known, differ and are not to be skipped; otherwise over any target with overwrite, or over
      one without entries, the entries are exactly those of the source, exactly the bytes written
      are consumed, and an overwritten target loses its index. */
  lemma BackupRoundTrip(m: map<Text, Text>, createdMs: nat, hash: Option<Text>, x: Text, target: RawTables, opts: RestoreOptions)
    requires Storable(m) && GoodHeader(HeaderFor(|AllEntries(m)|, createdMs, hash))
    ensures var out := Stream(HeaderFor(|AllEntries(m)|, createdMs, hash), AllEntries(m));
            var stats := RestoreStats(|m|, |out|);
            && ParseHeader(out + x) == Ok(HeaderFor(|AllEntries(m)|, createdMs, hash))
            && Restored(target, out + x, opts) ==
               if !opts.skipSchemaCheck && hash.Some? && opts.currentSchemaHash.Some? && hash.value != opts.currentSchemaHash.value
               then Err(SchemaError)
               else if opts.allowOverwrite then Ok((Tables(m, map[]), stats))
               else if target.entries == map[] then Ok((Tables(m, target.index), stats))
               else Err(Conflict)
  {
    var es := AllEntries(m);
    var h := HeaderFor(|es|, createdMs, hash);
    EntriesFrameable(m);
    ParseStream(h, es, x, opts);
    ReplayRestores(m);
    StreamHeader(h, es, x);
    if !SchemaClash(h, opts) { RestoreParsed(target, Stream(h, es), x, es, opts); }
  }

  /** The stream's fixed bytes, and the order of an integer's bytes. */
  lemma KnownBytes()
    ensures MAGIC() == [78, 79, 79, 75, 66, 75, 85, 80] && FORMAT_VER == 1 && SENTINEL() == [0, 0, 0, 0]
    ensures BE(0x0102_0304, U32) == [1, 2, 3, 4]
  {
    BigEndian(0);
    BigEndian(0x0102_0304);
  }

  lemma BigEndian(n: nat)
    ensures BE(n, 4) == [n / 256 / 256 / 256 % 256, n / 256 / 256 % 256, n / 256 % 256, n % 256]
  {
    var a, b, c := n / 256, n / 256 / 256, n / 256 / 256 / 256;
    assert BE(c, 1) == BE(c / 256, 0) + [c % 256];
    assert BE(b, 2) == BE(c, 1) + [b % 256];
    assert BE(a, 3) == BE(b, 2) + [a % 256];
    assert BE(n, 4) == BE(a, 3) + [n % 256];
  }

  lemma RestoreParsed(target: RawTables, out: Text, x: Text, es: seq<Entry>, opts: RestoreOptions)
    requires Parse(out + x, opts) == Ok(Parsed(es, x))
    ensures Restored(target, out + x, opts) ==
            match Replayed(target, es, opts)
            case Err(e) => Err(e)
            case Ok(t) => Ok((t, RestoreStats(|es|, |out|)))
  {
  }

  lemma StreamHeader(h: Header, es: seq<Entry>, x: Text)
    requires GoodHeader(h)
    ensures ParseHeader(Stream(h, es) + x) == Ok(h)
  {
    var f := BE(Checksum(Body(h, es)), U32);
    Layout(HeaderBytes(h), EntriesBytes(es), SENTINEL(), f, x);
    HeaderRoundTrip(h, EntriesBytes(es) + SENTINEL() + (f + x));
  }

  // ---- damage: truncation -------------------------------------------------------------------------

  lemma EntryExtends(s: Text, x: Text)
    requires ParseEntry(s).Ok?
    ensures ParseEntry(s + x) == Ok((ParseEntry(s).value.0, ParseEntry(s).value.1 + x))
  {
    var n := FromBE(s[..4]);
    assert (s + x)[..4] == s[..4];
    if n != 0 {
      var m := FromBE(s[n + 4..n + 8]);
      PrefixSlice(s, x, n + 4, n + 8);
      PrefixSlice(s, x, 4, n + 4);
      PrefixSlice(s, x, n + 8, n + 8 + m);
      assert (s + x)[n + 8 + m..] == s[n + 8 + m..] + x;
    } else {
      assert (s + x)[4..] == s[4..] + x;
    }
  }

  lemma {:induction false} EntriesExtend(s: Text, x: Text)
    requires ParseEntries(s).Ok?
    ensures ParseEntries(s + x) == Ok((ParseEntries(s).value.0, ParseEntries(s).value.1 + x))
    decreases |s|
  {
    EntryExtends(s, x);
    match ParseEntry(s) {
      case Ok((Sentinel, _)) =>
      case Ok((Read(_), rest)) => EntriesExtend(rest, x);
    }
  }

  lemma HeaderExtends(s: Text, x: Text)
    requires |s| >= HEADER_SIZE
    ensures ParseHeader(s + x) == ParseHeader(s) && (s + x)[HEADER_SIZE..] == s[HEADER_SIZE..] + x
  {
    PrefixSlice(s, x, 0, 8);
    assert (s + x)[0..8] == (s + x)[..8] && s[0..8] == s[..8];
    PrefixSlice(s, x, 8, 10);
    PrefixSlice(s, x, 10, 18);
    PrefixSlice(s, x, 19, 51);
    PrefixSlice(s, x, 51, 55);
    PrefixSlice(s, x, 55, 63);
  }

  /** The parser never looks past what it consumes. */
  lemma ParseExtends(s: Text, x: Text, opts: RestoreOptions)
    requires Parse(s, opts).Ok?
    ensures Parse(s + x, opts) == Ok(Parsed(Parse(s, opts).value.entries, Parse(s, opts).value.rest + x))
  {
    var h, es, tail := PartsOf(s, opts);
    HeaderExtends(s, x);
    EntriesExtend(s[HEADER_SIZE..], x);
    FooterExtends(s, tail, x);
    ParseParts(s + x, h, es, tail + x, opts);
  }

  /** The stages of a successful parse. */
  lemma PartsOf(s: Text, opts: RestoreOptions) returns (h: Header, es: seq<Entry>, tail: Text)
    requires Parse(s, opts).Ok?
    ensures |s| >= HEADER_SIZE && ParseHeader(s) == Ok(h) && !SchemaClash(h, opts)
    ensures ParseEntries(s[HEADER_SIZE..]) == Ok((es, tail)) && |tail| <= |s|
    ensures CheckFooter(s[..|s| - |tail|], tail).Ok?
    ensures Parse(s, opts) == Ok(Parsed(es, CheckFooter(s[..|s| - |tail|], tail).value))
  {
    h := ParseHeader(s).value;
    es, tail := RestPartsOf(s);
  }

  lemma RestPartsOf(s: Text) returns (es: seq<Entry>, tail: Text)
    requires |s| >= HEADER_SIZE && ParseRest(s).Ok?
    ensures ParseEntries(s[HEADER_SIZE..]) == Ok((es, tail)) && |tail| <= |s|
    ensures CheckFooter(s[..|s| - |tail|], tail).Ok?
    ensures ParseRest(s) == Ok(Parsed(es, CheckFooter(s[..|s| - |tail|], tail).value))
  {
    es, tail := ParseEntries(s[HEADER_SIZE..]).value.0, ParseEntries(s[HEADER_SIZE..]).value.1;
  }

  lemma FooterExtends(s: Text, tail: Text, x: Text)
    requires |tail| <= |s| && CheckFooter(s[..|s| - |tail|], tail).Ok?
    ensures CheckFooter((s + x)[..|s + x| - |tail + x|], tail + x) == Ok(CheckFooter(s[..|s| - |tail|], tail).value + x)
  {
    LongerSlices(s, tail, x, 4);
  }

  lemma LongerSlices(s: Text, tail: Text, x: Text, w: nat)
    requires w <= |tail| <= |s|
    ensures (s + x)[..|s + x| - |tail + x|] == s[..|s| - |tail|]
    ensures (tail + x)[..w] == tail[..w] && (tail + x)[w..] == tail[w..] + x
  {
  }

  lemma {:induction false} EntriesErrors(s: Text)
    requires ParseEntries(s).Err?
    ensures ParseEntries(s) == Err(Corruption)
    decreases |s|
  {
    match ParseEntry(s)
    case Err(_) =>
    case Ok((_, rest)) => EntriesErrors(rest);
  }

  lemma ParseErrors(s: Text, opts: RestoreOptions)
    requires Parse(s, opts).Err? && !(ParseHeader(s).Ok? && SchemaClash(ParseHeader(s).value, opts))
    ensures Parse(s, opts) == Err(Corruption)
  {
    if ParseHeader(s).Ok? && ParseEntries(s[HEADER_SIZE..]).Err? { EntriesErrors(s[HEADER_SIZE..]); }
  }

  /** Every truncation of a backup is refused as corrupt. */
  lemma TruncationRefused(h: Header, es: seq<Entry>, n: nat, target: RawTables, opts: RestoreOptions)
    requires GoodHeader(h) && AllFrameable(es) && !SchemaClash(h, opts)
    requires n < |Stream(h, es)|
    ensures Restored(target, Stream(h, es)[..n], opts) == Err(Corruption)
  {
    assert Stream(h, es) + [] == Stream(h, es);
    ParseStream(h, es, [], opts);
    StreamHeader(h, es, []);
    PrefixRefused(Stream(h, es), h, es, n, opts);
  }

  /** A stream that parses without remainder does not parse when cut short. */
  lemma PrefixRefused(full: Text, h: Header, es: seq<Entry>, n: nat, opts: RestoreOptions)
    requires ParseHeader(full) == Ok(h) && !SchemaClash(h, opts) && Parse(full, opts) == Ok(Parsed(es, [])) && n < |full|
    ensures Parse(full[..n], opts) == Err(Corruption)
  {
    var s, x := full[..n], full[n..];
    assert full == s + x;
    if Parse(s, opts).Ok? { ParseExtends(s, x, opts); }
    if |s| >= HEADER_SIZE { HeaderExtends(s, x); }
    ParseErrors(s, opts);
  }

  // ---- damage: one byte ------------------------------------------------------------------------------

  /** Offset `j` of the printed entries lies in a length field. */
  predicate LengthByte(es: seq<Entry>, j: nat) {
    es != [] &&
    var n := |es[0].0|;
    j < 4 || n + 4 <= j < n + 8 || (|EntryBytes(es[0])| <= j && LengthByte(es[1..], j - |EntryBytes(es[0])|))
  }

  /** A changed byte of a key or value body still parses to frames of the same shape. */
  lemma {:induction false} Reframed(es: seq<Entry>, j: nat, b: nat) returns (es': seq<Entry>)
    requires AllFrameable(es) && j < |EntriesBytes(es)| && !LengthByte(es, j) && b < 256
    ensures AllFrameable(es') && EntriesBytes(es') == EntriesBytes(es)[j := b]
    decreases |es|
  {
    var k, v, n, size := es[0].0, es[0].1, |es[0].0|, |EntryBytes(es[0])|;
    if j >= size {
      var rest := Reframed(es[1..], j - size, b);
      es' := [es[0]] + rest;
      assert es'[1..] == rest;
      UpdateRight(EntryBytes(es[0]), EntriesBytes(es[1..]), j, b);
    } else {
      var e := if j < n + 4 then (k[j - 4 := b], v) else (k, v[j - (n + 8) := b]);
      es' := [e] + es[1..];
      assert es'[1..] == es[1..];
      EntryUpdated(es[0], j, b);
      UpdateLeft(EntryBytes(es[0]), EntriesBytes(es[1..]), j, b);
    }
  }

  lemma UpdateLeft(p: Text, q: Text, j: nat, b: nat)
    requires j < |p|
    ensures (p + q)[j := b] == p[j := b] + q
  {
  }

  lemma UpdateRight(p: Text, q: Text, j: nat, b: nat)
    requires |p| <= j < |p| + |q|
    ensures (p + q)[j := b] == p + q[j - |p| := b]
  {
  }

  lemma EntryUpdated(e: Entry, j: nat, b: nat)
    requires 4 <= j < |EntryBytes(e)| && !(|e.0| + 4 <= j < |e.0| + 8)
    ensures EntryBytes(e)[j := b] ==
            EntryBytes(if j < |e.0| + 4 then (e.0[j - 4 := b], e.1) else (e.0, e.1[j - (|e.0| + 8) := b]))
  {
  }

  /** The checksum of a damaged body never matches the footer. */
  lemma DamagedBody(s: Text, body: Text, i: nat, b: nat, f: Text)
    requires IsBytes(body) && i < |body| && b < 256 && b != body[i]
    requires s == body[i := b] + f && |f| == 4 && FromBE(f) == Checksum(body)
    ensures CheckFooter(s[..|s| - |f|], f) == Err(Corruption)
  {
    ByteChangeSeen(body, i, b);
    assert s[..|s| - |f|] == body[i := b] && f[..4] == f;
  }

  lemma HeaderByteSeen(h: Header, es: seq<Entry>, i: nat, b: nat, opts: RestoreOptions)
    requires GoodHeader(h) && AllFrameable(es) && i < HEADER_SIZE && b < 256 && b != Body(h, es)[i]
    ensures Parse(Body(h, es)[i := b] + BE(Checksum(Body(h, es)), U32), opts).Err?
  {
    var body := Body(h, es);
    var f := BE(Checksum(body), U32);
    var s := body[i := b] + f;
    HeaderFields(h);
    EntriesRoundTrip(es, f);
    TailAfterHeader(HeaderBytes(h), EntriesBytes(es), SENTINEL(), i, b, f);
    BodyIsBytes(h, es);
    FooterHolds(h, es);
    DamagedBody(s, body, i, b, f);
    if ParseHeader(s).Ok? { ParseParts(s, ParseHeader(s).value, es, f, opts); }
  }

  lemma TailAfterHeader(a: Text, p: Text, q: Text, i: nat, b: nat, f: Text)
    requires i < |a|
    ensures ((a + p + q)[i := b] + f)[|a|..] == p + q + f
  {
    assert (a + p + q)[i := b] + f == a[i := b] + (p + q + f);
  }

  lemma EntryByteSeen(h: Header, es: seq<Entry>, j: nat, b: nat, opts: RestoreOptions)
    requires GoodHeader(h) && AllFrameable(es) && !SchemaClash(h, opts)
    requires j < |EntriesBytes(es)| && !LengthByte(es, j) && b < 256 && b != EntriesBytes(es)[j]
    ensures |HeaderBytes(h)| == HEADER_SIZE && HEADER_SIZE + j < |Body(h, es)|
    ensures Parse(Body(h, es)[HEADER_SIZE + j := b] + BE(Checksum(Body(h, es)), U32), opts) == Err(Corruption)
  {
    var body := Body(h, es);
    var f := BE(Checksum(body), U32);
    HeaderFields(h);
    var es' := Reframed(es, j, b);
    UpdateMiddle(HeaderBytes(h), EntriesBytes(es), SENTINEL(), j, b);
    assert Body(h, es') == body[HEADER_SIZE + j := b];
    BodyIsBytes(h, es);
    FooterHolds(h, es);
    ByteChangeSeen(body, HEADER_SIZE + j, b);
    ParseBody(h, es', f, [], opts);
    assert Body(h, es') + f + [] == Body(h, es') + f;
  }

  lemma UpdateMiddle(a: Text, p: Text, q: Text, j: nat, b: nat)
    requires j < |p|
    ensures (a + p + q)[|a| + j := b] == a + p[j := b] + q && (a + p + q)[|a| + j] == p[j]
  {
  }

  /** A damaged sentinel announces an entry that the remaining bytes cannot hold. */
  lemma DamagedSentinel(j: nat, b: nat, f: Text)
    requires j < 4 && 0 < b < 256 && |f| == 4
    ensures ParseEntries(SENTINEL()[j := b] + f) == Err(Corruption)
  {
    var z := SENTINEL()[j := b];
    assert (z + f)[..4] == z && z[j] != 0;
    if FromBE(z) == 0 { FromBEZero(z); }
  }

  lemma SentinelByteSeen(h: Header, es: seq<Entry>, j: nat, b: nat, f: Text, opts: RestoreOptions)
    requires GoodHeader(h) && AllFrameable(es) && !SchemaClash(h, opts)
    requires j < 4 && 0 < b < 256 && |f| == 4
    ensures Parse(HeaderBytes(h) + (EntriesBytes(es) + (SENTINEL()[j := b] + f)), opts) == Err(Corruption)
  {
    var x := SENTINEL()[j := b] + f;
    HeaderRoundTrip(h, EntriesBytes(es) + x);
    EntriesThen(es, x);
    DamagedSentinel(j, b, f);
  }

  /** The offset lies in a length field of an entry. */
  predicate InLengthField(h: Header, es: seq<Entry>, i: nat) {
    |HeaderBytes(h)| <= i && LengthByte(es, i - |HeaderBytes(h)|)
  }

  /** Any change of one byte of a backup, in the header, a key, a value, the sentinel or the
      footer, makes the restore fail: as corrupt unless the header's own hash was hit. */
  lemma ByteChangeRefused(h: Header, es: seq<Entry>, i: nat, b: nat, target: RawTables, opts: RestoreOptions)
    requires GoodHeader(h) && AllFrameable(es) && !SchemaClash(h, opts)
    requires i < |Stream(h, es)| && b < 256 && b != Stream(h, es)[i] && !InLengthField(h, es, i)
    ensures Restored(target, Stream(h, es)[i := b], opts).Err?
    ensures i >= HEADER_SIZE ==> Restored(target, Stream(h, es)[i := b], opts) == Err(Corruption)
  {
    ByteChangeSeenByParser(h, es, i, b, opts);
  }

  lemma ByteChangeSeenByParser(h: Header, es: seq<Entry>, i: nat, b: nat, opts: RestoreOptions)
    requires GoodHeader(h) && AllFrameable(es) && !SchemaClash(h, opts)
    requires i < |Stream(h, es)| && b < 256 && b != Stream(h, es)[i] && !InLengthField(h, es, i)
    ensures Parse(Stream(h, es)[i := b], opts).Err?
    ensures i >= HEADER_SIZE ==> Parse(Stream(h, es)[i := b], opts) == Err(Corruption)
  {
    HeaderFields(h);
    if i < HEADER_SIZE {
      FrontChanged(h, es, i, b);
      HeaderByteSeen(h, es, i, b, opts);
    } else if i < HEADER_SIZE + |EntriesBytes(es)| {
      FrontChanged(h, es, i, b);
      EntryByteSeen(h, es, i - HEADER_SIZE, b, opts);
    } else {
      EndByteSeen(h, es, i, b, opts);
    }
  }

  /** A byte of the header or of an entry lies before the footer. */
  lemma FrontChanged(h: Header, es: seq<Entry>, i: nat, b: nat)
    requires |HeaderBytes(h)| == HEADER_SIZE && i < HEADER_SIZE + |EntriesBytes(es)|
    ensures i < |Body(h, es)| && Stream(h, es)[i] == Body(h, es)[i]
    ensures Stream(h, es)[i := b] == Body(h, es)[i := b] + BE(Checksum(Body(h, es)), U32)
    ensures HEADER_SIZE <= i ==> Stream(h, es)[i] == EntriesBytes(es)[i - HEADER_SIZE]
  {
    FourParts(HeaderBytes(h), EntriesBytes(es), SENTINEL(), BE(Checksum(Body(h, es)), U32), i, b);
  }

  /** A byte of the sentinel or of the footer. */
  lemma EndByteSeen(h: Header, es: seq<Entry>, i: nat, b: nat, opts: RestoreOptions)
    requires GoodHeader(h) && AllFrameable(es) && !SchemaClash(h, opts) && |HeaderBytes(h)| == HEADER_SIZE
    requires HEADER_SIZE + |EntriesBytes(es)| <= i < |Stream(h, es)| && b < 256 && b != Stream(h, es)[i]
    ensures Parse(Stream(h, es)[i := b], opts) == Err(Corruption)
  {
    if i < HEADER_SIZE + |EntriesBytes(es)| + 4 {
      SentinelEndSeen(h, es, i, b, opts);
    } else {
      FooterEndSeen(h, es, i, b, opts);
    }
  }

  lemma SentinelEndSeen(h: Header, es: seq<Entry>, i: nat, b: nat, opts: RestoreOptions)
    requires GoodHeader(h) && AllFrameable(es) && !SchemaClash(h, opts) && |HeaderBytes(h)| == HEADER_SIZE
    requires HEADER_SIZE + |EntriesBytes(es)| <= i < HEADER_SIZE + |EntriesBytes(es)| + 4
    requires i < |Stream(h, es)| && b < 256 && b != Stream(h, es)[i]
    ensures Parse(Stream(h, es)[i := b], opts) == Err(Corruption)
  {
    var f, j := BE(Checksum(Body(h, es)), U32), i - HEADER_SIZE - |EntriesBytes(es)|;
    ThirdPart(HeaderBytes(h), EntriesBytes(es), SENTINEL(), f, i, b);
    SentinelZero(j);
    SentinelByteSeen(h, es, j, b, f, opts);
  }

  lemma FooterEndSeen(h: Header, es: seq<Entry>, i: nat, b: nat, opts: RestoreOptions)
    requires GoodHeader(h) && AllFrameable(es) && !SchemaClash(h, opts) && |HeaderBytes(h)| == HEADER_SIZE
    requires HEADER_SIZE + |EntriesBytes(es)| + 4 <= i < |Stream(h, es)| && b < 256 && b != Stream(h, es)[i]
    ensures Parse(Stream(h, es)[i := b], opts) == Err(Corruption)
  {
    FourthPart(Body(h, es), BE(Checksum(Body(h, es)), U32), i, b);
    FooterByteSeen(h, es, i - |Body(h, es)|, b, opts);
  }

  lemma ThirdPart(a: Text, p: Text, q: Text, f: Text, i: nat, b: nat)
    requires |a| + |p| <= i < |a| + |p| + |q|
    ensures var e := |a| + |p|;
            (a + p + q + f)[i := b] == a + (p + (q[i - e := b] + f)) && (a + p + q + f)[i] == q[i - e]
  {
  }

  lemma FourthPart(body: Text, f: Text, i: nat, b: nat)
    requires |body| <= i < |body + f|
    ensures (body + f)[i := b] == body + f[i - |body| := b] && (body + f)[i] == f[i - |body|]
  {
  }

  /** Where a changed byte of a four-part string falls. */
  lemma FourParts(a: Text, p: Text, q: Text, f: Text, i: nat, b: nat)
    requires i < |a + p + q + f|
    ensures var s, s' := a + p + q + f, (a + p + q + f)[i := b];
            var e := |a| + |p|;
            && (i < e ==> s' == (a + p + q)[i := b] + f && s[i] == (a + p + q)[i])
            && (|a| <= i < e ==> s[i] == p[i - |a|])
  {
  }

  lemma SentinelZero(j: nat)
    requires j < 4
    ensures SENTINEL()[j] == 0
  {
    Widths();
    FromBEInverts(0, U32);
    FromBEZero(SENTINEL());
  }

  lemma FooterByteSeen(h: Header, es: seq<Entry>, j: nat, b: nat, opts: RestoreOptions)
    requires GoodHeader(h) && AllFrameable(es) && !SchemaClash(h, opts)
    requires j < 4 && b < 256 && b != BE(Checksum(Body(h, es)), U32)[j]
    ensures Parse(Body(h, es) + BE(Checksum(Body(h, es)), U32)[j := b], opts) == Err(Corruption)
  {
    var f := BE(Checksum(Body(h, es)), U32);
    var f' := f[j := b];
    FooterHolds(h, es);
    assert f'[j] != f[j];
    if FromBE(f') == FromBE(f) { FromBEInjective(f', f); }
    ParseBody(h, es, f', [], opts);
    assert Body(h, es) + f' + [] == Body(h, es) + f';
  }

  // ---- damage: a length field ------------------------------------------------------------------------

  /** The bytes of a one-entry backup up to its value's length. */
  function UpToLength(h: Header, k: Text): Text { HeaderBytes(h) + (BE(|k|, U32) + k) }

  lemma OneEntryStream(h: Header, k: Text, v: Text)
    ensures var f := BE(Checksum(Body(h, [(k, v)])), U32);
            Stream(h, [(k, v)]) == UpToLength(h, k) + (BE(|v|, U32) + (v + (SENTINEL() + f)))
  {
    var f := BE(Checksum(Body(h, [(k, v)])), U32);
    assert [(k, v)][1..] == [];
    assert EntriesBytes([(k, v)]) == EntryBytes((k, v));
    OneEntryParts(HeaderBytes(h), BE(|k|, U32), k, BE(|v|, U32), v, SENTINEL(), f);
  }

  lemma OneEntryParts(a: Text, l: Text, k: Text, m: Text, v: Text, z: Text, f: Text)
    ensures a + (l + k + m + v) + z + f == (a + (l + k)) + (m + (v + (z + f)))
  {
  }

  lemma ByteSet(p: Text, q: Text, r: Text, j: nat, b: nat)
    requires j < |q|
    ensures (p + (q + r))[|p| + j := b] == p + (q[j := b] + r) && (p + (q + r))[|p| + j] == q[j]
  {
  }

  /** The value that ends the stream early: a sentinel and the footer of the stream up to there. */
  function Trap(h: Header, k: Text): (v: Text)
    ensures |v| == 8 && IsBytes(v)
  {
    SENTINEL() + BE(Checksum(Body(h, [(k, [])])), U32)
  }

  /** Where the last byte of its length lies. */
  function TrapAt(h: Header, k: Text): nat { |UpToLength(h, k)| + 3 }

  lemma TrapInLength(h: Header, k: Text)
    ensures InLengthField(h, [(k, Trap(h, k))], TrapAt(h, k))
  {
  }

  lemma TrapChanged(h: Header, k: Text) returns (x: Text)
    ensures var s, i := Stream(h, [(k, Trap(h, k))]), TrapAt(h, k);
            i < |s| && s[i] == 8 && s[i := 0] == UpToLength(h, k) + (BE(0, U32) + (Trap(h, k) + x))
  {
    x := SENTINEL() + BE(Checksum(Body(h, [(k, Trap(h, k))])), U32);
    LengthEight();
    OneEntryStream(h, k, Trap(h, k));
    ByteSet(UpToLength(h, k), BE(8, U32), Trap(h, k) + x, 3, 0);
  }

  /** A changed length is not always noticed. The value below holds a sentinel and a matching
      footer; with its length set to zero the stream ends there, and the restore succeeds with an
      empty value in its place. */
  lemma LengthChangePasses(h: Header, k: Text, target: RawTables, opts: RestoreOptions) returns (v: Text, i: nat)
    requires GoodHeader(h) && Frameable((k, [])) && !SchemaClash(h, opts) && opts.allowOverwrite
    ensures v != [] && Frameable((k, v))
    ensures i < |Stream(h, [(k, v)])| && Stream(h, [(k, v)])[i] != 0 && InLengthField(h, [(k, v)], i)
    ensures Restored(target, Stream(h, [(k, v)])[i := 0], opts).Ok?
    ensures Restored(target, Stream(h, [(k, v)])[i := 0], opts).value.0 == Tables(map[k := []], map[])
  {
    v, i := Trap(h, k), TrapAt(h, k);
    Widths();
    TrapInLength(h, k);
    var x := TrapChanged(h, k);
    ShortRestored(h, k, v, x, target, opts);
  }

  lemma LengthEight()
    ensures BE(8, U32)[3 := 0] == BE(0, U32) && BE(8, U32)[3] == 8
  {
    assert BE(8, U32) == BE(0, 3) + [8] && BE(0, U32) == BE(0, 3) + [0];
  }

  /** With the length zero, the stream of the empty value and whatever was left. */
  lemma ShortRestored(h: Header, k: Text, v: Text, x: Text, target: RawTables, opts: RestoreOptions)
    requires GoodHeader(h) && Frameable((k, [])) && !SchemaClash(h, opts) && opts.allowOverwrite
    requires v == SENTINEL() + BE(Checksum(Body(h, [(k, [])])), U32)
    ensures var r := Restored(target, UpToLength(h, k) + (BE(0, U32) + (v + x)), opts);
            r.Ok? && r.value.0 == Tables(map[k := []], map[])
  {
    OneEntryStream(h, k, []);
    ShortStream(UpToLength(h, k), BE(0, U32), v, x);
    assert [] + v == v;
    ParseStream(h, [(k, [])], x, opts);
    RestoreParsed(target, Stream(h, [(k, [])]), x, [(k, [])], opts);
    OnePut(k);
  }

  lemma ShortStream(p: Text, l: Text, v: Text, x: Text)
    ensures p + (l + (v + x)) == p + (l + v) + x
  {
  }

  lemma OnePut(k: Text)
    ensures PutAll(map[], [(k, [])]) == map[k := []]
  {
    var es: seq<Entry> := [(k, [])];
    assert es[..0] == [];
  }

  // ---- what the reader accepts ----------------------------------------------------------------------

  lemma PrintedEntry(s: Text)
    requires IsBytes(s) && ParseEntry(s).Ok?
    ensures var (got, rest) := ParseEntry(s).value;
            && IsBytes(rest)
            && match got
               case Sentinel => s == SENTINEL() + rest
               case Read(e) => Frameable(e) && s == EntryBytes(e) + rest
  {
    var n := FromBE(s[..4]);
    BEInverts(s[..4]);
    if n == 0 {
      PrintedSentinel(s);
    } else {
      BEInverts(s[n + 4..n + 8]);
      PrintedRead(s, n, FromBE(s[n + 4..n + 8]));
    }
  }

  /** The slices between two lengths are a printed entry. */
  lemma PrintedSentinel(s: Text)
    requires IsBytes(s) && |s| >= 4 && BE(0, 4) == s[..4]
    ensures IsBytes(s[4..]) && s == SENTINEL() + s[4..]
  {
    assert s == s[..4] + s[4..];
  }

  lemma PrintedRead(s: Text, n: nat, m: nat)
    requires IsBytes(s) && 0 < n < Pow256(U32) && m < Pow256(U32) && n + 8 + m <= |s|
    requires s[..4] == BE(n, U32) && s[n + 4..n + 8] == BE(m, U32)
    ensures var e := (s[4..n + 4], s[n + 8..n + 8 + m]);
            Frameable(e) && IsBytes(s[n + 8 + m..]) && s == EntryBytes(e) + s[n + 8 + m..]
  {
    var k, v := s[4..n + 4], s[n + 8..n + 8 + m];
    FourSlices(s, n, m);
    assert |k| == n && |v| == m;
    assert EntryBytes((k, v)) == s[..4] + k + s[n + 4..n + 8] + v;
    assert IsBytes(k) && IsBytes(v);
  }

  lemma FourSlices(s: Text, n: nat, m: nat)
    requires n + 8 + m <= |s|
    ensures s == s[..4] + s[4..n + 4] + s[n + 4..n + 8] + s[n + 8..n + 8 + m] + s[n + 8 + m..]
  {
  }

  lemma {:induction false} PrintedEntries(s: Text)
    requires IsBytes(s) && ParseEntries(s).Ok?
    ensures var (es, rest) := ParseEntries(s).value;
            IsBytes(rest) && AllFrameable(es) && s == EntriesBytes(es) + SENTINEL() + rest
    decreases |s|
  {
    PrintedEntry(s);
    var (got, rest) := ParseEntry(s).value;
    match got
    case Sentinel =>
    case Read(e) =>
      PrintedEntries(rest);
      var (es, tail) := ParseEntries(rest).value;
      assert ([e] + es)[1..] == es;
      EntryThenRest(EntryBytes(e), EntriesBytes(es), SENTINEL(), tail);
  }

  lemma EntryThenRest(a: Text, b: Text, c: Text, x: Text)
    ensures a + (b + c + x) == a + b + c + x
  {
  }

  /** The reader accepts nothing but a backup with any bytes behind it. */
  lemma PrintedStream(s: Text, h: Header, opts: RestoreOptions)
    requires IsBytes(s) && Parse(s, opts).Ok? && s[..HEADER_SIZE] == HeaderBytes(h)
    ensures var p := Parse(s, opts).value; AllFrameable(p.entries) && s == Stream(h, p.entries) + p.rest
  {
    var h', es, tail := PartsOf(s, opts);
    var body := s[..|s| - |tail|];
    PrintedEntries(s[HEADER_SIZE..]);
    FooterPrinted(body, tail);
    Resplit(s, HeaderBytes(h), EntriesBytes(es), SENTINEL(), tail);
    assert body == Body(h, es);
    FooterBack(body, tail[..4], tail[4..]);
  }

  lemma Resplit(s: Text, a: Text, b: Text, c: Text, tail: Text)
    requires |a| <= |s| && s[..|a|] == a && s[|a|..] == b + c + tail
    ensures s == a + b + c + tail && s[..|s| - |tail|] == a + b + c
  {
    assert s == s[..|a|] + s[|a|..];
    assert a + (b + c + tail) == (a + b + c) + tail;
  }

  lemma FooterPrinted(body: Text, tail: Text)
    requires IsBytes(tail) && CheckFooter(body, tail).Ok?
    ensures |tail| >= 4 && tail[..4] == BE(Checksum(body), U32) && CheckFooter(body, tail).value == tail[4..]
  {
    BEInverts(tail[..4]);
  }

  lemma FooterBack(body: Text, f: Text, x: Text)
    ensures body + (f + x) == body + f + x
  {
  }

  /** A damaged stream is restored if and only if it begins with the complete backup of other
      entries under the same header; by `ByteChangeRefused` only a changed length can do that. */
  lemma ByteChangePassesExactlyWhen(h: Header, es: seq<Entry>, i: nat, b: nat, target: RawTables, opts: RestoreOptions)
    requires GoodHeader(h) && AllFrameable(es) && !SchemaClash(h, opts)
    requires i < |Stream(h, es)| && b < 256 && b != Stream(h, es)[i]
    requires opts.allowOverwrite || target.entries == map[]
    ensures Restored(target, Stream(h, es)[i := b], opts).Ok? <==> BeginsWithBackup(Stream(h, es)[i := b], h)
    ensures BeginsWithBackup(Stream(h, es)[i := b], h) ==> InLengthField(h, es, i)
  {
    var s := Stream(h, es)[i := b];
    if BeginsWithBackup(s, h) { BackupIsRestored(s, h, target, opts); }
    if !InLengthField(h, es, i) {
      ByteChangeRefused(h, es, i, b, target, opts);
    } else if Parse(s, opts).Ok? {
      HeaderFields(h);
      BodyIsBytes(h, es);
      HeaderUntouched(h, es, i, b);
      PrintedStream(s, h, opts);
    }
  }

  ghost predicate BeginsWithBackup(s: Text, h: Header) {
    exists es: seq<Entry>, x: Text :: AllFrameable(es) && s == Stream(h, es) + x
  }

  lemma BackupIsRestored(s: Text, h: Header, target: RawTables, opts: RestoreOptions)
    requires GoodHeader(h) && !SchemaClash(h, opts) && BeginsWithBackup(s, h)
    requires opts.allowOverwrite || target.entries == map[]
    ensures Restored(target, s, opts).Ok?
  {
    var es: seq<Entry>, x: Text :| AllFrameable(es) && s == Stream(h, es) + x;
    ParseStream(h, es, x, opts);
  }

  lemma HeaderUntouched(h: Header, es: seq<Entry>, i: nat, b: nat)
    requires |HeaderBytes(h)| == HEADER_SIZE <= i < |Stream(h, es)| && b < 256 && IsBytes(Body(h, es))
    ensures Stream(h, es)[i := b][..HEADER_SIZE] == HeaderBytes(h) && IsBytes(Stream(h, es)[i := b])
  {
  }
}
