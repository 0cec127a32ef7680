/** What a changed length byte of a backup does: where the frames fall from there on, and exactly
    when the restore does not notice. */
module BackupLengths {
  import opened Lex
  import opened Json
  import opened Storage
  import opened Crc
  import opened Bytes
  import opened Backup
  import opened BackupProofs

  // ---- reading on from some entries -----------------------------------------------------------

  /** `rest`, behind the entries `done`, is made of entries, a sentinel and the footer of it all. */
  predicate Closes(h: Header, done: seq<Entry>, rest: Text) {
    match ParseEntries(rest)
    case Err(_) => false
    case Ok((more, tail)) => |tail| >= 4 && FromBE(tail[..4]) == Checksum(Body(h, done + more))
  }

  /** A value of length `m` is cut off `t`, and the rest closes. */
  predicate ValueReadsOn(h: Header, done: seq<Entry>, key: Text, m: nat, t: Text) {
    m <= |t| && Closes(h, done + [(key, t[..m])], t[m..])
  }

  /** A key of length `n` is cut off `u`, and the next four bytes are the length of its value;
      length zero is the sentinel, and the next four bytes are the footer. */
  predicate KeyReadsOn(h: Header, done: seq<Entry>, n: nat, u: Text) {
    if n == 0 then |u| >= 4 && FromBE(u[..4]) == Checksum(Body(h, done))
    else |u| >= n + 4 && ValueReadsOn(h, done, u[..n], FromBE(u[n..n + 4]), u[n + 4..])
  }

  lemma {:induction false} EntriesConcat(p: seq<Entry>, q: seq<Entry>)
    ensures EntriesBytes(p + q) == EntriesBytes(p) + EntriesBytes(q)
  {
    if p == [] {
      assert p + q == q;
    } else {
      assert (p + q)[1..] == p[1..] + q;
      EntriesConcat(p[1..], q);
    }
  }

  lemma BodyBefore(a: Text, d: Text, m: Text, z: Text, tail: Text)
    ensures var s := a + (d + (m + z + tail)); s[..|s| - |tail|] == a + (d + m) + z
  {
    assert a + (d + (m + z + tail)) == (a + (d + m) + z) + tail;
  }

  lemma ConsumedIs(h: Header, done: seq<Entry>, rest: Text)
    requires IsBytes(rest) && ParseEntries(rest).Ok?
    ensures var (more, tail) := ParseEntries(rest).value;
            var s := HeaderBytes(h) + (EntriesBytes(done) + rest);
            |tail| <= |s| && s[..|s| - |tail|] == Body(h, done + more)
  {
    var (more, tail) := ParseEntries(rest).value;
    PrintedEntries(rest);
    EntriesConcat(done, more);
    BodyBefore(HeaderBytes(h), EntriesBytes(done), EntriesBytes(more), SENTINEL(), tail);
  }

  /** Behind a good header the entries and the footer decide. */
  lemma HeaderThen(h: Header, x: Text, opts: RestoreOptions)
    requires GoodHeader(h) && !SchemaClash(h, opts)
    ensures |HeaderBytes(h) + x| >= HEADER_SIZE && (HeaderBytes(h) + x)[HEADER_SIZE..] == x
    ensures Parse(HeaderBytes(h) + x, opts) == ParseRest(HeaderBytes(h) + x)
  {
    HeaderFields(h);
    HeaderRoundTrip(h, x);
  }

  /** Behind the entries the footer decides. */
  lemma RestEnds(s: Text, es: seq<Entry>, tail: Text, body: Text)
    requires |s| >= HEADER_SIZE && ParseEntries(s[HEADER_SIZE..]) == Ok((es, tail))
    requires |tail| <= |s| && s[..|s| - |tail|] == body
    ensures ParseRest(s).Ok? <==> |tail| >= 4 && FromBE(tail[..4]) == Checksum(body)
    ensures ParseRest(s).Ok? ==> ParseRest(s).value.entries == es
  {
  }

  /** Behind printed entries the reader accepts exactly what closes them, and keeps them. */
  lemma ParseAfter(h: Header, done: seq<Entry>, rest: Text, opts: RestoreOptions)
    requires GoodHeader(h) && AllFrameable(done) && !SchemaClash(h, opts) && IsBytes(rest)
    ensures var p := Parse(HeaderBytes(h) + (EntriesBytes(done) + rest), opts);
            (p.Ok? <==> Closes(h, done, rest)) && (p.Ok? ==> done <= p.value.entries)
  {
    HeaderThen(h, EntriesBytes(done) + rest, opts);
    RestAfter(h, done, rest);
  }

  lemma RestAfter(h: Header, done: seq<Entry>, rest: Text)
    requires AllFrameable(done) && IsBytes(rest)
    requires var s := HeaderBytes(h) + (EntriesBytes(done) + rest);
             |s| >= HEADER_SIZE && s[HEADER_SIZE..] == EntriesBytes(done) + rest
    ensures var p := ParseRest(HeaderBytes(h) + (EntriesBytes(done) + rest));
            (p.Ok? <==> Closes(h, done, rest)) && (p.Ok? ==> done <= p.value.entries)
  {
    EntriesThen(done, rest);
    if ParseEntries(rest).Ok? {
      var (more, tail) := ParseEntries(rest).value;
      ConsumedIs(h, done, rest);
      RestEnds(HeaderBytes(h) + (EntriesBytes(done) + rest), done + more, tail, Body(h, done + more));
    }
  }

  lemma NextFrame(n: nat, u: Text)
    requires n < Pow256(U32)
    ensures var s := BE(n, U32) + u;
            if n == 0 then ParseEntry(s) == Ok((Sentinel, u))
            else if |u| < n + 4 || |u| < n + 4 + FromBE(u[n..n + 4]) then ParseEntry(s) == Err(Corruption)
            else var m, t := FromBE(u[n..n + 4]), u[n + 4..]; ParseEntry(s) == Ok((Read((u[..n], t[..m])), t[m..]))
  {
    var s := BE(n, U32) + u;
    FromBEInverts(n, U32);
    assert s[..4] == BE(n, U32) && s[4..] == u;
    NextIsParsed(s);
    if n > 0 && |u| >= n + 4 { assert u[n..][..4] == u[n..n + 4] && u[n..][4..] == u[n + 4..]; }
  }

  lemma ClosesStep(h: Header, done: seq<Entry>, n: nat, u: Text)
    requires n < Pow256(U32)
    ensures Closes(h, done, BE(n, U32) + u) <==> KeyReadsOn(h, done, n, u)
  {
    NextFrame(n, u);
    if n == 0 {
      assert done + [] == done;
    } else if |u| >= n + 4 && |u| >= n + 4 + FromBE(u[n..n + 4]) {
      var m, t := FromBE(u[n..n + 4]), u[n + 4..];
      if ParseEntries(t[m..]).Ok? {
        var more := ParseEntries(t[m..]).value.0;
        assert done + ([(u[..n], t[..m])] + more) == done + [(u[..n], t[..m])] + more;
      }
    }
  }

  // ---- the stream around one entry ---------------------------------------------------------------

  /** What follows entry `k`. */
  function Behind(h: Header, es: seq<Entry>, k: nat): Text
    requires k < |es|
  {
    EntriesBytes(es[k + 1..]) + (SENTINEL() + BE(Checksum(Body(h, es)), U32))
  }

  /** What follows the length of its value, and what follows the length of its key. */
  function ValueTail(h: Header, es: seq<Entry>, k: nat): Text
    requires k < |es|
  {
    es[k].1 + Behind(h, es, k)
  }

  function KeyTail(h: Header, es: seq<Entry>, k: nat): Text
    requires k < |es|
  {
    es[k].0 + (BE(|es[k].1|, U32) + ValueTail(h, es, k))
  }

  function KeyLengthAt(h: Header, es: seq<Entry>, k: nat): nat
    requires k < |es|
  {
    |HeaderBytes(h)| + |EntriesBytes(es[..k])|
  }

  function ValueLengthAt(h: Header, es: seq<Entry>, k: nat): nat
    requires k < |es|
  {
    KeyLengthAt(h, es, k) + 4 + |es[k].0|
  }

  lemma SixParts(a: Text, d: Text, n: Text, key: Text, m: Text, v: Text, x: Text, z: Text, f: Text)
    ensures a + (d + (n + key + m + v + x)) + z + f == a + (d + (n + (key + (m + (v + (x + (z + f)))))))
  {
  }

  lemma StreamAround(h: Header, es: seq<Entry>, k: nat)
    requires k < |es|
    ensures Stream(h, es) == HeaderBytes(h) + (EntriesBytes(es[..k]) + (BE(|es[k].0|, U32) + KeyTail(h, es, k)))
  {
    var n, m := BE(|es[k].0|, U32), BE(|es[k].1|, U32);
    var f := BE(Checksum(Body(h, es)), U32);
    assert es == es[..k] + es[k..] && es[k..][0] == es[k] && es[k..][1..] == es[k + 1..];
    EntriesConcat(es[..k], es[k..]);
    SixParts(HeaderBytes(h), EntriesBytes(es[..k]), n, es[k].0, m, es[k].1, EntriesBytes(es[k + 1..]), SENTINEL(), f);
  }

  lemma TailsAreBytes(h: Header, es: seq<Entry>, k: nat)
    requires AllFrameable(es) && k < |es|
    ensures IsBytes(ValueTail(h, es, k)) && IsBytes(KeyTail(h, es, k)) && AllFrameable(es[..k])
  {
    EntriesAreBytes(es[k + 1..]);
    BothBytes(SENTINEL(), BE(Checksum(Body(h, es)), U32));
    BothBytes(EntriesBytes(es[k + 1..]), SENTINEL() + BE(Checksum(Body(h, es)), U32));
    BothBytes(es[k].1, Behind(h, es, k));
    BothBytes(BE(|es[k].1|, U32), ValueTail(h, es, k));
    BothBytes(es[k].0, BE(|es[k].1|, U32) + ValueTail(h, es, k));
  }

  // ---- the two theorems ----------------------------------------------------------------------------

  /** The length a four-byte field shows once its byte `j` is `b`. */
  function NewLength(n: nat, j: nat, b: nat): nat
    requires j < 4
  {
    FromBE(BE(n, U32)[j := b])
  }

  lemma NewLengthPrinted(n: nat, j: nat, b: nat)
    requires j < 4 && b < 256
    ensures NewLength(n, j, b) < Pow256(U32) && BE(NewLength(n, j, b), U32) == BE(n, U32)[j := b]
  {
    BEInverts(BE(n, U32)[j := b]);
  }

  lemma SetInThird(a: Text, d: Text, n: Text, u: Text, j: nat, b: nat)
    requires j < |n|
    ensures |a| + |d| + j < |a + (d + (n + u))|
    ensures (a + (d + (n + u)))[|a| + |d| + j := b] == a + (d + (n[j := b] + u))
  {
  }

  lemma SetInTail(a: Text, d: Text, u: Text, j: nat, b: nat)
    requires j < |u|
    ensures |a| + |d| + j < |a + (d + u)| && (a + (d + u))[|a| + |d| + j := b] == a + (d + u[j := b])
  {
  }

  lemma SetInThirdPart(n: Text, key: Text, m: Text, t: Text, j: nat, b: nat)
    requires j < |m|
    ensures |n| + |key| + j < |n + (key + (m + t))|
    ensures (n + (key + (m + t)))[|n| + |key| + j := b] == n + (key + (m[j := b] + t))
  {
  }

  /** The stream with a byte of the length of key `k` changed. */
  lemma KeyLengthChanged(h: Header, es: seq<Entry>, k: nat, j: nat, b: nat)
    requires k < |es| && j < 4 && b < 256
    ensures KeyLengthAt(h, es, k) + j < |Stream(h, es)|
    ensures Stream(h, es)[KeyLengthAt(h, es, k) + j := b]
         == HeaderBytes(h) + (EntriesBytes(es[..k]) + (BE(NewLength(|es[k].0|, j, b), U32) + KeyTail(h, es, k)))
  {
    StreamAround(h, es, k);
    NewLengthPrinted(|es[k].0|, j, b);
    SetInThird(HeaderBytes(h), EntriesBytes(es[..k]), BE(|es[k].0|, U32), KeyTail(h, es, k), j, b);
  }

  /** The same of the length of value `k`. */
  lemma ValueLengthChanged(h: Header, es: seq<Entry>, k: nat, j: nat, b: nat)
    requires k < |es| && j < 4 && b < 256
    ensures ValueLengthAt(h, es, k) + j < |Stream(h, es)|
    ensures Stream(h, es)[ValueLengthAt(h, es, k) + j := b]
         == HeaderBytes(h) + (EntriesBytes(es[..k]) + (BE(|es[k].0|, U32)
              + (es[k].0 + (BE(NewLength(|es[k].1|, j, b), U32) + ValueTail(h, es, k)))))
  {
    var n, key := BE(|es[k].0|, U32), es[k].0;
    StreamAround(h, es, k);
    NewLengthPrinted(|es[k].1|, j, b);
    SetInThirdPart(n, key, BE(|es[k].1|, U32), ValueTail(h, es, k), j, b);
    SetInTail(HeaderBytes(h), EntriesBytes(es[..k]), n + KeyTail(h, es, k), |n| + |key| + j, b);
  }

  /** A key length `n` and any bytes `u`, behind printed entries. */
  lemma AfterLength(h: Header, done: seq<Entry>, n: nat, u: Text, target: RawTables, opts: RestoreOptions)
    requires GoodHeader(h) && AllFrameable(done) && !SchemaClash(h, opts) && n < Pow256(U32) && IsBytes(u)
    requires opts.allowOverwrite || target.entries == map[]
    ensures var s := HeaderBytes(h) + (EntriesBytes(done) + (BE(n, U32) + u));
            && (Restored(target, s, opts).Ok? <==> KeyReadsOn(h, done, n, u))
            && (Parse(s, opts).Ok? ==> done <= Parse(s, opts).value.entries)
  {
    BothBytes(BE(n, U32), u);
    ParseAfter(h, done, BE(n, U32) + u, opts);
    ClosesStep(h, done, n, u);
  }

  /** Byte `j` of the length of key `k` becomes `b`: the restore succeeds if and only if the bytes
      behind the length, cut at the new length, read on to a matching footer. The entries before
      are restored as they were. */
  lemma KeyLengthChangeExactlyWhen(h: Header, es: seq<Entry>, k: nat, j: nat, b: nat, target: RawTables, opts: RestoreOptions)
    requires GoodHeader(h) && AllFrameable(es) && !SchemaClash(h, opts) && k < |es| && j < 4 && b < 256
    requires opts.allowOverwrite || target.entries == map[]
    ensures KeyLengthAt(h, es, k) + j < |Stream(h, es)|
    ensures var s := Stream(h, es)[KeyLengthAt(h, es, k) + j := b];
            && (Restored(target, s, opts).Ok? <==> KeyReadsOn(h, es[..k], NewLength(|es[k].0|, j, b), KeyTail(h, es, k)))
            && (Parse(s, opts).Ok? ==> es[..k] <= Parse(s, opts).value.entries)
  {
    KeyLengthChanged(h, es, k, j, b);
    TailsAreBytes(h, es, k);
    NewLengthPrinted(|es[k].0|, j, b);
    AfterLength(h, es[..k], NewLength(|es[k].0|, j, b), KeyTail(h, es, k), target, opts);
  }

  lemma KeyThenLength(h: Header, done: seq<Entry>, key: Text, m: nat, t: Text)
    requires key != [] && m < Pow256(U32)
    ensures KeyReadsOn(h, done, |key|, key + (BE(m, U32) + t)) <==> ValueReadsOn(h, done, key, m, t)
  {
    FromBEInverts(m, U32);
    ThreeSlices(key, BE(m, U32), t);
  }

  lemma ThreeSlices(a: Text, b: Text, c: Text)
    ensures var s := a + (b + c); s[..|a|] == a && s[|a|..|a| + |b|] == b && s[|a| + |b|..] == c
  {
    assert a + (b + c) == (a + b) + c;
  }

  /** The same of a byte of the length of value `k`. */
  lemma ValueLengthChangeExactlyWhen(h: Header, es: seq<Entry>, k: nat, j: nat, b: nat, target: RawTables, opts: RestoreOptions)
    requires GoodHeader(h) && AllFrameable(es) && !SchemaClash(h, opts) && k < |es| && j < 4 && b < 256
    requires opts.allowOverwrite || target.entries == map[]
    ensures ValueLengthAt(h, es, k) + j < |Stream(h, es)|
    ensures var s := Stream(h, es)[ValueLengthAt(h, es, k) + j := b];
            && (Restored(target, s, opts).Ok?
                <==> ValueReadsOn(h, es[..k], es[k].0, NewLength(|es[k].1|, j, b), ValueTail(h, es, k)))
            && (Parse(s, opts).Ok? ==> es[..k] <= Parse(s, opts).value.entries)
  {
    var m, t := NewLength(|es[k].1|, j, b), ValueTail(h, es, k);
    ValueLengthChanged(h, es, k, j, b);
    TailsAreBytes(h, es, k);
    NewLengthPrinted(|es[k].1|, j, b);
    BothBytes(BE(m, U32), t);
    BothBytes(es[k].0, BE(m, U32) + t);
    AfterLength(h, es[..k], |es[k].0|, es[k].0 + (BE(m, U32) + t), target, opts);
    KeyThenLength(h, es[..k], es[k].0, m, t);
  }

  // ---- every length byte is one of these -------------------------------------------------------------

  lemma {:induction false} LengthByteIs(es: seq<Entry>, i: nat) returns (k: nat, j: nat)
    requires LengthByte(es, i)
    ensures k < |es| && j < 4
    ensures i == |EntriesBytes(es[..k])| + j || i == |EntriesBytes(es[..k])| + 4 + |es[k].0| + j
    decreases |es|
  {
    var n := |es[0].0|;
    assert es[..0] == [];
    if i < 4 {
      k, j := 0, i;
    } else if n + 4 <= i < n + 8 {
      k, j := 0, i - (n + 4);
    } else {
      var k', j' := LengthByteIs(es[1..], i - |EntryBytes(es[0])|);
      k, j := k' + 1, j';
      assert es[..k][0] == es[0] && es[..k][1..] == es[1..][..k'];
    }
  }

  lemma EveryLengthByte(h: Header, es: seq<Entry>, i: nat) returns (k: nat, j: nat)
    requires InLengthField(h, es, i)
    ensures k < |es| && j < 4 && (i == KeyLengthAt(h, es, k) + j || i == ValueLengthAt(h, es, k) + j)
  {
    k, j := LengthByteIs(es, i - |HeaderBytes(h)|);
  }
}
