# NookDB: a verified model

NookDB is an embedded document database: a Rust core over two ordered byte tables, a Node.js
binding that buffers transactions, a TypeScript client, and an Electron bridge. This project
models the parts where a mistake would be hard to see, and proves what they keep.

Run `dafny verify dfyconfig.toml` to check everything.

## How it is organised

| files | what they model |
|---|---|
| `Lex`, `Json`, `Schema` | byte strings and their order, JSON values, compiled schemas and document validation |
| `Codec`, `IndexEngine`, `Storage`, `Database` | key layouts, scans, write transactions, commit and notification |
| `Query` | the sort comparator, offset and limit |
| `Collection`, `Invariants`, `FastPath`, `ExactIndex`, `History` | insert, delete and find over entries and index; what every write keeps; whole runs |
| `FilterMeaning`, `QueryMeaning`, `WriteMeaning` | what filters, sort orders, pages and writes mean in terms of the stored values |
| `Transactions`, `Update`, `UpdateAtomic`, `UpdateRuns`, `UpdateHits` | buffered transactions and their replay; update as an atomic replacement, in whole runs, and under id fields of other names |
| `Live`, `LiveMachine`, `LiveProperties`, `LiveProgress`, `LiveFresh`, `LiveEndings` | the live-query engine split at its lock boundaries, over all interleavings |
| `Crc`, `Bytes`, `Backup`, `BackupProofs`, `BackupLengths` | the backup stream, its checksum and the restore; damage to it |
| `SchemaHash` | the byte stream behind the schema hash |
| `Canonical`, `Rpc`, `Host`, `Bridge`, `Authorization` | the multi-process bridge: handshake text, renderer dispatcher, host port, both together; what the authorizer's verdicts decide |
| `LiveQuery`, `LiveCalls`, `LiveAccounts` | the client's reactive handle and its async iterators; which calls settle; who is told what |
| `Witnesses` | concrete runs in which the properties that fail do fail |

Objects that the source updates in place are classes (`WriteTx`, `Db`, `Notifier`, `TxRegistry`,
`SchemaHandle`, `LiveShared`, `CrcWriter`, `CrcReader`, `Hasher`, `RpcDispatcher`, `Port`,
`LiveQuery`); each of their methods is tied to a function of the old state, and the lemmas are
about those functions. Concurrent protocols are state machines over the same functions, one step
per critical section or per message.

A `Text` is a sequence of code units: bytes in the core, 16-bit units in TypeScript. Tables map
keys to decoded documents (to raw bytes in the backup). Clocks, session ids, authorizer verdicts,
JSON parsing of descriptors and the foreign field checks are parameters.

A state is *consistent* if its rows are valid and stored under their ids, the index keys of every
row are present and unique values are unique; *clean* if ids and indexed strings hold no NUL; its
index is *exact* if it holds no *stale* key, one that no row has. A transaction is *fresh* if it adds
no stale key.

## Main results

* **Queries.** In every state of every clean run a query returns a window of exactly the matching
  documents in the order asked for (`QueryAlways`); matching is said operator by operator
  (`FilterMeaning`) and the order key by key (`CompareMeans`), both in terms of the stored values.
* **Updates.** A successful update is an atomic map-replace on every consistent state, stale index
  keys or not; it succeeds under an exact condition, and it keeps invariant and exactness over runs
  (`UpdateIsMapReplace`, `UpdateMeans`, `UpdateSucceedsExactlyWhen`, `UpdateInEveryRun`, `UpdateIsFresh`). Under id
  fields of other names it is one only under an exact condition (`UpdateReplacesExactlyWhen`).
* **Tables over runs.** Every committed state is consistent, uniqueness holds, and every query path
  refines the filtered scan (`History`, `FastPath`); the index is exact in runs of fresh
  transactions (`ExactAlways`).
* **Live engine.** Over all interleavings: no lost wake-up, freshness at rest outside the
  registration gap, bounded work and rest, silence after a shutdown (`LiveMachine`,
  `LiveProperties`, `LiveProgress`, `LiveFresh`, `LiveEndings`).
* **Live handle.** Over all orders of events: which snapshots and errors iterators and subscribers
  are given, when the core is cancelled, and exactly which calls settle (`LiveAccounts`,
  `LiveQueries`, `LiveCalls`).
* **Bridge.** Over all interleavings and losses: correlation of answers, closing, that only what the
  authorizer allowed is served, and which descriptors pass the handshake (`Bridge`,
  `Authorization`, `Canonical`).
* **Backup and schema hash.** Round trip, truncation, single-byte damage, and injectivity of the
  hashed bytes (`BackupProofs`, `BackupLengths`, `SchemaHash`).

## What the proofs found

* Insert over an existing id leaves the old document's index keys behind. Uniqueness and query
  results survive that; exactness of the index does not, and the old unique value stays taken.
  `ExactIndex.InsertKeepsExactWhen` and `ExactIndex.InsertSucceedsExactlyWhen` give the exact
  conditions, `Witnesses.OverwriteLeavesStaleKey` two inserts that get there.
* `applyUpdateLoop` looks up and deletes by a field literally named `id`. Under an id field of another
  name a successful update can remove rows, matched or not. `UpdateHits.UpdateReplacesExactlyWhen`
  and its two corollaries say exactly when it does not; `Witnesses.UpdateLosesAMatch` and
  `Witnesses.UpdateLosesAnUnmatchedRow` are runs in which it does.
* A live registration reads before it inserts. A commit dispatched in between is never delivered:
  `LiveProperties.OutdatedExactlyByGap` and `Witnesses.GapShowsOldSnapshot`.
* The canonical descriptor text prints a number literal beyond the doubles as `null`, so two
  different descriptors can pass for each other: `Canonical.CanonicalDecides` states when,
  `Canonical.OnlyEqualsPassExactlyWhen` which schemas are safe, `Canonical.InfinityPassesForNull`
  gives a pair.
* A call on an async iterator can wait for ever: on an iterator taken from a query that is over, on
  one whose own `return` ended the query, and when a second call takes a waiting one's place.
  `LiveCalls.CallSettlesExactlyWhen` and `LiveCalls.SettlesAfterEndExactlyWhen` are exact;
  `LiveCalls.LateCallHangs`, `ReturnedCallHangs` and `SecondCallHangsFirst` are runs from the start.
* The backup's checksum covers the length fields, but a changed length moves the footer that is
  read: `BackupLengths.KeyLengthChangeExactlyWhen` and `ValueLengthChangeExactlyWhen` say from the
  original entries and the new byte exactly when that goes unnoticed, `BackupProofs.LengthChangePasses`
  is such a change.

Where the comments of the source promise more than this, the model follows the code.

## Model

Main results first, then the other laws, then functions and methods, in the order of the files.

| member | source | states |
|---|---|---|
| QueryMeaning.QueryAlways | crates/nookdb-core/src/collection.rs:187-200 | In every state of every clean run a query on a declared collection is refused exactly for a bad sort key, and otherwise returns the window from offset on, cut to limit, of all stored documents that match, each once, in the order the keys ask for, or in id order without keys. |
| FilterMeaning.FindReturnsExactlyMatches | crates/nookdb-core/src/collection.rs:66-183 | On a consistent, clean state a find on a declared collection returns a document if and only if it is stored there and matches. |
| FilterMeaning.ComparisonsMean | crates/nookdb-core/src/collection.rs:84-107 | On numbers up to 2^53 `$gt`, `$gte`, `$lt` and `$lte` match if and only if the stored number is greater, greater or equal, less, less or equal. |
| QueryMeaning.CompareMeans | crates/nookdb-core/src/query.rs:96-118 | The comparator puts one document before another if and only if the first key that tells them apart does, or the id if none does: booleans before numbers before strings before the rest, false before true, the smaller number, the earlier string; descending turns values round; missing and null always last. |
| UpdateAtomic.UpdateIsMapReplace | packages/nookdb/src/collection.ts:228-247 | On every consistent, clean state, stale index entries or not, a successful update leaves exactly the old entries with each match replaced by its merge. |
| UpdateAtomic.UpdateMeans | packages/nookdb/src/collection.ts:228-247 | Row by row: an update keeps the ids of every collection and every row that does not match; a matching row has the patch's value in every patched field and its own in all others; the count is the number of matches. |
| UpdateAtomic.UpdateKeepsStaleKeys | packages/nookdb/src/collection.ts:228-247 | Its stale index keys are those there were before, so the index is exact afterwards if it was. |
| UpdateAtomic.UpdateSucceedsExactlyWhen | packages/nookdb/src/collection.ts:228-247 | It succeeds if and only if a patch that names `id` gives every match its own id, every merged document is valid, the resulting collection has no duplicate unique value, and no stale key occupies a unique value of a merged document. |
| UpdateRuns.UpdateInEveryRun | packages/nookdb/src/collection.ts:228-247 | Every state of every clean run meets the hypotheses above, so an update there is a map-replace. |
| UpdateRuns.UpdateIsFresh | packages/nookdb/src/collection.ts:228-247 | A guarded update replays as a fresh transaction, so runs that mix updates with the other fresh ones keep the index exact. |
| UpdateHits.UpdateReplacesExactlyWhen | packages/nookdb/src/collection.ts:233-246 | Under an id field of any name, a successful update is a map-replace if and only if the patch re-keys no match and every row that the delete of a match hits is that match or a later one. |
| UpdateHits.UpdateWithoutIdReplacesExactlyWhen | packages/nookdb/src/collection.ts:235-243 | Where documents have no field `id`, that is so if and only if nothing matches or the match is the only row (and is not re-keyed). |
| UpdateHits.UpdateWithIdReplacesExactlyWhen | packages/nookdb/src/collection.ts:235-243 | Where all matches have a value of an ordinary field `id`, if and only if no other row shares the value with a match (and none is re-keyed). |
| Witnesses.UpdateLosesAMatch | packages/nookdb/src/collection.ts:235-243 | Two inserts and a successful update that changes nothing, after which one of the two rows is gone. |
| Witnesses.UpdateLosesAnUnmatchedRow | packages/nookdb/src/collection.ts:235-243 | With an ordinary field `id`: a successful update of one row that removes another, which it did not match. |
| History.InvAlways | crates/nookdb-core/src/collection.rs:293-405 | Every committed state of every run of transactions, with inserts over existing ids and deletes resolved on older snapshots, is consistent. |
| History.UniquenessAlways | crates/nookdb-core/src/collection.rs:378-405 | In every committed state of every run no two documents of a collection share a value of a unique field. |
| History.FindIsScanAlways | crates/nookdb-core/src/collection.rs:125-160 | In every state of every run whose inserts put no NUL into an indexed string, a find through any path equals the filtered scan. |
| FastPath.FastPathRefinesScan | crates/nookdb-core/src/collection.rs:125-160 | With NUL-free values every path, by id, by index or by scan, returns exactly the filtered scan in storage order, stale index entries included. |
| FastPath.IndexPathExactlyWhen | crates/nookdb-core/src/collection.rs:140-157 | The index path returns the matching documents in id order if and only if no other key in the range leads to a matching document. |
| ExactIndex.InsertKeepsExactWhen | crates/nookdb-core/src/collection.rs:399-403 | An insert keeps the index exact if and only if it does not overwrite a row some of whose index keys the new document lacks. |
| ExactIndex.InsertSucceedsExactlyWhen | crates/nookdb-core/src/collection.rs:378-405 | On every consistent, clean state an insert is accepted if and only if the document is valid, its id is free of NUL, no stored document has one of its unique values, and no stale key occupies one. |
| ExactIndex.ExactAlways | crates/nookdb-core/src/collection.rs:267-405 | The index is exact in every state of every run of fresh transactions, of any number of operations: inserts under unused ids, deletes whose victims are as they were read. |
| WriteMeaning.DeleteMeans | crates/nookdb-core/src/collection.rs:267-307 | On a consistent, clean state a delete on a declared collection always succeeds, removes exactly the rows that match, leaves every other row of every collection, announces each removal once in id order, and counts the matches. |
| Witnesses.OverwriteLeavesStaleKey | crates/nookdb-core/src/collection.rs:378-405 | Two inserts from the empty database that leave a stale key, and a valid document it refuses although no stored one has its unique value. |
| Transactions.ReplayIsTransaction | crates/nookdb-napi/src/database.rs:608-640 | A committed replay is one transaction of a run, its deletes resolved on the committed state, so uniqueness and the other run properties cover it. |
| LiveMachine.NoLostWakeupKept | crates/nookdb-core/src/live.rs:63-97 | No lost wake-up: through every step, a dirty subscription implies a raised flag, a committer that has marked but not yet woken, a worker before its snapshot, or a worker that has exited after a shutdown. |
| LiveProperties.InvAlways | crates/nookdb-core/src/live.rs:225-285 | The engine's invariant holds in every reachable state of every interleaving. |
| LiveFresh.QuiescentFreshness | crates/nookdb-core/src/live.rs:145-285 | At rest the last snapshot of every open subscription is its query, with its own filter, sort, offset and limit, on the latest committed state; one that never emitted is covered unless a commit on its collection fell into its registration gap. |
| LiveFresh.QuiescentShowsAnswer | crates/nookdb-core/src/live.rs:191-213 | So in a clean run it shows a window of all documents of the latest state that match, each once, in the order the subscription asked for, unless it shows the query's error. |
| LiveProperties.OutdatedExactlyByGap | crates/nookdb-core/src/live.rs:145-167 | At rest, a subscription that never emitted misses a commit if and only if one fell between its initial read and its insertion. |
| Witnesses.GapShowsOldSnapshot | crates/nookdb-core/src/live.rs:152-165 | A registration, one insert and the two results that differ: what the subscriber was given and what the query gives at rest. |
| LiveProperties.EmissionsAccounted | crates/nookdb-core/src/live.rs:80-97 | Emissions plus queued and dirty work never exceed the dispatches that marked the subscription; successive emissions read non-decreasing versions; at most one follows a completed cancel. |
| LiveProgress.WorkIsBounded | crates/nookdb-core/src/live.rs:225-285 | In every run without shutdown the steps of the engine's threads are bounded by the work there was at the start and a fixed cost for each commit, that cost fixed by how many subscriptions there were and how many are added. |
| LiveProgress.ComesToRest | crates/nookdb-core/src/live.rs:225-285 | From every reachable state the engine's own threads bring it to rest, in no more steps than the measure of that state. |
| LiveEndings.ShutdownStops | crates/nookdb-core/src/live.rs:179-243 | In every run a worker that checks after a shutdown exits for good, and nobody is sent anything from then on. |
| LiveEndings.ClosedIsForgotten | crates/nookdb-core/src/live.rs:265-283 | In every run a dirty subscription whose sink was closed before a pass began is gone when the pass ends. |
| LiveCalls.CallSettlesExactlyWhen | packages/nookdb/src/live.ts:124-167 | In every order of events a call of `next` settles if and only if there is something to tell it at once, or a snapshot, an error or the end reaches the iterator before another call takes its place. |
| LiveCalls.SettlesAfterEndExactlyWhen | packages/nookdb/src/live.ts:149-183 | After the end, a call with an empty queue settles if and only if the iterator was still registered when the query ended, an error had reached it, or one does before another call takes its place. |
| LiveCalls.EndSettlesAll | packages/nookdb/src/live.ts:137-183 | The end settles a waiting call if and only if it does not come from the `return` of the call's own iterator. |
| LiveCalls.LateCallHangs | packages/nookdb/src/live.ts:145-167 | A run from the start whose last call, on an iterator taken after the end, never settles however the run goes on. |
| LiveCalls.ReturnedCallHangs | packages/nookdb/src/live.ts:168-183 | The same of a call that was waiting when `return` was called. |
| LiveCalls.SecondCallHangsFirst | packages/nookdb/src/live.ts:149-167 | The same of a call displaced by a second one, on a query that is still open. |
| LiveAccounts.SubscriberSees | packages/nookdb/src/live.ts:107-115 | In every order of events a current subscriber has been called with the latest snapshot of the moment it subscribed, if there was one, and every one the events brought since. |
| LiveAccounts.IteratorSees | packages/nookdb/src/live.ts:117-174 | The same of what an iterator delivered followed by its queue; one taken after the end gets the last snapshot. |
| LiveAccounts.ErrorAccount | packages/nookdb/src/live.ts:204-210 | In every order of events the error that ends the query reaches exactly those subscribed then, each once; a dispose or a `return` tells nobody an error, and nobody is called after the end. |
| LiveQueries.CancelledOnce | packages/nookdb/src/live.ts:81-92 | In every order of events the core subscription is cancelled at most once, never before registration, and, under a non-empty id, exactly when the registration has succeeded and the query has ended. |
| Bridge.Correlation | packages/electron/src/shared/rpc.ts:91-131 | In every interleaving, completion order and loss, a promise settles at most once, and one that resolves carries the host's outcome for that same request. |
| Bridge.ClosedIsFinal | packages/electron/src/shared/rpc.ts:133-144 | Once the renderer's end is closed no later step of any run settles anything. |
| Authorization.ServedOnlyIfAllowed | packages/electron/src/main/host.ts:192-306 | In every run a request that runs or was answered with success was allowed by the authorizer, and so was the one behind every installed subscription. |
| Authorization.RefusedNeverRuns | packages/electron/src/main/host.ts:192-249 | In every run a request that was denied, or for which the authorizer threw, never runs, before or after, and has exactly one answer: `forbidden` with its operation and collection, or the authorizer's error. |
| Authorization.InstalledExactlyWhen | packages/electron/src/main/host.ts:170-306 | In every run a subscription is installed if and only if a subscribe request for it succeeded and neither its cancel nor the drain came in since. |
| Authorization.RequestIsServed | packages/electron/src/main/host.ts:192-306 | On an idle bridge past its handshake every request can be served from end to end: its promise resolves with the operation's own outcome if allowed and with the refusal otherwise, and a subscription that succeeds is installed. |
| Bridge.HandshakeFirst | packages/electron/src/main/host.ts:133-190 | In every run a port is past its handshake only through a descriptor equal to the host's up to key order, an infinity counting as null, and no request, answer or subscription exists before. |
| Bridge.OnlyEqualsAcceptedExactlyWhen | packages/electron/src/main/host.ts:136-148 | Only descriptors plainly equal to the host's schema are accepted if and only if that schema holds neither null nor an infinity. |
| Canonical.CanonicalDecides | packages/electron/src/shared/canonical.ts:16-26 | Two values have the same canonical text if and only if they are equal up to key order at every depth, a number beyond the doubles counting as null. |
| Canonical.OnlyEqualsPassExactlyWhen | packages/electron/src/shared/canonical.ts:16-26 | Only its equals up to key order share a value's text if and only if the value holds neither null nor an infinity. |
| BackupProofs.BackupRoundTrip | crates/nookdb-core/src/backup.rs:280-390 | Restoring a backup, with any bytes behind it, is refused exactly when both schema hashes are known, differ and are not to be skipped; otherwise it yields exactly the source entries, consumes exactly the bytes written, keeps the header; overwrite empties the index, and a target with entries is refused without it. |
| BackupProofs.TruncationRefused | crates/nookdb-core/src/backup.rs:97-107 | Every strict prefix of a backup is refused as corrupt. |
| BackupProofs.ByteChangeRefused | crates/nookdb-core/src/backup.rs:197-238 | Any change of one byte in the header, a key, a value, the sentinel or the footer makes the restore fail. |
| BackupProofs.ByteChangePassesExactlyWhen | crates/nookdb-core/src/backup.rs:343-368 | After any change of one byte the restore succeeds if and only if the stream now begins with the complete backup of other entries under the same header, which only a change in a length field can bring about. |
| BackupLengths.KeyLengthChangeExactlyWhen | crates/nookdb-core/src/backup.rs:145-162 | A changed byte in the length of a key: the restore succeeds if and only if the bytes behind it, cut at the new length, are a key, a value, entries, a sentinel and a matching footer, or, at length zero, that footer; the entries before are restored as they were. |
| BackupLengths.ValueLengthChangeExactlyWhen | crates/nookdb-core/src/backup.rs:145-162 | The same of a changed byte in the length of a value. |
| BackupProofs.LengthChangePasses | crates/nookdb-core/src/backup.rs:145-162 | Such a change exists: a backup of one entry, and a length byte whose change restores an empty value in its place. |
| SchemaHash.PreImageDetermines | crates/nookdb-core/src/schema/ir.rs:206-290 | Two schemas feed the same bytes if and only if they are the same schema. |
| Query.SortedIsUnique | crates/nookdb-core/src/query.rs:96-118 | With distinct ids there is only one ascending permutation of the input, so the result does not depend on the sorting algorithm. |
| Query.PagesTile | crates/nookdb-core/src/query.rs:120-125 | Consecutive pages reproduce the result without loss or repetition. |
| Collection.CountWithIsLength | crates/nookdb-core/src/collection.rs:187-259 | `count_with` succeeds exactly when `find_with` does on the same reads, and is the length of its result. |
| Codec.ScanIsExact | crates/nookdb-core/src/codec/mod.rs:37-58 | The scan range `[c\0, c\1)` contains a byte string if and only if it is a key of collection `c`. |
| IndexEngine.KeyInjective | crates/nookdb-core/src/index/engine.rs:57-73 | With NUL-free collection, field name and id, an index key is injective in all four parts for every encoded value, NUL included. |
| Codec.StripInverts | crates/nookdb-core/src/codec/mod.rs:63-76 | Stripping the collection prefix succeeds on exactly the keys the codec builds for that collection, and gives the user key back. |
| Codec.CompositeKeyInjective | crates/nookdb-core/src/codec/mod.rs:19-27 | Different collections never share a key, and a key has one user key. |
| Codec.CompositeKeyOrder | crates/nookdb-core/src/codec/mod.rs:37-58 | Inside a collection the table order is the order of the user keys. |
| IndexEngine.EncodingInjective | crates/nookdb-core/src/index/engine.rs:47-55 | Two values of one scalar field type are encoded alike only if they are equal. |
| IndexEngine.KeyDeterminesRow | crates/nookdb-core/src/index/engine.rs:57-73 | With NUL-free collection and id, an index key names one collection and one document, whatever field and value bytes lie between: what uniqueness rests on. |
| IndexEngine.GroupIsExact | crates/nookdb-core/src/index/engine.rs:80-95 | With NUL-free values the range of a value holds exactly the keys of that collection, field and value. |
| IndexEngine.GroupOrder | crates/nookdb-core/src/index/engine.rs:138-146 | A lookup meets the ids of a group in lexicographic order. |
| Schema.CompileIndexesIndexable | crates/nookdb-core/src/schema/ir.rs:358-395 | Compiled indexes are the declared ones, each on a field that is required, not nullable and not an array. |
| Schema.CompiledIsWellFormed | crates/nookdb-core/src/schema/ir.rs:153-184 | A compiled collection has its id field with type id; the reserved `_meta` never compiles. |
| Schema.IndexedFieldIsScalar | crates/nookdb-core/src/schema/validate.rs:13-145 | In a valid document every indexed field is present and a string, number or boolean of its own type. |
| Query.CompareNumbersIsExact | crates/nookdb-core/src/query.rs:166-178 | On integers of the two 64-bit widths the comparison is exact, so it is a total order. |
| Query.CompareValuesCoherent | crates/nookdb-core/src/query.rs:143-160 | Comparison of optional values is antisymmetric and transitive across all value types, numbers being integers. |
| Query.CompareCoherent | crates/nookdb-core/src/query.rs:86-126 | So is the whole multi-key comparator with its id tie-break. |
| Query.TiesShareId | crates/nookdb-core/src/query.rs:113-116 | Documents tie only if they carry the same id. |
| Query.ComparatorIsStrictOnDistinctIds | crates/nookdb-core/src/query.rs:97-117 | Documents with different ids are strictly ordered, one way round. |
| Query.AbsentLast | crates/nookdb-core/src/query.rs:102-108 | Missing and null sort last for ascending and for descending keys. |
| Query.SortedFacts | crates/nookdb-core/src/query.rs:96-118 | The result of the sort is an ascending permutation of its input. |
| QueryMeaning.LessMeans | crates/nookdb-core/src/query.rs:153 | The order of strings is the dictionary's: at the first difference the smaller unit, or the end of the string, comes first. |
| QueryMeaning.ApplyMeans | crates/nookdb-core/src/query.rs:86-126 | The options are refused with a schema error exactly when a sort key names an unknown or an array field; otherwise the result is the window from the offset on, cut to the limit, of a permutation of the input in which no document comes after one that belongs behind it; without sort keys, of the input itself. |
| QueryMeaning.KeysInTurn | crates/nookdb-core/src/query.rs:97-117 | Two documents in a sorted result that tie on the first `n` keys are in the order of the next key; on all keys, in the order of their ids. |
| QueryMeaning.OneKeyMeans | crates/nookdb-core/src/query.rs:97-117 | Under one key numbers, strings and booleans of a result ascend for ascending and descend for descending, equal values come in id order, and documents without a value come last. |
| Json.F64Monotone | crates/nookdb-core/src/collection.rs:98-107 | The doubles keep the order of integers, and hold those up to 2^53. |
| FilterMeaning.EmptyMatchesAll | crates/nookdb-core/src/collection.rs:66-70 | The empty filter, and one that is no object, match everything. |
| FilterMeaning.FieldsConjoin | crates/nookdb-core/src/collection.rs:66-73 | A filter on several fields matches if and only if each of its fields does. |
| FilterMeaning.OperatorsConjoin | crates/nookdb-core/src/collection.rs:74-90 | Several operators on a field match if and only if each does; a key that is no operator beside one that is matches nothing. |
| FilterMeaning.PlainMeansEqual | crates/nookdb-core/src/collection.rs:91 | A condition without an operator matches if and only if the field is there with an equal value. |
| FilterMeaning.NeMeans | crates/nookdb-core/src/collection.rs:76 | `$ne` matches if and only if the field is missing or has another value. |
| FilterMeaning.ExistsMeans | crates/nookdb-core/src/collection.rs:77 | `$exists` asks for the field, null included, and `$exists: false` for its absence. |
| FilterMeaning.InMeans | crates/nookdb-core/src/collection.rs:78-80 | `$in` matches if and only if the field is there and its value is in the list. |
| FilterMeaning.NinMeans | crates/nookdb-core/src/collection.rs:81-83 | `$nin` matches if and only if there is a list and the field is missing or its value not in it. |
| Json.F64IsNearest | crates/nookdb-core/src/collection.rs:98-107 | Beyond 2^53 `as_f64` is rounding to the nearest number of 53 significant bits, ties to an even last bit. |
| FilterMeaning.ComparesDoubles | crates/nookdb-core/src/collection.rs:98-107 | On all numbers `$gt`, `$gte`, `$lt` and `$lte` match if and only if both sides are numbers whose doubles compare so. |
| FilterMeaning.LargeComparisonsMean | crates/nookdb-core/src/collection.rs:98-107 | On all numbers a strict comparison that matches is true, and a weak one that is true matches. |
| FilterMeaning.DoublesCollapse | crates/nookdb-core/src/collection.rs:98-107 | 2^53 + 1 is not matched by `$gt` of 2^53. |
| FilterMeaning.ComparisonsNeedNumbers | crates/nookdb-core/src/collection.rs:98-101 | A comparison with or of anything but a number matches nothing. |
| FilterMeaning.UnknownOperator | crates/nookdb-core/src/collection.rs:85 | A key that starts with `$` and is no operator matches nothing. |
| FilterMeaning.RangeQuery | crates/nookdb-core/src/collection.rs:66-183 | So a range query returns exactly the stored documents whose number lies in the half-open range. |
| Query.PagesAreAdjacent | crates/nookdb-core/src/query.rs:120-125 | Two consecutive offset/limit windows make up one larger window. |
| Query.CountIsLength | crates/nookdb-core/src/collection.rs:246-259 | The count's arithmetic on offset and limit gives the length of the sorted and paged result. |
| Invariants.SameValueIsTaken | crates/nookdb-core/src/collection.rs:387-398 | A stored document that shares a unique value makes the pre-check fail. |
| Invariants.InsertKeepsInv | crates/nookdb-core/src/collection.rs:378-405 | An insert, also over an existing id, keeps rows valid, index keys complete and unique values unique. |
| Invariants.DeleteVictimKeepsInv | crates/nookdb-core/src/collection.rs:293-307 | So does deleting any victim, even one read from an older state. |
| Invariants.DeleteKeepsInv | crates/nookdb-core/src/collection.rs:327-334 | So does a whole filtered delete resolved on two older snapshots. |
| Invariants.FindReturnsRows | crates/nookdb-core/src/collection.rs:125-160 | Whatever path a find takes, it returns stored rows that match the filter. |
| FastPath.ScanIsAnswer | crates/nookdb-core/src/collection.rs:110-118 | The scan path returns the matching documents in id order. |
| FastPath.IdPathIsAnswer | crates/nookdb-core/src/collection.rs:129-139 | On a consistent state the id path returns the same sequence. |
| FastPath.AnswerIdsDistinct | crates/nookdb-core/src/collection.rs:187-200 | A find never returns two documents with one id, so what is sorted has distinct ids. |
| History.CleanAlways | crates/nookdb-core/src/index/engine.rs:20-27 | If no insert carries NUL in an indexed string, no state and no index entry does. |
| ExactIndex.ExactMeansDerived | crates/nookdb-core/src/collection.rs:590-641 | On an exact state a key is in the index if and only if a stored document has it. |
| ExactIndex.ExactIndexIsDetermined | crates/nookdb-core/src/collection.rs:590-641 | The entries then determine the index. |
| ExactIndex.DeleteKeepsExact | crates/nookdb-core/src/collection.rs:267-280 | A delete resolved on the current state keeps the index exact. |
| ExactIndex.InsertsAreFresh | crates/nookdb-core/src/collection.rs:378-432 | A transaction of any number of inserts under distinct unused ids is fresh. |
| ExactIndex.LatestDeleteIsFresh | crates/nookdb-core/src/collection.rs:267-280 | So is a filtered delete resolved on the latest state. |
| ExactIndex.OverwrittenValueStaysTaken | crates/nookdb-core/src/collection.rs:399-403 | Overwriting a document does not free a unique value it had: every later document with that value is refused, though no stored one has it. |
| ExactIndex.DeleteFreesValues | crates/nookdb-core/src/collection.rs:267-307 | After a delete, a document with the victim's unique values can be inserted. |
| WriteMeaning.ValidatesMeans | crates/nookdb-core/src/schema/validate.rs:13-145 | A document is valid if and only if it is an object without undeclared fields in which every declared field holds a value of its type at every depth, is missing only if optional and null only if nullable. |
| WriteMeaning.InsertMeans | crates/nookdb-core/src/collection.rs:378-432 | An insert that succeeds stores exactly the document under its id, leaves every other row of every collection, and announces that one change. |
| WriteMeaning.InsertErrors | crates/nookdb-core/src/collection.rs:351-432 | Which failure gives which error: undeclared, invalid or without a string id a schema error; then NUL in the id, and after the uniqueness check the collection's name, an invalid argument. |
| WriteMeaning.ConflictExactlyWhen | crates/nookdb-core/src/collection.rs:387-398 | On an exact index a valid insert conflicts if and only if a stored document has the same value of a unique field. |
| ExactIndex.VictimsAreGone | crates/nookdb-core/src/collection.rs:293-307 | A delete removes the victims' rows and no others. |
| Transactions.ReplayAppend | crates/nookdb-napi/src/database.rs:608-640 | Replaying a concatenation is replaying one part after the other. |
| Update.MergeMeans | packages/nookdb/src/collection.ts:241 | A merged document has the patch's value in every patched field, no value where that is undefined, and the old value everywhere else. |
| UpdateAtomic.ExactUpdateSucceedsExactlyWhen | packages/nookdb/src/collection.ts:228-247 | On an exact index an update succeeds if and only if a patch that names `id` gives every match its own id, every merged document is valid and the resulting collection has no duplicate unique value. |
| UpdateRuns.UpdateKeepsInv | packages/nookdb/src/collection.ts:228-247 | Under any id field, a successful update leaves rows valid, index keys complete and unique values unique. |
| UpdateHits.LoopPassesExactlyWhen | packages/nookdb/src/collection.ts:235-240 | Under an id field of any name the loop buffers every match if and only if a patch that names `id` has the same value, no array or object, as each of them; otherwise it stops with a schema error. |
| UpdateHits.UpdateWithoutIdWipes | packages/nookdb/src/collection.ts:235-243 | Where documents have no field named `id`, a successful update leaves a single row: that of the last match. |
| LiveProperties.QuiescentIsFresh | crates/nookdb-core/src/live.rs:225-285 | At rest no subscription is dirty and none has missed a commit on its collection since its last read, or since its insertion if it never emitted. |
| LiveProperties.GapIsMissed | crates/nookdb-core/src/live.rs:152-165 | A run in which that happens. |
| LiveProgress.EngineStepDecreases | crates/nookdb-core/src/live.rs:225-285 | Every step of a committing thread after its commit, and of the worker, lowers the measure. |
| LiveProgress.NotStuck | crates/nookdb-core/src/live.rs:225-285 | Until the engine is at rest one of those steps is possible. |
| LiveProgress.RestDespiteRegistrations | crates/nookdb-core/src/live.rs:225-285 | Without commits and shutdown the steps of the engine's threads are bounded, however many registrations complete meanwhile. |
| LiveProgress.RestIsReached | crates/nookdb-core/src/live.rs:225-285 | Without commits, insertions and shutdown, no run takes more of those steps than the measure of its first state, whatever clients cancel meanwhile. |
| LiveFresh.FindDependsOnView | crates/nookdb-core/src/live.rs:191-213 | A query over two reads depends only on the collection's rows and on the index entries that can reach them. |
| LiveFresh.CommitUntouched | crates/nookdb-core/src/database.rs:94-101 | A commit that does not announce a collection leaves every query on it unchanged. |
| Crc.BitStepInjective | crates/nookdb-core/src/backup.rs:164-190 | One bit step of CRC-32 (section 8 of RFC 1952) loses no information. |
| Crc.ByteStepInjective | crates/nookdb-core/src/backup.rs:164-190 | One byte step is injective in the register and in the byte. |
| Crc.ByteChangeSeen | crates/nookdb-core/src/backup.rs:197-238 | Changing one byte of a message always changes its checksum. |
| BackupProofs.KnownBytes | crates/nookdb-core/src/backup.rs:11-47 | The stream's fixed bytes: the magic, the version, the sentinel; integers are big-endian. |
| BackupProofs.HeaderRoundTrip | crates/nookdb-core/src/backup.rs:33-94 | A written header reads back field by field. |
| BackupProofs.EntriesRoundTrip | crates/nookdb-core/src/backup.rs:111-162 | Written entries read back, whatever follows the sentinel. |
| BackupProofs.ParseExtends | crates/nookdb-core/src/backup.rs:343-368 | The reader never depends on bytes behind what it consumes. |
| BackupProofs.PrintedStream | crates/nookdb-core/src/backup.rs:343-368 | The reader accepts nothing but what the writer prints, with any bytes behind it. |
| BackupLengths.EveryLengthByte | crates/nookdb-core/src/backup.rs:111-130 | Every byte of a length field is covered by one of the two. |
| SchemaHash.TypeCancel | crates/nookdb-core/src/schema/ir.rs:222-235 | Type markers, nested arrays included, can be told from whatever follows them. |
| SchemaHash.FieldCancel | crates/nookdb-core/src/schema/ir.rs:247-275 | So can a whole field, with every constraint recovered. |
| SchemaHash.CollectionCancel | crates/nookdb-core/src/schema/ir.rs:239-288 | So can a collection. |
| Canonical.QuotedCancel | packages/electron/src/shared/canonical.ts:16-19 | A printed string, with short escapes, `\u` escapes and lone surrogates, can be read back from any text it starts. |
| Canonical.TextsCancel | packages/electron/src/shared/canonical.ts:16-26 | Canonical texts are self-delimiting. |
| Canonical.CanonicalDecidesFinite | packages/electron/src/shared/canonical.ts:16-26 | Without numbers beyond the doubles the text decides equality up to key order outright. |
| Canonical.InfinityPassesForNull | packages/electron/src/shared/canonical.ts:17-19 | Two different values with one canonical text: `[1e999]` and `[null]`. |
| Rpc.FreshIdInjective | packages/electron/src/shared/rpc.ts:4-8 | Generated ids never repeat and never collide with the handshake's key. |
| Rpc.SendSound | packages/electron/src/shared/rpc.ts:47-62 | Sending keeps the account: every promise made is, exactly once, waiting, settled or abandoned. |
| Rpc.DispatchSound | packages/electron/src/shared/rpc.ts:91-131 | So does any incoming message, orphans and duplicates included. |
| Rpc.CloseSound | packages/electron/src/shared/rpc.ts:133-144 | So does closing. |
| Rpc.SettledOnce | packages/electron/src/shared/rpc.ts:91-144 | No promise is settled twice. |
| Rpc.NothingAfterClose | packages/electron/src/shared/rpc.ts:133-144 | After closing nothing settles, whatever arrives. |
| Bridge.AcceptedExactlyWhen | packages/electron/src/main/host.ts:136-148 | An open port past no handshake accepts a greeting if and only if its descriptor parses to a value equal to the host's schema up to key order, an infinity counting as null. |
| Bridge.PlainHandshakeFirst | packages/electron/src/main/host.ts:133-190 | For a schema without nulls and infinities a port is past its handshake, in every run, only through a plainly equal descriptor. |
| Bridge.AnsweredWasSent | packages/electron/src/main/host.ts:192-225 | Everything the host answers is a request that was sent. |
| Bridge.AnsweredOnce | packages/electron/src/main/host.ts:192-225 | No two answers carry the same id. |
| LiveQueries.PushCoherent | packages/nookdb/src/live.ts:124-130 | A pushed snapshot goes to the waiting call or to the end of the queue; none is lost, repeated or reordered. |
| LiveQueries.NextCoherent | packages/nookdb/src/live.ts:149-167 | `next` serves an error, then the queue, then the end, then waits; every call settles at most once, in order. |
| LiveQueries.IteratorAccount | packages/nookdb/src/live.ts:117-174 | In every order of events, what an iterator delivered followed by its queue are the snapshots accepted since it was made, all of them while it is registered. |
| LiveQueries.SubscriberAccount | packages/nookdb/src/live.ts:107-115 | In every order of events a current subscriber has been called with exactly the snapshots accepted since it subscribed. |
| LiveQueries.EndIsFinal | packages/nookdb/src/live.ts:176-202 | After the end no snapshot is accepted and no subscriber is told of one. |
| LiveAccounts.AcceptedExactly | packages/nookdb/src/live.ts:176-202 | In every order of events the query is over exactly after the first final event, and has taken in exactly the snapshots the events brought before it. |
| LiveAccounts.WaitingCallHears | packages/nookdb/src/live.ts:124-148 | A call that waits on an open query is settled with the snapshot, the error or the end that reaches it, and with nothing else. |
| LiveCalls.KnowsExactlyWhen | packages/nookdb/src/live.ts:117-183 | An iterator knows of the end if and only if it was made before the query ended and not left by the `return` that ended it, and of an error if and only if one reached it while it was registered. |
| LiveCalls.LastCallSettlesExactlyWhen | packages/nookdb/src/live.ts:149-183 | The last call on an iterator, after the end and with an empty queue, settles if and only if the iterator was still registered at the end or an error reaches it at any time. |
| LiveCalls.LateIteratorHangs | packages/nookdb/src/live.ts:145-167 | The last call, queue empty, on an iterator taken after the end settles if and only if an error reaches it. |
| LiveCalls.ReturnedIteratorHangs | packages/nookdb/src/live.ts:168-183 | No call on an iterator whose `return` ended the query settles afterwards, neither a waiting one nor, once the queue is empty, a later one. |
| LiveCalls.DisplacedCallHangs | packages/nookdb/src/live.ts:149-167 | A waiting call that another call on its iterator displaces never settles. |
| Codec.EncodeKey | crates/nookdb-core/src/codec/mod.rs:19-27 | The composite key `collection\0key`; an empty name or one holding NUL is refused as an invalid argument. |
| Codec.CollectionPrefixUpper | crates/nookdb-core/src/codec/mod.rs:52-58 | The exclusive upper bound of a collection's keys, under the same name check. |
| IndexEngine.BuildKey | crates/nookdb-core/src/index/engine.rs:57-73 | The byte-buffer construction yields `collection\0field\0value\0id`. |
| IndexEngine.BuildPrefix | crates/nookdb-core/src/index/engine.rs:80-95 | The two bounds of a value group; the upper one is the lower one with its final separator raised by one. |
| Storage.ListCollection | crates/nookdb-core/src/storage.rs:76-101 | The scan loop returns exactly the rows of the collection in user-key order; its corruption branch is never taken. |
| Storage.IndexRangeValues | crates/nookdb-core/src/storage.rs:138-149 | The loop returns the values of a half-open key range in key order. |
| Storage.ListEntriesRaw | crates/nookdb-core/src/storage.rs:113-124 | All entries of all collections, each once, in key order. |
| Storage.WriteTx.constructor | crates/nookdb-core/src/storage.rs:169-179 | A transaction starts from the committed tables with nothing touched. |
| Storage.WriteTx.TakeTouched | crates/nookdb-core/src/storage.rs:186-188 | Hands over the change set and empties it. |
| Storage.WriteTx.Put | crates/nookdb-core/src/storage.rs:196-207 | Stores under the composite key and records one insert; a refused name changes nothing. |
| Storage.WriteTx.Get | crates/nookdb-core/src/storage.rs:217-224 | Reads the transaction's own view. |
| Storage.WriteTx.Delete | crates/nookdb-core/src/storage.rs:233-248 | Removes a row and reports whether it existed; only an existing row is recorded as a change. |
| Storage.WriteTx.IndexPut | crates/nookdb-core/src/storage.rs:258-263 | Sets one index entry and nothing else. |
| Storage.WriteTx.IndexDelete | crates/nookdb-core/src/storage.rs:271-274 | Removes one index entry and nothing else. |
| Storage.WriteTx.HasAnyEntry | crates/nookdb-core/src/storage.rs:311-314 | True exactly when the entries table is not empty. |
| Storage.WriteTx.ClearEntries | crates/nookdb-core/src/storage.rs:323-331 | Empties both tables and records no change. |
| Storage.WriteTx.PutRaw | crates/nookdb-core/src/storage.rs:343-348 | Restores one raw entry without touching index or change set. |
| Database.Db.Finish | crates/nookdb-core/src/database.rs:80-111 | Success installs the transaction's view and dispatches its changes if there are any; an error leaves the committed tables alone and dispatches nothing. |
| Database.Notifier.AddObserver | crates/nookdb-core/src/notify.rs:99-109 | A new observer comes last and gets an id no other has. |
| Database.Notifier.RemoveObserver | crates/nookdb-core/src/notify.rs:142-148 | Dropping a handle removes that observer and keeps the order of the rest. |
| Database.Notifier.Dispatch | crates/nookdb-core/src/notify.rs:115-125 | Every registered observer is called once, in registration order. |
| Query.ValidateSortFields | crates/nookdb-core/src/query.rs:54-75 | Sorting by an unknown or array field is a schema error, found by a loop over the keys. |
| Query.Apply | crates/nookdb-core/src/query.rs:86-126 | The method computes the specified result: what `QueryMeaning.ApplyMeans` says of it. |
| Collection.IndexValueExistsWriting | crates/nookdb-core/src/index/engine.rs:175-183 | True exactly when the in-flight index holds a key in the group of the document's value. |
| Collection.CheckUnique | crates/nookdb-core/src/collection.rs:387-398 | The pre-check loop finds a collision exactly when some unique index already holds the document's value. |
| Collection.PutIndexEntries | crates/nookdb-core/src/collection.rs:400-403 | Adds exactly the index keys of the document, each pointing to its id. |
| Collection.DeleteIndexEntries | crates/nookdb-core/src/collection.rs:293-307 | Removes exactly the index keys of the victim. |
| Collection.InsertValidatedInTx | crates/nookdb-core/src/collection.rs:378-405 | A conflict writes nothing; otherwise row and index keys are written and nothing else changes. |
| Collection.InsertInTx | crates/nookdb-core/src/collection.rs:418-432 | Validation, id extraction, NUL check, uniqueness and write in that order, with the error of the first that fails. |
| Collection.DeleteVictimsInTx | crates/nookdb-core/src/collection.rs:293-307 | Removes the victims' index entries and rows one after the other. |
| Collection.DeleteInTx | crates/nookdb-core/src/collection.rs:327-334 | Finds victims in the committed state, not in the transaction, deletes them there and returns how many. |
| Collection.Insert | crates/nookdb-core/src/collection.rs:351-372 | One insert in its own transaction: committed and announced, or refused with nothing changed. |
| Collection.Delete | crates/nookdb-core/src/collection.rs:267-280 | One delete in its own transaction, with its victims read beforehand. |
| Transactions.TxRegistry.BeginWriteTxn | crates/nookdb-napi/src/database.rs:395-415 | A new handle, never used before, with an empty buffer. |
| Transactions.TxRegistry.TxInsert | crates/nookdb-napi/src/database.rs:430-451 | Appends an insert to the buffer of a live handle; nothing is validated or written. |
| Transactions.TxRegistry.TxDeleteMany | crates/nookdb-napi/src/database.rs:466-487 | Appends a delete and answers zero. |
| Transactions.TxRegistry.TxFind | crates/nookdb-napi/src/database.rs:499-524 | Reads the committed state, not the buffer, with sort, offset and limit applied; a finished handle is refused. |
| Transactions.TxRegistry.CommitWriteTxn | crates/nookdb-napi/src/database.rs:588-644 | Replays the buffer in one write: all of it or, on any failing operation, nothing; the handle is gone either way. |
| Transactions.TxRegistry.RollbackWriteTxn | crates/nookdb-napi/src/database.rs:659-669 | Drops the buffer; a second call finds no handle. |
| Update.BufferMatches | packages/nookdb/src/collection.ts:233-246 | The loop buffers a delete and a merged insert for each match; it passes if and only if a patch that names `id` has the same value, no array or object, as each match, and stops with a schema error otherwise. |
| Update.ApplyUpdateLoop | packages/nookdb/src/collection.ts:228-247 | What an update buffers for a filter and a patch, and the count it returns. |
| Update.RunUpdate | packages/nookdb/src/database.ts:325-352 | Callback, commit, and rollback on error: success gives the replayed state, failure the old one. |
| Update.SchemaHandle.UpdateDocs | packages/nookdb/src/database.ts:305-353 | `transaction` with the callback of an update, the only callback modelled: a nested call is refused; on every path the flag is released and no handle is left. |
| Live.LiveShared.OnCommit | crates/nookdb-core/src/live.rs:80-97 | Without interference a commit marks the subscriptions on its collections and wakes the worker exactly if there are any. |
| Live.LiveShared.Register | crates/nookdb-core/src/live.rs:145-167 | A registration takes the next id and inserts a clean subscription under it. |
| Live.LiveShared.WorkerPass | crates/nookdb-core/src/live.rs:225-285 | Without interference one pass emits once for every dirty subscription with an open sink, drops the dirty ones whose sink is closed, and leaves nothing dirty. |
| Live.LiveShared.MarkTouched | crates/nookdb-core/src/live.rs:84-93 | Under the lock, exactly the subscriptions on touched collections become dirty; reports whether there were any. |
| Live.LiveShared.WakeWorker | crates/nookdb-core/src/live.rs:64-70 | Raises the wake flag. |
| Live.LiveShared.ClearWake | crates/nookdb-core/src/live.rs:227-240 | The worker's wait ends with the flag cleared. |
| Live.LiveShared.TakeDirty | crates/nookdb-core/src/live.rs:246-263 | Lists every dirty subscription once and leaves none dirty. |
| Live.LiveShared.RemoveDead | crates/nookdb-core/src/live.rs:277-283 | Drops the closed subscriptions met in a pass. |
| Live.LiveShared.InsertSub | crates/nookdb-core/src/live.rs:156-166 | A new subscription starts clean. |
| Live.LiveShared.Cancel | crates/nookdb-core/src/live.rs:170-174 | Removes one subscription. |
| Backup.CrcWriter.WriteAll | crates/nookdb-core/src/backup.rs:185-190 | Appends the bytes and keeps the register that of everything written. |
| Backup.CrcWriter.Finish | crates/nookdb-core/src/backup.rs:178-182 | Appends the checksum, which does not cover itself. |
| Backup.WriteHeader | crates/nookdb-core/src/backup.rs:33-47 | The 63 header bytes in order, big-endian, with a zero placeholder for an absent hash. |
| Backup.WriteEntry | crates/nookdb-core/src/backup.rs:111-130 | Length, key, length, value. |
| Backup.WriteBackup | crates/nookdb-core/src/backup.rs:280-313 | Header, all entries in key order, sentinel and footer; the statistics count the entries and the bytes. |
| Backup.CrcReader.ReadExact | crates/nookdb-core/src/backup.rs:97-107 | The next bytes, or corruption at the end of the stream. |
| Backup.CrcReader.FinishAndVerify | crates/nookdb-core/src/backup.rs:211-230 | Reads the footer outside the checksum and compares. |
| Backup.ReadHeader | crates/nookdb-core/src/backup.rs:49-94 | Accepts exactly a header with the magic, version 1 and a presence byte of zero or one. |
| Backup.ReadOneEntry | crates/nookdb-core/src/backup.rs:145-162 | The next framed entry, the sentinel, or corruption when the stream is short. |
| Backup.ReadEntries | crates/nookdb-core/src/backup.rs:361-367 | The loop collects the entries up to the sentinel. |
| Backup.ReplayInTx | crates/nookdb-core/src/backup.rs:370-382 | Clears or requires an empty target, then puts the entries in order. |
| Backup.ReadBackup | crates/nookdb-core/src/backup.rs:343-390 | Every failure, in the order the code checks, leaves the database as it was; success installs exactly the replayed tables and announces nothing. |
| SchemaHash.Feed | crates/nookdb-core/src/schema/ir.rs:211-215 | Length-prefixed bytes. |
| SchemaHash.FeedFieldType | crates/nookdb-core/src/schema/ir.rs:222-235 | The marker bytes of a type, recursing through arrays. |
| SchemaHash.FeedField | crates/nookdb-core/src/schema/ir.rs:247-275 | Name, type, flags, bounds, pattern and variants of a field in the fed order. |
| SchemaHash.FeedSchema | crates/nookdb-core/src/schema/ir.rs:206-290 | Everything the digest is fed, collections in name order. |
| Rpc.RpcDispatcher.Send | packages/electron/src/shared/rpc.ts:47-62 | A request gets a fresh id and one pending promise, and is posted; a closed transport or an unsupported type is refused at once. |
| Rpc.RpcDispatcher.ExpectAck | packages/electron/src/shared/rpc.ts:71-80 | The handshake's expectation; a second one takes the place of the first. |
| Rpc.RpcDispatcher.PostCancel | packages/electron/src/shared/rpc.ts:82-85 | Posts unless the transport is closed. |
| Rpc.RpcDispatcher.Dispatch | packages/electron/src/shared/rpc.ts:91-131 | A message settles the promise it belongs to, or is passed on. |
| Rpc.RpcDispatcher.OnClose | packages/electron/src/shared/rpc.ts:133-144 | Closing rejects everything that waits, in order, and only the first time. |
| Host.Port.Route | packages/electron/src/main/host.ts:133-190 | What an incoming message does before and after the handshake and on a drained port, what is posted, and when the transport is closed. |
| Host.Port.Authorized | packages/electron/src/main/host.ts:192-216 | Permission lets the request run and posts nothing; a denial removes it and posts `forbidden` with operation and collection, an error of the authorizer removes it and posts that error. |
| Host.Port.Finished | packages/electron/src/main/host.ts:192-306 | The operation's outcome is posted under the request's id; a subscription that succeeded is installed. |
| Host.Port.Emit | packages/electron/src/main/host.ts:263-285 | Only an open port forwards emissions, and only for subscriptions it holds. |
| Host.Port.Drain | packages/electron/src/main/host.ts:341-347 | Draining closes the port and drops its subscriptions, once. |
| LiveQueries.LiveQuery.OnRegistered | packages/nookdb/src/live.ts:81-92 | A registration that resolves after the end is cancelled at once; otherwise the initial snapshot is taken in. |
| LiveQueries.LiveQuery.OnRefused | packages/nookdb/src/live.ts:93-95 | A failed registration ends the query with an error. |
| LiveQueries.LiveQuery.OnEnvelope | packages/nookdb/src/live.ts:185-202 | A snapshot reaches every subscriber and iterator; an error or a malformed envelope ends the query; nothing happens after the end. |
| LiveQueries.LiveQuery.Fail | packages/nookdb/src/live.ts:204-210 | The first error is reported to everybody and disposes the query. |
| LiveQueries.LiveQuery.Dispose | packages/nookdb/src/live.ts:176-183 | Ends every iterator, forgets every subscriber and cancels the core subscription, once. |
| LiveQueries.LiveQuery.Subscribe | packages/nookdb/src/live.ts:107-115 | A subscriber starts with the latest snapshot if there is one. |
| LiveQueries.LiveQuery.Iterate | packages/nookdb/src/live.ts:117-148 | So does an iterator, also one taken from a query that has ended. |
| LiveQueries.LiveQuery.Unsubscribe | packages/nookdb/src/live.ts:112-114 | Forgets one subscriber. |
| LiveQueries.LiveQuery.Return | packages/nookdb/src/live.ts:168-172 | Breaking out of the loop unregisters the iterator and ends the query. |

## Left out

- LiveFresh.QuiescentFreshness: a subscription on a declared collection is assumed to have a name the key codec accepts, since nothing can be stored under any other.
- FastPath.FastPathRefinesScan: assumes NUL-free field names and indexed strings; for values with NUL `FastPath.IndexPathExactlyWhen` gives the exact condition instead.
- BackupProofs.ByteChangeRefused: leaves out the length fields of entries, of which it is false (`BackupProofs.LengthChangePasses`); `BackupProofs.ByteChangePassesExactlyWhen` is exact for every byte, and `BackupLengths` for the length bytes in terms of the entries.
- Backup.WriteBackup: keys and values below 2^32 bytes and non-empty keys, as the frame format demands; the code stops with a panic beyond that.
- FilterMeaning.ComparisonsMean: for numbers beyond 2^53 the doubles decide, as in the code: `FilterMeaning.ComparesDoubles` and `Json.F64IsNearest` are exact there, `FilterMeaning.DoublesCollapse` gives a pair the comparison cannot tell apart.
- SchemaHash.PreImageDetermines: lengths below 2^64, which no platform exceeds; SHA-256 itself is not modelled.
- Query.CompareNumbersIsExact: over integers; the mixed integer and floating comparison above 2^53 is not transitive in the code.
- Query.CompareValuesCoherent: over the same integers, and over strings, booleans, nulls and the other types.
- Rpc.RpcDispatcher.ExpectAck: the dispatcher's `expect` for the handshake's acknowledgement only; the code makes no other expectation.
- UpdateAtomic.UpdateSucceedsExactlyWhen: assumes that the patch puts no NUL into an indexed string; what a successful update does needs no such assumption.
- UpdateAtomic.ExactUpdateSucceedsExactlyWhen: makes the same assumption.
- Bridge.OnlyEqualsAcceptedExactlyWhen: assumes that the parser reads the schema with its nulls written as numbers beyond the doubles, which JSON allows.
- Update.SchemaHandle.UpdateDocs: models the callback of an update, no other user callback of `transaction`, and assumes no other writer commits between the find and the replay.
- Floating-point values, `-0.0` and NaN: documents hold integers, bounds of fields are bit patterns.
- Length, range, pattern and email checks of single values: one parameter of the environment, so every such check is covered by every theorem.
- Document encoding: decoding a stored document is assumed to give back what was stored.
- Default filling, generated ids, timestamps and the migration ledger: they would add only easy members.
- The raw byte API and the listing of collection names: thin wrappers over the tables.
- Durability, file locks, crash recovery and I/O errors of the store: a write transaction is a private copy installed on commit.
- Restore in runs with an index or live queries: it empties the index without rebuilding it and announces nothing, so runs here do not contain it.
- Panics, poisoned locks, weak references and the join at shutdown: no bearing on the protocols.
- Exceptions thrown by subscriber callbacks, and callbacks that call back into the query while it notifies.
- Several ports of one host, and several dispatchers of one renderer beyond the ids they take from the common counter.
- Disposal of a live query whose subscription is installed on the host after its port was drained: the model has that behaviour and claims nothing about it.
- Native glue, Electron ports, the React hook, the command line and error classes: plumbing without branching of its own.
