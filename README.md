# Tablestore cache driver — a Dafny model

This project models the cache semantics of the `Tablestore` driver
(`src/Tablestore.php`), a ThinkPHP cache driver that keeps every cache entry
in one row of an Alibaba Cloud Tablestore table. A row holds two attribute
columns: `value` (the serialized payload, gzip-compressed when
`data_compress` is on) and `expire` (seconds, 0 for "never"), both stamped
with the same write timestamp. Entries expire lazily: a read finds a row
stale when `expire != 0 && now > ts + expire * 1000`, where `ts` is the
timestamp of the `value` column, and then issues a delete for it (see
below). Counters (`inc`,
`dec`) are a read followed by a write. `clear` is refused, and `clearTag`
deletes an explicit list of names.

The remote table is a map from row key to its list of attribute columns.
The clock reading `now` is a parameter of each operation. The driver's
`readTimes` and `writeTimes` counters are part of the state.

Layout:

- `wrappers.dfy`: `Option` and `Result`.
- `codec.dfy`: the serializer and zlib pairs. Payloads are symbolic, so each
  decoder inverts its encoder exactly and fails on anything else.
- `rows.dfy`: attribute columns and the read path's fold over them.
  `FoldColumns` is the `foreach` loop, proved against the recursive
  `ColumnMap` and `ValueTimestamp`.
- `cache_model.dfy`: every operation as a function on a `Cache` value
  (table plus counters).
- `cache_properties.dfy`: lemmas about those functions.
- `tablestore.dfy`: class `Tablestore`. Its fields are the table and the
  counters, and its methods update them in place as the PHP methods do.
  Every method but `Clear` is proved equal to its `CacheModel` function;
  `Clear` states its constant failure directly.

The model keeps one sharp edge of the code as written. On a stale read,
`getRaw` passes the already prefixed key to `delete`, and `delete` prefixes
it again. So the row that gets deleted is `prefix + prefix + name`. When the
prefix is not empty, the stale row stays in the table and every later read
deletes the wrong key again (`StaleReadMissesItsRow`). The stray delete is
not harmless either: `prefix + prefix + name` is the row of the cache name
`prefix + name`, so a stale read of `name` destroys whatever is cached under
`prefix + name`, live or not (`StaleReadDeletesNeighbour`). With prefix `p`,
a stale read of `x` deletes the live entry of `px`.

Timestamps are compared as the code writes them. The expire seconds are
multiplied by 1000, so the clock and the column stamps are taken to count
milliseconds. The write stamp is chosen by the driver (its clock reading
in `set`), not assigned by the storage service.

## Model

| member | source | states |
|---|---|---|
| `Codec.Serialize` | src/Tablestore.php:139-160 | the deserializer reads back exactly the serialized value; the decompressor rejects a plain payload |
| `Codec.GzCompress` | src/Tablestore.php:106-168 | gzuncompress recovers the compressed payload; the deserializer cannot read a compressed one |
| `Rows.ColumnMapLastWins` | src/Tablestore.php:91-93 | the folded column map holds exactly the column names present, each bound to the value of the last column with that name |
| `Rows.ValueTimestampOfLast` | src/Tablestore.php:90-96 | the timestamp picked is that of the last `value` column, and 0 when there is none |
| `Rows.FoldColumns` | src/Tablestore.php:89-97 | the loop over the attribute columns yields that column map and that timestamp |
| `CacheModel.ClearTag` | src/Tablestore.php:255-260 | clearTag removes exactly the rows `prefix + k` for the listed names, adds one write per name and leaves the read count |
| `CacheProperties.ReadStoredRow` | src/Tablestore.php:161-179 | the row set writes has exactly two columns, both stamped `now`; it reads back as the payload, compressed exactly when compression is on, the given expire, and `now` as the value column's stamp |
| `CacheProperties.ReadAfterSet` | src/Tablestore.php:89-112 | right after set, getRaw returns the serialized payload and expire while live, whatever the compression flag; when stale it returns nothing and deletes the double-prefixed key |
| `CacheProperties.SetThenGet` | src/Tablestore.php:121-168 | get after set returns the value while live and the caller's default once stale; has is true exactly while live |
| `CacheProperties.NeverExpiring` | src/Tablestore.php:99-100 | an entry set with expire 0 is read back at any time |
| `CacheProperties.DefaultExpiryIsOneDay` | src/Tablestore.php:34 | with the default options an entry set without expire is still read at exactly 86400 s after its stamp and is gone one clock unit later |
| `CacheProperties.StaleReadMissesItsRow` | src/Tablestore.php:100-103 | a stale read returns nothing, counts one write and removes `prefix + prefix + name`; the stale row survives iff the prefix is not empty |
| `CacheProperties.StaleReadDeletesNeighbour` | src/Tablestore.php:100-103 | after a stale read of `name`, the name `prefix + name` reads as absent at any later time, whatever was cached under it |
| `CacheProperties.CompressionMismatch` | src/Tablestore.php:106-108 | a reader whose compression flag differs from the writer's finds the entry (has is true) but get fails to decode it |
| `CacheProperties.SetKeepsOtherNames` | src/Tablestore.php:170-179 | set leaves what get answers for every other name unchanged |
| `CacheProperties.IncOnMissing` | src/Tablestore.php:193-201 | inc on an absent or stale counter stores the step with expire 0, returns the step, and the counter then reads as the step at any time |
| `CacheProperties.IncAfterSet` | src/Tablestore.php:193-201 | inc on a live counter holding k writes k + step with the stored expire, restamped at `now`, and returns k + step |
| `CacheProperties.DecUndoesInc` | src/Tablestore.php:211-214 | dec by the same step after inc restores the counter and returns its old value (expire not negative) |
| `CacheProperties.DeleteIdempotent` | src/Tablestore.php:222-235 | deleting twice leaves the same table as deleting once; get afterwards answers the default |
| `CacheProperties.ClearTagThenGet` | src/Tablestore.php:255-260 | after clearTag every listed name reads as absent and every other name reads as before |
| `TablestoreDriver.Tablestore.constructor` | src/Tablestore.php:54-58 | the driver starts with the given options, the given table and both counters at 0 |
| `TablestoreDriver.Tablestore.GetRaw` | src/Tablestore.php:77-113 | the method's new state and result are those of `CacheModel.GetRaw` |
| `TablestoreDriver.Tablestore.Has` | src/Tablestore.php:121-124 | has returns whether getRaw finds a live entry, with getRaw's side effects |
| `TablestoreDriver.Tablestore.Get` | src/Tablestore.php:133-140 | get counts one read, then returns the unserialized content or the default |
| `TablestoreDriver.Tablestore.Set` | src/Tablestore.php:150-182 | set returns true, counts one write, stores the two-column row under `prefix + name` with the default expire when none is given, and no other key appears or disappears |
| `TablestoreDriver.Tablestore.Inc` | src/Tablestore.php:191-202 | inc's new state and result are those of `CacheModel.Inc` |
| `TablestoreDriver.Tablestore.Dec` | src/Tablestore.php:211-214 | dec is inc by the negated step |
| `TablestoreDriver.Tablestore.Delete` | src/Tablestore.php:222-235 | delete returns true, counts one write and removes only the row `prefix + name`, present or not |
| `TablestoreDriver.Tablestore.Clear` | src/Tablestore.php:242-247 | clear always fails with the unsupported-operation error |
| `TablestoreDriver.Tablestore.ClearTag` | src/Tablestore.php:255-260 | the loop of deletes leaves the table without exactly the listed rows and adds one write per name |

## Left out

- Constructing the `OTSClient` (endpoint, credentials, instance, table name, timeouts) and merging the option array: the driver is built from already merged options and the table's current contents.
- Transport, timeout and other storage client errors: they come from the external SDK. Every row get, put and delete is taken to succeed.
- The internals of serialize/unserialize (including the pluggable `serialize` option and the framework's special case for numeric values) and of gzcompress/gzuncompress: payloads are symbolic values. Only `Nil`, integers and strings are modelled as cached values.
- The `function_exists('gzcompress')` test: the `dataCompress` option stands for "compression on and zlib available".
- Expire given as a `DateTime`: expire is an integer number of seconds.
- The real clock: `now` is a parameter, one reading per public call. `Tablestore.Inc` uses the same reading for its read and its write.
- The lost-update race between concurrent `inc` calls: the model is sequential.
- The column type tags are recorded in the stored row but carry no cache semantics.
- `tag_prefix` is kept in the options but, as in the driver, unused.
- `Rows.IntCast`: a `(int)` cast of a cell that is not an integer gives 0. PHP's cast of a numeric string is not modelled.
- `CacheModel.AddStep`: PHP integer overflow to float is not modelled (integers are unbounded). The framework's serializer stores a numeric value as its bare digits, so a numeric string set through this driver (or by another writer) is added by PHP's `inc`; here any `Text` value gives the `NonNumeric` error, so `inc` after `set` of `Text("10")` fails instead of answering 10 + step.
- `CacheModel.Uncompress`: a missing `value` column reaches gzuncompress as null, which PHP may reject with a type error. The model gives `False`, the same as a failed decompression.
- `CacheModel.UnserializeCell`: a payload the deserializer cannot read (including `false` from a failed decompression) is taken to raise `Undecodable`. PHP's unserialize instead returns `false` with a notice when warnings are not turned into exceptions; then `get` answers `false` and `inc` computes `false + step` = step and writes it with the old expire. That value path is not modelled. Conversely, when the host turns warnings into exceptions, the failed gzuncompress in the read path would already raise, so `has` would throw instead of answering true as `CacheProperties.CompressionMismatch` states.
- `TablestoreDriver.Tablestore.Inc`: `set` always reports success, so the `false` result of inc cannot occur and is not modelled.
