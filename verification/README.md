# VoltDBX model

A model of the VoltDBX in-memory store and proofs about it: the chained hash table and its SCAN
paging, deadlines and the background sweep, the append-only log and snapshots, command parsing and
replies, counters, the worker thread pool, publish/subscribe, and the two allocators.

Each component has a specification on plain values and, where the program changes things in place, a
class or method proved to do exactly what the specification says. The main results are about whole
runs:

- `TableRuns.TableRunRefinesMap`: the linked, growing table is a finite map, for every hash function.
- `ScanHandler.ReplyShows`, `ScanClient`, `ScanUnderChange.ScanRunFindsAll`, `LaterKeyIsScanned`,
  `EraseHidesExactly`: what every SCAN request answers and what a paging client receives, on a fixed
  table and while it changes.
- `Ttl.LastSetAnswers`, `DeadlineAnswers`, `TouchAnswers`: what get answers after any run;
  `Ttl.SweepsAreInvisible` with `Ttl.RevivalIsVisible`: when background sweeps can be noticed.
- `StorageHooks.RunStores`, `LogTracksStoreIff`, `Snapshot.StoreSnapshotIff`,
  `Commands.TypedStoreSurvives`: what the calls store and exactly when the text files carry it.
- `ThreadPool.EveryRunIsOrderly`, `EveryRunKeepsWakeups`, `ShutdownEnds`: every interleaving of the pool.
- `Engine.ServeAll`, `PubSub.PerformAll`, `StorageHooks.PerformThenRestart`, `Commands.TypeThenRestart`:
  the objects, called in any order, follow those runs.
- `PubSub.DeliveredInOrder`, `BufferPools.EveryRunAccounts`, `Arena.AlignUpIsLeast`, `Counters.CounterRun`,
  `Glob.MatchesIsGlobIff`.

How the program's terms are modelled:

- The hash is a parameter of every definition. The load test compares `4 * size` with `3 * buckets`
  instead of dividing floats.
- The clock is a class whose readings never decrease; times and time-to-live values are whole ticks,
  and EXPIRE counts a second as 10^9 of them.
- On start the server loads a snapshot if there is one and replays the log only if there is none; both
  are also described over a store that is not empty.
- Files are strings. `std::getline`, `std::stoull` and `std::stoll` are written out, including signs,
  white space, trailing text, range errors and missing digits; an escaping exception is an outcome.
- Sizes are unbounded naturals. The 64-bit width is explicit where it is observable: cursors, counters,
  the snapshot count, and the word of the arena's mask formula.
- A callback given to `for_each` is modelled by the sequence of its calls.
- What a pool thread does under the mutex is one step; notifies, spurious wakeups and joins are steps
  of their own.
- A `char*` of the buffer pool is a slab number and a block index into an array per slab.

Where code and expectation part, the code is followed: `exists` and `entry_count` count expired keys,
`set` drops a deadline, `set_ttl` revives an expired key that was not swept, SCAN with COUNT 0 is
finished at once, and the pattern `**` is the suffix `*`.

## Model

| member | source | states |
|---|---|---|
| Buckets.LookupIsContents | src/storage/hash_table.cpp:39-49 | In a well-formed table, searching a key's own bucket finds exactly what the map of all bindings holds for it |
| Buckets.KeysAtHome | src/storage/hash_table.cpp:18-20 | Every link stands in bucket hash(key) mod bucket count, where looking its key up finds it |
| Buckets.PutRefines | src/storage/hash_table.cpp:22-34 | Overwriting in place or linking a new head is the map update m[k := e]; placement and distinctness are kept; the size grows by one exactly for a new key |
| Buckets.EraseRefines | src/storage/hash_table.cpp:51-70 | Unlinking removes exactly that key from the map and lowers the size exactly when it was there |
| Buckets.GrowRefines | src/storage/hash_table.cpp:81-92 | Re-inserting every binding into twice as many buckets keeps the map, the size and well-formedness |
| Buckets.InsertRefines | src/storage/hash_table.cpp:22-37 | An insert with its possible growth is the map update and leaves the table well formed and at most three quarters full |
| Buckets.InsertWithRoom | src/storage/hash_table.cpp:76-93 | While there is room for one more key an insert cannot trigger growth, so a refill never rehashes again |
| Buckets.InsertBuckets | src/storage/hash_table.cpp:76-83 | The bucket count doubles exactly when a new key would fill more than three quarters of the buckets, and otherwise stays |
| Buckets.WalkIsContents | include/voltdbx/storage/hash_table.hpp:48-57 | `for_each` meets every binding of the map exactly once and nothing else; `size_` is the map's cardinality |
| Buckets.EmptyIsEmpty | src/storage/hash_table.cpp:7-12 | Fresh or cleared buckets hold the empty map and meet the load bound |
| TableRuns.StepRefines | src/storage/hash_table.cpp:22-105 | Each operation keeps the table invariant and answers and acts as the same operation on a map |
| TableRuns.TableRunRefinesMap | src/storage/hash_table.cpp:22-105 | For every hash and every run of insert, find, erase and clear: same answers and same final map as a finite map, at least 16 buckets, load at most 3/4, size equal to cardinality, keys distinct in the walk |
| HashTables.HashTable.constructor | src/storage/hash_table.cpp:7-12 | At least 16 empty buckets |
| HashTables.HashTable.Locate | src/storage/hash_table.cpp:23-31 | The pointer walk ends at the key's first link in its home bucket, with its predecessor, or at null exactly when the key is absent |
| HashTables.HashTable.Insert | src/storage/hash_table.cpp:22-37 | The linked nodes afterwards hold Buckets.Insert of the old chains; true exactly for a new key; its mutual recursion with the rehash terminates |
| HashTables.HashTable.Overwrite | src/storage/hash_table.cpp:26-29 | Writing the found node changes that one binding of the table and no other |
| HashTables.HashTable.LinkHead | src/storage/hash_table.cpp:32-34 | The new node becomes the head of its chain; every other chain is untouched |
| HashTables.HashTable.RehashIfNeeded | src/storage/hash_table.cpp:76-93 | Leaves a balanced table unchanged and grows an overfull one; the result meets the load bound |
| HashTables.HashTable.Double | src/storage/hash_table.cpp:81-92 | The doubled table is Buckets.Grow of the old one and needs no second growth |
| HashTables.HashTable.MoveChain | src/storage/hash_table.cpp:85-92 | Moving one chain inserts its bindings in order, without growth |
| HashTables.HashTable.Find | src/storage/hash_table.cpp:39-49 | Returns the entry the table holds for the key, if any |
| HashTables.HashTable.Contains | src/storage/hash_table.cpp:72-74 | True exactly when the key is in the table |
| HashTables.HashTable.Erase | src/storage/hash_table.cpp:51-70 | The linked nodes afterwards hold Buckets.Erase of the old chains; true exactly when the key was there |
| HashTables.HashTable.UnlinkAfter | src/storage/hash_table.cpp:57-58 | Linking around a node drops that one binding from its chain |
| HashTables.HashTable.UnlinkHead | src/storage/hash_table.cpp:59-61 | Advancing the bucket head drops the first binding of that chain |
| HashTables.HashTable.Clear | src/storage/hash_table.cpp:95-105 | Same number of buckets, all empty, size zero |
| HashTables.HashTable.ForEach | include/voltdbx/storage/hash_table.hpp:48-57 | The callback receives the bindings in walk order |
| HashTables.HashTable.ForEachBucket | include/voltdbx/storage/hash_table.hpp:59-71 | The callback receives one bucket's links with their indices; nothing beyond the last bucket |
| Glob.MatchesIsGlob | src/storage/key_scanner.cpp:7-27 | For patterns with stars only at their ends the filter is the recursive glob relation, for every key |
| Glob.MatchesIsGlobIff | src/storage/key_scanner.cpp:7-27 | The filter agrees with the glob relation on all keys exactly for non-empty patterns other than `**` whose stars are first or last |
| Glob.OddPatterns | src/storage/key_scanner.cpp:7-27 | What the filter answers outside the glob reading: the empty pattern takes every key, `**` the keys that end in a star, inner stars stand for themselves |
| Scanner.Scan | src/storage/key_scanner.cpp:29-63 | The paging loop over buckets returns PageAt: the next COUNT matching keys and the position after the last one |
| Scanner.VisitBucket | src/storage/key_scanner.cpp:40-53 | The callback skips links before the cursor, stops at a full page and otherwise leaves the rest of the walk to the next bucket |
| Paging.CollectSplits | src/storage/key_scanner.cpp:36-63 | A page and what follows its cursor are together exactly the matching keys from the old cursor on; a page is finished exactly when it has fewer than COUNT keys; an unfinished cursor has chain > 0 and moves forward |
| Paging.PageIs | src/storage/key_scanner.cpp:29-63 | A page is the first min(COUNT, left) matching keys from the cursor on; it is finished exactly when fewer than COUNT are left or COUNT is 0; its cursor leaves exactly the others |
| Paging.CollectStops | src/storage/key_scanner.cpp:47-60 | An unfinished cursor stands right after the link of the last returned key; a finished one stands past the last bucket |
| Paging.PagesAreRest | src/storage/key_scanner.cpp:29-63 | Passing cursors back until finished returns exactly the matching keys at and after the first cursor, and ends |
| Paging.FullScan | src/storage/key_scanner.cpp:29-63 | From the start, the pages of a fixed table are the `for_each` order filtered by the pattern |
| Paging.ScannedIffAhead | src/storage/key_scanner.cpp:36-63 | A key is still to come exactly when it matches, is in the table, and its (bucket, index) is at or after the cursor |
| ScanUnderChange.PutKeepsAhead | src/storage/hash_table.cpp:22-34 | Head insertion and overwriting keep every key that was ahead of a cursor ahead of it |
| ScanUnderChange.PageCovers | src/storage/key_scanner.cpp:36-63 | A matching key ahead of the cursor is on the page or ahead of the page's cursor |
| ScanUnderChange.ScanRunFindsAll | src/storage/key_scanner.cpp:36-61 | With inserts and overwrites but no growth between pages, a SCAN run that finishes has returned every matching key present from its start |
| ScanUnderChange.DoublingKeepsOrder | src/storage/hash_table.cpp:18-20 | Doubling the bucket count sends a bucket to itself or to its copy in the upper half |
| ScanUnderChange.LaterKeyIsScanned | src/storage/hash_table.cpp:76-93 | After any inserts, overwrites, doublings and erases of other keys, a key in a bucket after the cursor's is returned by the remaining pages |
| ScanUnderChange.EraseHidesExactly | src/storage/hash_table.cpp:57-64 | An erase takes a pending key out of the remaining pages exactly when that key was the cursor's very next link and the erased one was before it in the chain |
| ScanUnderChange.EraseCanHide | src/storage/key_scanner.cpp:36-61 | A concrete table and cursor where that happens |
| ScanHandler.DecodeUndoesEncode | src/protocol/scan_handler.cpp:8-28 | Every 64-bit cursor survives its text form, and only the start prints as `0` |
| ScanHandler.CursorForms | src/protocol/scan_handler.cpp:8-21 | Nothing means the start, a bare number a bucket, and number:number a bucket and a chain index |
| ScanHandler.OptionsRead | src/protocol/scan_handler.cpp:35-43 | For every list of options and stray words: the last COUNT and the last MATCH count, 10 and `*` without them, a lone last option and other words count for nothing, and a COUNT that is no number throws |
| ScanHandler.EveryRequest | src/protocol/scan_handler.cpp:37-43 | Every argument list is such a list, so OptionsRead covers all requests |
| ScanHandler.ReplyShows | src/protocol/scan_handler.cpp:30-53 | The reply to any request that parses decodes to the next cursor and the first min(COUNT, left) matching keys from its cursor on; the cursor is `0` exactly when fewer are left or COUNT is 0 |
| ScanHandler.BareReply | src/protocol/scan_handler.cpp:34-53 | `SCAN token` shows the first min(10, left) keys from the cursor on |
| ScanHandler.CountReply | src/protocol/scan_handler.cpp:34-53 | `SCAN token COUNT n` shows the first min(n, left) keys from the cursor on |
| ScanHandler.MatchReply | src/protocol/scan_handler.cpp:34-53 | `SCAN token MATCH p` shows the first min(10, left) keys from the cursor on that match p |
| ScanHandler.ThrowsIff | src/protocol/scan_handler.cpp:34-43 | A request throws exactly when its cursor or one of its counts does not parse |
| ScanHandler.PageStep | src/protocol/scan_handler.cpp:44-45 | The reply's cursor is `0` exactly for a finished page; otherwise it decodes to where the walk stopped |
| ScanHandler.HandleScan | src/protocol/scan_handler.cpp:30-53 | The argument check, the option loop and the reply text make ScanResponse, whose value OptionsRead, ReplyShows and ThrowsIff give for every request |
| ScanHandler.WriteReply | src/protocol/scan_handler.cpp:46-52 | The reply is the two-element array text of the cursor and the keys |
| ScanHandler.ScanReplyEncodes | src/protocol/scan_handler.cpp:46-52 | A RESP decoder reads the cursor and the exact key list back, for any bytes in the keys, and consumes the reply whole |
| ScanHandler.ScanClient | src/protocol/scan_handler.cpp:30-53 | A client that starts at `0`, repeats any options with a positive count, decodes each reply and sends each cursor back until `0` ends with the matching keys of the store in walk order, each exactly once |
| ScanHandler.BareScanClient | src/protocol/scan_handler.cpp:30-53 | A client that sends only `SCAN token` collects every key of the store exactly once |
| ScanHandler.FetchPage | src/protocol/scan_handler.cpp:30-53 | One request and its decoded reply are one page of the store |
| Ttl.StepKeepsSwept | src/storage/storage_engine.cpp:22-80 | Every operation but a reviving set_ttl keeps a swept and an unswept store equal up to expired entries, and get answers alike on both |
| Ttl.CallsAnswer | src/storage/storage_engine.cpp:22-42 | At any time get answers v after set(k, v), nothing after remove, clear_all or for an absent key, and the stored value of a key without deadline |
| Ttl.OthersKept | src/storage/storage_engine.cpp:22-102 | A call changes neither the entry nor the answer of any other key |
| Ttl.LastSetAnswers | src/storage/storage_engine.cpp:22-42 | In every run with sweeps: a key last written by set answers that value at any time, and one last removed or cleared answers nothing |
| Ttl.NeverSetAnswers | src/storage/storage_engine.cpp:29-38 | A key never set in a run answers nothing |
| Ttl.DeadlineAnswers | src/storage/storage_engine.cpp:52-61 | In every run with sweeps: a key set, then given a deadline, then left alone answers its value exactly before the deadline |
| Ttl.TouchAnswers | src/storage/storage_engine.cpp:71-80 | The same with a later touch, which moves the deadline by the time between its two readings |
| Ttl.AppendEvent | src/storage/storage_engine.cpp:29-38 | A get at the end of a run answers from the store the run has left |
| Ttl.DeadlineIsExact | src/storage/storage_engine.cpp:52-80 | After set_ttl the key answers its value before now + ttl and nothing from then on; touch keeps the time left of any stored key |
| Ttl.SweepsAreInvisible | src/storage/storage_engine.cpp:92-102 | With a monotone clock, sweeps inserted anywhere in a run that revives no expired key change no answer of get |
| Ttl.RevivalIsVisible | src/storage/storage_engine.cpp:52-61 | The condition is needed: wherever set_ttl revives an expired key, a sweep just before it changes the next get |
| Engine.Clock.Read | src/storage/storage_engine.cpp:68-68 | Readings never go backwards |
| Engine.StorageEngine.Set | src/storage/storage_engine.cpp:22-27 | Stores the value without a deadline, dropping any earlier one |
| Engine.StorageEngine.Get | src/storage/storage_engine.cpp:29-38 | Exactly the stored value when the key is stored without deadline or before it, at the time of the reading; nothing otherwise |
| Engine.StorageEngine.Remove | src/storage/storage_engine.cpp:40-42 | Removes the key; true exactly when it was stored, expired or not |
| Engine.StorageEngine.Exists | src/storage/storage_engine.cpp:44-46 | True for every stored key, expired ones included |
| Engine.StorageEngine.EntryCount | src/storage/storage_engine.cpp:48-50 | Number of stored keys, expired ones included |
| Engine.StorageEngine.SetTtl | src/storage/storage_engine.cpp:52-61 | Gives a stored key the deadline now + ttl and keeps its value; false and no change when absent |
| Engine.StorageEngine.IsExpired | src/storage/storage_engine.cpp:63-69 | True exactly for a stored key whose deadline has been reached |
| Engine.StorageEngine.Touch | src/storage/storage_engine.cpp:71-80 | Moves a deadline by the time between its two readings; nothing else changes |
| Engine.StorageEngine.PurgeExpired | src/storage/storage_engine.cpp:92-102 | Removes every entry expired when the sweep starts and none whose deadline lies after its last reading; everything else stays |
| Engine.StorageEngine.ExpiredAmong | src/storage/storage_engine.cpp:94-98 | The collecting loop, one reading per entry with a deadline |
| Engine.StorageEngine.ClearAll | src/storage/storage_engine.cpp:110-113 | Empties the table and keeps its buckets |
| Engine.StorageEngine.DumpEntries | src/storage/storage_engine.cpp:115-121 | Keys and values in walk order, deadlines dropped, expired entries included |
| Engine.StorageEngine.ScanKeys | src/storage/storage_engine.cpp:104-108 | The page of the engine's own table |
| Engine.Serve | src/storage/storage_engine.cpp:22-113 | Each call acts and answers as one timed event of the run model, with its own clock readings |
| Engine.ServeAll | src/storage/storage_engine.cpp:22-113 | Any calls in any order on the engine make a legal run, end in that run's store and answer what that run answers |
| Text.ReadPrinted | src/storage/counter_store.cpp:9-18 | Reading a printed integer back gives it, whatever non-digit follows |
| Text.StoullPrint | src/protocol/scan_handler.cpp:18-19 | Unsigned decimal print/parse round trip over the 64-bit range |
| Text.WordLimits | src/storage/counter_store.cpp:13-18 | For every printed integer: stoll and stoull refuse what does not fit 64 bits, and stoull wraps negatives |
| Text.ReadTyped | src/storage/counter_store.cpp:9-14 | White space before a numeral, a plus sign and text after it are passed over |
| Text.PrintIsDecimal | src/storage/counter_store.cpp:16-18 | Numerals are decimal without leading zeros |
| TextLines.LinesOfUnlines | src/persistence/aof_log.cpp:13-20 | Lines written with terminators are the lines getline reads back |
| TextLines.LastLine | src/persistence/aof_log.cpp:39-40 | A last line without its newline is read too |
| AofLogs.ApplySetLine | src/persistence/aof_log.cpp:41-48 | A SET line written for a key without spaces stores exactly that key and value |
| AofLogs.ApplyDelLine | src/persistence/aof_log.cpp:49-51 | A DEL line removes exactly that key, spaces included |
| AofLogs.LastLineDecides | src/persistence/aof_log.cpp:34-54 | Over any store: the last line that names a key decides whether it is stored and with which value |
| AofLogs.UnnamedStays | src/persistence/aof_log.cpp:34-54 | A key that no line names keeps what the store held before the replay; other lines do nothing |
| AofLogs.ReplayOverIff | src/persistence/aof_log.cpp:34-54 | Replaying over a store gives what replaying over an empty one gives exactly when the lines name every key the store held |
| AofLogs.AppendReplays | src/persistence/aof_log.cpp:13-32 | An appended line takes effect after everything already in the log |
| AofLogs.ReplayIsClean | src/persistence/aof_log.cpp:34-54 | No log text can replay to a key with a space or newline or to a value with a newline |
| AofLogs.RewriteTextReplays | src/persistence/aof_log.cpp:63-75 | The compacted log replays to the map of the dumped pairs, and over any store to that store with the pairs put over it |
| AofLogs.RewriteTextIs | src/persistence/aof_log.cpp:70-74 | The compacted text is the header line and a SET line per pair in order |
| AofLogs.StoreRewriteIff | src/persistence/aof_log.cpp:63-75 | A table's key-to-value map survives compaction and replay exactly when its keys have no space or newline and its values no newline |
| AofLogs.DumpHolds | src/storage/storage_engine.cpp:115-121 | The dump lists each stored key once, with its value, and nothing else |
| StorageHooks.SetKeepsInStep | src/storage/storage_hooks.cpp:8-14 | A clean set keeps the log replaying to the store |
| StorageHooks.RemoveKeepsInStep | src/storage/storage_hooks.cpp:16-22 | A remove of any key keeps the log replaying to the store |
| StorageHooks.RewriteKeepsInStep | src/persistence/aof_log.cpp:63-88 | Compaction keeps the log replaying to the store, so later appends still mean the same |
| StorageHooks.LogTracksStoreIff | src/storage/storage_hooks.cpp:8-22 | For every run of hook sets, hook removes and compactions: the log replays to the key-to-value map that the calls so far make on a plain map, after every step, exactly when no set key has a space or newline and no set value a newline |
| StorageHooks.RunStores | src/storage/storage_hooks.cpp:8-22 | The table after every run holds the fold of its calls over a plain map: set updates, remove removes, compaction leaves it |
| StorageHooks.RunLogs | src/storage/storage_hooks.cpp:8-22 | The log after every run is the last compacted file followed by one line per set and per remove of a stored key since |
| StorageHooks.PerformThenRestart | src/server/database_server.cpp:34-36 | Calls made on a new engine and log, then a second engine started from the log: the first holds the fold of the calls, the second its values when every set was clean |
| StorageHooks.AofLog.AppendSet | src/persistence/aof_log.cpp:22-26 | Appends one SET line |
| StorageHooks.AofLog.AppendDel | src/persistence/aof_log.cpp:28-32 | Appends one DEL line |
| StorageHooks.AofLog.Replay | src/persistence/aof_log.cpp:34-54 | Applies the file's lines in order to any engine |
| StorageHooks.AofLog.RewriteFrom | src/persistence/aof_log.cpp:63-88 | Replaces the file by a header and one SET line per dumped entry |
| StorageHooks.StorageHooks.Set | src/storage/storage_hooks.cpp:8-14 | The store is updated at the key and one SET line is appended to the log |
| StorageHooks.StorageHooks.Remove | src/storage/storage_hooks.cpp:16-22 | The key leaves the store, true exactly when it was there, and then one DEL line is appended; otherwise the log is unchanged |
| Snapshot.OneLinersLoad | src/persistence/snapshot.cpp:14-66 | Loading a written snapshot over any store puts its pairs over it, when no key or value contains a newline |
| Snapshot.CountedPairsLoad | src/persistence/snapshot.cpp:52-65 | A file loads as many of its pairs as its count line says, or all when there are fewer |
| Snapshot.CountLine | src/persistence/snapshot.cpp:52-56 | The count line reads as its leading number, as the largest word beyond 64 bits, and as zero without digits |
| Snapshot.PairLinesAre | src/persistence/snapshot.cpp:22-24 | Two lines a pair, the key before its value |
| Snapshot.SnapshotRoundTripIff | src/persistence/snapshot.cpp:14-66 | Loading a written snapshot restores the map exactly when no key and no value contains a newline |
| Snapshot.StoreSnapshotIff | src/persistence/snapshot.cpp:14-66 | A table's key-to-value map survives write and load exactly when none of its keys and values contains a newline |
| Snapshot.Write | src/persistence/snapshot.cpp:14-26 | Header, count, then key and value lines of the dump |
| Snapshot.LoadInto | src/persistence/snapshot.cpp:39-66 | True exactly when the first line is the header; then sets up to count pairs, stopping at the end of the file |
| Parser.Trim | src/protocol/parser.cpp:10-20 | The part of the line between leading and trailing white space |
| Parser.Tokenize | src/protocol/parser.cpp:22-30 | The white-space separated tokens in order |
| Parser.ParseLine | src/protocol/parser.cpp:34-50 | Nothing exactly for a line without tokens; otherwise name and arguments are the tokens of the line in order |
| Parser.TokensOfTrimmed | src/protocol/parser.cpp:34-39 | Trimming changes no token |
| Parser.TokensOfJoin | src/protocol/dispatcher.cpp:126-130 | Tokens joined with single spaces are read back as they were |
| Parser.JoinConcat | src/protocol/dispatcher.cpp:126-130 | Exactly one space stands between joined words |
| Parser.CommandIsTokens | src/protocol/parser.cpp:43-49 | The name is the first token and the arguments are the others in order |
| Commands.HandleSet | src/protocol/dispatcher.cpp:122-133 | Too few arguments change nothing; otherwise the store is updated at the first argument with the others joined by spaces |
| Commands.HandleMset | src/protocol/batch_handler.cpp:25-35 | A wrong argument count changes nothing; otherwise the store gets the pairs in order |
| Commands.CollectPairs | src/protocol/batch_handler.cpp:29-32 | Arguments two by two |
| Commands.PairUpIs | src/protocol/batch_handler.cpp:29-32 | Pair i is (argument 2i, argument 2i + 1), and there are half as many pairs as arguments |
| Commands.LastPairWins | src/storage/batch_ops.cpp:17-25 | The last pair with a key decides its value |
| Commands.UnpairedStays | src/storage/batch_ops.cpp:17-25 | A key in no pair keeps its entry |
| Commands.Mset | src/storage/batch_ops.cpp:17-25 | Sets every pair in order and counts them |
| Commands.Mget | src/storage/batch_ops.cpp:7-15 | One answer per key, each as get gives it at its own, non-decreasing time |
| Commands.HandleMget | src/protocol/batch_handler.cpp:8-23 | A RESP decoder consumes the reply whole and gets exactly the optional values |
| Commands.HandleDelete | src/protocol/dispatcher.cpp:41-47 | Removes the key and answers 1 or 0 by whether it was stored; a wrong argument count changes nothing |
| Commands.HandleExpire | src/protocol/dispatcher.cpp:79-88 | Gives a stored key the deadline now plus the seconds and answers 1; 0 when absent; throws on a bad number |
| Commands.HandleCounter | src/protocol/counter_handler.cpp:6-26 | INCR, DECR and INCRBY count by 1, -1 and the argument; the reply is the stored value, and there is none exactly when a number does not parse or the sum overflows |
| Commands.RunLine | src/protocol/dispatcher.cpp:136-143 | Parsing and dispatching any line changes the engine's store as LineEffect says |
| Commands.TypedSet | src/protocol/dispatcher.cpp:122-133 | The line `SET k words` in any letter case updates k with the words joined by single spaces |
| Commands.TypedDelete | src/protocol/dispatcher.cpp:41-47 | The line `DEL k` or `DELETE k` removes k |
| Commands.TypedMset | src/protocol/batch_handler.cpp:25-35 | The line `MSET k1 v1 k2 v2 ...` sets those pairs in order |
| Commands.TypedStep | src/protocol/counter_handler.cpp:6-18 | INCR and DECR of an absent key store 1 and -1 |
| Commands.TypedIncrby | src/protocol/counter_handler.cpp:20-26 | INCRBY of an absent key stores the amount |
| Commands.TypedExpire | src/protocol/dispatcher.cpp:79-88 | EXPIRE keeps the value and sets the deadline |
| Commands.SetNames | src/protocol/command.cpp:10-42 | SET and MSET are recognised in both letter cases |
| Commands.DeleteNames | src/protocol/command.cpp:10-42 | DEL and DELETE name the same command in both letter cases |
| Commands.CounterNames | src/protocol/command.cpp:10-42 | INCR, DECR and INCRBY in both letter cases |
| Commands.OtherNames | src/protocol/command.cpp:10-42 | FLUSHDB and EXPIRE in both letter cases; GET and SCAN only read |
| Commands.TypedStoreSurvives | src/protocol/dispatcher.cpp:23-134 | Whatever lines are typed, at whatever times, and whatever sweeps take out: a table that holds the resulting store keeps its exact key-to-value map through snapshot and load and through log compaction and replay |
| Commands.TypeThenRestart | src/server/database_server.cpp:30-33 | Lines sent to a new server, then its snapshot loaded by another: both hold the store the lines make |
| Resp.ElementEncodes | src/protocol/response.cpp:17-23 | One bulk or null bulk element decodes to its value, CR LF in the payload included, and leaves what follows |
| Resp.ArrayEncodes | src/protocol/batch_handler.cpp:13-22 | A head and that many encoded parts decode to the array of the parts, nested arrays included |
| Counters.CounterKeepsCount | src/storage/counter_store.cpp:20-25 | A printed number without deadline counts exactly through any run that leaves its key alone |
| Counters.CounterRun | src/storage/counter_store.cpp:9-37 | From any store where the key reads as v, every increment returns v plus the sum so far, a later read agrees, and the key has lost its deadline |
| Counters.CounterFromNothing | src/storage/counter_store.cpp:9-25 | An absent, expired or empty key counts from zero: the first increment by d returns d and stores it |
| Counters.CounterOverText | src/storage/counter_store.cpp:9-25 | A stored number counts on whatever non-digits follow it; text that is no number throws and stays |
| Counters.CounterStore.Increment | src/storage/counter_store.cpp:20-25 | Reads, adds and stores the printed sum; exceptions and signed overflow are outcomes of their own |
| Counters.CounterStore.Decrement | src/storage/counter_store.cpp:27-29 | An increment by the negated amount |
| Counters.CounterStore.Read | src/storage/counter_store.cpp:31-37 | Nothing for an absent or expired key, else the parsed value |
| ThreadPool.StepConserves | src/concurrency/thread_pool.cpp:51-67 | Every step keeps accepted == started + queue and started == finished + running |
| ThreadPool.StepLosesNoWakeup | src/concurrency/thread_pool.cpp:18-37 | Every step keeps enough awake workers and pending notifies for the queued tasks |
| ThreadPool.EveryRunIsOrderly | src/concurrency/thread_pool.cpp:18-67 | In every interleaving tasks start in the order their enqueue calls pushed them, at most once; started and queued are together the pushed tasks; a worker exits only after shutdown was called and every pushed task started; when the joining shutdown has returned, every pushed task has run exactly once |
| ThreadPool.EveryRunAccepts | src/concurrency/thread_pool.cpp:5-27 | In every interleaving: at least one worker, and as many as asked for; exactly the pushed tasks are accepted; every push owes one notify; enqueue is accepted exactly until shutdown is called |
| ThreadPool.EveryRunKeepsWakeups | src/concurrency/thread_pool.cpp:18-37 | In every interleaving, while a worker sleeps there are at least as many looking workers and pending notifies as queued tasks, and a sleeper during shutdown has the notify_all ahead |
| ThreadPool.ExitIsFinal | src/concurrency/thread_pool.cpp:56-59 | Once a worker has exited, nothing is queued or accepted any more |
| ThreadPool.NeverStuck | src/concurrency/thread_pool.cpp:29-44 | With a task queued or a shutdown under way some step of the pool itself is enabled |
| ThreadPool.ShutdownEnds | src/concurrency/thread_pool.cpp:29-44 | After any run that has called shutdown, every continuation is bounded, and one that can go no further has returned from shutdown with every pushed task run exactly once |
| ThreadPool.RestingPoolHasRunAll | src/concurrency/thread_pool.cpp:51-67 | With or without shutdown, a pool that can do nothing more of its own has run every pushed task exactly once |
| PubSub.ChannelRegistry.Subscribe | src/pubsub/channel_registry.cpp:7-17 | Adds to both indexes unless already there |
| PubSub.ChannelRegistry.Unsubscribe | src/pubsub/channel_registry.cpp:19-31 | Removes from both indexes where a list exists |
| PubSub.ChannelRegistry.UnsubscribeAll | src/pubsub/channel_registry.cpp:33-47 | Removes the subscriber from each of its channels and drops its own list |
| PubSub.SessionMailbox.Enqueue | src/pubsub/session_mailbox.cpp:7-10 | Appends to one queue |
| PubSub.SessionMailbox.TryDequeue | src/pubsub/session_mailbox.cpp:12-21 | Takes the oldest message, or reports none |
| PubSub.PubSubBroker.Wire | src/pubsub/session_mailbox.cpp:28-32 | Later publishes go to this mailbox |
| PubSub.PubSubBroker.Publish | src/pubsub/broker.cpp:11-19 | Returns the number of ids listed for the channel, appends one copy of the message per listing to each listed id's queue and changes no other queue |
| PubSub.PublishReaches | src/pubsub/broker.cpp:11-19 | After every run publish counts the ids subscribed to the channel at that point, appends the message exactly once to the queue of each and changes no other |
| PubSub.Perform | src/pubsub/broker.cpp:11-19 | Every event carried out on the registry, broker and mailbox objects is one step of the run model |
| PubSub.PerformAll | src/pubsub/broker.cpp:11-19 | On new, wired objects any run of calls hands every subscriber the oldest messages published to its channels while subscribed, one per dequeue that found any |
| PubSub.RunIndexes | src/pubsub/channel_registry.cpp:7-47 | After every run both maps list exactly the subscribed pairs, each once, so they are inverse |
| PubSub.UnsubscribeAllLeavesNone | src/pubsub/channel_registry.cpp:33-47 | After unsubscribe_all no channel lists the subscriber |
| PubSub.DeliveredInOrder | src/pubsub/broker.cpp:11-19 | For every run and subscriber, what was dequeued followed by what waits is exactly what was published to its channels while subscribed, once each and in order |
| PubSub.DequeuedInOrder | src/pubsub/session_mailbox.cpp:12-21 | For every run what a subscriber has dequeued is the first part of what it was meant to get, as long as the number of its dequeues that found a message, and the rest waits |
| BufferPools.AcquiredInv | src/memory/buffer_pool.cpp:14-30 | Acquiring yields a block not held before, of at least the requested size and the block size, and keeps the pool invariant |
| BufferPools.AcquiredFrom | src/memory/buffer_pool.cpp:14-30 | The free block pushed last is taken first; without free blocks a slab of 64 is carved; an oversize request gets its own slab and takes no free block |
| BufferPools.ReleasedInv | src/memory/buffer_pool.cpp:32-38 | Releasing a held block keeps the pool invariant |
| BufferPools.BlocksApart | src/memory/buffer_pool.cpp:5-30 | Different blocks are disjoint stretches inside their slabs |
| BufferPools.EveryRunAccounts | src/memory/buffer_pool.cpp:40-52 | Over every run where clients release only held blocks: free and held blocks are exactly the blocks of the slabs, free + held <= allocated_blocks, with equality exactly when every request was under two blocks |
| BufferPools.EveryRunKeepsApart | src/memory/buffer_pool.cpp:5-38 | Over every such run any two free or held blocks are disjoint stretches inside their slabs |
| BufferPools.BufferPool.constructor | src/memory/buffer_pool.cpp:5-12 | One slab carved into free blocks |
| BufferPools.BufferPool.Acquire | src/memory/buffer_pool.cpp:14-30 | Oversize request, refill or pop, exactly as the specification; existing slabs stay where they are |
| BufferPools.BufferPool.Release | src/memory/buffer_pool.cpp:32-38 | Pushes the block back; null is ignored; no byte changes |
| BufferPools.BufferPool.AllocatedBlocks | src/memory/buffer_pool.cpp:40-47 | Sum of slab sizes over the block size, at least free plus held |
| BufferPools.StringPool.Copy | src/memory/string_pool.cpp:9-19 | Returns its source; a pool with free blocks is as before; no block held by others loses a byte |
| Arena.MaskClears | src/memory/arena_allocator.cpp:17-17 | Masking with ~(2^k - 1) subtracts the remainder modulo 2^k |
| Arena.AlignUpIsLeast | src/memory/arena_allocator.cpp:17-17 | Without overflow the mask formula is the least multiple of the alignment not below the offset |
| Arena.ArenaAllocator.Allocate | src/memory/arena_allocator.cpp:12-26 | The region starts at the aligned offset of the last block when it fits, else at 0 of a new block of max(block_size, size), and no other block changes; it is in bounds, aligned and apart from all regions since the last reset; bytes_allocated is the sum of sizes |
| Arena.ArenaAllocator.AllocateLast | src/memory/arena_allocator.cpp:16-25 | The same on an arena with blocks; its recursion ends after one new block |
| Arena.ArenaAllocator.Reset | src/memory/arena_allocator.cpp:28-33 | All blocks are kept and empty, no region is live, zero bytes allocated |

## Left out

- Sockets, accept loops, epoll and kqueue, client sessions, signals and the server main program.
- Filesystem errors, flushing, torn writes and a failing rename: a file operation succeeds as a whole.
- Concurrent use of the engine and the table, which take no lock; `rewrite_from` dumps before it locks, so its results are about sequential runs.
- Real threads and sleeping in the TTL and snapshot schedulers: a sweep or snapshot is an operation that may happen at any point.
- Tasks that throw, empty `std::function` tasks and the second, non-joining call of `shutdown`, which changes nothing.
- `SessionMailbox::clear` and `bind`, `channels_for`, `ttl_key_count`, `ArenaObjectPool` and statistics counters: easy members.
- The replies of the dispatcher's reading commands other than MGET and SCAN, authentication, configuration, metrics and logging.
- Node deletion and moved-from strings; the engine's arena, which nothing allocates from, and its string pool, whose copies are proved to equal their source.
- The float rounding of the load factor.
- BufferPools.BufferPool.constructor: a block size of zero is excluded, since `allocated_blocks` then divides by zero.
- BufferPools.BufferPool.Release: assumes the client holds the block; a double release is not modelled.
- Arena.ArenaAllocator.Allocate: assumes a power-of-two alignment and that offset, alignment and size do not overflow `size_t`.
- Commands.TypedStoreSurvives: assumes fewer than 2^64 keys, as `size_t` does.
- ScanHandler.ScanClient: assumes table positions and COUNT fit 64 bits, as the program's types do.
- Commands.HandleExpire: the deadline is an unbounded count of nanoseconds, so the overflow of a huge time-to-live is not modelled.
- Counters.CounterStore.Increment: a sum outside 64 bits is reported as an overflow and not stored, where the program has undefined behaviour.
