# A verified model of lazy schema updates on Redis

The system stores versioned data in Redis and migrates it when it is read. It has a
Python client layer (`lazyupdredis`), a server-side layer (`kvolve`) and the Redis
2.8.17 core both run on. This project models the parts whose correctness is hard to
see and proves what they are for. `dafny verify dfyconfig.toml` checks all of it.

## What is modelled

- **The hash table and its scan (`dict.c`).** `DictModel` and `DictOps` give the
  two-table dictionary as a value with one function per operation and show that every
  operation acts on both tables together as on one finite map. `Dict` is the class with
  two bucket arrays, proved equal to those functions. `DictScan` and `DictScanRuns` treat
  the bit-reversed cursor: which calls are complete, what a whole scan covers while the
  dictionary changes, and how long it takes. `DictShrink` is a scan that loses a key.
  `DictScanner` is `dictScan` itself.
  `DictIter` and `DictIterator` treat safe iteration. `Words` holds machine words as bit
  sequences, least significant bit first; `Rank` of a word is the number held by its bit
  reversal.
- **The lazy update protocol (`lazyupdredis.py`).** `Lazy` is a state machine whose steps
  are single Redis commands of `get`, `set`, `delete` and the version bump, interleaved
  freely between clients. Its specification is the eager system that migrates every key
  at upgrade time. `LazyGets` treats the answers of `get`, call by call, and the runs that
  differ from the eager system.
- **The append-only log (`aof.c`).** `AofCodec` prints and parses the log, `AofData` is
  the meaning of the logged commands and the rewriter, `Aof` the server's log state:
  feeding, flushing with failing writes, the background rewrite, stop and start.
- **HyperLogLog (`hyperloglog.c`).** `HllSparse` edits the run-length encoding,
  `HllDense` the packed registers, `Hll` is the object with additions, promotion and
  merges, `HllSum` the three ways of summing registers.
- **JSON diff and patch (`json_delta_original.py`).** `JsonDelta` applies and sorts
  stanzas, `JsonDiff` computes them and closes the round trip.
- **Server-side migration (`kvolve_internal.c`).** `Kvolve` has version chains and
  migration on read, `KvolveLookup` the namespace lookup.
- **Byte kernels (`intset.c`, `bitops.c`).** `Intset` with `IntsetBytes`, `Popcount`,
  `BitPos`, `BitOp`, over the byte arithmetic of `Bytes`.

Outcomes of system calls, the fork, random choices and the iteration order of sets are
parameters or nondeterministic choices, so each result holds for all of them. Hash
functions, user update functions and the length of printed JSON are arbitrary
functions. Bit operations on numbers are written as arithmetic on their digits.

Some statements about the code are false as one would first put them. Each is replaced by
the exact condition, with a run or input that shows the failure:

- A scan call made while the table is shrinking to a quarter or less can pass over
  buckets. `DictScan.CompleteIffSteppable` gives the exact cursors for which it does not;
  `DictShrink.ShrinkLoses` is a resize from 16 to 4 buckets after which a scan ends without
  ever having emitted the one key that was there all along.
- Bucket indices are returned as an `int`. `DictModel.IndexSurvives`: this is harmless
  exactly up to 2^31 buckets, the bound used throughout; at 2^32 the last bucket reads as
  "key present".
- The text `#### ####`, which the client stores for a missing key, cannot be used as a
  value. A set has the effect it should exactly when its value is not that text
  (`Lazy.PutStep`); `LazyGets.MarkerSet` sets it and reads nothing.
- A `get` can take a stored marker for a value. Left alone, it answers as the eager system
  does exactly when the newest copy at its start is not a marker of an older version
  (`LazyGets.SoloAnswers`). Among other clients it does so if no older marker is stored when
  it begins and no other client stores one before it answers (`LazyGets.CallAnswers`).
  `LazyGets.MissThenUpgrade` fails with one client, `LazyGets.MarkerAnswered` with two.
- A version name may be used twice, which `append_new_version` does not check. A bump acts
  on a key as the eager update does, whatever the updates are, exactly when no copy stored
  under that name comes to light (`Lazy.UpgradeLogical`); `LazyGets.ReusedName` is a run in
  which one does.
- The log loses or repeats bytes when a short write is cut back to a recorded size that is
  not the real one (`Aof.FlushLossless`, `Aof.StaleSize`), which happens once the `fstat`
  after a swap has failed (`Aof.Server.ChildDone`).
- A namespace with a predecessor can be given a broken version chain
  (`Kvolve.SuccessorChainBroken`); `Kvolve.SuccessorChain` says exactly when it is not.

## Model

| member | source | states |
|---|---|---|
| DictModel.IndexSurvives | redis-2.8.17/src/dict.c:856-878 | a bucket index survives being returned as an `int` for every hash exactly when the table has at most 2^31 buckets; with 2^32 some index becomes -1 |
| DictOps.RehashInBounds | redis-2.8.17/src/dict.c:252-255 | while the old table has entries, a non-empty bucket lies at or after `rehashidx`, so neither the assertion nor the skipping loop leaves the table |
| DictOps.MoveBucketOk | redis-2.8.17/src/dict.c:255-271 | moving a bucket leaves both tables well formed, transfers exactly its keys and keeps both entry counts right |
| DictOps.RehashStepOk | redis-2.8.17/src/dict.c:237-274 | a rehash round keeps the two-table invariant, changes the value of no key and either advances `rehashidx` or ends the rehash |
| DictOps.RehashOk | redis-2.8.17/src/dict.c:237-274 | any number of rounds changes no key's value, and enough rounds end the rehash |
| DictOps.MaybeStepOk | redis-2.8.17/src/dict.c:303-305 | the step taken by lookups and updates changes no key's value |
| DictOps.MaybeStepMoves | redis-2.8.17/src/dict.c:303-305 | while rehashing without a safe iterator that step advances `rehashidx` or ends the rehash, else it does nothing |
| DictOps.NextPowerOk | redis-2.8.17/src/dict.c:838-849 | the size chosen is a power of two and large enough |
| DictOps.ExpandOk | redis-2.8.17/src/dict.c:204-229 | a resize, refused or not, keeps the invariant and every key's value |
| DictOps.ExpandIfNeededOk | redis-2.8.17/src/dict.c:816-835 | growth before an insertion changes no key's value and leaves a table to insert into |
| DictOps.GrowsWhenFull | redis-2.8.17/src/dict.c:816-850 | an empty table gets four buckets; a full one starts a rehash into at least twice and less than four times as many buckets as entries, or four, exactly when resizing is allowed or the load is above five; else nothing changes |
| DictOps.AddRefinesMap | redis-2.8.17/src/dict.c:308-355 | an add, with its rehash step and growth, acts on both tables as the insertion of a missing key into one map |
| DictOps.ReplaceRefinesMap | redis-2.8.17/src/dict.c:361-382 | a replace, with its two rehash steps, acts as one map assignment |
| DictOps.DeleteRefinesMap | redis-2.8.17/src/dict.c:395-434 | a delete removes exactly its key, from whichever table holds it |
| DictOps.ApplyRefinesMap | redis-2.8.17/src/dict.c:204-494 | every operation takes a dictionary that represents a map to one that represents the map after the plain operation, entry count included |
| DictOps.RunRefinesMap | redis-2.8.17/src/dict.c:204-494 | every run of operations from an empty dictionary, rehash steps and resizes anywhere, ends in the map the plain operations give |
| Dict.Dict.constructor | redis-2.8.17/src/dict.c:168-187 | a new dictionary is the empty state |
| Dict.Dict.Rehash | redis-2.8.17/src/dict.c:237-274 | the loop over the arrays computes the specified state and reports whether a rehash remains |
| Dict.Dict.Round | redis-2.8.17/src/dict.c:237-274 | one round in place is one specified round, with the new array installed when the old one is empty |
| Dict.Dict.MoveBucket | redis-2.8.17/src/dict.c:254-271 | skipping empty buckets and relinking a chain gives the specified tables and counts |
| Dict.Dict.SkipEmpty | redis-2.8.17/src/dict.c:255-255 | the skipping loop stays in bounds and stops at the first bucket with entries |
| Dict.Dict.MoveChain | redis-2.8.17/src/dict.c:258-269 | relinking entry by entry puts the whole chain into the new table and moves the counts with it |
| Dict.Dict.RehashStep | redis-2.8.17/src/dict.c:303-305 | a step is taken only when no safe iterator runs |
| Dict.Dict.NextPower | redis-2.8.17/src/dict.c:838-849 | the doubling loop ends at the specified size |
| Dict.Dict.Expand | redis-2.8.17/src/dict.c:204-229 | refusal during a rehash or below the entry count, first allocation, or start of a rehash, as specified |
| Dict.Dict.ExpandIfNeeded | redis-2.8.17/src/dict.c:816-835 | growth at load factor one, or five when resizing is disabled, never fails within the size bound |
| Dict.Dict.SearchChain | redis-2.8.17/src/dict.c:868-873 | the first entry of a chain with the key, or none if there is none |
| Dict.Dict.KeyIndex | redis-2.8.17/src/dict.c:856-878 | -1 exactly for a present key, otherwise the bucket of the table insertions go to, unharmed by its return as an `int` |
| Dict.Dict.Add | redis-2.8.17/src/dict.c:308-355 | the specified add; succeeds exactly for a missing key |
| Dict.Dict.Locate | redis-2.8.17/src/dict.c:475-494 | finds a key exactly when the map has it, with its table, bucket and first position |
| Dict.Dict.FetchValue | redis-2.8.17/src/dict.c:496-501 | the value the map gives, leaving the map as it was |
| Dict.Dict.Replace | redis-2.8.17/src/dict.c:361-382 | the specified replace; reports whether the key was new |
| Dict.Dict.Delete | redis-2.8.17/src/dict.c:395-430 | the specified delete; succeeds exactly for a present key |
| DictScan.Rev | redis-2.8.17/src/dict.c:648-656 | the mask-and-shift loop reverses the bits of a word |
| DictScan.ExpansionsAre | redis-2.8.17/src/dict.c:784-798 | the inner loop visits the expansions of the cursor from its own upper bits upwards, in numeric order |
| DictScan.NextCursorRank | redis-2.8.17/src/dict.c:801-808 | the next cursor is the bit-reversed successor within the mask, zero exactly after the last one |
| DictScan.VisitedIsEmitted | redis-2.8.17/src/dict.c:742-811 | a key whose hash a call visits is emitted by it, whichever table holds the key |
| DictScan.SkipsHash | redis-2.8.17/src/dict.c:777-808 | every cursor outside the good shape makes the call pass over some hash without visiting it |
| DictScan.CompleteIffSteppable | redis-2.8.17/src/dict.c:742-811 | a call visits every hash between its cursor and the next exactly when the cursor bits between the two masks are ones followed by zeros; always so when no rehash runs or sizes differ by at most a factor of two |
| DictScan.EmittedIsVisited | redis-2.8.17/src/dict.c:742-811 | the converse: a key outside the smaller table is emitted only if its hash is visited |
| DictShrink.ShrinkLoses | redis-2.8.17/src/dict.c:742-811 | after the first call of a scan over 16 buckets a resize to 4 makes the scan come back to zero in five calls, none of which emits the one key held at all of them |
| DictScanner.VisitExpansions | redis-2.8.17/src/dict.c:784-798 | the do-while loop emits the buckets of exactly those expansions and leaves the low bits of the cursor |
| DictScanner.Scan | redis-2.8.17/src/dict.c:742-811 | the call on the arrays emits and returns what the scan theorems are about |
| DictScanRuns.ScanCovers | redis-2.8.17/src/dict.c:648-811 | a scan back at zero has emitted every key present at all its calls, whatever happened in between, if every call had a good cursor |
| DictScanRuns.ApplyGrows | redis-2.8.17/src/dict.c:204-494 | no operation but an explicit resize to a smaller size lets a table shrink |
| DictScanRuns.TraceCovers | redis-2.8.17/src/dict.c:648-811 | scan coverage with adds, replaces, deletes, rehash steps and growths interleaved between calls |
| DictScanRuns.CursorAdvances | redis-2.8.17/src/dict.c:742-811 | the reversed cursor strictly increases until it wraps to zero, under any resizing |
| DictScanRuns.ScanEnds | redis-2.8.17/src/dict.c:742-811 | a scan is over within as many calls as the largest table had buckets, shrinking included |
| DictScanRuns.UntouchedScan | redis-2.8.17/src/dict.c:742-811 | over an untouched dictionary a scan takes exactly one call per bucket and emits each bucket exactly once |
| DictIter.WalkOk | redis-2.8.17/src/dict.c:561-594 | a call of `dictNext` gives an entry still ahead and leaves all others as they were; it gives nothing only when nothing is ahead |
| DictIter.OpKeepsWalk | redis-2.8.17/src/dict.c:303-494 | an add, replace, find, resize or delete of the entry just given moves no remaining key between ahead and behind, and the saved next entry stays linked |
| DictIter.WalkGivesOnce | redis-2.8.17/src/dict.c:541-605 | in every walk with such operations in between, a key present throughout is given exactly once, also when a rehash starts mid-walk |
| DictIterator.SafeIterator.constructor | redis-2.8.17/src/dict.c:541-559 | a new iterator stands before the first bucket |
| DictIterator.SafeIterator.Turn | redis-2.8.17/src/dict.c:563-585 | one turn of the loop stays in bounds, moves to the next entry, bucket or table and makes progress |
| DictIterator.SafeIterator.Next | redis-2.8.17/src/dict.c:561-594 | the loop computes the walk, registers the iterator on the first call and returns the current value of the key |
| Lazy.ApplyUpdates | lazyupdredis/lazyupdredis.py:471-527 | the loop takes the value through the update functions from the stored version to the newest, oldest first, each on what the one before gave and names without a matching function unchanged; it fails exactly at the first update that is missing or raises |
| Lazy.MigrateFollows | lazyupdredis/lazyupdredis.py:471-527 | every stored value has such a course through the update functions, and migration succeeds exactly when the course reaches the newest version, with its last value |
| Lazy.FollowsSame | lazyupdredis/lazyupdredis.py:471-527 | that course is determined by the stored value |
| Lazy.MigrateLegs | lazyupdredis/lazyupdredis.py:471-527 | migrating part of the way and later the rest equals migrating at once |
| Lazy.MoveKeepsLogical | lazyupdredis/lazyupdredis.py:529-541 | the transaction that writes the new copy and drops the old one changes no logical value, even from a client that lags behind |
| Lazy.MarkKeepsLogical | lazyupdredis/lazyupdredis.py:421-425 | storing the missing-key marker changes no logical value |
| Lazy.CleanKeepsLogical | lazyupdredis/lazyupdredis.py:674-681 | deleting the older copies after a set changes no logical value |
| Lazy.UpgradeLogical | lazyupdredis/lazyupdredis.py:286-339 | a version bump alone applies the update to the logical value of a key, for all updates, exactly when no copy stored under the new name comes to light |
| Lazy.UpgradedIs | lazyupdredis/lazyupdredis.py:471-527 | an eager upgrade replaces a value by what its update function makes of it, keeps one without a matching function, and breaks it exactly when the update is missing or raises |
| Lazy.MarkStep | lazyupdredis/lazyupdredis.py:421-425 | in a reachable state the SETNX step keeps the invariant and all logical values |
| Lazy.ExecStep | lazyupdredis/lazyupdredis.py:529-546 | EXEC, committed or aborted, keeps the invariant and all logical values; a committed one leaves the newest copy current |
| Lazy.CleanStep | lazyupdredis/lazyupdredis.py:674-681 | the delayed DEL of `set` keeps the invariant and all logical values |
| Lazy.PutStep | lazyupdredis/lazyupdredis.py:668-672 | GETSET is the one moment a set takes effect, on its key alone, and the key then has the value set exactly when that is not the marker |
| Lazy.DeleteStep | lazyupdredis/lazyupdredis.py:361-373 | DEL of all versions makes the key absent and touches no other |
| Lazy.UpgradeStep | lazyupdredis/lazyupdredis.py:286-339 | the version bump, spoiling the transactions under way, keeps the invariant exactly when its name is new or already current |
| Lazy.QuietStep | lazyupdredis/lazyupdredis.py:389-469 | looking, probing, watching and reading write nothing and keep the invariant |
| Lazy.StepRefines | lazyupdredis/lazyupdredis.py:286-684 | every step of every client is matched by the eager system, given that values set are not the marker and version names are new |
| Lazy.RunRefines | lazyupdredis/lazyupdredis.py:286-684 | in every interleaved run, with aborts and retries, whose sets avoid the marker and whose version names are new, each name has the value the eager system gives it |
| LazyGets.SoloIs | lazyupdredis/lazyupdredis.py:389-546 | what a get left alone answers, read off the store it starts from |
| LazyGets.SoloFollows | lazyupdredis/lazyupdredis.py:389-546 | a get of a key last stored at an older version answers the end of the stored value's course through the update functions, and raises exactly when the course stops before the newest version |
| LazyGets.SoloAnswers | lazyupdredis/lazyupdredis.py:389-546 | a get left alone by an up-to-date client answers as the eager system does exactly when the newest copy at its start is not a marker of an older version |
| LazyGets.CallAnswers | lazyupdredis/lazyupdredis.py:389-546 | a get among the steps of others answers the eager value of that moment if no older marker is stored when it begins and no other client stores one before it answers |
| LazyGets.MarkerSet | lazyupdredis/lazyupdredis.py:604-672 | a run that sets the marker text and then reads nothing where the eager system holds it |
| LazyGets.MissThenUpgrade | lazyupdredis/lazyupdredis.py:404-541 | a run of one client: a miss, an upgrade, and a get that answers the marker or fails where the key is absent |
| LazyGets.ReusedName | lazyupdredis/lazyupdredis.py:306-322 | a run that goes back to an old version name and answers the old copy without the updates since |
| LazyGets.MarkerAnswered | lazyupdredis/lazyupdredis.py:404-459 | a run in which two clients ask for a missing key and the second one returns the marker |
| AofCodec.CatCommand | redis-2.8.17/src/aof.c:392-415 | the printing loop appends the encoding of the command |
| AofCodec.DigitsRoundTrip | redis-2.8.17/src/aof.c:397-408 | a printed length is read back as itself, whatever non-digit follows |
| AofCodec.Gets | redis-2.8.17/src/aof.c:595-600 | reading a line takes bytes up to a newline, the buffer limit or the end of the file |
| AofCodec.ReadArg | redis-2.8.17/src/aof.c:611-630 | an argument is read or refused as the grammar says, and a short file is told from a bad one |
| AofCodec.ReadArgs | redis-2.8.17/src/aof.c:606-631 | the argument loop reads exactly as many arguments as the header says |
| AofCodec.ReadCount | redis-2.8.17/src/aof.c:595-604 | the header is read or refused as the grammar says |
| AofCodec.LoadLog | redis-2.8.17/src/aof.c:581-697 | the load loop returns the commands, the kind of failure and `valid_up_to` that the grammar determines |
| AofCodec.OneRead | redis-2.8.17/src/aof.c:595-631 | an encoded command followed by anything is read back and leaves that |
| AofCodec.OneCut | redis-2.8.17/src/aof.c:595-697 | an encoded command cut anywhere inside is an unexpected end of file, never a format error |
| AofCodec.LoadPrefixFrom | redis-2.8.17/src/aof.c:581-697 | any byte prefix of an encoded log replays exactly its whole commands, fails at most by truncation, and `valid_up_to` is the end of the last whole command |
| AofCodec.LoadAll | redis-2.8.17/src/aof.c:392-415 | parsing any concatenation of encoded commands gives back those commands |
| AofCodec.Format | redis-2.8.17/src/aof.c:392-415 | the bytes of one command |
| AofCodec.LoadAppend | redis-2.8.17/src/aof.c:581-697 | whatever loads still loads the same with more bytes behind it, which are then read from there |
| AofCodec.BadMark | redis-2.8.17/src/aof.c:601-601 | after any loadable log a byte other than `*` is a format error, not a truncation, and the log before it is replayed |
| AofCodec.BadCount | redis-2.8.17/src/aof.c:603-604 | so is a command of no or a negative number of arguments, whatever follows |
| AofCodec.BadArg | redis-2.8.17/src/aof.c:610-616 | so is an argument that does not start with `$`, after any number of good ones |
| AofData.RewriteItems | redis-2.8.17/src/aof.c:726-826 | the item loop with its counter writes commands of at most 64 items each, in order and complete |
| AofData.ItemsRebuild | redis-2.8.17/src/aof.c:726-826 | those commands, replayed, add up to the whole collection, whatever the chunk boundaries |
| AofData.RewriteValue | redis-2.8.17/src/aof.c:1013-1031 | the commands written for a key put exactly its value into a database that lacks it |
| AofData.RewriteHash | redis-2.8.17/src/aof.c:929-960 | the same for a hash, in any iteration order of its fields |
| AofData.RewriteDb | redis-2.8.17/src/aof.c:998-1040 | the commands written for a database fill an empty one with exactly its keys |
| AofData.RewriteAll | redis-2.8.17/src/aof.c:962-1064 | the rewritten file is a well-formed log whose replay gives the dataset, whichever database is selected first |
| Aof.RewriteBuffer.Append | redis-2.8.17/src/aof.c:89-126 | filling the last block and opening new ones appends exactly the given bytes |
| Aof.RewriteBuffer.Fill | redis-2.8.17/src/aof.c:93-107 | what fits goes into the last block and nothing else changes |
| Aof.RewriteBuffer.Size | redis-2.8.17/src/aof.c:77-86 | the size computed from the block count is the length of the contents |
| Aof.RewriteBuffer.WriteTo | redis-2.8.17/src/aof.c:131-151 | the blocks are written out in order; it fails exactly when a non-empty block is written short |
| Aof.RewriteBuffer.Reset | redis-2.8.17/src/aof.c:68-74 | the buffer is empty |
| Aof.FlushLossless | redis-2.8.17/src/aof.c:230-368 | file followed by buffer is unchanged by a flush exactly when no short write is cut back to a wrong recorded size; a right size stays right |
| Aof.StaleSize | redis-2.8.17/src/aof.c:287-318 | cutting a short write back to a wrong recorded size removes flushed bytes or leaves bytes that are written again |
| Aof.FedReplays | redis-2.8.17/src/aof.c:454-502 | a fed command, with a SELECT where needed, keeps the log replaying to the dataset |
| Aof.FedRewrite | redis-2.8.17/src/aof.c:454-502 | the same for the snapshot followed by the diff, which starts with its own SELECT |
| Aof.SwapDurable | redis-2.8.17/src/aof.c:1172-1278 | the child's file with the diff behind it is a log of the current dataset, and the old buffer may go |
| Aof.DurableLoads | redis-2.8.17/src/aof.c:581-697 | file and buffer together load completely and replay to the dataset |
| Aof.CrashPrefix | redis-2.8.17/src/aof.c:230-368 | the file alone loads all logged commands up to at most one cut one |
| Aof.Server.Disabled | redis-2.8.17/src/aof.c:165-209 | a server with the log off |
| Aof.Server.Booted | redis-2.8.17/src/aof.c:555-697 | a server that has loaded any readable log, whoever wrote it |
| Aof.Server.Command | redis-2.8.17/src/aof.c:454-502 | executing and feeding a write command keeps the log in step with the dataset in every state of the log |
| Aof.Server.FedBytes | redis-2.8.17/src/aof.c:454-490 | the bytes fed are the encoding of the command with the SELECT it needs |
| Aof.Server.Flush | redis-2.8.17/src/aof.c:230-368 | a complete write moves the whole buffer to the end of the file and empties it; a short one that cannot be cut back moves exactly the bytes written; one cut back or failed moves nothing; `aof_last_write_status` follows; so for every outcome of write and ftruncate a flush that returns neither loses nor duplicates a byte of a running log, never shortens the file and keeps the recorded size right; a stale descriptor leaves the file alone |
| Aof.Server.Fork | redis-2.8.17/src/aof.c:1078-1129 | the fork fixes a snapshot that rebuilds the dataset, starts an empty diff, forgets the selected database and, if it succeeds, clears the scheduled rewrite |
| Aof.Server.ChildDone | redis-2.8.17/src/aof.c:1172-1313 | after any outcome of the child the log still replays to the dataset; a swap installs snapshot and diff; a server still waiting for its first rewrite schedules another; only a failed `fstat` leaves the recorded size behind |
| Aof.Server.Install | redis-2.8.17/src/aof.c:1245-1285 | the new file with an empty buffer is a log of the dataset, the selected database is forgotten and a waiting log is on |
| Aof.Server.Stop | redis-2.8.17/src/aof.c:165-189 | stopping flushes without loss, discards the child and its diff |
| Aof.Server.Start | redis-2.8.17/src/aof.c:192-209 | the log is not on before a rewrite has completed; every failure leaves it off |
| Aof.Server.LogLoads | redis-2.8.17/src/aof.c:454-502 | in every state with the log on, loading file and buffer gives the current dataset |
| Aof.Server.CrashLoads | redis-2.8.17/src/aof.c:230-368 | in every such state the file alone loads a prefix of the logged commands, all of them when the buffer is empty |
| Aof.Server.FlushedLoads | redis-2.8.17/src/aof.c:230-368 | once the buffer is flushed the file alone loads every logged command and gives the dataset |
| HllSparse.ParseEnc | redis-2.8.17/src/hyperloglog.c:361-386 | decoding encoded opcodes gives them back |
| HllSparse.EncParse | redis-2.8.17/src/hyperloglog.c:361-386 | every readable string is the encoding of its opcodes |
| HllSparse.Format | redis-2.8.17/src/hyperloglog.c:131-146 | the documented byte strings of an empty object and of one with three registers set decode to those registers |
| HllSparse.SplitIs | redis-2.8.17/src/hyperloglog.c:749-808 | splitting an opcode for one register gives at most five bytes standing for the same registers with that one set |
| HllSparse.EmitRun | redis-2.8.17/src/hyperloglog.c:769-791 | a run of zeros of any length is written as one opcode of the right kind |
| HllSparse.Substitute | redis-2.8.17/src/hyperloglog.c:810-824 | memmove and memcpy in a buffer with three spare bytes replace exactly the old opcode |
| HllSparse.Locate | redis-2.8.17/src/hyperloglog.c:658-693 | the opcode covering a register, its first register and the opcode before it |
| HllSparse.Replace | redis-2.8.17/src/hyperloglog.c:709-824 | cases B, C and D leave the same registers with one raised, or ask for promotion when the limit forbids the growth |
| HllSparse.MergeIs | redis-2.8.17/src/hyperloglog.c:826-859 | two neighbouring opcodes of one value stand for the same registers as the merged one |
| HllSparse.MergeAt | redis-2.8.17/src/hyperloglog.c:841-857 | the merge in the buffer closes the gap and shortens the string by one byte |
| HllSparse.MergeVals | redis-2.8.17/src/hyperloglog.c:826-861 | merging from the previous opcode on changes no register and never lengthens the string |
| HllSparse.SparseAdd | redis-2.8.17/src/hyperloglog.c:638-882 | a well-formed string stays well formed with exactly one register raised, unchanged exactly when it was high enough, three bytes longer at most, promoted only for a large count or the size limit |
| HllDense.SetGet | redis-2.8.17/src/hyperloglog.c:337-359 | a packed register reads back what was stored and every other register is unchanged |
| HllDense.GroupReg | redis-2.8.17/src/hyperloglog.c:337-359 | the four registers packed in three bytes are what the macro reads |
| HllDense.SetRegs | redis-2.8.17/src/hyperloglog.c:349-359 | a store changes one register of the whole array |
| Hll.PatLen | redis-2.8.17/src/hyperloglog.c:444-470 | the index has the first 14 bits of the hash; the pattern length is the one number for which the bits after them are zeros up to a one at its end, bit 63 taken as one |
| Hll.CountIs | redis-2.8.17/src/hyperloglog.c:460-467 | the counting loop's length is `n` exactly when the bits show a pattern of length `n` |
| Hll.SketchUnique | redis-2.8.17/src/hyperloglog.c:485-498 | the registers are determined by the set of hashes: order, repetition and encoding leave no trace |
| Hll.SketchAdd | redis-2.8.17/src/hyperloglog.c:1027-1036 | raising one register sketches one more hash |
| Hll.SketchMerge | redis-2.8.17/src/hyperloglog.c:1044-1085 | the registerwise maximum sketches the union |
| Hll.SparseToDense | redis-2.8.17/src/hyperloglog.c:568-620 | promotion keeps every register |
| Hll.Hll.constructor | redis-2.8.17/src/hyperloglog.c:1089-1119 | a new object is a well-formed sparse string with all registers zero |
| Hll.Hll.Add | redis-2.8.17/src/hyperloglog.c:1027-1036 | in either encoding and under any size limit an addition raises one register to the maximum, and returns 1 exactly when a register changed |
| Hll.Hll.Raise | redis-2.8.17/src/hyperloglog.c:638-882 | sparse update, promotion and dense update agree, and the update after promotion always changes a register |
| Hll.Hll.DenseAdd | redis-2.8.17/src/hyperloglog.c:485-498 | the packed registers become the maximum at one index |
| Hll.Hll.MergeInto | redis-2.8.17/src/hyperloglog.c:1044-1085 | an array of registers becomes the maximum with this object's, in either encoding |
| Hll.MergeAll | redis-2.8.17/src/hyperloglog.c:1294-1306 | the maximum over several objects sketches the union of everything added to them |
| Hll.PfMerge | redis-2.8.17/src/hyperloglog.c:1285-1335 | the destination becomes the sketch of the union of all inputs and itself |
| HllSum.PEIs | redis-2.8.17/src/hyperloglog.c:551-551 | the table entry of a register times two to its power is one |
| HllSum.DenseSum | redis-2.8.17/src/hyperloglog.c:504-541 | the unrolled loop over twelve bytes and sixteen registers gives the exact sum and zero count of the registers |
| HllSum.DenseSumGeneric | redis-2.8.17/src/hyperloglog.c:542-556 | the loop over single registers gives the same sum and count |
| HllSum.SparseSum | redis-2.8.17/src/hyperloglog.c:888-918 | the opcode loop gives the same sum and count for the registers it decodes to |
| HllSum.RawSum | redis-2.8.17/src/hyperloglog.c:928-954 | the loop over words of eight registers gives the same sum and count |
| JsonDelta.Patch | deprecated/json_delta_original.py:111-124 | the loop applies the stanzas one after the other and fails where one fails |
| JsonDelta.RemoveItem | deprecated/json_delta_original.py:520-522 | deleting a list item closes the gap and keeps all others in order; an index past the end raises |
| JsonDelta.PrefixFree | deprecated/json_delta_original.py:392-440 | in stanzas that exactly turn one value into another no key path is a prefix of another |
| JsonDelta.PatchSound | deprecated/json_delta_original.py:506-535 | such stanzas, in any order that stores into lists upwards and deletes from them downwards, applied one by one give the right-hand value |
| JsonDelta.SortStanzas | deprecated/json_delta_original.py:468-501 | the global sort permutes the stanzas so that every list gets ascending stores and descending deletes |
| JsonDiff.ComputeKeysets | deprecated/json_delta_original.py:344-390 | shared, left-only and right-only keys, by membership |
| JsonDiff.Commonality | deprecated/json_delta_original.py:442-466 | the fraction of shared keys or elements, never above one and zero for values of different kinds |
| JsonDiff.ThisLevelDiff | deprecated/json_delta_original.py:415-440 | the shallow diff exactly turns left into right, each stanza once and under its key |
| JsonDiff.KeysetDiff | deprecated/json_delta_original.py:392-413 | the recursive diff does so for any iteration order of the key sets |
| JsonDiff.DiffAt | deprecated/json_delta_original.py:58-108 | so does whichever alternative is chosen as the shorter, and at the top it is in an order that can be applied |
| JsonDiff.Diff | deprecated/json_delta_original.py:58-124 | for all JSON values, patching left with the diff gives right, and its key paths are prefix-free |
| JsonDiff.RoundTrip | deprecated/json_delta_original.py:58-124 | the same of every diff that is correct and well ordered, however it was found |
| Kvolve.ExtendGood | redis-2.8.17/src/kvolve_internal.c:320-322 | one more update keeps a version chain linked and distinct exactly when it starts at the last version and leads to a new one |
| Kvolve.ApplyKeepsChains | redis-2.8.17/src/kvolve_internal.c:232-324 | every declaration and update specification keeps the chain of each namespace without predecessor linked, distinct and its own |
| Kvolve.RunKeepsChains | redis-2.8.17/src/kvolve_internal.c:36-324 | so does every run of them, refused ones included |
| Kvolve.SuccessorChain | redis-2.8.17/src/kvolve_internal.c:246-289 | for a namespace with a predecessor the chain stays good exactly when the caller gives the right version numbers |
| Kvolve.SuccessorChainBroken | redis-2.8.17/src/kvolve_internal.c:246-289 | an accepted rename that duplicates a version and links the wrong one |
| Kvolve.Server.UpdateSpec | redis-2.8.17/src/kvolve_internal.c:232-324 | an update is accepted exactly when its old namespace exists and its new one either does not or is the same one without the new version and, unless it has a predecessor, ending in the old version; then one version and its update are added to the chain and nothing else changes, and a refusal changes nothing |
| Kvolve.Server.CheckUpdate | redis-2.8.17/src/kvolve_internal.c:444-559 | a versioned string is brought to the last version by exactly the updates after its own, or by all of them if its version is not in the chain, each taking it through its functions in order; shared integers and calls from within an update are left alone |
| Kvolve.Migrate | redis-2.8.17/src/kvolve_internal.c:492-557 | the version loop takes the value through the functions of each later update, once and in order, and ends at the last version |
| Kvolve.RunFuns | redis-2.8.17/src/kvolve_internal.c:501-554 | the object ends with the last of the values that start at its own and follow one another by the functions, first to last |
| Kvolve.ApplyFunsIs | redis-2.8.17/src/kvolve_internal.c:501-554 | running the functions of an update gives a value exactly when such values lead to it |
| Kvolve.UpgradeLogical | redis-2.8.17/src/kvolve_internal.c:320-322 | an upgrade changes what a stored value means by exactly its functions, whatever version it was left at |
| Kvolve.ReadLogical | redis-2.8.17/src/kvolve_internal.c:473-475 | at the last version nothing more is applied |
| Kvolve.LazyIsEager | redis-2.8.17/src/kvolve_internal.c:232-559 | after any run of upgrades and reads a value means the last of the values that start at what it meant before, go through the functions of each upgrade in order and stay put at each read |
| KvolveLookup.LastColon | redis-2.8.17/src/kvolve_internal.c:334-336 | the last colon of the C string in the buffer, or none |
| KvolveLookup.Lookup | redis-2.8.17/src/kvolve_internal.c:329-356 | the longest declared prefix ending just before a colon, or none; the default namespace only without a colon; the key buffer is restored |
| Bytes.ToBytesAt | redis-2.8.17/src/intset.c:80-94 | a number is stored least significant byte first |
| IntsetBytes.DecEnc | redis-2.8.17/src/intset.c:55-94 | an integer that fits a cell is read back from its bytes |
| IntsetBytes.EncDec | redis-2.8.17/src/intset.c:55-94 | the bytes of a cell are those of the integer read from it |
| IntsetBytes.PutCell | redis-2.8.17/src/intset.c:80-94 | a store changes one cell |
| Intset.ValueEncoding | redis-2.8.17/src/intset.c:45-52 | the narrowest width that holds the value |
| Intset.WideOutside | redis-2.8.17/src/intset.c:209-214 | a value too wide for the cells lies below or above all of them, by its sign |
| Intset.Intset.constructor | redis-2.8.17/src/intset.c:97-102 | a new set is empty, of the narrowest width |
| Intset.Intset.GetEncoded | redis-2.8.17/src/intset.c:55-73 | of each of the three widths, the one integer in range whose two's complement bytes are stored in the cell |
| Intset.Intset.Set | redis-2.8.17/src/intset.c:80-94 | only the bytes of one cell change |
| Intset.Intset.Search | redis-2.8.17/src/intset.c:115-154 | found exactly when the set has the value; otherwise the position that keeps the order |
| Intset.WidenStep | redis-2.8.17/src/intset.c:167-171 | moving a cell to its wider place leaves every cell not yet read untouched |
| Intset.Intset.Widen | redis-2.8.17/src/intset.c:167-171 | the back-to-front loop keeps all values while changing their width in place |
| Intset.Intset.UpgradeAndAdd | redis-2.8.17/src/intset.c:157-180 | the widened sequence with the value in front if negative, else behind |
| Intset.Intset.MoveTail | redis-2.8.17/src/intset.c:182-201 | the overlapping move copies the tail as it was |
| Intset.Intset.Add | redis-2.8.17/src/intset.c:204-231 | the set gains exactly the value, stays strictly sorted, and success means it was new |
| Intset.Intset.Remove | redis-2.8.17/src/intset.c:234-251 | the set loses exactly the value, stays strictly sorted, and success means it was there |
| Intset.Intset.Find | redis-2.8.17/src/intset.c:254-257 | membership in the mathematical set |
| Popcount.WordStages | redis-2.8.17/src/bitops.c:84-96 | the masked additions and the product count the bits of a 32-bit word, and only the product exceeds 32 bits |
| Popcount.RedisPopcount | redis-2.8.17/src/bitops.c:61-101 | for every string and start alignment the result is the number of its one bits |
| BitPos.Skip | redis-2.8.17/src/bitops.c:126-144 | the bytes and words skipped hold no wanted bit, from any start alignment |
| BitPos.ScanWord | redis-2.8.17/src/bitops.c:170-186 | the last word yields the first wanted bit; the panic behind the loop is never reached |
| BitPos.RedisBitpos | redis-2.8.17/src/bitops.c:110-188 | the first bit with the wanted value; -1 exactly when a one is wanted and there is none, the length in bits when a zero is wanted and all are ones |
| BitOp.CombWord | redis-2.8.17/src/bitops.c:359-409 | a word operation on bytes in memory is the operation on each byte |
| BitOp.OutBitMeans | redis-2.8.17/src/bitops.c:412-425 | combining the strings one after the other gives the bit that the operation means on all of them |
| BitOp.FastPath | redis-2.8.17/src/bitops.c:347-410 | four words at a time give the same bytes as the slow path would |
| BitOp.Lengths | redis-2.8.17/src/bitops.c:307-339 | the lengths of the longest and shortest string |
| BitOp.OutByte | redis-2.8.17/src/bitops.c:412-425 | one byte of the result over all strings, padded with zeros |
| BitOp.Bitop | redis-2.8.17/src/bitops.c:301-426 | the result is as long as the longest string; a bit is one for AND exactly when it is one in every zero-padded string, for OR in some, for XOR in an odd number of them, for NOT when it is zero; NOT of several strings is refused |

## Left out

- Hash functions, fingerprints, random keys and tables of more than 2^31 buckets in `dict.c`, which `DictModel.IndexSurvives` shows to be broken; `dictRelease`, `dictEmpty` and statistics.
- Dict.Dict.Add: entries of a chain are values in a sequence, not linked cells, so pointer reuse and memory release are not captured; tables have at most 2^31 buckets and growth is taken up to 2^30 entries.
- DictIter.WalkGivesOnce: unsafe iterators and their fingerprint check are not modelled; releasing an iterator only lowers the counter.
- Lazy.StepRefines: writers are taken to be at the current version, because stale clients are disconnected with the bump; the window before that, two simultaneous updaters, renamed namespaces, expiry times and the EX/PX/NX/XX variants are not modelled.
- Lazy.ApplyUpdates: parsing of update files, code generation and glob matching are an arbitrary function from version pair and name to update.
- Translation of relative expiry, fsync scheduling and its thread, and reading a real file system.
- AofData.RewriteValue: strings, lists, sets and hashes; sorted sets and the expiry of a key are not modelled.
- AofData.RewriteDb: the same, and no key is taken to have expired.
- AofCodec.LoadLog: numbers in a foreign file that exceed the C types are read as they stand, every command name is accepted, and a MULTI left open at the end is not refused.
- Aof.Server.ChildDone: after a failed `fstat` the run is not followed further; what the next short write then does is `Aof.StaleSize`.
- Aof.Server.Flush: what a stale descriptor writes into whichever file its number has come to mean is not followed.
- AofData.RewriteAll: sorted sets and expiry are not modelled; values whose printed lengths do not fit a machine integer are excluded, as are empty collections, which the server does not store.
- The cardinality estimate, its bias correction and the cached count of a HyperLogLog (floating point), and malformed sparse strings.
- HllSparse.SparseAdd: the byte buffer is a sequence value rewritten by explicit memmove and memcpy, so pointer arithmetic is by position.
- JSON: needle alignment (the module is optional and absent from the repository), udiff and upatch, tuples, and Python's equality of 1 and True.
- JsonDelta.Patch: the structure is rebuilt as a value instead of being changed in place, so aliasing between input and result is not captured.
- JsonDiff.Diff: numbers are reals, so that 1 and 1.0 are equal as in Python; not-a-number and infinities are not modelled.
- JsonDiff.DiffAt: the length of printed JSON is an arbitrary function, so that the choice is minimal is stated only for that function.
- Kvolve.Server.CheckUpdate: strings held as integers outside the shared range, which the source hands to the update functions as if they were text, sets, sorted sets, hashes, lists, keys renamed by user functions, namespaces with predecessors, client killing and the fixed array of 20 versions are not modelled.
- Intset.Intset.Add: the 32-bit wrap-around of buffer sizes is not modelled; byte order is little endian throughout.
- Popcount.RedisPopcount: the 256-entry table is represented by the bit counts it lists.
- BitOp.Bitop: storing the result, type errors of keys and notifications are not modelled.
- `config.c`, `debug.c`, networking, event loops, `proxy.c`, `jsondiff.c`, `adlist.c`, `endianconv.c`, `crc64.c`: plumbing or easier members.
