# Redis, its state and its formats, in Dafny

A model, with proofs, of the parts of Redis that keep state and must agree with something simple: the virtual-memory subsystem, the sorted set, the zipmap, the hash table, the range sort, the LZF and RDB formats, the request parser and the blocking pops of redis-1.3.6, and the append-only file of redis-2.8.0. Each part has a plain mathematical object beside it (a map, a sorted sequence, a queue of clients, the value that was encoded) and theorems that tie the code to it, over all inputs or all runs.

| files | part | what it is tied to |
|---|---|---|
| SwapFile, SwapObject, VmModel, VmInvariant, VmSteps, VmTheorems, VmEffects, VmDatabases, VmDrain, VmServer, VmRuns | swap file, page bitmap, three job queues, I/O threads, saving children | the key-value map that the commands alone would produce |
| ZsetOrder, SkiplistShape, SkiplistCode, Zset, ZsetRuns | skiplist with spans and back pointers beside a hash table | one sorted sequence of (score, member) and one map |
| AofData, AofCommands, AofFollow, AofProtocol, AofEffects, AofRuns, AofText, AofLoader, AofRewrite, AofSnapshot, AofServer, Resp | append-only file: feeding, expiry, rewrite with diff, swap, replay, as commands and as bytes | the live dataset |
| LzfFormat, Lzf | compressor and decompressor | the identity |
| RdbFormat, RdbExact, Rdb | snapshot file | the dataset that was saved |
| Request, RequestStream, RequestForms, RequestCode, Resp | request parser | the list of requests that was sent |
| BlpopSpec, BlpopEffects, BlpopConservation, BlpopCode, BlpopRuns | waiting lists of blocked clients | one queue of blocked clients, and the elements that came in |
| ZipmapFormat, ZipmapMeaning, ZipmapCode, ZipmapRuns | byte buffer holding a small hash | a string map |
| DictChains, DictCode, DictRuns | chained hash table with linked entries, rehash and iterator | a map |
| Pqsort | quicksort restricted to a range | any full sort |
| Layouts | the formats byte for byte on small inputs | the bytes themselves |
| Bytes | bytes, words and options used by all | |

Code that updates structures in place is a class whose methods have loops and `modifies` clauses; its specification is a function on values, and the theorems are about that function. What such a function does is itself stated apart from it, in plain terms of maps, sequences and bytes (AofCommands, AofEffects, BlpopEffects, VmEffects, Layouts). `hide` statements only keep proofs small.

`dafny verify dfyconfig.toml` verifies everything.

## What the proofs turned up

Nine promises do not hold for every input. For each there is a lemma that says exactly when they do, and one at an input where they do not.

- **A failed swap write loses its key** (redis-1.3.6/redis.c:8701-8702). The thread cancels its own job, the key stays SWAPPING without a job, and the next use of it fails an assertion. The invariant survives the I/O of a job if and only if the write succeeds (`VmTheorems.FailedWriteBreaksKey`). For every value and every swap file with room for it, seven steps lead from an empty server to a write that can fail (`VmRuns.FailedWriteRun`).
- **Canceling a job compares names, not databases** (redis-1.3.6/redis.c:8607). With two keys of one name in two databases it can cancel the other key's job. The invariant survives a pass of the search if and only if the job it stops at is the key's own, and then the pass is the cancellation of the state machine; otherwise a key in another database is left without its job and out of reach (`VmDatabases.CancelByNameIff`). Four steps lead there (`VmRuns.SameNameRun`).
- **The search for free pages misses those around its start** (redis-1.3.6/redis.c:8109-8150). It goes from the next page to the end and from page zero back to where it began, and does not join the two ends. With at most 1024 pages, where it cannot jump, it fails exactly when every free range that is large enough lies across its start (`VmServer.FewPages`, `VmServer.CutInTwo`).
- **ZRANGE and ZREMRANGEBYRANK** take an end that lies before the first element as the first element (redis-1.3.6/redis.c:5368-5371 and 5609-5612), so `ZRANGE key -5 -4` on three elements returns one. They select what was asked for exactly outside that case (`Zset.BoundsExact`, `Zset.RangeBeforeStart`).
- **zipmap keys of 253 bytes or more** are compared from inside their length field (redis-1.3.6/zipmap.c:192). A key is found again after it was set if and only if it is shorter, or spells its own length followed by itself (`ZipmapMeaning.SetThenGet`, `ZipmapCode.LongKeyLost`).
- **RENAME, MOVE and SORT with STORE** put a list down without looking who waits for the key (redis-1.3.6/redis.c:4162-4189, 4200-4240 and 6436), so a client blocked in BLPOP goes on waiting for a list that has elements. Nobody waits for a list with elements after a step if and only if the step does not put one where somebody waits (`BlpopSpec.StepKeepsIff`), and nobody ever does over a run if and only if no step of it does that (`BlpopSpec.RunKeepsIff`); `BlpopRuns.RenameRun` is a run of three commands.
- **PERSIST** does not expire the key it finds (redis-2.8.0/src/db.c:890-904). On a key past its expiry, which a rewrite leaves out of the file, it brings the key back in memory only. It keeps every replay in step exactly on keys that have not expired (`AofFollow.PersistSafeIff`); a run of five steps ends with a key that is live for good and in no reload (`AofRuns.PersistRun`).
- **The rewriting child reads the clock after the fork** (redis-2.8.0/src/aof.c:846). A key that expires in between is left out of the new file while clients can still write to it. Whatever command comes next, SET with a relative time and PERSIST of an expired key aside, the new file and what was logged since show the live dataset if and only if no key expires in between (`AofFollow.LateChildClock`). In one run the live list was [x, y] and has expired when the new file is installed, while every reload of that file has [y], for good (`AofRuns.LateClockRun`).
- **SET with EX or PX is logged as it came** (redis-2.8.0/src/aof.c:401-421 translates only EXPIRE, PEXPIRE, EXPIREAT, SETEX and PSETEX), so the time counts again from the load. Executed at one time and loaded at another it shows the same keys if and only if the times are the same or the key is gone by both (`AofFollow.RelativeTimeIff`, `AofFollow.RelativeTimeExample`).

The last three are steps of the append-only protocol like all others. The model keeps a set of suspects, the keys that one of them wrote and whatever was computed from those, and proves that a reload agrees with the live dataset on every other key (`AofProtocol.EveryRunReloads`); a run without them reloads exactly (`AofProtocol.TimelyRunsReloadExactly`).

RDB expiry times survive exactly when they fit 32 bits (`RdbFormat.TimeBack`).

## Model

| member | source | states |
|---|---|---|
| `VmTheorems.EveryRunIsSafe` | redis-1.3.6/redis.c:8174-8253 | in every state any interleaving can reach, the invariant holds and the database seen through memory, swap file and jobs is the map that the commands alone produce |
| `VmRuns.OutAndIn` | redis-1.3.6/redis.c:8441-8803 | from any calm state, for any key in memory and any free pages: swapping it out puts its bytes on those pages and nothing else changes, and using it again gives back the same keys, bitmap and counters |
| `VmTheorems.StepKeeps` | redis-1.3.6/redis.c:8441-8568 | every step of main thread, I/O thread or child keeps the invariant (exclusive pages, exact counters, one job per state) and changes the content as the plain map operation does |
| `VmTheorems.StorageTellsJobs` | redis-1.3.6/redis.c:8783-8803 | a key is SWAPPING iff exactly one non-canceled swap job names it, LOADING iff exactly one non-canceled load job does, and never more than one job does |
| `VmTheorems.PageHasOneOwner` | redis-1.3.6/redis.c:8037-8072 | a page is marked used iff some key or live job owns it, and no page has two owners |
| `VmTheorems.CancelNeverFallsThrough` | redis-1.3.6/redis.c:8586-8663 | the search of vmCancelThreadedIOJob always finds the job of a swapping or loading key |
| `VmDatabases.CancelByNameIff` | redis-1.3.6/redis.c:8586-8663 | a pass that compares names only keeps the invariant iff the job it stops at is the key's own, and then it is the cancellation; otherwise a key of that name in another database can no longer be used |
| `VmDatabases.OneDatabase` | redis-1.3.6/redis.c:8607-8607 | as long as no two keys of one name have jobs, comparing names is comparing keys |
| `VmRuns.SameNameRun` | redis-1.3.6/redis.c:8607-8607 | two keys of one name swapped out and the second used: the first stays SWAPPING without a job |
| `VmTheorems.LookupKeeps` | redis-1.3.6/redis.c:2744-2777 | a lookup leaves the value last stored in memory, whatever state the key was in, and changes nothing else |
| `VmTheorems.FailedWriteBreaksKey` | redis-1.3.6/redis.c:8692-8703 | the invariant survives a swap job's I/O if the write succeeds and never if it fails |
| `VmEffects.SwapOutStarts` | redis-1.3.6/redis.c:8783-8803 | a key that is swapped out is SWAPPING with exactly one job, which prepares the swap of its value |
| `VmEffects.WaitForLoads` | redis-1.3.6/redis.c:8812-8871 | a swapped key somebody waits for is LOADING with exactly one job, which loads its own page |
| `VmEffects.PerformWrites` | redis-1.3.6/redis.c:8692-8703 | a job done has counted the pages of its value, read its key's value, or written its value so that it can be read |
| `VmEffects.PreparedGoesOn` | redis-1.3.6/redis.c:8499-8519 | a prepared swap gets the pages found, marked used, and one job to write to them; otherwise the key is in memory again |
| `VmEffects.SwapIsDone` | redis-1.3.6/redis.c:8520-8546 | a completed write leaves the key on the pages of its value, where it is read |
| `VmEffects.LoadComesHome` | redis-1.3.6/redis.c:8482-8498 | a completed load leaves the value in memory and its pages free |
| `VmEffects.DeleteRemoves` | redis-1.3.6/redis.c:2809-2822 | a deleted key and its job are gone |
| `SwapFile.PagesExact` | redis-1.3.6/redis.c:3249-3253 | the pages counted for a value hold its bytes, and one page less would not |
| `SwapFile.WriteThenRead` | redis-1.3.6/redis.c:8155-8168 | the bytes written over the pages are read back as the object, whatever was in the file |
| `SwapFile.WriteElsewhere` | redis-1.3.6/redis.c:8155-8168 | writing touches the pages of the value and no others |
| `SwapFile.ReadAgrees` | redis-1.3.6/redis.c:8196-8213 | what is read depends on the object's own pages only |
| `SwapObject.ToValue` | redis-1.3.6/redis.c:3159-3235 | the bytes rdbSaveObject writes for any object, in any encoding, are a value of the swap file that means the object |
| `SwapObject.SameObject` | redis-1.3.6/redis.c:8155-8213 | written to any pages with room and read again it is the same object |
| `RdbExact.ObjectExact` | redis-1.3.6/redis.c:3524-3616 | rdbLoadObject reads a beginning of the bytes, and those alone decide what is read, whatever follows |
| `VmRuns.FailedWriteRun` | redis-1.3.6/redis.c:8692-8703 | for every value and every number of pages that is enough, a run from an empty server, through store, swap out, prepare and take, after which a failed write leaves the key SWAPPING and out of reach |
| `VmTheorems.NoWriteWithChild` | redis-1.3.6/redis.c:8410-8412 | no step writes the swap file while a saving child is alive |
| `VmTheorems.FileFrozen` | redis-1.3.6/redis.c:8735-8760 | over any run until the child exits the swap file is what it was at the fork |
| `VmTheorems.ChildSeesForkTime` | redis-1.3.6/redis.c:3355-3379 | whatever happens before it exits, a child reads for every key the value of the moment of the fork |
| `VmServer.Server.constructor` | redis-1.3.6/redis.c:7968-8034 | an empty server is the initial state of the machine |
| `VmServer.Server.MarkPagesUsed` | redis-1.3.6/redis.c:8037-8053 | exactly the given range of free pages becomes used and the counter follows |
| `VmServer.Server.MarkPagesFree` | redis-1.3.6/redis.c:8056-8072 | exactly the given range of used pages becomes free and the counter follows |
| `VmServer.Server.FindContiguousPages` | redis-1.3.6/redis.c:8100-8152 | terminates for every sequence of random jumps; on success the pages are adjacent, free and do not wrap around, and the next search starts behind them; on failure none of the first 1024 pages looked at are such pages |
| `VmServer.FewPages` | redis-1.3.6/redis.c:8109-8150 | with at most 1024 pages a search fails iff every free range that is large enough lies across the page it starts at |
| `VmServer.CutInTwo` | redis-1.3.6/redis.c:8109-8150 | two free pages that a search for two does not find |
| `VmServer.Server.SearchQueue` | redis-1.3.6/redis.c:8598-8607 | the first non-canceled job of the key in a queue |
| `VmServer.Server.CancelThreadedIOJob` | redis-1.3.6/redis.c:8586-8663 | the state the machine gives, with the key's pages released and its storage reset, or a retry while a thread holds the job |
| `VmServer.Server.TakeJob` | redis-1.3.6/redis.c:8682-8688 | the oldest new job moves to the tail of the processing queue |
| `VmServer.Server.PerformJob` | redis-1.3.6/redis.c:8692-8703 | a load job has the value of its page, a prepare job the number of pages its value needs, a swap job has written its value so that it can be read, and no other page changed |
| `VmServer.Server.FinishJob` | redis-1.3.6/redis.c:8705-8711 | a finished job moves to the tail of the processed queue |
| `VmServer.Server.ProcessCompletedJob` | redis-1.3.6/redis.c:8441-8574 | completing the oldest processed job gives the machine's next state for loads, prepared swaps and done swaps; a prepared swap is given up only with a child saving or when the search for pages failed |
| `VmServer.Server.DropCanceled` | redis-1.3.6/redis.c:8466-8478 | a canceled job is dropped and nothing else changes |
| `VmServer.Server.SwapObjectThreaded` | redis-1.3.6/redis.c:8783-8803 | a key in memory becomes SWAPPING with one new prepare job |
| `VmServer.Server.SwapObjectBlocking` | redis-1.3.6/redis.c:8174-8194 | on success the value is on free adjacent pages, as many as its bytes need, and the key is SWAPPED; otherwise nothing changed and the search for pages failed |
| `VmServer.Server.LookupKey` | redis-1.3.6/redis.c:2744-2777 | returns the value last stored under the key, loading or canceling as needed |
| `VmServer.Server.DeleteKey` | redis-1.3.6/redis.c:2809-2822 | exactly the key is gone, with its pages and its job |
| `VmServer.Server.SetKey` | redis-1.3.6/redis.c:3725-3751 | the key holds the new value in memory and its old pages or job are gone |
| `VmServer.Server.WaitForSwappedKey` | redis-1.3.6/redis.c:8812-8871 | a swapped key gets exactly one load job of its page, a swapping key is taken back, a loading key is waited for; the client waits exactly for keys that were swapped or loading |
| `VmServer.Server.ForkSave` | redis-1.3.6/redis.c:3355-3379 | refused while a child lives; otherwise new and processing jobs are worked off first and the child gets the key table as it then is, with the content there was before the call |
| `VmServer.Server.WaitEmptyIOJobsQueue` | redis-1.3.6/redis.c:8735-8760 | in whatever order threads and completions come, the loop ends, with no job new or in processing and the same content |
| `VmServer.Server.ForkRewrite` | redis-1.3.6/redis.c:7871-7905 | the same as ForkSave for the rewriting child |
| `SkiplistShape.SpliceLevel` | redis-1.3.6/redis.c:5012-5022 | linking a node on a level makes that level's pointers and spans right for the list with the node, for any position and any heights |
| `SkiplistShape.BumpLevel` | redis-1.3.6/redis.c:5024-5027 | adding one to the span that crosses the new node makes an untouched level right |
| `SkiplistShape.UnlinkLevel` | redis-1.3.6/redis.c:5039-5049 | unlinking makes a level right for the list without the node, whether its pointer reached or passed the node |
| `SkiplistCode.SkipList.constructor` | redis-1.3.6/redis.c:4922-4951 | an empty valid list |
| `SkiplistCode.SkipList.Search` | redis-1.3.6/redis.c:4986-4998 | update and rank on every level are the last node before the place, and its rank |
| `SkiplistCode.SkipList.Insert` | redis-1.3.6/redis.c:4981-5036 | for any level choice the full invariant is kept and the contents are the sequence, sorted by score and then by the bytes of the member, with the element inserted |
| `SkiplistCode.SkipList.DeleteNode` | redis-1.3.6/redis.c:5039-5061 | the full invariant for the sequence without the node: pointers, spans, back pointers, tail, level and length |
| `SkiplistCode.SkipList.Delete` | redis-1.3.6/redis.c:5064-5088 | removes exactly the element asked for and says whether it was there |
| `SkiplistCode.SkipList.DeleteRangeByScore` | redis-1.3.6/redis.c:5094-5117 | with one update vector for many removals, removes exactly the elements with a score in the range, and counts them |
| `SkiplistCode.SkipList.DeleteRangeByRank` | redis-1.3.6/redis.c:5121-5147 | removes exactly the elements with a rank in the range, and counts them |
| `SkiplistCode.SkipList.GetRank` | redis-1.3.6/redis.c:5169-5190 | a pair in the list gives its 1-based index; any other result than 0 is the index of the member; a member asked for with another score is found iff the search stops at its node on some level, that is, iff it is not after the place asked for and no later node up to there is as tall |
| `SkiplistCode.SkipList.GetElementByRank` | redis-1.3.6/redis.c:5193-5210 | the element at a 1-based index, the inverse of GetRank, nothing for other ranks |
| `Zset.SortedUnique` | redis-1.3.6/redis.c:4998-5007 | a set of elements has only one sorted sequence, so the contents are determined by the map |
| `ZsetOrder.LexLessIff` | redis-1.3.6/redis.c:4991-4994 | one member comes before another iff they agree up to a place where it ends or has the smaller byte |
| `ZsetOrder.LessIff` | redis-1.3.6/redis.c:4991-4994 | scores decide first, members after |
| `ZsetRuns.ListedInOrder` | redis-1.3.6/redis.c:4991-4994 | in the list of a table scores grow and members of one score are in the order of their bytes |
| `Zset.SortedSet.constructor` | redis-1.3.6/redis.c:5220-5226 | empty table and list agree |
| `Zset.SortedSet.Zadd` | redis-1.3.6/redis.c:5217-5293 | ZADD and ZINCRBY set the score in the table and keep table and list in agreement |
| `Zset.SortedSet.Zrem` | redis-1.3.6/redis.c:5309-5335 | removes the member from both, and the list holds no node it did not hold |
| `Zset.SortedSet.ZremRangeByScore` | redis-1.3.6/redis.c:5337-5352 | the table keeps exactly the members whose score is outside the range, the count is the difference, and the list holds no new node |
| `Zset.SortedSet.ZremRangeByRank` | redis-1.3.6/redis.c:5354-5386 | the list keeps exactly what is outside the bounds, the table loses exactly the members inside, and the list holds no new node |
| `Zset.SortedSet.Zrange` | redis-1.3.6/redis.c:5583-5642 | the slice between the bounds of the elements by score and member, or of their reverse |
| `Zset.SortedSet.Zrank` | redis-1.3.6/redis.c:5806-5836 | the 0-based position of the member in what ZRANGE lists, or in what ZREVRANGE lists, and nothing exactly for a member that is not there |
| `Zset.BoundsExact` | redis-1.3.6/redis.c:5608-5624 | the computed bounds select exactly the positions asked for unless the end lies before the first element and the start does not lie after it |
| `Zset.RangeBeforeStart` | redis-1.3.6/redis.c:5608-5624 | an input for which they do not |
| `Zset.CountAgrees` | redis-1.3.6/redis.c:5217-5293 | the list's length is the table's size |
| `ZsetRuns.Execute` | redis-1.3.6/redis.c:5217-5386 | after any ZADD, ZINCRBY, ZREM, ZREMRANGEBYSCORE and ZREMRANGEBYRANK in any order and with any node levels, the table is the one the commands describe and the skiplist is its sorted list |
| `ZsetRuns.SomeList` | redis-1.3.6/redis.c:4998-5007 | every table has a sorted list of its pairs |
| `AofProtocol.EveryRunReloads` | redis-2.8.0/src/aof.c:384-432 | over every run of commands, expiries, flushes, rewrites, failures and switching on and off, for every load time: reloading file and buffer shows the live dataset now and at any later time on every key but the suspects; so does reloading what a running rewrite will install, from the time its child has read on; losing the buffer falls back to the dataset of the last flush or swap |
| `AofProtocol.TimelyRunsReloadExactly` | redis-2.8.0/src/aof.c:384-432 | over every run without relative times, PERSIST of expired keys and, during a rewrite, commands on keys that expire before the child's clock: now and later, reloading shows exactly the live dataset, so does what a running rewrite will install, and after a crash exactly the last flushed one |
| `AofProtocol.StepKeeps` | redis-2.8.0/src/aof.c:1043-1177 | every step keeps the invariant behind it |
| `AofProtocol.SwapIsInvisible` | redis-2.8.0/src/aof.c:1110-1140 | installing the rewritten file and clearing the buffer changes nothing a reload could show, now or later, suspects aside |
| `AofProtocol.FeedReplays` | redis-2.8.0/src/aof.c:388-398 | whatever is fed is replayed in the database it was executed in, given the selected database or a forced SELECT |
| `AofEffects.FlushedIsDurable` | redis-2.8.0/src/aof.c:229-320 | after any run that ends with a flush, the file alone shows the live dataset now and later, suspects aside |
| `AofEffects.FeedGoes` | redis-2.8.0/src/aof.c:423-432 | what is propagated goes behind the buffer when the file is on and behind the diff of a rewrite that will be used, and nowhere else |
| `AofEffects.FlushMoves` | redis-2.8.0/src/aof.c:229-320 | a flush moves the buffer to the end of the file |
| `AofEffects.RewriteEnds` | redis-2.8.0/src/aof.c:1043-1177 | a rewrite that ends well replaces file and buffer by snapshot and diff and switches on a waiting file; one that fails changes neither |
| `AofEffects.Switching` | redis-2.8.0/src/aof.c:165-209 | switching on starts a rewrite and waits for it, switching off writes the buffer and drops the rewrite |
| `AofCommands.AliveAreSeen` | redis-2.8.0/src/db.c:758-785 | the keys a lookup finds are those without expiry and those whose expiry is not past |
| `AofCommands.TouchIs` | redis-2.8.0/src/db.c:758-785 | looking a key up deletes it if its expiry is past and changes nothing otherwise |
| `AofCommands.SetIs` | redis-2.8.0/src/t_string.c:65-91 | SET makes the key the string without expiry and touches no other key |
| `AofCommands.SetExIs` | redis-2.8.0/src/t_string.c:65-91 | SETEX, PSETEX and SET with EX or PX let it expire so many seconds or milliseconds from now, and refuse a time that is not positive |
| `AofCommands.DelIs` | redis-2.8.0/src/db.c:235-248 | DEL removes exactly the keys it names |
| `AofCommands.RenameIs` | redis-2.8.0/src/db.c:608-644 | RENAME and RENAMENX: the entry, expiry included, is under the new name, the old name is gone, all else is as before; and when nothing happens |
| `AofCommands.MoveIs` | redis-2.8.0/src/db.c:654-695 | MOVE: the value is in the other database and gone from the old one; and when nothing happens |
| `AofCommands.ExpireIs` | redis-2.8.0/src/db.c:798-842 | the EXPIRE family sets the time named, or deletes the key when it has come |
| `AofCommands.PersistIs` | redis-2.8.0/src/db.c:890-904 | PERSIST takes the expiry away |
| `AofCommands.RPushIs` | redis-2.8.0/src/t_list.c:297-326 | RPUSH appends the arguments in order, creates a missing list, keeps the expiry, refuses another type |
| `AofCommands.LPushIs` | redis-2.8.0/src/t_list.c:297-326 | LPUSH puts the arguments in front, the last one first |
| `AofCommands.PopIs` | redis-2.8.0/src/t_list.c:499-520 | LPOP drops the first element and RPOP the last, and the key goes with its last element |
| `AofCommands.SAddIs` | redis-2.8.0/src/t_set.c:250-275 | SADD is the union with the arguments |
| `AofCommands.SetScores` | redis-2.8.0/src/t_zset.c:841-974 | ZADD gives each member the score before it, the last of several |
| `AofCommands.SetFields` | redis-2.8.0/src/t_hash.c:498-517 | HMSET gives each field the value after it, the last of several |
| `AofCommands.AddIs` | redis-2.8.0/src/t_list.c:297-326 | the collection commands create a missing key, add to one of their type and leave another alone |
| `AofCommands.DirtyWhen` | redis-2.8.0/src/t_set.c:250-275 | what counts as a change: always for lists and hashes, for sets a new member |
| `AofFollow.ExecFollows` | redis-2.8.0/src/db.c:608-842 | replaying at any time what a client command propagated, lazy expiries and translations included, keeps up with what it did (stated command by command in the AofCommands rows) on every key but the suspects |
| `AofFollow.FedFollows` | redis-2.8.0/src/db.c:616-690 | so does replaying any fed commands |
| `AofFollow.ExecClean` | redis-2.8.0/src/db.c:608-842 | a timely command makes no key suspect |
| `AofData.ExecWell` | redis-2.8.0/src/db.c:741-785 | commands keep collections non-empty and expiries positive and propagate for existing databases only |
| `AofData.CleanChangesNothing` | redis-2.8.0/src/t_set.c:250-275 | a command that is not propagated because nothing got dirty changed nothing |
| `AofFollow.SameVisible` | redis-2.8.0/src/db.c:758-785 | datasets that differ only in expired keys show the same keys from then on |
| `AofFollow.PersistSafeIff` | redis-2.8.0/src/db.c:890-904 | PERSIST keeps every replay in step iff the key has not expired |
| `AofRuns.PersistRun` | redis-2.8.0/src/db.c:890-904 | a run after which the key is live for good and no reload at any time has it |
| `AofFollow.LateChildClock` | redis-2.8.0/src/aof.c:846-888 | for every safe command executed after the fork, the snapshot and what was fed reload to the live dataset, iff no key expires between the fork and the child's clock |
| `AofRuns.LateClockRun` | redis-2.8.0/src/aof.c:846-888 | a run, fork at 0, child's clock and swap at 6, after which the live list [x, y] has expired and every reload has [y] |
| `AofFollow.RelativeTimeIff` | redis-2.8.0/src/aof.c:384-421 | SET with EX or PX, executed at one time and replayed at another, shows the same keys from a time on iff the two times are the same or the key is gone by both |
| `AofFollow.RelativeTimeExample` | redis-2.8.0/src/aof.c:384-421 | a SET with PX 5 at time 0 that a load at time 100 brings back until 105 |
| `AofText.ArgvReadBack` | redis-2.8.0/src/aof.c:354-382 | reading the argument vector of a logged command gives the command |
| `AofText.LoadUndoesText` | redis-2.8.0/src/aof.c:476-581 | loading the bytes of a log gives exactly its commands |
| `Layouts.SetCommand` | redis-2.8.0/src/aof.c:322-345 | the bytes of a SET in the file, written out |
| `Resp.DecimalReadBack` | redis-2.8.0/src/aof.c:512-534 | a printed number is read back whatever follows |
| `Resp.CatCommand` | redis-2.8.0/src/aof.c:322-345 | appends the printed command |
| `AofLoader.LoadUndoesPrint` | redis-2.8.0/src/aof.c:506-560 | for arguments of any bytes, the loader executes exactly the printed commands |
| `AofRewrite.RewriteItems` | redis-2.8.0/src/aof.c:603-651 | for any number of items and any limit, the loop that writes headers ahead of the items prints exactly the bounded commands, each header announcing what follows |
| `AofRewrite.ChunksCarryItems` | redis-2.8.0/src/aof.c:680-698 | no command exceeds the limit and together they carry the items in order |
| `AofRewrite.ChunksAreFull` | redis-2.8.0/src/aof.c:603-651 | every command but the last carries as many items as the limit allows |
| `AofSnapshot.ChunksReplay` | redis-2.8.0/src/aof.c:745-767 | replaying the bounded commands is adding all items at once |
| `AofSnapshot.RewriteKey` | redis-2.8.0/src/aof.c:890-918 | the bytes of a key replay to exactly its value and expiry |
| `AofSnapshot.RewriteAppendOnlyFile` | redis-2.8.0/src/aof.c:839-918 | the bytes the child writes replay to exactly the keys alive by its clock |
| `AofServer.AppendToBlocks` | redis-2.8.0/src/aof.c:89-126 | the blocks hold the old bytes and the new ones, all blocks but the last full |
| `AofServer.WriteBlocks` | redis-2.8.0/src/aof.c:131-151 | writes the blocks' bytes in order |
| `AofServer.FeedText` | redis-2.8.0/src/aof.c:384-421 | the text of what is fed, with SELECT when needed |
| `AofServer.Server.constructor` | redis-2.8.0/src/redis.c:1561-1563 | an empty server is an initial state |
| `AofServer.Server.Propagate` | redis-2.8.0/src/aof.c:423-432 | everything fed goes to the buffer when the file is on and to the blocks when a child runs |
| `AofServer.Server.Call` | redis-2.8.0/src/redis.c:1787-1840 | executing a command is the protocol's step, with the effect on the dataset that the AofCommands rows state, and the bytes spell its logs |
| `AofServer.Server.ExpireCycle` | redis-2.8.0/src/db.c:741-785 | so is expiring a key |
| `AofServer.Server.ClockTick` | redis-2.8.0/src/redis.c:990-991 | time passes and nothing else changes |
| `AofServer.Server.FlushAppendOnlyFile` | redis-2.8.0/src/aof.c:229-320 | so is flushing |
| `AofServer.Server.RewriteBackground` | redis-2.8.0/src/aof.c:955-1004 | so is starting a rewrite, refused while a child runs |
| `AofServer.Server.BackgroundRewriteDone` | redis-2.8.0/src/aof.c:1043-1177 | so is the end of a rewrite, well or not |
| `AofServer.Server.StartAppendOnly` | redis-2.8.0/src/aof.c:192-209 | so is switching on |
| `AofServer.Server.StopAppendOnly` | redis-2.8.0/src/aof.c:165-188 | so is switching off |
| `AofServer.Server.BytesReload` | redis-2.8.0/src/aof.c:476-581 | the bytes on disk and in the buffer load as commands whose replay at any time shows the live dataset, now and later, suspects aside; so do those of a running rewrite with its diff, from the time its child has read on |
| `Lzf.Compress` | redis-1.3.6/lzf_c.c:98-294 | for any contents of the match table, a non-zero result decodes to the input, is at most the room and at most len + ceil(len / 32), and only the first outLen + 1 bytes are written; with room for len + len / 32 + 4 bytes the result is not zero; a run of one byte always shrinks to at most len / 88 + 12 bytes |
| `Lzf.MatchLength` | redis-1.3.6/lzf_c.c:170-232 | a match is as long as the bytes agree, up to 264 bytes and to two bytes before the end |
| `Lzf.Matches` | redis-1.3.6/lzf_c.c:151-166 | an entry is followed iff it points to the same three bytes, less than 8192 back and not to the very first byte |
| `Lzf.Decompress` | redis-1.3.6/lzf_d.c:55-149 | returns what the stream decodes to, 0 exactly when it is malformed or does not fit, and writes nothing beyond the room |
| `Lzf.RoundTrip` | redis-1.3.6/redis.c:3053-3079 | compressing and decompressing into any sufficient buffer gives the input |
| `Lzf.FollowedEntryIsInside` | redis-1.3.6/lzf_c.c:152-162 | an entry of the uninitialised table that passes the test points into the bytes already read |
| `LzfFormat.ExtendReference` | redis-1.3.6/lzf_c.c:196-232 | a back reference in the short or the long form extends the decoded text by the matched bytes, overlapping or not |
| `LzfFormat.LiteralToken` | redis-1.3.6/lzf_d.c:68-93 | a control byte below 32 announces one literal more than it says |
| `LzfFormat.ShortToken` | redis-1.3.6/lzf_d.c:94-131 | three bits of length less two and thirteen bits of distance less one |
| `LzfFormat.LongToken` | redis-1.3.6/lzf_d.c:94-131 | with all three bits set, one more byte of length less nine |
| `LzfFormat.CopyBackIs` | redis-1.3.6/lzf_d.c:132-142 | a copy keeps what was there, and each new byte equals the one that distance before it |
| `RdbFormat.LenBack` | redis-1.3.6/redis.c:2993-3013 | a length in the 6, 14 or 32 bit form is read back and nothing more |
| `RdbFormat.TimeBack` | redis-1.3.6/redis.c:3396-3400 | an expiry time is read back iff it fits 32 bits |
| `RdbFormat.IntegerBack` | redis-1.3.6/redis.c:3433-3455 | an 8, 16 or 32 bit integer is read back as its decimal text |
| `RdbFormat.ScoreBack` | redis-1.3.6/redis.c:3139-3157 | a score is read back, not-a-number and infinities included |
| `Rdb.SaveString` | redis-1.3.6/redis.c:3083-3110 | whichever of integer, LZF and raw form is written, it is read back as the string, leaving what follows; a 32-bit integer is written in the integer form, and with compression a run of one byte takes at most len / 88 + 23 bytes |
| `Rdb.IntegerOfDecimal` | redis-1.3.6/redis.c:3018-3050 | every integer of 32 bits is recognised in its decimal form |
| `Rdb.SaveObject` | redis-1.3.6/redis.c:3159-3235 | every type of value is read back as itself, in any order of its members |
| `Rdb.SaveKey` | redis-1.3.6/redis.c:3292-3324 | at any time of loading and from any loader without the key, a key is read back with value and expiry unless the expiry lies before the save or the load; nothing is written for one that lies before the save |
| `Rdb.Save` | redis-1.3.6/redis.c:3256-3328 | loading the file, at any time, gives exactly the keys without expiry and those whose expiry lies neither before the save nor before the load, with their values |
| `Rdb.KeptLater` | redis-1.3.6/redis.c:3644-3692 | loaded later, these are the keys whose expiry is not past at load time |
| `Layouts.RdbOfOne` | redis-1.3.6/redis.c:3644-3692 | a file of one expiring key, byte for byte, and what it loads as |
| `Layouts.ObjectKinds` | redis-1.3.6/redis.c:3524-3616 | the bytes of strings, lists, sets and hashes of short strings |
| `RequestStream.EveryChunkingDispatches` | redis-1.3.6/redis.c:2304-2384 | for every list of callable commands with arguments of any bytes and every cut of their printed form into reads, exactly those commands are executed in order and nothing else happens |
| `RequestForms.EveryMixDispatches` | redis-1.3.6/redis.c:2072-2384 | the same for every mix of counted arguments, lines of words, lines that announce their last argument, wrong lines and empty lines, however cut into reads: commands executed in order with exactly their arguments, wrong lines counted as errors, empty lines ignored |
| `RequestForms.WordsSplit` | redis-1.3.6/redis.c:2333-2348 | a text without spaces is one word, and a space ends a word |
| `RequestForms.WordsOfJoined` | redis-1.3.6/redis.c:2333-2348 | words joined by spaces are split into the same words in order |
| `RequestForms.ArityIff` | redis-1.3.6/redis.c:2162-2163 | a positive arity is exact, a negative one a minimum |
| `RequestForms.LookupFinds` | redis-1.3.6/redis.c:2033-2040 | the command is the first of the table with the name, ignoring case |
| `Request.AnySplit` | redis-1.3.6/redis.c:2304-2384 | for any bytes below the request limit, well-formed or not, no split into reads matters |
| `Request.StepMore` | redis-1.3.6/redis.c:2315-2333 | a step looks at no byte it does not consume |
| `RequestCode.FastPath` | redis-1.3.6/redis.c:2188-2198 | taking a bulk argument that is already in the buffer is the step the loop would take next |
| `RequestCode.Connection.constructor` | redis-1.3.6/redis.c:2043-2047 | a fresh client |
| `RequestCode.Connection.Process` | redis-1.3.6/redis.c:2072-2232 | processCommand on the fields agrees with the specification on all input it leads to |
| `RequestCode.Connection.ProcessInputBuffer` | redis-1.3.6/redis.c:2304-2384 | does everything the bytes at hand allow |
| `RequestCode.Connection.ReadQuery` | redis-1.3.6/redis.c:2386-2415 | bytes are appended and processed |
| `BlpopSpec.EveryRunKeeps` | redis-1.3.6/redis.c:6923-6966 | in every reachable state each blocked client is queued once and no key somebody waits for has a list with elements, but for the keys at which the run put a list down while somebody waited |
| `BlpopSpec.StepKeepsIff` | redis-1.3.6/redis.c:4162-4240 | if nobody waits for a list with elements, nobody does after a step iff the step does not RENAME, MOVE or SORT STORE one to a key somebody waits for |
| `BlpopSpec.RunKeepsIff` | redis-1.3.6/redis.c:4162-4240 | in all states of a run nobody waits for a list with elements iff no step of the run is such a one |
| `BlpopRuns.RenameRun` | redis-1.3.6/redis.c:4162-4189 | BLPOP b, LPUSH a x, RENAME a b: the client still waits for b, where x is |
| `BlpopSpec.PushGoesOnePlace` | redis-1.3.6/redis.c:4244-4283 | a pushed element goes to the one client that has waited longest, which then waits for nothing, or into the list |
| `BlpopEffects.BlockingPopTakes` | redis-1.3.6/redis.c:6923-6960 | with vacant keys before it, the key with elements loses its first or last element to the client, and nobody is blocked |
| `BlpopEffects.BlockingPopFails` | redis-1.3.6/redis.c:6930-6934 | a value of another type before any elements changes nothing |
| `BlpopEffects.BlockingPopWaits` | redis-1.3.6/redis.c:6961-6966 | with vacant keys only the client is queued last, for all of them |
| `BlpopEffects.PushServes` | redis-1.3.6/redis.c:6902-6920 | the first client in the queue that waits for the key gets the element and leaves the queue, and the list is not touched |
| `BlpopEffects.PushStores` | redis-1.3.6/redis.c:4244-4283 | with nobody waiting LPUSH puts the element first and RPUSH last, and another type is refused |
| `BlpopEffects.PopTakes` | redis-1.3.6/redis.c:4347-4369 | LPOP takes the first element, RPOP the last |
| `BlpopEffects.RPopLPushMoves` | redis-1.3.6/redis.c:4510-4553 | the last element of the source becomes the first of the target; with one key the list is rotated |
| `BlpopEffects.ExpireAnswers` | redis-1.3.6/redis.c:1135-1139 | a client is answered by the clock iff it is blocked with a non-zero timeout that is past |
| `BlpopEffects.RenameMoves` | redis-1.3.6/redis.c:4162-4189 | the value is under the new name as it was, the old name is gone, and when nothing happens |
| `BlpopEffects.OldestStandsFirst` | redis-1.3.6/redis.c:6902-6920 | the client served is the one that stands first among those that wait for the key |
| `BlpopConservation.EveryRunConserves` | redis-1.3.6/redis.c:4244-4553 | over every run of pushes, pops, blocking pops, moves between lists, renames, moves between databases, stored sorts, timeouts, disconnects and deletes, the copies of an element that were there or came in are those in lists, in replies to blocking clients and among the elements taken out |
| `BlpopConservation.StepConserves` | redis-1.3.6/redis.c:6902-6966 | each step accounts for every element: handing one to a blocked client or moving it between lists neither loses nor copies it |
| `BlpopCode.HeadIsOldest` | redis-1.3.6/redis.c:6902-6920 | the head of a key's waiting list is the client that has waited longest for it |
| `BlpopCode.Db.constructor` | redis-1.3.6/redis.c:6827-6832 | nobody waits |
| `BlpopCode.Db.BlockForKeys` | redis-1.3.6/redis.c:6827-6858 | the client is queued last, and every key's list gains it once for each time it names the key |
| `BlpopCode.Db.UnblockClient` | redis-1.3.6/redis.c:6861-6889 | the client leaves the queue and every list, and no empty list is kept |
| `BlpopCode.Db.HandleWaiting` | redis-1.3.6/redis.c:6902-6920 | the element goes to the client that has waited longest, if there is one |
| `BlpopCode.Db.PushGeneric` | redis-1.3.6/redis.c:4244-4283 | pushing is the step that PushServes and PushStores state: to the first client that waits, or to the head or the tail of the list |
| `BlpopCode.Db.PopGeneric` | redis-1.3.6/redis.c:4347-4369 | returns and removes the first or last element |
| `BlpopCode.Db.BlockingPopGeneric` | redis-1.3.6/redis.c:6923-6966 | BLPOP pops the first element of the first key with elements, BRPOP the last; fails on another type before it; blocks otherwise (BlockingPopTakes, BlockingPopFails, BlockingPopWaits) |
| `BlpopCode.Db.RPopLPushCommand` | redis-1.3.6/redis.c:4510-4553 | the element moves to the waiting client or to the target, also when source and target are one |
| `BlpopCode.Db.CheckTimeout` | redis-1.3.6/redis.c:1135-1139 | a client is answered and unblocked iff it is blocked with a timeout that is past (ExpireAnswers) |
| `BlpopCode.Db.FreeClient` | redis-1.3.6/redis.c:1807-1820 | a freed client is unblocked |
| `BlpopCode.Db.RenameGeneric` | redis-1.3.6/redis.c:4162-4189 | the list goes to the new name, refused for the same name, a missing key or an existing one under RENAMENX; waiting clients are left alone and the key is noted if there are any |
| `BlpopCode.Db.MoveIn` | redis-1.3.6/redis.c:4226-4239 | a key that is not here yet is added, with the same note |
| `BlpopCode.Db.SortStore` | redis-1.3.6/redis.c:6397-6441 | the sorted elements become the list at the key whatever was there, with the same note |
| `ZipmapCode.RunRefines` | redis-1.3.6/zipmap.c:161-326 | after any sequence of sets and deletes of short keys the entries are the map, no key is there twice, the number of entries is the map's size and every lookup answers from the map |
| `ZipmapRuns.Execute` | redis-1.3.6/zipmap.c:244-326 | any sets and deletes of short keys on one byte buffer below four gigabytes leave well-formed bytes that hold exactly the map, each key once |
| `ZipmapRuns.ExecuteThenGet` | redis-1.3.6/zipmap.c:365-373 | and every lookup in those bytes answers from the map |
| `ZipmapMeaning.SetRefines` | redis-1.3.6/zipmap.c:244-309 | setting a short key sets it in the map, in place, in an empty block, at the end or by releasing its entry and setting it again |
| `ZipmapCode.DelRefines` | redis-1.3.6/zipmap.c:313-326 | deleting a short key removes it from the map |
| `ZipmapMeaning.FindRefines` | redis-1.3.6/zipmap.c:161-203 | a lookup of a short key finds its entry iff the map has the key |
| `ZipmapMeaning.SetThenGet` | redis-1.3.6/zipmap.c:192-192 | a key set in a map of short keys is found iff it is short or spells its own length followed by itself |
| `ZipmapMeaning.RawMatchIff` | redis-1.3.6/zipmap.c:191-193 | what the comparison at `p+1` compares, for every stored key |
| `ZipmapCode.LongKeyLost` | redis-1.3.6/zipmap.c:192-192 | a key of 253 bytes that is set and not found |
| `ZipmapCode.EntriesAreContents` | redis-1.3.6/zipmap.c:381-387 | the number of entries is the size of the map |
| `ZipmapFormat.EntryRead` | redis-1.3.6/zipmap.c:215-239 | the length helpers recover every part of an entry wherever it is in the buffer |
| `Layouts.ZipmapOfTwo` | redis-1.3.6/zipmap.c:43-78 | two short entries set in an empty zipmap give the bytes that the head of the file shows |
| `ZipmapCode.Zipmap.constructor` | redis-1.3.6/zipmap.c:115-121 | an empty buffer |
| `ZipmapCode.Zipmap.LookupRaw` | redis-1.3.6/zipmap.c:161-203 | the offset of the first match, or the size of the buffer and the first empty block with room |
| `ZipmapCode.Zipmap.Set` | redis-1.3.6/zipmap.c:244-309 | the buffer stays well formed and parses to the specified items; the recursion ends; at most five unused bytes per entry; the buffer does not grow when the key's entry or some empty block has room |
| `ZipmapCode.Zipmap.Del` | redis-1.3.6/zipmap.c:313-326 | the entry becomes an empty block of its size |
| `ZipmapCode.Zipmap.Get` | redis-1.3.6/zipmap.c:365-373 | the value of the first match |
| `ZipmapCode.Zipmap.Next` | redis-1.3.6/zipmap.c:344-361 | the next entry's key and value, and the offset to go on from |
| `ZipmapCode.Zipmap.Len` | redis-1.3.6/zipmap.c:381-387 | the number of entries |
| `DictCode.NextPower` | redis-1.3.6/dict.c:426-436 | the least power of two that is large enough, from four on |
| `DictCode.IndexIsMask` | redis-1.3.6/dict.c:190-190 | the bucket of a key is its hash masked with the size less one |
| `DictCode.Rehash` | redis-1.3.6/dict.c:156-204 | every entry ends up in its bucket of the new table, none is lost or duplicated |
| `DictCode.Dict.constructor` | redis-1.3.6/dict.c:125-143 | an empty table |
| `DictCode.Dict.Expand` | redis-1.3.6/dict.c:156-204 | same map and same entries in a table of a power of two with room for the size asked for, refused when the entries do not fit |
| `DictCode.Dict.Resize` | redis-1.3.6/dict.c:146-153 | always succeeds, keeps the map and the entries and leaves the least power of two, from four on, that holds them |
| `DictCode.Dict.ExpandIfNeeded` | redis-1.3.6/dict.c:414-423 | there is room for one more entry: a full table doubles exactly, an empty one gets four buckets, another stays |
| `DictCode.Dict.Find` | redis-1.3.6/dict.c:329-343 | the entry of the key with the map's value, or none iff the map lacks the key |
| `DictCode.Dict.Add` | redis-1.3.6/dict.c:207-227 | adds to the map iff the key was not there, with no entry lost and at most a new one |
| `DictCode.Dict.Replace` | redis-1.3.6/dict.c:233-253 | sets the key in the map and says whether it was new, with no entry lost and at most a new one |
| `DictCode.Dict.Delete` | redis-1.3.6/dict.c:256-286 | removes exactly the key's entry, and says where it was |
| `DictCode.Iterator.constructor` | redis-1.3.6/dict.c:345-354 | stands before the first bucket |
| `DictCode.Iterator.Next` | redis-1.3.6/dict.c:356-375 | the next entry in bucket order, even when the one returned before is gone |
| `DictCode.DeleteWhileIterating` | redis-1.3.6/dict.c:356-375 | an iteration that deletes returned entries is given every original entry and leaves exactly the others |
| `DictCode.FlatOnce` | redis-1.3.6/dict.c:356-375 | bucket order lists every entry exactly once |
| `DictRuns.Execute` | redis-1.3.6/dict.c:207-286 | after any additions, replacements and deletions in any order, through every growth, the table is valid and is the map |
| `Pqsort.Sort` | redis-1.3.6/pqsort.c:99-188 | a permutation of the segment after which nothing before a position of the range is larger and nothing after it smaller, across pivots, partitions, the insertion-sort switch and skipped parts |
| `Pqsort.AsFullSort` | redis-1.3.6/pqsort.c:190-197 | in the range every position holds the rank that any full sort puts there |
| `Pqsort.Med3` | redis-1.3.6/pqsort.c:89-97 | one of the three positions, holding a middle element |
| `Pqsort.Partition` | redis-1.3.6/pqsort.c:129-155 | equal, smaller, larger, equal around the pivot, a permutation |
| `Pqsort.Gather` | redis-1.3.6/pqsort.c:164-168 | smaller, equal, larger, a permutation |
| `Pqsort.InsertionSort` | redis-1.3.6/pqsort.c:111-116 | sorted, a permutation |

## Left out

- Sockets, event loops, configuration, INFO, replication, MULTI and SORT options: plumbing or easier claims.
- The file system: files are byte or command sequences, rename and fork are single steps, fsync timing is not modelled; a failed or short write of the append-only file ends the server and so ends the run.
- Reference counts and memory accounting; only the effects of decrRefCount that release swap pages or cancel jobs are kept.
- Integers are unbounded except where a width matters (lengths, 32-bit times, LZF offsets and hash); overflow of expiry arithmetic and of `atoi` is not modelled.
- Scores are reals in the sorted set and opaque texts in the files; printing and reading doubles is not modelled.
- VmTheorems.EveryRunIsSafe: its cancellations look for the key with its database, where the source compares names only; `VmDatabases.CancelByNameIff` says exactly when that is the same.
- VmServer.Server.SearchQueue: looks for the key with its database too, for the same reason.
- VM: a value keeps its bytes, so that it is written with the encoding it was read with; DEBUG SWAPOUT and swapping while loading are not steps.
- VM: vm_blocked_clients and the waking of clients whose awaited key is deleted while loading.
- The random level of a skiplist node is any value in 1..32; the source does not cap it (redis-1.3.6/redis.c:4974-4979).
- Append-only file: client commands other than SET, SETEX, PSETEX, SET with EX or PX, DEL, RENAME, RENAMENX, MOVE, PERSIST, the EXPIRE family, RPUSH, LPUSH, LPOP, RPOP, SADD, ZADD and HMSET; command names are logged in their canonical spelling; the clock stands still within one command.
- Append-only file: the commands of EVAL and MULTI, and clients woken by a push.
- Append-only file: the NX and XX options of SET; one load reads the clock once.
- RDB: a compressed string that expands to less than the announced length is refused by the model where the source would return uninitialised bytes; duplicate members of a hash keep the first value; zipmap-encoded hashes are maps.
- Request parser: a client blocked by BLPOP or by a swapped key, authentication and maxmemory; a line of several words where a bulk count is expected is followed as values (the source reads a freed object there).
- BLPOP: blocked clients have an empty input buffer; LSET, LTRIM and LREM, which give no key its first element, and expiring keys are not steps; how SORT computes what it stores.
- zipmap: buffers stay below four gigabytes.
- Hash table: tables stay below LONG_MAX buckets; hash functions are any function; dictGetRandomKey and clearing.
- pqsort: the comparison function is any total preorder, given as a rank; word-wise swapping is one swap.
- The append-only rewriter of redis-1.3.6, ziplists, intsets and the incremental rehash of redis-2.8.0.
