# Forest storage engine: model and proofs

Forest is a key-value store built as an LSM tree. Writes go to a write-ahead log and into a skip-list MemTable; full
MemTables are frozen, flushed to sorted L0 files and compacted into L1 files; readers search active table, immutable
table, L0 and L1 without locks and pin the file manifest by a reference count. It should behave like one plain map while
background work moves data between the layers.

The model has five connected parts and one add-on.

- **The engine as a step machine** (`Engine`, `EngineSafety`, `EngineVersions`, `EngineLinear`, `EngineProtocol`,
  `EngineDue`, `EngineLog`, `EngineLimits`). Every thread is a program counter; a step is one pointer load or store, compare-and-swap,
  lock acquisition, MemTable operation or file operation. A run is any interleaving. MemTables are numbered as a log of which
  only the last may change; every file stands for a stretch of that log, and a manifest is a chain of such stretches.
  `EngineRace`, `EngineRaceView` and `EngineRaceLimits` add a second compactor, `TriggerCompaction` in any other thread.
- **The skip list** (`SkipList`, `SkipListSearch`, `SkipListRuns`, `SkipListEnds`, `SkipListLimits`,
  `MemTables`). A heap of nodes with 16
  forward pointers. One set of lemmas about single pointer stores serves both the lock-free machine, in which readers run between
  any two stores of a `Put`, and the class `MemTable` with the sequential methods. Every run
  of the lock-free machine is a run of an atomic table in which a `Put`, a `Get` and a `Freeze` are single steps
  (`StepsAreAtomic`, `GetsAreAtomic`), which is how the engine's machine takes them.
- **Compaction** (`Compactor`, `CompactionUnion`). The iterator, the heap order and the nested merge loop, proved to write
  the newest-wins union of the inputs; the step machine's compaction step is the same union.
- **The table file** (`Entries`, `Bloom`, `TableFormat`, `TableWriter`, `TableReader`). Bytes of records, sparse index,
  Bloom filter and footer; writer and point lookup, proved to agree with the sorted list.
- **The log** (`Wal`). Record bytes, buffered append, replay of a log cut at any byte.
- **The engine over real bytes** (`DbReads`, `Limits`, `Shots`, `Db`, `DbRuns`). The class `DB` joins MemTables, log and
  files: `Get`, `Scan`, `Put`, `Delete`, rotation, the worker's turns and reopening, one at a time. Every method's effect
  is a function on snapshots (`Shots`), and `DbRuns` shows that every snapshot so reached is a state of a run of the step
  machine, so what holds of all runs holds of the class. `Limits` bounds what a file will have to hold.
- **The client/server stream** (`Session`), over the class `DB`: single calls, and any sequence of calls on a
  connection, with or without worker turns between them.

Hash functions are parameters: FNV-1a of a key and CRC-32 of a record are arbitrary functions of bytes, so nothing proved
here leans on collision resistance. Reads and writes of files succeed.

Words used below: the *view* is what a `Get` that ran in one instant would find; a value of length zero is a tombstone and
reads as missing; *the empty key* is the key of length zero.

## Where the code falls short of its documentation

These are results of the proofs. Each names the member that shows it.

- Compaction drops the empty key, because `lastKey` starts out nil (compactor.go:104, 134). A key survives exactly when it
  is not empty or no input has it: `CompactionUnion.CompactionKeepsKey`.
- A table whose first key has more than 65529 bytes makes some lookups panic, because `6 + firstKeyLen` is 16-bit
  arithmetic (sstable.go:242-243). All lookups are right exactly when the first key is at most 65529 bytes long:
  `TableReader.EveryLookupRight`.
- A purge waits for the readers of one version only (compactor.go:165-175, db.go:431), so a reader that pinned an earlier
  version can meet a deleted file. `EngineLimits.GetMeetsDeletedFile` is a run in which it does; `EngineLimits.ReadErrorExactly`
  says exactly when it does.
- A compaction started from outside swaps the manifest without excluding the flush worker (db.go:135, 406-428, 451-461).
  It is safe in every run in which no compaction of the worker's own fails: `EngineRaceView.OutsideCompactionIsSafe`. After
  a failure level 0 stays full while the worker flushes, and either swap may replace a version it was not made from.
  `EngineRaceView.OutsideSwapExactly` and `EngineRaceView.FlushSwapExactly` say what the first such swap does to every key;
  `EngineRaceLimits.SwapLosesKey` and `EngineRaceLimits.FlushRelistsDeletedFile` are runs in which a flushed key is lost and
  in which the current manifest lists a deleted file.
- Two writers of one key may pass log and table in different orders (db.go:307, 314), after which log and memory disagree:
  `EngineLimits.WritersOvertake`. They agree on a key exactly when its last append and its last insert carry one value,
  `EngineLog.LogAgreesExactly`, and so whenever no two calls on that key overlap between append and insert,
  `EngineLog.LogReplaysTheView`; calls on other keys may overlap as they like.
- A lock-free MemTable miss is as of the level-0 load that ended the descent: `SkipListRuns.DescentEndsAbsent`,
  `SkipListRuns.MissIsAsOfDescent`. The last look at the next node (memtable.go:182) misses a key that is in the table at
  that instant exactly when a smaller key has been linked in between: `SkipListRuns.LateMissExactly`; a run in which it
  does: `SkipListLimits.GetMissesPresentKey`.
- The repository's README says that every acknowledged write survives a crash. `Append` only buffers (wal.go:77-87), so the
  file is unchanged when it returns, which `Wal.Log.Append` states. What survives is a prefix: `Db.CrashKeepsPrefix`.
- Recovery does not cut a torn tail off before new records are appended behind it (wal.go:38, 167-174). All later appends
  are readable if and only if the recovery left nothing over: `Wal.AppendsReadableExactly`, for every checksum and every
  leftover, one shorter than a header included. Which appends are lost depends on the checksum; those too short to complete
  the torn record are lost under any: `Wal.LostBehindTornTail`. So `Wal.TornTail` is about one crash.
- A found key of 65535 bytes is answered with the length that means "not found", and the stream is out of step from then on
  (handler.go:86, client.go:200-204): `Session.SentinelClash`, `Session.Client.Get`.

## Model

| member | source | states |
|---|---|---|
| EngineVersions.RunInv | internal/engine/db.go:141-514 | In every state of every run of readers, writers, rotations, flushes, manifest swaps, compactions, purges and a Close the whole invariant holds |
| EngineVersions.InvInRange | internal/engine/db.go:141-514 | In such a state no thread holds a table, file or version that does not exist |
| EngineSafety.ViewIsNewest | internal/engine/db.go:141-202 | Active table, immutable table and current files together hold, for every non-empty key, the newest entry of the whole log of MemTables |
| EngineSafety.VersionIsPrefix | internal/engine/db.go:173-199 | The files of any published version answer like the newest of the MemTables the version covers |
| EngineLinear.OnlyInsertsChangeTheView | internal/engine/db.go:366-466 | Every step, also between two adjacent pointer stores of rotation, flush and compaction, leaves the view of every non-empty key alone, except a MemTable insert, which sets its own key |
| EngineLinear.LastWriteWins | internal/engine/db.go:312-324 | From a write's insert on, until another insert of the same key, every later state shows its value: no rotation, flush or compaction loses it |
| EngineLinear.GetIsLinearizable | internal/engine/db.go:141-202 | A Get that returns without error returns the value the view held for its key in some state between its first step and its return |
| EngineLimits.ErrorMeansMissingFile | internal/engine/db.go:141-202 | In any run, a Get that returns an error was, at some state of the call, about to search a file already deleted; no other statement of a Get fails |
| EngineProtocol.RefsCountHolders | internal/engine/version.go:26-44 | Refs is the number of readers between Acquire and Release, or -1 with no such reader and a newer version published |
| EngineProtocol.MarkedForever | internal/engine/version.go:26-36 | Once a purge has set Refs to -1 it stays -1 and no reader ever holds the version again |
| EngineProtocol.CurrentFilesExist | internal/engine/compactor.go:165-182 | No file of the current manifest is ever deleted |
| EngineProtocol.PurgedFilesStayOut | internal/engine/db.go:408-431 | No manifest newer than the one a purge waits on names a file handed to that purge |
| EngineProtocol.ManifestsAreOrdered | internal/engine/db.go:396-461 | In every published manifest files are distinct and listed oldest to newest per level, and every L1 file is older than every L0 file |
| EngineProtocol.SendNeverBlocks | internal/engine/db.go:366-377 | The send into the flush queue under mu finds it empty; at most one table is queued and it is the immutable one |
| EngineProtocol.CloseFlushesEverything | internal/engine/db.go:439-514 | Tables are flushed in order and none twice; when Close returns every rotated table has been flushed, and the last one too if its size is positive |
| EngineProtocol.FrozenForever | internal/engine/db.go:366-377 | The contents of a frozen table never change again |
| EngineDue.BackgroundWorkIsDue | internal/engine/db.go:350-478 | In every state of every run a frozen table has grown to the flush threshold, every table handed to FlushMemTable holds data, and every finished compaction took at least as many files as its threshold asks for |
| EngineLog.LogAgreesExactly | internal/engine/db.go:306-347 | In any state of any run, replaying the log gives what the layers hold for a non-empty key if and only if the key's last append and last insert carry the same value |
| EngineLog.SerialRun | internal/engine/db.go:306-347 | While no two calls on a key overlap between append and insert, a call between the two carries the last append, and without one last append and last insert agree |
| EngineLog.LogReplaysTheView | internal/engine/db.go:306-347 | If no two calls on a key ever overlap between append and insert and none is there now, replaying the whole log gives exactly what the layers hold for the key, tombstones included, whatever calls on other keys do |
| EngineLog.RestartKeepsTheView | internal/engine/db.go:76-118 | A new engine opened on that log starts from the same entry for the key |
| EngineLimits.ReadErrorExactly | internal/engine/compactor.go:162-182 | A Get meets a missing file if and only if a purge that waited on a strictly newer version than the reader's has deleted it |
| EngineLimits.GetMeetsDeletedFile | internal/engine/db.go:430-431 | There is a run in which that happens: two flushes, one compaction, one reader pinned in between |
| EngineLimits.WritersOvertake | internal/engine/db.go:306-325 | There is a run after which two finished Puts of one key have left one value in the table and the other as the log's last |
| EngineRace.RaceRun | internal/engine/db.go:134-137 | With TriggerCompaction as a second compactor, the whole invariant holds in every state of every run as long as no swap was stale, also while a flush has loaded a version that is no longer current |
| EngineRace.CalmRun | internal/engine/db.go:386-393 | As long as no compaction of the worker's own fails, no swap is ever stale |
| EngineRace.GivingUpIsHarmless | internal/engine/db.go:400-403 | A TriggerCompaction that fails leaves the engine as it was and the lock free for the next one |
| EngineRaceView.OutsideCompactionIsSafe | internal/engine/db.go:134-137 | In such a run every step of every thread, TriggerCompaction's included, leaves the view of every non-empty key alone, except an insert |
| EngineRaceView.RaceGetIsLinearizable | internal/engine/db.go:141-202 | Get is linearizable beside TriggerCompaction, up to the first stale swap |
| EngineRaceView.RaceErrorMeansMissingFile | internal/engine/db.go:141-202 | Beside TriggerCompaction too, in every run with or without stale swaps, a Get that returns an error has met a deleted file |
| EngineRaceView.OutsideSwapExactly | internal/engine/db.go:405-428 | If no swap before was stale, the swap of an outside compaction loses the files flushed since the version it was made from, and a key reads as before if and only if a table holds it or those files say nothing, or nothing new, about it |
| EngineRaceView.FlushSwapExactly | internal/engine/db.go:451-461 | If no swap before was stale, the swap of a flush leaves every non-empty key alone, and its manifest lists a file handed to a purge if and only if it was not made from the current version |
| EngineRaceLimits.SwapLosesKey | internal/engine/db.go:405-428 | There is a run, after a failed compaction of the worker's, whose last step is an outside swap after which a key is in no layer that was stored just before |
| EngineRaceLimits.FlushRelistsDeletedFile | internal/engine/db.go:451-461 | There is a run, after such a failure, whose last step is a flush's swap after which the current manifest lists a deleted file |
| SkipList.StoreValKeeps | internal/engine/memtable.go:96-111 | The value store of an update keeps the list's structure and changes what the table says of that key alone |
| SkipList.WireKeeps | internal/engine/memtable.go:133-137 | Wiring a pointer of a node at a level it is not linked on is invisible |
| SkipList.LinkKeeps | internal/engine/memtable.go:139-144 | One store of the publication loop keeps every level ordered; only the level-0 store changes what the table says, and only of the new key |
| SkipListSearch.LevelSorted | internal/engine/memtable.go:14-29 | The nodes met on a level have strictly ascending keys |
| SkipListSearch.LevelsNest | internal/engine/memtable.go:139-144 | Every level is contained in the level below |
| SkipListSearch.SearchEnds | internal/engine/memtable.go:96-97 | Where a search stops on level 0 the key is at the next node or nowhere |
| SkipListSearch.ListingIsTable | internal/engine/memtable.go:231-264 | Walking level 0 lists every key once, in ascending order, with the value the table holds for it |
| SkipListRuns.StepKeeps | internal/engine/memtable.go:65-205 | Every single load or store of a writer, a freezer or a reader keeps the invariant |
| SkipListRuns.ListsAlwaysSound | internal/engine/memtable.go:65-146 | At every store of every run each level is sorted and nested in the one below, and the table is the replay of the writes that took effect: one per Put that returned, and at most one more in hand |
| SkipListRuns.OneStoreTakesEffect | internal/engine/memtable.go:106-144 | A Put takes effect at one store, the value store or the level-0 link; no other step changes the table |
| SkipListRuns.TableGetIsLinearizable | internal/engine/memtable.go:151-191 | What a lock-free Get returns is what the table said of its key at some instant of the call |
| SkipListRuns.PresentIsFound | internal/engine/memtable.go:151-191 | A key that is in the table when Get starts is found |
| SkipListRuns.LateMissExactly | internal/engine/memtable.go:181-190 | In any state, the last look of a reader whose key is in the table misses it if and only if a key between the reader's node and its own is on level 0 |
| SkipListRuns.DescentEndsAbsent | internal/engine/memtable.go:156-180 | At the load that ends the descent on level 0 the key is absent |
| SkipListRuns.MissIsAsOfDescent | internal/engine/memtable.go:151-191 | Every Get that returns a miss had its key absent at that load |
| SkipListRuns.StepsAreAtomic | internal/engine/memtable.go:65-205 | Every run maps step by step to a run of an atomic table of a map and a frozen flag: each step is one whole Put, one Freeze or nothing, and a Put is refused exactly when the flag is set at its check |
| SkipListRuns.GetsAreAtomic | internal/engine/memtable.go:151-191 | A Get's result is the atomic table's entry at some state of the call |
| SkipListLimits.GetMissesPresentKey | internal/engine/memtable.go:181-190 | There is a run in which the last look of a Get misses a key that a finished Put has stored |
| SkipListRuns.FrozenStays | internal/engine/memtable.go:65-79 | Once the frozen flag is set, neither nodes nor values nor the size change again, in-flight writers included |
| SkipListEnds.SizeIsSum | internal/engine/memtable.go:96-131 | Between two writers the size estimate is the sum of key and value lengths at each key's first write |
| SkipListEnds.FreezeTakes | internal/engine/memtable.go:201-205 | A Freeze that returns has set the flag |
| SkipListEnds.LinkedInFull | internal/engine/memtable.go:139-145 | The publication loop ends only when the new node is on every level up to its height |
| MemTables.RandomLevel | internal/engine/memtable.go:54-60 | Any height from 1 to 16 |
| MemTables.MemTable.FindPreds | internal/engine/memtable.go:80-94 | The search of Put finds the predecessor of the key on every level |
| MemTables.MemTable.Put | internal/engine/memtable.go:65-146 | For any height chosen the table becomes its own update at the key, the size grows only for a new key, and a frozen table refuses |
| MemTables.MemTable.Insert | internal/engine/memtable.go:113-145 | Bottom-up linking of a new node turns the map into its update at the key |
| MemTables.MemTable.Get | internal/engine/memtable.go:151-191 | Get returns the map's entry |
| MemTables.MemTable.Scan | internal/engine/memtable.go:213-267 | Scan returns exactly the map's pairs within the inclusive bounds, tombstones included, strictly ascending |
| MemTables.BoundsAreInclusive | internal/engine/memtable.go:207-267 | A key lies within the bounds if it equals one or lies strictly between them; an empty bound does not bound |
| ByteStrings.LessIsCompare | internal/engine/memtable.go:88-97 | The order of keys is that of bytes.Compare: at the first position where two keys differ the smaller one has ended or has the smaller byte |
| ByteStrings.PutBytes | internal/engine/wal.go:63-74 | Byte i of a field of any width is digit width - 1 - i of the value to base 256 |
| ByteStrings.PutGet | internal/engine/wal.go:163-166 | Writing a value read from a field of any width gives back its bytes |
| MemTables.MemTable.Freeze | internal/engine/memtable.go:201-205 | Freeze sets the flag and leaves the map |
| MemTables.FlushMemTable | internal/engine/sstable.go:31-148 | The file is the table file of exactly the MemTable's entries in key order |
| CompactionUnion.CompactionIsUnion | internal/engine/compactor.go:107-153 | The file the merge loop writes for a batch is the file the step machine's compaction step adds |
| CompactionUnion.CompactionKeepsKey | internal/engine/compactor.go:104-141 | Replacing a batch by its output keeps what a reader finds for a key if and only if the key is not empty or no input has the empty key |
| CompactionUnion.CompactionUnique | internal/engine/compactor.go:60-160 | The inputs alone decide the output: any two lists that meet the compactor's contract are equal, whatever the heap's layout or the order of its ties |
| CompactionUnion.OutputFromInputs | internal/engine/compactor.go:131-141 | Every entry of the output, op code included, stands in an input; lengths that fit go on fitting |
| Compactor.ItemLessTransitive | internal/engine/compactor.go:33-41 | The heap order by key, newer file first, is transitive on its negation, so a least item exists |
| Compactor.SSTIterator.Open | internal/engine/iterator.go:29-67 | A file is refused exactly when it is too short or lacks the magic number; otherwise the iterator stands before the table's first entry |
| Compactor.RefusedExactly | internal/engine/iterator.go:29-67 | A file is refused if and only if it has no whole footer or does not end with the bytes F0 E5 7D BB |
| Compactor.SSTIterator.Next | internal/engine/iterator.go:71-106 | On a table Next yields its entries in order and stops at the index, without an error |
| Compactor.LeastPicks | internal/engine/compactor.go:107-108 | The item popped first is the least key's entry in the newest file that has it |
| Compactor.SkipOlder | internal/engine/compactor.go:110-129 | The inner loop takes the same key off every older file and nothing else |
| Compactor.MergeStep | internal/engine/compactor.go:131-152 | One turn of the merge loop keeps: what is written, over what is left, answers like the inputs for every non-empty key |
| Compactor.CompactL0toL1 | internal/engine/compactor.go:60-160 | The loop terminates; the output is the table file of a strictly ascending list that holds exactly the newest entry of every non-empty key, tombstones included, and no more record bytes than the inputs; an error is returned exactly when a file is refused |
| Bloom.IndexExact | internal/engine/bloom.go:73-77 | Neither product nor sum of h1 + i*h2 wraps in 64 bits, and bit and word index are in range |
| Bloom.BitIsDigit | internal/engine/bloom.go:75-80 | Bit b of a word is its digit of weight 2^b, as the mask 1 << b selects it |
| Bloom.AddAllBits | internal/engine/bloom.go:69-80 | A bit of the filter is set exactly when it is a probe of an added key |
| Bloom.NoFalseNegatives | internal/engine/bloom.go:69-98 | Every added key passes Contains, whatever else was added |
| Bloom.MayContainExactly | internal/engine/bloom.go:82-98 | A key passes if and only if each of its probes is a probe of some added key |
| Bloom.DecodeOfEncode | internal/engine/bloom.go:102-141 | Decoding an encoded filter gives the same size, probe count and words |
| Bloom.EncodedBit | internal/engine/bloom.go:69-114 | Which bit of which encoded byte a bit of the filter is |
| Bloom.WordCountIs | internal/engine/bloom.go:124-125 | The words hold all bits and less than 64 more, unless the sum m + 63 wraps |
| Bloom.BloomFilter.Add | internal/engine/bloom.go:69-80 | Add sets exactly the key's probes |
| Bloom.BloomFilter.Contains | internal/engine/bloom.go:85-98 | Contains is true exactly when all probes of the key are set |
| Bloom.BloomFilter.Decode | internal/engine/bloom.go:116-141 | Decoding fails exactly when the data is too short for its header or its words |
| TableFormat.MarksIncrease | internal/engine/sstable.go:63-67 | Index entries strictly increase from entry 0 |
| TableFormat.BlockBound | internal/engine/sstable.go:63-67 | A block holds at least one record and all but its last start less than 4096 bytes after its start |
| TableFormat.MarksApart | internal/engine/sstable.go:63-67 | Two neighbouring index entries point to offsets at least 4096 bytes apart; with the bound above this decides the index |
| TableFormat.FileMagic | internal/engine/sstable.go:127-133 | Every file ends with the bytes F0 E5 7D BB |
| TableFormat.SmallIsWritable | internal/engine/sstable.go:96-133 | Records whose lengths fit their fields, less than 2^43 bytes in all, make a file whose counts and offsets fit theirs |
| TableFormat.RecordFields | internal/engine/sstable.go:255-266 | A record found at an offset decodes to its own op code, key and value |
| TableWriter.WriteEntry | internal/engine/compactor.go:192-224 | Writing an entry extends data, index, filter and offsets to those of the longer list |
| TableWriter.Finalize | internal/engine/compactor.go:227-272 | Index, filter and footer complete the file of the list |
| TableReader.LookupIsFind | internal/engine/sstable.go:182-199 | The filter hides no key: a lookup answers with the sorted list's own answer |
| TableReader.EveryLookupRight | internal/engine/sstable.go:239-247 | All lookups in a table are right if and only if its first key has at most 65529 bytes |
| TableReader.ChooseBlock | internal/engine/sstable.go:209-236 | The index scan yields the bounds of the one block that can hold the key |
| TableReader.ScanBlock | internal/engine/sstable.go:255-279 | The scan with early exit finds the key's value in the block if it is there |
| TableReader.ReadSSTable | internal/engine/sstable.go:152-280 | On the bytes of a table, filter, index and the early exit of the block scan together give the lookup result; without footer or magic number an error |
| Wal.LogRoundTrip | internal/engine/wal.go:59-196 | A log of whole records reads back as those records with nothing left over |
| Wal.TornTail | internal/engine/wal.go:149-196 | A log of whole records cut at any byte reads back as exactly the records that lie wholly before the cut, without an error |
| Wal.DamageStops | internal/engine/wal.go:158-184 | Reading stops at the first damaged record and nothing behind it is read; only a wrong magic byte is an error |
| Wal.TakesExactly | internal/engine/wal.go:149-184 | A record is taken if and only if header and payload are there, the first byte is A1 and the stored checksum is that of the bytes behind it; it is then what the fields say |
| Wal.MismatchStops | internal/engine/wal.go:176-184 | Bytes whose stored checksum differs from that of what follows end the reading: nothing in or behind them is applied |
| Wal.RecordLayout | internal/engine/wal.go:59-88 | The bytes Append writes: magic, checksum of all that follows it, op code, two lengths, key, value |
| Wal.EffectOfBytes | internal/engine/wal.go:186-195 | A record of op code 4 stores an empty value whatever its payload, any other its payload |
| Wal.AppendsReadableExactly | internal/engine/wal.go:158-184 | Whatever fitting records are appended behind a recovered log are read in full if and only if the recovery left nothing over |
| Wal.LostBehindTornTail | internal/engine/wal.go:167-174 | Records appended behind a torn record and too short to complete it are not read, whatever the checksum |
| Wal.Header | internal/engine/wal.go:63-74 | The header array followed by key and value is the record's encoding, checksum included |
| Wal.Log.Append | internal/engine/wal.go:59-88 | The record joins the log; as long as it fits the buffer the file does not change |
| Wal.ReadRecord | internal/engine/wal.go:150-184 | One turn of the replay loop takes the next whole record, or finds the end or a wrong magic byte |
| Wal.Recover | internal/engine/wal.go:139-197 | The table is overlaid with the replay of the readable records; a missing file and a torn end are no errors, a wrong magic byte and a frozen table are |
| DbReads.SearchLevel | internal/engine/db.go:173-199 | Searching a level's files from the newest back finds the newest entry |
| DbReads.ScanTable | internal/engine/db.go:250-281 | Scanning a file merges it under the newer layers, up to the first key above the upper bound |
| DbReads.GatherPairs | internal/engine/db.go:213-237 | Merging a MemTable's pairs under the newer layers adds just the keys not seen |
| DbReads.GatheredIsLive | internal/engine/db.go:297-302 | The sorted candidates are exactly the live keys within the bounds, each once, strictly ascending |
| Db.DB.Open | internal/engine/db.go:76-118 | The new engine shows the replay of the log's readable records and has no files, so all lookups are right; it is refused exactly for a wrong magic byte |
| Db.DB.Get | internal/engine/db.go:141-202 | Get returns the view, provided that no table's first key is too long |
| Db.DB.Scan | internal/engine/db.go:209-303 | A pair is in the result if and only if its key lies within the inclusive bounds and reads as that value; strictly ascending, no tombstones, never an error |
| Db.DB.Put | internal/engine/db.go:306-325 | The view changes at the key alone, where an empty value reads as missing, the log goes on replaying to the view, and no file changes |
| Db.DB.Delete | internal/engine/db.go:328-347 | The key reads as missing, no other key and no file changes |
| Db.DB.CheckFlush | internal/engine/db.go:350-382 | Rotation happens exactly when the table is full and none is being flushed, and leaves view and files alone |
| Db.DB.FlushNext | internal/engine/db.go:441-470 | Flushing the queued table to a new L0 file and dropping it leaves the view and every other file alone; lookups stay right if and only if the new file's first key is short enough |
| Db.DB.MaybeCompact | internal/engine/db.go:386-432 | Compaction replaces L0 by one L1 file with the newest entries, deletes the inputs and leaves the view of every surviving key and the older L1 files alone; lookups stay right if and only if the new file's first key is short enough |
| Db.DB.Purge | internal/engine/compactor.go:165-182 | Exactly the named files are deleted and no layer changes |
| Db.DB.WorkerTurn | internal/engine/db.go:434-471 | As long as what was written fits the files' limits, one turn of the worker's loop, flush and compaction, succeeds and changes nothing that any key reads as; lookups stay right |
| Limits.ListingAfterPut | internal/engine/sstable.go:28-148 | One more write makes the MemTable's file at most one record longer, and keeps it within the file's limits if the write is |
| DbRuns.EveryStateIsReached | internal/engine/db.go:76-514 | After any sequence of writes and worker turns on an opened engine, some run of the step machine is in a quiet state with the same view and the same log |
| DbRuns.CloseShown | internal/engine/db.go:489-514 | A Close begun between two calls with nothing being flushed can return, and has then written the last table if and only if it holds data |
| Db.NoFileRefused | internal/engine/db.go:400-403 | The compaction's error case does not arise |
| Db.ReopenKeepsView | internal/engine/db.go:76-118 | Reopening from the whole log gives back the view of every non-empty key, however many rotations, flushes and compactions lay in between |
| Db.CrashKeepsPrefix | internal/engine/wal.go:139-197 | After a crash reopening gives a prefix of the writes; a write survives exactly when its whole record reached the file |
| Session.ParseHeader | internal/network/protocol.go:61-83 | A header is read off the stream and decoded, or refused for a short read or a wrong magic byte |
| Session.HandleRequest | internal/network/handler.go:15-161 | The server reads exactly the payload, does what the op code says and writes exactly one reply; an oversized or cut payload ends the connection without a reply |
| Session.ReplyBytes | internal/network/handler.go:43-188 | The bytes of every reply by op code: magic, op code, both length fields and payload |
| Session.ScanLength | internal/network/handler.go:119-128 | The length field of a scan reply counts the bytes behind the header modulo 2^32, its count field the pairs modulo 2^16 |
| Session.ItemAt | internal/network/handler.go:134-155 | Each pair of a scan reply stands where the pairs before it end, behind its two lengths |
| Session.Serve | internal/network/server.go:243-256 | One turn of the server consumes exactly one request frame |
| Session.SentinelClash | pkg/client/client.go:200-204 | A found reply reads as found if and only if the key has at most 65534 bytes |
| Session.Client.Put | pkg/client/client.go:118-160 | The view changes at the key alone and both directions of the stream are empty again |
| Session.Client.Delete | pkg/client/client.go:224-261 | The key reads as missing and both directions are empty again |
| Session.Client.Get | pkg/client/client.go:164-221 | The client gets the view's value and the stream is empty again; for a found key of 65535 bytes it gets a miss and key and value stay in the stream |
| Session.Client.Scan | pkg/client/client.go:266-338 | The client gets the storage's live range, when its count and lengths fit, and the stream is empty again |
| Session.Client.Echo | pkg/client/client.go:341-381 | The client gets its payload back and the stream is empty again |
| Session.Perform | pkg/client/client.go:118-381 | Whichever the call, its answer is that of the storage as it stands, and the storage changes as the call says |
| Session.Converse | internal/network/server.go:243-256 | For any sequence of calls on one connection the i-th answer is the answer of the storage as the calls before it left it, and in the end no byte is under way |
| Session.ConverseBeside | internal/engine/db.go:434-471 | The same with any number of worker turns, each a flush and perhaps a compaction, anywhere between the calls, as long as keys and values fit the files' limits |

## Left out

- EngineLinear.GetIsLinearizable: for non-empty keys, because compaction drops the empty key; `CompactionUnion.CompactionKeepsKey` says exactly what happens to it.
- EngineVersions.RunInv: compaction is run by the flush worker only; `EngineRace` is the machine with a `TriggerCompaction` beside it.
- EngineRaceView.OutsideSwapExactly: the first stale swap of a run. What later swaps make of a manifest that has lost or re-listed files is not stated.
- EngineProtocol.CloseFlushesEverything: Close begins when no Put or rotation is under way; a Put that races with Close is not modelled.
- EngineProtocol.RefsCountHolders: Refs is an unbounded integer, not 32 bits wide.
- Compactor.CompactL0toL1: the heap is a list with the item least under Less taken out; the sifting of container/heap is not modelled. Inputs are whole tables or files without footer or magic number; damaged data behind a valid footer is not covered.
- Wal.AppendsReadableExactly: with something left over, that some appends are not read; which ones depends on the checksum, an arbitrary function here.
- TableReader.ReadSSTable: `OutOfBounds` stands for the panics and read errors of a damaged file alike.
- Bloom.BloomFilter.Decode: sizes for which the word count wraps in 64 bits are modelled as the code computes them, but a filter of size zero, which no writer makes, is a read error in the model of the lookup.
- Db.DB.FlushNext: asks that the table's keys and values fit their length fields and its records total less than 2^43 bytes; beyond that the code truncates lengths.
- Db.DB.MaybeCompact: asks that the inputs' records total less than 2^43 bytes; the purge it starts runs at once, no reader being under way.
- Db.DB.Scan: one call at a time. A Scan that runs while writers do reads the layers one after another and promises no snapshot; that it is linearizable for each key by itself is not stated.
- Db.DB.Put: the retry loop after a concurrent rotation is part of the step machine, not of the class.
- MemTables.MemTable.Put: nodes are positions in a sequence instead of pointers; the sequence is the field that the methods reassign. nil and empty values are one value, as everywhere in the engine.
- MemTables.FlushMemTable: the guard for a nil value pointer on a linked node is left out, since the list's structure excludes it.
- Session.Client.Put: errors of the connection other than its end, deadlines and concurrent use of one client; the server's turn is taken where the client waits.
- FNV-1a and CRC-32 themselves: parameters.
- The sizing formula of the Bloom filter and its false-positive rate: floating point; any size of at least one bit and up to 255 probes is allowed.
- The distribution of node heights: any height is allowed.
- fsync, tickers, operating-system errors, logging, metrics, TLS, accept loops, UDP telemetry and the command-line program.
