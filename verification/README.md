# Verified model of the indexer

A blockchain indexer turns blocks into rows of an ordered key/value store and must be able to take
blocks back when the chain forks. This project models that store, the pipeline and the sync that fill
it, the binary records in it, the scanner that classifies contracts from their JSON metadata, a content
cache, and two concurrent protocols, and proves what each is for. Dafny 4.11; `dafny verify
dfyconfig.toml` checks all of it.

## The parts

- **Store** (`IndexTypes`, `WriteBatches`, `IndexDb`, `BatchBoundary`, `TurboHistory`, `DerivedIndexes`,
  `Rollback`, `TruncateLaws`, `HistoryStart`, `BboltStores`, `StoreRows`, `IndexRows`). `IndexDb` gives one transaction of `FlushBatch` and of
  `TruncateToHeight` as a function on a store value; `WriteBatches.WriteBatch` and
  `BboltStores.BboltStore` are classes whose methods change maps step by step, as the source does, and
  are proved equal to those functions. The theorems are about the functions and about whole histories:
  batch boundaries are invisible, derived indexes agree with a scan in every reachable store, truncation
  composes, and rolling back equals never having indexed the blocks, exactly under a stated condition.
  `StoreRows` and `IndexRows` say row by row what a flush, a truncation and a whole chain leave in every
  bucket, in terms of the rows and events themselves.
- **Keys** (`Bytes`, `IndexKeys`). Buckets are maps from decoded keys. These modules prove that the byte
  keys decode back, are distinct for distinct rows, and that the seeks and prefix scans of the source
  select the rows the model selects.
- **Reorg, pipeline, segments** (`Reorg`, `CallOrder`, `Pipeline`, `PipelineProgress`, `Segments`). The fork search and the
  replay after it; fetcher, processor and flusher as a step system over all interleavings, batch sizes,
  flush failures and shutdown points; and the map-reduce sync with its merge.
- **Records** (`TypedEncoding`, `VariableEncoding`, `WireFormats`). The class metadata and variable snapshot
  codecs, with the two-pass decoders that cut all strings out of one buffer, and the bytes they write.
- **G45 metadata** (`JsonGrammar`, `JsonWalk`, `Utf8`, `G45Scan`, `G45Extract`, `G45Fields`,
  `G45Methods`). JSON
  (RFC 8259, sections 2 to 7) as concrete syntax trees, a validating walk proved to accept exactly those
  texts, the three-way scanner on top of it, the full map decode it stands in front of, and the scanner
  with its cursors and loops.
- **Content cache** (`TelaCache`, `TelaCacheRuns`). The linked LRU ring with sentinel, free list, key
  lists and per-contract index, as objects in the heap, refining a plain most-recent-first list.
- **Protocols** (`SingleFlight`, `EventBus`). Step systems for the code backfill and the fan-out bus.

## What the model found

- Rolling back equals never indexing **if and only if** every ring touch above the height belongs to a
  contract that a deploy, invocation or snapshot above the height also concerns, no touch record of such a
  contract is repeated at or below it, and an empty history is only truncated to 0. `UncoveredTouchSurvives`
  and `RepeatedTouchIsRecounted` are concrete histories that fail: discovery does not look at ring records,
  and equal ring records share one key while the touch counter counts each.
- The comment that truncation never raises the stored height (`storage/truncate.go:362-363`) does not
  hold for a store without that row: it is then set to the requested height. `LastRisesOnlyFromNone` shows
  that this is the only case: the height a reader sees rises if and only if the row is absent and the
  requested height is above 0.
- Truncating twice equals truncating once to the lower height exactly when every contract affected above
  the upper height that has a ring touch between the two heights also has an interaction, snapshot or
  install there: a condition on the rows of the store before either call. That each truncation alone would
  be exact is not enough: `CoverageAtBothHeightsIsNotEnough` is a history of two blocks on which both are
  and the composition is not.
- `findForkPoint` documents the highest agreement, and returns the highest at or below its start. It is the
  highest on the whole chain if and only if the walk moved, or the next stored hash above the start does not
  agree either (`ForkIsHighestExactly`); when every block has a hash that is one more lookup, at the height
  above the start (`OneMoreLookup`).
- A reorg that truncates an edge wrongly stays wrong: touch counts only add up, so convergence holds if and
  only if the ring touches above the fork are covered and not repeated. `OrphanedTouchStays` is a fork of two
  blocks after which the index differs from the daemon's.
- After a failed flush the flusher goes on. If a later batch commits, the stored height covers blocks
  whose rows were lost. `StoreIsSequential` gives the exact condition and `MissingHashIsFailedFlush` shows
  it can be read off the stored block hashes; progress is still never claimed before it is durable.
- The segment merge drops an interaction row whose count exceeds 2^20 (`CountPastBoundIsLost`). It rebuilds
  owner edges from owner rows, and keeps them all if and only if each recorded edge is in the main store or
  some segment's owner rows (`OwnerEdgesOfMerge`). Losing one needs a contract deployed twice within a
  segment (`OverwrittenOwnerLosesEdge`); under the assumption below it cannot happen
  (`DeployedOnceKeepsEdges`).
- The second image pass documents last-wins on duplicate keys as in the full decode, and that a walk it
  cannot finish degrades to absent rather than to a wrong value (`indexer/classify_g45_scan.go:229-250`).
  Neither holds. It does not take a member whose key is escaped, nor any from the first value nested deeper
  than 1000 on, and keeps the value it took before. `ImagesExactly` says when the result is the decoded
  value: it misses no images member behind the last one it takes, or the last missed one has the same text.
  `StaleImages` (a deep value) and `StaleImagesByEscape` (an escaped key, nothing nested) are texts on which
  the full decode reads one value and the class keeps another. Both G45 paths agree on such texts, because
  both use this pass; the fast path fires on none of them.
- A variable that is neither a string nor a uint64 is documented to be stored as an empty placeholder
  (`structures/typed_encoding.go:360-362`). The code stores integers and floats as decimal text.

## Assumptions

Heights are natural numbers below 2^63 - 1. Contract ids have 64 characters and neither ':' nor '|';
addresses and transaction ids have no ':'; class names no '|'. Each contract is deployed once. A history
starts at height 1 on an empty store, except in module `HistoryStart`, whose rollback theorem takes any
start height and which shows that a later start is empty blocks in front; the pipeline results start at any
height of any store. A block's
contribution does not read the store (the turbo discipline). What the decoder, the encoder and Go's
standard library do to a single number, escape sequence, non-ASCII fold or rendered value is a parameter
(`Env`) that both G45 paths share. A committed transaction is one atomic step; a failed one changes
nothing. Strings hold one character per byte.

## Model

| member | source | states |
|---|---|---|
| WriteBatches.WriteBatch.AddOwner | storage/storage.go:252-267 | the batch gains the owner and, for non-empty names, its reverse edge; nothing else changes |
| WriteBatches.WriteBatch.AddInvocation | storage/storage.go:270-272 | the record is appended, in call order |
| WriteBatches.WriteBatch.AddVariables | storage/storage.go:276-278 | the snapshot at (scid, height) is replaced, last call wins |
| WriteBatches.WriteBatch.AddInteractionHeight | storage/storage.go:281-283 | one more occurrence of the height, repeats kept |
| WriteBatches.WriteBatch.AddNormalTx | storage/storage.go:288-298 | the ring record is appended |
| WriteBatches.WriteBatch.AddBlockHash | storage/storage.go:303-305 | the hash at the height is replaced |
| WriteBatches.WriteBatch.AddInstall | storage/storage.go:308-315 | the install at (scid, height) is replaced |
| WriteBatches.WriteBatch.AddClass | storage/storage.go:319-321 | the contract's class record is replaced |
| WriteBatches.WriteBatch.AddScCode | storage/storage.go:327-338 | an empty scid or code is ignored, otherwise the code is replaced |
| WriteBatches.WriteBatch.AddAddrScid | storage/storage.go:343-371 | the edge's first, last and count absorb one touch; an empty address is ignored |
| WriteBatches.WriteBatch.Reset | storage/storage.go:405-423 | the reused batch equals a new one in every field |
| WriteBatches.BuildThen | storage/storage.go:252-371 | a batch built from calls c + d is the field-wise merge of the batches of c and of d |
| BboltStores.BboltStore.FlushBatch | storage/bbolt.go:698-1184 | the bucket-by-bucket loops leave the store value Flush(old, batch), for any order the address sort leaves open |
| BboltStores.PutOwners | storage/bbolt.go:700-718 | owners are written and exactly the scids without a row before are counted as new |
| BboltStores.AppendInvocations | storage/bbolt.go:740-779 | invocation rows in batch order, records with an empty scid skipped |
| BboltStores.PutSnapshots | storage/bbolt.go:793-835 | snapshot rows, and each scid's pointer raised to its greatest height, in sorted runs |
| BboltStores.CountHeights | storage/bbolt.go:856-877 | grouping sorted heights into runs adds to each row its number of occurrences |
| BboltStores.PutNormalTxs | storage/bbolt.go:880-904 | every record of the batch is written once, in some arrangement of the batch, which covers any outcome of the address sort |
| BboltStores.OrderIsInvisible | storage/bbolt.go:885-887 | the order the unstable sort leaves open does not matter when equal keys carry equal records |
| BboltStores.PutClasses | storage/bbolt.go:984-1045 | a moved contract's old class row is dropped before its new row is written, unclassified ones are skipped |
| BboltStores.PutEdges | storage/bbolt.go:1091-1168 | address edges merge by minimum, maximum and sum with the stored ones |
| BboltStores.AddScidCount | storage/bbolt.go:598-616 | the counter moves by the new owners, and is counted afresh when its row is missing |
| BboltStores.BboltStore.StoreOwner | storage/bbolt.go:353-370 | one owner row with its edge and counter |
| BboltStores.BboltStore.StoreScidVariableDetails | storage/bbolt.go:424-438 | one snapshot row, and a pointer that is only ever raised |
| BboltStores.BboltStore.ResetIndex | storage/bbolt.go:1666-1693 | every bucket but the block hashes is emptied |
| BboltStores.BboltStore.GetScidCount | storage/bbolt.go:640-661 | the stored counter, or a count of the owners when it is missing |
| BboltStores.BboltStore.GetClassInstalls | storage/bbolt.go:1309-1353 | one entry per scid of the class, at its highest row, oldest first, at most limit |
| BboltStores.BboltStore.ListClass | storage/bbolt.go:1309-1353 | in a store whose indexes agree the unlimited listing is exactly the classified contracts of the class |
| BboltStores.BboltStore.TruncateToHeight | storage/truncate.go:75-372 | the discovery, recompute and delete steps leave the store value Truncate(old, h), a negative h meaning 0 |
| BboltStores.BboltStore.FindAffected | storage/truncate.go:80-118 | the affected scids, and those first installed above h |
| BboltStores.ScansAreSurvivors | storage/truncate.go:120-200 | the three detail scans together give exactly the surviving rollup of every affected edge |
| BboltStores.ScanInstalls | storage/truncate.go:174-200 | an owner edge is recreated from its install only when the other scans left nothing |
| BboltStores.ApplyRollback | storage/truncate.go:376-426 | an affected edge takes its survivor's entry or goes; other edges stay |
| BboltStores.DropClassRows | storage/truncate.go:263-282 | the class row found through class_scid goes with its contract |
| BboltStores.DropOwnerRows | storage/truncate.go:267-291 | owners of the dropped contracts go, and the rows really held are counted |
| BboltStores.LowerPointers | storage/truncate.go:319-337 | each affected pointer becomes its greatest surviving snapshot, or goes |
| BboltStores.MaxSurviving | storage/truncate.go:492-509 | the greatest positive snapshot height at or below h, 0 when there is none |
| BboltStores.LowerCount | storage/truncate.go:349-361 | the counter drops by the rows removed and never below 0 |
| BatchBoundary.FlushThen | storage/bbolt.go:698-1184 | flushing two batches one after the other equals flushing their merge, on every bucket |
| BatchBoundary.FlushInTwo | storage/bbolt.go:698-1184 | flushing the batch of c and then that of d equals flushing the batch of c + d |
| BatchBoundary.BatchingIsInvisible | storage/bbolt.go:698-1184 | two ways of cutting the same calls into batches leave the same store |
| TurboHistory.FlushIsRun | storage/bbolt.go:698-1184 | flushing a batch is applying its calls one after another to the store |
| TurboHistory.IndexOfIsEvents | indexer/indexer.go:975-1058 | the index of a chain is the event-by-event application of its blocks' transactions |
| IndexRows.ChainEvents | indexer/indexer.go:626-768 | block b of a chain contributes its transactions and its seal at height b + 1, and nothing else |
| IndexRows.InvokeRow | indexer/indexer.go:1042-1055 | the last invoke with a given scid, sender, txid, height and entrypoint leaves that row, with every field of the record written out |
| IndexRows.DeployInvocationRow | indexer/indexer.go:1011-1025 | a deploy leaves an invocation row under its own scid as txid, marked as an install |
| IndexRows.InvocationRowsAreEvents | indexer/indexer.go:1011-1058 | no other invocation row exists, and none is missing |
| IndexRows.InvocationOfChain | indexer/indexer.go:1011-1058 | the same record stands in the index of the chain, whatever batches it was flushed in |
| IndexRows.InvocationsOfChain | indexer/indexer.go:1011-1058 | so do no other invocation rows |
| IndexRows.DeployRows | indexer/indexer.go:1016-1041 | the last deploy of a contract decides its owner, class record, install and code, field by field |
| IndexRows.DeployRowsOnly | indexer/indexer.go:1016-1041 | no contract has such a row without a deploy that leaves it, and every deploy by a named owner keeps its reverse edge |
| IndexRows.SnapshotRow | indexer/indexer.go:905-935 | the last snapshot of a contract at a height is the one stored there |
| IndexRows.SnapshotRowsOnly | storage/bbolt.go:502-513 | no other snapshot is stored, and the pointer is the greatest positive snapshot height |
| IndexRows.RingRow | indexer/indexer.go:1399-1418 | the last ring membership under a key leaves its record there |
| IndexRows.RingRowsOnly | indexer/indexer.go:1399-1418 | no other ring record exists, and none is missing |
| IndexRows.InteractionRow | storage/bbolt.go:856-877 | a height row counts the deploys and invokes of its contract at its height, one each, and exists when there is one |
| IndexRows.EdgeRow | storage/storage.go:343-371 | an address edge counts the deploys, invokes and ring memberships that name its address, one each, between the least and the greatest of their heights |
| IndexRows.SealRow | indexer/indexer.go:671-740 | the hash of the last seal with one is stored at its height, and the stored height is that of the last seal |
| IndexRows.SealRowsOnly | indexer/indexer.go:671-740 | no other hash is stored, and no height without a seal |
| IndexRows.CounterRows | indexer/indexer.go:733-736 | the counters are the sums of what the blocks counted; failed deploys and cached bodies are never written |
| StoreRows.FlushLists | storage/bbolt.go:740-904 | after a flush the invocation and ring rows are the old ones and those of the batch's records, the last record of a key winning and unnamed contracts skipped |
| StoreRows.FlushMerges | storage/bbolt.go:856-1168 | interaction counts add up, and an edge known on both sides spans and counts both |
| StoreRows.FlushEntities | storage/bbolt.go:908-1090 | class, code, owner edge and failed deploy rows take the batch's, but unclassified records, empty codes and unnamed owners are left out |
| StoreRows.FlushPointers | storage/bbolt.go:793-835 | a snapshot pointer rises to the batch's greatest positive height and never falls |
| StoreRows.FlushStats | storage/bbolt.go:598-616 | a batch without a height keeps the stored one, and an exact owner count stays exact |
| StoreRows.FailedDeploys | indexer/indexer.go:1173-1173 | a failed deploy is kept with the fees of the last one |
| StoreRows.ResetThenFlush | storage/bbolt.go:1666-1693 | a flush after a reset builds the index as from scratch, with the old block hashes under the new ones |
| StoreRows.StoreOwnerIsFlush | storage/bbolt.go:353-370 | the single-owner writer does what flushing that owner alone does |
| DerivedIndexes.FlushKeepsDerived | storage/bbolt.go:984-1045 | a flush keeps class rows, latest pointers, owner count and owner edges in agreement with their buckets |
| DerivedIndexes.TruncateKeepsDerived | storage/truncate.go:257-361 | so does a truncation to any height |
| DerivedIndexes.StoreOwnerKeepsDerived | storage/bbolt.go:353-370 | so does writing one owner |
| DerivedIndexes.StoreVariablesKeepsDerived | storage/bbolt.go:502-513 | so does writing one snapshot, at a height above or below the stored pointer |
| DerivedIndexes.ResetKeepsDerived | storage/bbolt.go:1666-1693 | so does a reset |
| DerivedIndexes.ReachableDerivedAgree | storage/bbolt.go:1309-1353 | after any run of the five writers the derived indexes agree with a scan, and GetSCIDCount is the number of owners |
| DerivedIndexes.DerivedDetermined | storage/bbolt.go:994-1045 | equal primary buckets force equal class rows, pointers and counts |
| Rollback.AffectedBy | storage/truncate.go:80-118 | discovery finds exactly the contracts that some event above h deploys, invokes or snapshots |
| StoreRows.TelaRows | storage/truncate.go:303-314 | a cached body stays, unchanged, if and only if its contract has no interaction, snapshot or install row above h |
| StoreRows.TelaOfChain | storage/truncate.go:303-314 | in the index of a chain a cached body stays if and only if no event above h deploys, invokes or snapshots its contract |
| StoreRows.InvocationRows | storage/truncate.go:215-235 | an invocation row goes if and only if it is above h and its contract has such a row above h |
| StoreRows.HeightRows | storage/truncate.go:202-255 | interaction, snapshot, install, ring and hash rows stay, unchanged, if and only if they are at or below h |
| StoreRows.EntityRows | storage/truncate.go:257-299 | owner, class, code, failed deploy and owner edge rows go if and only if their contract has an install above h, and of the class rows the one its class record names |
| StoreRows.PointerRows | storage/truncate.go:316-337 | the pointer of an affected contract becomes its greatest positive surviving snapshot height or goes; the others stay |
| StoreRows.StatRows | storage/truncate.go:339-371 | the owner count drops by the owners that went and not below 0, the transaction counters stay, the height becomes the lower of h and itself |
| StoreRows.EdgeRows | storage/truncate.go:120-200 | an affected edge becomes the least and greatest height and the number of its surviving invocation and ring rows, else its lowest surviving owner install, else goes; the others stay |
| Rollback.TruncateInvokes | storage/truncate.go:215-235 | in a history no invocation row above h escapes the deletion bounded to affected contracts |
| Rollback.EdgeRollback | storage/truncate.go:120-200 | one address edge is rolled back exactly if and only if its touches meet the edge condition |
| Rollback.RollbackAllButEdges | storage/truncate.go:75-372 | for every history and height all buckets but the address edges and the height row are rolled back exactly |
| Rollback.RollbackEqualsNeverIndexing | storage/truncate.go:75-372 | flushing in any batches and truncating to h equals flushing only the blocks up to h, if and only if the ring touches above h are covered, no touch of such a contract is repeated, and an empty history is only truncated to 0 |
| HistoryStart.RollbackFromAnyStart | storage/truncate.go:75-372 | the same equivalence for histories that start at any height |
| HistoryStart.StartIsPadding | indexer/indexer.go:236-244 | the index of a history from a later start is that of the history with empty blocks in front |
| HistoryStart.AnyStartIsCovered | indexer/indexer.go:975-1058 | the index of a history from any start meets the requirement of both truncation laws |
| Rollback.LastRollsBack | storage/truncate.go:362-370 | the height row is rolled back if and only if there was a block or h is 0 |
| Rollback.LastRisesOnlyFromNone | storage/truncate.go:362-370 | truncation raises the stored height if and only if the row is absent and h is above 0 |
| Rollback.WrongCount | storage/truncate.go:120-200 | when a condition of exact rollback fails, some edge's touch count is wrong |
| Rollback.UncoveredTouchSurvives | storage/truncate.go:80-118 | a ring touch alone above h leaves its edge behind |
| Rollback.RepeatedTouchIsRecounted | storage/bbolt.go:121-127 | one ring record touched twice comes back from truncation with a smaller count |
| TruncateLaws.TruncateComposes | storage/truncate.go:75-426 | truncating to h1 and then to h2 <= h1 equals truncating to h2, on every bucket, if and only if every contract affected above h1 with a ring touch in (h2, h1] has other rows there |
| TruncateLaws.AffectedAfter | storage/truncate.go:80-118 | what the second truncation finds affected is read off the rows of the first store between the heights |
| TruncateLaws.TruncateIdempotent | storage/truncate.go:75-372 | truncating twice to a height is truncating once |
| TruncateLaws.HistoriesAreCovered | indexer/indexer.go:975-1058 | every indexed history meets the requirement of both laws |
| TruncateLaws.CoverageAtBothHeightsIsNotEnough | storage/truncate.go:80-118 | a two-block history on which each single truncation is exact and their composition is not |
| IndexKeys.HeightKeyRoundTrip | storage/truncate.go:521-528 | the interaction key decodes to its contract and height |
| IndexKeys.ScVarsKeyRoundTrip | storage/truncate.go:530-541 | the snapshot key decodes through its decimal suffix |
| IndexKeys.InstallKeyRoundTrip | storage/truncate.go:543-549 | the install key decodes to its contract and height |
| IndexKeys.InvocationKeyRoundTrip | storage/truncate.go:551-573 | the invocation key gives back sender and height, whatever the entrypoint holds |
| IndexKeys.NormTxKeyRoundTrip | storage/truncate.go:575-602 | the ring record key decodes although a height byte may look like a separator |
| IndexKeys.OwnerKeyRoundTrip | storage/truncate.go:293-299 | the reverse owner key gives back the contract |
| IndexKeys.BatchInstallKeyRoundTrip | storage/bbolt.go:1187-1203 | the batch's install key is parsed back to contract and height |
| IndexKeys.SeekSelectsAbove | storage/truncate.go:112-112 | seeking the height h + 1 reaches exactly the keys above h |
| IndexKeys.HeightScan | storage/truncate.go:217-226 | the prefix scan with a decoded height selects exactly the contract's rows above h |
| IndexKeys.ScVarsScan | storage/truncate.go:492-509 | the snapshot scan meets exactly the contract's rows and reads their heights |
| IndexKeys.ClassScan | storage/bbolt.go:1309-1353 | the class scan meets exactly that class's rows and reads their height and contract |
| IndexKeys.HeightKeysDistinct | storage/bbolt.go:94-119 | distinct rows have distinct interaction, snapshot and install keys |
| IndexKeys.ClassKeysDistinct | storage/bbolt.go:102-111 | distinct class rows have distinct keys |
| IndexKeys.OwnerKeysDistinct | storage/bbolt.go:1722-1728 | distinct reverse owner edges have distinct keys |
| IndexKeys.TelaKeysDistinct | storage/bbolt.go:1771-1777 | distinct cached bodies have distinct keys |
| IndexKeys.NormTxKeysDistinct | storage/bbolt.go:121-136 | distinct ring records have distinct keys |
| IndexKeys.InvocationKeysDistinct | storage/bbolt.go:758-765 | distinct invocations of a contract have distinct keys |
| Bytes.BigEndianOrder | storage/bbolt.go:79-91 | byte order of encoded heights is numeric order |
| Reorg.CheckReorgAt | indexer/reorg.go:27-48 | a mismatch is reported, at the parent height, exactly when a parent hash is stored and differs from the block's |
| Reorg.FindForkPoint | indexer/reorg.go:133-160 | a fork is the first agreement on the way down within the depth; a retry names a failing lookup that was reached; otherwise no reached height agrees or fails |
| Reorg.ForkIsHighest | indexer/reorg.go:101-160 | no height above the fork agrees, at or below the start, and anywhere once the walk has moved |
| Reorg.ForkIsHighestExactly | indexer/reorg.go:101-160 | no height above the fork agrees if and only if the walk moved or the next stored hash above the start does not agree |
| Reorg.OneMoreLookup | indexer/reorg.go:101-160 | with a hash for every block that is one lookup, at the height above the start |
| Reorg.ImmediateForkNeedNotBeHighest | indexer/reorg.go:101-160 | a search that stops at once may leave a higher agreement above its start |
| Reorg.TruncatedHashesAgree | indexer/reorg.go:101-104 | after truncating to the fork every stored hash is the daemon's |
| Reorg.ReplayCompletes | indexer/reorg.go:101-104 | indexing the blocks up to f and flushing the rest is indexing the whole chain |
| Reorg.OrphanedTouchStays | indexer/reorg.go:101-104 | a two-block fork after which truncating and replaying leaves another index than the daemon's chain |
| Reorg.ReorgConverges | indexer/reorg.go:101-104 | truncating to the fork and replaying the daemon's blocks gives the index of the daemon's chain from scratch, if and only if the ring touches above the fork are covered and not repeated |
| CallOrder.BuildByKind | storage/storage.go:252-371 | a batch is determined by its hashes, its other calls, its counters and its last height |
| CallOrder.GroupIsBlocks | indexer/indexer.go:626-768 | the processor's order for a fetched group builds what its blocks build one after another |
| Pipeline.RunsScan | indexer/indexer.go:400-870 | every step keeps the batches tiling the heights seen, and keeps the store the replay of the attempts |
| Pipeline.ProgressIsNeverClaimedEarly | indexer/indexer.go:772-870 | in every run the in-memory height is at most the stored one, the safe height stays the depth below it, and events are published in order, only for committed batches |
| Pipeline.ProgressNeverGoesBack | indexer/indexer.go:824-835 | no step lowers the indexed or the safe height |
| Pipeline.StoreIsSequential | indexer/indexer.go:349-870 | the committed batches tile the heights up to the stored one if and only if no flush failed before a later commit, and then the store is the flush of exactly those blocks in order |
| Pipeline.ScanFromScratch | indexer/indexer.go:349-870 | a scan of an empty store holds at every moment the index of the blocks up to its stored height |
| Pipeline.MissingHashIsFailedFlush | indexer/indexer.go:816-823 | a hash row is missing below the stored height exactly when a flush failed before a later one committed |
| Pipeline.FailedFlushLosesBlocks | indexer/indexer.go:816-823 | with two blocks to scan some run commits past a lost block |
| PipelineProgress.SafeIsDepthBelow | indexer/indexer.go:824-835 | at every moment but between its two writes the safe height is exactly the depth below the indexed height, or 0 |
| PipelineProgress.WholeChainCanBeStored | indexer/indexer.go:400-870 | some run without a failure stores, counts and publishes every block of the chain |
| Segments.BuildSegments | indexer/segment.go:175-191 | the segments are numbered, contiguous, of the given size up to a shorter last one, and end at the range's end |
| Segments.EachHeightOnce | indexer/segment.go:175-191 | every height of the range is in exactly one segment, and no other height is in any |
| Segments.MergeHeightRow | storage/bbolt.go:158-187 | a count adds that many occurrences of its row only, a missing or zero count adds one, and a count past 2^20 adds none |
| Segments.MergeOwners | indexer/segment.go:591-595 | every owner row enters the batch, with its reverse edge |
| Segments.MergeSnapshots | indexer/segment.go:597-635 | every snapshot row enters the batch and nothing else changes |
| Segments.MergeHeights | indexer/segment.go:637-651 | the batch's heights occur as often as the readable rows count them |
| Segments.MergeNormals | indexer/segment.go:653-667 | flushing the collected ring records writes exactly the bucket's rows |
| Segments.MergeInvalid | indexer/segment.go:669-675 | every failed deploy enters the batch |
| Segments.MergeCounters | indexer/segment.go:677-697 | the three counters are added to the batch's; the height row is not read |
| Segments.MergeInvocations | indexer/segment.go:699-707 | flushing the collected invocations writes exactly the bucket's rows |
| Segments.ReadSegment | indexer/segment.go:589-708 | the batch read from a segment store carries all of its rows |
| Segments.MergeSegment | indexer/segment.go:558-585 | one segment store is merged into the main one in one flush |
| Segments.Reduce | indexer/segment.go:148-162 | the stores are merged in segment order, then the height row is written |
| Segments.StoreLastIndexHeight | storage/bbolt.go:344-351 | the height row is replaced and nothing else changes |
| Segments.MapReduceIsSequential | indexer/segment.go:558-708 | merging the workers' stores leaves what flushing their batches into one store leaves, apart from interaction counts, owner edges and the height row |
| Segments.CountsSurviveExactlyWithinBound | storage/bbolt.go:158-187 | the interaction counts come out equal if and only if no segment counts past the decode bound |
| Segments.CountPastBoundIsLost | storage/bbolt.go:158-187 | a segment with 2^20 + 1 interactions at one height loses their row in the merge |
| Segments.OwnerEdgesOfMerge | indexer/segment.go:591-595 | the merge invents no owner edge, and keeps them all if and only if each recorded one is in the main store or in some segment's owner rows |
| Segments.DeployedOnceKeepsEdges | indexer/segment.go:439-480 | when no segment deploys a contract twice, every owner edge is kept |
| Segments.OverwrittenOwnerLosesEdge | indexer/segment.go:591-595 | a contract deployed twice in a segment loses its first owner's edge in the merge |
| Segments.SegmentsCarryKeys | indexer/segment.go:194-340 | a worker's store can be merged: every row carries its own key |
| TypedEncoding.MetaRoundTrip | structures/typed_encoding.go:659-857 | decoding an encoded class record is the identity |
| TypedEncoding.ReadersAreCompatible | structures/typed_encoding.go:610-657 | a reader without the media tail recovers the fixed fields of any record, and records without it decode with empty media |
| TypedEncoding.CutTailIsAbsent | structures/typed_encoding.go:732-857 | a media record cut anywhere in its tail decodes to the same fixed fields and empty media |
| TypedEncoding.CountBound | structures/typed_encoding.go:744-751 | the early tag count check refuses only records the plain reader refuses |
| TypedEncoding.UvarintLen | structures/typed_encoding.go:407-414 | the counted length is that of the encoded integer |
| TypedEncoding.OwnedCut | structures/typed_encoding.go:286-295 | the cut copies its bytes to the offset, advances it by their length and leaves the rest of the buffer alone |
| TypedEncoding.SumStrings | structures/typed_encoding.go:752-793 | pass one accepts what the plain reader accepts and sums its string bytes |
| TypedEncoding.CutStrings | structures/typed_encoding.go:795-854 | pass two cuts the same strings, adjacent and in order, within the summed size |
| TypedEncoding.ClassMeta.EncodedSize | structures/typed_encoding.go:659-684 | the sizing pass is the encoded length |
| TypedEncoding.ClassMeta.MarshalTyped | structures/typed_encoding.go:659-720 | the record is the wire form and fills exactly the sized capacity |
| TypedEncoding.ClassMeta.UnmarshalTyped | structures/typed_encoding.go:732-857 | the two-pass decoder gives what the plain reader gives; a reused receiver keeps nothing old and a failure leaves its strings alone |
| Bytes.UvarintRoundTrip | structures/typed_encoding.go:866-892 | a 64-bit length is read back exactly, whatever follows |
| VariableEncoding.SnapshotRoundTrip | structures/typed_encoding.go:363-494 | decoding an encoded snapshot gives back every variable in order |
| VariableEncoding.Lockstep | structures/typed_encoding.go:522-588 | the locating and the copying field decoder agree on every input and position |
| VariableEncoding.EarlyBoundRejectsOnlyBad | structures/typed_encoding.go:428-435 | a declared count past a quarter of the rest cannot be met by the plain decoder either |
| VariableEncoding.SizeVarField | structures/typed_encoding.go:390-404 | the size is that of the appended field, for every kind of value |
| VariableEncoding.MarshalVariables | structures/typed_encoding.go:363-386 | the output is the wire form and fills exactly the computed capacity |
| VariableEncoding.SumVars | structures/typed_encoding.go:437-457 | pass one accepts what the plain decoder accepts and sums its string bytes |
| VariableEncoding.CutVars | structures/typed_encoding.go:459-493 | pass two cuts fill the buffer exactly, in order, without overlap, and stand for the plain decoder's variables |
| VariableEncoding.UnmarshalVariables | structures/typed_encoding.go:424-494 | on every byte string the coalescing decoder accepts and returns what the field-by-field one does |
| WireFormats.UvarintIsBase128 | structures/typed_encoding.go:407-414 | a length is its base-128 digits, least first, the high bit on all but the last byte, without padding |
| WireFormats.HeightBits | structures/typed_encoding.go:695-698 | a height is its 64-bit two's complement, most significant byte first |
| WireFormats.MetaBytes | structures/typed_encoding.go:648-736 | a class record is tag 4, two heights and the tag count; without media it ends with the fixed fields; no other tag decodes |
| WireFormats.FieldBytes | structures/typed_encoding.go:347-519 | a string field is kind 1, length and bytes, a number kind 2 and eight bytes |
| WireFormats.SnapshotBytes | structures/typed_encoding.go:345-368 | a snapshot is tag 2 and a four-byte count; no other tag decodes |
| WireFormats.SeparatorBytes | storage/bbolt.go:94-136 | where the colon, the bar and the at sign stand in each kind of key |
| JsonGrammar.PlainStrings | indexer/classify_g45_scan.go:490-497 | a text without a backslash is string content if and only if it has no quote and no control character |
| JsonGrammar.EscapedStrings | indexer/classify_g45_scan.go:472-489 | a backslash starts one of eight two-character escapes or four hexadecimal digits behind u |
| JsonGrammar.CharacterClasses | indexer/classify_g45_scan.go:447-457 | whitespace, digits, hexadecimal digits and escapes by code point |
| JsonWalk.WalkIsGrammar | indexer/classify_g45_scan.go:510-669 | before a delimiter the walk accepts a value if and only if it is JSON with convertible numbers within the depth |
| JsonWalk.OneParse | indexer/classify_g45_scan.go:510-669 | a text has one parse |
| JsonWalk.StringEndSound | indexer/classify_g45_scan.go:463-500 | what stands in front of the found quote is well-formed string content |
| JsonWalk.StringEndComplete | indexer/classify_g45_scan.go:463-500 | the closing quote behind any well-formed content is found |
| JsonWalk.NumberAtComplete | indexer/classify_g45_scan.go:624-669 | a well-formed number is walked to its end |
| JsonWalk.NumberAtSound | indexer/classify_g45_scan.go:624-669 | only well-formed numbers are walked |
| Utf8.ValidIsUnicode | indexer/classify_g45_scan.go:125-129 | the byte rules accept exactly the concatenated encodings of Unicode scalar values |
| Utf8.SanitizeKeepsExactlyValid | indexer/classify_g45_scan.go:36-39 | decoding leaves string content alone exactly when it is valid UTF-8 |
| Utf8.SanitizedIsValid | indexer/classify_g45_scan.go:36-39 | decoded content is always valid UTF-8 |
| Utf8.SanitizeParts | indexer/classify_g45_scan.go:36-39 | runes are kept, and a byte that starts none becomes U+FFFD |
| G45Scan.FilterLosesNothing | indexer/classify_g45_scan.go:189-210 | the length filter of the fold sweep loses no fold variant of a target key |
| G45Scan.UnquotedTarget | indexer/classify_g45_scan.go:160-210 | decoding an unescaped key yields a target name only if it is that name |
| G45Scan.TopScanIsWalk | indexer/classify_g45_scan.go:333-444 | the member loop follows the validating walk and keeps the fields of the map decoded so far |
| G45Scan.OneDocument | indexer/classify_g45_scan.go:326-444 | a text is at most one document |
| G45Scan.VerdictOnObjects | indexer/classify_g45_scan.go:326-444 | on every valid object with convertible numbers the verdict is to fire with its map's fields if it is simple and shallow, and to defer otherwise |
| G45Scan.FiresExactly | indexer/classify_g45_scan.go:107-124 | the scanner fires with f if and only if the text is one simple object within the depth whose decoded map has the fields f |
| G45Scan.NothingIsNoObject | indexer/classify_g45_scan.go:113-129 | an input is dropped only if it is no valid object or has an unconvertible number |
| G45Extract.UnmarshalIsGrammar | indexer/classify.go:815-823 | the map decode succeeds exactly on the JSON objects and null within the decoder's nesting, with the map of the only parse |
| G45Extract.FilterFindsAll | indexer/classify_g45_scan.go:222-227 | the substring pre-filter has no false negatives on any input |
| G45Extract.ImagesOfObject | indexer/classify_g45_scan.go:229-303 | on a valid object the second pass returns the last plain images text among the members it reaches |
| G45Extract.ImagesExactly | indexer/classify_g45_scan.go:240-250 | on a valid object the pass returns the decoded images value if and only if it misses no images member behind the last one it takes, by an escaped key or deep nesting, or the last missed one has the same text |
| G45Extract.SpelledImagesExactly | indexer/classify_g45_scan.go:229-250 | it returns the last value spelled images if and only if no such member follows a value nested too deeply, or the last one repeats the text before it |
| G45Extract.StaleImages | indexer/classify_g45_scan.go:240-245 | on a deeply nested text the full decode accepts, the pass and the class keep an earlier images value than the decoded one |
| G45Extract.StaleImagesByEscape | indexer/classify_g45_scan.go:286-293 | so they do on a flat text whose later images key is escaped |
| G45Extract.ReachesAll | indexer/classify_g45_scan.go:240-245 | it reaches every member exactly when none is nested too deeply |
| G45Extract.ImagesAgree | indexer/classify_g45_scan.go:252-303 | when the scanner fires, its inline capture is what the second pass finds, or both find nothing |
| G45Extract.FillsAgree | indexer/classify.go:715-757 | filling a class from the map of a simple object is filling it from the scanned fields |
| G45Extract.NothingSetsNothing | indexer/classify.go:758-759 | on a dropped input the full decode sets nothing |
| G45Extract.ExtractIsOracle | indexer/classify.go:700-862 | for every text and starting class, scanner plus fallback leave exactly what the full map decode leaves |
| G45Fields.ExtractByField | indexer/classify.go:715-851 | on every text that decodes to a map each field stays if it was set and else takes its entry as text, image and alt-image falling back to the backdrop entries only when empty |
| G45Fields.ExtractNothing | indexer/classify.go:815-823 | on every other text nothing is set |
| G45Fields.LastMemberWins | indexer/classify.go:819-823 | the decoded map has under each decoded key the value of its last member, and no other key |
| G45Fields.ImagesByField | indexer/classify.go:778-790 | without escaped keys and within 1000 levels the images text is that of the decoded entry |
| G45Fields.FoldNames | indexer/classify_g45_scan.go:94-100 | the fold sweep looks for the nine text names |
| G45Fields.FoldIsCase | indexer/classify_g45_scan.go:189-210 | ASCII keys fold to each other if and only if they differ in the case of letters only |
| G45Fields.DepthLimits | indexer/classify_g45_scan.go:153-158 | the scanner decides objects up to 1000 values deep and defers beyond, the full decode takes 10000 containers |
| G45Methods.SkipWS | indexer/classify_g45_scan.go:447-457 | the cursor stops at the first character that is not whitespace |
| G45Methods.ScanString | indexer/classify_g45_scan.go:459-500 | the content span, escape flag and next index of a well-formed string, failure otherwise |
| G45Methods.SkipNumber | indexer/classify_g45_scan.go:624-669 | the cursor walk of a number computes the walk over the remaining text |
| G45Methods.SkipObject | indexer/classify_g45_scan.go:550-587 | so does the object loop |
| G45Methods.SkipArray | indexer/classify_g45_scan.go:589-614 | so does the array loop |
| G45Methods.SkipValue | indexer/classify_g45_scan.go:510-548 | so does the value walk, which always advances when it accepts |
| G45Methods.FindTargetKey | indexer/classify_g45_scan.go:166-210 | the switch and filtered sweep compute the key's class |
| G45Methods.ScanMetaVerdict | indexer/classify_g45_scan.go:333-444 | the top-level loop computes the verdict |
| G45Methods.ScanImagesRaw | indexer/classify_g45_scan.go:252-303 | the second pass loop returns the last occurrence or nothing |
| G45Methods.SCClass.SetImagesJSON | indexer/classify.go:778-790 | the images text is filled only when it was empty and one is found |
| G45Methods.SCClass.ExtractG45MetadataFallback | indexer/classify.go:815-851 | the fields become those of the full map decode, nothing on an error |
| G45Methods.SCClass.ExtractG45MetadataString | indexer/classify.go:700-762 | whichever verdict fires, the updated object equals the full map decode's |
| TelaCache.Cache.constructor | api/tela_content.go:62-74 | an empty cache; a non-positive limit means 128 MiB |
| TelaCache.Unlink | api/tela_content.go:78-81 | the ring without its i-th node, all other links intact |
| TelaCache.PushFront | api/tela_content.go:83-88 | the ring with the node in front |
| TelaCache.Cache.MoveToFront | api/tela_content.go:90-96 | the ring with its i-th node moved to the front |
| TelaCache.Cache.NewNode | api/tela_content.go:103-112 | a recycled or fresh node, never one of the ring |
| TelaCache.Cache.FreeNode | api/tela_content.go:114-124 | the node is scrubbed and kept apart from the ring unless the list is full |
| TelaCache.Cache.IndexAdd | api/tela_content.go:173-189 | the scid's list gains the key, using a recycled list that no scid holds |
| TelaCache.Cache.IndexRemove | api/tela_content.go:204-225 | the key leaves its list, and an emptied list is recycled |
| TelaCache.Cache.Evict | api/tela_content.go:227-239 | entries go from the back until the bodies fit |
| TelaCache.Cache.Get | api/tela_content.go:136-145 | the entry of the key, which becomes the most recent; a miss changes nothing |
| TelaCache.Cache.Put | api/tela_content.go:147-168 | the list operation: nil ignored, new body in front, oldest evicted; ring, map, index, size and free lists stay consistent |
| TelaCache.Cache.InvalidatePrefix | api/tela_content.go:243-267 | every entry of the scid goes and the others keep their order |
| TelaCacheRuns.EvictsOnlyTheOldest | api/tela_content.go:227-239 | eviction keeps the longest prefix that fits |
| TelaCacheRuns.PurgeLeavesNone | api/tela_content.go:243-267 | a purge keeps exactly the entries of other contracts |
| TelaCacheRuns.ScidIsInFront | api/tela_content.go:126-134 | the scid of a key is the text in front of its first bar |
| TelaCacheRuns.NoSeparatorNoScid | api/tela_content.go:126-134 | a key without a bar belongs to no scid |
| TelaCacheRuns.PurgeByPrefix | api/tela_content.go:243-267 | after a purge an entry is left if and only if its key does not begin with the scid and a bar |
| TelaCacheRuns.LookupByPosition | api/tela_content.go:136-145 | a hit moves its entry to the front and keeps the others in order, a miss changes nothing |
| TelaCacheRuns.StoreByPosition | api/tela_content.go:147-168 | a store puts its entry in front of the others, of which the longest prefix that fits stays |
| TelaCacheRuns.RunIsByRecency | api/tela_content.go:28-267 | after any calls the list is ordered by last use, holds the last stored entries, once each, and fits |
| SingleFlight.RunsKeep | indexer/sccode.go:133-182 | the invariant of flights, table and store holds in every interleaving |
| SingleFlight.AtMostOneFetch | indexer/sccode.go:133-182 | at most one call is fetching a given contract |
| SingleFlight.NoFetchAfterPersist | indexer/sccode.go:133-182 | no fetch begins for a contract whose fetched code was persisted |
| SingleFlight.SharersAgree | indexer/sccode.go:133-182 | calls that return through one flight return the same entry and error |
| SingleFlight.FetchedIsReturned | indexer/sccode.go:161-181 | in every interleaving, once a call holds fetched code all that return through its flight return that code, whether or not it could be persisted |
| SingleFlight.PersistStores | indexer/sccode.go:173-180 | a persist that works stores the fetched entry under the call's scid, one that fails stores nothing |
| SingleFlight.ReturnsWhatWasDecided | indexer/sccode.go:147-181 | a shared call returns exactly what one step of its flight decided: the stored entry its second lookup found, that lookup's error, the fetch's error, nothing after an empty fetch, or the fetched entry |
| SingleFlight.ReturnsWhatItFound | indexer/sccode.go:141-145 | a call that returns without a flight returns the stored entry its first lookup found, or that lookup's error |
| SingleFlight.LoneCall | indexer/sccode.go:133-182 | a call that runs alone for an unknown contract fetches, stores and returns the code and leaves no flight behind |
| SingleFlight.PersistedIsFound | indexer/sccode.go:133-145 | a persisted contract is found by every later first lookup that does not fail |
| SingleFlight.DoneIsFinal | indexer/sccode.go:147-182 | a finished flight's answer never changes |
| EventBus.RunsKeep | eventbus/bus.go:145-258 | the invariant of channels, logs and counters holds in every interleaving |
| EventBus.NeverSendsOnClosed | eventbus/bus.go:154-175 | the fan-out never sends on a closed channel |
| EventBus.DeliveryInOrder | eventbus/bus.go:238-258 | what a subscriber got and will get is an in-order subsequence of its matching events |
| EventBus.FanOutsAreConserved | eventbus/bus.go:154-165 | while open, matched fan-outs are received, buffered, dropped or in hand |
| EventBus.NothingMissed | eventbus/bus.go:238-258 | a subscription that dropped nothing has every matching event published after it |
| EventBus.DeliveredPasses | eventbus/bus.go:111-133 | every delivered event passes each field its filter sets, and no speculative one arrives unasked |
| EventBus.PassingIsDelivered | eventbus/bus.go:111-133 | a subscription that dropped nothing misses no event that passes every field its filter sets |
| EventBus.DropsOnlyWhenFull | eventbus/bus.go:138-165 | a subscriber loses an event only when 256 others wait for it |
| EventBus.PublishedArrives | eventbus/bus.go:204-258 | from any run at rest an event published on an open bus reaches a passing subscriber with room |

## Left out

- Buckets: keyed by decoded keys; `IndexKeys` justifies this. Invocation sub-buckets and address sub-buckets are one flat map each, so an empty sub-bucket counts as absent, and an address edge's key is the pair of its bucket name and its key in it.
- Row values: assumed to decode to what was encoded, except class records and variable snapshots, whose codecs are modelled. The codecs of invocations, ring records, installs, content bodies, address edges and code entries are fixed-width or length-prefixed forms of the same kind.
- WriteBatches.WriteBatch.AddAddrScid: does not model the entry arena behind the map, so sharing of entries between batches is not captured.
- Legacy layouts: msgpack blobs and whole-contract rows, which the source excludes from truncation's guarantee.
- Transaction counters and failed deploys above the height, which truncation leaves for the replay; the content cache bucket, which it only clears.
- The class refresh outside turbo mode, the daemon-assisted fast sync, single-contract indexing and the recent-blocks jump, which do not follow the scan discipline.
- Block and transaction parsing, the contract filter and the post-scan variable fetch: a block is its list of contributions.
- Segments.MergeInvocations: does not model that the default branch also walks the named buckets without a case of their own (pointers, reverse owner edges, block hashes and the rest) and relies on the record decoder refusing their values.
- Segments.ReadSegment: likewise reads the buckets with a case of their own and the invocation buckets only.
- TurboHistory.IndexOfIsEvents: a history starts at height 1 on an empty store, while a scan may begin at a later height; `HistoryStart.StartIsPadding` closes the gap.
- Segment workers: their fetching and decoding; a worker is the batches it flushes.
- GetInstallsInRange, ratings and the other plain getters: easy members beside GetClassInstalls.
- SingleFlight.PersistedIsFound: does not model truncation or reset deleting code rows while calls are in flight.
- EventBus.NeverSendsOnClosed: assumes no Publish overlaps Close, as the source's callers arrange.
- Liveness: pipeline shutdown, the bus ring during Close, and waiting callers are modelled for safety only.
- G45Methods.SCClass.ExtractG45MetadataString: does not model the copy of fields out of large blobs, which changes what memory is held and not the values.
- TelaCache.Cache.FreeNode: does not model the capacity of recycled key slices or clearing their unused slots.
- G45 number range, unescaping, non-ASCII folding and the rendering of non-string values are uninterpreted parameters.
- HTTP and WebSocket handlers, media fetching, compression, seed files, the RPC pool and command-line tools.
