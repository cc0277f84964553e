# Trust kernel: a verified model

The trust kernel keeps a program's memory in two places (RAM A on this machine, RAM B on another), seals what it keeps,
and moves sealed blocks over one multiplexed connection. This project models that stack and proves what its parts promise
each other over every run:

- **RAM RAID controller** (`RaidModel`, `RaidProofs`, `RaidHeat`, `RaidSurvival`, `RaidResults`, `RaidMeters`, `RaidLimits`,
  `RamRaid`): a block table in which each block is Virgin, Resident, LocalStore or RemoteKernel, with faults,
  coldest-block eviction, batch reads and their counters, over any transport: none, the in-memory store, or an arbitrary
  network.
- **Controller and transport together** (`RaidNetwork`): the controller over the multiplexed link to an honest server.
- **Block store** (`ClusterTransport`): what RAM B holds.
- **Cluster MUX** (`MuxModel`, `MuxProofs`, `MuxRuns`, `MuxTrust`, `MuxMeters`, `MuxWire`, `ClusterMux`): framing, pipelined
  requests, the server loop and the hash cache that skips verification, with an honest server and without.
- **Airlock bifurcation** (`Bifurcation`, `BifurcationProofs`, `BifurcationRuns`, `Airlock`): four ways to seal, three ways
  to open, the derived-key cache and rotating sessions.
- **Live migration** (`Migration`): the dirty bitmap and its phases.
- **User-space MMU** (`MmuModel`, `MmuProofs`, `StoreMmu`): filling faulted pages from sealed pages.
- **Seccomp compiler** (`Seccomp`): an allowlist compiled to classic BPF, against an interpreter.
- **DIME aperture** (`MapperModel`, `MapperProofs`, `MapperEffects`, `LlmMapper`): the layout of a model and the residency of
  its blocks.
- **Recovery** (`Recovery`), **TLS server name** (`Sni`), **.tza format** (`Tza`), **virtual bus** (`Bus`).

Code that updates its state in place is modelled by classes whose methods are proved equal, state for state, to functions
on values; what those functions promise over whole runs is then proved by lemmas. Cryptography, hashing, compression, JSON,
randomness, the network's answers and the outcome of a page copy are inputs: arbitrary functions, with laws stated as
hypotheses where a result needs them (`Lawful`: decryption undoes encryption and Diffie-Hellman commutes, section 6.1 of
RFC 7748; `Faithful`: decompression undoes compression; `Incremental`: hashing in pieces; `RoundTrips`: the frame codec).
`LawfulSuiteExists` shows the cryptographic laws are consistent.

Some properties one would expect are false of the code. Each has a concrete input on which it fails and the exact
condition under which the code does meet it:

- the resident counter over a batch: `RepeatedVirginIsCountedTwice`, `BatchCountExactIff`;
- a resident batch member stays: `BatchReportsAnEvictedMember`, `RaidSurvival.ResidentMemberSurvivesIff`;
- a successful fault leaves its block in memory: `FaultReportsARestoreThatFailed`, `EvictingFaultResidentIff`;
- the production fault respects the budget: `ProductionFaultOverrunsTheBudget`, `ProductionCapacityIff`;
- a batch leaves the stream drained: `FailedBatchShiftsAnswers`, `BatchMeetsSpec`;
- migration hands off what the source holds: `CollisionHandsOffStaleData` and `ZeroHashHandsOffNothing`, `SafeIff`;
- the compiled filter is correct: `LongProgramsLetAForeignCallThrough`, `FilterIsCorrectIff`;
- a checkpoint restores when an intact snapshot qualifies: `DamagedCheckpointHidesAGoodOne` and
  `RegistrationOrderDecides`, `PreferredRecovery`.

Where the code and its comments differ, the model follows the code: eviction is described as a clock algorithm but scans
all blocks for the least access count, starting at the clock; the RAID fault handler for production ignores the
in-memory store; the compiler's comment on its kill offset speaks of a jump past the allow instruction, while the kill
instruction comes before it; the recovery comment offers checkpoint and git steps that can never decide the outcome.

Run `dafny verify dfyconfig.toml` here to check everything.

## Model

| member | source | states |
|---|---|---|
| ClusterTransport.GetIsTransparent | crates/trust-kernel/src/cluster_transport.rs:147-156 | a fetch answers exactly when the block is there, with its data and hash, and changes only access counts |
| ClusterTransport.PutThenGet | crates/trust-kernel/src/cluster_transport.rs:127-144 | a store sets exactly its own block's data and hash and no other block's |
| ClusterTransport.StoreKeepsTheLast | crates/trust-kernel/src/cluster_transport.rs:106-166 | over every run each index holds exactly what was last stored there, with the fetches since then counted, and the totals are bytes ever stored, stores, and fetches that found something |
| ClusterTransport.BlockStore.Store | crates/trust-kernel/src/cluster_transport.rs:127-144 | the map and the counters after a store are those of the specification `Put` |
| ClusterTransport.BlockStore.Fetch | crates/trust-kernel/src/cluster_transport.rs:147-156 | the answer, the map and the counters after a fetch are those of the specification `Get` |
| RaidProofs.VictimIsColdest | crates/trust-kernel/src/ram_raid.rs:1034-1062 | the victim is resident with the least access count, first in clock order among equals; there is none only if no resident block is below the sentinel count |
| RaidProofs.EvictEffect | crates/trust-kernel/src/ram_raid.rs:1034-1195 | an eviction changes only its victim, keeps the invariant and the books, and lowers the count by one exactly when it frees a block |
| RaidProofs.RestoreEffect | crates/trust-kernel/src/ram_raid.rs:852-1028 | a restore changes only its block and leaves it Resident exactly when it reports success, which over a network is exactly when the answer has the recorded hash |
| RaidProofs.RemoteFetchIsExact | crates/trust-kernel/src/ram_raid.rs:924-1016 | with the in-memory store, restoring a remote block delivers the bytes of its last write and never fails |
| RaidProofs.ProductionIgnoresTheStore | crates/trust-kernel/src/ram_raid.rs:757-846 | without a network client the production restore of a remote block injects zeros, and succeeds exactly when zeros have the recorded hash |
| RaidProofs.BatchEffect | crates/trust-kernel/src/ram_raid.rs:1280-1344 | a batch keeps the invariant and the fault/eviction balance, and overcounts residency by exactly the repeats in the two lists it counts blindly |
| RaidProofs.BatchCountExactIff | crates/trust-kernel/src/ram_raid.rs:1322-1327 | the resident counter stays exact over a batch if and only if those lists have no repeats; in particular for batches without repeats |
| RaidProofs.BatchMemberResidentIff | crates/trust-kernel/src/ram_raid.rs:1280-1420 | a member out of memory at the start is in memory at the end, on every transport, except that over a network a remote member arrives if and only if the whole pipeline is answered and its own answer has the recorded hash |
| RaidSurvival.ResidentMemberSurvivesIff | crates/trust-kernel/src/ram_raid.rs:1306-1318 | a resident member is reported AlreadyResident whatever happens; when stores are acknowledged it is still resident if and only if the slots the batch needs are no more than the blocks ahead of it in the table before the call: colder, or as cold and reached first by the clock |
| RaidSurvival.SurvivesIff | crates/trust-kernel/src/ram_raid.rs:1034-1062 | likewise for any number of evictions: a block survives n of them if and only if at least n blocks are ahead of it, or its count has reached the bound at which nothing is evicted |
| RaidSurvival.LineMovesUp | crates/trust-kernel/src/ram_raid.rs:1034-1062 | each eviction takes the first block of that order and moves every other exactly one place up, however ties and the moving clock interact |
| RaidSurvival.AheadAreColder | crates/trust-kernel/src/ram_raid.rs:1034-1062 | when no other resident block has its access count, the blocks ahead of a block are the colder ones |
| RaidSurvival.ColderBlocksShield | crates/trust-kernel/src/ram_raid.rs:1034-1062 | on any transport, stores refused or not, n colder blocks are enough to survive n evictions |
| RaidProofs.EvictionFreesIff | crates/trust-kernel/src/ram_raid.rs:1034-1195 | with exact counters an eviction frees a block, on every transport, if and only if one is resident and the network does not refuse the victim |
| RaidProofs.FaultKeepsCapacity | crates/trust-kernel/src/ram_raid.rs:664-722 | a fault never takes residency over the budget |
| RaidProofs.BatchCapacityIff | crates/trust-kernel/src/ram_raid.rs:1280-1420 | when stores are acknowledged: residency after any batch, repeats included, exactly; it is within the budget if and only if what the batch brings in is |
| RaidProofs.ProactiveReachesTarget | crates/trust-kernel/src/ram_raid.rs:1203-1222 | when stores are acknowledged, proactive eviction does nothing below 75% and otherwise ends at the lesser of what was resident and 60% |
| RaidProofs.FaultSucceedsIff | crates/trust-kernel/src/ram_raid.rs:664-722 | on every transport, when a fault fails, and when its block is resident if it does not: read off the table, the next store and the next fetch |
| RaidProofs.FaultOutcome | crates/trust-kernel/src/ram_raid.rs:664-722 | with exact counters a full memory has no victim only when it is empty; without a network the only failures are a bad index and an empty budget |
| RaidProofs.EvictingFaultResidentIff | crates/trust-kernel/src/ram_raid.rs:699-714 | a fault that evicted reports success, and its block is resident if and only if, judged before the call, the fetch that follows is answered with the right hash, where one is needed at all |
| RaidProofs.RunAccounts | crates/trust-kernel/src/ram_raid.rs:664-1420 | over every run: residency counter = faults + write misses − evictions, it never falls short of the table, equals it when no batch repeats an index, and every block satisfies the invariant (dirty implies Resident, written implies not Virgin, remote implies odd with an endpoint and the recorded hash) |
| RaidProofs.WrittenIsNeverZeroFilled | crates/trust-kernel/src/ram_raid.rs:861-877 | after any run a block that was ever written is not Virgin and no fault zero-fills it |
| RaidProofs.RemoteBlocksSurviveEveryRun | crates/trust-kernel/src/ram_raid.rs:1110-1167 | with the in-memory store, after any run every remote block is in the store under its recorded hash, and restoring it delivers the bytes of its last write |
| RaidProofs.SuccessfulFaultIsResident | crates/trust-kernel/src/ram_raid.rs:664-722 | the same after any run on any transport; without a network a fault that does not fail always leaves its block resident |
| RaidProofs.FaultsSucceedAfterEveryRun | crates/trust-kernel/src/ram_raid.rs:664-722 | after any run without repeated batch indices, faults fail only on a bad address, an empty budget, and what a network refuses or does not deliver |
| RaidProofs.ProductionCapacityIff | crates/trust-kernel/src/ram_raid.rs:729-748 | a production fault, which ignores a refused eviction, stays within the budget if and only if it is not the case that memory is full, nothing can be evicted, and the block is out of memory and restorable |
| RaidProofs.ProductionKeepsCapacity | crates/trust-kernel/src/ram_raid.rs:729-748 | so it always does when stores are acknowledged, the counter is exact and the budget is not empty |
| RaidProofs.BatchKeepsCapacity | crates/trust-kernel/src/ram_raid.rs:1280-1420 | a batch stays within the budget on any transport when there is room for it already, and with acknowledged stores when it restores no more than the budget |
| RaidProofs.StepKeepsCapacity | crates/trust-kernel/src/ram_raid.rs:664-1446 | on every transport, each operation that respects the budget keeps residency within it and the counter exact |
| RaidProofs.RunKeepsCapacity | crates/trust-kernel/src/ram_raid.rs:664-1446 | over every run of such operations on every transport, residency stays within the budget and the counter equals the number of Resident blocks |
| RaidHeat.RunHeats | crates/trust-kernel/src/ram_raid.rs:664-1446 | over every run on every transport the access count of a block is its tally: writes, reads while Resident, mentions in batches while Resident and successful restores, since its last zero fill, which counts one |
| RaidHeat.TouchStageHeats | crates/trust-kernel/src/ram_raid.rs:1314-1319 | the touch stage of a batch raises each Resident member by exactly the number of times the batch names it |
| RaidHeat.BatchHeats | crates/trust-kernel/src/ram_raid.rs:1280-1420 | the access count of every block after a batch, by where it was: named again, filled, reloaded, or installed once for each intact answer |
| RaidHeat.ReadingProtects | crates/trust-kernel/src/ram_raid.rs:1250-1268 | of two equally warm Resident blocks, one further read of the first makes the second leave first |
| RaidHeat.ReadBlockOutlives | crates/trust-kernel/src/ram_raid.rs:1034-1062 | so no number of evictions takes the block just read and leaves the other |
| RaidResults.ProductionInjects | crates/trust-kernel/src/ram_raid.rs:757-846 | which bytes a production fault injects: a whole page of zeros, the answer of the network with the recorded hash, or none |
| RaidResults.PrefetchCounts | crates/trust-kernel/src/ram_raid.rs:1428-1446 | prefetch returns the number of absent blocks asked for; over a network remote ones count once for each intact answer |
| RaidMeters.RunIsMetered | crates/trust-kernel/src/ram_raid.rs:664-1446 | over every run the zero pages, bytes compressed and decompressed, transfers and bus numbers are the tallies of what the operations reported |
| RaidLimits.RepeatedVirginIsCountedTwice | crates/trust-kernel/src/ram_raid.rs:1322-1327 | a batch that repeats a Virgin index leaves the counter at two with one block resident |
| RaidLimits.BatchReportsAnEvictedMember | crates/trust-kernel/src/ram_raid.rs:1308-1318 | a reachable batch evicts its own member and reports it AlreadyResident |
| RaidLimits.FaultReportsARestoreThatFailed | crates/trust-kernel/src/ram_raid.rs:699-714 | over a network, a reachable fault reports success while its block is still remote |
| RaidLimits.ProductionFaultOverrunsTheBudget | crates/trust-kernel/src/ram_raid.rs:743-745 | over a network that refuses its store, a reachable production fault takes residency over the budget |
| RaidNetwork.EvictOverKeeps | crates/trust-kernel/src/ram_raid.rs:1110-1167 | over a drained link to an honest server no eviction is refused, and a block that leaves for RAM B is held there with the bytes of its last write |
| RaidNetwork.PipelineIsExact | crates/trust-kernel/src/ram_raid.rs:1350-1365 | a pipelined restore gets every block in order, with the bytes of its last write, and leaves the link drained |
| RaidNetwork.BatchOverSucceeds | crates/trust-kernel/src/ram_raid.rs:1280-1420 | every member of a batch that was out of memory is in memory afterwards |
| RaidNetwork.StepOverIsAStep | crates/trust-kernel/src/ram_raid.rs:664-1446 | each operation over the link is the same operation over a network that acknowledges every store, so everything proved of networks holds of the two together |
| RaidNetwork.RunOverKeeps | crates/trust-kernel/src/ram_raid.rs:664-1446 | over every run the link stays drained and the server honest, and the server holds the last written bytes of every block on RAM B |
| RaidNetwork.HonestServerNeverFails | crates/trust-kernel/src/ram_raid.rs:757-1028 | so after any run no restore from RAM B fails on either fault path, the production path injects the bytes of the last write, no eviction is refused and every batch member arrives |
| RaidNetwork.HonestServerFaults | crates/trust-kernel/src/ram_raid.rs:664-722 | and a fault fails only on a bad address or a full memory with no victim, and otherwise leaves its block resident |
| RamRaid.RamRaidController.constructor | crates/trust-kernel/src/ram_raid.rs:429-470 | a new controller has every block Virgin and every counter zero |
| RamRaid.RamRaidController.HandleFault | crates/trust-kernel/src/ram_raid.rs:664-722 | the in-place fault handler reaches exactly the state and result of the specification |
| RamRaid.RamRaidController.HandleFaultProduction | crates/trust-kernel/src/ram_raid.rs:729-748 | likewise for the production handler and the bytes it injects; a failed eviction is ignored |
| RamRaid.RamRaidController.RestoreInner | crates/trust-kernel/src/ram_raid.rs:757-846 | likewise for the production restore |
| RamRaid.RamRaidController.Restore | crates/trust-kernel/src/ram_raid.rs:852-1028 | likewise for the restore of a block from any location |
| RamRaid.RamRaidController.FindColdest | crates/trust-kernel/src/ram_raid.rs:1034-1062 | the scan loop finds the specified victim |
| RamRaid.RamRaidController.Evict | crates/trust-kernel/src/ram_raid.rs:1034-1195 | likewise for the eviction of the victim, clean or dirty, local or remote |
| RamRaid.RamRaidController.EvictToRemote | crates/trust-kernel/src/ram_raid.rs:1106-1167 | likewise for storing a dirty odd block on RAM B, with the store's own success |
| RamRaid.RamRaidController.Proactive | crates/trust-kernel/src/ram_raid.rs:1203-1222 | the eviction loop and the list it returns are those of the specification |
| RamRaid.RamRaidController.SimulateWrite | crates/trust-kernel/src/ram_raid.rs:1229-1247 | a write makes its block resident and dirty and counts only if it was not resident |
| RamRaid.RamRaidController.SimulateRead | crates/trust-kernel/src/ram_raid.rs:1250-1268 | a read touches a resident block and faults on any other |
| RamRaid.RamRaidController.Partition | crates/trust-kernel/src/ram_raid.rs:1284-1304 | the loop splits a batch by location, in order, dropping indices out of range |
| RamRaid.RamRaidController.SimulateReadBatch | crates/trust-kernel/src/ram_raid.rs:1280-1344 | the batch read reaches the specified state and results, in the specified order |
| RamRaid.RamRaidController.RestoreRemoteBatch | crates/trust-kernel/src/ram_raid.rs:1350-1420 | likewise for the pipelined restore and its one-by-one fallback |
| RamRaid.RamRaidController.PrefetchBlocks | crates/trust-kernel/src/ram_raid.rs:1428-1446 | likewise for prefetch, with the number of blocks that did not fail |
| MuxWire.Be32Truncates | crates/trust-kernel/src/cluster_mux.rs:93-100 | the length prefix carries a frame's length modulo 2^32 |
| MuxWire.FrameRoundTripIff | crates/trust-kernel/src/cluster_mux.rs:93-129 | a written frame is read back, leaving what follows it, if and only if its encoding is within the frame limit |
| MuxWire.TruncatedFrameIsEof | crates/trust-kernel/src/cluster_mux.rs:112-129 | every proper prefix of a frame reads as end of file |
| MuxWire.PipelineRoundTrip | crates/trust-kernel/src/cluster_mux.rs:93-129 | frames written one after another are read back in order |
| MuxWire.ReadPayloadStreaming | crates/trust-kernel/src/cluster_mux.rs:154-173 | the chunked read delivers exactly the announced bytes and the hash of the whole, or fails exactly when the stream is short |
| MuxProofs.EveryInterleavingAgrees | crates/trust-kernel/src/cluster_mux.rs:687-743 | however writes, server steps and reads interleave, every answer read carries the channel of its request, and a finished batch has the outcome, store, stream, cache and byte count of the two-phase batch |
| MuxProofs.StoppedHasLanded | crates/trust-kernel/src/cluster_mux.rs:687-743 | a schedule that can move no further has read every answer or an error |
| MuxProofs.SchedulesAreBounded | crates/trust-kernel/src/cluster_mux.rs:687-743 | no schedule of a batch runs forever |
| MuxProofs.HonestAnswer | crates/trust-kernel/src/cluster_mux.rs:365-435 | a server whose blocks carry the hash of their data answers a fetch with the block, not-found, or conflict, whatever the client has cached |
| MuxProofs.BatchReads | crates/trust-kernel/src/cluster_mux.rs:714-743 | reading the answers of a batch collects the blocks up to the first missing one and leaves the rest unread |
| MuxProofs.BatchMeetsSpec | crates/trust-kernel/src/cluster_mux.rs:687-743 | a batch returns all its blocks or the failure of the first missing one; the stream is drained afterwards if and only if nothing but the last is missing, and what is left otherwise, exactly |
| MuxRuns.FetchMeetsSpec | crates/trust-kernel/src/cluster_mux.rs:580-630 | on a drained connection a fetch returns what the map holds and drains the connection again |
| MuxRuns.StoreMeetsSpec | crates/trust-kernel/src/cluster_mux.rs:436-471 | a store is taken if and only if its hash is that of its data, so blocks stored over the wire always carry their hash |
| MuxRuns.CallMeetsMeaning | crates/trust-kernel/src/cluster_mux.rs:553-743 | every call has the outcome and the effect it would have on a plain map |
| MuxRuns.RunsRefineAMap | crates/trust-kernel/src/cluster_mux.rs:553-743 | so has every run whose batches miss at most their last block |
| MuxRuns.CacheNeverDecides | crates/trust-kernel/src/cluster_mux.rs:258-303 | over every such run outcomes and stored blocks are the same whatever the hash cache holds, in particular when it skips nothing |
| MuxTrust.AnswerIsVerifiedIff | crates/trust-kernel/src/cluster_mux.rs:258-303 | from any stream and any cache, a payload is accepted if and only if it hashes to the announced hash or that very hash was verified for that very block before |
| MuxTrust.FetchIsVerifiedIff | crates/trust-kernel/src/cluster_mux.rs:580-630 | whatever the server stores, a fetch on a drained link succeeds exactly when the block is there, agrees with the expected hash, and is so verified |
| MuxTrust.FetchedIsVerified | crates/trust-kernel/src/cluster_mux.rs:580-630 | on any link, what a fetch returns was announced at the front of the stream and so verified |
| MuxTrust.BatchIsVerified | crates/trust-kernel/src/cluster_mux.rs:714-743 | on any link, so was every block a batch returns, where an earlier member for the same block may vouch |
| MuxTrust.RunCaches | crates/trust-kernel/src/cluster_mux.rs:204-303 | over every run on any link, a hash the cache vouches for was vouched for at the start, or is the hash of a payload on offer that some call read for that block, or is the one under which some call stored it |
| MuxTrust.KnownIffMarked | crates/trust-kernel/src/cluster_mux.rs:213-240 | marking makes exactly one hash known for a block, invalidating makes none known, and a new cache knows nothing |
| MuxMeters.SecondFetchIsAHit | crates/trust-kernel/src/cluster_mux.rs:258-303 | a block once fetched is not hashed again on the next fetch, and the saving is counted |
| MuxMeters.PayloadIsCounted | crates/trust-kernel/src/cluster_mux.rs:258-303 | each payload is one hit or one miss, and after a miss the cache vouches for the hash of what came |
| MuxMeters.StoreIsLearned | crates/trust-kernel/src/cluster_mux.rs:671-674 | an acknowledged store makes its hash the known one; any other leaves the cache alone |
| MuxMeters.CallIsMetered | crates/trust-kernel/src/cluster_mux.rs:553-743 | every call counts its requests, channel numbers and bytes as its outcome says |
| MuxMeters.RunIsMetered | crates/trust-kernel/src/cluster_mux.rs:553-743 | over every run requests are counted by outcome and channel numbers count up in 32 bits |
| MuxRuns.StoredIsReadBack | crates/trust-kernel/src/cluster_mux.rs:580-682 | a stored block is read back as stored until the next store to it, across any other calls and cache states |
| MuxRuns.BatchEqualsSequential | crates/trust-kernel/src/cluster_mux.rs:687-743 | a batch returns what fetching its blocks one by one returns |
| MuxRuns.StaleAnswerIsTaken | crates/trust-kernel/src/cluster_mux.rs:580-630 | with an unread answer on the stream, the next fetch returns that other block |
| MuxRuns.FailedBatchShiftsAnswers | crates/trust-kernel/src/cluster_mux.rs:734-737 | a batch that fails early leads to exactly that |
| ClusterMux.HashCache.Check | crates/trust-kernel/src/cluster_mux.rs:224-228 | a block is known exactly when this very hash is recorded for it |
| ClusterMux.HashCache.MarkVerified | crates/trust-kernel/src/cluster_mux.rs:230-233 | after marking, exactly that hash is known for the block, and nothing changes for others |
| ClusterMux.HashCache.Invalidate | crates/trust-kernel/src/cluster_mux.rs:236-240 | after invalidation no hash of the block is known and no other block is affected |
| ClusterMux.HashCache.Take | crates/trust-kernel/src/cluster_mux.rs:258-303 | the cached payload path has the specified verdict, entries and counters |
| ClusterMux.Connection.Write | crates/trust-kernel/src/cluster_mux.rs:93-110 | a request is queued behind the others and will be answered behind their answers |
| ClusterMux.Connection.ServeOne | crates/trust-kernel/src/cluster_mux.rs:365-492 | a server step answers the oldest request and changes nothing about how the connection will settle |
| ClusterMux.ClusterMuxClient.FetchBlock | crates/trust-kernel/src/cluster_mux.rs:580-630 | the client's fetch reaches the specified state and result however the server is scheduled |
| ClusterMux.ClusterMuxClient.StoreBlock | crates/trust-kernel/src/cluster_mux.rs:633-682 | likewise for a store, with the cache entry set to the stored hash on success |
| ClusterMux.ClusterMuxClient.Ping | crates/trust-kernel/src/cluster_mux.rs:553-577 | likewise for a ping |
| ClusterMux.ClusterMuxClient.SendAll | crates/trust-kernel/src/cluster_mux.rs:695-712 | the first phase of a batch queues one request per member on consecutive channels |
| ClusterMux.ClusterMuxClient.FetchBatch | crates/trust-kernel/src/cluster_mux.rs:687-743 | the two-phase batch reaches the specified state and result, early return included |
| BifurcationProofs.LawfulSuiteExists | crates/trust-kernel/src/bifurcation.rs:978-1030 | the laws assumed of the cryptography can be met |
| BifurcationProofs.InfoIsInjective | crates/trust-kernel/src/bifurcation.rs:978-991 | different 64-bit block indices derive their keys from different info strings |
| BifurcationProofs.SealIsSound | crates/trust-kernel/src/bifurcation.rs:724-790 | a block is sealed under the index, nonce and clearance asked for, is readable under the engine's secret, and every cached key is still what a fresh derivation gives |
| BifurcationProofs.SealSessionIsSound | crates/trust-kernel/src/bifurcation.rs:798-862 | likewise with a session key, reused or rotated |
| BifurcationProofs.SealBatchIsSound | crates/trust-kernel/src/bifurcation.rs:1039-1145 | likewise for every block of a batch, each under its own position |
| BifurcationProofs.ParallelSealIsSound | crates/trust-kernel/src/bifurcation.rs:1286-1367 | likewise for every block sealed in parallel, each under its own position and ephemeral key |
| BifurcationProofs.KeyForIsFresh | crates/trust-kernel/src/bifurcation.rs:913-945 | the key an open uses, cached or not, is the one a fresh derivation gives |
| BifurcationProofs.CacheIsTransparent | crates/trust-kernel/src/bifurcation.rs:556-602 | an open has the same result with the cache as after flushing it |
| BifurcationProofs.OpenIsExact | crates/trust-kernel/src/bifurcation.rs:882-964 | a sealed block opens to its plaintext if and only if the claim is well formed and its clearance suffices, and otherwise to the specific refusal |
| BifurcationProofs.BatchOpensAreExact | crates/trust-kernel/src/bifurcation.rs:1150-1237 | batch and parallel open return the plaintexts the claim may see, in order, and count the others |
| BifurcationProofs.BatchSpecByMembers | crates/trust-kernel/src/bifurcation.rs:1150-1237 | opened and denied blocks add up to the batch, and all plaintexts come back if and only if each block would open alone |
| BifurcationProofs.StepIsSound | crates/trust-kernel/src/bifurcation.rs:697-1237 | every operation keeps cached and session keys true and the cache within its size |
| BifurcationProofs.RunIsSound | crates/trust-kernel/src/bifurcation.rs:556-670 | so does every run of an engine |
| BifurcationProofs.SealedOpensAnywhere | crates/trust-kernel/src/bifurcation.rs:724-1237 | a block sealed in any state of one engine opens under all three opens in any state of any engine with the same secret, exactly as the claim permits |
| BifurcationProofs.ParallelSealedOpensAnywhere | crates/trust-kernel/src/bifurcation.rs:1286-1444 | likewise for blocks sealed in parallel |
| BifurcationRuns.SessionBlocksHaveOwnKeys | crates/trust-kernel/src/bifurcation.rs:798-862 | two blocks of one session share its secret, but each is encrypted under the info string of its own index, and different 64-bit indices have different ones |
| BifurcationRuns.BatchBlocksHaveOwnKeys | crates/trust-kernel/src/bifurcation.rs:1039-1145 | so has every block of a batch |
| BifurcationRuns.SessionRotatesIff | crates/trust-kernel/src/bifurcation.rs:798-812 | after any run a seal goes under the current session exactly when there is one, it has sealed fewer than 100 000 blocks and is not too old; otherwise under a new one; blocks are counted against it |
| BifurcationRuns.RotateAndFlush | crates/trust-kernel/src/bifurcation.rs:865-867 | rotating ends the session and nothing else; flushing forgets every cached key and nothing else |
| BifurcationRuns.RunLimits | crates/trust-kernel/src/bifurcation.rs:697-715 | over every run sessions are limited to 100 000 blocks and the cache to 16 384 keys |
| BifurcationRuns.OpensExactlyFor | crates/trust-kernel/src/bifurcation.rs:882-964 | a sealed block opens exactly for a claim with an identity, a 64-digit public key and a clearance that covers the block's, and is otherwise refused for the stated reason |
| BifurcationRuns.OpenedIsGenuine | crates/trust-kernel/src/bifurcation.rs:926-964 | for any block at all, altered or forged: a plaintext comes back only if the decrypted bytes have the recorded hash, and an integrity failure exactly when they do not |
| BifurcationRuns.BatchOpenedIsGenuine | crates/trust-kernel/src/bifurcation.rs:1150-1237 | a batch yields only decryptions of its own blocks that have the recorded hash and that the claim covers |
| BifurcationRuns.CacheRemembers | crates/trust-kernel/src/bifurcation.rs:578-602 | a key that was put is found again, others stay exactly when there was room, and flushing forgets all |
| BifurcationRuns.OpenLooksUpOnce | crates/trust-kernel/src/bifurcation.rs:882-935 | an open that is let through looks its key up once, counted as hit or miss, and only a miss adds a key; a refused open leaves the cache alone |
| BifurcationRuns.OpenBatchLooksUpEach | crates/trust-kernel/src/bifurcation.rs:1150-1185 | the batch path looks up every block and adds no key |
| BifurcationRuns.SealedAndOpenedAreCached | crates/trust-kernel/src/bifurcation.rs:724-964 | after sealing or opening a block its key is found without deriving it |
| BifurcationRuns.SealedBatchIsCached | crates/trust-kernel/src/bifurcation.rs:1126-1140 | after sealing a batch the key of its last block is cached, and of every block if there was room |
| BifurcationRuns.RunTallies | crates/trust-kernel/src/bifurcation.rs:526-545 | over every run the engine's counters are the tallies of what its operations returned |
| Airlock.KeyCache.Get | crates/trust-kernel/src/bifurcation.rs:578-587 | a lookup returns the cached key and counts a hit or a miss |
| Airlock.KeyCache.Put | crates/trust-kernel/src/bifurcation.rs:589-595 | an insertion into a full cache clears it first |
| Airlock.AirlockBifurcation.SealBlock | crates/trust-kernel/src/bifurcation.rs:724-790 | the in-place engine reaches the specified state and block |
| Airlock.AirlockBifurcation.EnsureSession | crates/trust-kernel/src/bifurcation.rs:798-825 | a session is kept while valid and replaced otherwise |
| Airlock.AirlockBifurcation.SealWithSession | crates/trust-kernel/src/bifurcation.rs:798-862 | likewise for session sealing |
| Airlock.AirlockBifurcation.OpenBlock | crates/trust-kernel/src/bifurcation.rs:882-964 | likewise for opening, refusals and statistics included |
| Airlock.AirlockBifurcation.SealMany | crates/trust-kernel/src/bifurcation.rs:1039-1145 | likewise for batch sealing and the keys it caches |
| Airlock.AirlockBifurcation.OpenMany | crates/trust-kernel/src/bifurcation.rs:1150-1237 | likewise for batch opening with prefetched keys |
| Migration.HandoffIsExact | crates/trust-kernel/src/bifurcation.rs:1536-1607 | when a round enters Handoff the destination equals the source on every block, over every run of writes and rounds whose contents the quick hash tells apart and from its start value |
| Migration.SafeIff | crates/trust-kernel/src/bifurcation.rs:1511-1607 | for every hash and every set of contents: all runs over those contents hand off exactly if and only if the hash tells them apart and none hashes to the initial record |
| Migration.ZeroHashHandsOffNothing | crates/trust-kernel/src/bifurcation.rs:1514-1521 | for every hash, a block that hashes to the initial record is never sent, and Handoff comes with an empty destination |
| Migration.RunInSync | crates/trust-kernel/src/bifurcation.rs:1525-1607 | throughout such a run every clean block has been sent as it stands |
| Migration.CollisionHandsOffStaleData | crates/trust-kernel/src/bifurcation.rs:1557-1563 | for every hash and every two contents it does not tell apart, a run hands off the first when the source holds the second |
| Migration.PhaseIsRoundCount | crates/trust-kernel/src/bifurcation.rs:1570-1597 | with full block data the phase is fixed by the number of rounds, whatever is written or marked between them; without blocks it never leaves DeltaSync |
| Migration.FourRoundsCompleteIff | crates/trust-kernel/src/bifurcation.rs:1570-1597 | four such rounds reach Complete if and only if there is a block |
| Migration.SyncFirstClears | crates/trust-kernel/src/bifurcation.rs:1547-1566 | the transfer loop clears exactly the blocks it was given, each counted once as sent or skipped |
| Migration.RoundIsExact | crates/trust-kernel/src/bifurcation.rs:1536-1607 | a round sends exactly the dirty blocks whose hash is not the recorded one, leaves dirty exactly those it did not reach, and reports and accumulates just that |
| Migration.RoundAdvancesIff | crates/trust-kernel/src/bifurcation.rs:1570-1597 | when a round moves to the next phase, by what it leaves dirty: nothing, or less than one block in a hundred |
| Migration.LiveMigration.Mark | crates/trust-kernel/src/bifurcation.rs:1525-1529 | marking sets one bit, or nothing out of range |
| Migration.LiveMigration.TransferDirty | crates/trust-kernel/src/bifurcation.rs:1547-1566 | the in-place loop reaches the specified bitmap, hashes and totals |
| Migration.LiveMigration.Sync | crates/trust-kernel/src/bifurcation.rs:1536-1607 | likewise for a whole round, its phase change and its report |
| MmuProofs.RoundUpIsLeast | crates/store-mmu/src/lib.rs:169-170 | the arena is the least whole number of pages that holds the requested size |
| MmuProofs.PageIndexOfOffset | crates/store-mmu/src/lib.rs:262-263 | a fault anywhere in a page of an aligned arena gets that page's index |
| MmuProofs.SealPagesSeals | crates/store-mmu/src/lib.rs:544-559 | every page is sealed in its place, under its own index and the one secret |
| MmuProofs.EncryptedPage | crates/store-mmu/src/lib.rs:286-318 | the page built on a fault is the original cut or padded to page size for a sufficient claim, and zeros for any other claim or page |
| MmuProofs.CompressedPage | crates/store-mmu/src/lib.rs:319-358 | likewise for compressed pages |
| MmuProofs.MemoryIllusion | crates/store-mmu/src/lib.rs:260-378 | over any order of faults and copy failures, every injected page shows that; faults = injected + errors and bytes = injected × page size |
| MmuProofs.CompressedMemoryIllusion | crates/store-mmu/src/lib.rs:319-378 | likewise for compressed pages, each showing its original wherever its compression succeeded |
| MmuProofs.StaticPages | crates/store-mmu/src/lib.rs:268-278 | over any order of faults in the unencrypted modes, every injected page shows the payload cut or followed by zeros, or zeros only |
| MmuProofs.StopsAtACorruptPage | crates/store-mmu/src/lib.rs:260-378 | over any pages, sealed or forged, the handler lives, every open counted once by its engine, exactly until a fault hits a page that fails to decrypt for the claim; then nothing changes any more |
| StoreMmu.SealPageLoop | crates/store-mmu/src/lib.rs:544-559 | the sealing loop produces the specified blocks |
| StoreMmu.SealPagesCompressedLoop | crates/store-mmu/src/lib.rs:576-623 | likewise with compression; the original sizes, the three totals and the ratio are those of the pages and of what was sealed |
| StoreMmu.MmuArena.CopyIntoPage | crates/store-mmu/src/lib.rs:273-276 | a buffer is cut or zero-padded to a page |
| StoreMmu.MmuArena.BuildPage | crates/store-mmu/src/lib.rs:268-358 | the page for each fill mode is the specified one |
| StoreMmu.MmuArena.OnFault | crates/store-mmu/src/lib.rs:260-378 | one turn of the fault loop reaches the specified memory and counters |
| Seccomp.NumbersNameCalls | crates/trust-kernel/src/seccomp.rs:29-102 | a number names a call exactly when it is that call's number |
| Seccomp.GenerateBpf | crates/trust-kernel/src/seccomp.rs:321-374 | the emitting loop produces the laid-out program |
| Seccomp.ScanFrom | crates/trust-kernel/src/seccomp.rs:347-356 | from any comparison on, execution allows exactly the numbers still listed |
| Seccomp.ShortProgramsAreCorrect | crates/trust-kernel/src/seccomp.rs:321-374 | for at most 254 calls the program allows exactly the listed calls on x86_64, kills otherwise, and never leaves itself |
| Seccomp.LastCallReachesAllow | crates/trust-kernel/src/seccomp.rs:347-356 | whatever the length, the number of the last listed call is allowed from any comparison on |
| Seccomp.LongProgramsLetAForeignCallThrough | crates/trust-kernel/src/seccomp.rs:331-338 | with 255 calls or more the truncated kill offset lets a call of another architecture through |
| Seccomp.FilterIsCorrectIff | crates/trust-kernel/src/seccomp.rs:321-374 | the program is correct for every architecture and number if and only if it lists at most 254 calls |
| Seccomp.CompileFilter | crates/trust-kernel/src/seccomp.rs:199-311 | the filter of an intent is the program of its allowlist: the base calls and the intent's own, each once |
| Seccomp.NothingDeniedIsAllowed | crates/trust-kernel/src/seccomp.rs:179-311 | no intent allows an always-denied call, and no allowlist is too long |
| Seccomp.KernelAgreesWithSimulation | crates/trust-kernel/src/seccomp.rs:377-387 | for every intent, architecture and number, the compiled filter allows exactly what the simulation allows on x86_64 |
| Seccomp.CleanSequenceIff | crates/trust-kernel/src/seccomp.rs:391-396 | a sequence is reported clean if and only if the compiled filter allows every call of it |
| Seccomp.CompiledPolicy | crates/trust-kernel/src/seccomp.rs:179-374 | call by call, which intents a compiled filter permits it to, and nothing else on any architecture |
| Seccomp.EveryIntentMay | crates/trust-kernel/src/seccomp.rs:179-186 | by number, the calls every intent may make |
| Seccomp.NoIntentMay | crates/trust-kernel/src/seccomp.rs:188-195 | by number, the calls no intent may make: starting processes, tracing, mounting, rebooting, changing identity |
| Seccomp.IntentClasses | crates/trust-kernel/src/seccomp.rs:203-292 | which prefixes and names decide the class of an intent, whatever follows a prefix |
| Seccomp.UnlistedIntents | crates/trust-kernel/src/seccomp.rs:290-292 | an intent gets the base calls only exactly when it has none of those names and prefixes |
| MapperProofs.BlocksPartitionTheModel | crates/trust-kernel/src/llm_mapper.rs:176-212 | block sizes add up to the model's size and no block is empty |
| MapperProofs.LayersAreStretches | crates/trust-kernel/src/llm_mapper.rs:180-200 | a layer is a stretch of consecutive blocks, as many as go evenly into the layers but at least one |
| MapperProofs.AllCoveredIff | crates/trust-kernel/src/llm_mapper.rs:176-232 | every block belongs to a layer that exists if and only if the layers divide the blocks or outnumber them |
| MapperProofs.SortOrders | crates/trust-kernel/src/llm_mapper.rs:572-578 | the stable sort orders by access count, lower index first among equals |
| MapperProofs.EvictDownTakesPrefix | crates/trust-kernel/src/llm_mapper.rs:580-596 | the eviction loop takes out exactly a prefix of the sorted list, of the computed length |
| MapperProofs.EvictsTheColdest | crates/trust-kernel/src/llm_mapper.rs:569-598 | eviction takes out min(target, resident − 4) blocks, each colder than every block that stays, and nothing else changes |
| MapperProofs.EvictionGrows | crates/trust-kernel/src/llm_mapper.rs:569-598 | eviction keeps the books balanced and lowers residency by exactly that number |
| MapperProofs.InferLayerEffect | crates/trust-kernel/src/llm_mapper.rs:605-616 | after each layer of inference residency is within max(budget, 4), the layer's blocks have all been mapped and the books balance |
| MapperProofs.InferUpToEffect | crates/trust-kernel/src/llm_mapper.rs:601-619 | so after any number of layers, from any balanced state |
| MapperProofs.InferenceCoverage | crates/trust-kernel/src/llm_mapper.rs:601-619 | inference materialises exactly the blocks of existing layers, so all of them if and only if the layers divide the blocks or outnumber them |
| MapperProofs.RunConserves | crates/trust-kernel/src/llm_mapper.rs:411-619 | over every run, between calls nothing is Loading and resident = materialised − evicted |
| MapperEffects.PrefetchLoadsTheWindow | crates/trust-kernel/src/llm_mapper.rs:536-564 | prefetching loads exactly the absent blocks of the layers ahead, up to the window and the end of the model; returns and counts their number, charges their bytes by source, and changes nothing else |
| MapperEffects.MaterializeLayerVisits | crates/trust-kernel/src/llm_mapper.rs:482-530 | materialising a layer puts exactly its blocks into memory, each warmed by one, charges those that were absent, and counts the layer complete unless it is empty |
| LlmMapper.LlmMemoryMapper.MaterializeBlock | crates/trust-kernel/src/llm_mapper.rs:411-476 | the in-place step through Loading reaches the specified block and statistics |
| LlmMapper.LlmMemoryMapper.MaterializeWholeLayer | crates/trust-kernel/src/llm_mapper.rs:482-530 | likewise for a layer, with loads split by source and the layer complete only if every block is usable |
| LlmMapper.LlmMemoryMapper.Prefetch | crates/trust-kernel/src/llm_mapper.rs:536-564 | likewise for the window of layers ahead, stopping at the last layer |
| LlmMapper.LlmMemoryMapper.EvictColdBlocks | crates/trust-kernel/src/llm_mapper.rs:569-598 | likewise for the eviction loop and its two exits |
| LlmMapper.LlmMemoryMapper.Inference | crates/trust-kernel/src/llm_mapper.rs:601-619 | likewise for the whole inference |
| Recovery.FirstIsNewest | crates/trust-kernel/src/recovery.rs:138-142 | in the index of any history, the first match is the newest match ever registered, earliest registered among equals |
| Recovery.CheckpointIsClosest | crates/trust-kernel/src/recovery.rs:173-182 | in the index of any history, a checkpoint request finds the signed match of greatest sequence number not after the target, then the newest, then the one registered first; nothing only if there is none |
| Recovery.DefaultRecovery | crates/trust-kernel/src/recovery.rs:242-321 | with no preferred strategy recovery restores the newest intact match of the whole history and otherwise boots clean; it never fails and the two middle steps never decide |
| Recovery.PreferredRecovery | crates/trust-kernel/src/recovery.rs:242-321 | a named strategy restores if and only if the snapshot it looks for in the history exists and is intact, and restores that one; otherwise it fails, and only a clean boot needs none |
| Recovery.DamagedCheckpointHidesAGoodOne | crates/trust-kernel/src/recovery.rs:173-182 | a signed but damaged snapshot makes a checkpoint request fail though an intact one qualifies |
| Recovery.RegistrationOrderDecides | crates/trust-kernel/src/recovery.rs:173-182 | of two snapshots alike but for their hash, the one registered first decides whether a checkpoint request restores |
| Recovery.RestoredIsGenuine | crates/trust-kernel/src/recovery.rs:242-321 | whatever the strategy, what is restored was registered with a valid signature, a valid hash and an intent that the requested one starts with |
| Recovery.DefaultRestoresIff | crates/trust-kernel/src/recovery.rs:242-321 | with no preferred strategy the newest such snapshot is restored, the first registered among equals, if and only if there is one |
| Recovery.CheckpointRestoresIff | crates/trust-kernel/src/recovery.rs:173-182 | a checkpoint request restores if and only if the signed snapshot of the intent that is foremost at or before the target has a valid hash |
| Recovery.DamagedIsPassedOver | crates/trust-kernel/src/recovery.rs:164-171 | a snapshot with an invalid signature or hash changes nothing about the default recovery |
| Recovery.DamagedNewestFailsGit | crates/trust-kernel/src/recovery.rs:187-193 | but as the newest match it makes a named git recovery fail |
| Recovery.UnsignedIsPassedOver | crates/trust-kernel/src/recovery.rs:173-182 | checkpoint requests take no notice of unsigned snapshots, those of other intents and those after the target |
| Recovery.RunAccounts | crates/trust-kernel/src/recovery.rs:214-321 | over every run attempted = succeeded + failed, only named strategies fail, and the index is the stable newest-first sort of all registrations |
| Recovery.RecoveryEngine.RegisterSnapshot | crates/trust-kernel/src/recovery.rs:138-142 | push and sort reach the specified index |
| Recovery.RecoveryEngine.RecoverIntent | crates/trust-kernel/src/recovery.rs:242-321 | the strategy loop reaches the specified result and counts it once |
| Sni.ExtractTlsSni | crates/trust-kernel/src/portmux.rs:451-501 | the walker terminates, never reads out of range and equals its specification, on every byte sequence |
| Sni.FindsTheServerName | crates/trust-kernel/src/portmux.rs:451-501 | on every well-formed ClientHello (section 4.1.2 of RFC 8446), whatever follows it, the result is its first server name (section 3 of RFC 6066) if that is valid text, and nothing if there is none |
| Sni.FirstNameIsEarliest | crates/trust-kernel/src/portmux.rs:482-498 | the first server name is that of the earliest list that has one, whatever extensions come before and after |
| Sni.WalkReturnsASlice | crates/trust-kernel/src/portmux.rs:482-498 | on any bytes, a name returned is valid text that stands in the data behind its own length |
| Tza.BuildTzaBlob | crates/trust-kernel/src/snapshot.rs:383-425 | the appends and resizes build the laid-out blob, its header 157 bytes for every seal and hash length |
| Tza.FieldsOf | crates/trust-kernel/src/snapshot.rs:383-425 | where each field of a built blob stands, and that the data follows the header |
| Tza.BuiltBlobParses | crates/trust-kernel/src/snapshot.rs:429-467 | parsing a built blob returns the version, type, timestamp and sizes written, and the bytes from the data offset are the data |
| Tza.RefusedIff | crates/trust-kernel/src/snapshot.rs:429-443 | what is refused and why: a header cut short, other first bytes than TBZ, any version but one |
| Tza.ParsingLosesNothing | crates/trust-kernel/src/snapshot.rs:429-467 | the first 61 bytes of anything that parses can be rebuilt from the parsed header |
| Tza.AlterationShowsIff | crates/trust-kernel/src/snapshot.rs:429-467 | received bytes parse as a built blob does if and only if they are a header long and agree with it on the first 61 bytes; alterations behind those never show |
| Bus.RunAccounts | crates/trust-kernel/src/bus.rs:86-157 | over every run the counters follow the accepted numbers, and the gap counter is zero if and only if those are 0, 1, 2, … in turn |
| Bus.OpenUnlessShutDown | crates/trust-kernel/src/bus.rs:146-157 | the bus is closed exactly from a shutdown to the next reopening, and every shutdown is counted |
| Bus.AcceptedIff | crates/trust-kernel/src/bus.rs:110-121 | a payload is accepted exactly when the last switch was not a shutdown and it fits; otherwise nothing changes |
| Bus.NothingLostUnreported | crates/trust-kernel/src/bus.rs:110-145 | for increasing numbers, passed plus reported missing is the next number expected |
| Bus.StampedInOrderIsDelivered | crates/trust-kernel/src/bus.rs:86-145 | payloads received once each in the order they were stamped, on an open bus and within its size, are all accepted with no gap and nothing missing |
| Bus.VirtualBus.ReceivePayload | crates/trust-kernel/src/bus.rs:110-145 | the in-place receive reaches the specified state and result |
| Bus.VirtualBus.StampPayload | crates/trust-kernel/src/bus.rs:86-107 | payloads are numbered consecutively in 64 bits |

## Left out

- Hardware and foreign calls: mmap, userfaultfd, the production thread, inline assembly, CPUID and cache allocation; only page indexing and filling are modelled.
- The bodies of AES-GCM, SHA-256, X25519, HKDF, zstd, JSON and UTF-8 validation: inputs with stated laws.
- Timings, latencies, throughput and the wall-clock age of a session: whether a session has expired is an input; 75%, 60% and 1% are integer ratios.
- The bytes of locally evicted blocks: the code simulates them, so only block states are claimed there. For remote blocks the code's fixed test bytes are generalised to an arbitrary function of block and write count.
- The signatures and seals stored beside blocks, last-access times and snapshot path strings: carried along but never read by the modelled code.
- The RAID calls inside the aperture: `materialize_block` ignores what the RAID controller evicts, so nothing is claimed about the two tables agreeing.
- The fill mode that writes a restore marker into a page: a debugging aid.
- The mixing inside `quick_hash`: an arbitrary function, with the condition under which the migration is safe.
- Counters are unbounded integers, except channel ids, frame lengths, jump offsets, bus numbers and the access-count sentinel, whose widths matter. An arena is rounded up by division, which equals the source's mask for page sizes that are powers of two.
- RaidProofs.RunKeepsCapacity: asks that a run touch blocks fewer than 2^64 − 1 times in all, because a block whose access count has reached the sentinel is never chosen as a victim; the same holds for RaidProofs.FaultsSucceedAfterEveryRun.
- Several clients on one server, reconnecting and heartbeats: one connection with one client is modelled, under any scheduling of its two ends.
- Display and lookup code: filter summaries, health reports, statistics, configuration, token strings, the git store.
- The QUIC and overlay transports, the port multiplexer's intent inference, the Android port, the demo and the benchmarks: plumbing, or second copies of the cores above.
- The archive, pre-screening and behaviour-check components: mostly single checks over the bus and the sealing core.
