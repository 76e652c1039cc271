# Verified model of the time-series cardinality tracker

This Dafny project models the tracker's core as a replicated and sharded state
machine whose state is a join-semilattice, and proves what its comments and
documents promise: replay is harmless, order does not matter, persisted entries
survive, a snapshot plus a log suffix is the whole log, the hash ring moves as
few keys as possible, and the sharded cluster answers as one engine would,
with acknowledged writes visible through every node even after crashes.

`dafny verify dfyconfig.toml` checks everything.

The layers, bottom up:

- **Sketch** (`Bits`, `Lattice`, `Hll`, `SketchHistory`, `Logarithm`, `Estimate`):
  the 64-bit arithmetic that picks a register and a rank, registers under
  pointwise maximum, the sketch object, and the estimate over exact reals.
- **Engine** (`WireFormat`, `Storage`, `Engines`): the map from group to live
  sketch, updated in place, with its store. The engine's ghost field `state` is
  its abstract value, a map from group to registers.
- **Commands** (`Varint`, `Commands`, `HandlerRegistry`): varint payloads and the
  three handlers. The central law is `DispatchIsJoin`: every command, malformed
  ones included, joins a value that does not depend on the state.
- **Raft node** (`Replica`, `Nodes`): the apply loop, failed saves, snapshots,
  crash and restart as a state machine, with theorems over all its runs; the
  loop itself is proved against that machine.
- **Standalone node** (`Standalone`): lock-atomic adds of many clients, followed
  as sets of ids.
- **Ring and cluster** (`HashRing`, `Router`, `Cluster`, `Servers`): the ring under
  every history of joins and leaves, collisions included; request routing; and
  the refinement of one engine by the cluster.
- **Metrics cap** (`Collector`).

Hash functions are parameters everywhere, so each statement holds for every
hash. Time, the network, disk failures and Raft's choice of committed entries
are arbitrary inputs of the state machines.

Where the code and its text disagree the model follows the code:

- `internal/raft/handler/add.go:25` says an id takes 1 to 9 bytes; ids from 2^63
  on take ten (`EncodedLength`).
- `internal/cardinality/engine.go:129-131` and `cmd/server/main.go:74-75` say every
  applied entry was persisted. The turn of a truncated BATCH_ADD leaves ids in
  the engine and not in the store (`TruncatedBatchIsLiveButNotDurable`), and a
  failed save does the same. Such an entry is not lost for good: a save writes
  the whole live group, so a later save of the same group before the crash
  persists it too. `RunStoreIsLastSave` gives the stored group exactly and
  `SurvivesRestartIff` says exactly when an applied command survives a restart;
  `DurableIff` is about the entry's own turn.
- `docs/theory.md:28` describes HLL++ bias tables; the code has none.
- The estimate can fall when a sketch grows (`EstimateCanDrop`). `DropIff` says
  for which sketches: those in the small range with at most 1344 empty
  registers, or whose linear count exceeds the raw estimate once every empty
  register is raised to 1.
- The conversion of the estimate to uint64 overflows for sketches whose
  registers are nearly all at the top rank; `ConversionFitsIff` gives the exact
  threshold for any register bytes, also those above 51 that only a parsed
  sketch can hold, and `InRangeFitsIff` the one for ranks up to 51.
- An address added twice and removed once leaves ownerless points on the ring
  (`AddTwiceRemoveOnceOrphansAll`, `RemoveOrphansIff`, `HistoryOwnedIff`), and a
  group without an owner is served by whichever node it reaches
  (`FaithfulIffOwned`).

## Model

| member | source | states |
|---|---|---|
| `Bits.Bucket` | internal/cardinality/hll/hll.go:87 | the register index is below 16384 for every 64-bit hash |
| `Bits.Padded` | internal/cardinality/hll/hll.go:88 | the padded word is never zero |
| `Bits.Rho` | internal/cardinality/hll/hll.go:88-89 | the rank lies in 1..51 |
| `Bits.RhoIsRank` | internal/cardinality/hll/hll.go:86-89 | on real 64-bit vectors, the rank computed by binary-search bit length of the padded word is one plus the leading zeros of the low 50 hash bits, counted bit by bit |
| `Bits.BucketIsTopBits` | internal/cardinality/hll/hll.go:87 | a hash made of the 14-bit number k and any 50 low bits picks register k |
| `Bits.PlacementExact` | internal/cardinality/hll/hll.go:86-89 | register and rank of an id, together, from the two parts of its hash |
| `Lattice.JoinRegsLaws` | internal/cardinality/hll/hll.go:116-126 | merging is commutative, associative and idempotent, with the empty sketch as unit |
| `Hll.MergeIsUnion` | internal/cardinality/hll/hll.go:116-126 | merging sketches of two id sets gives the sketch of their union |
| `Hll.AddIsInsert` | internal/cardinality/hll/hll.go:83-93 | adding an id to the sketch of a set gives the sketch of the set with the id |
| `Hll.SketchUnique` | internal/cardinality/hll/hll.go:83-93 | "each register is the largest rank in its bucket, 0 if none" determines all registers |
| `Hll.AddExact` | internal/cardinality/hll/hll.go:86-92 | adding an id raises exactly the register named by the top 14 hash bits to its rank, if that is larger |
| `Hll.ParseUndoesBytes` | internal/cardinality/hll/hll.go:53-63 | Parse returns r exactly on buffers that start with Bytes(r), trailing bytes ignored |
| `Hll.Sketch.constructor` | internal/cardinality/hll/hll.go:49 | a new sketch is empty and owns a new register array |
| `Hll.Sketch.Add` | internal/cardinality/hll/hll.go:83-93 | hashing, the bit steps and the in-place update equal joining in the sketch of the single id |
| `Hll.Sketch.Merge` | internal/cardinality/hll/hll.go:116-126 | the in-place loop equals the pointwise maximum, also when merging a sketch into itself |
| `Hll.Sketch.Cardinality` | internal/cardinality/hll/hll.go:96-111 | the one-pass loop computes the rounded estimate of the registers |
| `Hll.Sketch.ToBytes` | internal/cardinality/hll/hll.go:129-134 | the serialised form: precision, then registers |
| `Hll.Sketch.Clone` | internal/cardinality/hll/hll.go:137-141 | equal registers in an array of its own |
| `Hll.ParseSketch` | internal/cardinality/hll/hll.go:53-63 | fails exactly when Parse does, otherwise a fresh sketch of the parsed registers |
| `SketchHistory.HistoryIsSketch` | internal/cardinality/hll/hll.go:53-141 | after any tree of New, Add, Merge and Parse-of-Bytes the registers are the sketch of the ids added, and stay within 0..51 |
| `SketchHistory.SameIdsSameSketch` | internal/cardinality/hll/hll.go:78-93 | any two such histories with the same id set have equal registers |
| `Estimate.Rounded` | internal/cardinality/hll/hll.go:110 | the reported number is within one half of the estimate |
| `Estimate.ZerosCounts` | internal/cardinality/hll/hll.go:101-103 | the zero count is the number of empty registers |
| `Estimate.EstimateAdds` | internal/cardinality/hll/hll.go:107-109 | in the small range, empty fractions that multiply have estimates that add up |
| `Estimate.EstimateGap` | internal/cardinality/hll/hll.go:107-109 | two small-range estimates differ by at least M(1 - z/w) and at most M(w/z - 1), z and w their empty registers |
| `Estimate.EstimateBounds` | internal/cardinality/hll/hll.go:107-109 | a small-range estimate is at least the number of occupied registers M - z and at most M(M/z - 1) |
| `Estimate.SmallRangeIff` | internal/cardinality/hll/hll.go:105-107 | linear counting is used exactly when a register is empty and the sum of 2^(255-register) reaches a whole-number threshold |
| `Estimate.EstimateOutside` | internal/cardinality/hll/hll.go:105-110 | otherwise the estimate times that sum is constant |
| `Estimate.RawMonotone` | internal/cardinality/hll/hll.go:97-105 | the raw estimate is positive and never falls as registers grow; the zero count never rises |
| `Estimate.EstimateMonotoneWithinRange` | internal/cardinality/hll/hll.go:105-110 | a sketch that left the small range never returns; within one range the estimate never falls |
| `Estimate.DropHappens` | internal/cardinality/hll/hll.go:105-110 | a sketch in the small range with at most 1344 empty registers, or with a linear count above the raw estimate of its topped-up form, has a growth within ranks 0..51 that lowers the estimate |
| `Estimate.DropIff` | internal/cardinality/hll/hll.go:105-110 | some growth lowers the estimate exactly under that condition, which is read off the sketch alone |
| `Estimate.EstimateCanDrop` | internal/cardinality/hll/hll.go:106-109 | a concrete growth step on which the estimate falls from above 114000 to below 24000 |
| `Estimate.EmptyEstimatesZero` | internal/cardinality/hll/hll.go:96-111 | the empty sketch estimates 0 |
| `Estimate.RawFitsIff` | internal/cardinality/hll/hll.go:97-105 | for all register bytes the raw estimate is below 2^64 exactly when the sum of 2^(255-register) reaches one whole-number threshold, and below 2^64 - 1/2 exactly when it reaches another |
| `Estimate.ConversionFitsIff` | internal/cardinality/hll/hll.go:105-110 | for all register bytes the rounded estimate, small range included, is below 2^64 exactly from the second threshold on |
| `Estimate.InRangeFitsIff` | internal/cardinality/hll/hll.go:83-110 | for the ranks up to 51 that Add produces, both hold exactly when the sum of 2^(51-rank) is at least 23635 |
| `Estimate.RawFitsUpTo50` | internal/cardinality/hll/hll.go:105-110 | with all registers at most 50 the raw estimate is below 2^64 |
| `Estimate.RawOverflowsAt51` | internal/cardinality/hll/hll.go:105-110 | with all registers at 51 it exceeds 2^64 |
| `Varint.UvarintExact` | internal/raft/handler/add.go:32-33 | decoding succeeds with (x, n) exactly when the first n bytes, at most ten, are one terminated base-128 run denoting x below 2^64 |
| `Varint.UvarintUndoesPut` | internal/raft/node.go:186-190 | reading back an encoded id gives the id, whatever bytes follow |
| `Varint.PutIsShortest` | internal/raft/node.go:186-190 | no run of bytes that denotes the id is shorter than its encoding |
| `Varint.EncodedLength` | internal/raft/handler/add.go:24-26 | an id takes at most ten bytes, and at most nine exactly when it is below 2^63 |
| `Commands.DecodeIds` | internal/raft/handler/batch.go:42-51 | never more ids than announced or than bytes remain; complete exactly when all announced ids were read |
| `Commands.DispatchIsJoin` | internal/raft/handler/handler.go:84-98 | for every command and state the result is the join of the state with the command's effect on an empty engine, and the verdict does not depend on the state |
| `Commands.DispatchWithIsJoin` | internal/raft/handler/handler.go:84-98 | the same law for every registry over these handlers |
| `Commands.DispatchIsIdempotent` | internal/cardinality/engine.go:131-132 | dispatching any command a second time changes nothing |
| `Commands.EffectIsLocal` | internal/raft/handler/handler.go:84-98 | a command touches no group but its own |
| `Commands.AddAcceptsOneVarint` | internal/raft/handler/add.go:31-37 | ADD accepts exactly payloads that are one varint and nothing else, adds the denoted id, and otherwise changes nothing |
| `Commands.AddCommandAdds` | internal/raft/node.go:185-190 | dispatching the command ProposeAdd builds adds exactly that id to that group |
| `Commands.BatchIsAdds` | internal/raft/handler/batch.go:35-53 | BATCH_ADD of an encoded list, trailing bytes allowed, equals that sequence of ADDs |
| `Commands.DecodesMaximalPrefix` | internal/raft/handler/batch.go:42-51 | on any payload the decoded ids are leading varints, and if fewer than announced the next one does not decode |
| `Commands.MaximalPrefixUnique` | internal/raft/handler/batch.go:42-51 | any run of leading varints that is full or ends at a bad one is the decoded run |
| `Commands.RejectionKeepsPrefix` | internal/raft/handler/batch.go:42-51 | a rejected command changes nothing, except a BATCH_ADD with a readable count, which adds its decodable prefix |
| `Commands.EnvelopeOpens` | internal/raft/handler/merge.go:38-51 | an envelope hands exactly its algorithm name and sketch bytes to MergeBytes |
| `Commands.MergeSketchMerges` | internal/raft/handler/merge.go:38-51 | merging any sketch's bytes takes the pointwise maximum or copies into an absent group; a wrong algorithm name changes nothing |
| `Commands.DispatchAccepts` | internal/raft/handler/handler.go:84-98 | for every command and state: accepted exactly if the type is ADD with one varint, BATCH_ADD whose count and ids all decode, or MERGE_SKETCH whose envelope holds "hll" and a whole sketch; otherwise the right error, and no change unless a truncated batch |
| `Commands.BatchAccepted` | internal/raft/handler/batch.go:35-53 | a payload that lists all announced ids adds exactly these and succeeds |
| `Commands.BatchTruncated` | internal/raft/handler/batch.go:42-46 | a payload that lists fewer adds exactly the listed ones and fails |
| `Commands.MergeBytesExact` | internal/cardinality/engine.go:171-180 | a wrong name, a buffer shorter than 16386 bytes or another precision changes nothing and fails; anything else joins its registers in |
| `Commands.EnvelopeExact` | internal/raft/handler/merge.go:38-51 | the same for the name and bytes of any well-formed envelope |
| `Commands.RegistryExact` | internal/raft/handler/handler.go:84-98 | any registry acts by its handler for the type, and rejects a type without one unchanged |
| `WireFormat.UnmarshalUndoesMarshal` | internal/cardinality/engine.go:182-220 | Unmarshal of Marshal gives back the exact groups and registers |
| `Storage.SetKey` | internal/store/badger.go:54-64 | writing a group's key changes that group only, whatever other keys exist |
| `Storage.Store.Save` | internal/store/badger.go:51-70 | a save either stores the bytes under "sketch/" and the group, and no other key, or changes nothing |
| `Engines.Engine.constructor` | internal/cardinality/engine.go:45-47 | a new engine has no groups |
| `Engines.Engine.Add` | internal/cardinality/engine.go:50-61 | adds the id to its group, creating it; all other groups unchanged; no two groups share registers |
| `Engines.Engine.AddAndPersist` | internal/cardinality/engine.go:99-110 | the id is in the engine either way; on success the store holds exactly the live sketch, on failure its old contents |
| `Engines.Engine.Persist` | internal/cardinality/engine.go:116-125 | fails with unknown group exactly when the group is absent; otherwise saves the live sketch or nothing |
| `Engines.Engine.Restore` | internal/cardinality/engine.go:133-142 | replaces the group by the parsed sketch, or changes nothing if it does not parse |
| `Engines.Engine.Merge` | internal/cardinality/engine.go:148-165 | joins the remote registers into the group, or copies them; the remote's array never becomes part of the engine |
| `Engines.Engine.MergeBytes` | internal/cardinality/engine.go:171-180 | a name other than "hll" and bytes that are no whole sketch fail and change nothing; otherwise the parsed sketch is merged |
| `Engines.Engine.MarshalAll` | internal/cardinality/engine.go:185-198 | the loop produces the bytes of every group |
| `Engines.Engine.Unmarshal` | internal/cardinality/engine.go:203-220 | all or nothing: succeeds exactly when every group parses, otherwise the engine is as before |
| `Engines.Engine.Cardinality` | internal/cardinality/engine.go:65-74 | the group's rounded estimate, or unknown group |
| `Engines.Engine.CardinalityAll` | internal/cardinality/engine.go:79-88 | every group with its rounded estimate |
| `Engines.LoadAll` | cmd/server/main.go:72-85 | startup succeeds exactly when every stored sketch parses, and then rebuilds exactly the stored state |
| `HandlerRegistry.Registry.Default` | internal/raft/handler/handler.go:67-73 | the three built-in types are registered to their handlers |
| `HandlerRegistry.Registry.Register` | internal/raft/handler/handler.go:77-81 | one type is set, the others are kept |
| `HandlerRegistry.Registry.Dispatch` | internal/raft/handler/handler.go:84-98 | engine and outcome after dispatch are those of the command function; an unregistered type fails and changes nothing |
| `HandlerRegistry.ApplyAdd` | internal/raft/handler/add.go:31-37 | the live handler refines the ADD function |
| `HandlerRegistry.AddDecoded` | internal/raft/handler/batch.go:42-52 | the decode-and-add loop, ending with the bytes even for counts near 2^64, adds exactly the decodable prefix |
| `HandlerRegistry.ApplyBatchAdd` | internal/raft/handler/batch.go:35-53 | the live handler refines the BATCH_ADD function |
| `HandlerRegistry.ApplyMergeSketch` | internal/raft/handler/merge.go:38-51 | the live handler refines the MERGE_SKETCH function |
| `Replica.ReplayUpper` | internal/raft/node.go:123-133 | the engine after a log covers the effect of every entry |
| `Replica.ReplayLeast` | internal/raft/node.go:123-133 | and holds nothing beyond those effects and the initial state |
| `Replica.ReplayOrderIrrelevant` | internal/raft/node.go:107-133 | logs with the same set of commands, in any order and number, malformed ones included, reach the same engine |
| `Replica.ReplicasConverge` | internal/raft/node.go:123-147 | in any two runs, equal starts and equal sets of processed commands give equal engines |
| `Replica.ProcessKeepsStore` | internal/raft/node.go:123-147 | a turn of the apply loop keeps the store parseable and below the engine, and never shrinks it |
| `Replica.OtherEntriesSkipped` | internal/raft/node.go:125-132 | entries that are no normal, readable command leave the node as it was |
| `Replica.DurableIff` | internal/raft/node.go:133-141 | an entry not yet covered by the store becomes covered in its own turn exactly when dispatch and save both succeed |
| `Replica.TurnStore` | internal/raft/node.go:133-141 | a turn stores its group exactly as it is live if dispatch and save succeed, and leaves every stored group as it was otherwise |
| `Replica.StoreIsLastSave` | internal/raft/node.go:123-147 | after any batch a stored group is the live group right after the last turn that saved it, or the old one if none did |
| `Replica.RunStoreIsLastSave` | internal/raft/node.go:123-147 | the same over every run from an empty node, snapshots and crashes included: nothing is stored before the first save of the group |
| `Replica.SurvivesRestartIff` | cmd/server/main.go:74-86 | an applied command, accepted or not, is in the engine after a crash of its incarnation exactly when the store covered it before or a turn from its own on saved its group |
| `Replica.ApplyEntriesIsTurns` | internal/raft/node.go:123-147 | one call of the apply loop on a batch is that many single steps of the machine |
| `Replica.StepKeepsInv` | internal/raft/node.go:100-182 | commit, apply, snapshot, and crash with restart keep the invariant: engine is the replay of the processed log, applied index and snapshot count are those of the accepted entries, store below engine, saved entries stored |
| `Replica.EngineBelowCommitted` | internal/raft/node.go:123-147 | engine and store never exceed the join of everything ever committed |
| `Replica.RunIsHistory` | internal/raft/node.go:100-147 | in every run the log, the committed entries and the number of turns are those of the steps taken |
| `Replica.EngineIsHistory` | internal/raft/node.go:123-147 | the live engine is what the last restart found plus the commands applied since, told by the steps alone |
| `Replica.SavedExactly` | internal/raft/node.go:133-141 | an entry counts as saved exactly if a turn on it dispatched and saved it |
| `Replica.StepsPossible` | internal/raft/node.go:100-182 | at every moment a later entry can be committed, a waiting one applied, a snapshot tried, and a restart succeed |
| `Replica.SnapshotExact` | internal/raft/node.go:149-182 | a snapshot is cut exactly when storage takes it and 10000 entries were accepted since the last; it is the replayed engine at the last accepted index |
| `Replica.RunNeverShrinks` | internal/raft/node.go:137-141 | over any run no stored register ever decreases and no group is lost |
| `Replica.PersistedEntriesSurvive` | cmd/server/main.go:74-86 | over any run: a restart at any later moment succeeds, covers every entry persisted before, and invents nothing that was not committed |
| `Replica.ReplayAfterRestart` | internal/cardinality/engine.go:127-132 | committing the same commands again on top of what survived, in any order, rebuilds the full state |
| `Replica.SnapshotPlusSuffix` | internal/raft/node.go:149-182 | the snapshot labelled idx plus any log suffix that omits no index above idx gives the engine of the whole log, though idx lags behind skipped entries |
| `Replica.TruncatedBatchIsLiveButNotDurable` | internal/raft/node.go:133-136 | a truncated BATCH_ADD is counted live, not stored, and not counted as applied |
| `Replica.EmptyBatchIsCounted` | internal/raft/node.go:137-145 | an empty BATCH_ADD to an unknown group advances the applied index and changes nothing else |
| `Nodes.Node.constructor` | internal/raft/node.go:67-93 | a new node uses the default registry and starts at index 0 |
| `Nodes.Node.ApplyEntry` | internal/raft/node.go:125-145 | one loop turn on the live engine and store is one step of the machine |
| `Nodes.Node.PersistAndCount` | internal/raft/node.go:137-145 | the entry counts as applied whether the group's live sketch was saved, refused, or the group is unknown |
| `Nodes.Node.ApplyEntries` | internal/raft/node.go:123-147 | the loop over committed entries is the fold of those steps |
| `Nodes.Node.MaybeSnapshot` | internal/raft/node.go:149-182 | below 10000 applied entries, or when storage refuses, nothing changes; otherwise the snapshot is the whole engine at the applied index and the count restarts |
| `Standalone.AcknowledgedIdsAreDurable` | internal/cardinality/engine.go:90-110 | in every interleaving of adds, failed saves and crashes the stored sketch of a group is that of ids sent for it, all acknowledged ones included, and the store is below the engine |
| `Standalone.SuccessfulAddSynchronises` | internal/cardinality/engine.go:99-110 | after a successful add, store and engine agree on the group, earlier failed saves notwithstanding |
| `Standalone.EngineAndStoreExact` | internal/cardinality/engine.go:90-110 | the live registers are the sketch of the ids added since the last crash or saved in time, the stored ones that of the ids saved in time, by the steps alone |
| `Standalone.SentAndAckedExact` | internal/cardinality/engine.go:90-110 | the sent ids are those of all adds, the acknowledged ones those of the saved adds |
| `HashRing.LabelInjective` | internal/router/router.go:41 | distinct virtual nodes hash distinct strings |
| `HashRing.LabelExact` | internal/router/router.go:41 | the label is the address, a hash sign and the decimal digits of the index |
| `HashRing.DistinctIffNoCollision` | internal/router/router.go:40-44 | virtual points are distinct exactly when the 32-bit hash has no collision on the labels |
| `HashRing.ResolveIsNearest` | internal/router/router.go:64-76 | a key belongs to the owner of the point at the least clockwise distance from its hash |
| `HashRing.AddNodeFacts` | internal/router/router.go:37-46 | adds exactly the address's points, takes over their ownership, and keeps the ring sorted |
| `HashRing.AddNodeSize` | internal/router/router.go:40-44 | the ring grows by 150 points, coinciding ones counted |
| `HashRing.RemoveNodeFacts` | internal/router/router.go:49-61 | keeps every point not owned by the address and deletes exactly its map entries |
| `HashRing.SweptCounts` | internal/router/router.go:52-60 | exactly one copy of each point owned by the address disappears, every other point keeps all copies |
| `HashRing.HistoryKeepsWellFormed` | internal/router/router.go:37-61 | after every history the ring is sorted and only ring points have owners |
| `HashRing.AddDisruptsMinimally` | internal/router/router.go:37-46 | adding a moves no key except to a, collisions included |
| `HashRing.RemoveDisruptsMinimally` | internal/router/router.go:49-61 | removing a moves only a's keys, and afterwards no key resolves to a, collisions included |
| `HashRing.RemoveOrphansIff` | internal/router/router.go:53-58 | for every ring and address, all points have owners after a removal exactly when the address is empty, or all had owners before and each point of the address occurred once |
| `HashRing.AddTwiceRemoveOnceOrphansAll` | internal/router/router.go:53-58 | for every hash, an address added twice and removed once leaves a non-empty ring on which no key has an owner |
| `HashRing.HistoryRepresents` | internal/router/router.go:37-61 | with distinct points a history in which no address leaves while added twice leaves exactly the points of the present addresses, each as often as its address was added, and all owned |
| `HashRing.LeaveOrphansIff` | internal/router/router.go:49-61 | after such a history a removal leaves ownerless points exactly when the address, not empty, was added more than once |
| `HashRing.HistoryOwnedIff` | internal/router/router.go:37-61 | with distinct points a history never passes through a ring with ownerless points exactly when no address, other than the empty one, leaves while added more than once |
| `HashRing.SameCopiesSameRing` | internal/router/router.go:37-61 | with distinct points the ring depends only on which addresses are present and how often each was added |
| `HashRing.SameMembersSameRoutes` | internal/router/router.go:64-76 | with distinct points every routing decision depends only on the set of present addresses |
| `HashRing.StartupSameRoutes` | cmd/server/main.go:91-96 | peer lists that name the same addresses, in any order and with any repetition, route every group alike |
| `HashRing.RemoveUndoesAddIff` | internal/router/router.go:37-61 | for every ring, address and hash, collisions included: removing an address right after adding it restores the ring exactly when no entry was the address's, none of its points had an owner, and no two of its virtual nodes coincide (for the empty address: no point was ownerless) |
| `HashRing.RemoveUndoesAdd` | internal/router/router.go:37-61 | with distinct points removing a newly added address restores the ring exactly |
| `HashRing.StartupResolvesToPeer` | cmd/server/main.go:91-96 | on the ring built from a peer list every key resolves to a peer, collisions included |
| `Router.Router.constructor` | internal/router/router.go:34 | a new ring is empty |
| `Router.Router.AddNode` | internal/router/router.go:37-46 | the append loop and sort refine the ring function and keep the ring well formed |
| `Router.Router.RemoveNode` | internal/router/router.go:49-61 | the sweep that edits the map while reading it refines the ring function |
| `Router.Router.Resolve` | internal/router/router.go:64-76 | bisection with wrap-around agrees with the linear scan |
| `Cluster.LocalIsOwner` | internal/server/grpc.go:101-103 | a server serves a group itself exactly when it is the owner, and otherwise forwards to the owner |
| `Cluster.ForwardIff` | internal/server/grpc.go:101-103 | a request is forwarded exactly to a different, non-empty owner, and only by a server with a ring and an address |
| `Cluster.InsertIsProcess` | internal/raft/node.go:123-147 | inserting an id at a server is one turn of the Raft apply loop on the proposed ADD |
| `Cluster.ApplyProposalIsProcess` | internal/raft/node.go:133-141 | applying a proposal is one turn of the apply loop on the proposed ADD: the id is in the engine, the proposal consumed |
| `Cluster.StepKeepsInv` | internal/server/grpc.go:100-221 | every routing, serving, proposal and crash step keeps the group at its owner only, acknowledged ids in the stored sketch, stored below live, live below the single engine |
| `Cluster.ShardedRefinesSingle` | internal/server/grpc.go:100-221 | in every interleaving, failed saves and crashes included, a request is forwarded at most once, only the owner holds the group, and every query through any server sees each id acknowledged before it and nothing unwritten; until the owner crashes with unsaved registers of the group, they are exactly those of one engine fed the same ids |
| `Cluster.CrashLosesIff` | internal/server/grpc.go:118-132 | a crash ends that equality exactly when it is the owner's and its live registers of the group differ from the stored ones |
| `Cluster.SingleHoldsWritten` | internal/server/grpc.go:100-133 | in every run the single engine holds for a group exactly the sketch of the ids inserted or applied, told by the steps; absent if none |
| `Cluster.OwnerHoldsWritten` | internal/server/grpc.go:100-133 | so does the owner, until a crash loses some of the group |
| `Cluster.AckedAreSaved` | internal/server/grpc.go:127-132 | exactly the ids saved before the reply count as acknowledged |
| `Cluster.RequestReachesOwner` | internal/server/grpc.go:100-115 | after any run a request entering at any server can reach the owner in at most one forward and be served there |
| `Cluster.WriteTakesEffect` | internal/server/grpc.go:100-133 | a write through any server, saved by the owner, is live, stored and acknowledged there |
| `Cluster.BatchTakesEffect` | internal/server/grpc.go:135-181 | so is a batch of any length, and the request is gone afterwards |
| `Cluster.ProposalTakesEffect` | internal/server/grpc.go:118-124 | a proposed write is in the owner's engine once applied, and stored if the save works |
| `Cluster.QueryIsAnswered` | internal/server/grpc.go:183-221 | a query through any server is answered with the owner's live registers |
| `Cluster.StartupOwnsEverything` | cmd/server/main.go:91-99 | servers started with one list of non-empty addresses own every group |
| `Cluster.OwnerlessGroupSplits` | internal/server/grpc.go:101-103 | for a group without an owner an acknowledged write through one server is invisible through another |
| `Cluster.FaithfulIffOwned` | internal/server/grpc.go:101-115 | with two or more servers, queries are right in all runs exactly when the ring gives the group an owner |
| `Servers.HandledIsServe` | internal/server/grpc.go:118-133 | what AddID does on the owner, in either mode and for either outcome, is the cluster's step for the first id of a write |
| `Servers.HandledIsStandalone` | internal/server/grpc.go:127-132 | without Raft it is the standalone node's add, failed saves included |
| `Servers.Server.Resolve` | internal/server/grpc.go:101-103 | local without ring or own address or for own and ownerless groups, forward otherwise |
| `Servers.Server.AddID` | internal/server/grpc.go:100-133 | forward with no effect, propose one ADD, or add and save, with the state each failure leaves |
| `Servers.Server.Add` | internal/server/grpc.go:72-90 | an empty group is rejected; otherwise as a batch of one id, store included |
| `Servers.Server.AddEach` | internal/server/grpc.go:174-180 | the loop stops at the first error and says which prefix took effect and which prefix the store holds |
| `Servers.Server.BatchAdd` | internal/server/grpc.go:135-181 | forwarded whole or worked off: on success every id took effect and the store holds the live group; a failed save leaves the ids up to its own live and those before it stored |
| `Servers.Server.Query` | internal/server/grpc.go:183-221 | the owner's rounded estimate, 0 for an unknown group |
| `Collector.LessIsTotal` | internal/server/collector.go:110 | the name order is asymmetric and total |
| `Collector.LessExact` | internal/server/collector.go:110 | one name precedes another exactly if it has the smaller character where they first differ, or is a proper prefix |
| `Collector.Rank` | internal/server/collector.go:106-111 | sorting puts every group strictly before all that follow, same groups |
| `Collector.GroupsOf` | internal/server/collector.go:99-102 | each group once, in any order |
| `Collector.Collect` | internal/server/collector.go:96-123 | groups are dropped exactly beyond a positive cap, and every exported group has a larger estimate than every dropped one, or the same and a smaller name |
| `Collector.TopIsUnique` | internal/server/collector.go:104-114 | only one set of groups qualifies, so map iteration order does not matter |

## Left out

- Etcd Raft itself: elections, ticks, and the storage calls; committed entries arrive in any order chosen by Raft, and storage may refuse a snapshot.
- Read-your-writes in Raft mode: ProposeAdd returns on acceptance, and the code does not promise it.
- BadgerDB internals and loss of unsynced writes on power failure; the store survives a process crash.
- gob and protobuf framing: taken as lossless; an entry's bytes are blank, garbled, or a command.
- murmur3 and all statistical claims about error and load balance; hash functions are arbitrary.
- Estimate.Rounded: exact reals instead of floating point; when the value is below 2^64 is proved, what Go converts larger ones to is not modelled; the logarithm is any function with the product law and the tangent bounds of ln.
- Hll.Sketch.Cardinality: the number before conversion to uint64, over exact reals as in Estimate.Rounded.
- Engines.Engine.Cardinality: as Hll.Sketch.Cardinality.
- Engines.Engine.CardinalityAll: as Hll.Sketch.Cardinality.
- Engines.Engine.Merge: the name check on a sketch object is left out, since every sketch here is an HLL sketch; MergeBytes has it.
- Engines.LoadAll: restores groups in arbitrary order, while the store iterates in key order; both outcome and state are independent of it.
- Storage.Store.Save: which saves fail is arbitrary.
- Hll.Sketch.Add: the reusable id buffer of the sketch is left out; the hash is an arbitrary function of the id.
- HandlerRegistry.Registry.Dispatch: nil commands and nil engines cannot be expressed.
- Servers.Server.AddID: dialing, the connection pool, contexts and metrics are left out; forwarding is reported to the caller and followed in module Cluster.
- Cluster.ShardedRefinesSingle: the cluster is modelled on values, one state per server, with update in place covered by the engine and server classes; a crashed server's proposals may be lost or applied later, and only saved standalone writes count as acknowledged.
- Servers.Server.Add: as AddID.
- Servers.Server.BatchAdd: as AddID; a batch is forwarded whole and the owner's reply is followed in module Cluster.
- Servers.Server.Query: as AddID.
- Locks: every engine, ring and server operation is one atomic step.
- The bitmap backend: an exact set of ids behind the same interface, not part of the HLL path modelled here.
- Health handlers, the Raft status collector, flags and deployment: they only report or configure, and change no state of the model.
