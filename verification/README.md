# Verified models of the GLM quantization and serving tools

This Dafny project models the parts of the repository whose correctness depends on interleavings, crashes or exact
arithmetic, and proves what they promise for every input and every run.

- **Rolling layer boundary** (`BoundaryDisk`, `BoundaryManifest`, `BoundaryStaging`, `BoundaryStore`,
  `ReplayMetadata`, `ProjectionNames`, `ProjectionIndex`, `ProjectionDiscovery`, `BoundaryRestore`,
  `BoundaryController`, `BoundaryRun`). The store stages a boundary in a temporary directory, syncs it, renames it,
  syncs the root and only then discards the older boundary. A process may be killed between any two file operations,
  and a power loss may drop any of the root changes, files and directory entries that were not synced, the entry of the
  root itself included. Hard-linked replay shards count as durable when they are linked.
  What a layer makes of its inputs is an arbitrary function of them; whatever interrupts a run, its newest boundary is
  that of one uninterrupted run, tensor by tensor.
- **Execution upgrades** (`UpgradeRecords`, `ExecutionUpgrade`, `UpgradeRun`). A hash-linked history hangs from one
  active record; chaining archives the active record and swaps in its successor. A power loss may undo each of these
  steps by itself as far as it was not synced.
- **Final export** (`ExportArtifact`, `ExportPublication`). The run marker is the last file written to the stage; the
  stage is then synced and renamed to the output, and a resumed run recovers or discards what it finds. Histories mix
  sessions, kills and power losses.
- **RDMA completion wait** (`CompletionQueue`, `CompletionWait`). The device is an adversary that may add completions
  between any two steps.
- **Row all-to-all** (`RowAllToAll`), **token masks** (`WordBits`, `TokenMask`, `MaskStride`), **safetensors layout**
  (`SafetensorsLayout`), **spread sampling** (`SampleRanges`).
- **Speculation policy replay** (`DraftSelection`, `LogitBias`, `BiasFit`, `ScalarPolicy`, `ContiguousRuns`,
  `PolicyReplay`). The sigmoid is the source's own two-branch formula over an exponential and a logarithm known only by
  their laws; the replay runs any policy with the five operations of the base class.

`Sorting`, `SetUnions`, `Arithmetic`, `Budgets` and `Options` hold what the others share.

Digests are injective datatype constructors over the body they hash, so no collision is assumed away by an axiom and
hash pointers are acyclic. Directory names carry only the leading digits of a manifest digest; they are an arbitrary
function of it and need not differ. A budget of file operations (`Budgets`) decides when a process is killed: contracts
that speak of a killed call hold after every prefix of its operations, and a call is killed only when its budget is used
up, so that a process without a limit always reaches one of its other endings.

A store carries a ghost expectation of what its directories are to hold, which is a parameter of the proof and not a
demand on callers: one that accepts everything is met by every request, and a run instantiates it with what the
uninterrupted run would have stored.

Classes model the source's objects: `Store` and `Controller` the layer-boundary store and its controller, `RunState`
the run state of the upgrades, `Publication` the export, `Direction` one completion queue of an endpoint with its
counters, `ScalarLogitPolicy` the policy. `Run` is the driver that calls the controller as the quantizer does.

## Findings

- No layer that the first session commits is safe from a power loss. A commit creates the boundary root and syncs what
  is in it, but never the root's own entry in the run state, and every sync of the run state in that session comes
  before. A loss may take the root with every layer in it. The newest synced layer outlives every power loss if and only
  if the root's entry was synced, which the first write of the next session into the run state does, provided that the
  run state's own entry is durable (`BoundaryDisk.SyncedLayerSurvivesIff`, `BoundaryRun.Run.Session`).
- The same gap one level down: the first chaining of an execution upgrade creates the history directory and swaps in a
  record that needs it before anything syncs the directory's entry. A power loss may keep the record and drop the
  history, which the reader rejects and the repair does not mend: every first chaining can be killed at that point
  (`UpgradeRun.FirstChainingCanBeLost`, `UpgradeRun.RunState.ChainUpgrade`). Chaining on an accepted disk with nothing
  pending survives every kill and power loss if and only if the history directory is already there
  (`UpgradeRun.ChainingSafeIff`).
- A launch that is killed between a swap and its sync, followed by a launch with another request, archives a record that
  a power loss may still take back; the record before it then stands beside a history that is not its own. With the
  history directory durable, a launch is safe wherever it is killed if and only if it finds its active record durable or
  already holding what it asks for (`UpgradeRun.RunState.Launching`, `UpgradeRun.PendingSwapCanBeLost`).
- The blocking wait can sleep on a queue that already holds what it needs, exactly when two or more completions were
  still needed at the time it was armed: each arming is followed by one poll that takes at most one completion
  (`CompletionQueue.LostWakeupExactly`, `CompletionQueue.NoLostWakeupIff`).
- The export's run marker is synced before the tree it binds. A power loss in between can leave a marked stage that no
  longer validates: when the marker is written, every payload file that normalization did not rewrite atomically is still
  unsynced. The resumed run refuses such a stage and never publishes it, but it does not discard it either
  (`ExportArtifact.MarkerSafeIff`, `ExportPublication.Publication.Mark`, `ExportPublication.MarkedStageCanBeDamaged`,
  `ExportPublication.Publication.Recover`).
- The projection-module pattern accepts numbers with leading zeros, which the printer never writes. One checkpoint with
  such a name makes its whole layer incomplete, even with every expected module committed beside it. On otherwise good
  evidence the restore's cross-checks pass if and only if every checkpoint found for the boundary's layers has a name
  without them; behind the boundary such a name does not stop the restore (`BoundaryRestore.LeadingZeroHidesLayer`,
  `BoundaryRestore.RestoreAgreesIff`, `BoundaryController.Controller.Restore`).
- A sampling budget smaller than one chunk is overrun, because the single sample is not shortened
  (`SampleRanges.BudgetKeptIff`).
- The benchmark's own count check passes exactly when every requested count times the common divisor of 7919 and the
  vocabulary size is within the vocabulary size (`MaskStride.BuildAndExtract`).
- An upgrade interrupted between its two writes is rejected by a plain resume until the next chaining repairs it
  (`UpgradeRun.InterruptedIsRejected`).

## Model

| member | source | states |
|---|---|---|
| BoundaryDisk.PowerLossIsSafe | quantization/glm52_layer_boundary_store.py:928-1153 | from any safe disk, whatever unsynced renames, removals and file writes a power loss drops, the newest committed directory found afterwards is complete, no newer than the newest visible one before and, unless the root itself is lost, no older than the newest synced one; a root with an unsynced entry may be lost with everything in it |
| BoundaryDisk.SyncedLayerSurvivesIff | quantization/glm52_layer_boundary_store.py:928-1152 | a committed directory at least as new as the newest synced one survives every power loss if and only if the entry of the root was synced, or nothing was |
| BoundaryDisk.KeptTopped | quantization/glm52_layer_boundary_store.py:1143-1152 | an arbitrary subset of harmless pending root changes, applied in order, keeps a complete newest directory, between the newest synced and the newest visible layer |
| BoundaryDisk.ChangeIsSafe | quantization/glm52_layer_boundary_store.py:1138-1152 | promoting a complete directory of a higher layer, creating a temporary one, and removing a temporary one or one older than the newest synced layer all keep the disk safe |
| BoundaryDisk.PromoteIsSafe | quantization/glm52_layer_boundary_store.py:1143-1145 | a rename of a finished directory to a higher layer keeps the disk safe and moves the newest visible layer there |
| BoundaryDisk.SyncIsSafe | quantization/glm52_layer_boundary_store.py:1145-1152 | syncing the root makes the newest visible layer the newest synced one, never an older one; no power loss can take it only if the root's own entry is synced too |
| BoundaryDisk.UnlinkIsSafe | quantization/glm52_layer_boundary_store.py:1149-1151 | unlinking files of a temporary or an older committed directory, in any order and however far, never hurts the newest one |
| BoundaryDisk.SealedSurvives | quantization/glm52_layer_boundary_store.py:1105-1134 | a directory whose files, folders and own entries were all synced has the same contents after a power loss |
| BoundaryDisk.FileSurvivesIff | quantization/glm52_layer_boundary_store.py:1105-1134 | a file is there with its contents after every power loss if and only if its data, its entry and, for a shard, the entry of its folder were synced |
| BoundaryDisk.NewestChangeKept | quantization/glm52_layer_boundary_store.py:1143-1152 | a power loss keeps or drops the newest pending change by itself, whatever became of the earlier ones |
| BoundaryStaging.FinishedIsGood | quantization/glm52_layer_boundary_store.py:955-1134 | shards written and synced, both folders synced, then the manifest and the directory synced: the directory is complete for its name, holds what is expected of the boundary and survives anything |
| BoundaryStaging.EverySyncCounts | quantization/glm52_layer_boundary_store.py:1105-1134 | a shard is durable in the finished directory exactly if its data was synced; without the sync of its folder it is not, and without that of the directory neither it nor the manifest is |
| BoundaryStaging.BuiltStores | quantization/glm52_layer_boundary_store.py:1032-1134 | what a commit writes, in terms of its request: shard i holds the one output of batch i, state i the recurrent state of batch i, and the manifest names the layer, the replay metadata and exactly the projections of the request |
| BoundaryStaging.AdmissibleIff | quantization/glm52_layer_boundary_store.py:908-948 | a request is accepted exactly on the next routed layer with at least one batch, one well-shaped output and one state per batch, metadata that have an identity, and backed projections that name every module once; the separate check of the static identity follows |
| BoundaryStaging.PrimaryIff | quantization/glm52_layer_boundary_store.py:1032-1046 | a well-shaped output is one BF16 tensor of the run's rank whose last dimension is the hidden size |
| BoundaryStaging.StoredIsBuilt | quantization/glm52_layer_boundary_store.py:699-895 | a directory determines the outputs, in order, and the replay that it was built from |
| BoundaryStaging.KeptIsLoaded | quantization/glm52_layer_boundary_store.py:860-895 | whatever recurrent state a reader brings, what loads are the stored outputs, batch by batch, and the stored replay |
| BoundaryStore.Store.RemoveTree | quantization/glm52_layer_boundary_store.py:651-664 | a tree removal killed anywhere changes only the named directory and keeps the disk safe |
| BoundaryStore.Store.Prune | quantization/glm52_layer_boundary_store.py:651-664 | removes every temporary directory, so that only committed ones are left, leaves every committed one alone, and keeps the disk safe at every kill |
| BoundaryStore.Store.Latest | quantization/glm52_layer_boundary_store.py:628-649 | returns a committed directory of the newest layer, and nothing exactly when nothing is committed |
| BoundaryStore.Store.StageAll | quantization/glm52_layer_boundary_store.py:955-1134 | stages the boundary in a temporary directory next to untouched committed ones; a bad batch or a missing state is reported exactly when there is one |
| BoundaryStore.Store.Publish | quantization/glm52_layer_boundary_store.py:1135-1153 | promotes, syncs, and only then discards, and it is killed only with its budget used up; the destination never exists beforehand, so the collision branch is dead; killed before the promotion it leaves every committed directory as it was, killed later the newest boundary is the requested one, complete |
| BoundaryStore.Store.DiscardOlder | quantization/glm52_layer_boundary_store.py:1147-1152 | only directories older than the newest synced layer are removed, file by file, and at the end only the newest is left |
| BoundaryStore.Store.Commit | quantization/glm52_layer_boundary_store.py:897-1157 | unless its budget is used up it succeeds exactly on an admissible request; then the root holds exactly the described boundary, synced throughout: the output of batch i in shard i, its recurrent state in state i, a manifest that names the request, and the index of its predecessor extended by exactly the request's projections; rejected, or killed before the promotion, it leaves every committed directory as it was; killed later the newest boundary is the described one, complete; a root that it creates is left with an unsynced entry |
| BoundaryStore.IndexOnTopIs | quantization/glm52_layer_boundary_store.py:936-948 | the index that a commit extends is the one that the newest boundary was committed with |
| BoundaryStore.Store.Replace | quantization/glm52_layer_boundary_store.py:1143-1152 | promote, sync, discard: killed at any point, the disk is as it was or shows the promoted directory unchanged as its newest; completed, it holds nothing else and nothing waits for a sync |
| BoundaryStore.Store.LoadLatest | quantization/glm52_layer_boundary_store.py:699-895 | reads the newest committed directory: a reader whose positions, masks and arguments, the recurrent one apart, are the committed ones gets the committed layer, outputs, index and replay as values, and any other reader is refused; a loaded index is complete and backed by evidence |
| BoundaryStore.CommitThenLoad | quantization/glm52_layer_boundary_store.py:699-895 | after a commit, and however much evidence is added since, a reader with the request's positions, masks and other arguments gets the request's layer and name, the output of every batch in its place, the index and the request's replay itself |
| BoundaryStore.CommitSurvivesIff | quantization/glm52_layer_boundary_store.py:897-1157 | what a commit leaves is the same after every power loss if and only if the entry of the root is durable |
| BoundaryStore.CommitLossLoad | quantization/glm52_layer_boundary_store.py:699-1157 | commit, lose power, load: with the root durable and the same positions, masks and other arguments the load returns the request's layer, outputs in order, index and replay |
| BoundaryStore.GoodLoads | quantization/glm52_layer_boundary_store.py:699-895 | a complete directory loads if and only if the reader's static replay metadata match its manifest, which they do exactly if they are the committed ones as values, and then as it was committed |
| BoundaryStore.LoadActivations | quantization/glm52_layer_boundary_store.py:776-812 | the reading loop over activation shards equals its shard-by-shard specification |
| BoundaryStore.LoadStates | quantization/glm52_layer_boundary_store.py:819-859 | the reading loop over state shards equals its specification |
| BoundaryStore.Store.Learn | quantization/glm52_layer_boundary_store.py:430-492 | growing the projection store and the journal never invalidates a committed boundary |
| BoundaryStore.Store.PowerFails | quantization/glm52_layer_boundary_store.py:897-1157 | after a power loss the store is valid again, its newest layer is durable, at least the one that no loss could take and at most the one that was visible |
| BoundaryStore.Store.StageActivations | quantization/glm52_layer_boundary_store.py:956-1065 | the directory holds exactly the synced shards of all batches, in order; a bad batch is reported exactly when some batch is not one tensor of the required geometry |
| BoundaryStore.Store.StageStates | quantization/glm52_layer_boundary_store.py:1066-1104 | the directory also holds exactly the synced recurrent states, in order; reported bad exactly when a batch lacks its state tensor |
| BoundaryStore.Store.PreviousIndex | quantization/glm52_layer_boundary_store.py:932-948 | accepts exactly the layer behind the newest boundary, or the first target layer when there is none, and returns the index that the newest boundary carries |
| BoundaryStore.Store.NewestInScope | quantization/glm52_layer_boundary_store.py:908-912 | a visible boundary is always one of the target layers |
| BoundaryStore.CompletedIndexValid | quantization/glm52_layer_boundary_store.py:949-951 | the cumulative index of a checked request always validates and holds exactly the previous and the new entries |
| BoundaryManifest.LoadBuilt | quantization/glm52_layer_boundary_store.py:699-895 | for every directory a commit completes and every reader with the committed metadata but for the recurrent states, the load yields the same layer, name, outputs, index and replay; the final metadata check follows from the earlier ones |
| BoundaryManifest.StaticMismatchRefused | quantization/glm52_layer_boundary_store.py:712-729 | a reader with other positions, masks or arguments than the committed ones is refused, whatever else is on disk |
| BoundaryManifest.LoadAuthentic | quantization/glm52_layer_boundary_store.py:666-895 | whatever loads belongs to this run and its name, is bound shard by shard to the hashes, specifications and byte totals of the manifest, has complete, backed evidence, and gives the reader its own replay back but for the recurrent states, which are the hashed ones; the directory holds no other file |
| BoundaryManifest.FileSetAgreesIff | quantization/glm52_layer_boundary_store.py:765-774 | the file check passes exactly if the files are the manifest and the listed ones and as many as are listed |
| BoundaryManifest.TotalBytesAdds | quantization/glm52_layer_boundary_store.py:1056-1097 | byte totals are additive and count one tensor's bytes |
| BoundaryManifest.WrittenFileSet | quantization/glm52_layer_boundary_store.py:765-774 | the files a commit writes are the manifest and one distinct file per record, and no others |
| BoundaryManifest.IntactPersists | quantization/glm52_layer_boundary_store.py:430-492 | more evidence never spoils a complete directory |
| ReplayMetadata.RefillRestores | quantization/glm52_layer_boundary_store.py:860-882 | the committed states, written into arguments that are otherwise the committed ones, give the committed replay itself |
| ReplayMetadata.RefilledBatch | quantization/glm52_layer_boundary_store.py:864-865 | one batch: the same arguments but for the state and the same state written into them are the same batch |
| ReplayMetadata.StaticIgnoresState | quantization/glm52_layer_boundary_store.py:245-265 | the static identity does not depend on the recurrent state |
| ReplayMetadata.StaticImpliesFull | quantization/glm52_layer_boundary_store.py:201-265 | when every batch carries its state, the static identity exists if and only if the full one does |
| ReplayMetadata.IdentityInjective | quantization/glm52_layer_boundary_store.py:178-224 | two values with the same identity are the same value, tensor bytes included |
| ReplayMetadata.HasIdentityIff | quantization/glm52_layer_boundary_store.py:201-224 | a value has no identity exactly if it is, or holds, a number that is not finite or an unsupported object |
| ReplayMetadata.ReplayIdentityInjective | quantization/glm52_layer_boundary_store.py:227-242 | two replays with the same identity are the same |
| ReplayMetadata.StaticIdentityIff | quantization/glm52_layer_boundary_store.py:245-265 | static metadata match exactly if positions, masks and, batch by batch, all arguments but the recurrent one are the same |
| ProjectionNames.ParsePrinted | quantization/glm52_layer_boundary_store.py:40-43 | the module-name pattern parses every printed name back to its layer, expert and projection |
| ProjectionNames.PrintParsedIff | quantization/glm52_layer_boundary_store.py:40-43 | a name the pattern accepts is printed back identically if and only if neither of its numbers has a superfluous leading zero |
| ProjectionNames.MatchIsSpelled | quantization/glm52_layer_boundary_store.py:40-43 | the pattern accepts nothing but spelled names |
| ProjectionNames.LeadingZeroIsLost | quantization/glm52_layer_boundary_store.py:40-43 | every module has a second accepted name that is not printed back |
| ProjectionNames.NamesInFull | quantization/glm52_layer_boundary_store.py:419-428 | the printed module names, in full |
| ProjectionNames.Digits | quantization/glm52_layer_boundary_store.py:419-428 | decimal printing puts the most significant digit first |
| ProjectionNames.PrintReadIff | quantization/glm52_layer_boundary_store.py:524-525 | printing undoes reading a numeral exactly when it has no superfluous zero |
| ProjectionNames.LayersDisjoint | quantization/glm52_layer_boundary_store.py:423-428 | the expected names of two layers never overlap |
| ProjectionNames.ExpectedCount | quantization/glm52_layer_boundary_store.py:419-428 | a layer has three names per expert |
| ProjectionNames.CumulativeCount | quantization/glm52_layer_boundary_store.py:599-616 | n consecutive layers have n times three names per expert |
| ProjectionNames.ExportTensorCount | quantization/quantize_glm52_gptqmodel.py:2836-2876 | the exported tensor names of all modules are pairwise different: four per module |
| ProjectionNames.StemOf | quantization/quantize_glm52_gptqmodel.py:2854-2876 | a tensor name determines its module |
| ProjectionIndex.ListsUnique | quantization/glm52_layer_boundary_store.py:435-440 | there is one sorted list of a set of entries with distinct modules |
| Sorting.FirstDifferenceDecides | quantization/glm52_layer_boundary_store.py:435-440 | the first difference of two names decides their order, the smaller code point first |
| Sorting.PrefixFirst | quantization/glm52_layer_boundary_store.py:435-440 | a prefix comes before the name that it begins |
| ProjectionIndex.ValidLayerIff | quantization/glm52_layer_boundary_store.py:430-492 | validation returns a complete, sorted, backed layer, and such a layer validates to itself |
| ProjectionIndex.ValidEntriesIff | quantization/glm52_layer_boundary_store.py:430-492 | entries validate, in any order, exactly if they name every module of the layer once and all are backed, and none is added or dropped |
| ProjectionIndex.BackedIff | quantization/glm52_layer_boundary_store.py:451-491 | an entry is backed exactly by a checkpoint under its request with its name, layer and family throughout and a record that it names and the journal holds |
| ProjectionIndex.ValidIndexIff | quantization/glm52_layer_boundary_store.py:588-626 | validation returns a complete, sorted index, and such an index validates to itself |
| ProjectionIndex.LengthChecksImplied | quantization/glm52_layer_boundary_store.py:441-449 | the length checks of both validations follow from distinct names and the right name set |
| ProjectionIndex.LayerPersists | quantization/glm52_layer_boundary_store.py:451-491 | a validated layer stays valid under more evidence |
| ProjectionIndex.IndexGrows | quantization/glm52_layer_boundary_store.py:949-951 | appending a validated next layer to a complete index always validates, and holds exactly both sets of entries |
| ProjectionDiscovery.Group | quantization/glm52_layer_boundary_store.py:505-565 | the grouping loop succeeds if and only if every checkpoint is readable, proven and agrees with every other of its module; then it maps exactly the entries found, by layer and name |
| ProjectionDiscovery.FoundIff | quantization/glm52_layer_boundary_store.py:515-553 | discovery takes a checkpoint exactly if it is a complete record of a module in scope, with one name, layer and family throughout and a record in the journal |
| ProjectionDiscovery.TakeComplete | quantization/glm52_layer_boundary_store.py:567-579 | takes complete layers from the first on, up to the first incomplete one, each listed by name |
| ProjectionDiscovery.Discover | quantization/glm52_layer_boundary_store.py:494-586 | succeeds if and only if the evidence is readable, agreeing and nothing lies behind an incomplete layer; then it returns exactly the complete layers, each with exactly its entries in order |
| ProjectionDiscovery.CompleteIsPrefix | quantization/glm52_layer_boundary_store.py:567-586 | discovered layers are downward closed from the first target layer: one contiguous prefix |
| ProjectionDiscovery.CompleteInScope | quantization/glm52_layer_boundary_store.py:538-553 | no layer outside the target scope is ever discovered as complete |
| ProjectionDiscovery.ByName | quantization/glm52_layer_boundary_store.py:577-579 | lists exactly the entries of a map, sorted by name, once each |
| BoundaryRestore.SplitByLayer | quantization/glm52_layer_boundary_store.py:1294-1302 | fails exactly when some entry names no layer of the prefix; otherwise maps every layer to its entries in index order |
| BoundaryRestore.IndexSplits | quantization/glm52_layer_boundary_store.py:1293-1319 | for a complete index both split checks pass and exactly the layers of the prefix get entries |
| BoundaryRestore.RestoreAgreesIff | quantization/glm52_layer_boundary_store.py:1327-1339 | for a complete, backed index and evidence that discovery accepts, discovery returns exactly the boundary's entries for every layer of the boundary if and only if every checkpoint found for these layers has a name that is printed back |
| BoundaryRestore.CanonicalAgrees | quantization/glm52_layer_boundary_store.py:1327-1339 | a complete, backed index restricted to a layer whose found names are printed back equals what discovery returns for it |
| BoundaryRestore.LeadingZeroHidesLayer | quantization/glm52_layer_boundary_store.py:494-586 | a checkpoint proven in every other respect whose name has a leading zero is found by discovery and makes its layer incomplete, whatever else is committed |
| BoundaryController.Controller.CrossCheck | quantization/glm52_layer_boundary_store.py:1327-1339 | holds exactly when every layer behind the start is discovered and every deferred layer is discovered with the same entries |
| BoundaryController.Controller.Restore | quantization/glm52_layer_boundary_store.py:1280-1346 | resumes right behind the newest boundary, from layer 0 when there is none, with exactly its layers deferred, exactly the further complete layers to catch up, and what the boundary is expected to hand on as the next input; unless its budget is used up it fails if and only if the static metadata are foreign, the evidence is unreadable, disagreeing or not contiguous, or a checkpoint of a layer of the boundary has a name that is not printed back; keeps every boundary |
| BoundaryController.Controller.CommitLayer | quantization/glm52_layer_boundary_store.py:1453-1553 | unless its budget is used up it commits exactly an admissible next layer and nothing else, hands its outputs on to the next one, defers it exactly when publication is deferred, never meets a differing deferred index, and raises exactly on an inadmissible request; a newest boundary that it does not replace stays as it is, and one that it adds shows the request |
| BoundaryController.Controller.AdoptReplay | quantization/glm52_layer_boundary_store.py:1492-1507 | the boundary just committed always loads again, and the next layer's input is the committed output of every batch, in its place |
| BoundaryController.Controller.CommitBoundary | quantization/glm52_layer_boundary_store.py:1482-1507 | whether or not the outputs were a replay that became part of the boundary, the next layer's input is what this layer put out, batch by batch |
| BoundaryController.Controller.Materialize | quantization/glm52_layer_boundary_store.py:1348-1395 | unless publication is deferred and not forced, every deferred layer is installed once, in ascending order, and the prefix is cleared |
| BoundaryController.Controller.LoadBoundary | quantization/glm52_layer_boundary_store.py:1280-1325 | the start is behind the newest boundary, the deferred prefix is its index split by layer, and its outputs and replay are handed on; unless its budget is used up it fails if and only if the static metadata differ |
| BoundaryRun.Run.ProcessLayers | quantization/glm52_layer_boundary_store.py:1397-1553 | the layer loop keeps the deferred prefix equal to the committed layers and prepares every catch-up layer; unless killed or stopped it fails if and only if some layer yields unusable work |
| BoundaryRun.Run.Advance | quantization/glm52_layer_boundary_store.py:1397-1553 | one layer: a catch-up layer is prepared once, which never fails, then its boundary is committed as the next one, and what it hands on is what an uninterrupted run hands on |
| BoundaryRun.Run.Session | quantization/glm52_layer_boundary_store.py:1280-1553 | under any kill, the layers committed over all sessions are the first routed layers in ascending order, once each; a session leaves every committed directory as it was, or the newest one shows what the work of its layer asked for; it resumes at the newest boundary plus one; a completed one has installed exactly first..last, once each; one that is neither killed nor stopped completes if and only if it is not obstructed and all work is usable; it is killed only with its budget used up; the session that creates the root leaves it unsynced, a later one makes it durable if and only if the run state is |
| BoundaryRun.Run.History | quantization/glm52_layer_boundary_store.py:897-1553 | over any history of sessions, kills and power losses, at every moment the visible boundaries are the first routed layers without a gap, and the newest is complete and holds, tensor by tensor, the outputs and the replay that one uninterrupted run of the model hands to the next layer; each event is skipped exactly when it does not fit the moment before it, and otherwise accounts for the moment after it: where a session resumed, that it was killed, failed, stopped or completed for the stated reason at that moment, what its newest boundary shows, what a loss took; what is durable at one moment is so at every later one |
| BoundaryRun.InterruptionsLeaveNoTrace | quantization/glm52_layer_boundary_store.py:897-1553 | however two runs of one model were interrupted, where both have reached the same layer their newest boundaries hold the same shards |
| BoundaryRun.SoundIsOnTrack | quantization/glm52_layer_boundary_store.py:897-1553 | the invariant of all sessions makes the newest visible boundary that of the uninterrupted run |
| BoundaryRun.Run.Happen | quantization/glm52_layer_boundary_store.py:897-1553 | one event of a history: skipped exactly when the checkpoints are not those of the store, a start from the first layer brings other calibration data, or the loss is no possible one; a session ends as its budget, its stop, the obstruction and the usability of its work at that moment decide; a loss takes only what was not durable |
| BoundaryRun.UnhinderedCompletes | quantization/glm52_layer_boundary_store.py:1280-1553 | a session without a limit or a stop that nothing obstructs and whose work is usable ends with every layer committed and installed, once and in order |
| BoundaryRun.Run.ProcessLayer | quantization/glm52_layer_boundary_store.py:1453-1553 | a layer becomes visible at most once, as the next one, and is recorded then; raised only for unusable work or a layer out of turn |
| BoundaryRun.Run.PowerLoss | quantization/glm52_layer_boundary_store.py:897-1157 | a power loss takes committed layers from the newest one on, never a durable one, and never adds one |
| UpgradeRecords.AncestorsDistinct | quantization/glm52_execution_upgrade.py:70-83 | hash links make every chain acyclic: no record is its own ancestor and none repeats |
| UpgradeRecords.ArchiveHolds | quantization/glm52_execution_upgrade.py:102-142 | the history a record calls for has one file per ancestor under that ancestor's digest |
| ExecutionUpgrade.ReadHistory | quantization/glm52_execution_upgrade.py:102-126 | reads every history file, and succeeds exactly when each is a valid record under its own digest |
| ExecutionUpgrade.WalkLinks | quantization/glm52_execution_upgrade.py:128-142 | the walk accepts exactly when the links from the active record reach every archived record and end |
| ExecutionUpgrade.ReadUpgrade | quantization/glm52_execution_upgrade.py:86-142 | accepts if and only if there is a list of records of the plan, each with exactly one link, to the next, and the last with none, whose first record is active and whose others are the history files under their own digests: none missing, extra, altered or repeated |
| ExecutionUpgrade.AcceptedIsList | quantization/glm52_execution_upgrade.py:50-142 | the recursive definition of an accepted disk and the linked list say the same |
| ExecutionUpgrade.ReadUpgradeChain | quantization/glm52_execution_upgrade.py:145-173 | succeeds exactly on an accepted disk, where it always ends without needing a visited set, and returns the whole chain, newest first |
| ExecutionUpgrade.ChainIsLinkedList | quantization/glm52_execution_upgrade.py:145-173 | the returned records are distinct, one more than the archived ones, and each links to the next |
| ExecutionUpgrade.ActiveNotArchived | quantization/glm52_execution_upgrade.py:86-142 | an accepted history never contains the active record |
| UpgradeRun.InterruptedIsRejected | quantization/quantize_glm52_gptqmodel.py:1311-1322 | the state between the archive write and the swap is rejected by the reader until it is repaired |
| UpgradeRun.RepairRestores | quantization/quantize_glm52_gptqmodel.py:1346-1356 | dropping the duplicate gives back exactly the accepted state before the interruption and loses no record |
| UpgradeRun.ChainGrows | quantization/quantize_glm52_gptqmodel.py:2569-2587 | archiving the active record and swapping in one that links to it gives an accepted chain, one longer, that keeps every earlier record; the new one holds the request and links as a successor over a retained boundary, as the replacement of a failed one without |
| UpgradeRun.RunState.RepairArchiveStaging | quantization/quantize_glm52_gptqmodel.py:1311-1356 | changes nothing but an exact duplicate of the active record, and nothing at all on an accepted state; two file operations are enough for it to end in an accepted or untouched state |
| UpgradeRun.RunState.ChainUpgrade | quantization/quantize_glm52_gptqmodel.py:2554-2591 | killed anywhere, which takes a used-up budget, it leaves a reachable state with every earlier record; otherwise it saves the requested record: the old chain unchanged exactly if it holds the request already, and else the old chain with one record in front, linked through the first field over a retained boundary and through the second without, and all of it synced if the disk it began on was; the first chaining, killed after four operations, is at the point where the history directory can be lost |
| UpgradeRun.RunState.RunUpgrades | quantization/quantize_glm52_gptqmodel.py:2554-2591 | any number of launches, each of which saves its request unless its budget is used up and loses no record, and one repair that is given at least two file operations end in an accepted or untouched chain that holds every record of every disk on the way |
| UpgradeRun.ChainingLossIff | quantization/quantize_glm52_gptqmodel.py:2578-2587 | at any point of a chaining that began on an accepted disk with nothing pending, whatever a power loss takes leaves a state that is accepted or repairable, if and only if the swap has not happened yet or the entry of the history directory is synced |
| UpgradeRun.ChainingSafeIff | quantization/quantize_glm52_gptqmodel.py:2578-2587 | chaining on an accepted disk with nothing pending survives every kill and every power loss if and only if the history directory is already there |
| UpgradeRun.FirstChainingCanBeLost | quantization/quantize_glm52_gptqmodel.py:2578-2587 | for every accepted disk without a history and every request, right after the swap a power loss may leave a disk that is neither accepted nor repairable |
| UpgradeRun.PendingSwapCanBeLost | quantization/quantize_glm52_gptqmodel.py:2578-2587 | archiving a record whose own swap is not synced yet: a power loss may leave a disk that is neither accepted nor repairable |
| UpgradeRun.LossKeepsTame | quantization/quantize_glm52_gptqmodel.py:1260-1272 | whatever a power loss takes from a chaining over a durable history directory, what is left is accepted or repairable and holds every durable record |
| UpgradeRun.RunState.Launching | quantization/quantize_glm52_gptqmodel.py:2554-2591 | one launch saves its request unless its budget is used up and loses no record; over a durable history directory it keeps every durable record and stays repairable after any loss, wherever it is killed, if it finds its active record durable or already holding the request, and otherwise there is a point where it may be killed and a loss leaves a disk that is neither accepted nor repairable |
| UpgradeRun.RunState.History | quantization/quantize_glm52_gptqmodel.py:2554-2591 | over any history of launches, kills and power losses every event accounts for the next moment; with a durable history directory and calm launches every moment stays repairable after any further loss, and what is durable at one moment is so at every later one |
| UpgradeRun.RunState.Replace | quantization/quantize_glm52_gptqmodel.py:2578-2587 | archives, then swaps: completed, the chain is one longer and synced; killed, it is at one of the steps that the loss condition speaks of |
| UpgradeRun.RunState.Archive | quantization/quantize_glm52_gptqmodel.py:2578-2586 | on an accepted chain the archive never collides, and stored it is exactly the interrupted state |
| ExportArtifact.MarkersComplete | quantization/quantize_glm52_gptqmodel.py:3083-3105 | writing the manifest and then the run marker over any staged files gives an artifact that validates |
| ExportArtifact.MarkerBindsArtifact | quantization/quantize_glm52_gptqmodel.py:2133-2216 | two artifacts that validate with the same run marker are identical, file by file |
| ExportArtifact.ValidIsMarked | quantization/quantize_glm52_gptqmodel.py:2133-2216 | an artifact validates exactly if it is what writing the two markers over its other files makes of them |
| ExportArtifact.MarkersSay | quantization/quantize_glm52_gptqmodel.py:2133-2216 | the manifest of a valid artifact lists every other file by its contents, and the run marker names the plan, the manifest and the active upgrade by their digests |
| ExportArtifact.MarkedSurvivorIff | quantization/quantize_glm52_gptqmodel.py:2259-2274 | after a power loss a stage that still shows its marker validates if and only if it lost nothing |
| ExportArtifact.MarkerSafeIff | quantization/quantize_glm52_gptqmodel.py:3105-3111 | a complete stage with a durable marker validates after every possible power loss if and only if the whole tree was synced |
| ExportPublication.MarkedStageCanBeDamaged | quantization/quantize_glm52_gptqmodel.py:3105-3111 | a complete stage with a durable marker and one file whose data were never synced may be left marked and no longer valid |
| ExportPublication.Publication.Mark | quantization/quantize_glm52_gptqmodel.py:3059-3105 | refuses exactly what may not be exported; otherwise, unless killed, leaves a complete stage with a durable marker in which no payload file has been synced but the one that normalization writes atomically |
| ExportPublication.LossIsSound | quantization/quantize_glm52_gptqmodel.py:2240-2245 | no power loss leaves an output that is not complete and durable |
| ExportPublication.Validate | quantization/quantize_glm52_gptqmodel.py:2133-2216 | accepts exactly the complete artifacts: consistent records, an accepted upgrade chain, the file set of the manifest and both markers, every hash |
| ExportPublication.Publication.CopyUpgrade | quantization/quantize_glm52_gptqmodel.py:3067-3080 | refuses exactly a rejected upgrade; otherwise the export carries the active record and the whole history and nothing else changes |
| ExportPublication.Publication.WriteMarkers | quantization/quantize_glm52_gptqmodel.py:3083-3105 | until its last write the stage has no marker; after it the stage is complete |
| ExportPublication.Publication.PublishStage | quantization/quantize_glm52_gptqmodel.py:2240-2245 | the output appears only complete and synced; killed anywhere, either the stage or the output still holds the whole artifact |
| ExportPublication.Publication.PublishExport | quantization/quantize_glm52_gptqmodel.py:3059-3111 | unless its budget is used up it publishes exactly an exportable stage: the output holds the normalized payload, the upgrade chain and both markers, durably |
| ExportPublication.Publication.Recover | quantization/quantize_glm52_gptqmodel.py:2248-2282 | unless its budget is used up a marked stage is published with the same contents if it validates, and refused unchanged if a power loss damaged it; an unmarked one is discarded; nothing that was safe is lost |
| ExportPublication.Publication.Prepare | quantization/quantize_glm52_gptqmodel.py:2285-2344 | behind a finished publication a resumed run changes nothing; a resumed run is refused, unchanged, only for a damaged stage or a rejected upgrade chain; a fresh run is refused exactly where a stage or an output exists |
| ExportPublication.Publication.Execute | quantization/quantize_glm52_gptqmodel.py:3284-3288 | unless its budget is used up it ends in exactly one way: a fresh run is refused exactly where a stage or an output exists; a resumed one keeps the output it finds, publishes a marked stage unchanged if it validates and refuses it if not; otherwise it publishes its normalized payload with the upgrade chain if that is exportable, and is refused if not; the stage never exists before the save, so the unexpected-stage error never fires |
| ExportPublication.Publication.PowerFails | quantization/quantize_glm52_gptqmodel.py:2240-2245 | an output is kept, or an unsynced publication turns back into a marked stage with the same contents, or is gone when the stage's own entry was never synced |
| ExportPublication.Publication.History | quantization/quantize_glm52_gptqmodel.py:2240-2344 | over any history of sessions, kills and power losses, at every moment the output is absent or complete, every event accounts for the moment after it, and an artifact that is safe at one moment, as the output or as a complete durable stage, is so at every later one, file by file |
| ExportPublication.FreshSessionPublishes | quantization/quantize_glm52_gptqmodel.py:3284-3288 | from an empty place a session with an exportable payload and no limit ends with that export as its durable output |
| ExportPublication.OutputSurvivesIff | quantization/quantize_glm52_gptqmodel.py:2240-2245 | a published output outlives every power loss, as the output or as the stage that it was, if and only if its rename or the stage's own entry is synced |
| ExportPublication.LossKeepsSecured | quantization/quantize_glm52_gptqmodel.py:2219-2245 | no power loss takes or changes an artifact that is safe |
| ExportPublication.Publication.Save | quantization/quantize_glm52_gptqmodel.py:3284-3287 | writes exactly the payload into a new stage, and refuses exactly an existing one |
| ExportPublication.Publication.Normalize | quantization/quantize_glm52_gptqmodel.py:3022-3056 | rewrites payload files only, exactly as the normalization says, and refuses exactly when there is none |
| ExportPublication.Publication.Discard | quantization/quantize_glm52_gptqmodel.py:2276-2282 | an unmarked stage loses its files one by one and is gone when that is synced; it never gains a marker |
| ExportPublication.Publication.SyncTree | quantization/quantize_glm52_gptqmodel.py:2219-2237 | every file and entry of the stage is durable afterwards, with unchanged contents |
| CompletionQueue.LostWakeupExactly | native/src/glmrt_native.cc:3314-3346 | a round that starts without a pending event loses a wakeup exactly when two completions are needed, two are already unread and the device stays quiet |
| CompletionQueue.NoLostWakeupIff | native/src/glmrt_native.cc:3314-3346 | no device behaviour loses a wakeup if and only if at most one completion was still needed when the queue was armed |
| CompletionQueue.ArrivalsCompose | native/src/glmrt_native.cc:3290-3298 | however completions are grouped, a request is answered by one event, and by none before the first of them |
| CompletionWait.Direction.PollOne | native/src/glmrt_native.cc:3228-3253 | takes at most one completion, only a needed one, and a watched queue that needed at most one is then safe to block on |
| CompletionWait.ArmAndBlock | native/src/glmrt_native.cc:3314-3378 | a timeout overlooks no completion of a direction that needed at most one when armed; it comes only when every event since the first drain was fetched, each incomplete direction is armed and was polled, and a completion is unread only if one was taken since that arming; a wait that returns ready has an event to fetch |
| CompletionWait.FetchAndPoll | native/src/glmrt_native.cc:3379-3402 | fetches at least one event, and every fetched event is matched by a completion taken |
| CompletionWait.NotifyLoop | native/src/glmrt_native.cc:3314-3403 | ends after at most as many ready waits as completions taken, against any device; it times out only with every raised event fetched |
| CompletionWait.PollWithTimeout | native/src/glmrt_native.cc:3146-3409 | success reports exactly the expected counts; counts never exceed them; no completion beyond the request is taken, lost or reordered; ready waits are at most the expected completions; on a timeout every event raised on an incomplete direction since the first drain was fetched and matched by a completion taken, the direction is armed, it overlooks nothing that needed at most one, leaves a completion unread only if one was taken since the last arming, and was polled once more than there were busy passes |
| CompletionWait.Direction.PollAvailable | native/src/glmrt_native.cc:3447-3471 | takes everything queued at the start unless the maximum is reached first |
| CompletionWait.TryPoll | native/src/glmrt_native.cc:3419-3506 | reports at least what was pending or queued at the start up to the maximum, never more, and loses nothing |
| CompletionWait.PollIncompleteOnce | native/src/glmrt_native.cc:3254-3275 | polls each incomplete direction at most once and keeps both records consistent; a direction that needed at most one is then safe to block on |
| CompletionWait.BusyPoll | native/src/glmrt_native.cc:3276-3289 | the busy passes lose nothing and end early only when all expected completions are counted or one failed |
| CompletionWait.FetchEvents | native/src/glmrt_native.cc:3379-3391 | fetches an event of every ready incomplete direction, at least one in all |
| CompletionWait.Direction.ConsumePending | native/src/glmrt_native.cc:3178-3197 | moves pending completions into the count until the count is reached or none is left |
| RowAllToAll.PostRows | native/src/glmrt_native.cc:1632-1681 | rejects exactly the invalid shapes and too small buffers, with no size overflow, and otherwise posts exactly one send and one receive per peer in peer order |
| RowAllToAll.RangesMeet | native/src/glmrt_native.cc:1640-1666 | consecutive row ranges meet and the last ends at the row count |
| RowAllToAll.RowsPartitioned | native/src/glmrt_native.cc:1640-1666 | every row lies in exactly one rank's range, and sizes differ by at most one |
| RowAllToAll.PostsMatch | native/src/glmrt_native.cc:1660-1681 | the bytes any rank posts to send to another are the bytes that rank posts to receive from it |
| RowAllToAll.SlotsConcatenate | native/src/glmrt_native.cc:1669-1680 | receives into consecutive slots leave exactly the concatenated messages |
| RowAllToAll.EveryRankGathers | native/src/glmrt_native.cc:1623-1690 | after all transfers every rank's receive buffer starts with its own row range of every other rank, in rank order, and nothing behind those slots has changed |
| RowAllToAll.RowArrives | native/src/glmrt_native.cc:1623-1690 | byte by byte: every row of every other rank reaches the rank that owns it, behind the rows of the ranks before and the owner's earlier rows |
| RowAllToAll.SharesNeverGrow | native/src/glmrt_native.cc:1640-1666 | the ranks in front take the extra rows: a share never grows with the rank |
| RowAllToAll.PostLoop | native/src/glmrt_native.cc:1659-1681 | the loop over peers with its running slot index posts the expected list |
| TokenMask.IsAllowed | native/tools/xgrammar_glm_bench.cc:279-284 | is the flag of the token |
| TokenMask.CountAllowed | native/tools/xgrammar_glm_bench.cc:286-298 | is the number of allowed tokens below the vocabulary size |
| TokenMask.AppendWordIds | native/tools/xgrammar_glm_bench.cc:307-316 | the clear-lowest-bit loop appends the set positions of one word, lowest first |
| TokenMask.ExtractAllowedIds | native/tools/xgrammar_glm_bench.cc:300-318 | writes exactly the allowed tokens below the vocabulary size, in order, and no more |
| TokenMask.AllowedIdsExact | native/tools/xgrammar_glm_bench.cc:300-318 | the filter is strictly increasing and holds a token if and only if it is flagged and in range |
| TokenMask.LowestFirstIsBitByBit | native/tools/xgrammar_glm_bench.cc:311-315 | taking the lowest set bit and clearing it with bits and bits minus one is scanning bit by bit |
| WordBits.ClearLowest | native/tools/xgrammar_glm_bench.cc:312-314 | bits and bits minus one clears exactly the lowest set bit |
| MaskStride.TokensDistinctIff | native/tools/xgrammar_glm_bench.cc:395-406 | count strided tokens are distinct if and only if count is at most the period, the vocabulary size divided by its gcd with the stride |
| MaskStride.TokenSteps | native/tools/xgrammar_glm_bench.cc:395-400 | consecutive tokens are 7919 apart, consecutive rows 1009, and the first token is 17, around the vocabulary |
| MaskStride.FillRow | native/tools/xgrammar_glm_bench.cc:395-406 | sets exactly the strided tokens of its row and changes no other word |
| MaskStride.BuildAndExtract | native/tools/xgrammar_glm_bench.cc:388-417 | the benchmark fills every row and extracts every row; it passes if and only if that gcd condition holds for every requested count, and otherwise fails at the first row for which it does not |
| MaskStride.CheckRow | native/tools/xgrammar_glm_bench.cc:411-417 | extracting a filled row gives back exactly the strided tokens if and only if the count fits |
| MaskStride.WholeVocabularyDistinct | native/tools/xgrammar_glm_bench.cc:390-406 | for the whole GLM vocabulary the strided tokens are all distinct |
| SafetensorsLayout.CheckRanges | quantization/quantize_glm52_gptqmodel.py:2820-2830 | the cursor loop accepts if and only if the entries can be ordered to tile the payload |
| SafetensorsLayout.CheckShard | quantization/quantize_glm52_gptqmodel.py:2759-2830 | accepts exactly a valid header length with valid entries that tile the payload, and then returns their dtypes and shapes |
| SafetensorsLayout.SortedTilesIff | quantization/quantize_glm52_gptqmodel.py:2820-2830 | some order concatenates to the payload if and only if the sorted one does, zero-length tensors included |
| SafetensorsLayout.AcceptedBytesHaveOneOwner | quantization/quantize_glm52_gptqmodel.py:2820-2830 | in an accepted shard every payload byte belongs to exactly one tensor |
| SafetensorsLayout.ReadEntries | quantization/quantize_glm52_gptqmodel.py:2790-2819 | accepts exactly when every entry is valid, and then records every tensor |
| SafetensorsLayout.ProductOfJoined | quantization/quantize_glm52_gptqmodel.py:2813-2816 | shapes multiply when they are joined, one dimension counts for itself, and a scalar for one |
| SampleRanges.RangesAreDisjoint | python/tools/analyze_nvfp4_weight_entropy.py:112-123 | for all arguments the samples are in bounds, ascending and pairwise disjoint under round-half-even |
| SampleRanges.SpreadReachesBothEnds | python/tools/analyze_nvfp4_weight_entropy.py:119-123 | with two or more samples the first starts at zero and the last ends at the tensor's end |
| SampleRanges.SpreadIsEven | python/tools/analyze_nvfp4_weight_entropy.py:115-123 | two or more samples are a chunk each, start within half a byte of their even places, and consecutive starts are within one byte of the even distance |
| SampleRanges.WholeOrCentred | python/tools/analyze_nvfp4_weight_entropy.py:113-118 | a tensor within the budget is sampled whole, and a single sample is centred |
| SampleRanges.BudgetKeptIff | python/tools/analyze_nvfp4_weight_entropy.py:112-123 | the samples stay within the byte budget if and only if the tensor fits in it or a chunk does |
| SampleRanges.SmallBudgetOverrun | python/tools/analyze_nvfp4_weight_entropy.py:115-118 | a budget below one chunk is overrun |
| DraftSelection.SelectDrafts | python/tools/analyze_dspark_policy_trace.py:525-545 | returns the smallest draft count of maximal throughput over all prefixes, or one on a forced probe of a zero choice; fails exactly beyond fifteen confidences |
| DraftSelection.ExpectedTokensIsMean | python/tools/analyze_dspark_policy_trace.py:533-537 | the running sum of survival products is the mean of one plus the accepted drafts over a distribution that sums to one |
| DraftSelection.OutcomesNonNegative | python/tools/analyze_dspark_policy_trace.py:533-537 | with confidences between zero and one every outcome of that distribution has a probability |
| DraftSelection.ContextCost | python/tools/analyze_dspark_policy_trace.py:516-522 | a context inside the first bucket of 32768 tokens costs nothing, and every further bucket two milliseconds |
| DraftSelection.RowsCost | python/tools/analyze_dspark_policy_trace.py:30-47 | more physical rows take longer, whatever the context |
| DraftSelection.ThroughputIs | python/tools/analyze_dspark_policy_trace.py:533-539 | throughput times the seconds of the cycle is the expected number of tokens |
| LogitBias.BiasScalesOdds | python/tools/analyze_dspark_policy_trace.py:409-415 | both branches of the stable sigmoid compute the same function: the bias multiplies the odds by its exponential |
| LogitBias.CalibrationMonotone | python/tools/analyze_dspark_policy_trace.py:409-415 | calibrated confidences lie strictly between zero and one and grow with the bias |
| LogitBias.NoBiasKeeps | python/tools/analyze_dspark_policy_trace.py:409-415 | without a bias a confidence is kept, up to the clamping |
| LogitBias.LogitBiasCalibrates | python/tools/analyze_dspark_policy_trace.py:409-415 | the biased logit meets everything the fit assumes of a calibration |
| BiasFit.Evaluate | python/tools/analyze_dspark_policy_trace.py:482-494 | the nested loops compute the recency-weighted gradient and curvature |
| BiasFit.ObservationPull | python/tools/analyze_dspark_policy_trace.py:482-494 | one observation pulls by the acceptance predicted up to its first rejected draft, minus the acceptance seen, and curves by the variances of those outcomes |
| BiasFit.AcceptanceLowersPull | python/tools/analyze_dspark_policy_trace.py:482-494 | one more accepted draft lowers the pull, at any bias |
| BiasFit.ObservationAges | python/tools/analyze_dspark_policy_trace.py:482-494 | a newer observation counts in full and multiplies the weight of all earlier ones by the decay |
| BiasFit.ObservationsAdd | python/tools/analyze_dspark_policy_trace.py:482-494 | without observations the prior alone is left, and the observations add their pulls to it |
| BiasFit.BiasDirection | python/tools/analyze_dspark_policy_trace.py:482-511 | if every proposal was accepted to its end the gradient is negative without a bias and the bias at least minus the error, if none was accepted at all the other way round |
| BiasFit.SurpriseIs | python/tools/analyze_dspark_policy_trace.py:467-479 | the surprise is, on average, what the confidences of accepted drafts lacked of one and the confidence of the first rejected one |
| BiasFit.DecayFalls | python/tools/analyze_dspark_policy_trace.py:480-480 | the decay falls linearly with the surprise |
| BiasFit.GradientClimbs | python/tools/analyze_dspark_policy_trace.py:482-494 | for any observations the gradient climbs at least as steeply as the prior alone, and the curvature is at least the prior |
| BiasFit.Bisect | python/tools/analyze_dspark_policy_trace.py:496-511 | after n halvings the gradient is negative below and positive above the returned bias, up to the limit divided by two to the n |
| BiasFit.RootIsNear | python/tools/analyze_dspark_policy_trace.py:496-511 | any zero of the gradient, clamped to the limits, is within that error of the returned bias |
| BiasFit.ErrorAfterForty | python/tools/analyze_dspark_policy_trace.py:504-509 | forty halvings leave the limit divided by two to the forty |
| BiasFit.SaturatedSigns | python/tools/analyze_dspark_policy_trace.py:498-503 | at a saturated end the gradient has one sign over the whole interval |
| BiasFit.NewestSurprise | python/tools/analyze_dspark_policy_trace.py:467-480 | the mean error of the newest observation, between zero and one |
| BiasFit.FitCurrentScalarBias | python/tools/analyze_dspark_policy_trace.py:460-513 | the whole fit: the recency weight follows the surprise, the bias has the stated error in the saturated cases too and moves up when everything was accepted and down when nothing was, the variance is one over the curvature and at most that of the prior |
| ScalarPolicy.ProbeInterval | python/tools/analyze_dspark_policy_trace.py:131-136 | four to sixteen plans, at its ends for full and no uncertainty |
| ScalarPolicy.ProbesSooner | python/tools/analyze_dspark_policy_trace.py:131-136 | the interval never grows with the variance and is the nearest integer to a line that falls by three plans per unit of it |
| ScalarPolicy.ScalarLogitPolicy.Observe | python/tools/analyze_dspark_policy_trace.py:141-165 | keeps the newest observations of the window and refits the bias to them |
| ScalarPolicy.ScalarLogitPolicy.PlanCycle | python/tools/analyze_dspark_policy_trace.py:747-760 | drafts the best prefix of the adjusted confidences, probes when due, so no more than sixteen decisions in a row draft nothing |
| ContiguousRuns.GroupRuns | python/tools/analyze_dspark_policy_trace.py:714-720 | groups ordered contexts into recorded runs that cover them all with a gap between any two |
| ContiguousRuns.DecodeRun | python/tools/analyze_dspark_policy_trace.py:714-721 | returns a recorded stretch that no recorded stretch exceeds in length, the latest among equals |
| ContiguousRuns.OneLongestLatest | python/tools/analyze_dspark_policy_trace.py:721-721 | every other recorded stretch is shorter, or as long and earlier |
| ContiguousRuns.LastLongest | python/tools/analyze_dspark_policy_trace.py:721-721 | the maximum by length and then by first context |
| PolicyReplay.MatchOfPrefix | python/tools/analyze_dspark_policy_trace.py:749-750 | verifying only the first drafts accepts the smaller of the drafts and the recorded acceptance |
| PolicyReplay.RunEmitsTarget | python/tools/analyze_dspark_policy_trace.py:740-767 | chained verified cycles emit one contiguous stretch of the target stream, as long as decisions plus accepted drafts |
| PolicyReplay.HistogramConserves | python/tools/analyze_dspark_policy_trace.py:751-757 | the histogram sums to the decisions and weighs to the drafted tokens |
| PolicyReplay.HistogramCounts | python/tools/analyze_dspark_policy_trace.py:756-756 | for every number of physical rows the histogram counts the decisions that used as many |
| PolicyReplay.TotalsAdd | python/tools/analyze_dspark_policy_trace.py:751-756 | drafted tokens, accepted tokens and predicted time are added up decision by decision |
| PolicyReplay.ReplayRun | python/tools/analyze_dspark_policy_trace.py:736-767 | for any policy the loop makes a chain of verified decisions, each the policy's own in the state that the decisions before it led to, counts them exactly, misses no frontier, and ends behind the run or at the record that ends the request |
| PolicyReplay.ReplaySequence | python/tools/analyze_dspark_policy_trace.py:709-774 | the whole replay of a sequence: longest latest run, every decision the policy's own, emitted tokens equal to the target's, exact counters, the predicted time included, no missing frontier |
| PolicyReplay.RejectDuplicates | python/tools/analyze_dspark_policy_trace.py:649-657 | accepts exactly sequences whose contexts are pairwise different |
| PolicyReplay.ByContext | python/tools/analyze_dspark_policy_trace.py:722-726 | indexes exactly the contexts of the run |
| PolicyReplay.Decide | python/tools/analyze_dspark_policy_trace.py:747-760 | one decision drafts as the selection rule says from the policy's adjusted confidences and probe, accepts what verifying those drafts accepts, and leaves the policy prepared, told its drafts and, if any, their outcome |
| PolicyReplay.CallsOfDecision | python/tools/analyze_dspark_policy_trace.py:747-760 | a decision prepares the policy for its context, then tells it the drafts, then, if there were any, what became of them |
| PolicyReplay.ReplayDetermined | python/tools/analyze_dspark_policy_trace.py:736-767 | the policy, its initial state and the records determine every decision of a run |

## Left out

- JSON encoding, real hash functions, regular-expression engines and tensors: abstract values, injective digests and a
  hand-written parser stand in for them. File sizes follow from contents and are not modelled beside the hashes.
- The hexadecimal form of digests, the six digits of a layer number in a directory name, the constant schema, version
  and hash-algorithm fields of manifests, and symbolic links or foreign entries in the directories: the source rejects
  them field by field.
- Python's equality of `True`, `1` and `1.0` in stored metadata: flags and numbers are different values here.
- ReplayMetadata.IdentityInjective: a dictionary with the fields of a tensor's identity (kind, shape, dtype, bytes and
  digest) is told apart from that tensor here; in the source the two have the same identity.
- Validation of the replay manifest that a direct replay brings: its shards are taken to be what it says.
- The file system: a rename is atomic and an entry that was synced stays; partial writes leave arbitrary contents. The
  directory above the output and the run state of the upgrades and the export are taken to be durable.
- Syncs of the run state by code outside this repository while a session runs: the parent that is synced when an adopted
  replay is removed (quantization/glm52_layer_boundary_store.py:1507) is the run state only if that code puts replay
  roots directly under it.
- Directory order: where the source removes older boundaries or temporary directories in listing order, the model
  removes them in any order.
- Temporary files left inside the run state or the upgrade history by a kill within one atomic JSON write: its replacement
  and its sync are the steps. Inside a boundary or an export stage they only ever lie in directories that are discarded.
- BoundaryStore.Store.Learn: the projection store and the journal are a growing collection of records; their own files,
  the Hessian metrics and the packed tensors are not modelled, and a power loss takes none of it.
- BoundaryRun.Run.Session: what a layer computes is an arbitrary function of its inputs and the replay metadata, the same
  in every session and whether the layer is quantized or installed from its checkpoints; device memory, the offloading
  of layers and the notification hooks are left out; the stop after a requested layer is an outcome.
- ExportPublication.Publication.PublishExport: normalization and the quantization contract are arbitrary functions of the
  payload files; which configuration fields they read is not modelled. Validation without file hashes, which the
  publication runs on the files it just hashed, is modelled with them.
- ExportPublication.Publication.Save: how the model library writes its files is not modelled; none is taken to be synced.
- ExportPublication.Publication.Prepare: the plan, journal and directory checks of a resume, and the creation of a fresh
  run state, are not modelled.
- ProjectionNames.ExportTensorCount: shapes and dtypes of the exported tensors are not modelled.
- CompletionWait.PollWithTimeout: clocks become a number of busy passes and a blocking wait that times out when no event
  comes; failures of the verbs calls themselves, error events on a channel and the poll counter are left out.
- RowAllToAll.PostRows: NCCL calls that fail, null handles and the stream are left out; a communicator has at least two
  ranks, as its creation demands.
- BiasFit.FitCurrentScalarBias: arithmetic is over the reals; floating-point rounding is not modelled. The prior
  precision is positive and the bias limit not negative, as the policy that calls the fit sets them.
- PolicyReplay.ReplaySequence: the acceptance recorded at a frontier that does not end its request is taken to be the
  true match length of its proposal against the target stream; reading and labelling trace files is not modelled.
- SampleRanges.RangesAreDisjoint: the quotient that is rounded is exact, not a floating-point number.
- The Newton fit of the legacy policy, the position-gradient and residual policies' own arithmetic, calibration
  summaries and report formatting.
- SafetensorsLayout.CheckShard: the comparison of a shard's names with the index file, and the other shards of an export.
- NCCL gather and broadcast, endpoint setup, the grammar adapter, provenance, preflight and the benchmark's timing:
  field checks or foreign calls.
