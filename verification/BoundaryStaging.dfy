/** What a commit checks and what it writes, step by step. */
module BoundaryStaging {
  import opened Options
  import opened Sorting
  import opened ReplayMetadata
  import opened ProjectionNames
  import opened ProjectionIndex
  import opened BoundaryManifest
  import opened BoundaryDisk

  /** What one commit is asked to store. `replayed` says that the outputs are durable replay shards that only
      need linking. */
  datatype Request = Request(
    layer: int, layerName: string, outputs: seq<seq<Tensor>>, replayed: bool, replay: Replay, entries: seq<Entry>)

  datatype Ending = Done(body: Body) | Rejected | Killed

  predicate Primary(outputs: seq<Tensor>, config: Config) {
    |outputs| == 1 && GoodGeometry(outputs[0].shape, outputs[0].dtype, config)
  }

  const NO_TENSOR := Tensor([], BFloat16, [])

  /** The output of each batch, in batch order. */
  function Primaries(outputs: seq<seq<Tensor>>): (r: seq<Tensor>)
    ensures |r| == |outputs|
    ensures forall i | 0 <= i < |outputs| && |outputs[i]| == 1 :: r[i] == outputs[i][0]
  {
    seq(|outputs|, i requires 0 <= i < |outputs| => if |outputs[i]| == 1 then outputs[i][0] else NO_TENSOR)
  }

  predicate AllPrimary(outputs: seq<seq<Tensor>>, config: Config) {
    forall i | 0 <= i < |outputs| :: Primary(outputs[i], config)
  }

  predicate HasStates(r: Replay) {
    forall i | 0 <= i < |r.kwargs| :: StateOf(r.kwargs[i]).Some?
  }

  /** The recurrent state of each batch, in batch order. */
  function StatesOf(r: Replay): (states: seq<Tensor>)
    ensures |states| == |r.kwargs|
    ensures forall i | 0 <= i < |r.kwargs| && StateOf(r.kwargs[i]).Some? :: Some(states[i]) == StateOf(r.kwargs[i])
  {
    seq(|r.kwargs|, i requires 0 <= i < |r.kwargs| => StateOf(r.kwargs[i]).GetOr(NO_TENSOR))
  }

  /** The layer that may be committed next. */
  function NextLayer(top: Top, scope: Scope): nat {
    if top == -1 then scope.first else top + 1
  }

  /** The checks before anything is written, other than contiguity. */
  predicate Checked(q: Request, config: Config, evidence: Evidence) {
    && config.scope.first <= q.layer <= config.scope.last
    && q.outputs != []
    && ValidateEntries(q.layer, q.entries, config.scope, evidence).Some?
    && ReplayIdentityOf(q.replay).Some? && StaticIdentityOf(q.replay).Some?
    && |q.replay.kwargs| == |q.outputs|
  }

  /** The checks made while writing. */
  predicate Writable(q: Request, config: Config) {
    AllPrimary(q.outputs, config) && HasStates(q.replay)
  }

  /** A request that a commit accepts on top of `top`. */
  predicate Admissible(q: Request, top: Top, config: Config, evidence: Evidence) {
    Checked(q, config, evidence) && Writable(q, config) && q.layer == NextLayer(top, config.scope)
  }

  /** An output is one tensor in BF16, of the demanded rank and with the hidden size as its last dimension. */
  lemma PrimaryIff(outputs: seq<Tensor>, config: Config)
    ensures Primary(outputs, config) <==>
              exists front: seq<nat>, payload: seq<bv8> ::
                |front| + 1 == config.activationRank
                && outputs == [Tensor(front + [config.hiddenSize], BFloat16, payload)]
  {
    if Primary(outputs, config) {
      var t := outputs[0];
      var front := t.shape[..|t.shape| - 1];
      assert t.shape == front + [config.hiddenSize];
      assert outputs == [Tensor(front + [config.hiddenSize], BFloat16, t.payload)];
    }
  }

  /** A commit takes exactly the next routed layer with at least one batch, one such output and one recurrent state per
      batch, replay metadata that have an identity, and backed projections that name every module of the layer once. The
      static identity needs no check of its own, and the projections come in any order. */
  lemma AdmissibleIff(q: Request, top: Top, config: Config, evidence: Evidence)
    ensures Admissible(q, top, config, evidence) <==>
              && q.layer == (if top == -1 then config.scope.first else top + 1)
              && config.scope.first <= q.layer <= config.scope.last
              && |q.outputs| == |q.replay.kwargs| > 0
              && (forall i | 0 <= i < |q.outputs| :: Primary(q.outputs[i], config))
              && (forall i | 0 <= i < |q.replay.kwargs| :: StateOf(q.replay.kwargs[i]).Some?)
              && ReplayIdentityOf(q.replay).Some?
              && DistinctNames(q.entries) && Names(q.entries) == ExpectedModules(q.layer, config.scope.experts)
              && forall e | e in q.entries :: Backed(e, q.layer, config.scope, evidence)
  {
    hide ReplayIdentityOf, StaticIdentityOf, Backed, ValidateEntries, Names, DistinctNames, Primary;
    if 0 <= q.layer {
      ValidEntriesIff(q.layer, q.entries, config.scope, evidence);
    }
    if HasStates(q.replay) {
      StaticImpliesFull(q.replay, StatesOf(q.replay));
    }
  }

  /** The boundary that an accepted request describes. */
  function BoundaryOf(q: Request, index: seq<Entry>, config: Config, evidence: Evidence): Boundary
    requires Checked(q, config, evidence) && Writable(q, config)
  {
    Boundary(q.layer, q.layerName, Primaries(q.outputs), StatesOf(q.replay), q.replay,
             ValidateEntries(q.layer, q.entries, config.scope, evidence).value, index)
  }

  lemma BoundaryWellFormed(q: Request, index: seq<Entry>, config: Config, evidence: Evidence)
    requires Checked(q, config, evidence) && Writable(q, config)
    requires IsIndex(q.layer, index, config.scope) && AllBacked(index, config.scope, evidence)
    ensures WellFormed(BoundaryOf(q, index, config, evidence), config, evidence)
  {
    ValidLayerIff(q.layer, q.entries, config.scope, evidence);
    var b := BoundaryOf(q, index, config, evidence);
    forall i | 0 <= i < |b.outputs| ensures GoodGeometry(b.outputs[i].shape, b.outputs[i].dtype, config) {
      assert Primary(q.outputs[i], config);
    }
  }

  /** One output per batch, in batch order. */
  predicate AreOutputs(tensors: seq<Tensor>, outputs: seq<seq<Tensor>>) {
    |tensors| == |outputs| && forall i | 0 <= i < |outputs| :: outputs[i] == [tensors[i]]
  }

  lemma PrimariesAreOutputs(outputs: seq<seq<Tensor>>, config: Config)
    requires AllPrimary(outputs, config)
    ensures AreOutputs(Primaries(outputs), outputs)
  {
    forall i | 0 <= i < |outputs| ensures outputs[i] == [Primaries(outputs)[i]] {
      assert Primary(outputs[i], config);
    }
  }

  /** A manifest that names this request: its layer, its replay metadata and its projections. */
  ghost predicate Describes(m: Manifest, q: Request, config: Config) {
    && m.digest == BodySha(m.body)
    && m.body.plan == config.plan && m.body.layer == q.layer && m.body.layerName == q.layerName
    && m.body.batches == |q.outputs|
    && Some(m.body.metadata) == ReplayIdentityOf(q.replay)
    && Some(m.body.staticMetadata) == StaticIdentityOf(q.replay)
    && forall e :: e in m.body.entries <==> e in q.entries
  }

  /** A directory that stores this request: batch by batch its one output, of the geometry that the run demands, and
      its recurrent state, and the manifest that names it. */
  ghost predicate Stores(files: Files, q: Request, config: Config) {
    && |q.outputs| == |q.replay.kwargs|
    && (forall i | 0 <= i < |q.outputs| ::
          && |q.outputs[i]| == 1
          && Activation(i) in files && files[Activation(i)] == Shard(map[Hidden := q.outputs[i][0]])
          && var t := q.outputs[i][0];
             t.dtype.BFloat16? && |t.shape| == config.activationRank > 0 && t.shape[|t.shape| - 1] == config.hiddenSize)
    && (forall i | 0 <= i < |q.outputs| ::
          && PrevTopkIndices in q.replay.kwargs[i] && q.replay.kwargs[i][PrevTopkIndices].TensorValue?
          && ReplayState(i) in files
          && files[ReplayState(i)] == Shard(map[PrevTopkIndices := q.replay.kwargs[i][PrevTopkIndices].tensor]))
    && (forall i: nat | Activation(i) in files || ReplayState(i) in files :: i < |q.outputs|)
    && ManifestPath in files && files[ManifestPath].ManifestFile? && Describes(files[ManifestPath].manifest, q, config)
  }

  lemma BuiltStores(files: Files, name: Name, q: Request, index: seq<Entry>, config: Config, evidence: Evidence)
    requires Checked(q, config, evidence) && Writable(q, config)
    requires BuiltFrom(files, name, BoundaryOf(q, index, config, evidence), config, evidence)
    ensures name.Committed? && name.layer == q.layer && Stores(files, q, config)
  {
    SortPermutes(q.entries);
    assert forall i | 0 <= i < |q.outputs| :: Primary(q.outputs[i], config);
    assert forall i | 0 <= i < |q.replay.kwargs| :: StateOf(q.replay.kwargs[i]).Some?;
    assert Describes(files[ManifestPath].manifest, q, config);
  }

  /** A directory that stores these outputs and this replay for this layer. */
  ghost predicate Keeps(files: Files, layer: int, outputs: seq<seq<Tensor>>, replay: Replay, config: Config) {
    exists q: Request :: q.layer == layer && q.outputs == outputs && q.replay == replay && Stores(files, q, config)
  }

  /** One list of tensors per batch, as a loaded boundary hands them on. */
  function Batches(tensors: seq<Tensor>): (outputs: seq<seq<Tensor>>)
    ensures AreOutputs(tensors, outputs)
  {
    seq(|tensors|, i requires 0 <= i < |tensors| => [tensors[i]])
  }

  lemma BatchesOf(tensors: seq<Tensor>, outputs: seq<seq<Tensor>>)
    requires AreOutputs(tensors, outputs)
    ensures Batches(tensors) == outputs
  {}

  lemma SameTensor(field: Field, a: Tensor, b: Tensor)
    requires map[field := a] == map[field := b]
    ensures a == b
  {
    assert map[field := a][field] == map[field := b][field];
  }

  /** A directory tells which outputs and which replay it was built from. */
  lemma StoredIsBuilt(files: Files, name: Name, b: Boundary, q: Request, config: Config, evidence: Evidence)
    requires BuiltFrom(files, name, b, config, evidence) && Stores(files, q, config)
    ensures AreOutputs(b.outputs, q.outputs) && b.replay == q.replay
  {
    hide ReplayIdentityOf, StaticIdentityOf, CarriesStates, IsLayer, IsIndex, AllBacked, GoodGeometry;
    forall i | 0 <= i < |b.outputs| ensures q.outputs[i] == [b.outputs[i]] {
      assert files[Activation(i)] == ActivationContent(b.outputs[i]);
      SameTensor(Hidden, b.outputs[i], q.outputs[i][0]);
    }
    ReplayIdentityInjective(b.replay, q.replay);
  }

  /** Whatever is kept is what a reader gets, whatever recurrent state it came with. */
  lemma KeptIsLoaded(files: Files, name: Name, current: Replay, r: Loaded, layer: int, outputs: seq<seq<Tensor>>,
                     replay: Replay, config: Config, evidence: Evidence)
    requires Keeps(files, layer, outputs, replay, config)
    requires ReadsCommitted(files, name, current, r, config, evidence) && r.Loaded?
    ensures Batches(r.outputs) == outputs && r.replay == replay
  {
    hide Stores, Written, SameButState, BodyOf, IsLayer, IsIndex, AllBacked;
    var q: Request :| q.layer == layer && q.outputs == outputs && q.replay == replay && Stores(files, q, config);
    var b :| BuiltFrom(files, name, b, config, evidence)
             && r == if SameButState(current, b.replay)
                     then Loaded(b.layer, b.layerName, b.outputs, b.index, BodySha(BodyOf(b, config)), b.replay)
                     else Refused;
    StoredIsBuilt(files, name, b, q, config, evidence);
    BatchesOf(b.outputs, outputs);
  }

  /** Every directory that stores this request meets the expectation. */
  ghost predicate Meets(q: Request, config: Config, expected: Expectation) {
    forall n: Name, files | n.Committed? && n.layer == q.layer && Stores(files, q, config) :: expected(n, files)
  }

  /** A directory in which a commit has written and synced some shards. */
  ghost predicate Staged(d: Directory, outputs: seq<Tensor>, states: seq<Tensor>, a: nat, s: nat)
    requires a <= |outputs| && s <= |states|
  {
    && !d.doomed
    && Written(Contents(d), outputs, states, a, s, None)
    && forall p | p in d.files :: d.files[p].dataSynced
  }

  function AddFile(d: Directory, p: Path, content: Content, synced: bool): Directory {
    d.(files := d.files[p := File(content, synced, false)])
  }

  /** `fsync` of one file. */
  function SyncFile(d: Directory, p: Path): Directory
    requires p in d.files
  {
    d.(files := d.files[p := d.files[p].(dataSynced := true)])
  }

  datatype Place = TopLevel | ActivationFolder | StateFolder

  predicate Resides(p: Path, place: Place) {
    match place
    case TopLevel => p.ManifestPath?
    case ActivationFolder => p.Activation?
    case StateFolder => p.ReplayState?
  }

  /** `fsync` of a directory: the entries in it are durable. */
  function SyncEntries(d: Directory, place: Place): Directory {
    d.(files := map p | p in d.files ::
         if Resides(p, place) then d.files[p].(entrySynced := true) else d.files[p],
       subdirectoriesSynced := d.subdirectoriesSynced || place.TopLevel?)
  }

  lemma NothingStaged(outputs: seq<Tensor>)
    ensures Staged(Directory(map[], false, false), outputs, [], 0, 0)
  {}

  lemma StageActivation(d: Directory, outputs: seq<Tensor>, states: seq<Tensor>, a: nat)
    requires a < |outputs| && Staged(d, outputs, states, a, 0)
    ensures Staged(SyncFile(AddFile(d, Activation(a), ActivationContent(outputs[a]), false), Activation(a)),
                   outputs, states, a + 1, 0)
    ensures Staged(AddFile(d, Activation(a), ActivationContent(outputs[a]), true), outputs, states, a + 1, 0)
  {}

  lemma StageState(d: Directory, outputs: seq<Tensor>, states: seq<Tensor>, s: nat)
    requires s < |states| && Staged(d, outputs, states, |outputs|, s)
    ensures Staged(SyncFile(AddFile(d, ReplayState(s), StateContent(states[s]), false), ReplayState(s)),
                   outputs, states, |outputs|, s + 1)
  {}

  lemma NoStatesYet(d: Directory, outputs: seq<Tensor>, states: seq<Tensor>)
    requires Staged(d, outputs, [], |outputs|, 0)
    ensures Staged(d, outputs, states, |outputs|, 0)
  {}

  /** Both folders, the manifest and the directory itself are synced. */
  function Finish(d: Directory, m: Manifest): Directory {
    var folders := SyncEntries(SyncEntries(d, ActivationFolder), StateFolder);
    SyncEntries(AddFile(folders, ManifestPath, ManifestFile(m), true), TopLevel)
  }

  lemma FinishedContents(d: Directory, m: Manifest)
    requires !d.doomed && forall p | p in d.files :: d.files[p].dataSynced
    ensures Contents(Finish(d, m)) == Contents(d)[ManifestPath := ManifestFile(m)]
    ensures Sealed(Finish(d, m))
  {
    var f := Finish(d, m);
    assert f.files.Keys == d.files.Keys + {ManifestPath};
  }

  lemma FinishedIsBuilt(d: Directory, b: Boundary, config: Config, evidence: Evidence)
    requires WellFormed(b, config, evidence)
    requires Staged(d, b.outputs, b.states, |b.outputs|, |b.states|)
    ensures var f := Finish(d, ManifestOf(BodyOf(b, config)));
            BuiltFrom(Contents(f), NameOf(BodyOf(b, config), config), b, config, evidence) && Sealed(f)
  {
    FinishedContents(d, ManifestOf(BodyOf(b, config)));
  }

  /** A finished directory is complete, holds what is expected of the boundary, and survives anything. */
  lemma FinishedIsGood(d: Directory, q: Request, index: seq<Entry>, config: Config, evidence: Evidence,
                       expected: Expectation)
    requires Checked(q, config, evidence) && Writable(q, config) && Meets(q, config, expected)
    requires IsIndex(q.layer, index, config.scope) && AllBacked(index, config.scope, evidence)
    requires Staged(d, Primaries(q.outputs), StatesOf(q.replay), |q.outputs|, |q.replay.kwargs|)
    ensures var b := BoundaryOf(q, index, config, evidence);
            var name, f := NameOf(BodyOf(b, config), config), Finish(d, ManifestOf(BodyOf(b, config)));
            && BuiltFrom(Contents(f), name, b, config, evidence)
            && Good(name, f, IntactIn(config, evidence, expected))
  {
    hide Checked, Writable, Stores, Sealed, BuiltFrom, Staged, Finish;
    BoundaryWellFormed(q, index, config, evidence);
    var b := BoundaryOf(q, index, config, evidence);
    FinishedIsBuilt(d, b, config, evidence);
    BuiltStores(Contents(Finish(d, ManifestOf(BodyOf(b, config)))), NameOf(BodyOf(b, config), config), q, index, config,
                evidence);
  }

  /** Every sync of a commit counts: without that of one folder its shards may be lost, and without that of the
      directory every file of it may be. */
  lemma EverySyncCounts(d: Directory, m: Manifest, p: Path)
    requires !d.doomed && !d.subdirectoriesSynced && p in d.files
    requires !p.ManifestPath? && !d.files[p].entrySynced
    ensures !FileDurable(SyncEntries(AddFile(SyncEntries(d, if p.Activation? then StateFolder else ActivationFolder),
                                             ManifestPath, ManifestFile(m), true), TopLevel), p)
    ensures var unsynced := AddFile(SyncEntries(SyncEntries(d, ActivationFolder), StateFolder), ManifestPath,
                                    ManifestFile(m), true);
            !FileDurable(unsynced, p) && !FileDurable(unsynced, ManifestPath)
    ensures d.files[p].dataSynced <==> FileDurable(Finish(d, m), p)
  {}
}
