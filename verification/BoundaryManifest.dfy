/** What a layer boundary holds on disk, what a manifest says about it, and how it is read back. */
module BoundaryManifest {
  import opened Options
  import opened ReplayMetadata
  import opened ProjectionNames
  import opened ProjectionIndex

  datatype Path = ManifestPath | Activation(batch: nat) | ReplayState(batch: nat)

  /** The xxh3 of a shard: distinct contents have distinct hashes. */
  datatype ShardHash = Xxh(tensors: map<Field, Tensor>)

  datatype ActivationRecord = ActivationRecord(file: Path, hash: ShardHash, spec: TensorSpec)
  datatype StateRecord = StateRecord(file: Path, hash: ShardHash, specs: map<Field, TensorSpec>)

  datatype Body = Body(
    plan: string, layer: nat, layerName: string, hiddenSize: nat, activationRank: nat, first: nat, last: nat,
    batches: nat, activationBytes: nat, shards: seq<ActivationRecord>,
    metadata: ReplayIdentity, staticMetadata: ReplayIdentity, stateFields: seq<Field>,
    stateBytes: nat, stateShards: seq<StateRecord>, entries: seq<Entry>, index: seq<Entry>)

  /** The SHA-256 of a manifest body. */
  datatype BodyDigest = BodySha(body: Body)

  datatype Manifest = Manifest(body: Body, digest: BodyDigest)

  datatype Content = Shard(tensors: map<Field, Tensor>) | ManifestFile(manifest: Manifest) | Garbage

  /** A committed directory is named by its layer and the leading digits of its manifest digest. */
  datatype Name = Temporary(layer: nat, salt: nat) | Committed(layer: nat, tag: string)

  /** What one run fixes. `tag` takes the leading digits of a digest and need not be injective. */
  datatype Config = Config(plan: string, hiddenSize: nat, activationRank: nat, scope: Scope, tag: BodyDigest -> string)

  type Files = map<Path, Content>

  const STATE_FIELDS := [PrevTopkIndices]

  /** Geometry that the writer and the reader demand of an activation. */
  predicate GoodGeometry(shape: seq<nat>, dtype: DType, config: Config) {
    dtype == BFloat16 && |shape| == config.activationRank && shape != [] && shape[|shape| - 1] == config.hiddenSize
  }

  function ActivationContent(t: Tensor): Content {
    Shard(map[Hidden := t])
  }

  function StateContent(t: Tensor): Content {
    Shard(map[PrevTopkIndices := t])
  }

  function RecordActivation(batch: nat, t: Tensor): ActivationRecord {
    ActivationRecord(Activation(batch), Xxh(map[Hidden := t]), SpecOf(t))
  }

  function RecordState(batch: nat, t: Tensor): StateRecord {
    StateRecord(ReplayState(batch), Xxh(map[PrevTopkIndices := t]), map[PrevTopkIndices := SpecOf(t)])
  }

  function ActivationRecords(outputs: seq<Tensor>): seq<ActivationRecord> {
    seq(|outputs|, i requires 0 <= i < |outputs| => RecordActivation(i, outputs[i]))
  }

  function StateRecords(states: seq<Tensor>): seq<StateRecord> {
    seq(|states|, i requires 0 <= i < |states| => RecordState(i, states[i]))
  }

  function TotalBytes(tensors: seq<Tensor>): nat {
    if tensors == [] then 0 else TotalBytes(tensors[..|tensors| - 1]) + |tensors[|tensors| - 1].payload|
  }

  /** The bytes of a list of tensors are the sum of the bytes of each. */
  lemma {:induction false} TotalBytesAdds(a: seq<Tensor>, b: seq<Tensor>)
    ensures TotalBytes(a + b) == TotalBytes(a) + TotalBytes(b)
    ensures forall t :: TotalBytes([t]) == |t.payload|
  {
    if b == [] {
      assert a + b == a;
    } else {
      TotalBytesAdds(a, b[..|b| - 1]);
      assert (a + b)[..|a + b| - 1] == a + b[..|b| - 1];
    }
  }

  /** Everything that one commit writes. */
  datatype Boundary = Boundary(
    layer: nat, layerName: string, outputs: seq<Tensor>, states: seq<Tensor>, replay: Replay,
    entries: seq<Entry>, index: seq<Entry>)

  /** A boundary that a commit may write: one output and one state per batch, complete evidence and index. */
  ghost predicate WellFormed(b: Boundary, config: Config, evidence: Evidence) {
    && config.scope.first <= b.layer <= config.scope.last
    && b.outputs != [] && |b.outputs| == |b.states|
    && (forall i | 0 <= i < |b.outputs| :: GoodGeometry(b.outputs[i].shape, b.outputs[i].dtype, config))
    && CarriesStates(b.replay, b.states)
    && StaticIdentityOf(b.replay).Some? && ReplayIdentityOf(b.replay).Some?
    && IsLayer(b.layer, b.entries, config.scope, evidence)
    && IsIndex(b.layer, b.index, config.scope)
    && AllBacked(b.index, config.scope, evidence)
  }

  function BodyOf(b: Boundary, config: Config): Body
    requires StaticIdentityOf(b.replay).Some? && ReplayIdentityOf(b.replay).Some?
  {
    Body(config.plan, b.layer, b.layerName, config.hiddenSize, config.activationRank, config.scope.first,
         config.scope.last, |b.outputs|, TotalBytes(b.outputs), ActivationRecords(b.outputs),
         ReplayIdentityOf(b.replay).value, StaticIdentityOf(b.replay).value, STATE_FIELDS, TotalBytes(b.states),
         StateRecords(b.states), b.entries, b.index)
  }

  function ManifestOf(body: Body): Manifest {
    Manifest(body, BodySha(body))
  }

  function NameOf(body: Body, config: Config): Name {
    Committed(body.layer, config.tag(BodySha(body)))
  }

  /** The first `a` activation shards, the first `s` state shards, and the manifest if there is one. */
  ghost predicate Written(files: Files, outputs: seq<Tensor>, states: seq<Tensor>, a: nat, s: nat,
                          manifest: Option<Manifest>)
    requires a <= |outputs| && s <= |states|
  {
    && (forall i | 0 <= i < a :: Activation(i) in files && files[Activation(i)] == ActivationContent(outputs[i]))
    && (forall i | 0 <= i < s :: ReplayState(i) in files && files[ReplayState(i)] == StateContent(states[i]))
    && (forall p | p in files && p.Activation? :: p.batch < a)
    && (forall p | p in files && p.ReplayState? :: p.batch < s)
    && (manifest.Some? <==> ManifestPath in files)
    && (manifest.Some? ==> files[ManifestPath] == ManifestFile(manifest.value))
  }

  /** The complete directory of one boundary. */
  ghost predicate BuiltFrom(files: Files, name: Name, b: Boundary, config: Config, evidence: Evidence) {
    && WellFormed(b, config, evidence)
    && name == NameOf(BodyOf(b, config), config)
    && Written(files, b.outputs, b.states, |b.outputs|, |b.states|, Some(ManifestOf(BodyOf(b, config))))
  }

  /** Some commit completed this directory. */
  ghost predicate Intact(files: Files, name: Name, config: Config, evidence: Evidence) {
    exists b :: BuiltFrom(files, name, b, config, evidence)
  }

  /** What a run expects of every directory that it commits. */
  type Expectation = (Name, Files) -> bool

  /** Completeness as the disk sees it: a property of a directory's name and files. */
  ghost function IntactIn(config: Config, evidence: Evidence, expected: Expectation): (Name, Files) -> bool {
    (name: Name, files: Files) => Intact(files, name, config, evidence) && expected(name, files)
  }

  /** More evidence never spoils a complete directory. */
  lemma IntactPersists(files: Files, name: Name, config: Config, before: Evidence, after: Evidence)
    requires Intact(files, name, config, before) && Extends(before, after)
    ensures Intact(files, name, config, after)
  {
    var b :| BuiltFrom(files, name, b, config, before);
    LayerPersists(b.layer, b.entries, config.scope, before, after);
    BackedPersists(b.index, config.scope, before, after);
    assert BuiltFrom(files, name, b, config, after);
  }

  /** `_read_manifest`: the manifest authenticates itself, its directory and its run. */
  function ReadManifest(files: Files, name: Name, config: Config): (r: Option<Body>)
    ensures r.Some? ==>
              && ManifestPath in files && files[ManifestPath] == ManifestFile(ManifestOf(r.value))
              && name == NameOf(r.value, config)
              && r.value.plan == config.plan && r.value.first == config.scope.first && r.value.last == config.scope.last
              && r.value.hiddenSize == config.hiddenSize && r.value.activationRank == config.activationRank
  {
    if ManifestPath !in files || !files[ManifestPath].ManifestFile? then None
    else
      var m := files[ManifestPath].manifest;
      var body := m.body;
      if && body.plan == config.plan && body.hiddenSize == config.hiddenSize
         && body.activationRank == config.activationRank
         && body.first == config.scope.first && body.last == config.scope.last
         && m.digest == BodySha(body)
         && name.Committed? && name.tag == config.tag(m.digest) && name.layer == body.layer
      then Some(body) else None
  }

  /** One activation shard of the reading loop. */
  function ReadActivation(files: Files, record: ActivationRecord, config: Config): Option<Tensor> {
    if record.file !in files || !files[record.file].Shard? then None
    else
      var tensors := files[record.file].tensors;
      if Xxh(tensors) != record.hash || tensors.Keys != {Hidden} then None
      else
        var hidden := tensors[Hidden];
        if SpecOf(hidden) == record.spec && GoodGeometry(hidden.shape, hidden.dtype, config) then Some(hidden) else None
  }

  /** One state shard of the reading loop. */
  function ReadState(files: Files, record: StateRecord): Option<Tensor> {
    if record.specs.Keys != {PrevTopkIndices} || record.file !in files || !files[record.file].Shard? then None
    else
      var tensors := files[record.file].tensors;
      if Xxh(tensors) != record.hash || tensors.Keys != {PrevTopkIndices} then None
      else if SpecOf(tensors[PrevTopkIndices]) == record.specs[PrevTopkIndices] then Some(tensors[PrevTopkIndices])
      else None
  }

  function ReadActivations(files: Files, records: seq<ActivationRecord>, config: Config): (r: Option<seq<Tensor>>)
    ensures r.Some? ==> |r.value| == |records|
  {
    if records == [] then Some([])
    else
      var front := ReadActivations(files, records[..|records| - 1], config);
      var last := ReadActivation(files, records[|records| - 1], config);
      if front.Some? && last.Some? then Some(front.value + [last.value]) else None
  }

  function ReadStates(files: Files, records: seq<StateRecord>): (r: Option<seq<Tensor>>)
    ensures r.Some? ==> |r.value| == |records|
  {
    if records == [] then Some([])
    else
      var front := ReadStates(files, records[..|records| - 1]);
      var last := ReadState(files, records[|records| - 1]);
      if front.Some? && last.Some? then Some(front.value + [last.value]) else None
  }

  function ActivationFiles(records: seq<ActivationRecord>): set<Path> {
    set r | r in records :: r.file
  }

  function StateFiles(records: seq<StateRecord>): set<Path> {
    set r | r in records :: r.file
  }

  /** The directory holds the listed files, each listed once, and no others. */
  predicate FileSetAgrees(files: Files, shards: seq<ActivationRecord>, stateShards: seq<StateRecord>) {
    var expected := {ManifestPath} + ActivationFiles(shards) + StateFiles(stateShards);
    |expected| == |shards| + |stateShards| + 1 && files.Keys == expected
  }

  /** The directory holds the manifest and the listed files, and as many files as are listed. */
  lemma FileSetAgreesIff(files: Files, shards: seq<ActivationRecord>, stateShards: seq<StateRecord>)
    ensures FileSetAgrees(files, shards, stateShards) <==>
              && |files| == 1 + |shards| + |stateShards|
              && forall p :: p in files <==>
                   p == ManifestPath || (exists s :: s in shards && s.file == p)
                   || exists s :: s in stateShards && s.file == p
  {
    var expected := {ManifestPath} + ActivationFiles(shards) + StateFiles(stateShards);
    assert |files| == |files.Keys|;
    forall p ensures p in expected <==>
                       p == ManifestPath || (exists s :: s in shards && s.file == p)
                       || exists s :: s in stateShards && s.file == p {}
    if forall p :: p in files <==> p in expected {
      assert files.Keys == expected;
    }
  }

  datatype Loaded =
    | Loaded(layer: nat, layerName: string, outputs: seq<Tensor>, index: seq<Entry>, digest: BodyDigest, replay: Replay)
    | Refused

  /** The checks of `load_latest` on the manifest alone. */
  predicate ManifestAccepted(body: Body, current: Replay, config: Config, evidence: Evidence) {
    && StaticIdentityOf(current) == Some(body.staticMetadata)
    && ValidateEntries(body.layer, body.entries, config.scope, evidence).Some?
    && ValidateIndex(body.layer, body.index, config.scope).Some?
    && body.shards != []
    && body.stateFields == STATE_FIELDS && |body.stateShards| == |body.shards|
  }

  /** The end of `load_latest`: totals, refilled arguments and the final metadata check. */
  function Assemble(body: Body, current: Replay, outputs: seq<Tensor>, states: seq<Tensor>, config: Config): Loaded {
    if |outputs| != body.batches || TotalBytes(outputs) != body.activationBytes then Refused
    else if TotalBytes(states) != body.stateBytes || |states| != |current.kwargs| then Refused
    else if ReplayIdentityOf(Refill(current, states)) != Some(body.metadata) then Refused
    else
      var index := ValidateIndex(body.layer, body.index, config.scope);
      if index.None? then Refused
      else Loaded(body.layer, body.layerName, outputs, index.value, BodySha(body), Refill(current, states))
  }

  /** `load_latest` on one directory. */
  function Load(files: Files, name: Name, current: Replay, config: Config, evidence: Evidence): Loaded {
    var manifest := ReadManifest(files, name, config);
    if manifest.None? then Refused
    else
      var body := manifest.value;
      if !ManifestAccepted(body, current, config, evidence) then Refused
      else if !FileSetAgrees(files, body.shards, body.stateShards) then Refused
      else
        var outputs := ReadActivations(files, body.shards, config);
        var states := ReadStates(files, body.stateShards);
        if outputs.None? || states.None? then Refused
        else Assemble(body, current, outputs.value, states.value, config)
  }

  lemma ReadsOneActivation(files: Files, outputs: seq<Tensor>, i: nat, config: Config)
    requires i < |outputs| && GoodGeometry(outputs[i].shape, outputs[i].dtype, config)
    requires Activation(i) in files && files[Activation(i)] == ActivationContent(outputs[i])
    ensures ReadActivation(files, ActivationRecords(outputs)[i], config) == Some(outputs[i])
  {}

  lemma ReadsOneState(files: Files, states: seq<Tensor>, i: nat)
    requires i < |states| && ReplayState(i) in files && files[ReplayState(i)] == StateContent(states[i])
    ensures ReadState(files, StateRecords(states)[i]) == Some(states[i])
  {}

  lemma {:induction false} ReadsBackActivations(files: Files, outputs: seq<Tensor>, n: nat, config: Config)
    requires n <= |outputs|
    requires forall i | 0 <= i < n :: GoodGeometry(outputs[i].shape, outputs[i].dtype, config)
    requires forall i | 0 <= i < n :: Activation(i) in files && files[Activation(i)] == ActivationContent(outputs[i])
    ensures ReadActivations(files, ActivationRecords(outputs)[..n], config) == Some(outputs[..n])
  {
    hide ReadActivation, GoodGeometry;
    if n > 0 {
      ReadsBackActivations(files, outputs, n - 1, config);
      var records := ActivationRecords(outputs)[..n];
      assert records[..n - 1] == ActivationRecords(outputs)[..n - 1];
      ReadsOneActivation(files, outputs, n - 1, config);
      assert outputs[..n] == outputs[..n - 1] + [outputs[n - 1]];
    }
  }

  lemma {:induction false} ReadsBackStates(files: Files, states: seq<Tensor>, n: nat)
    requires n <= |states|
    requires forall i | 0 <= i < n :: ReplayState(i) in files && files[ReplayState(i)] == StateContent(states[i])
    ensures ReadStates(files, StateRecords(states)[..n]) == Some(states[..n])
  {
    hide ReadState;
    if n > 0 {
      ReadsBackStates(files, states, n - 1);
      var records := StateRecords(states)[..n];
      assert records[..n - 1] == StateRecords(states)[..n - 1];
      ReadsOneState(files, states, n - 1);
      assert states[..n] == states[..n - 1] + [states[n - 1]];
    }
  }

  function Activations(n: nat): set<Path> {
    set i | 0 <= i < n :: Activation(i)
  }

  function States(n: nat): set<Path> {
    set i | 0 <= i < n :: ReplayState(i)
  }

  lemma {:induction false} ActivationCount(n: nat)
    ensures |Activations(n)| == n
  {
    if n > 0 {
      ActivationCount(n - 1);
      assert Activations(n) == Activations(n - 1) + {Activation(n - 1)};
    } else {
      assert Activations(n) == {};
    }
  }

  lemma {:induction false} StateCount(n: nat)
    ensures |States(n)| == n
  {
    if n > 0 {
      StateCount(n - 1);
      assert States(n) == States(n - 1) + {ReplayState(n - 1)};
    } else {
      assert States(n) == {};
    }
  }

  lemma RecordedFiles(outputs: seq<Tensor>, states: seq<Tensor>)
    ensures ActivationFiles(ActivationRecords(outputs)) == Activations(|outputs|)
    ensures StateFiles(StateRecords(states)) == States(|states|)
  {
    forall p ensures p in ActivationFiles(ActivationRecords(outputs)) <==> p in Activations(|outputs|) {
      if p in Activations(|outputs|) {
        assert ActivationRecords(outputs)[p.batch].file == p;
      }
    }
    forall p ensures p in StateFiles(StateRecords(states)) <==> p in States(|states|) {
      if p in States(|states|) {
        assert StateRecords(states)[p.batch].file == p;
      }
    }
  }

  lemma WrittenKeys(files: Files, outputs: seq<Tensor>, states: seq<Tensor>, m: Manifest)
    requires Written(files, outputs, states, |outputs|, |states|, Some(m))
    ensures files.Keys == {ManifestPath} + Activations(|outputs|) + States(|states|)
  {
    forall p ensures p in files.Keys <==> p in {ManifestPath} + Activations(|outputs|) + States(|states|) {
      match p
      case ManifestPath =>
      case Activation(i) =>
      case ReplayState(i) =>
    }
  }

  lemma DisjointPaths(a: set<Path>, s: set<Path>)
    requires (forall p | p in a :: p.Activation?) && (forall p | p in s :: p.ReplayState?)
    ensures |{ManifestPath} + a + s| == |a| + |s| + 1
  {
    assert {ManifestPath} !! a;
    assert |{ManifestPath} + a| == 1 + |a|;
    assert ({ManifestPath} + a) !! s;
  }

  lemma WrittenFileSet(files: Files, outputs: seq<Tensor>, states: seq<Tensor>, m: Manifest)
    requires Written(files, outputs, states, |outputs|, |states|, Some(m))
    ensures FileSetAgrees(files, ActivationRecords(outputs), StateRecords(states))
  {
    RecordedFiles(outputs, states);
    ActivationCount(|outputs|);
    StateCount(|states|);
    DisjointPaths(Activations(|outputs|), States(|states|));
    WrittenKeys(files, outputs, states, m);
  }

  lemma WrittenReadsBack(files: Files, outputs: seq<Tensor>, states: seq<Tensor>, m: Manifest, config: Config)
    requires Written(files, outputs, states, |outputs|, |states|, Some(m))
    requires forall i | 0 <= i < |outputs| :: GoodGeometry(outputs[i].shape, outputs[i].dtype, config)
    ensures ReadActivations(files, ActivationRecords(outputs), config) == Some(outputs)
    ensures ReadStates(files, StateRecords(states)) == Some(states)
  {
    ReadsBackActivations(files, outputs, |outputs|, config);
    ReadsBackStates(files, states, |states|);
    assert ActivationRecords(outputs)[..|outputs|] == ActivationRecords(outputs) && outputs[..|outputs|] == outputs;
    assert StateRecords(states)[..|states|] == StateRecords(states) && states[..|states|] == states;
  }

  lemma BuiltAccepted(b: Boundary, current: Replay, config: Config, evidence: Evidence)
    requires WellFormed(b, config, evidence) && SameButState(current, b.replay)
    ensures ManifestAccepted(BodyOf(b, config), current, config, evidence)
    ensures ValidateIndex(b.layer, b.index, config.scope) == Some(b.index)
  {
    hide IdentityOf;
    StaticIdentityIff(current, b.replay);
    ValidLayerIff(b.layer, b.entries, config.scope, evidence);
    ValidIndexIff(b.layer, b.index, config.scope);
  }

  lemma BuiltAssembles(b: Boundary, current: Replay, config: Config, evidence: Evidence)
    requires WellFormed(b, config, evidence) && SameButState(current, b.replay)
    ensures Assemble(BodyOf(b, config), current, b.outputs, b.states, config)
            == Loaded(b.layer, b.layerName, b.outputs, b.index, BodySha(BodyOf(b, config)), b.replay)
  {
    BuiltAccepted(b, current, config, evidence);
    RefillRestores(current, b.replay, b.states);
  }

  lemma BuiltManifest(files: Files, name: Name, b: Boundary, config: Config, evidence: Evidence)
    requires BuiltFrom(files, name, b, config, evidence)
    ensures ReadManifest(files, name, config) == Some(BodyOf(b, config))
  {}

  /** Commit then load is a round trip: a reader whose metadata are the committed ones, whatever recurrent state it
      holds, gets the committed layer, outputs in order, index and replay. */
  lemma LoadBuilt(files: Files, name: Name, b: Boundary, current: Replay, config: Config, evidence: Evidence)
    requires BuiltFrom(files, name, b, config, evidence)
    requires SameButState(current, b.replay)
    ensures Load(files, name, current, config, evidence)
            == Loaded(b.layer, b.layerName, b.outputs, b.index, BodySha(BodyOf(b, config)), b.replay)
  {
    hide SameButState;
    BuiltManifest(files, name, b, config, evidence);
    BuiltAccepted(b, current, config, evidence);
    WrittenFileSet(files, b.outputs, b.states, ManifestOf(BodyOf(b, config)));
    WrittenReadsBack(files, b.outputs, b.states, ManifestOf(BodyOf(b, config)), config);
    BuiltAssembles(b, current, config, evidence);
  }

  /** A reader with other positions, masks or arguments than the committed ones is refused. */
  lemma StaticMismatchRefused(files: Files, name: Name, b: Boundary, current: Replay, config: Config,
                              evidence: Evidence)
    requires BuiltFrom(files, name, b, config, evidence)
    requires !SameButState(current, b.replay)
    ensures Load(files, name, current, config, evidence) == Refused
  {
    hide SameButState;
    StaticIdentityIff(current, b.replay);
  }

  /** A directory that some commit completed was read as it was committed: by a reader with the committed metadata
      all of it, and by any other reader nothing. */
  ghost predicate ReadsCommitted(files: Files, name: Name, current: Replay, r: Loaded, config: Config,
                                 evidence: Evidence)
  {
    exists b :: BuiltFrom(files, name, b, config, evidence)
      && r == if SameButState(current, b.replay)
              then Loaded(b.layer, b.layerName, b.outputs, b.index, BodySha(BodyOf(b, config)), b.replay)
              else Refused
  }

  lemma {:induction false} ReadActivationsAuthentic(files: Files, records: seq<ActivationRecord>, config: Config,
                                                     i: nat)
    requires ReadActivations(files, records, config).Some? && i < |records|
    ensures ReadActivation(files, records[i], config) == Some(ReadActivations(files, records, config).value[i])
  {
    if i < |records| - 1 {
      ReadActivationsAuthentic(files, records[..|records| - 1], config, i);
    }
  }

  lemma ReadActivationHash(files: Files, record: ActivationRecord, config: Config)
    requires ReadActivation(files, record, config).Some?
    ensures record.hash == Xxh(map[Hidden := ReadActivation(files, record, config).value])
  {
    var tensors := files[record.file].tensors;
    assert tensors == map[Hidden := tensors[Hidden]];
  }

  lemma ReadActivationsHash(files: Files, records: seq<ActivationRecord>, config: Config)
    requires ReadActivations(files, records, config).Some?
    ensures var outputs := ReadActivations(files, records, config).value;
            forall i | 0 <= i < |records| ::
              records[i].hash == Xxh(map[Hidden := outputs[i]]) && records[i].spec == SpecOf(outputs[i])
              && GoodGeometry(outputs[i].shape, outputs[i].dtype, config)
  {
    forall i | 0 <= i < |records|
      ensures var output := ReadActivations(files, records, config).value[i];
              records[i].hash == Xxh(map[Hidden := output]) && records[i].spec == SpecOf(output)
              && GoodGeometry(output.shape, output.dtype, config)
    {
      ReadActivationsAuthentic(files, records, config, i);
      ReadActivationHash(files, records[i], config);
    }
  }

  lemma {:induction false} ReadStatesAuthentic(files: Files, records: seq<StateRecord>, i: nat)
    requires ReadStates(files, records).Some? && i < |records|
    ensures ReadState(files, records[i]) == Some(ReadStates(files, records).value[i])
    ensures var state := ReadStates(files, records).value[i];
            && records[i].hash == Xxh(map[PrevTopkIndices := state])
            && records[i].specs == map[PrevTopkIndices := SpecOf(state)]
  {
    if i < |records| - 1 {
      ReadStatesAuthentic(files, records[..|records| - 1], i);
    } else {
      var tensors, specs := files[records[i].file].tensors, records[i].specs;
      assert tensors == map[PrevTopkIndices := tensors[PrevTopkIndices]];
      assert specs == map[PrevTopkIndices := specs[PrevTopkIndices]];
    }
  }

  /** The replay that a load returns is the reader's own but for the recurrent states, and these are what the manifest
      hashes and describes. */
  ghost predicate StatesAuthentic(r: Replay, current: Replay, body: Body) {
    SameButState(r, current)
    && exists states ::
         && CarriesStates(r, states) && |states| == |body.stateShards| && TotalBytes(states) == body.stateBytes
         && forall i | 0 <= i < |states| ::
              && body.stateShards[i].hash == Xxh(map[PrevTopkIndices := states[i]])
              && body.stateShards[i].specs == map[PrevTopkIndices := SpecOf(states[i])]
  }

  lemma RefilledAuthentic(files: Files, current: Replay, body: Body)
    requires ReadStates(files, body.stateShards).Some? && |body.stateShards| == |current.kwargs|
    requires TotalBytes(ReadStates(files, body.stateShards).value) == body.stateBytes
    ensures StatesAuthentic(Refill(current, ReadStates(files, body.stateShards).value), current, body)
  {
    hide ReadStates;
    var states := ReadStates(files, body.stateShards).value;
    forall i | 0 <= i < |states|
      ensures body.stateShards[i].hash == Xxh(map[PrevTopkIndices := states[i]])
      ensures body.stateShards[i].specs == map[PrevTopkIndices := SpecOf(states[i])]
    {
      ReadStatesAuthentic(files, body.stateShards, i);
    }
    assert CarriesStates(Refill(current, states), states);
  }

  /** The manifest of a directory that loads belongs to this run, and its evidence is complete and backed. */
  ghost predicate ManifestAuthentic(body: Body, name: Name, config: Config, evidence: Evidence) {
    && name == NameOf(body, config) && body.plan == config.plan
    && body.first == config.scope.first && body.last == config.scope.last && body.stateFields == [PrevTopkIndices]
    && DistinctNames(body.entries) && Names(body.entries) == ExpectedModules(body.layer, config.scope.experts)
    && forall e | e in body.entries :: Backed(e, body.layer, config.scope, evidence)
  }

  /** A loaded boundary is what its manifest hashes, shard by shard, and nothing else is in its directory. */
  lemma LoadAuthentic(files: Files, name: Name, current: Replay, config: Config, evidence: Evidence)
    requires Load(files, name, current, config, evidence).Loaded?
    ensures var r := Load(files, name, current, config, evidence);
            var body := r.digest.body;
            && ManifestAuthentic(body, name, config, evidence)
            && r.layer == body.layer && r.layerName == body.layerName
            && IsIndex(r.layer, r.index, config.scope) && (forall e :: e in r.index <==> e in body.index)
            && FileSetAgrees(files, body.shards, body.stateShards)
            && |r.outputs| == |body.shards| == |body.stateShards| == body.batches > 0
            && TotalBytes(r.outputs) == body.activationBytes
            && (forall i | 0 <= i < |r.outputs| ::
                  && body.shards[i].hash == Xxh(map[Hidden := r.outputs[i]])
                  && body.shards[i].spec == SpecOf(r.outputs[i])
                  && GoodGeometry(r.outputs[i].shape, r.outputs[i].dtype, config))
            && StatesAuthentic(r.replay, current, body)
            && ReplayIdentityOf(r.replay) == Some(body.metadata)
  {
    hide IdentityOf, SameButState, StateOf, StatesAuthentic, IsIndex;
    var body := ReadManifest(files, name, config).value;
    ReadActivationsHash(files, body.shards, config);
    RefilledAuthentic(files, current, body);
    ValidEntriesIff(body.layer, body.entries, config.scope, evidence);
    ValidIndexIff(body.layer, body.index, config.scope);
    SortPermutes(body.index);
  }
}
