/** Committing and loading the rolling layer boundary, with a kill between any two file operations. */
module BoundaryStore {
  import opened Budgets
  import opened Options
  import opened Sorting
  import opened ReplayMetadata
  import opened ProjectionIndex
  import opened BoundaryManifest
  import opened BoundaryDisk
  import opened BoundaryStaging

  /** The committed entries of a root. */
  function CommittedIn(root: Root): set<Name> {
    set n | n in root && n.Committed?
  }

  function TemporaryIn(root: Root): set<Name> {
    set n | n in root && n.Temporary?
  }

  /** A root with the same committed directories. */
  ghost predicate SameCommitted(a: Root, b: Root) {
    forall n: Name | n.Committed? :: (n in a <==> n in b) && (n in a ==> a[n] == b[n])
  }

  lemma SameOn(a: Root, b: Root, c: Root)
    requires SameCommitted(a, b) && SameCommitted(b, c)
    ensures SameCommitted(a, c)
  {}

  /** The manifest of a complete directory is readable, names its layer and carries its index. */
  lemma TopReadable(n: Name, d: Directory, config: Config, evidence: Evidence, expected: Expectation)
    requires Good(n, d, IntactIn(config, evidence, expected))
    ensures n.Committed? && ReadManifest(Contents(d), n, config).Some?
    ensures var body := ReadManifest(Contents(d), n, config).value;
            body.layer == n.layer && config.scope.first <= n.layer <= config.scope.last
            && IsIndex(body.layer, body.index, config.scope) && AllBacked(body.index, config.scope, evidence)
  {
    assert Intact(Contents(d), n, config, evidence);
    var b :| BuiltFrom(Contents(d), n, b, config, evidence);
    BuiltManifest(Contents(d), n, b, config, evidence);
  }

  /** Two roots that agree everywhere but at one name. */
  ghost predicate Elsewhere(name: Name, a: Root, b: Root) {
    forall n | n != name :: (n in a <==> n in b) && (n in a ==> a[n] == b[n])
  }

  lemma ElsewhereTemporary(name: Name, a: Root, b: Root)
    requires name.Temporary? && Elsewhere(name, a, b) && name in a
    ensures SameCommitted(a, b)
    ensures name !in b ==> |TemporaryIn(b)| < |TemporaryIn(a)|
  {
    if name !in b {
      assert TemporaryIn(b) == TemporaryIn(a) - {name};
    }
  }

  lemma OlderThanNewest(disk: Disk, safe: Top, whole: Completeness, newest: Name, n: Name)
    requires Safe(disk, safe, whole)
    requires newest in disk.live && newest.Committed? && newest.layer == LiveTop(disk, safe)
    requires n in disk.live && n.Committed? && n != newest
    ensures n.layer < newest.layer
  {}

  lemma OneNewest(disk: Disk, safe: Top, whole: Completeness, newest: Name)
    requires Safe(disk, safe, whole)
    requires newest in disk.live && newest.Committed? && newest.layer == LiveTop(disk, safe)
    ensures forall n | n in disk.live && n.Committed? && n.layer == LiveTop(disk, safe) :: n == newest
  {}

  lemma ElsewhereCommitted(name: Name, a: Root, b: Root)
    requires name.Committed? && Elsewhere(name, a, b) && name in a
    ensures name !in b ==> |CommittedIn(b)| < |CommittedIn(a)|
  {
    if name !in b {
      assert CommittedIn(b) == CommittedIn(a) - {name};
    }
  }

  lemma UnlinkElsewhere(disk: Disk, name: Name, p: Path)
    requires name in disk.live && p in disk.live[name].files
    ensures Elsewhere(name, disk.live, Unlink(disk, name, p).live) && Unlink(disk, name, p).anchor == disk.anchor
    ensures name in Unlink(disk, name, p).live
    ensures |Unlink(disk, name, p).live[name].files| < |disk.live[name].files|
  {
    var files := disk.live[name].files;
    assert (files - {p}).Keys == files.Keys - {p};
    assert |files.Keys - {p}| == |files.Keys| - 1;
  }

  lemma RewriteBeside(disk: Disk, name: Name, d: Directory, safe: Top, whole: Completeness)
    requires Safe(disk, safe, whole) && name.Temporary? && name in disk.live
    ensures var after := Rewrite(disk, name, d);
            && Safe(after, safe, whole) && LiveTop(after, safe) == LiveTop(disk, safe)
            && SameCommitted(disk.live, after.live)
            && after.live.Keys == disk.live.Keys && after.live[name] == d
  {
    RewriteIsSafe(disk, name, d, safe, whole);
  }

  /** What a load finds. */
  datatype LatestLoad = Dying | NoBoundary | Read(name: Name, loaded: Loaded)

  /** The reading loop over the activation shards. */
  method LoadActivations(files: Files, records: seq<ActivationRecord>, config: Config)
    returns (r: Option<seq<Tensor>>)
    ensures r == ReadActivations(files, records, config)
  {
    r := Some([]);
    var i := 0;
    while i < |records|
      invariant i <= |records|
      invariant r == ReadActivations(files, records[..i], config)
    {
      assert records[..i + 1][..i] == records[..i];
      var t := ReadActivation(files, records[i], config);
      r := if r.Some? && t.Some? then Some(r.value + [t.value]) else None;
      i := i + 1;
    }
    assert records[..i] == records;
  }

  /** The reading loop over the state shards. */
  method LoadStates(files: Files, records: seq<StateRecord>) returns (r: Option<seq<Tensor>>)
    ensures r == ReadStates(files, records)
  {
    r := Some([]);
    var i := 0;
    while i < |records|
      invariant i <= |records|
      invariant r == ReadStates(files, records[..i])
    {
      assert records[..i + 1][..i] == records[..i];
      var t := ReadState(files, records[i]);
      r := if r.Some? && t.Some? then Some(r.value + [t.value]) else None;
      i := i + 1;
    }
    assert records[..i] == records;
  }

  /** `load_latest` after the newest directory is chosen. */
  method LoadDirectory(files: Files, name: Name, current: Replay, config: Config, evidence: Evidence)
    returns (r: Loaded)
    ensures r == Load(files, name, current, config, evidence)
  {
    hide Assemble, ManifestAccepted, FileSetAgrees;
    var manifest := ReadManifest(files, name, config);
    if manifest.None? {
      return Refused;
    }
    var body := manifest.value;
    if !ManifestAccepted(body, current, config, evidence) || !FileSetAgrees(files, body.shards, body.stateShards) {
      return Refused;
    }
    var outputs := LoadActivations(files, body.shards, config);
    var states := LoadStates(files, body.stateShards);
    if outputs.None? || states.None? {
      return Refused;
    }
    r := Assemble(body, current, outputs.value, states.value, config);
  }

  /** The static replay metadata of the reader is that of the boundary. */
  predicate StaticMatches(files: Files, name: Name, current: Replay, config: Config) {
    var manifest := ReadManifest(files, name, config);
    manifest.Some? && StaticIdentityOf(current) == Some(manifest.value.staticMetadata)
  }

  /** A loaded boundary of this layer whose index is complete and backed. */
  ghost predicate Trusted(r: Loaded, layer: nat, config: Config, evidence: Evidence)
    requires r.Loaded?
  {
    && config.scope.first <= r.layer == layer <= config.scope.last
    && IsIndex(layer, r.index, config.scope) && AllBacked(r.index, config.scope, evidence)
  }

  lemma BuiltLoads(files: Files, n: Name, b: Boundary, current: Replay, config: Config, evidence: Evidence)
    requires BuiltFrom(files, n, b, config, evidence)
    ensures var r := Load(files, n, current, config, evidence);
            && (r.Loaded? <==> StaticMatches(files, n, current, config))
            && (r.Loaded? ==> Trusted(r, n.layer, config, evidence))
            && ReadsCommitted(files, n, current, r, config, evidence)
  {
    hide Load, Written, SameButState;
    BuiltManifest(files, n, b, config, evidence);
    StaticIdentityIff(current, b.replay);
    if SameButState(current, b.replay) {
      LoadBuilt(files, n, b, current, config, evidence);
    } else {
      StaticMismatchRefused(files, n, b, current, config, evidence);
    }
  }

  /** A complete directory loads, as it was committed, for every reader whose static metadata match, and for no
      other. */
  lemma GoodLoads(n: Name, d: Directory, current: Replay, config: Config, evidence: Evidence, expected: Expectation)
    requires Good(n, d, IntactIn(config, evidence, expected))
    ensures var r := Load(Contents(d), n, current, config, evidence);
            && (r.Loaded? <==> StaticMatches(Contents(d), n, current, config))
            && (r.Loaded? ==> Trusted(r, n.layer, config, evidence))
            && ReadsCommitted(Contents(d), n, current, r, config, evidence)
    ensures expected(n, Contents(d))
  {
    hide BuiltFrom, Load, StaticMatches, Trusted, ReadsCommitted;
    assert Intact(Contents(d), n, config, evidence);
    var b :| BuiltFrom(Contents(d), n, b, config, evidence);
    BuiltLoads(Contents(d), n, b, current, config, evidence);
  }

  lemma TopIsGood(disk: Disk, safe: Top, whole: Completeness, n: Name)
    requires Safe(disk, safe, whole)
    requires n in disk.live && n.Committed? && n.layer == LiveTop(disk, safe)
    ensures Good(n, disk.live[n], whole)
  {}

  /** The root holds this boundary, complete, and nothing else. */
  ghost predicate OnlyHolds(root: Root, b: Boundary, config: Config, evidence: Evidence) {
    WellFormed(b, config, evidence)
    && var name := NameOf(BodyOf(b, config), config);
       root.Keys == {name} && BuiltFrom(Contents(root[name]), name, b, config, evidence)
  }

  /** What a reader gets is what this request asked to store: its layer, every output in its place, and the replay. */
  ghost predicate GivesBack(r: Loaded, q: Request, index: seq<Entry>) {
    && r.Loaded? && r.layer == q.layer && r.layerName == q.layerName && AreOutputs(r.outputs, q.outputs)
    && r.index == index && r.replay == q.replay
  }

  /** Loading right after a commit gives back what was committed, also when more evidence has come in since. */
  lemma CommitThenLoad(root: Root, q: Request, index: seq<Entry>, current: Replay, config: Config, before: Evidence,
                       now: Evidence)
    requires Checked(q, config, before) && Writable(q, config)
    requires OnlyHolds(root, BoundaryOf(q, index, config, before), config, before) && Extends(before, now)
    requires SameButState(current, q.replay)
    ensures root != map[]
    ensures forall n | n in root :: GivesBack(Load(Contents(root[n]), n, current, config, now), q, index)
  {
    hide Load, Written, Checked, SameButState, IdentityOf;
    var b := BoundaryOf(q, index, config, before);
    var n := NameOf(BodyOf(b, config), config);
    LayerPersists(b.layer, b.entries, config.scope, before, now);
    BackedPersists(b.index, config.scope, before, now);
    LoadBuilt(Contents(root[n]), n, b, current, config, now);
    PrimariesAreOutputs(q.outputs, config);
  }

  /** What a commit leaves outlives every power loss unchanged, if and only if the entry of the root is durable. */
  lemma CommitSurvivesIff(disk: Disk, b: Boundary, config: Config, evidence: Evidence)
    requires OnlyHolds(disk.live, b, config, evidence) && Firm(disk) && !disk.anchor.Absent?
    ensures (forall after, keep | LossOutcome(disk, after, keep) :: OnlyHolds(after.live, b, config, evidence))
            <==> disk.anchor.Synced?
  {
    hide BuiltFrom, BodyOf;
    if disk.anchor.Synced? {
      forall after, keep | LossOutcome(disk, after, keep) ensures OnlyHolds(after.live, b, config, evidence) {
        FirmSurvives(disk, after, keep);
      }
    } else {
      assert LossOutcome(disk, EMPTY_DISK, []);
      assert NameOf(BodyOf(b, config), config) !in EMPTY_DISK.live;
    }
  }

  /** Committing, losing power and loading gives back what was committed. */
  lemma CommitLossLoad(disk: Disk, after: Disk, keep: seq<bool>, q: Request, index: seq<Entry>, current: Replay,
                       config: Config, before: Evidence, now: Evidence)
    requires Checked(q, config, before) && Writable(q, config)
    requires OnlyHolds(disk.live, BoundaryOf(q, index, config, before), config, before)
    requires Firm(disk) && disk.anchor.Synced? && Extends(before, now)
    requires LossOutcome(disk, after, keep)
    requires SameButState(current, q.replay)
    ensures after.live != map[]
    ensures forall n | n in after.live :: GivesBack(Load(Contents(after.live[n]), n, current, config, now), q, index)
  {
    hide Load, BuiltFrom, WellFormed, BodyOf, Checked, Writable, GivesBack;
    CommitSurvivesIff(disk, BoundaryOf(q, index, config, before), config, before);
    CommitThenLoad(after.live, q, index, current, config, before, now);
  }

  /** The root shows this boundary, complete. */
  ghost predicate Shows(root: Root, b: Boundary, config: Config, evidence: Evidence) {
    WellFormed(b, config, evidence)
    && var name := NameOf(BodyOf(b, config), config);
       name in root && BuiltFrom(Contents(root[name]), name, b, config, evidence)
  }

  /** How one stage of a commit ends. */
  datatype Step = Ok | Bad | Dead

  lemma CommittedAtMost(disk: Disk, safe: Top, whole: Completeness, n: Name)
    requires Safe(disk, safe, whole) && n in disk.live && n.Committed?
    ensures n.layer <= LiveTop(disk, safe)
  {}

  /** `index` lists everything before `layer`. */
  ghost predicate ExtendsTo(layer: int, index: seq<Entry>, scope: Scope, evidence: Evidence) {
    && layer >= scope.first
    && (if layer == scope.first then index == [] else IsIndex(layer - 1, index, scope))
    && AllBacked(index, scope, evidence)
  }

  /** The newest boundary on disk carries this index. */
  ghost predicate IndexOnTop(root: Root, top: Top, config: Config, index: seq<Entry>) {
    if top == -1 then index == []
    else forall n | n in root && n.Committed? && n.layer == top ::
           && ReadManifest(Contents(root[n]), n, config).Some?
           && ReadManifest(Contents(root[n]), n, config).value.index == index
  }

  /** That index is the one that the newest boundary was committed with. */
  lemma IndexOnTopIs(root: Root, top: Top, n: Name, b: Boundary, index: seq<Entry>, config: Config, evidence: Evidence)
    requires IndexOnTop(root, top, config, index) && n in root && n.Committed? && n.layer == top
    requires BuiltFrom(Contents(root[n]), n, b, config, evidence)
    ensures index == b.index
  {
    hide Written, WellFormed;
    BuiltManifest(Contents(root[n]), n, b, config, evidence);
  }

  /** The index of a new boundary is that of the one before it and its own entries. */
  ghost predicate Accumulates(before: Root, top: Top, config: Config, index: seq<Entry>, entries: seq<Entry>) {
    exists previous ::
      IndexOnTop(before, top, config, previous) && forall e :: e in index <==> e in previous || e in entries
  }

  /** The index that a checked request leads to. */
  function CompletedIndex(q: Request, previous: seq<Entry>, config: Config, evidence: Evidence): seq<Entry>
    requires Checked(q, config, evidence)
  {
    var entries := ValidateEntries(q.layer, q.entries, config.scope, evidence).value;
    ValidateIndex(q.layer, previous + entries, config.scope).GetOr([])
  }

  /** The cumulative index always validates: it holds the previous entries and the new ones. */
  lemma CompletedIndexValid(q: Request, previous: seq<Entry>, config: Config, evidence: Evidence)
    requires Checked(q, config, evidence) && ExtendsTo(q.layer, previous, config.scope, evidence)
    ensures var index := CompletedIndex(q, previous, config, evidence);
            && IsIndex(q.layer, index, config.scope) && AllBacked(index, config.scope, evidence)
            && forall e :: e in index <==> e in previous || e in q.entries
  {
    ValidEntriesIff(q.layer, q.entries, config.scope, evidence);
    ValidLayerIff(q.layer, q.entries, config.scope, evidence);
    var entries := ValidateEntries(q.layer, q.entries, config.scope, evidence).value;
    IndexGrows(q.layer, previous, entries, config.scope, evidence);
    LayerIsBacked(q.layer, entries, config.scope, evidence);
  }

  lemma CompletedAccumulates(q: Request, previous: seq<Entry>, before: Root, now: Root, top: Top, config: Config,
                             evidence: Evidence)
    requires Checked(q, config, evidence) && ExtendsTo(q.layer, previous, config.scope, evidence)
    requires SameCommitted(before, now) && IndexOnTop(now, top, config, previous)
    ensures Accumulates(before, top, config, CompletedIndex(q, previous, config, evidence), q.entries)
  {
    CompletedIndexValid(q, previous, config, evidence);
    assert IndexOnTop(before, top, config, previous);
  }

  lemma BuiltShows(root: Root, name: Name, b: Boundary, config: Config, evidence: Evidence)
    requires name in root && BuiltFrom(Contents(root[name]), name, b, config, evidence)
    ensures Shows(root, b, config, evidence)
  {
    hide Written;
  }

  /** Some visible boundary of the request's layer stores the request. */
  ghost predicate ShowsStored(root: Root, q: Request, config: Config) {
    exists n :: n in root && n.Committed? && n.layer == q.layer && Stores(Contents(root[n]), q, config)
  }

  lemma ShownIsStored(root: Root, q: Request, index: seq<Entry>, config: Config, evidence: Evidence)
    requires Checked(q, config, evidence) && Writable(q, config)
    requires Shows(root, BoundaryOf(q, index, config, evidence), config, evidence)
    ensures ShowsStored(root, q, config)
  {
    hide Checked, Writable, BuiltFrom, Stores;
    var b := BoundaryOf(q, index, config, evidence);
    BuiltStores(Contents(root[NameOf(BodyOf(b, config), config)]), NameOf(BodyOf(b, config), config), q, index, config,
                evidence);
  }

  lemma BuiltAlone(disk: Disk, name: Name, b: Boundary, whole: Completeness, config: Config, evidence: Evidence)
    requires disk.live.Keys == {name} && disk.durable == disk.live && disk.pending == []
    requires BuiltFrom(Contents(disk.live[name]), name, b, config, evidence) && Good(name, disk.live[name], whole)
    ensures OnlyHolds(disk.live, b, config, evidence) && Shows(disk.live, b, config, evidence) && Firm(disk)
  {
    hide Written;
  }

  class Store {
    const config: Config
    /** Whether the run state's own entry is durable: no step of a session syncs the directory above it. */
    const grounded: bool
    /** What every committed directory is to hold, chosen freely by whoever reasons about a run: an expectation that
        accepts everything is met by every request. */
    ghost const expected: Expectation
    var evidence: Evidence
    var disk: Disk
    /** The newest layer whose entry in the root is synced. */
    ghost var safe: Top
    /** When a committed directory counts as complete. */
    ghost var whole: Completeness
    var budget: Budget

    /** The invariant of every single file operation. */
    ghost predicate Steady()
      reads this
    {
      Rooted(disk) && Safe(disk, safe, whole)
    }

    ghost predicate Valid()
      reads this
    {
      && config.scope.experts > 0 && config.scope.first <= config.scope.last
      && whole == IntactIn(config, evidence, expected)
      && Steady()
    }

    /** The newest committed layer that a process sees. */
    ghost function Newest(): Top
      reads this
    {
      LiveTop(disk, safe)
    }

    /** The newest committed layer that no power loss can take back. */
    ghost function Durable(): Top
      reads this
    {
      Assured(disk, safe)
    }

    constructor (config: Config, grounded: bool, ghost expected: Expectation)
      requires config.scope.experts > 0 && config.scope.first <= config.scope.last
      ensures Valid() && this.config == config && this.grounded == grounded && this.expected == expected
      ensures disk == EMPTY_DISK && Newest() == -1
    {
      this.config, this.grounded, this.expected := config, grounded, expected;
      evidence, disk, safe, budget := Evidence(map[], {}), EMPTY_DISK, -1, Left(0);
      whole := IntactIn(config, Evidence(map[], {}), expected);
    }

    /** Charge one file operation. */
    method Alive() returns (alive: bool)
      modifies this`budget
      ensures alive <==> old(budget) != Left(0)
      ensures Draws(old(budget), budget, !alive)
    {
      alive := budget != Left(0);
      budget := Charge(budget);
    }

    /** What every step keeps while it works next to the newest committed directory. */
    twostate predicate Beside()
      reads this
    {
      Steady() && safe >= old(safe) && Newest() == old(Newest()) && disk.anchor == old(disk.anchor)
    }

    method UnlinkOne(name: Name) returns (alive: bool)
      requires Steady() && name in disk.live && disk.live[name].files != map[]
      requires name.Temporary? || name.layer < safe
      modifies this`disk, this`budget
      ensures Draws(old(budget), budget, !alive)
      ensures Beside() && name in disk.live
      ensures Elsewhere(name, old(disk.live), disk.live)
      ensures alive ==> |disk.live[name].files| < |old(disk.live[name].files)|
    {
      hide Safe, Unlink;
      alive := Alive();
      if alive {
        var p :| p in disk.live[name].files;
        UnlinkIsSafe(disk, name, p, safe, whole);
        UnlinkElsewhere(disk, name, p);
        disk := Unlink(disk, name, p);
      }
    }

    method RemoveEntry(name: Name) returns (alive: bool)
      requires Steady() && name in disk.live
      requires name.Temporary? || name.layer < safe
      modifies this`disk, this`budget
      ensures Draws(old(budget), budget, !alive)
      ensures Beside()
      ensures Elsewhere(name, old(disk.live), disk.live)
      ensures alive <==> name !in disk.live
    {
      hide Safe;
      alive := Alive();
      if alive {
        RemoveIsSafe(disk, name, safe, whole);
        disk := Change(disk, Remove(name));
      }
    }

    /** `shutil.rmtree`, one entry at a time. */
    method RemoveTree(name: Name) returns (alive: bool)
      requires Steady() && name in disk.live
      requires name.Temporary? || name.layer < safe
      modifies this`disk, this`budget
      ensures Draws(old(budget), budget, !alive)
      ensures Beside()
      ensures Elsewhere(name, old(disk.live), disk.live)
      ensures alive <==> name !in disk.live
    {
      alive := true;
      while alive && disk.live[name].files != map[]
        invariant Beside() && Draws(old(budget), budget, !alive) && name in disk.live
        invariant Elsewhere(name, old(disk.live), disk.live)
        decreases alive, |disk.live[name].files|
      {
        alive := UnlinkOne(name);
      }
      if alive {
        alive := RemoveEntry(name);
      }
    }

    /** `fsync` of the root. */
    method SyncTheRoot() returns (alive: bool)
      requires Steady()
      modifies this`disk, this`budget, this`safe
      ensures Draws(old(budget), budget, !alive)
      ensures Beside() && disk.live == old(disk.live)
      ensures safe == if alive then Newest() else old(safe)
      ensures alive ==> disk == SyncRoot(old(disk))
    {
      alive := Alive();
      if alive {
        SyncIsSafe(disk, safe, whole);
        safe := LiveTop(disk, safe);
        disk := SyncRoot(disk);
      }
    }

    /** `_prune_incomplete_directories`: remove every temporary directory, and sync the root if there was one. */
    method Prune() returns (alive: bool)
      requires Steady()
      modifies this`disk, this`budget, this`safe
      ensures Draws(old(budget), budget, !alive)
      ensures Beside() && SameCommitted(old(disk.live), disk.live)
      ensures alive ==> forall n | n in disk.live :: n.Committed?
    {
      var changed := false;
      alive := true;
      while alive && TemporaryIn(disk.live) != {}
        invariant Beside() && Draws(old(budget), budget, !alive) && SameCommitted(old(disk.live), disk.live)
        decreases alive, |TemporaryIn(disk.live)|
      {
        var name :| name in TemporaryIn(disk.live);
        label Before:
        alive := RemoveTree(name);
        ElsewhereTemporary(name, old@Before(disk.live), disk.live);
        changed := true;
      }
      assert alive ==> forall n | n in disk.live && n.Temporary? :: n in TemporaryIn(disk.live);
      if alive && changed {
        alive := SyncTheRoot();
      }
    }

    /** `_committed_directories()[-1]`: the newest committed directory. */
    method Latest() returns (r: Option<Name>)
      requires Steady()
      ensures r.None? <==> CommittedIn(disk.live) == {}
      ensures r.None? <==> Newest() == -1
      ensures r.Some? ==> r.value in disk.live && r.value.Committed? && r.value.layer == Newest()
    {
      var left := CommittedIn(disk.live);
      r := None;
      while left != {}
        invariant left <= CommittedIn(disk.live)
        invariant r.Some? ==> r.value in CommittedIn(disk.live)
        invariant forall n | n in CommittedIn(disk.live) && n !in left :: r.Some? && n.layer <= r.value.layer
        decreases |left|
      {
        var n :| n in left;
        if r.None? || r.value.layer < n.layer || (r.value.layer == n.layer && StringLe(r.value.tag, n.tag)) {
          r := Some(n);
        }
        left := left - {n};
      }
      if Newest() >= 0 {
        assert exists n :: n in CommittedIn(disk.live) && n.layer == Newest();
      }
    }

    /** What writing into one temporary directory keeps. */
    twostate predicate Inside(name: Name)
      reads this
    {
      && Beside() && safe == old(safe)
      && name.Temporary? && name in disk.live && disk.live.Keys == old(disk.live.Keys)
      && SameCommitted(old(disk.live), disk.live)
    }

    /** One change inside a temporary directory. */
    method Write(name: Name, d: Directory) returns (alive: bool)
      requires Steady() && name.Temporary? && name in disk.live
      modifies this`disk, this`budget
      ensures Draws(old(budget), budget, !alive)
      ensures Inside(name)
      ensures disk.live[name] == if alive then d else old(disk.live[name])
    {
      hide Safe;
      alive := Alive();
      if alive {
        RewriteBeside(disk, name, d, safe, whole);
        disk := Rewrite(disk, name, d);
      }
    }

    /** Saving a shard: the file appears, then its content, then its data is synced. */
    method Save(name: Name, p: Path, content: Content) returns (alive: bool)
      requires Steady() && name.Temporary? && name in disk.live
      modifies this`disk, this`budget
      ensures Draws(old(budget), budget, !alive)
      ensures Inside(name)
      ensures alive ==> disk.live[name] == SyncFile(AddFile(old(disk.live[name]), p, content, false), p)
    {
      var d := disk.live[name];
      alive := Write(name, AddFile(d, p, Garbage, false));
      if alive {
        alive := Write(name, AddFile(d, p, content, false));
      }
      if alive {
        alive := Write(name, SyncFile(AddFile(d, p, content, false), p));
      }
    }

    /** One batch of the activation loop. A replayed shard is linked; it is durable already. */
    method StageOutput(name: Name, q: Request, i: nat) returns (step: Step)
      requires Steady() && name.Temporary? && name in disk.live
      requires i < |q.outputs| && Staged(disk.live[name], Primaries(q.outputs), [], i, 0)
      modifies this`disk, this`budget
      ensures Draws(old(budget), budget, step.Dead?)
      ensures Inside(name)
      ensures step.Ok? ==> Primary(q.outputs[i], config)
      ensures step.Ok? ==> Staged(disk.live[name], Primaries(q.outputs), [], i + 1, 0)
      ensures step.Bad? ==> !Primary(q.outputs[i], config)
    {
      if !Primary(q.outputs[i], config) {
        return Bad;
      }
      var output := Primaries(q.outputs)[i];
      var alive;
      StageActivation(disk.live[name], Primaries(q.outputs), [], i);
      if q.replayed {
        alive := Write(name, AddFile(disk.live[name], Activation(i), ActivationContent(output), true));
      } else {
        alive := Save(name, Activation(i), ActivationContent(output));
      }
      step := if alive then Ok else Dead;
    }

    /** The activation loop. */
    method StageActivations(name: Name, q: Request) returns (step: Step)
      requires Steady() && name.Temporary? && name in disk.live
      requires disk.live[name] == Directory(map[], false, false)
      modifies this`disk, this`budget
      ensures Draws(old(budget), budget, step.Dead?)
      ensures Inside(name)
      ensures step.Ok? ==> AllPrimary(q.outputs, config)
      ensures step.Ok? ==> Staged(disk.live[name], Primaries(q.outputs), [], |q.outputs|, 0)
      ensures step.Bad? ==> !AllPrimary(q.outputs, config)
    {
      hide Safe, Staged;
      NothingStaged(Primaries(q.outputs));
      var i := 0;
      step := Ok;
      while step.Ok? && i < |q.outputs|
        invariant i <= |q.outputs| && Inside(name) && Draws(old(budget), budget, step.Dead?)
        invariant step.Ok? ==> forall j | 0 <= j < i :: Primary(q.outputs[j], config)
        invariant step.Ok? ==> Staged(disk.live[name], Primaries(q.outputs), [], i, 0)
        invariant step.Bad? ==> !AllPrimary(q.outputs, config)
      {
        step := StageOutput(name, q, i);
        i := i + 1;
      }
    }

    /** One batch of the replay state loop. */
    method StageBatchState(name: Name, q: Request, i: nat) returns (step: Step)
      requires Steady() && name.Temporary? && name in disk.live
      requires i < |q.replay.kwargs|
      requires Staged(disk.live[name], Primaries(q.outputs), StatesOf(q.replay), |q.outputs|, i)
      modifies this`disk, this`budget
      ensures Draws(old(budget), budget, step.Dead?)
      ensures Inside(name)
      ensures step.Ok? ==> StateOf(q.replay.kwargs[i]).Some?
      ensures step.Ok? ==> Staged(disk.live[name], Primaries(q.outputs), StatesOf(q.replay), |q.outputs|, i + 1)
      ensures step.Bad? ==> StateOf(q.replay.kwargs[i]).None?
    {
      if StateOf(q.replay.kwargs[i]).None? {
        return Bad;
      }
      StageState(disk.live[name], Primaries(q.outputs), StatesOf(q.replay), i);
      var alive := Save(name, ReplayState(i), StateContent(StatesOf(q.replay)[i]));
      step := if alive then Ok else Dead;
    }

    /** The replay state loop. */
    method StageStates(name: Name, q: Request) returns (step: Step)
      requires Steady() && name.Temporary? && name in disk.live
      requires Staged(disk.live[name], Primaries(q.outputs), StatesOf(q.replay), |q.outputs|, 0)
      modifies this`disk, this`budget
      ensures Draws(old(budget), budget, step.Dead?)
      ensures Inside(name)
      ensures step.Ok? ==> HasStates(q.replay)
      ensures step.Ok? ==>
                Staged(disk.live[name], Primaries(q.outputs), StatesOf(q.replay), |q.outputs|, |q.replay.kwargs|)
      ensures step.Bad? ==> !HasStates(q.replay)
    {
      hide Safe, Staged;
      var i := 0;
      step := Ok;
      while step.Ok? && i < |q.replay.kwargs|
        invariant i <= |q.replay.kwargs| && Inside(name) && Draws(old(budget), budget, step.Dead?)
        invariant step.Ok? ==> forall j | 0 <= j < i :: StateOf(q.replay.kwargs[j]).Some?
        invariant step.Ok? ==> Staged(disk.live[name], Primaries(q.outputs), StatesOf(q.replay), |q.outputs|, i)
        invariant step.Bad? ==> !HasStates(q.replay)
      {
        step := StageBatchState(name, q, i);
        i := i + 1;
      }
    }

    /** Sync both folders, write the manifest atomically, sync the directory. */
    method Seal(name: Name, m: Manifest) returns (alive: bool)
      requires Steady() && name.Temporary? && name in disk.live
      modifies this`disk, this`budget
      ensures Draws(old(budget), budget, !alive)
      ensures Inside(name)
      ensures alive ==> disk.live[name] == Finish(old(disk.live[name]), m)
    {
      var d := disk.live[name];
      var folders := SyncEntries(SyncEntries(d, ActivationFolder), StateFolder);
      alive := Write(name, SyncEntries(d, ActivationFolder));
      if alive {
        alive := Write(name, folders);
      }
      if alive {
        alive := Write(name, AddFile(folders, ManifestPath, ManifestFile(m), true));
      }
      if alive {
        alive := Write(name, Finish(d, m));
      }
    }

    /** `mkdtemp` */
    method MakeDirectory(name: Name) returns (alive: bool)
      requires Steady() && !disk.anchor.Absent? && name.Temporary? && name !in disk.live
      modifies this`disk, this`budget
      ensures Draws(old(budget), budget, !alive)
      ensures Beside() && safe == old(safe)
      ensures SameCommitted(old(disk.live), disk.live)
      ensures alive ==> disk.live.Keys == old(disk.live.Keys) + {name}
      ensures alive ==> disk.live[name] == Directory(map[], false, false)
    {
      hide Safe;
      alive := Alive();
      if alive {
        MakeIsSafe(disk, name, safe, whole);
        disk := MakeTemporary(disk, name);
      }
    }

    /** A directory that holds exactly the boundary of an accepted request, durably. */
    ghost predicate Finished(q: Request, index: seq<Entry>, d: Directory)
      requires Checked(q, config, evidence) && Writable(q, config)
      reads this
    {
      var b := BoundaryOf(q, index, config, evidence);
      var name := NameOf(BodyOf(b, config), config);
      BuiltFrom(Contents(d), name, b, config, evidence) && Good(name, d, whole)
    }

    /** Finish a directory whose shards are all staged. */
    method SealBoundary(name: Name, q: Request, index: seq<Entry>) returns (alive: bool)
      requires Valid() && name.Temporary? && name in disk.live
      requires Checked(q, config, evidence) && Writable(q, config) && Meets(q, config, expected)
      requires IsIndex(q.layer, index, config.scope) && AllBacked(index, config.scope, evidence)
      requires Staged(disk.live[name], Primaries(q.outputs), StatesOf(q.replay), |q.outputs|, |q.replay.kwargs|)
      modifies this`disk, this`budget
      ensures Draws(old(budget), budget, !alive)
      ensures Inside(name)
      ensures alive ==> Finished(q, index, disk.live[name])
    {
      hide Safe, Meets;
      BoundaryWellFormed(q, index, config, evidence);
      var b := BoundaryOf(q, index, config, evidence);
      FinishedIsGood(disk.live[name], q, index, config, evidence, expected);
      alive := Seal(name, ManifestOf(BodyOf(b, config)));
    }

    /** The staged directory of a commit, finished for its committed name. */
    method StageAll(name: Name, q: Request, index: seq<Entry>) returns (step: Step)
      requires Valid() && name.Temporary? && name in disk.live
      requires disk.live[name] == Directory(map[], false, false)
      requires Checked(q, config, evidence) && Meets(q, config, expected)
      requires IsIndex(q.layer, index, config.scope) && AllBacked(index, config.scope, evidence)
      modifies this`disk, this`budget
      ensures Draws(old(budget), budget, step.Dead?)
      ensures Inside(name)
      ensures step.Ok? ==> Writable(q, config)
      ensures step.Ok? ==> Finished(q, index, disk.live[name])
      ensures step.Bad? ==> !Writable(q, config)
    {
      hide Safe, BuiltFrom, Good, Staged, Checked, IsIndex, AllBacked, Meets;
      step := StageActivations(name, q);
      if step.Ok? {
        NoStatesYet(disk.live[name], Primaries(q.outputs), StatesOf(q.replay));
        step := StageStates(name, q);
        if step.Ok? {
          var alive := SealBoundary(name, q, index);
          step := if alive then Ok else Dead;
        }
      }
    }

    /** `os.replace`: the directory appears under its committed name at once. */
    method PromoteTo(name: Name, destination: Name) returns (alive: bool)
      requires Steady() && name.Temporary? && name in disk.live
      requires destination.Committed? && destination.layer > Newest()
      requires Good(destination, disk.live[name], whole)
      modifies this`disk, this`budget
      ensures Draws(old(budget), budget, !alive)
      ensures Steady() && safe == old(safe) && disk.anchor == old(disk.anchor)
      ensures !alive ==> disk == old(disk)
      ensures alive ==> Newest() == destination.layer
      ensures alive ==> disk.live == (old(disk.live) - {name})[destination := old(disk.live[name])]
    {
      hide Safe, Good;
      alive := Alive();
      if alive {
        PromoteIsSafe(disk, name, destination, safe, whole);
        disk := Promote(disk, name, destination);
      }
    }

    /** Remove every committed directory but the newest, then sync the root. */
    method DiscardOlder(newest: Name) returns (alive: bool)
      requires Steady() && newest in disk.live && newest.Committed? && newest.layer == Newest() == safe
      modifies this`disk, this`budget, this`safe
      ensures Draws(old(budget), budget, !alive)
      ensures Beside() && safe == Newest()
      ensures newest in disk.live && disk.live[newest] == old(disk.live[newest])
      ensures alive ==> forall n | n in disk.live && n.Committed? :: n == newest
      ensures forall n | n in disk.live :: n in old(disk.live)
      ensures alive ==> disk.durable == disk.live && disk.pending == []
    {
      hide Safe;
      alive := true;
      while alive && CommittedIn(disk.live) != {newest}
        invariant Beside() && Draws(old(budget), budget, !alive) && safe == Newest() == newest.layer
        invariant newest in disk.live && disk.live[newest] == old(disk.live[newest])
        invariant forall n | n in disk.live :: n in old(disk.live)
        decreases alive, |CommittedIn(disk.live)|
      {
        assert newest in CommittedIn(disk.live);
        var n :| n in CommittedIn(disk.live) && n != newest;
        label Before:
        OlderThanNewest(disk, safe, whole, newest, n);
        alive := RemoveTree(n);
        ElsewhereCommitted(n, old@Before(disk.live), disk.live);
      }
      if alive {
        assert forall n | n in disk.live && n.Committed? :: n in CommittedIn(disk.live);
        alive := SyncTheRoot();
      }
    }

    /** The contiguity check: the index that the new layer extends, if the new layer is the next one. */
    method PreviousIndex(layer: int) returns (r: Option<seq<Entry>>)
      requires Valid()
      ensures r.Some? <==> layer == NextLayer(Newest(), config.scope)
      ensures r.Some? ==> ExtendsTo(layer, r.value, config.scope, evidence)
      ensures r.Some? ==> IndexOnTop(disk.live, Newest(), config, r.value)
    {
      hide Safe, ReadManifest, IsIndex, IntactIn, ValidateIndex;
      var latest := Latest();
      if latest.None? {
        return if layer == config.scope.first then Some([]) else None;
      }
      TopIsGood(disk, safe, whole, latest.value);
      TopReadable(latest.value, disk.live[latest.value], config, evidence, expected);
      var body := ReadManifest(Contents(disk.live[latest.value]), latest.value, config).value;
      if body.layer != layer - 1 {
        return None;
      }
      ValidIndexIff(body.layer, body.index, config.scope);
      OneNewest(disk, safe, whole, latest.value);
      r := ValidateIndex(body.layer, body.index, config.scope);
    }

    /** Promote a directory, sync the root, and only then discard the older boundaries. */
    method Replace(name: Name, destination: Name) returns (alive: bool)
      requires Steady() && name.Temporary? && name in disk.live
      requires forall n | n in disk.live && n.Temporary? :: n == name
      requires destination.Committed? && destination.layer > Newest()
      requires Good(destination, disk.live[name], whole)
      modifies this`disk, this`budget, this`safe
      ensures Draws(old(budget), budget, !alive)
      ensures Steady() && safe >= old(safe) && disk.anchor == old(disk.anchor)
      ensures || (!alive && disk == old(disk) && safe == old(safe))
              || (&& Newest() == destination.layer
                  && destination in disk.live && disk.live[destination] == old(disk.live[name]))
      ensures alive ==>
                && safe == Newest() && disk.durable == disk.live && disk.pending == []
                && forall n | n in disk.live :: n == destination
    {
      hide Safe, Good;
      alive := PromoteTo(name, destination);
      if alive {
        alive := SyncTheRoot();
      }
      if alive {
        alive := DiscardOlder(destination);
      }
    }

    /** Promote a finished directory, make that durable, and only then discard the older boundaries. */
    method Publish(name: Name, q: Request, index: seq<Entry>) returns (r: Ending)
      requires Valid() && name.Temporary? && name in disk.live
      requires forall n | n in disk.live && n.Temporary? :: n == name
      requires Checked(q, config, evidence) && Writable(q, config)
      requires q.layer == NextLayer(Newest(), config.scope)
      requires Finished(q, index, disk.live[name])
      modifies this`disk, this`budget, this`safe
      ensures Draws(old(budget), budget, r.Killed?)
      ensures Valid() && safe >= old(safe) && disk.anchor == old(disk.anchor)
      ensures !r.Rejected?
      ensures r.Killed? ==>
                || (Newest() == old(Newest()) && SameCommitted(old(disk.live), disk.live))
                || (Newest() == q.layer && Shows(disk.live, BoundaryOf(q, index, config, evidence), config, evidence)
                    && ShowsStored(disk.live, q, config))
      ensures r.Done? ==> ShowsStored(disk.live, q, config)
      ensures r.Done? ==> safe == Newest() == q.layer
      ensures r.Done? ==> r.body == BodyOf(BoundaryOf(q, index, config, evidence), config)
      ensures r.Done? ==> OnlyHolds(disk.live, BoundaryOf(q, index, config, evidence), config, evidence) && Firm(disk)
    {
      hide Safe, Writable, BuiltFrom, Good, OnlyHolds, Shows, ShowsStored, Firm;
      var body := BodyOf(BoundaryOf(q, index, config, evidence), config);
      var destination := NameOf(body, config);
      if destination in disk.live {
        CommittedAtMost(disk, safe, whole, destination);
        assert false;
      }
      ghost var b := BoundaryOf(q, index, config, evidence);
      var alive := Replace(name, destination);
      if destination in disk.live {
        BuiltShows(disk.live, destination, b, config, evidence);
        ShownIsStored(disk.live, q, index, config, evidence);
      }
      if alive {
        BuiltAlone(disk, destination, b, whole, config, evidence);
      }
      r := if alive then Done(body) else Killed;
    }

    /** `rmtree` of a temporary directory. */
    method RemoveStage(name: Name) returns (alive: bool)
      requires Steady() && name in disk.live && name.Temporary?
      modifies this`disk, this`budget
      ensures Draws(old(budget), budget, !alive)
      ensures Beside() && SameCommitted(old(disk.live), disk.live)
    {
      alive := RemoveTree(name);
      ElsewhereTemporary(name, old(disk.live), disk.live);
    }

    /** The name that `mkdtemp` picks. */
    method PickName(q: Request) returns (name: Name)
      requires Checked(q, config, evidence)
      ensures name.Temporary?
    {
      var salt: nat := *;
      name := Temporary(q.layer, salt);
    }

    /** A new temporary directory, staged; a failed one is removed again. */
    method StageInto(q: Request, index: seq<Entry>) returns (step: Step, name: Name)
      requires Valid() && !disk.anchor.Absent? && TemporaryIn(disk.live) == {}
      requires Checked(q, config, evidence) && Meets(q, config, expected)
      requires IsIndex(q.layer, index, config.scope) && AllBacked(index, config.scope, evidence)
      modifies this`disk, this`budget
      ensures Draws(old(budget), budget, step.Dead?)
      ensures Valid() && safe == old(safe) && Newest() == old(Newest()) && disk.anchor == old(disk.anchor)
      ensures SameCommitted(old(disk.live), disk.live)
      ensures step.Bad? ==> !Writable(q, config)
      ensures step.Ok? ==>
                && Writable(q, config)
                && name.Temporary? && name in disk.live
                && (forall n | n in disk.live && n.Temporary? :: n == name)
                && Finished(q, index, disk.live[name])
    {
      hide Safe, Checked, Writable, BuiltFrom, Good, IsIndex, AllBacked, SameCommitted, Meets, IntactIn;
      name := PickName(q);
      assert forall n | n in disk.live && n.Temporary? :: n in TemporaryIn(disk.live);
      var alive := MakeDirectory(name);
      if !alive {
        return Dead, name;
      }
      label Made:
      step := StageAll(name, q, index);
      SameOn(old(disk.live), old@Made(disk.live), disk.live);
      if step.Bad? {
        label Staged:
        alive := RemoveStage(name);
        SameOn(old(disk.live), old@Staged(disk.live), disk.live);
        step := if alive then Bad else Dead;
      }
    }

    /** `self.root.mkdir(parents=True, exist_ok=True)` */
    method CreateRoot() returns (alive: bool)
      requires Steady()
      modifies this`disk, this`budget
      ensures Draws(old(budget), budget, !alive)
      ensures Steady() && disk == if alive then MakeRoot(old(disk)) else old(disk)
    {
      alive := Alive();
      if alive {
        disk := MakeRoot(disk);
      }
    }

    /** A session's first write into the run state syncs the run state, and with it the entry of the root. */
    method EnterRunState() returns (alive: bool)
      requires Steady()
      modifies this`disk, this`budget
      ensures Draws(old(budget), budget, !alive)
      ensures Steady() && disk == if alive then SyncRunState(old(disk), grounded) else old(disk)
    {
      alive := Alive();
      if alive {
        disk := SyncRunState(disk, grounded);
      }
    }

    /** The checks of a commit and everything it writes before the promotion. */
    method Prepare(q: Request) returns (step: Step, name: Name, index: seq<Entry>)
      requires Valid() && Meets(q, config, expected)
      modifies this`disk, this`budget, this`safe
      ensures Draws(old(budget), budget, step.Dead?)
      ensures Valid() && safe >= old(safe) && Newest() == old(Newest())
      ensures SameCommitted(old(disk.live), disk.live)
      ensures AnchorStays(old(disk.anchor), disk.anchor)
      ensures step.Bad? ==> !Admissible(q, Newest(), config, evidence)
      ensures step.Ok? ==>
                && Admissible(q, Newest(), config, evidence)
                && disk.anchor == MakeRoot(old(disk)).anchor
                && name.Temporary? && name in disk.live
                && (forall n | n in disk.live && n.Temporary? :: n == name)
                && Finished(q, index, disk.live[name])
                && Accumulates(old(disk.live), Newest(), config, index, q.entries)
    {
      hide Safe, Checked, Writable, BuiltFrom, Good, IsIndex, AllBacked, Accumulates, Meets;
      name, index := Temporary(0, 0), [];
      if !Checked(q, config, evidence) {
        return Bad, name, index;
      }
      var alive := CreateRoot();
      if !alive {
        return Dead, name, index;
      }
      alive := Prune();
      if !alive {
        return Dead, name, index;
      }
      assert TemporaryIn(disk.live) == {};
      var previous := PreviousIndex(q.layer);
      if previous.None? {
        return Bad, name, index;
      }
      index := CompletedIndex(q, previous.value, config, evidence);
      CompletedIndexValid(q, previous.value, config, evidence);
      CompletedAccumulates(q, previous.value, old(disk.live), disk.live, Newest(), config, evidence);
      step, name := StageInto(q, index);
    }

    /** `commit`. It succeeds exactly on an admissible request, unless it is killed, and that takes a budget that is
        used up. Rejected, or killed before the promotion, it leaves every committed directory as it was; killed later,
        the newest boundary is already the requested one, complete, every batch in its own shard. The first commit
        creates the root and leaves the root's own entry unsynced. */
    method Commit(q: Request) returns (r: Ending, ghost index: seq<Entry>)
      requires Valid() && Meets(q, config, expected)
      modifies this`disk, this`budget, this`safe
      ensures Draws(old(budget), budget, r.Killed?)
      ensures Valid() && safe >= old(safe)
      ensures AnchorStays(old(disk.anchor), disk.anchor)
      ensures r.Rejected? ==> !Admissible(q, old(Newest()), config, evidence)
      ensures r.Rejected? ==> Newest() == old(Newest()) && SameCommitted(old(disk.live), disk.live)
      ensures r.Killed? ==>
                || (Newest() == old(Newest()) && SameCommitted(old(disk.live), disk.live))
                || (&& Newest() == q.layer && Admissible(q, old(Newest()), config, evidence)
                    && var b := BoundaryOf(q, index, config, evidence);
                       && Shows(disk.live, b, config, evidence) && ShowsStored(disk.live, q, config))
      ensures r.Done? ==>
                && Admissible(q, old(Newest()), config, evidence)
                && safe == Newest() == q.layer
                && disk.anchor == MakeRoot(old(disk)).anchor
                && var b := BoundaryOf(q, index, config, evidence);
                   && r.body == BodyOf(b, config)
                   && OnlyHolds(disk.live, b, config, evidence) && ShowsStored(disk.live, q, config) && Firm(disk)
      ensures r.Done? || Newest() != old(Newest()) ==>
                exists previous ::
                  && IndexOnTop(old(disk.live), old(Newest()), config, previous)
                  && forall e :: e in index <==> e in previous || e in q.entries
    {
      hide Safe, Writable, BuiltFrom, Good, IndexOnTop, OnlyHolds, Firm, Shows, ShowsStored, Meets;
      index := [];
      var step, name, completed := Prepare(q);
      if step.Bad? {
        return Rejected, index;
      }
      if step.Dead? {
        return Killed, index;
      }
      index := completed;
      r := Publish(name, q, completed);
    }

    /** `load_latest`. The newest visible boundary loads as it was committed exactly if the reader's positions, masks
        and arguments, the recurrent one apart, are the committed ones. */
    method LoadLatest(current: Replay) returns (r: LatestLoad)
      requires Valid()
      modifies this`disk, this`budget, this`safe
      ensures Draws(old(budget), budget, r.Dying?)
      ensures Valid() && safe >= old(safe) && Newest() == old(Newest()) && disk.anchor == old(disk.anchor)
      ensures SameCommitted(old(disk.live), disk.live)
      ensures r.NoBoundary? ==> Newest() == -1
      ensures r.Read? ==>
                && r.name in disk.live && r.name.Committed? && r.name.layer == Newest()
                && r.loaded == Load(Contents(disk.live[r.name]), r.name, current, config, evidence)
                && (r.loaded.Loaded? ==> Trusted(r.loaded, Newest(), config, evidence))
                && (r.loaded.Loaded? <==> StaticMatches(Contents(disk.live[r.name]), r.name, current, config))
                && ReadsCommitted(Contents(disk.live[r.name]), r.name, current, r.loaded, config, evidence)
                && expected(r.name, Contents(disk.live[r.name]))
    {
      hide Safe, Intact, BuiltFrom, Trusted, StaticMatches, Load, ReadsCommitted;
      var alive := Prune();
      if !alive {
        return Dying;
      }
      var latest := Latest();
      if latest.None? {
        return NoBoundary;
      }
      var name := latest.value;
      var loaded := LoadDirectory(Contents(disk.live[name]), name, current, config, evidence);
      TopIsGood(disk, safe, whole, name);
      GoodLoads(name, disk.live[name], current, config, evidence, expected);
      r := Read(name, loaded);
    }

    /** The processor has recorded more projections. */
    method Learn(more: Evidence)
      requires Valid() && Extends(evidence, more)
      modifies this`evidence, this`whole
      ensures Valid() && evidence == more && Newest() == old(Newest())
    {
      forall n, f | whole(n, f) ensures IntactIn(config, more, expected)(n, f) {
        IntactPersists(f, n, config, evidence, more);
      }
      WidenSafe(disk, safe, whole, IntactIn(config, more, expected));
      evidence := more;
      whole := IntactIn(config, more, expected);
    }

    /** The power fails: only what was synced is sure to be there afterwards, and nothing that was not visible. */
    method PowerFails(after: Disk, keep: seq<bool>)
      requires Valid() && LossOutcome(disk, after, keep)
      modifies this`disk, this`safe
      ensures Valid() && disk == after
      ensures old(Durable()) <= Durable() == safe == Newest() <= old(Newest())
      ensures KeepsRoot(old(disk), after, keep) ==> Newest() >= old(safe)
    {
      hide Safe, LossOutcome;
      safe := PowerLossIsSafe(disk, after, keep, safe, whole);
      disk := after;
    }

    /** What is synced is visible. */
    lemma SafeIsVisible()
      requires Valid()
      ensures safe <= Newest()
    {
      TopsRise(disk.pending, safe, safe, whole);
    }

    /** A visible boundary is one of the routed layers. */
    lemma NewestInScope()
      requires Valid()
      ensures Newest() == -1 || config.scope.first <= Newest() <= config.scope.last
    {
      hide IntactIn, ReadManifest, IsIndex, AllBacked;
      if Newest() >= 0 {
        var n :| n in disk.live && n.Committed? && n.layer == Newest();
        TopIsGood(disk, safe, whole, n);
        TopReadable(n, disk.live[n], config, evidence, expected);
      }
    }
  }
}
