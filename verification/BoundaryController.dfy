/** Resuming from the newest boundary, committing layer by layer, and publishing every layer once. */
module BoundaryController {
  import opened Budgets
  import opened Options
  import opened Sorting
  import opened ReplayMetadata
  import opened ProjectionIndex
  import opened ProjectionDiscovery
  import opened BoundaryManifest
  import opened BoundaryDisk
  import opened BoundaryStaging
  import opened BoundaryStore
  import opened BoundaryRestore

  /** `count` consecutive layers. */
  function Interval(first: nat, count: nat): (s: seq<nat>)
    ensures |s| == count && forall i | 0 <= i < count :: s[i] == first + i
  {
    seq(count, i requires 0 <= i < count => first + i)
  }

  datatype Restored = Start(layer: nat) | RestoreFailed | RestoreKilled

  datatype CommitOutcome = NotTargeted | Bounded | Raised | CommitKilled | Stopped

  /** Where a run resumes. */
  function ResumeLayer(top: Top): nat {
    if top == -1 then 0 else top + 1
  }

  /** The deferred prefix is the index of the newest boundary, layer by layer. */
  ghost predicate DeferredPrefix(deferred: map<nat, seq<Entry>>, index: seq<Entry>, first: nat, top: Top) {
    && (forall l :: l in deferred <==> first <= l <= top)
    && forall l | l in deferred :: deferred[l] == FilterLayer(index, l)
  }

  /** After a commit, every directory that a load may choose gives back what was committed. */
  lemma OnlyLoads(before: Root, root: Root, q: Request, index: seq<Entry>, name: Name, config: Config,
                  evidence: Evidence)
    requires Checked(q, config, evidence) && Writable(q, config)
    requires OnlyHolds(before, BoundaryOf(q, index, config, evidence), config, evidence)
    requires SameCommitted(before, root) && name in root && name.Committed?
    ensures GivesBack(Load(Contents(root[name]), name, q.replay, config, evidence), q, index)
  {
    hide Load, OnlyHolds, Checked, Writable, GivesBack;
    CommitThenLoad(before, q, index, q.replay, config, evidence, evidence);
    assert before[name] == root[name];
  }

  /** The root shows a complete boundary that this request describes. */
  ghost predicate ShowsRequest(root: Root, q: Request, config: Config, evidence: Evidence) {
    && Checked(q, config, evidence) && Writable(q, config)
    && ShowsStored(root, q, config)
    && exists index :: Shows(root, BoundaryOf(q, index, config, evidence), config, evidence)
  }

  lemma ShowsKept(before: Root, after: Root, b: Boundary, config: Config, evidence: Evidence)
    requires Shows(before, b, config, evidence) && SameCommitted(before, after)
    ensures Shows(after, b, config, evidence)
  {
    hide BuiltFrom;
  }

  lemma ShowsRequestKept(before: Root, after: Root, q: Request, config: Config, evidence: Evidence)
    requires ShowsRequest(before, q, config, evidence) && SameCommitted(before, after)
    ensures ShowsRequest(after, q, config, evidence)
  {
    hide Checked, Writable, BoundaryOf, BuiltFrom, WellFormed, BodyOf, Stores;
    var n :| n in before && n.Committed? && n.layer == q.layer && Stores(Contents(before[n]), q, config);
    assert after[n] == before[n];
    var index :| Shows(before, BoundaryOf(q, index, config, evidence), config, evidence);
    ShowsKept(before, after, BoundaryOf(q, index, config, evidence), config, evidence);
  }

  lemma OnlyHoldsShows(root: Root, b: Boundary, config: Config, evidence: Evidence)
    requires OnlyHolds(root, b, config, evidence)
    ensures Shows(root, b, config, evidence)
  {
    hide BuiltFrom;
  }

  /** The next layer of `sorted(...)`. */
  method Minimum(layers: set<nat>) returns (m: nat)
    requires layers != {}
    ensures m in layers && forall l | l in layers :: m <= l
  {
    m :| m in layers;
    var left := layers - {m};
    while left != {}
      invariant left <= layers && m in layers
      invariant forall l | l in layers && l !in left :: m <= l
      decreases |left|
    {
      var l :| l in left;
      if l < m {
        m := l;
      }
      left := left - {l};
    }
  }

  /** The reader's static metadata are not those of the newest boundary. */
  ghost predicate RefusedReplay(root: Root, top: Top, current: Replay, config: Config) {
    exists n | n in root && n.Committed? :: n.layer == top && !StaticMatches(Contents(root[n]), n, current, config)
  }

  /** What keeps a restore from succeeding: foreign metadata, bad evidence, or a checkpoint of one of the boundary's
      layers whose name is not spelled as the printer spells it. */
  ghost predicate Obstructed(root: Root, top: Top, current: Replay, cs: seq<Checkpoint>, config: Config,
                             evidence: Evidence)
  {
    var rs := Readings(cs, config.scope, evidence.journal);
    || (top >= 0 && (RefusedReplay(root, top, current, config) || !CanonicalWithin(rs, config.scope.first, top)))
    || !(AllFound(rs) && Agreeing(rs) && Contiguous(rs, config.scope))
  }

  /** What passes from one layer to the next: its inputs, batch by batch, and the replay metadata. */
  datatype Cache = Cache(inputs: seq<seq<Tensor>>, replay: Replay)

  /** The expectation settles what the boundary of a layer hands on: this cache. */
  ghost predicate Settles(expected: Expectation, layer: nat, cache: Cache, config: Config) {
    forall n: Name, files | n.Committed? && n.layer == layer && expected(n, files) ::
      Keeps(files, layer, cache.inputs, cache.replay, config)
  }

  /** A restore goes on with what is expected of the newest boundary, or with what it came with if there is none. */
  ghost predicate HandsOn(top: Top, cache: Cache, resumed: Cache, config: Config, expected: Expectation) {
    if top == -1 then resumed == cache
    else forall c | Settles(expected, top, c, config) :: resumed == c
  }

  lemma KeptIsHandedOn(name: Name, files: Files, cache: Cache, r: Loaded, config: Config, evidence: Evidence,
                       expected: Expectation)
    requires ReadsCommitted(files, name, cache.replay, r, config, evidence) && r.Loaded?
    requires name.Committed? && expected(name, files)
    ensures HandsOn(name.layer, cache, Cache(Batches(r.outputs), r.replay), config, expected)
  {
    hide ReadsCommitted, Keeps;
    forall c | Settles(expected, name.layer, c, config) ensures Cache(Batches(r.outputs), r.replay) == c {
      KeptIsLoaded(files, name, cache.replay, r, name.layer, c.inputs, c.replay, config, evidence);
    }
  }

  class Controller {
    const store: Store
    const deferPublication: bool
    const stopAfter: Option<nat>
    var deferred: map<nat, seq<Entry>>
    var catchup: map<nat, seq<Entry>>
    var prepared: set<nat>
    /** The layers whose packed modules were installed for publication, in order. */
    ghost var materialized: seq<nat>

    constructor (store: Store, deferPublication: bool, stopAfter: Option<nat>)
      ensures this.store == store && this.deferPublication == deferPublication && this.stopAfter == stopAfter
      ensures deferred == map[] && catchup == map[] && prepared == {} && materialized == []
    {
      this.store, this.deferPublication, this.stopAfter := store, deferPublication, stopAfter;
      deferred, catchup, prepared, materialized := map[], map[], {}, [];
    }

    /** What a method on the controller may do to the store: nothing that loses a boundary. */
    twostate predicate KeepsBoundary()
      reads this, store
    {
      && store.Valid() && store.evidence == old(store.evidence)
      && store.safe >= old(store.safe) && store.Newest() == old(store.Newest())
      && store.disk.anchor == old(store.disk.anchor) && SameCommitted(old(store.disk.live), store.disk.live)
    }

    /** The part of `restore` before discovery: load the boundary, split its index, and hand on its outputs and its
        replay. */
    method LoadBoundary(cache: Cache) returns (r: Restored, index: seq<Entry>, resumed: Cache)
      requires store.Valid() && deferred == map[]
      modifies this`deferred, store`disk, store`budget, store`safe
      ensures Draws(old(store.budget), store.budget, r.RestoreKilled?)
      ensures KeepsBoundary()
      ensures r.Start? ==>
                && r.layer == ResumeLayer(store.Newest())
                && DeferredPrefix(deferred, index, store.config.scope.first, store.Newest())
                && (store.Newest() >= 0 ==>
                      && !RefusedReplay(old(store.disk.live), store.Newest(), cache.replay, store.config)
                      && store.Newest() >= store.config.scope.first
                      && IsIndex(store.Newest(), index, store.config.scope)
                      && AllBacked(index, store.config.scope, store.evidence))
      ensures r.RestoreFailed? ==>
                store.Newest() >= 0 && RefusedReplay(old(store.disk.live), store.Newest(), cache.replay, store.config)
      ensures r.Start? ==> HandsOn(store.Newest(), cache, resumed, store.config, store.expected)
    {
      hide Safe, Load, IntactIn, StaticMatches, LayersWithin, IsIndex, AllBacked, ReadsCommitted;
      var reading := store.LoadLatest(cache.replay);
      index, resumed := [], cache;
      if reading.Dying? {
        return RestoreKilled, index, resumed;
      }
      if reading.NoBoundary? {
        return Start(0), index, resumed;
      }
      var boundary := reading.loaded;
      OneNewest(store.disk, store.safe, store.whole, reading.name);
      if boundary.Refused? {
        assert !StaticMatches(Contents(old(store.disk.live)[reading.name]), reading.name, cache.replay, store.config);
        return RestoreFailed, index, resumed;
      }
      index := boundary.index;
      IndexSplits(boundary.layer, index, store.config.scope);
      var byLayer := SplitByLayer(index, store.config.scope.first, boundary.layer);
      deferred := byLayer.value;
      resumed := Cache(Batches(boundary.outputs), boundary.replay);
      KeptIsHandedOn(reading.name, Contents(store.disk.live[reading.name]), cache, boundary, store.config,
                     store.evidence, store.expected);
      r := Start(boundary.layer + 1);
    }

    /** Discovery accounts for every layer of the boundary: each is discovered, with the entries that are deferred. */
    ghost predicate Accounted(discovered: map<nat, seq<Entry>>, start: nat)
      reads this
    {
      && (forall l: nat | store.config.scope.first <= l < start :: l in discovered)
      && (forall l | l in deferred :: l in discovered && discovered[l] == deferred[l])
    }

    /** Both cross-checks against discovery: every layer of the boundary is found, with the same entries. */
    method CrossCheck(discovered: map<nat, seq<Entry>>, start: nat) returns (agrees: bool)
      ensures agrees <==> Accounted(discovered, start)
    {
      agrees := true;
      var l := store.config.scope.first;
      while l < start
        invariant store.config.scope.first <= l
        invariant agrees <==> forall k | store.config.scope.first <= k < l && k < start :: k in discovered
      {
        agrees := agrees && l in discovered;
        l := l + 1;
      }
      agrees := agrees && forall l | l in deferred :: l in discovered && discovered[l] == deferred[l];
    }

    /** The catch-up layers are the complete layers behind the boundary, as discovery lists them. */
    ghost predicate CatchesUp(cs: seq<Checkpoint>, start: nat)
      reads this, store
    {
      var rs := Readings(cs, store.config.scope, store.evidence.journal);
      && (forall l :: l in catchup <==>
            start <= l && store.config.scope.first <= l && FullLayer(rs, store.config.scope, l))
      && (forall l | l in catchup :: Lists(catchup[l], EntriesAt(rs, l)))
    }

    lemma Catching(cs: seq<Checkpoint>, d: Discovery, start: nat)
      requires Discovered(d, Readings(cs, store.config.scope, store.evidence.journal), store.config.scope)
      requires d.Complete? && catchup == map l | l in d.layers && l >= start :: d.layers[l]
      ensures CatchesUp(cs, start)
    {
      hide Readings, EntriesAt, FullLayer;
    }

    lemma CrossCheckIff(index: seq<Entry>, cs: seq<Checkpoint>, d: Discovery)
      requires store.Valid() && Inspects(cs, store.evidence)
      requires DeferredPrefix(deferred, index, store.config.scope.first, store.Newest())
      requires store.Newest() >= 0 ==>
                 && store.Newest() >= store.config.scope.first
                 && IsIndex(store.Newest(), index, store.config.scope)
                 && AllBacked(index, store.config.scope, store.evidence)
      requires Discovered(d, Readings(cs, store.config.scope, store.evidence.journal), store.config.scope)
      requires d.Complete?
      ensures Accounted(d.layers, ResumeLayer(store.Newest())) <==>
                || store.Newest() == -1
                || CanonicalWithin(Readings(cs, store.config.scope, store.evidence.journal), store.config.scope.first,
                                   store.Newest())
    {
      hide Safe, IsIndex, AllBacked, CanonicalWithin, Discovered, Inspects, IntactIn, Readings;
      if store.Newest() >= 0 {
        RestoreAgreesIff(store.Newest(), index, cs, d, store.config.scope, store.evidence);
        if Accounted(d.layers, ResumeLayer(store.Newest())) {
          forall l: nat | store.config.scope.first <= l <= store.Newest() ensures AgreesAt(d, index, l) {
            assert l in deferred && deferred[l] == FilterLayer(index, l);
          }
        }
        if forall l: nat | store.config.scope.first <= l <= store.Newest() :: AgreesAt(d, index, l) {
          forall l: nat | l in deferred ensures l in d.layers && d.layers[l] == deferred[l] {
            assert AgreesAt(d, index, l);
          }
          forall l: nat | store.config.scope.first <= l <= store.Newest() ensures l in d.layers {
            assert AgreesAt(d, index, l);
          }
        }
      }
    }

    /** `restore`: the run resumes right behind the newest boundary, with its layers deferred and every further
        complete layer to catch up. Unless it is killed, it fails if and only if it is obstructed. */
    method Restore(cache: Cache, cs: seq<Checkpoint>)
      returns (r: Restored, resumed: Cache, ghost index: seq<Entry>)
      requires store.Valid() && deferred == map[] && Inspects(cs, store.evidence)
      modifies this`deferred, this`catchup, this`prepared, store`disk, store`budget, store`safe
      ensures Draws(old(store.budget), store.budget, r.RestoreKilled?)
      ensures KeepsBoundary()
      ensures r.Start? ==>
                && r.layer == (if store.Newest() == -1 then 0 else store.Newest() + 1)
                && DeferredPrefix(deferred, index, store.config.scope.first, store.Newest())
                && prepared == {}
                && CatchesUp(cs, r.layer)
                && HandsOn(store.Newest(), cache, resumed, store.config, store.expected)
                && !Obstructed(old(store.disk.live), store.Newest(), cache.replay, cs, store.config, store.evidence)
      ensures r.RestoreFailed? ==>
                Obstructed(old(store.disk.live), store.Newest(), cache.replay, cs, store.config, store.evidence)
    {
      hide Safe, Load, IntactIn, StaticMatches, IsIndex, AllBacked, RefusedReplay, CanonicalWithin, Readings,
        EntriesAt, Contiguous, Agreeing, AllFound, Inspects, SameCommitted, Accounted, HandsOn;
      var started, loadedIndex, loaded := LoadBoundary(cache);
      index, resumed := loadedIndex, loaded;
      if !started.Start? {
        return started, resumed, index;
      }
      var d := Discover(cs, store.config.scope, store.evidence.journal);
      if !d.Complete? {
        return RestoreFailed, resumed, index;
      }
      CrossCheckIff(index, cs, d);
      var agrees := CrossCheck(d.layers, started.layer);
      if !agrees {
        return RestoreFailed, resumed, index;
      }
      catchup := map l | l in d.layers && l >= started.layer :: d.layers[l];
      prepared := {};
      Catching(cs, d, started.layer);
      r := started;
    }

    /** `prepare_catchup_layer`: each catch-up layer is installed at most once. */
    method PrepareCatchup(layer: nat) returns (ok: bool)
      modifies this`prepared
      ensures ok <==> layer in catchup && layer !in old(prepared)
      ensures prepared == old(prepared) + if ok then {layer} else {}
    {
      ok := layer in catchup && layer !in prepared;
      if ok {
        prepared := prepared + {layer};
      }
    }

    /** `finalize_catchup_layer`: only what was prepared is offloaded again. */
    method FinalizeCatchup(layer: nat) returns (ok: bool)
      ensures ok <==> layer in prepared
    {
      ok := layer in prepared;
    }

    /** Adopt the boundary just committed as the next layer's input: what comes back is what was committed. */
    method AdoptReplay(q: Request, ghost index: seq<Entry>) returns (r: CommitOutcome, inputs: seq<seq<Tensor>>)
      requires store.Valid() && store.Newest() == q.layer >= 0
      requires Checked(q, store.config, store.evidence) && Writable(q, store.config)
      requires OnlyHolds(store.disk.live, BoundaryOf(q, index, store.config, store.evidence), store.config,
                         store.evidence)
      modifies store`disk, store`budget, store`safe
      ensures Draws(old(store.budget), store.budget, r.CommitKilled?)
      ensures KeepsBoundary()
      ensures r.Bounded? || r.CommitKilled?
      ensures r.Bounded? ==> inputs == q.outputs
    {
      hide Safe, Load, IntactIn, OnlyHolds, Trusted, StaticMatches, Checked, Writable, AreOutputs, ReadsCommitted;
      label Before:
      var reading := store.LoadLatest(q.replay);
      if reading.Dying? {
        return CommitKilled, [];
      }
      if reading.NoBoundary? {
        assert false;
      }
      OnlyLoads(old@Before(store.disk.live), store.disk.live, q, index, reading.name, store.config, store.evidence);
      if reading.loaded.Refused? || reading.loaded.layer != q.layer {
        assert false;
      }
      BatchesOf(reading.loaded.outputs, q.outputs);
      r, inputs := Bounded, Batches(reading.loaded.outputs);
    }

    /** Commit the boundary of a routed layer. A replay that became part of it is adopted from there: either way the
        next layer's input is what this layer put out. */
    method CommitBoundary(q: Request) returns (r: CommitOutcome, inputs: seq<seq<Tensor>>)
      requires store.Valid() && q.layer >= 0 && Meets(q, store.config, store.expected)
      modifies store`disk, store`budget, store`safe
      ensures Draws(old(store.budget), store.budget, r.CommitKilled?)
      ensures store.Valid() && store.evidence == old(store.evidence) && store.safe >= old(store.safe)
      ensures AnchorStays(old(store.disk.anchor), store.disk.anchor)
      ensures r.Raised? || r.Bounded? || r.CommitKilled?
      ensures if store.Newest() == old(store.Newest()) then SameCommitted(old(store.disk.live), store.disk.live)
              else && store.Newest() == q.layer && Admissible(q, old(store.Newest()), store.config, store.evidence)
                   && ShowsRequest(store.disk.live, q, store.config, store.evidence)
      ensures r.Raised? ==> !Admissible(q, old(store.Newest()), store.config, store.evidence)
      ensures r.Raised? ==> store.Newest() == old(store.Newest())
      ensures r.Bounded? ==>
                && Admissible(q, old(store.Newest()), store.config, store.evidence)
                && store.safe == store.Newest() == q.layer && inputs == q.outputs
                && store.disk.anchor == MakeRoot(old(store.disk)).anchor
    {
      hide Safe, IntactIn, Checked, Writable, OnlyHolds, Shows, Firm, IndexOnTop, SameCommitted, BodyOf, MakeRoot,
        Meets;
      inputs := q.outputs;
      var ending, index := store.Commit(q);
      if ending.Rejected? {
        return Raised, inputs;
      }
      if ending.Killed? {
        return CommitKilled, inputs;
      }
      r := Bounded;
      OnlyHoldsShows(store.disk.live, BoundaryOf(q, index, store.config, store.evidence), store.config, store.evidence);
      if q.replayed {
        ghost var committed := store.disk.live;
        r, inputs := AdoptReplay(q, index);
        ShowsRequestKept(committed, store.disk.live, q, store.config, store.evidence);
        store.SafeIsVisible();
      }
    }

    function DeferredEntries(layer: int): Option<seq<Entry>>
      reads this
    {
      if layer in deferred then Some(deferred[layer]) else None
    }

    /** `commit_layer`. A routed layer is committed and, if publication is deferred, joins the deferred prefix. */
    method CommitLayer(q: Request, entries: seq<Entry>) returns (r: CommitOutcome, inputs: seq<seq<Tensor>>)
      requires store.Valid() && (q.layer >= store.config.scope.first ==> Meets(q, store.config, store.expected))
      requires q.entries == entries
      requires q.layer >= 0 && forall l | l in deferred :: l <= store.Newest()
      modifies this`deferred, store`disk, store`budget, store`safe
      ensures Draws(old(store.budget), store.budget, r.CommitKilled?)
      ensures store.Valid() && store.evidence == old(store.evidence) && store.safe >= old(store.safe)
      ensures AnchorStays(old(store.disk.anchor), store.disk.anchor)
      ensures if store.Newest() == old(store.Newest()) then SameCommitted(old(store.disk.live), store.disk.live)
              else && store.Newest() == q.layer == NextLayer(old(store.Newest()), store.config.scope)
                   && ShowsRequest(store.disk.live, q, store.config, store.evidence)
      ensures r.NotTargeted? || r.Bounded? || r.Stopped? ==> inputs == q.outputs
      ensures r.NotTargeted? ==> q.layer < store.config.scope.first && entries == []
      ensures r.NotTargeted? || r.Raised? ==> store.Newest() == old(store.Newest())
      ensures r.Raised? ==>
                if q.layer < store.config.scope.first then entries != []
                else !Admissible(q, old(store.Newest()), store.config, store.evidence)
      ensures r.Bounded? || r.Stopped? ==>
                && Admissible(q, old(store.Newest()), store.config, store.evidence)
                && store.safe == store.Newest() == q.layer == NextLayer(old(store.Newest()), store.config.scope)
                && store.disk.anchor == MakeRoot(old(store.disk)).anchor
      ensures r.Bounded? || r.Stopped? ==>
                deferred == if deferPublication then old(deferred)[q.layer := entries] else old(deferred)
      ensures !(r.Bounded? || r.Stopped?) ==> deferred == old(deferred)
      ensures r.Stopped? <==> (r.Bounded? || r.Stopped?) && stopAfter == Some(q.layer)
    {
      hide Safe, IntactIn, Checked, Writable, ShowsRequest, Meets;
      inputs := q.outputs;
      if q.layer < store.config.scope.first {
        return (if entries == [] then NotTargeted else Raised), inputs;
      }
      r, inputs := CommitBoundary(q);
      if !r.Bounded? {
        return;
      }
      if deferPublication {
        var existing := DeferredEntries(q.layer);
        if existing != None && existing != Some(entries) {
          assert false;
        }
        deferred := deferred[q.layer := entries];
      }
      r := if stopAfter == Some(q.layer) then Stopped else Bounded;
    }

    /** `materialize_deferred_prefix`: every deferred layer is installed once, in ascending order. */
    method Materialize(force: bool, ghost first: nat, ghost count: nat)
      requires forall l :: l in deferred <==> first <= l < first + count
      modifies this`deferred, this`materialized
      ensures deferPublication && !force ==> deferred == old(deferred) && materialized == old(materialized)
      ensures !deferPublication || force ==>
                deferred == map[] && materialized == old(materialized) + Interval(first, count)
    {
      if deferred == map[] {
        assert count > 0 ==> first in deferred;
        return;
      }
      if deferPublication && !force {
        return;
      }
      var left := deferred.Keys;
      ghost var installed := 0;
      while left != {}
        invariant installed <= count && deferred == old(deferred)
        invariant forall l :: l in left <==> first + installed <= l < first + count
        invariant materialized == old(materialized) + Interval(first, installed)
        decreases |left|
      {
        assert first + installed in left;
        var layer := Minimum(left);
        assert layer == first + installed;
        materialized := materialized + [layer];
        left := left - {layer};
        installed := installed + 1;
        assert Interval(first, installed) == Interval(first, installed - 1) + [layer];
      }
      assert installed < count ==> first + installed in left;
      deferred := map[];
    }
  }
}
