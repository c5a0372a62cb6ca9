/** Whole runs: any number of sessions on one boundary store, each possibly killed, with power losses between. */
module BoundaryRun {
  import opened Budgets
  import opened Options
  import opened ReplayMetadata
  import opened ProjectionIndex
  import opened ProjectionDiscovery
  import opened BoundaryManifest
  import opened BoundaryDisk
  import opened BoundaryStaging
  import opened BoundaryStore
  import opened BoundaryRestore
  import opened BoundaryController

  /** The model on the calibration data: what its first layer gets, and what each layer makes of what it gets. */
  datatype Model = Model(initial: Cache, run: (nat, Cache) -> Cache)

  /** What reaches this layer in one uninterrupted run. */
  function Straight(model: Model, layer: nat): Cache {
    if layer == 0 then model.initial else model.run(layer - 1, Straight(model, layer - 1))
  }

  /** What a session brings to a layer: its name, whether its outputs are a durable replay, its projections, and the
      evidence once they are recorded. */
  datatype Proofs = Proofs(layerName: string, replayed: bool, entries: seq<Entry>, learned: Evidence)

  /** What one layer yields: the request for its boundary, and the evidence once its projections are recorded. */
  datatype Work = Work(request: Request, learned: Evidence)

  /** The boundary of a layer holds what the layer made of its inputs. */
  function WorkOn(layer: nat, after: Cache, proofs: Proofs): Work {
    Work(Request(layer, proofs.layerName, after.inputs, proofs.replayed, after.replay, proofs.entries), proofs.learned)
  }

  /** What the layers of one uninterrupted run yield, with the proofs of this session. */
  function Working(model: Model, proofs: nat -> Proofs): nat -> Work {
    (layer: nat) => WorkOn(layer, Straight(model, layer + 1), proofs(layer))
  }

  /** Every boundary of a run is to hold what one uninterrupted run makes of its layer. */
  ghost function Expect(model: Model, config: Config): Expectation {
    (n: Name, files: Files) =>
      n.Committed? ==>
        Keeps(files, n.layer, Straight(model, n.layer + 1).inputs, Straight(model, n.layer + 1).replay, config)
  }

  lemma ExpectSettles(model: Model, layer: nat, config: Config)
    ensures Settles(Expect(model, config), layer, Straight(model, layer + 1), config)
  {
    hide Keeps;
  }

  lemma WorkMeets(model: Model, layer: nat, proofs: Proofs, config: Config)
    ensures Meets(WorkOn(layer, Straight(model, layer + 1), proofs).request, config, Expect(model, config))
  {
    hide Stores;
    var q := WorkOn(layer, Straight(model, layer + 1), proofs).request;
    forall n: Name, files | n.Committed? && n.layer == q.layer && Stores(files, q, config)
      ensures Expect(model, config)(n, files)
    {
      assert Keeps(files, n.layer, q.outputs, q.replay, config);
    }
  }

  datatype SessionEnd = Completed | Interrupted | SessionFailed | StoppedAfter(layer: nat)

  /** A session with its environment, or a power loss that keeps some of the unsynced changes. */
  datatype Event =
    | Launch(proofs: nat -> Proofs, cache: Cache, checkpoints: seq<Checkpoint>, stopAfter: Option<nat>, budget: Budget)
    | Loss(after: Disk, keep: seq<bool>)

  /** How many routed layers have a boundary when `top` is the newest. */
  function Progress(first: nat, top: Top): nat {
    if top < first then 0 else top - first + 1
  }

  /** Work that a session can commit: dense layers yield no projections, routed ones complete evidence and
      well-shaped outputs. */
  predicate Usable(layer: nat, work: Work, before: Evidence, config: Config) {
    && Extends(before, work.learned)
    && if layer < config.scope.first then work.request.entries == []
       else Checked(work.request, config, work.learned) && Writable(work.request, config)
  }

  /** The evidence when a layer's turn comes. */
  function EvidenceBefore(layer: nat, start: nat, work: nat -> Work, initial: Evidence): Evidence
    requires start <= layer
  {
    if layer == start then initial else work(layer - 1).learned
  }

  /** Some layer of the session yields unusable work. */
  ghost predicate Unusable(start: nat, work: nat -> Work, initial: Evidence, config: Config) {
    exists layer: nat | start <= layer <= config.scope.last ::
      !Usable(layer, work(layer), EvidenceBefore(layer, start, work, initial), config)
  }

  /** The evidence only ever grows. */
  lemma ExtendsOn(a: Evidence, b: Evidence, c: Evidence)
    requires Extends(a, b) && Extends(b, c)
    ensures Extends(a, c)
  {}

  /** What became of the committed directories: nothing, or the newest one shows what its layer's work asked for. */
  ghost predicate Delivered(before: Root, was: Top, after: Root, top: Top, work: nat -> Work, config: Config) {
    if top == was then SameCommitted(before, after)
    else top > was && ShowsRequest(after, work(top).request, config, work(top).learned)
  }

  lemma NothingDelivered(root: Root, top: Top, evidence: Evidence, work: nat -> Work, config: Config)
    ensures Delivered(root, top, root, top, work, config) && Extends(evidence, evidence)
  {}

  lemma NothingNewDelivered(before: Root, after: Root, top: Top, work: nat -> Work, config: Config)
    requires SameCommitted(before, after)
    ensures Delivered(before, top, after, top, work, config)
  {}

  lemma DeliveredOn(before: Root, was: Top, between: Root, mid: Top, after: Root, top: Top, work: nat -> Work,
                    config: Config)
    requires Delivered(before, was, between, mid, work, config) && Delivered(between, mid, after, top, work, config)
    ensures Delivered(before, was, after, top, work, config)
  {
    hide ShowsRequest;
    if top == mid && mid > was {
      ShowsRequestKept(between, after, work(mid).request, config, work(mid).learned);
    }
  }

  /** Everything that outlives a session, between two events. */
  datatype Moment = Moment(disk: Disk, safe: Top, evidence: Evidence)

  ghost function NewestAt(m: Moment): Top {
    LiveTop(m.disk, m.safe)
  }

  ghost function DurableAt(m: Moment): Top {
    Assured(m.disk, m.safe)
  }

  /** The newest visible boundary is one of the routed layers, complete and as expected, and so is the newest synced
      one. */
  ghost predicate Sound(m: Moment, config: Config, model: Model) {
    && Rooted(m.disk) && Safe(m.disk, m.safe, IntactIn(config, m.evidence, Expect(model, config)))
    && (NewestAt(m) == -1 || config.scope.first <= NewestAt(m) <= config.scope.last)
  }

  /** This directory holds a boundary of the newest layer. */
  ghost predicate IsNewest(m: Moment, n: Name) {
    n in m.disk.live && n.Committed? && n.layer == NewestAt(m)
  }

  /** There is a newest boundary if any layer is committed, and it holds, tensor by tensor, what one uninterrupted run
      hands to the layer behind it. */
  ghost predicate OnTrack(m: Moment, config: Config, model: Model) {
    && (NewestAt(m) >= 0 ==> exists n :: IsNewest(m, n))
    && forall n | IsNewest(m, n) ::
         var cache := Straight(model, n.layer + 1);
         Keeps(Contents(m.disk.live[n]), n.layer, cache.inputs, cache.replay, config)
  }

  lemma SoundIsOnTrack(m: Moment, config: Config, model: Model)
    requires Sound(m, config, model)
    ensures OnTrack(m, config, model)
  {
    hide Keeps, Intact;
    var whole := IntactIn(config, m.evidence, Expect(model, config));
    if NewestAt(m) >= 0 {
      var n :| n in m.disk.live && n.Committed? && n.layer == NewestAt(m);
      assert IsNewest(m, n);
    }
    forall n | IsNewest(m, n) ensures Expect(model, config)(n, Contents(m.disk.live[n])) {
      TopIsGood(m.disk, m.safe, whole, n);
    }
  }

  /** Both files are absent, or both are there with the same content. */
  predicate SameFile(a: Files, b: Files, p: Path) {
    (p in a <==> p in b) && (p in a ==> a[p] == b[p])
  }

  /** However two runs of the same model were interrupted: where both have reached the same layer, they hold the same
      shards. */
  lemma InterruptionsLeaveNoTrace(a: Moment, b: Moment, n: Name, k: Name, config: Config, model: Model)
    requires OnTrack(a, config, model) && OnTrack(b, config, model)
    requires NewestAt(a) == NewestAt(b) && IsNewest(a, n) && IsNewest(b, k)
    ensures forall p: Path | !p.ManifestPath? :: SameFile(Contents(a.disk.live[n]), Contents(b.disk.live[k]), p)
  {
    hide Describes, Straight;
    var f, g := Contents(a.disk.live[n]), Contents(b.disk.live[k]);
    var cache := Straight(model, n.layer + 1);
    assert Keeps(f, n.layer, cache.inputs, cache.replay, config);
    assert Keeps(g, n.layer, cache.inputs, cache.replay, config);
    forall p: Path | !p.ManifestPath? ensures SameFile(f, g, p) {
      if p.batch < |cache.inputs| {
        assert p in f && p in g;
      }
    }
  }

  /** The restore of a session fails from here. */
  ghost predicate ObstructedAt(m: Moment, current: Replay, cs: seq<Checkpoint>, config: Config) {
    Obstructed(m.disk.live, NewestAt(m), current, cs, config, m.evidence)
  }

  /** Some layer that a session has left from here yields unusable work. */
  ghost predicate UnusableAt(m: Moment, work: nat -> Work, config: Config) {
    Unusable(ResumeLayer(NewestAt(m)), work, m.evidence, config)
  }

  /** What one event of a history reports. */
  datatype Report =
    | Launched(end: SessionEnd, resumed: Option<nat>, installed: seq<nat>)
    | Lost
    | Skipped

  /** An event that cannot happen at this moment: checkpoints that are not those of the store, a start from the first
      layer on other calibration data, or a loss with another outcome than a power loss can have. */
  ghost predicate Misfit(event: Event, m: Moment, model: Model) {
    match event
    case Launch(proofs, cache, checkpoints, stopAfter, budget) =>
      !Inspects(checkpoints, m.evidence) || (NewestAt(m) == -1 && cache != model.initial)
    case Loss(after, keep) => !LossOutcome(m.disk, after, keep)
  }

  /** Why a session ended. It is killed only with a budget, fails only when it is obstructed or a layer yields unusable
      work, stops only where it was told to, and completes only with every layer committed and installed once, in
      order. */
  ghost predicate Ended(event: Event, before: Moment, r: Report, after: Moment, config: Config, model: Model)
    requires event.Launch? && r.Launched?
  {
    match r.end
    case Interrupted => event.budget.Left?
    case SessionFailed =>
      if r.resumed.None? then ObstructedAt(before, event.cache.replay, event.checkpoints, config)
      else UnusableAt(before, Working(model, event.proofs), config)
    case StoppedAfter(layer) => r.resumed.Some? && event.stopAfter == Some(layer) && NewestAt(after) == layer
    case Completed =>
      && r.resumed.Some? && !UnusableAt(before, Working(model, event.proofs), config)
      && NewestAt(after) == config.scope.last
      && r.installed == Interval(config.scope.first, Progress(config.scope.first, config.scope.last))
  }

  /** A session resumes right behind the newest boundary if nothing obstructs it, and takes no boundary away: it leaves
      every committed directory as it was, or the newest one shows what the work of its layer asked for. */
  ghost predicate LaunchAccounts(event: Event, before: Moment, r: Report, after: Moment, config: Config, grounded: bool,
                                 model: Model)
    requires event.Launch? && r.Launched?
  {
    && (r.resumed.Some? ==>
          && r.resumed.value == (if NewestAt(before) == -1 then 0 else NewestAt(before) + 1)
          && !ObstructedAt(before, event.cache.replay, event.checkpoints, config)
          && (before.disk.anchor.Unsynced? ==> (after.disk.anchor.Synced? <==> grounded)))
    && (before.disk.anchor.Absent? ==> !after.disk.anchor.Synced?)
    && DurableAt(after) >= DurableAt(before) && Extends(before.evidence, after.evidence)
    && Delivered(before.disk.live, NewestAt(before), after.disk.live, NewestAt(after), Working(model, event.proofs),
                 config)
    && Ended(event, before, r, after, config, model)
  }

  /** A power loss takes layers from the newest one on, but none of the durable ones, and adds none. */
  ghost predicate LossAccounts(event: Event, before: Moment, after: Moment)
    requires event.Loss?
  {
    && after.disk == event.after && after.evidence == before.evidence
    && DurableAt(before) <= DurableAt(after) == NewestAt(after) <= NewestAt(before)
  }

  /** What one event did, from the moment before it to the moment after it. */
  ghost predicate Accounts(event: Event, before: Moment, r: Report, after: Moment, config: Config, grounded: bool,
                           model: Model)
  {
    if Misfit(event, before, model) then r.Skipped? && after == before
    else if event.Launch? then r.Launched? && LaunchAccounts(event, before, r, after, config, grounded, model)
    else r.Lost? && LossAccounts(event, before, after)
  }

  /** A session that no budget kills, no stop ends and nothing hinders leaves every layer committed and installed. */
  lemma UnhinderedCompletes(event: Event, before: Moment, r: Report, after: Moment, config: Config, grounded: bool,
                            model: Model)
    requires Accounts(event, before, r, after, config, grounded, model) && !Misfit(event, before, model)
    requires event.Launch? && event.budget.Unlimited? && event.stopAfter.None?
    requires !ObstructedAt(before, event.cache.replay, event.checkpoints, config)
    requires !UnusableAt(before, Working(model, event.proofs), config)
    ensures r.Launched? && r.end.Completed? && NewestAt(after) == config.scope.last
    ensures r.installed == Interval(config.scope.first, Progress(config.scope.first, config.scope.last))
  {
    hide Delivered, Extends, ObstructedAt, UnusableAt, LiveTop;
  }

  /** The layers of a session before this one all yielded usable work. */
  ghost predicate Served(start: nat, layer: nat, work: nat -> Work, initial: Evidence, config: Config) {
    forall l: nat | start <= l < layer :: Usable(l, work(l), EvidenceBefore(l, start, work, initial), config)
  }

  lemma ServedNone(start: nat, work: nat -> Work, initial: Evidence, config: Config)
    ensures Served(start, start, work, initial, config)
  {}

  lemma ServedNext(start: nat, layer: nat, work: nat -> Work, initial: Evidence, config: Config)
    requires start <= layer && Served(start, layer, work, initial, config)
    requires Usable(layer, work(layer), EvidenceBefore(layer, start, work, initial), config)
    ensures Served(start, layer + 1, work, initial, config)
  {
    hide Usable, EvidenceBefore;
  }

  lemma ServedAll(start: nat, work: nat -> Work, initial: Evidence, config: Config)
    ensures Served(start, config.scope.last + 1, work, initial, config)
            <==> !Unusable(start, work, initial, config)
  {
    hide Usable, EvidenceBefore;
  }

  lemma UnusableLayer(start: nat, layer: nat, work: nat -> Work, initial: Evidence, config: Config)
    requires start <= layer <= config.scope.last
    requires !Usable(layer, work(layer), EvidenceBefore(layer, start, work, initial), config)
    ensures Unusable(start, work, initial, config)
  {
    hide Usable, EvidenceBefore;
  }

  class Run {
    const store: Store
    const model: Model
    /** The layers whose boundary became visible, in order, over all sessions. */
    ghost var committed: seq<nat>

    ghost predicate Consistent()
      reads this, store
    {
      && store.Valid() && store.expected == Expect(model, store.config)
      && (store.Newest() == -1 || store.config.scope.first <= store.Newest() <= store.config.scope.last)
      && committed == Interval(store.config.scope.first, Progress(store.config.scope.first, store.Newest()))
    }

    ghost function Now(): Moment
      reads store
    {
      Moment(store.disk, store.safe, store.evidence)
    }

    constructor (config: Config, grounded: bool, model: Model)
      requires config.scope.experts > 0 && config.scope.first <= config.scope.last
      ensures Consistent() && fresh(store) && store.config == config && store.grounded == grounded
      ensures this.model == model && committed == []
    {
      this.model := model;
      store := new Store(config, grounded, Expect(model, config));
      committed := [];
    }

    /** Note the boundary that a commit made visible. */
    ghost method Record(layer: nat, before: Top)
      requires store.Valid() && store.expected == Expect(model, store.config)
      requires committed == Interval(store.config.scope.first, Progress(store.config.scope.first, before))
      requires before == -1 || store.config.scope.first <= before <= store.config.scope.last
      requires layer <= store.config.scope.last
      requires store.Newest() == before || (store.Newest() == layer == NextLayer(before, store.config.scope))
      modifies this`committed
      ensures Consistent()
      ensures committed == if store.Newest() == before then old(committed) else old(committed) + [layer]
    {
      hide Safe, IntactIn;
      if store.Newest() != before {
        committed := committed + [layer];
      }
    }

    /** One layer of a session: process it, then commit its boundary. */
    method ProcessLayer(controller: Controller, layer: nat, work: Work)
      returns (r: CommitOutcome, inputs: seq<seq<Tensor>>)
      requires Consistent() && controller.store == store
      requires work.request.layer == layer && Meets(work.request, store.config, store.expected)
      requires layer <= store.config.scope.last
      requires forall l | l in controller.deferred :: l <= store.Newest()
      modifies this`committed, controller`deferred, store`disk, store`budget, store`safe, store`evidence, store`whole
      ensures Draws(old(store.budget), store.budget, r.CommitKilled?)
      ensures Consistent() && old(committed) <= committed && store.safe >= old(store.safe)
      ensures AnchorStays(old(store.disk.anchor), store.disk.anchor)
      ensures store.Newest() == old(store.Newest())
              || (store.Newest() == layer == NextLayer(old(store.Newest()), store.config.scope))
      ensures if store.Newest() == old(store.Newest()) then SameCommitted(old(store.disk.live), store.disk.live)
              else ShowsRequest(store.disk.live, work.request, store.config, work.learned)
      ensures Extends(old(store.evidence), store.evidence)
      ensures layer < store.config.scope.first ==>
                controller.deferred == old(controller.deferred) && store.Newest() == old(store.Newest())
      ensures r.Raised? ==>
                || !Usable(layer, work, old(store.evidence), store.config)
                || (layer >= store.config.scope.first && layer != NextLayer(old(store.Newest()), store.config.scope))
      ensures !r.Raised? ==> store.evidence == work.learned
      ensures r.NotTargeted? || r.Bounded? || r.Stopped? ==> Usable(layer, work, old(store.evidence), store.config)
      ensures r.NotTargeted? || r.Bounded? ==> inputs == work.request.outputs
      ensures r.NotTargeted? ==> layer < store.config.scope.first
      ensures r.Bounded? || r.Stopped? ==> store.safe == store.Newest() == layer >= store.config.scope.first
      ensures r.Stopped? ==> controller.stopAfter == Some(layer)
      ensures r.Bounded? ==>
                controller.deferred.Keys ==
                old(controller.deferred.Keys) + if controller.deferPublication then {layer} else {}
    {
      hide Safe, IntactIn, Checked, Writable, ShowsRequest, Meets, Expect;
      if !Extends(store.evidence, work.learned) {
        return Raised, work.request.outputs;
      }
      store.Learn(work.learned);
      ghost var before := store.Newest();
      r, inputs := controller.CommitLayer(work.request, work.request.entries);
      Record(layer, before);
    }

    /** The deferred prefix is what has a boundary, and the next layer is the one behind it. */
    ghost predicate InStep(controller: Controller, layer: nat)
      reads this, store, controller
    {
      && controller.store == store && controller.deferPublication
      && (forall l :: l in controller.deferred <==> store.config.scope.first <= l <= store.Newest())
      && (forall p | p in controller.prepared :: p < layer)
      && (layer == store.Newest() + 1 || (store.Newest() == -1 && layer <= store.config.scope.first))
    }

    /** A layer whose projections are already complete is installed from them, once, instead of being quantized. */
    method CatchUp(controller: Controller, layer: nat)
      requires layer !in controller.prepared
      modifies controller`prepared
      ensures controller.prepared == old(controller.prepared) + if layer in controller.catchup then {layer} else {}
    {
      if layer in controller.catchup {
        var prepared := controller.PrepareCatchup(layer);
        var offloaded := controller.FinalizeCatchup(layer);
        if !prepared || !offloaded {
          assert false;
        }
      }
    }

    /** One step of the layer loop. */
    method Advance(controller: Controller, layer: nat, proofs: nat -> Proofs, cache: Cache)
      returns (r: CommitOutcome, next: Cache)
      requires Consistent() && InStep(controller, layer) && layer <= store.config.scope.last
      requires cache == Straight(model, layer)
      modifies this`committed, controller`deferred, controller`prepared
      modifies store`disk, store`budget, store`safe, store`evidence, store`whole
      ensures Draws(old(store.budget), store.budget, r.CommitKilled?)
      ensures Consistent() && old(committed) <= committed && store.safe >= old(store.safe)
      ensures Delivered(old(store.disk.live), old(store.Newest()), store.disk.live, store.Newest(),
                        Working(model, proofs), store.config)
      ensures Extends(old(store.evidence), store.evidence)
      ensures AnchorStays(old(store.disk.anchor), store.disk.anchor)
      ensures r.NotTargeted? || r.Bounded? ==> InStep(controller, layer + 1) && store.evidence == proofs(layer).learned
      ensures r.NotTargeted? || r.Bounded? ==> next == Straight(model, layer + 1)
      ensures layer !in old(controller.prepared)
      ensures controller.prepared == old(controller.prepared) + if layer in controller.catchup then {layer} else {}
      ensures r.Raised? ==> !Usable(layer, Working(model, proofs)(layer), old(store.evidence), store.config)
      ensures !r.Raised? && !r.CommitKilled? ==>
                Usable(layer, Working(model, proofs)(layer), old(store.evidence), store.config)
      ensures r.Stopped? ==> controller.stopAfter == Some(layer) && store.safe == store.Newest() == layer
    {
      hide Safe, IntactIn, Usable, MakeRoot, ShowsRequest, SameCommitted, Meets, Expect, Extends;
      CatchUp(controller, layer);
      var after := model.run(layer, cache);
      WorkMeets(model, layer, proofs(layer), store.config);
      var inputs;
      r, inputs := ProcessLayer(controller, layer, WorkOn(layer, after, proofs(layer)));
      next := Cache(inputs, after.replay);
    }

    lemma StartsWithin(controller: Controller, start: nat)
      requires Consistent() && InStep(controller, start)
      ensures start <= store.config.scope.last + 1
    {}

    /** The layer loop of a session. */
    method ProcessLayers(controller: Controller, start: nat, proofs: nat -> Proofs, cache: Cache)
      returns (end: SessionEnd)
      requires Consistent() && InStep(controller, start) && cache == Straight(model, start)
      modifies this`committed, controller`deferred, controller`prepared
      modifies store`disk, store`budget, store`safe, store`evidence, store`whole
      ensures Draws(old(store.budget), store.budget, end.Interrupted?)
      ensures Consistent() && old(committed) <= committed && store.safe >= old(store.safe)
      ensures Delivered(old(store.disk.live), old(store.Newest()), store.disk.live, store.Newest(),
                        Working(model, proofs), store.config)
      ensures Extends(old(store.evidence), store.evidence)
      ensures AnchorStays(old(store.disk.anchor), store.disk.anchor)
      ensures end.Completed? ==> InStep(controller, store.config.scope.last + 1)
      ensures end.Completed? ==>
                forall l | l in controller.catchup && start <= l <= store.config.scope.last :: l in controller.prepared
      ensures end.Completed? ==> !Unusable(start, Working(model, proofs), old(store.evidence), store.config)
      ensures end.SessionFailed? ==> Unusable(start, Working(model, proofs), old(store.evidence), store.config)
      ensures end.StoppedAfter? ==> controller.stopAfter == Some(end.layer) && store.safe == store.Newest() == end.layer
    {
      hide Safe, IntactIn, Usable, InStep, Served, Unusable, Delivered, Extends, Expect, Straight;
      ghost var work := Working(model, proofs);
      StartsWithin(controller, start);
      ServedNone(start, work, store.evidence, store.config);
      NothingDelivered(store.disk.live, store.Newest(), store.evidence, work, store.config);
      var layer, current := start, cache;
      while layer <= store.config.scope.last
        invariant Draws(old(store.budget), store.budget, false)
        invariant Consistent() && old(committed) <= committed && store.safe >= old(store.safe)
        invariant Delivered(old(store.disk.live), old(store.Newest()), store.disk.live, store.Newest(), work,
                            store.config)
        invariant Extends(old(store.evidence), store.evidence)
        invariant AnchorStays(old(store.disk.anchor), store.disk.anchor)
        invariant forall l | l in controller.catchup && start <= l < layer :: l in controller.prepared
        invariant Served(start, layer, work, old(store.evidence), store.config)
        invariant current == Straight(model, layer)
        invariant InStep(controller, layer) && start <= layer <= store.config.scope.last + 1
        invariant store.evidence == EvidenceBefore(layer, start, work, old(store.evidence))
      {
        label Before:
        var outcome, next := Advance(controller, layer, proofs, current);
        DeliveredOn(old(store.disk.live), old(store.Newest()), old@Before(store.disk.live), old@Before(store.Newest()),
                    store.disk.live, store.Newest(), work, store.config);
        ExtendsOn(old(store.evidence), old@Before(store.evidence), store.evidence);
        match outcome {
          case Raised =>
            UnusableLayer(start, layer, work, old(store.evidence), store.config);
            return SessionFailed;
          case CommitKilled => return Interrupted;
          case Stopped => return StoppedAfter(layer);
          case Bounded =>
          case NotTargeted =>
        }
        ServedNext(start, layer, work, old(store.evidence), store.config);
        layer, current := layer + 1, next;
      }
      ServedAll(start, work, old(store.evidence), store.config);
      end := Completed;
    }

    /** Write into the run state, then restore from the newest boundary. */
    method Resume(controller: Controller, cache: Cache, cs: seq<Checkpoint>) returns (r: Restored, resumed: Cache)
      requires Consistent() && Inspects(cs, store.evidence) && controller.store == store && controller.deferPublication
      requires controller.deferred == map[] && controller.catchup == map[]
      requires store.Newest() == -1 ==> cache == model.initial
      modifies controller`deferred, controller`catchup, controller`prepared, store`disk, store`budget, store`safe
      ensures Draws(old(store.budget), store.budget, r.RestoreKilled?)
      ensures Consistent() && store.safe >= old(store.safe) && store.Newest() == old(store.Newest())
      ensures store.evidence == old(store.evidence) && SameCommitted(old(store.disk.live), store.disk.live)
      ensures || store.disk.anchor == old(store.disk.anchor)
              || store.disk.anchor == SyncRunState(old(store.disk), store.grounded).anchor
      ensures !r.RestoreKilled? ==> store.disk.anchor == SyncRunState(old(store.disk), store.grounded).anchor
      ensures r.Start? ==> r.layer == ResumeLayer(old(store.Newest())) && InStep(controller, r.layer)
      ensures r.Start? ==> resumed == Straight(model, r.layer)
      ensures r.Start? ==>
                !Obstructed(old(store.disk.live), store.Newest(), cache.replay, cs, store.config, store.evidence)
      ensures r.RestoreFailed? ==>
                Obstructed(old(store.disk.live), store.Newest(), cache.replay, cs, store.config, store.evidence)
    {
      hide Safe, IntactIn, IsIndex, AllBacked, Readings, Inspects, RefusedReplay, CanonicalWithin, AllFound, Agreeing,
        Contiguous, Settles, Expect;
      var alive := store.EnterRunState();
      if !alive {
        return RestoreKilled, cache;
      }
      if store.Newest() >= 0 {
        ExpectSettles(model, store.Newest(), store.config);
      }
      var restored, loaded, index := controller.Restore(cache, cs);
      r, resumed := restored, loaded;
    }

    /** A session: write into the run state, restore, then every remaining layer in order, then publication. Whatever
        the work is and whenever the process is killed, each routed layer is committed once and in order over all
        sessions, a session resumes right behind the newest boundary, and a completed one has installed every layer
        exactly once. A session that is neither killed nor stopped completes if and only if nothing hinders it. The
        session that creates the root leaves the root's entry unsynced; a later one makes it durable if and only if the
        run state itself is. */
    method Session(proofs: nat -> Proofs, cache: Cache, cs: seq<Checkpoint>, stopAfter: Option<nat>, budget: Budget)
      returns (end: SessionEnd, ghost resumed: Option<nat>, ghost installed: seq<nat>)
      requires Consistent() && Inspects(cs, store.evidence)
      requires store.Newest() == -1 ==> cache == model.initial
      modifies this`committed, store
      ensures Draws(budget, store.budget, end.Interrupted?)
      ensures Consistent() && old(committed) <= committed && store.safe >= old(store.safe)
      ensures store.Durable() >= old(store.Durable()) && Extends(old(store.evidence), store.evidence)
      ensures Delivered(old(store.disk.live), old(store.Newest()), store.disk.live, store.Newest(),
                        Working(model, proofs), store.config)
      ensures old(store.disk.anchor).Absent? ==> !store.disk.anchor.Synced?
      ensures old(store.disk.anchor).Unsynced? && resumed.Some? ==> (store.disk.anchor.Synced? <==> store.grounded)
      ensures resumed.Some? ==>
                && resumed.value == (if old(store.Newest()) == -1 then 0 else old(store.Newest()) + 1)
                && !ObstructedAt(old(Now()), cache.replay, cs, store.config)
      ensures end.SessionFailed? ==>
                if resumed.None? then ObstructedAt(old(Now()), cache.replay, cs, store.config)
                else UnusableAt(old(Now()), Working(model, proofs), store.config)
      ensures end.StoppedAfter? ==>
                resumed.Some? && stopAfter == Some(end.layer) && store.safe == store.Newest() == end.layer
      ensures end.Completed? ==>
                && resumed.Some? && !UnusableAt(old(Now()), Working(model, proofs), store.config)
                && store.Newest() == store.config.scope.last
                && installed == committed
    {
      hide Safe, IntactIn, Inspects, Obstructed, Unusable, ShowsRequest, SameCommitted, Extends, Expect, Straight,
        Delivered;
      ghost var work := Working(model, proofs);
      resumed, installed := None, [];
      store.budget := budget;
      var controller := new Controller(store, true, stopAfter);
      var restored, current := Resume(controller, cache, cs);
      NothingNewDelivered(old(store.disk.live), store.disk.live, store.Newest(), work, store.config);
      NothingDelivered(old(store.disk.live), old(store.Newest()), old(store.evidence), work, store.config);
      if restored.RestoreFailed? {
        return SessionFailed, resumed, installed;
      }
      if restored.RestoreKilled? {
        return Interrupted, resumed, installed;
      }
      resumed := Some(restored.layer);
      label Before:
      end := ProcessLayers(controller, restored.layer, proofs, current);
      DeliveredOn(old(store.disk.live), old(store.Newest()), old@Before(store.disk.live), old@Before(store.Newest()),
                  store.disk.live, store.Newest(), work, store.config);
      if end.Completed? {
        controller.Materialize(true, store.config.scope.first,
                               Progress(store.config.scope.first, store.config.scope.last));
        installed := controller.materialized;
      }
    }

    /** The power fails: committed layers are lost from the newest one on, never a durable one, and none is gained. */
    method PowerLoss(after: Disk, keep: seq<bool>)
      requires Consistent() && LossOutcome(store.disk, after, keep)
      modifies this`committed, store`disk, store`safe
      ensures Consistent() && store.disk == after && committed <= old(committed)
      ensures old(store.Durable()) <= store.Durable() == store.safe == store.Newest() <= old(store.Newest())
    {
      hide Safe, LossOutcome;
      store.PowerFails(after, keep);
      store.NewestInScope();
      committed := Interval(store.config.scope.first, Progress(store.config.scope.first, store.Newest()));
    }

    /** One event of a history. */
    method Happen(event: Event) returns (ghost report: Report)
      requires Consistent()
      modifies this`committed, store
      ensures Consistent() && store.Durable() >= old(store.Durable())
      ensures Accounts(event, old(Now()), report, Now(), store.config, store.grounded, model)
    {
      hide Safe, IntactIn, LossOutcome, Inspects, ObstructedAt, UnusableAt, Delivered, Extends, Expect, Working;
      match event {
        case Launch(proofs, cache, checkpoints, stopAfter, budget) =>
          var latest := store.Latest();
          if !Inspects(checkpoints, store.evidence) || (latest.None? && cache != model.initial) {
            return Skipped;
          }
          var end, resumed, installed := Session(proofs, cache, checkpoints, stopAfter, budget);
          report := Launched(end, resumed, installed);
        case Loss(after, keep) =>
          if !LossOutcome(store.disk, after, keep) {
            return Skipped;
          }
          PowerLoss(after, keep);
          report := Lost;
      }
    }

    /** Any history of sessions, kills and power losses, as the moments between its events: at each one the visible
        boundaries are the first routed layers without a gap, the newest of them complete, every event accounts for how
        it led to the next one, and what no power loss could take at one of them is never lost later. */
    method History(events: seq<Event>) returns (ghost moments: seq<Moment>, ghost reports: seq<Report>)
      requires Consistent()
      modifies this`committed, store
      ensures Consistent()
      ensures |moments| == |events| + 1 && moments[0] == old(Now()) && moments[|events|] == Now()
      ensures forall i | 0 <= i <= |events| :: Sound(moments[i], store.config, model)
      ensures forall i | 0 <= i <= |events| :: OnTrack(moments[i], store.config, model)
      ensures forall i, j | 0 <= i <= j <= |events| :: DurableAt(moments[i]) <= DurableAt(moments[j])
      ensures |reports| == |events|
      ensures forall i | 0 <= i < |events| ::
                Accounts(events[i], moments[i], reports[i], moments[i + 1], store.config, store.grounded, model)
    {
      hide Safe, IntactIn, Accounts, Expect, OnTrack;
      SoundIsOnTrack(Now(), store.config, model);
      moments, reports := [Now()], [];
      for i := 0 to |events|
        invariant Consistent() && |reports| == i && |moments| == i + 1
        invariant moments[0] == old(Now()) && moments[i] == Now()
        invariant forall j | 0 <= j <= i :: Sound(moments[j], store.config, model)
        invariant forall j | 0 <= j <= i :: OnTrack(moments[j], store.config, model)
        invariant forall j, k | 0 <= j <= k <= i :: DurableAt(moments[j]) <= DurableAt(moments[k])
        invariant forall j | 0 <= j < i ::
                    Accounts(events[j], moments[j], reports[j], moments[j + 1], store.config, store.grounded, model)
      {
        var report := Happen(events[i]);
        SoundIsOnTrack(Now(), store.config, model);
        moments, reports := moments + [Now()], reports + [report];
      }
    }
  }
}
