/** Chaining execution upgrades and repairing an interrupted chaining, with a kill between any two file operations, and
    what a power loss may leave of a chaining. */
module UpgradeRun {
  import opened Budgets
  import opened UpgradeRecords
  import opened ExecutionUpgrade

  /** How one `build_execution_upgrade` ends. */
  datatype Outcome = Saved(record: Record) | Refused | Killed

  /** What one call asks for: the new content, and whether a layer boundary is retained. */
  datatype Request = Request(content: string, boundary: bool)

  /** The unlinked body that a request describes. */
  function RequestBody(request: Request, plan: string): Body {
    Body(true, plan, request.content, Absent, Absent)
  }

  /** The same body, linked to the record it replaces. */
  function Linking(body: Body, saved: Digest, boundary: bool): Body {
    if boundary then body.(previous := Link(saved)) else body.(previousFailed := Link(saved))
  }

  function WithoutLinks(body: Body): Body {
    body.(previous := Absent, previousFailed := Absent)
  }

  /** What a request asks for, whatever the body links to. */
  predicate Holds(body: Body, request: Request, plan: string) {
    body.schemaOk && body.parentPlan == plan && body.content == request.content
  }

  /** The link of a new record: over a retained boundary it continues the record before it, without one it replaces a
      failed one. */
  predicate Succeeds(body: Body, saved: Body, boundary: bool) {
    if boundary then body.previous == Link(Sha(saved)) && body.previousFailed.Absent?
    else body.previous.Absent? && body.previousFailed == Link(Sha(saved))
  }

  /** Nothing was ever chained here. */
  ghost predicate Untouched(disk: Disk) {
    disk.active.Missing? && disk.history.NoHistory?
  }

  /** A kill after the archive write and before the swap: an accepted chain whose history also holds
      a copy of the still active record. */
  ghost predicate InterruptedFrom(disk: Disk, plan: string, before: Disk) {
    && Accepted(before, plan)
    && disk == Disk(before.active,
                    Directory(Files(before.history)[Named(Sha(ActiveBody(before))) := before.active.file]))
  }

  ghost predicate Interrupted(disk: Disk, plan: string) {
    exists before :: InterruptedFrom(disk, plan, before)
  }

  /** The states that chaining and kills can leave behind. */
  ghost predicate Reachable(disk: Disk, plan: string) {
    Untouched(disk) || Accepted(disk, plan) || Interrupted(disk, plan)
  }

  /** All records on disk. */
  function Records(disk: Disk): set<File> {
    (if disk.active.Present? then {disk.active.file} else {}) + Files(disk.history).Values
  }

  /** An accepted history never holds the active record, so the interrupted state is not accepted:
      reading fails closed until the repair has run. */
  lemma InterruptedIsRejected(disk: Disk, plan: string)
    requires Interrupted(disk, plan)
    ensures !Accepted(disk, plan)
  {
    var before :| InterruptedFrom(disk, plan, before);
    ActiveNotArchived(before, plan);
  }

  datatype Repaired = Clean | Refuse | Dead

  /** The history without the name of the active record. */
  function WithoutDuplicate(disk: Disk): Disk
    requires disk.active.Present? && disk.active.file.Regular? && disk.history.Directory?
  {
    disk.(history := Directory(disk.history.files - {Named(Sha(ActiveBody(disk)))}))
  }

  lemma RepairRestores(disk: Disk, plan: string, before: Disk)
    requires InterruptedFrom(disk, plan, before)
    ensures WithoutDuplicate(disk) == Disk(before.active, Directory(Files(before.history)))
    ensures Accepted(WithoutDuplicate(disk), plan)
    ensures Records(disk) == Records(before) == Records(WithoutDuplicate(disk))
  {
    ActiveNotArchived(before, plan);
    var name := Named(Sha(ActiveBody(before)));
    assert disk.history.files - {name} == Files(before.history);
    assert Files(disk.history)[name] == before.active.file;
    forall f ensures f in Files(disk.history).Values <==> f in Files(before.history).Values || f == before.active.file {
      if f in Files(before.history).Values {
        var n :| n in Files(before.history) && Files(before.history)[n] == f;
        assert Files(disk.history)[n] == f;
      }
    }
  }

  /** The only change the repair makes: drop one exact copy of the active record. */
  ghost predicate DropsDuplicate(disk: Disk, after: Disk) {
    && disk.active.Present? && disk.active.file.Regular? && disk.history.Directory?
    && Named(Sha(ActiveBody(disk))) in disk.history.files
    && disk.history.files[Named(Sha(ActiveBody(disk)))] == disk.active.file
    && after == WithoutDuplicate(disk)
  }

  datatype Stored = Stored | Collision | Died

  /** What a completed call leaves: an accepted chain. It is the old one if that already holds the requested content,
      and otherwise the old one with one record in front, linked as the retained boundary demands. */
  ghost predicate SavedBy(before: Disk, after: Disk, plan: string, request: Request, record: Record) {
    && Accepted(after, plan) && ActiveBody(after) == record.body
    && Holds(record.body, request, plan)
    && (before.active.Missing? ==> ChainRecords(record.body) == [record])
    && (before.active.Present? && before.active.file.Regular? ==>
          if Holds(ActiveBody(before), request, plan) then ActiveBody(after) == ActiveBody(before)
          else && Succeeds(record.body, ActiveBody(before), request.boundary)
               && ChainRecords(record.body) == [record] + ChainRecords(ActiveBody(before)))
  }

  /** Swapping in a record that links to the archived active one completes the chain. */
  lemma ChainGrows(before: Disk, after: Disk, plan: string, request: Request)
    requires Accepted(before, plan)
    requires var body := Linking(RequestBody(request, plan), Sha(ActiveBody(before)), request.boundary);
             && after.active == Present(Regular(Bound(body)))
             && after.history == Directory(Files(before.history)[Named(Sha(ActiveBody(before))) := before.active.file])
    ensures Accepted(after, plan)
    ensures Records(before) <= Records(after)
    ensures ChainRecords(ActiveBody(after)) == [Bound(ActiveBody(after))] + ChainRecords(ActiveBody(before))
    ensures Holds(ActiveBody(after), request, plan)
    ensures Succeeds(ActiveBody(after), ActiveBody(before), request.boundary)
  {
    ActiveNotArchived(before, plan);
    var name := Named(Sha(ActiveBody(before)));
    assert after.history.files[name] == before.active.file;
    forall f | f in Files(before.history).Values ensures f in Files(after.history).Values {
      var n :| n in Files(before.history) && Files(before.history)[n] == f;
      assert after.history.files[n] == f;
    }
  }

  /** What is durable: the active record, the entry of the history directory, and the files in it. */
  datatype Synced = Synced(active: Active, entry: bool, files: map<FileName, File>)

  function Everything(disk: Disk): Synced {
    Synced(disk.active, true, Files(disk.history))
  }

  predicate Settled(disk: Disk, synced: Synced) {
    synced == Everything(disk)
  }

  /** A power loss may undo the replacement of the active record, the latest change to the history, and the creation of
      the history directory, each by itself, as far as they were not synced. */
  predicate LossOutcome(disk: Disk, synced: Synced, after: Disk) {
    && (after.active == disk.active || after.active == synced.active)
    && (|| after.history == disk.history
        || (disk.history.Directory? && after.history == Directory(synced.files))
        || (disk.history.Directory? && !synced.entry && after.history == NoHistory))
  }

  /** How far a chaining that began on an accepted disk with nothing pending may have come, and what is durable. */
  ghost predicate Chaining(before: Disk, disk: Disk, synced: Synced, plan: string) {
    Accepted(before, plan)
    && var kept := Files(before.history);
       var archived := kept[Named(Sha(ActiveBody(before))) := before.active.file];
       && synced.active == before.active && (synced.files == kept || synced.files == archived)
       && (synced.entry || before.history.NoHistory?)
       && (|| (disk.active == before.active
               && (disk.history == before.history || disk.history == Directory(kept)
                   || disk.history == Directory(archived)))
           || (Accepted(disk, plan) && disk.history == Directory(archived) && synced.files == archived))
  }

  /** The state between the archive write and the swap. */
  lemma ArchivedIsInterrupted(before: Disk, plan: string)
    requires Accepted(before, plan)
    ensures Interrupted(Disk(before.active,
                             Directory(Files(before.history)[Named(Sha(ActiveBody(before))) := before.active.file])),
                        plan)
  {
    var disk := Disk(before.active,
                     Directory(Files(before.history)[Named(Sha(ActiveBody(before))) := before.active.file]));
    assert InterruptedFrom(disk, plan, before);
  }

  /** An accepted record that archives something is not accepted without the history, nor repaired by the repair. */
  lemma HistoryIsNeeded(disk: Disk, plan: string)
    requires Accepted(disk, plan) && Files(disk.history) != map[]
    ensures !Reachable(Disk(disk.active, NoHistory), plan)
  {}

  /** Whatever a power loss takes from a chaining can be read or repaired, if and only if the swap has not happened yet
      or the history directory was there before: the swap of the first chaining may outlive the directory that it
      needs. */
  lemma ChainingLossIff(before: Disk, disk: Disk, synced: Synced, plan: string)
    requires Chaining(before, disk, synced, plan)
    ensures (forall after | LossOutcome(disk, synced, after) :: Reachable(after, plan))
            <==> (disk.active == before.active || synced.entry)
  {
    ArchivedIsInterrupted(before, plan);
    var archived := Files(before.history)[Named(Sha(ActiveBody(before))) := before.active.file];
    if disk.active == before.active || synced.entry {
      forall after | LossOutcome(disk, synced, after) ensures Reachable(after, plan) {
        if after.active == before.active {
          assert Files(after.history) == archived || Files(after.history) == Files(before.history);
        }
      }
    } else {
      assert Named(Sha(ActiveBody(before))) in Files(disk.history);
      HistoryIsNeeded(disk, plan);
      assert LossOutcome(disk, synced, Disk(disk.active, NoHistory));
    }
  }

  /** The record that a request puts in front of an accepted chain, right after the swap and before its sync. */
  function Swapped(before: Disk, request: Request, plan: string): Disk
    requires before.active.Present? && before.active.file.Regular?
  {
    Disk(Present(Regular(Bound(Linking(RequestBody(request, plan), Sha(ActiveBody(before)), request.boundary)))),
         Directory(Files(before.history)[Named(Sha(ActiveBody(before))) := before.active.file]))
  }

  /** The first chaining of any accepted record reaches a state from which a power loss may leave a disk that is neither
      read nor repaired. */
  lemma FirstChainingCanBeLost(before: Disk, request: Request, plan: string)
    requires Accepted(before, plan) && before.history.NoHistory?
    ensures var disk := Swapped(before, request, plan);
            var synced := Synced(before.active, false, disk.history.files);
            && Chaining(before, disk, synced, plan)
            && LossOutcome(disk, synced, Disk(disk.active, NoHistory))
            && !Reachable(Disk(disk.active, NoHistory), plan)
  {
    var disk := Swapped(before, request, plan);
    ChainGrows(before, disk, plan, request);
    assert Named(Sha(ActiveBody(before))) in Files(disk.history);
    HistoryIsNeeded(disk, plan);
  }

  lemma EntryKept(before: Disk, disk: Disk, synced: Synced, plan: string)
    requires Chaining(before, disk, synced, plan) && !before.history.NoHistory?
    ensures synced.entry
  {}

  /** Chaining on top of an accepted disk with nothing pending survives every kill and power loss, if and only if the
      history directory is already there. */
  lemma ChainingSafeIff(before: Disk, plan: string)
    requires Accepted(before, plan)
    ensures (forall disk, synced, after | Chaining(before, disk, synced, plan) && LossOutcome(disk, synced, after) ::
               Reachable(after, plan))
            <==> !before.history.NoHistory?
  {
    hide Chaining, LossOutcome, Reachable;
    if before.history.NoHistory? {
      var request := Request("", false);
      FirstChainingCanBeLost(before, request, plan);
      var disk := Swapped(before, request, plan);
      var synced := Synced(before.active, false, disk.history.files);
      assert Chaining(before, disk, synced, plan) && LossOutcome(disk, synced, Disk(disk.active, NoHistory));
    } else {
      forall disk, synced, after | Chaining(before, disk, synced, plan) && LossOutcome(disk, synced, after)
        ensures Reachable(after, plan)
      {
        EntryKept(before, disk, synced, plan);
        ChainingLossIff(before, disk, synced, plan);
      }
    }
  }

  /** The records that are durable. */
  function SyncedRecords(synced: Synced): set<File> {
    Records(Disk(synced.active, Directory(synced.files)))
  }

  /** Chainings, kills and losses over a history directory that is durable. */
  ghost predicate Tame(disk: Disk, synced: Synced, plan: string) {
    synced.entry && disk.history.Directory? && exists before :: Chaining(before, disk, synced, plan)
  }

  /** What was durable before a chaining is durable throughout it, and visible. */
  lemma ChainingRecords(before: Disk, disk: Disk, synced: Synced, plan: string)
    requires Chaining(before, disk, synced, plan)
    ensures SyncedRecords(synced) == Records(before) <= Records(disk)
  {
    ArchivedIsInterrupted(before, plan);
    var archived := Disk(before.active,
                         Directory(Files(before.history)[Named(Sha(ActiveBody(before))) := before.active.file]));
    RepairRestores(archived, plan, before);
    if disk.active != before.active {
      forall f | f in Records(before) ensures f in Records(disk) {
        assert f in Records(archived);
        var name := Named(Sha(ActiveBody(before)));
        assert archived.history.files[name] == before.active.file;
      }
    }
  }

  lemma SettledChaining(disk: Disk, plan: string)
    requires Accepted(disk, plan)
    ensures Chaining(disk, disk, Everything(disk), plan)
  {}

  /** A disk on which nothing is pending is tame wherever it can be read or repaired. */
  lemma SettledIsTame(disk: Disk, plan: string)
    requires Reachable(disk, plan) && disk.history.Directory?
    ensures Tame(disk, Everything(disk), plan)
  {
    if Accepted(disk, plan) {
      SettledChaining(disk, plan);
    } else {
      var before :| InterruptedFrom(disk, plan, before);
      assert Chaining(before, disk, Everything(disk), plan);
    }
  }

  /** Whatever a power loss takes from a tame disk, what is left can be read or repaired, holds every durable record and
      is tame again. */
  lemma LossKeepsTame(disk: Disk, synced: Synced, after: Disk, plan: string)
    requires Tame(disk, synced, plan) && LossOutcome(disk, synced, after)
    ensures Tame(after, Everything(after), plan) && SyncedRecords(synced) <= Records(after)
  {
    var before :| Chaining(before, disk, synced, plan);
    ChainingLossIff(before, disk, synced, plan);
    ChainingRecords(before, disk, synced, plan);
    SettledIsTame(after, plan);
    if after.active == before.active {
      ArchivedIsInterrupted(before, plan);
      RepairRestores(Disk(before.active,
                          Directory(Files(before.history)[Named(Sha(ActiveBody(before))) := before.active.file])),
                     plan, before);
      assert Files(after.history) == Files(before.history)
             || Files(after.history) == Files(before.history)[Named(Sha(ActiveBody(before))) := before.active.file];
    } else {
      assert after == disk;
    }
  }

  lemma TameHasHistory(disk: Disk, synced: Synced, plan: string)
    requires Tame(disk, synced, plan)
    ensures synced.entry && disk.history.Directory?
  {}

  lemma TameIsReachable(disk: Disk, synced: Synced, plan: string)
    requires Tame(disk, synced, plan)
    ensures Accepted(disk, plan) || Interrupted(disk, plan)
  {
    var before :| Chaining(before, disk, synced, plan);
    ChainingLossIff(before, disk, synced, plan);
    assert LossOutcome(disk, synced, disk);
  }

  /** An accepted tame disk whose active record is durable is one on which a chaining may begin. */
  lemma ReadyToChain(disk: Disk, synced: Synced, plan: string)
    requires Tame(disk, synced, plan) && Accepted(disk, plan) && disk.active == synced.active
    ensures Chaining(disk, disk, synced, plan)
  {
    var before :| Chaining(before, disk, synced, plan);
    assert Files(disk.history) == Files(before.history);
  }

  /** Syncing the run state of an accepted tame disk. */
  lemma SyncKeepsTame(disk: Disk, synced: Synced, plan: string)
    requires Tame(disk, synced, plan) && Accepted(disk, plan)
    ensures var after := synced.(active := disk.active, entry := true);
            Tame(disk, after, plan) && SyncedRecords(synced) <= SyncedRecords(after)
  {
    var after := synced.(active := disk.active, entry := true);
    var before :| Chaining(before, disk, synced, plan);
    ChainingRecords(before, disk, synced, plan);
    if disk.active == before.active {
      assert Files(disk.history) == Files(before.history);
    } else {
      assert synced.files == Files(disk.history);
    }
    assert Chaining(disk, disk, after, plan);
    ChainingRecords(disk, disk, after, plan);
  }

  /** Dropping the duplicate from a tame disk, before and after that is synced. */
  lemma RepairKeepsTame(disk: Disk, synced: Synced, plan: string)
    requires Tame(disk, synced, plan) && disk.active == synced.active && Interrupted(disk, plan)
    ensures var after := WithoutDuplicate(disk);
            && Tame(after, synced, plan) && Tame(after, synced.(files := after.history.files), plan)
            && SyncedRecords(synced.(files := after.history.files)) == SyncedRecords(synced)
  {
    var before :| Chaining(before, disk, synced, plan);
    var other :| InterruptedFrom(disk, plan, other);
    assert Files(other.history) == Files(before.history);
    RepairRestores(disk, plan, other);
    var after := WithoutDuplicate(disk);
    assert Chaining(before, after, synced, plan);
    assert Chaining(before, after, synced.(files := after.history.files), plan);
    ChainingRecords(before, disk, synced, plan);
    ChainingRecords(before, after, synced.(files := after.history.files), plan);
  }

  /** Whatever a power loss takes can be read or repaired. */
  ghost predicate Recoverable(disk: Disk, synced: Synced, plan: string) {
    forall after | LossOutcome(disk, synced, after) :: Reachable(after, plan)
  }

  lemma TameIsRecoverable(disk: Disk, synced: Synced, plan: string)
    requires Tame(disk, synced, plan)
    ensures Recoverable(disk, synced, plan)
  {
    var before :| Chaining(before, disk, synced, plan);
    ChainingLossIff(before, disk, synced, plan);
  }

  /** The disk with its active record archived too. */
  function Archived(disk: Disk): Disk
    requires disk.active.Present? && disk.active.file.Regular?
  {
    disk.(history := Directory(Files(disk.history)[Named(Sha(ActiveBody(disk))) := disk.active.file]))
  }

  /** Archiving a record whose own swap is not synced yet: the loss may bring back the record before it, beside a
      history that is no longer its own. */
  lemma PendingSwapCanBeLost(disk: Disk, synced: Synced, plan: string)
    requires Tame(disk, synced, plan) && disk.active != synced.active
    ensures Accepted(disk, plan) && !Recoverable(Archived(disk), synced, plan)
  {
    var before :| Chaining(before, disk, synced, plan);
    var lost := Disk(synced.active, Archived(disk).history);
    ActiveNotArchived(disk, plan);
    ActiveNotArchived(before, plan);
    assert Named(Sha(ActiveBody(disk))) in lost.history.files && Named(Sha(ActiveBody(before))) in lost.history.files;
    assert LossOutcome(Archived(disk), synced, lost);
  }

  /** A launch of the quantizer with its request, killed when the budget is used up, or a power loss. */
  datatype Event = Launch(request: Request, limit: Budget) | Loss(after: Disk)

  /** The run state between two events. */
  datatype Moment = Moment(disk: Disk, synced: Synced)

  /** A launch that finds its active record durable, or already holding what it asks for. */
  ghost predicate Calm(event: Event, m: Moment, plan: string) {
    event.Launch? ==>
      || m.disk.active == m.synced.active
      || (Accepted(m.disk, plan) && Holds(ActiveBody(m.disk), event.request, plan))
  }

  /** A launch saves its request unless it is killed, which takes a budget, and loses no record. */
  ghost predicate LaunchAccounts(event: Event, before: Disk, outcome: Outcome, after: Disk, plan: string)
    requires event.Launch?
  {
    Reachable(before, plan) ==>
      && Reachable(after, plan) && Records(before) <= Records(after)
      && match outcome
         case Saved(record) => SavedBy(before, after, plan, event.request, record)
         case Killed => event.limit.Left?
         case Refused => false
  }

  /** What one event did, from the moment before it to the moment after it. A loss that does not fit is skipped. */
  ghost predicate Accounts(event: Event, before: Moment, outcome: Outcome, after: Moment, plan: string) {
    match event
    case Launch(request, limit) => LaunchAccounts(event, before.disk, outcome, after.disk, plan)
    case Loss(lost) =>
      after == if LossOutcome(before.disk, before.synced, lost) then Moment(lost, Everything(lost)) else before
  }

  ghost predicate TameAt(m: Moment, plan: string) {
    Tame(m.disk, m.synced, plan)
  }

  /** Every record that is durable at one moment is so at the other. */
  predicate KeepsSynced(before: Moment, after: Moment) {
    SyncedRecords(before.synced) <= SyncedRecords(after.synced)
  }

  /** The run-state directory as the launcher updates it. */
  class RunState {
    var disk: Disk
    var synced: Synced
    var budget: Budget
    const plan: string

    constructor (plan: string)
      ensures this.plan == plan && Untouched(disk) && Settled(disk, synced)
    {
      this.plan := plan;
      disk := Disk(Missing, NoHistory);
      synced := Synced(Missing, true, map[]);
      budget := Left(0);
    }

    method Alive() returns (alive: bool)
      modifies this`budget
      ensures alive <==> old(budget) != Left(0)
      ensures Draws(old(budget), budget, !alive)
      ensures alive && old(budget).Left? ==> budget == Left(old(budget).operations - 1)
    {
      alive := budget != Left(0);
      budget := Charge(budget);
    }

    /** Remove the copy of the active record that an interrupted chaining left in the history. It takes two file
        operations. */
    method RepairArchiveStaging() returns (r: Repaired)
      modifies this
      ensures Draws(old(budget), budget, r == Dead)
      ensures r == Dead ==> old(budget).Left? && old(budget).operations < 2
      ensures disk == old(disk) || (DropsDuplicate(old(disk), disk) && r != Refuse)
      ensures Reachable(old(disk), plan) ==> r != Refuse && Reachable(disk, plan) && Records(disk) == Records(old(disk))
      ensures Reachable(old(disk), plan) && r == Clean ==> Untouched(disk) || Accepted(disk, plan)
      ensures Accepted(old(disk), plan) || Untouched(old(disk)) ==>
                disk == old(disk) && synced == old(synced) && budget == old(budget) && r == Clean
      ensures old(Settled(disk, synced)) && r == Clean ==> Settled(disk, synced)
      ensures old(Tame(disk, synced, plan) && disk.active == synced.active) ==>
                && Tame(disk, synced, plan) && disk.active == synced.active
                && SyncedRecords(synced) == SyncedRecords(old(synced))
    {
      if disk.active.Missing? || disk.history.NoHistory? {
        return Clean;
      }
      if Interrupted(disk, plan) {
        ghost var before :| InterruptedFrom(disk, plan, before);
        RepairRestores(disk, plan, before);
        if Tame(disk, synced, plan) && disk.active == synced.active {
          RepairKeepsTame(disk, synced, plan);
        }
      } else if Tame(disk, synced, plan) && disk.active == synced.active {
        TameIsReachable(disk, synced, plan);
      }
      if disk.active.file.Unreadable? || disk.history.NotADirectory? || !ValidRecord(disk.active.file.record, plan) {
        return Refuse;
      }
      if Accepted(disk, plan) {
        ActiveNotArchived(disk, plan);
      }
      var duplicate := Named(Sha(disk.active.file.record.body));
      if duplicate !in disk.history.files {
        return Clean;
      }
      if disk.history.files[duplicate] != disk.active.file {
        return Refuse;
      }
      var alive := Alive();
      if alive {
        disk := disk.(history := Directory(disk.history.files - {duplicate}));
        alive := Alive();
      }
      if !alive {
        return Dead;
      }
      synced := synced.(files := disk.history.files);
      r := Clean;
    }

    /** `atomic_json` of the archived record. */
    method StoreRecord(name: FileName, record: Record) returns (r: Stored)
      requires disk.history.Directory?
      modifies this
      ensures Draws(old(budget), budget, r == Died)
      ensures r == Stored || r == Died
      ensures || disk == old(disk)
              || disk == old(disk).(history := Directory(old(disk).history.files[name := Regular(record)]))
      ensures r == Stored ==>
                && disk == old(disk).(history := Directory(old(disk).history.files[name := Regular(record)]))
                && synced == old(synced).(files := disk.history.files)
      ensures r == Died ==> synced == old(synced)
      ensures old(budget).Left? && old(budget).operations >= 2 ==>
                r == Stored && budget == Left(old(budget).operations - 2)
      ensures old(budget) == Left(1) ==>
                disk == old(disk).(history := Directory(old(disk).history.files[name := Regular(record)])) && r == Died
    {
      var alive := Alive();
      if alive {
        disk := disk.(history := Directory(disk.history.files[name := Regular(record)]));
        alive := Alive();
      }
      if !alive {
        return Died;
      }
      synced := synced.(files := disk.history.files);
      r := Stored;
    }

    /** Create the history directory if needed, store the still active record in it, and sync it. */
    method Archive(active: Record) returns (r: Stored)
      requires disk.active == Present(Regular(active)) && active == Bound(active.body)
      modifies this
      ensures Draws(old(budget), budget, r == Died)
      ensures Accepted(old(disk), plan) ==>
                Reachable(disk, plan) && r != Collision && Records(disk) == Records(old(disk))
      ensures disk.active == old(disk.active) && synced.active == old(synced.active)
      ensures r == Stored && Accepted(old(disk), plan) ==> InterruptedFrom(disk, plan, old(disk))
      ensures r == Stored && Accepted(old(disk), plan) ==> synced.files == disk.history.files
      ensures Chaining(old(disk), old(disk), old(synced), plan) ==> Chaining(old(disk), disk, synced, plan)
      ensures old(disk.history).Directory? ==> disk.history.Directory? && synced.entry == old(synced.entry)
      ensures Accepted(old(disk), plan) && old(disk.history).NoHistory? && old(budget) == Left(4) ==>
                r == Stored && budget == Left(1) && !synced.entry
      ensures Accepted(old(disk), plan) && old(disk.history).Directory? && old(budget) == Left(1) ==>
                r == Died && disk == Archived(old(disk)) && synced == old(synced)
    {
      ghost var before := disk;
      if disk.history.NoHistory? {
        var alive := Alive();
        if !alive {
          return Died;
        }
        disk := disk.(history := Directory(map[]));
        synced := synced.(entry := false, files := map[]);
      }
      if disk.history.NotADirectory? {
        return Collision;
      }
      if Accepted(before, plan) {
        ActiveNotArchived(before, plan);
      }
      var name := Named(Sha(active.body));
      if name in disk.history.files {
        return if disk.history.files[name] == Regular(active) then Stored else Collision;
      }
      r := StoreRecord(name, active);
      if Accepted(before, plan) && disk.history != old(disk.history) {
        ArchivedIsInterrupted(before, plan);
        RepairRestores(Disk(before.active, Directory(Files(before.history)[name := before.active.file])), plan, before);
      }
    }

    /** `atomic_json` of the active record: replace it, then sync the run state. */
    method Swap(body: Body) returns (outcome: Outcome)
      modifies this
      ensures Draws(old(budget), budget, outcome.Killed?)
      ensures outcome == Killed || outcome == Saved(Bound(body))
      ensures disk == old(disk) || disk == Disk(Present(Regular(Bound(body))), old(disk.history))
      ensures outcome.Killed? ==> synced == old(synced)
      ensures outcome.Saved? ==> disk == Disk(Present(Regular(Bound(body))), old(disk.history))
      ensures outcome.Saved? ==> synced == Synced(disk.active, true, old(synced).files)
      ensures old(budget) == Left(1) ==>
                outcome.Killed? && disk == Disk(Present(Regular(Bound(body))), old(disk.history))
    {
      var alive := Alive();
      if alive {
        disk := disk.(active := Present(Regular(Bound(body))));
        alive := Alive();
      }
      if !alive {
        return Killed;
      }
      synced := synced.(active := disk.active, entry := true);
      outcome := Saved(Bound(body));
    }

    /** Archive the active record, then swap in one that links to it. */
    method Replace(active: Record, request: Request) returns (outcome: Outcome)
      requires Accepted(disk, plan) && disk.active == Present(Regular(active)) && !Holds(active.body, request, plan)
      modifies this
      ensures Draws(old(budget), budget, outcome.Killed?)
      ensures Reachable(disk, plan) && Records(old(disk)) <= Records(disk)
      ensures outcome.Saved? || outcome.Killed?
      ensures outcome.Saved? ==> SavedBy(old(disk), disk, plan, request, outcome.record)
      ensures outcome.Saved? ==> Settled(disk, synced)
      ensures outcome.Killed? && Chaining(old(disk), old(disk), old(synced), plan) ==>
                Chaining(old(disk), disk, synced, plan)
      ensures old(disk.history).Directory? ==> disk.history.Directory? && (old(synced.entry) ==> synced.entry)
      ensures old(disk.history).NoHistory? && old(budget) == Left(4) ==>
                outcome.Killed? && !synced.entry && disk == Swapped(old(disk), request, plan)
      ensures old(disk.history).Directory? && old(budget) == Left(1) ==>
                outcome.Killed? && disk == Archived(old(disk)) && synced == old(synced)
    {
      ghost var before := disk;
      var archived := Archive(active);
      if archived != Stored {
        return Killed;
      }
      outcome := Swap(Linking(RequestBody(request, plan), Sha(active.body), request.boundary));
      if disk.active != before.active {
        ChainGrows(before, disk, plan, request);
      }
    }

    /** The upgrade on top of a repaired disk: nothing to do if the active record already holds what is asked for. */
    method Renew(request: Request) returns (outcome: Outcome)
      modifies this
      ensures Draws(old(budget), budget, outcome.Killed?)
      ensures !Accepted(old(disk), plan) ==> outcome.Refused? && disk == old(disk) && synced == old(synced)
      ensures Accepted(old(disk), plan) ==>
                && Reachable(disk, plan) && Records(old(disk)) <= Records(disk) && !outcome.Refused?
                && (outcome.Saved? ==> SavedBy(old(disk), disk, plan, request, outcome.record))
      ensures outcome.Saved? ==> Settled(disk, synced) || (disk == old(disk) && synced == old(synced))
      ensures Accepted(old(disk), plan) && Holds(ActiveBody(old(disk)), request, plan) ==>
                disk == old(disk) && synced == old(synced) && outcome.Saved?
      ensures outcome.Killed? && Chaining(old(disk), old(disk), old(synced), plan) ==>
                Chaining(old(disk), disk, synced, plan)
      ensures old(disk.history).Directory? && outcome.Killed? ==>
                disk.history.Directory? && (old(synced.entry) ==> synced.entry)
      ensures Accepted(old(disk), plan) && old(disk.history).Directory? ==> disk.history.Directory?
      ensures && Accepted(old(disk), plan) && old(disk.history).NoHistory? && old(budget) == Left(4)
              && !Holds(ActiveBody(old(disk)), request, plan) ==>
                outcome.Killed? && !synced.entry && disk == Swapped(old(disk), request, plan)
      ensures && Accepted(old(disk), plan) && old(disk.history).Directory? && old(budget) == Left(1)
              && !Holds(ActiveBody(old(disk)), request, plan) ==>
                outcome.Killed? && disk == Archived(old(disk)) && synced == old(synced)
    {
      hide Chaining, Records, Linking;
      var read := ReadUpgrade(disk, plan);
      if read.Reject? {
        return Refused;
      }
      if WithoutLinks(read.active.body) == RequestBody(request, plan) {
        return Saved(read.active);
      }
      outcome := Replace(read.active, request);
    }

    /** What a renewal makes of a tame disk. */
    lemma RenewedTame(before: Disk, pending: Synced, outcome: Outcome)
      requires Tame(before, pending, plan) && before.active == pending.active && Accepted(before, plan)
      requires disk.history.Directory?
      requires outcome.Saved? ==> Accepted(disk, plan)
      requires outcome.Saved? ==> Settled(disk, synced) || (disk == before && synced == pending)
      requires outcome.Saved? ==> Records(before) <= Records(disk)
      requires outcome.Killed? ==> synced.entry
      requires outcome.Killed? && Chaining(before, before, pending, plan) ==> Chaining(before, disk, synced, plan)
      requires outcome.Saved? || outcome.Killed?
      ensures Tame(disk, synced, plan) && SyncedRecords(pending) <= SyncedRecords(synced)
      ensures outcome.Saved? ==> disk.active == synced.active
    {
      ReadyToChain(before, pending, plan);
      ChainingRecords(before, before, pending, plan);
      if outcome.Killed? {
        ChainingRecords(before, disk, synced, plan);
      } else if Settled(disk, synced) {
        SettledIsTame(disk, plan);
        assert Disk(synced.active, Directory(synced.files)) == disk;
      }
    }

    /** The archive-and-swap part of `build_execution_upgrade`. On a state that chaining and kills can leave it saves
        the requested record unless it is killed, and that takes a budget that is used up. The first chaining, killed
        after four file operations, leaves its swap and the entry of the history directory unsynced. */
    method ChainUpgrade(request: Request) returns (outcome: Outcome)
      modifies this
      ensures Draws(old(budget), budget, outcome.Killed?)
      ensures Reachable(old(disk), plan) ==> Reachable(disk, plan) && !outcome.Refused?
      ensures Reachable(old(disk), plan) ==> Records(old(disk)) <= Records(disk)
      ensures Reachable(old(disk), plan) && outcome.Saved? ==> SavedBy(old(disk), disk, plan, request, outcome.record)
      ensures Reachable(old(disk), plan) && old(Settled(disk, synced)) && outcome.Saved? ==> Settled(disk, synced)
      ensures Accepted(old(disk), plan) && old(Settled(disk, synced)) && outcome.Killed? ==>
                Chaining(old(disk), disk, synced, plan)
      ensures Accepted(old(disk), plan) && Holds(ActiveBody(old(disk)), request, plan) ==>
                disk == old(disk) && synced == old(synced) && outcome.Saved?
      ensures && Accepted(old(disk), plan) && old(disk.history).NoHistory? && old(budget) == Left(4)
              && !Holds(ActiveBody(old(disk)), request, plan) ==>
                outcome.Killed? && !synced.entry && disk == Swapped(old(disk), request, plan)
      ensures && Accepted(old(disk), plan) && old(disk.history).Directory? && old(budget) == Left(1)
              && !Holds(ActiveBody(old(disk)), request, plan) ==>
                outcome.Killed? && disk == Archived(old(disk)) && synced == old(synced)
      ensures old(Tame(disk, synced, plan) && disk.active == synced.active) ==>
                && Tame(disk, synced, plan) && SyncedRecords(old(synced)) <= SyncedRecords(synced)
                && (outcome.Saved? ==> disk.active == synced.active)
    {
      hide Chaining, Linking, Tame, SyncedRecords;
      if Accepted(disk, plan) && Settled(disk, synced) {
        SettledChaining(disk, plan);
      }
      if Tame(disk, synced, plan) {
        TameIsReachable(disk, synced, plan);
      }
      if disk.active.Missing? {
        outcome := Swap(RequestBody(request, plan));
        return;
      }
      var repaired := RepairArchiveStaging();
      if repaired != Clean {
        return if repaired.Dead? then Killed else Refused;
      }
      ghost var before, pending := disk, synced;
      outcome := Renew(request);
      if Tame(before, pending, plan) && before.active == pending.active && Accepted(before, plan) {
        TameHasHistory(before, pending, plan);
        RenewedTame(before, pending, outcome);
      }
    }

    /** The power fails. */
    method PowerFails(after: Disk)
      requires LossOutcome(disk, synced, after)
      modifies this`disk, this`synced
      ensures disk == after && Settled(disk, synced)
      ensures old(Settled(disk, synced)) ==> disk == old(disk)
    {
      disk := after;
      synced := Everything(after);
    }

    ghost function Now(): Moment
      reads this
    {
      Moment(disk, synced)
    }

    /** A launch: chain the upgrade, then, if the process lives on, sync the run state with the session's first write
        into it. Over a durable history directory a calm launch is safe wherever it is killed, and one that is not calm
        may be killed where a power loss leaves a disk that is neither read nor repaired. */
    method Launching(request: Request, limit: Budget) returns (outcome: Outcome)
      modifies this
      ensures LaunchAccounts(Launch(request, limit), old(disk), outcome, disk, plan)
      ensures old(TameAt(Now(), plan)) && Calm(Launch(request, limit), old(Now()), plan) ==>
                TameAt(Now(), plan) && Recoverable(disk, synced, plan) && KeepsSynced(old(Now()), Now())
      ensures old(TameAt(Now(), plan)) && !Calm(Launch(request, limit), old(Now()), plan) && limit == Left(1) ==>
                !Recoverable(disk, synced, plan)
    {
      hide Tame, Chaining, Accepted, SyncedRecords, Recoverable;
      if Tame(disk, synced, plan) {
        TameIsReachable(disk, synced, plan);
        TameHasHistory(disk, synced, plan);
        if disk.active != synced.active {
          PendingSwapCanBeLost(disk, synced, plan);
        }
      }
      budget := limit;
      outcome := ChainUpgrade(request);
      if outcome.Saved? {
        var alive := Alive();
        if alive {
          if Tame(disk, synced, plan) && Accepted(disk, plan) {
            SyncKeepsTame(disk, synced, plan);
          }
          synced := synced.(active := disk.active, entry := true);
        }
      }
      if Tame(disk, synced, plan) {
        TameIsRecoverable(disk, synced, plan);
      }
    }

    /** One event of a history. */
    method Happen(event: Event) returns (outcome: Outcome)
      modifies this
      ensures Accounts(event, old(Now()), outcome, Now(), plan)
      ensures old(TameAt(Now(), plan)) && Calm(event, old(Now()), plan) ==>
                TameAt(Now(), plan) && KeepsSynced(old(Now()), Now())
    {
      hide Tame, Chaining, SavedBy, Accepted, LossOutcome, LaunchAccounts;
      outcome := Killed;
      match event {
        case Launch(request, limit) =>
          outcome := Launching(request, limit);
        case Loss(after) =>
          if LossOutcome(disk, synced, after) {
            if Tame(disk, synced, plan) {
              LossKeepsTame(disk, synced, after, plan);
            }
            PowerFails(after);
          }
      }
    }

    /** Any history of launches, kills and power losses, as the moments between its events. Every event accounts for
        how it led to the next moment. As long as the history directory was durable and every launch is calm, each
        moment can be read or repaired after any further loss, and no durable record is ever lost. */
    method History(events: seq<Event>) returns (ghost moments: seq<Moment>, ghost outcomes: seq<Outcome>)
      modifies this
      ensures |outcomes| == |events| && |moments| == |events| + 1
      ensures moments[0] == old(Now()) && moments[|events|] == Now()
      ensures forall i | 0 <= i < |events| :: Accounts(events[i], moments[i], outcomes[i], moments[i + 1], plan)
      ensures TameAt(moments[0], plan) && (forall i | 0 <= i < |events| :: Calm(events[i], moments[i], plan)) ==>
                && (forall i | 0 <= i <= |events| :: TameAt(moments[i], plan))
                && (forall i, j | 0 <= i <= j <= |events| :: KeepsSynced(moments[i], moments[j]))
    {
      hide Accounts, Calm, TameAt, SyncedRecords;
      moments, outcomes := [Now()], [];
      for i := 0 to |events|
        invariant |outcomes| == i && |moments| == i + 1
        invariant moments[0] == old(Now()) && moments[i] == Now()
        invariant forall j | 0 <= j < i :: Accounts(events[j], moments[j], outcomes[j], moments[j + 1], plan)
        invariant TameAt(moments[0], plan) && (forall j | 0 <= j < i :: Calm(events[j], moments[j], plan)) ==>
                    && (forall j | 0 <= j <= i :: TameAt(moments[j], plan))
                    && (forall j, k | 0 <= j <= k <= i :: KeepsSynced(moments[j], moments[k]))
      {
        var outcome := Happen(events[i]);
        moments, outcomes := moments + [Now()], outcomes + [outcome];
      }
    }

    /** Any number of launches, each killed when its budget is used up, then one repair with a budget of its own: two
        file operations are enough to end in an accepted chain. `disks` are the disks between the launches. */
    method RunUpgrades(launches: seq<(Request, Budget)>, closing: Budget)
      returns (r: Repaired, ghost disks: seq<Disk>, ghost outcomes: seq<Outcome>)
      requires Reachable(disk, plan)
      modifies this
      ensures |outcomes| == |launches| && |disks| == |launches| + 1 && disks[0] == old(disk)
      ensures forall i | 0 <= i < |launches| ::
                LaunchAccounts(Launch(launches[i].0, launches[i].1), disks[i], outcomes[i], disks[i + 1], plan)
      ensures forall i | 0 <= i <= |launches| :: Reachable(disks[i], plan) && Records(disks[i]) <= Records(disk)
      ensures disk == disks[|launches|] || DropsDuplicate(disks[|launches|], disk)
      ensures Reachable(disk, plan) && (r == Clean || r == Dead)
      ensures closing.Unlimited? || closing.operations >= 2 ==> r == Clean
      ensures r == Clean ==> Untouched(disk) || Accepted(disk, plan)
    {
      hide Tame, Accepted, SavedBy, Records, Interrupted, Chaining;
      disks, outcomes := [disk], [];
      for i := 0 to |launches|
        invariant |outcomes| == i && |disks| == i + 1 && disks[0] == old(disk) && disks[i] == disk
        invariant forall j | 0 <= j < i ::
                    LaunchAccounts(Launch(launches[j].0, launches[j].1), disks[j], outcomes[j], disks[j + 1], plan)
        invariant forall j | 0 <= j <= i :: Reachable(disks[j], plan) && Records(disks[j]) <= Records(disk)
      {
        var outcome := Launching(launches[i].0, launches[i].1);
        disks, outcomes := disks + [disk], outcomes + [outcome];
      }
      budget := closing;
      r := RepairArchiveStaging();
    }
  }
}
