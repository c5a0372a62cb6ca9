/** Publishing the final export, recovering an interrupted publication, and resuming behind a finished one, with a
    kill between any two file operations and power losses between sessions. */
module ExportPublication {
  import opened Budgets
  import opened Options
  import opened UpgradeRecords
  import opened ExecutionUpgrade
  import opened ExportArtifact

  /** What the run fixes: its plan, how payload files are normalized and which one of them atomically, and which
      payloads fulfil the contract. */
  datatype Setup = Setup(
    plan: string, normalize: Artifact -> Option<map<string, string>>, configFile: string,
    fulfils: Artifact -> bool, isTensors: string -> bool)

  /** A session with the upgrade that its launch left in the run state, killed when its budget is used up, or a power
      loss. */
  datatype Event =
    | Launch(resume: bool, payload: map<string, string>, upgrade: Disk, limit: Budget)
    | Loss(after: Place)

  datatype Ending = Published | NotPublished | Refused | Killed

  function Written(content: Content): StoredFile {
    StoredFile(content, false, false)
  }

  function SyncEntries(t: Tree): Tree {
    map p | p in t :: t[p].(entrySynced := true)
  }

  /** `atomic_json`: the file's data are synced, and so are the entries of its directory. */
  function WriteAtomic(t: Tree, p: Path, content: Content): (r: Tree)
    ensures p in r && Durable(r[p]) && forall q | q in r :: r[q].entrySynced
    ensures forall q | q in t && q != p :: q in r && r[q].dataSynced == t[q].dataSynced
  {
    SyncEntries(t[p := StoredFile(content, true, true)])
  }

  lemma WriteAtomicContents(t: Tree, p: Path, content: Content)
    ensures Contents(WriteAtomic(t, p, content)) == Contents(t)[p := content]
  {}

  lemma WriteContents(t: Tree, p: Path, f: StoredFile)
    ensures Contents(t[p := f]) == Contents(t)[p := f.content]
  {}

  predicate Marked(t: Option<Tree>) {
    t.Some? && RunPath in t.value
  }

  /** Payload files that were only written: nothing syncs them before the markers are there. */
  predicate Loose(t: Tree, configFile: string) {
    forall p | p in t && p.Payload? && p.file != configFile :: !t[p].dataSynced
  }

  lemma WriteAtomicStaysLoose(t: Tree, p: Path, content: Content, configFile: string)
    requires Loose(t, configFile) && (p.Payload? ==> p.file == configFile)
    ensures Loose(WriteAtomic(t, p, content), configFile)
  {}

  /** The export stage in the run state, and the output next to it. `stageSynced` says whether the entry that the stage
      has, or had before it was renamed to the output, is durable; `outputSynced` whether that rename is; `discarding`
      whether the removal of a stage is not. */
  datatype Place = Place(
    stage: Option<Tree>, stageSynced: bool, output: Option<Tree>, outputSynced: bool, discarding: bool)

  const NOTHING: Place := Place(None, false, None, false, false)

  /** An unsynced publication may be undone, or be gone altogether when the stage's own entry was never synced. */
  predicate LosesOutput(before: Place, after: Place)
    requires before.output.Some?
  {
    && !before.outputSynced && after.output.None?
    && if after.stage.Some? then Survives(before.output.value, after.stage.value) else !before.stageSynced
  }

  predicate KeepsOutput(before: Place, after: Place)
    requires before.output.Some?
  {
    after.output.Some? && after.stage.None? && Survives(before.output.value, after.output.value) && after.outputSynced
  }

  /** What a power loss may leave: an unsynced publication may be undone, an unsynced stage may be gone, a discarded one
      may show some of its files again. Whatever is left is durable. */
  predicate LossOutcome(before: Place, after: Place) {
    && !after.discarding && (after.stage.Some? ==> after.stageSynced)
    && if before.output.Some? then KeepsOutput(before, after) || LosesOutput(before, after)
       else
         && after.output.None?
         && (after.stage.None? ==> before.stage.None? || !before.stageSynced || before.discarding)
         && (after.stage.Some? ==>
               || (before.stage.Some? && Survives(before.stage.value, after.stage.value))
               || (before.discarding && !Marked(after.stage)))
  }

  /** The output is complete whenever it exists, and durable. A marked stage validates unless a power loss hit it
      between the marker and the sync of the tree. */
  ghost predicate Sound(at: Place, damaged: bool, plan: string) {
    && (at.output.Some? ==> Validates(Contents(at.output.value), plan) && AllDurable(at.output.value))
    && (at.output.Some? ==> at.stage.None?)
    && (Marked(at.stage) ==> damaged || Validates(Contents(at.stage.value), plan))
  }

  lemma ValidatesMarked(files: Artifact, plan: string)
    requires Validates(files, plan)
    ensures RunPath in files
  {}

  lemma LossIsSound(before: Place, after: Place, damaged: bool, plan: string)
    requires Sound(before, damaged, plan) && LossOutcome(before, after)
    ensures Sound(after, Marked(after.stage) && !Validates(Contents(after.stage.value), plan), plan)
  {
    hide Validates;
    if before.output.Some? && (after.output.Some? || after.stage.Some?) {
      var t := if after.output.Some? then after.output.value else after.stage.value;
      DurableSurvives(before.output.value, t);
      ValidatesMarked(Contents(before.output.value), plan);
    }
  }

  /** An undone publication is gone, or a marked stage that still validates. */
  lemma LossKeepsOutput(before: Place, after: Place, plan: string)
    requires before.output.Some? && Validates(Contents(before.output.value), plan)
    requires AllDurable(before.output.value) && LossOutcome(before, after)
    ensures after.output.Some? ==> Contents(after.output.value) == Contents(before.output.value)
    ensures after.output.None? ==> !before.outputSynced && (after.stage.None? ==> !before.stageSynced)
    ensures after.output.None? && after.stage.Some? ==>
              Marked(after.stage) && Contents(after.stage.value) == Contents(before.output.value)
  {
    hide Validates;
    if after.output.Some? || after.stage.Some? {
      var t := if after.output.Some? then after.output.value else after.stage.value;
      DurableSurvives(before.output.value, t);
      ValidatesMarked(Contents(before.output.value), plan);
      assert RunPath in Contents(t);
    }
  }

  /** This whole artifact is safe: it is the output, or a complete and durable stage that will become the output. */
  ghost predicate Secured(at: Place, files: Artifact, plan: string) {
    if at.output.Some? then Contents(at.output.value) == files && (at.outputSynced || at.stageSynced)
    else
      && at.stage.Some? && at.stageSynced && !at.discarding
      && Contents(at.stage.value) == files && AllDurable(at.stage.value) && Validates(files, plan)
  }

  /** No artifact that was safe is lost or changed. */
  ghost predicate KeepsSecured(before: Place, after: Place, plan: string) {
    forall files | Secured(before, files, plan) :: Secured(after, files, plan)
  }

  /** Where nothing is safe, nothing safe can be lost. */
  lemma NothingSecured(before: Place, after: Place, plan: string)
    requires forall files :: !Secured(before, files, plan)
    ensures KeepsSecured(before, after, plan)
  {}

  lemma UnmarkedIsUnsecured(at: Place, plan: string)
    requires at.output.None? && !Marked(at.stage)
    ensures forall files :: !Secured(at, files, plan)
  {
    forall files ensures !Secured(at, files, plan) {
      if at.stage.Some? && Contents(at.stage.value) == files {
        assert RunPath !in files;
      }
    }
  }

  lemma KeepsSecuredSelf(at: Place, plan: string)
    ensures KeepsSecured(at, at, plan)
  {}

  lemma KeepsSecuredOn(a: Place, b: Place, c: Place, plan: string)
    requires KeepsSecured(a, b, plan) && KeepsSecured(b, c, plan)
    ensures KeepsSecured(a, c, plan)
  {
    hide Secured;
  }

  lemma LossKeepsSecured(before: Place, after: Place, damaged: bool, plan: string)
    requires Sound(before, damaged, plan) && LossOutcome(before, after)
    ensures KeepsSecured(before, after, plan)
  {
    hide Validates;
    forall files | Secured(before, files, plan) ensures Secured(after, files, plan) {
      var t := if before.output.Some? then before.output.value else before.stage.value;
      ValidatesMarked(files, plan);
      assert RunPath in Contents(t);
      var rest := if after.output.Some? then after.output.value else after.stage.value;
      DurableSurvives(t, rest);
    }
  }

  /** A published output outlives every power loss, as the output or as the stage that it was, if and only if the rename
      or the stage's own entry is durable. */
  lemma OutputSurvivesIff(at: Place, damaged: bool, plan: string)
    requires Sound(at, damaged, plan) && at.output.Some?
    ensures (forall after | LossOutcome(at, after) :: Secured(after, Contents(at.output.value), plan))
            <==> (at.outputSynced || at.stageSynced)
  {
    hide Validates;
    var files := Contents(at.output.value);
    if at.outputSynced || at.stageSynced {
      assert Secured(at, files, plan);
      forall after | LossOutcome(at, after) ensures Secured(after, files, plan) {
        LossKeepsSecured(at, after, damaged, plan);
      }
    } else {
      assert LossOutcome(at, NOTHING);
    }
  }

  /** A stage with its marker and one file that was never synced may be left damaged: marked, but not complete. */
  lemma MarkedStageCanBeDamaged(at: Place, plan: string, p: Path)
    requires at.output.None? && at.stage.Some? && Validates(Contents(at.stage.value), plan)
    requires RunPath in at.stage.value && Durable(at.stage.value[RunPath])
    requires p in at.stage.value && !at.stage.value[p].dataSynced
    ensures exists after ::
              LossOutcome(at, after) && Marked(after.stage) && !Validates(Contents(after.stage.value), plan)
  {
    hide Validates;
    DamagedSurvivor(at.stage.value, plan, p);
    var after := Place(Some(Dropping(at.stage.value, p)), true, None, false, false);
    assert LossOutcome(at, after);
  }

  /** `validate_published_artifact`; without hashes only the sizes of the listed files are compared, which every
      file that hashes correctly passes. */
  method Validate(files: Artifact, plan: string) returns (ok: bool)
    ensures ok <==> Validates(files, plan)
  {
    if !RecordsAgree(files, plan) || !FileSetAgrees(files) || !HashesAgree(files) {
      return false;
    }
    if UpgradePath in files {
      var read := ReadUpgrade(UpgradeDisk(files), plan);
      return read.Accept?;
    }
    ok := true;
  }

  /** The payload files of an export. */
  function PayloadOf(files: Artifact): Artifact {
    map p | p in files && p.Payload? :: files[p]
  }

  /** The payload files of a save. */
  function Saved(payload: map<string, string>): Artifact {
    map n | n in payload :: Payload(n) := PayloadContent(payload[n])
  }

  lemma SavedIsPayload(payload: map<string, string>)
    ensures forall p | p in Saved(payload) :: p.Payload?
  {}

  lemma SavedMore(payload: map<string, string>, left: set<string>, name: string)
    requires name in left && name in payload
    ensures Saved(payload - (left - {name})) == Saved(payload - left)[Payload(name) := PayloadContent(payload[name])]
  {
    var a, b := payload - (left - {name}), payload - left;
    assert a == b[name := payload[name]];
    var x, y := Saved(a), Saved(b)[Payload(name) := PayloadContent(payload[name])];
    forall p ensures p in x <==> p in y {
      if p in y && p != Payload(name) {
        var n :| n in b && Payload(n) == p;
        assert n in a;
      }
    }
  }

  lemma NothingSaved(files: Artifact, payload: map<string, string>)
    ensures files + Saved(payload - payload.Keys) == files
  {}

  lemma SavedMoreOn(files: Artifact, payload: map<string, string>, left: set<string>, name: string)
    requires name in left && name in payload
    ensures files + Saved(payload - (left - {name}))
            == (files + Saved(payload - left))[Payload(name) := PayloadContent(payload[name])]
  {
    SavedMore(payload, left, name);
  }

  lemma SyncOneContents(t: Tree, p: Path)
    requires p in t
    ensures Contents(t[p := t[p].(dataSynced := true)]) == Contents(t)
  {}

  lemma SyncEntriesContents(t: Tree)
    ensures Contents(SyncEntries(t)) == Contents(t)
  {}

  /** The same files apart from the payload. */
  predicate SameButPayload(a: Artifact, b: Artifact) {
    && (forall p | p in a && !p.Payload? :: p in b && b[p] == a[p])
    && (forall p | p in b && !p.Payload? :: p in a)
  }

  lemma SameButPayloadStep(a: Artifact, b: Artifact, added: Option<(string, Content)>)
    requires added.None? ==> a == b
    requires added.Some? ==> SameButPayload(a, b)
    ensures SameButPayload(a, if added.Some? then b[Payload(added.value.0) := added.value.1] else b)
  {}

  /** The same files apart from archived upgrade records. */
  predicate SameButHistory(a: Artifact, b: Artifact) {
    && (forall p | p in a && !p.HistoryPath? :: p in b && b[p] == a[p])
    && (forall p | p in b && !p.HistoryPath? :: p in a)
  }

  lemma SameButHistoryStep(a: Artifact, b: Artifact, added: Option<(FileName, Content)>)
    requires added.None? ==> a == b
    requires added.Some? ==> SameButHistory(a, b)
    ensures SameButHistory(a, if added.Some? then b[HistoryPath(added.value.0) := added.value.1] else b)
  {}

  /** The same files apart from the upgrade and its history. */
  predicate SameButUpgrade(a: Artifact, b: Artifact) {
    && (forall p | p in a && !p.HistoryPath? && p != UpgradePath :: p in b && b[p] == a[p])
    && (forall p | p in b && !p.HistoryPath? && p != UpgradePath :: p in a)
  }

  lemma PayloadKept(a: Artifact, b: Artifact)
    requires SameButUpgrade(a, b)
    ensures PayloadOf(a) == PayloadOf(b)
  {}

  lemma PayloadRewritten(files: Artifact, payload: map<string, string>)
    ensures PayloadOf(files + Saved(payload)) == PayloadOf(files) + Saved(payload)
  {}

  /** The export carries this upgrade chain. */
  predicate Carries(files: Artifact, upgrade: Disk) {
    if upgrade.active.Missing? then UpgradePath !in files && HistoryFiles(files) == map[]
    else
      && upgrade.active.file.Regular?
      && UpgradePath in files && files[UpgradePath] == UpgradeContent(upgrade.active.file.record)
      && HistoryFiles(files) == Files(upgrade.history)
  }

  lemma CarriedStays(a: Artifact, b: Artifact, upgrade: Disk)
    requires SameButPayload(a, b) && Carries(a, upgrade)
    ensures Carries(b, upgrade)
  {
    assert HistoryFiles(a) == HistoryFiles(b);
  }

  /** A carried chain is accepted in the export because it is accepted in the run state. */
  lemma CarriedAccepted(files: Artifact, upgrade: Disk, plan: string)
    requires Carries(files, upgrade) && (upgrade.active.Present? ==> Accepted(upgrade, plan))
    ensures UpgradePath in files ==> Accepted(UpgradeDisk(files), plan)
  {}

  lemma HistoryUntouched(files: Artifact, content: Content)
    ensures HistoryFiles(files[UpgradePath := content]) == HistoryFiles(files)
  {}

  lemma HistoryMore(files: Artifact, history: map<FileName, File>, left: set<FileName>, name: FileName)
    requires left <= history.Keys && name in left && history[name].Regular?
    requires HistoryFiles(files) == history - left
    ensures HistoryFiles(files[HistoryPath(name) := UpgradeContent(history[name].record)]) == history - (left - {name})
  {
    var after := files[HistoryPath(name) := UpgradeContent(history[name].record)];
    var h := HistoryFiles(after);
    assert h[name] == history[name] by {
      assert HistoryPath(name) in after;
    }
    forall n ensures n in h <==> n in history - (left - {name}) {
      if n in history - (left - {name}) && n != name {
        assert n in HistoryFiles(files);
        assert HistoryPath(n) in files;
        assert HistoryPath(n) in after;
      }
      if n in h && n != name {
        assert HistoryPath(n) in files;
        assert n in HistoryFiles(files);
      }
    }
    forall n | n in h && n != name ensures h[n] == history[n] {
      assert HistoryPath(n) in files;
      assert n in HistoryFiles(files) && HistoryFiles(files)[n] == history[n];
    }
  }

  /** Ready for the manifest: the plan and the upgrade chain are in place, the markers are not. */
  predicate ReadyFor(files: Artifact, upgrade: Disk, plan: string) {
    && PlanPath in files && files[PlanPath] == PlanContent(plan)
    && ManifestPath !in files && RunPath !in files
    && Carries(files, upgrade)
  }

  lemma ReadyIsStaged(files: Artifact, upgrade: Disk, plan: string)
    requires ReadyFor(files, upgrade, plan) && (upgrade.active.Present? ==> Accepted(upgrade, plan))
    ensures Staged(files, plan)
  {
    CarriedAccepted(files, upgrade, plan);
  }

  lemma PlanAdded(saved: Artifact, plan: string)
    requires forall p | p in saved :: p.Payload?
    ensures var planned := saved[PlanPath := PlanContent(plan)];
            && UpgradePath !in planned && ManifestPath !in planned && RunPath !in planned
            && HistoryFiles(planned) == map[] && PayloadOf(planned) == saved
  {}

  lemma StillReady(planned: Artifact, upgraded: Artifact, normalized: Artifact, upgrade: Disk, plan: string)
    requires PlanPath in planned && planned[PlanPath] == PlanContent(plan)
    requires ManifestPath !in planned && RunPath !in planned
    requires SameButUpgrade(planned, upgraded) && Carries(upgraded, upgrade)
    requires SameButPayload(upgraded, normalized)
    ensures ReadyFor(normalized, upgrade, plan)
  {
    CarriedStays(upgraded, normalized, upgrade);
  }

  lemma MarkersKeep(files: Artifact, plan: string, upgrade: Disk)
    requires Carries(files, upgrade)
    ensures PayloadOf(WithMarkers(files, plan)) == PayloadOf(files)
    ensures Carries(WithMarkers(files, plan), upgrade)
  {
    assert HistoryFiles(WithMarkers(files, plan)) == HistoryFiles(files);
  }

  predicate HoldsTensors(setup: Setup, files: Artifact) {
    exists p | p in files :: p.Payload? && setup.isTensors(p.file)
  }

  lemma TensorsInPayload(setup: Setup, files: Artifact)
    ensures HoldsTensors(setup, files) <==> HoldsTensors(setup, PayloadOf(files))
  {
    if p :| p in files && p.Payload? && setup.isTensors(p.file) {
      assert p in PayloadOf(files);
    }
    if p :| p in PayloadOf(files) && p.Payload? && setup.isTensors(p.file) {
      assert p in files;
    }
  }

  /** The payload that an export of `saved` publishes. */
  function Normalized(setup: Setup, saved: Artifact): Artifact
    requires setup.normalize(saved).Some?
  {
    saved + Saved(setup.normalize(saved).value)
  }

  /** The upgrade of the run state does not read. */
  ghost predicate UpgradeRejected(setup: Setup, upgrade: Disk) {
    upgrade.active.Present? && !Accepted(upgrade, setup.plan)
  }

  /** What an export needs to be accepted. */
  ghost predicate Exportable(setup: Setup, upgrade: Disk, saved: Artifact) {
    && !UpgradeRejected(setup, upgrade)
    && setup.normalize(saved).Some?
    && setup.fulfils(Normalized(setup, saved))
    && HoldsTensors(setup, Normalized(setup, saved))
  }

  /** This artifact is what an export of `saved` publishes: the normalized payload and the upgrade chain. */
  ghost predicate Exports(setup: Setup, upgrade: Disk, files: Artifact, saved: Artifact) {
    Exportable(setup, upgrade, saved) && PayloadOf(files) == Normalized(setup, saved) && Carries(files, upgrade)
  }

  /** How a session ends that is not killed. A fresh one is refused where there is a stage or an output, and a resumed
      one keeps the output it finds. A marked stage is published as it is if it validates, and refused if not. Otherwise
      the session publishes its own export, or is refused for it. */
  ghost predicate Completes(setup: Setup, upgrade: Disk, resume: bool, payload: map<string, string>, before: Place,
                            ending: Ending, after: Place)
  {
    if !resume && (before.output.Some? || before.stage.Some?) then ending.Refused? && after == before
    else if before.output.Some? then ending.Published? && after == before
    else if Marked(before.stage) then
      if UpgradeRejected(setup, upgrade) || !Validates(Contents(before.stage.value), setup.plan)
      then ending.Refused? && after == before
      else ending.Published? && after.output.Some? && after.outputSynced
           && Contents(after.output.value) == Contents(before.stage.value)
    else if Exportable(setup, upgrade, Saved(payload)) then
      ending.Published? && after.output.Some? && after.outputSynced
      && Exports(setup, upgrade, Contents(after.output.value), Saved(payload))
    else ending.Refused? && after.output.None?
  }

  /** An export between two events. */
  datatype Moment = Moment(place: Place, damaged: bool)

  ghost predicate SoundAt(m: Moment, plan: string) {
    Sound(m.place, m.damaged, plan)
  }

  /** What one event did, from the moment before it to the moment after it: a session is killed, which takes a budget,
      or completes; a loss that does not fit is skipped. */
  ghost predicate Accounts(setup: Setup, event: Event, before: Moment, ending: Ending, after: Moment) {
    match event
    case Launch(resume, payload, upgrade, limit) =>
      && after.damaged == before.damaged
      && (before.place.output.Some? ==> after.place == before.place)
      && ((ending.Killed? && limit.Left?)
          || Completes(setup, upgrade, resume, payload, before.place, ending, after.place))
    case Loss(lost) =>
      if LossOutcome(before.place, lost) then after.place == lost else after == before
  }

  /** From an empty place, a session with an exportable payload and no limit publishes it. */
  lemma FreshSessionPublishes(setup: Setup, event: Event, before: Moment, ending: Ending, after: Moment)
    requires Accounts(setup, event, before, ending, after) && event.Launch? && event.limit.Unlimited?
    requires before.place.output.None? && before.place.stage.None?
    requires Exportable(setup, event.upgrade, Saved(event.payload))
    ensures ending.Published? && after.place.output.Some? && after.place.outputSynced
    ensures Exports(setup, event.upgrade, Contents(after.place.output.value), Saved(event.payload))
  {
    hide Exports, Exportable, Contents, Saved;
  }

  class Publication {
    const setup: Setup
    var upgrade: Disk
    var at: Place
    /** A power loss left a stage with its marker but without all that the marker binds. */
    ghost var damaged: bool
    var budget: Budget

    ghost predicate Valid()
      reads this
    {
      Sound(at, damaged, setup.plan)
    }

    constructor (setup: Setup, upgrade: Disk)
      ensures Valid() && this.setup == setup && this.upgrade == upgrade && !damaged
      ensures at == NOTHING
    {
      this.setup, this.upgrade := setup, upgrade;
      at, damaged, budget := NOTHING, false, Left(0);
    }

    method Alive() returns (alive: bool)
      modifies this`budget
      ensures alive <==> old(budget) != Left(0)
      ensures Draws(old(budget), budget, !alive)
    {
      alive := budget != Left(0);
      budget := Charge(budget);
    }

    /** Nothing is published and the stage has no marker. */
    ghost predicate Unpublished()
      reads this
    {
      Valid() && at.output.None? && !Marked(at.stage)
    }

    /** And nothing has synced the payload in it yet. */
    ghost predicate Writing()
      reads this
    {
      Unpublished() && at.stage.Some? && Loose(at.stage.value, setup.configFile)
    }

    /** One change to the files of an unmarked stage. */
    method Change(t: Tree) returns (alive: bool)
      requires Valid() && at.output.None? && RunPath !in t
      modifies this`at, this`budget
      ensures Draws(old(budget), budget, !alive)
      ensures Valid() && at.output.None?
      ensures at == if alive then old(at).(stage := Some(t)) else old(at)
    {
      alive := Alive();
      if alive {
        at := at.(stage := Some(t));
      }
    }

    /** Write one file of the stage without syncing it. */
    method WriteFile(p: Path, content: Content) returns (alive: bool)
      requires Writing() && p != RunPath
      modifies this`at, this`budget
      ensures Draws(old(budget), budget, !alive)
      ensures Writing()
      ensures Contents(at.stage.value) ==
              if alive then Contents(old(at.stage.value))[p := content] else Contents(old(at.stage.value))
    {
      WriteContents(at.stage.value, p, Written(content));
      alive := Change(at.stage.value[p := Written(content)]);
    }

    /** `atomic_json` of anything but the run marker. */
    method WriteJson(p: Path, content: Content) returns (alive: bool)
      requires Writing() && p != RunPath && (p.Payload? ==> p.file == setup.configFile)
      modifies this`at, this`budget
      ensures Draws(old(budget), budget, !alive)
      ensures Writing()
      ensures Contents(at.stage.value) ==
              if alive then Contents(old(at.stage.value))[p := content] else Contents(old(at.stage.value))
    {
      WriteAtomicContents(at.stage.value, p, content);
      WriteAtomicStaysLoose(at.stage.value, p, content, setup.configFile);
      alive := Change(WriteAtomic(at.stage.value, p, content));
    }

    /** Write one payload file, atomically only if normalization rewrites the configuration. */
    method WritePayload(name: string, bytes: string, atomic: bool) returns (alive: bool)
      requires Writing()
      modifies this`at, this`budget
      ensures Draws(old(budget), budget, !alive)
      ensures Writing()
      ensures Contents(at.stage.value) ==
              if alive then Contents(old(at.stage.value))[Payload(name) := PayloadContent(bytes)]
              else Contents(old(at.stage.value))
    {
      hide Validates, Contents, Sound, Loose;
      if atomic && name == setup.configFile {
        alive := WriteJson(Payload(name), PayloadContent(bytes));
      } else {
        alive := WriteFile(Payload(name), PayloadContent(bytes));
      }
    }

    /** Write payload files one by one. */
    method WritePayloads(payload: map<string, string>, atomic: bool) returns (alive: bool)
      requires Writing()
      modifies this`at, this`budget
      ensures Draws(old(budget), budget, !alive)
      ensures Writing()
      ensures SameButPayload(Contents(old(at.stage.value)), Contents(at.stage.value))
      ensures alive ==> Contents(at.stage.value) == Contents(old(at.stage.value)) + Saved(payload)
    {
      hide Validates, Contents, SameButPayload, Sound, Saved, Loose;
      ghost var before := Contents(at.stage.value);
      SameButPayloadStep(before, before, None);
      NothingSaved(before, payload);
      var left := payload.Keys;
      alive := true;
      while alive && left != {}
        invariant Writing() && Draws(old(budget), budget, !alive) && left <= payload.Keys
        invariant SameButPayload(before, Contents(at.stage.value))
        invariant alive ==> Contents(at.stage.value) == before + Saved(payload - left)
        decreases |left|
      {
        var name :| name in left;
        SavedMoreOn(before, payload, left, name);
        SameButPayloadStep(before, Contents(at.stage.value), Some((name, PayloadContent(payload[name]))));
        alive := WritePayload(name, payload[name], atomic);
        left := left - {name};
      }
      assert payload - {} == payload;
    }

    /** `mkdir` of the stage. */
    method CreateStage() returns (alive: bool)
      requires Valid() && at.output.None? && at.stage.None?
      modifies this`at, this`budget
      ensures Draws(old(budget), budget, !alive)
      ensures Unpublished() && (alive ==> Writing() && Contents(at.stage.value) == map[])
    {
      hide Validates;
      alive := Alive();
      if alive {
        at := at.(stage := Some(map[]), stageSynced := false);
      }
    }

    /** `model.save` into a new stage. */
    method Save(payload: map<string, string>) returns (ending: Ending)
      requires Valid() && at.output.None?
      modifies this`at, this`budget
      ensures Draws(old(budget), budget, ending.Killed?)
      ensures Valid() && at.output.None?
      ensures ending.Published? || ending.Killed? || ending.Refused?
      ensures ending.Refused? <==> old(at.stage).Some?
      ensures !ending.Refused? ==> Unpublished()
      ensures ending.Published? ==> Writing() && Contents(at.stage.value) == Saved(payload)
    {
      hide Validates, Contents, Loose, Sound, SameButPayload;
      if at.stage.Some? {
        return Refused;
      }
      var alive := CreateStage();
      if alive {
        alive := WritePayloads(payload, false);
      }
      ending := if alive then Published else Killed;
    }

    /** Copy every archived upgrade record. */
    method CopyHistory() returns (alive: bool)
      requires Writing()
      requires forall n | n in Files(upgrade.history) :: Files(upgrade.history)[n].Regular?
      requires HistoryFiles(Contents(at.stage.value)) == map[]
      modifies this`at, this`budget
      ensures Draws(old(budget), budget, !alive)
      ensures Writing()
      ensures SameButHistory(Contents(old(at.stage.value)), Contents(at.stage.value))
      ensures alive ==> HistoryFiles(Contents(at.stage.value)) == Files(upgrade.history)
    {
      hide Validates, Contents, HistoryFiles, SameButHistory, Sound, Loose;
      var history := Files(upgrade.history);
      ghost var before := Contents(at.stage.value);
      SameButHistoryStep(before, before, None);
      var left := history.Keys;
      alive := true;
      while alive && left != {}
        invariant Writing() && Draws(old(budget), budget, !alive) && left <= history.Keys
        invariant SameButHistory(before, Contents(at.stage.value))
        invariant alive ==> HistoryFiles(Contents(at.stage.value)) == history - left
        decreases |left|
      {
        var name :| name in left;
        HistoryMore(Contents(at.stage.value), history, left, name);
        SameButHistoryStep(before, Contents(at.stage.value), Some((name, UpgradeContent(history[name].record))));
        alive := WriteJson(HistoryPath(name), UpgradeContent(history[name].record));
        left := left - {name};
      }
      assert history - {} == history;
    }

    /** The upgrade of the run state, if there is one, goes into the export with its whole history. */
    method CopyUpgrade() returns (ending: Ending)
      requires Writing()
      requires UpgradePath !in Contents(at.stage.value) && HistoryFiles(Contents(at.stage.value)) == map[]
      modifies this`at, this`budget
      ensures Draws(old(budget), budget, ending.Killed?)
      ensures Writing()
      ensures SameButUpgrade(Contents(old(at.stage.value)), Contents(at.stage.value))
      ensures ending.Refused? <==> upgrade.active.Present? && !Accepted(upgrade, setup.plan)
      ensures !ending.Killed? && !ending.Refused? ==> ending.Published? && Carries(Contents(at.stage.value), upgrade)
    {
      hide Validates, Contents, Accepted, Loose, Sound, HistoryFiles;
      if upgrade.active.Missing? {
        return Published;
      }
      var read := ReadUpgrade(upgrade, setup.plan);
      if read.Reject? {
        return Refused;
      }
      AcceptedHistoryReads(upgrade, setup.plan);
      HistoryUntouched(Contents(at.stage.value), UpgradeContent(read.active));
      var alive := WriteJson(UpgradePath, UpgradeContent(read.active));
      if alive {
        alive := CopyHistory();
      }
      ending := if alive then Published else Killed;
    }

    /** `normalize_export_model_config`: rewrite the metadata files of the payload. */
    method Normalize() returns (ending: Ending)
      requires Writing()
      modifies this`at, this`budget
      ensures Draws(old(budget), budget, ending.Killed?)
      ensures Writing()
      ensures SameButPayload(Contents(old(at.stage.value)), Contents(at.stage.value))
      ensures ending.Published? || ending.Refused? || ending.Killed?
      ensures ending.Refused? <==> setup.normalize(PayloadOf(Contents(old(at.stage.value)))).None?
      ensures ending.Published? ==>
                Contents(at.stage.value) ==
                Contents(old(at.stage.value)) + Saved(setup.normalize(PayloadOf(Contents(old(at.stage.value)))).value)
    {
      hide Validates, Contents, SameButPayload, Sound, Saved, Loose;
      var rewrites := setup.normalize(PayloadOf(Contents(at.stage.value)));
      if rewrites.None? {
        SameButPayloadStep(Contents(at.stage.value), Contents(at.stage.value), None);
        return Refused;
      }
      var alive := WritePayloads(rewrites.value, true);
      ending := if alive then Published else Killed;
    }

    /** The stage shows its durable marker, and the payload that the marker binds is still not synced. */
    predicate Exposed()
      reads this
    {
      && at.stage.Some? && RunPath in at.stage.value && Durable(at.stage.value[RunPath])
      && Loose(at.stage.value, setup.configFile)
    }

    /** The manifest, then the run marker as the last write: from then on the stage is complete. */
    method WriteMarkers() returns (ending: Ending)
      requires Writing() && Staged(Contents(at.stage.value), setup.plan)
      modifies this`at, this`budget
      ensures Draws(old(budget), budget, ending.Killed?)
      ensures Valid() && at.output.None?
      ensures ending.Published? || ending.Refused? || ending.Killed?
      ensures ending.Refused? <==> !HoldsTensors(setup, Contents(old(at.stage.value)))
      ensures ending.Refused? ==> at == old(at)
      ensures ending.Published? ==> Exposed()
      ensures ending.Published? ==> Contents(at.stage.value) == WithMarkers(Contents(old(at.stage.value)), setup.plan)
    {
      hide Validates, Contents, Staged, Loose;
      ghost var files := Contents(at.stage.value);
      if !HoldsTensors(setup, Contents(at.stage.value)) {
        return Refused;
      }
      MarkersComplete(files, setup.plan);
      var manifest := ManifestFor(Contents(at.stage.value), setup.plan);
      var run := RunFor(Contents(at.stage.value), manifest, setup.plan);
      var alive := WriteJson(ManifestPath, ManifestContent(manifest));
      if !alive {
        return Killed;
      }
      alive := Alive();
      if !alive {
        return Killed;
      }
      WriteAtomicContents(at.stage.value, RunPath, RunContent(run));
      WriteAtomicStaysLoose(at.stage.value, RunPath, RunContent(run), setup.configFile);
      at := at.(stage := Some(WriteAtomic(at.stage.value, RunPath, RunContent(run))));
      ending := Published;
    }

    /** `fsync` of one file of the stage. */
    method SyncOneFile(p: Path) returns (alive: bool)
      requires Valid() && at.stage.Some? && p in at.stage.value
      modifies this`at, this`budget
      ensures Draws(old(budget), budget, !alive)
      ensures Valid() && at.stage.Some? && at == old(at).(stage := at.stage)
      ensures at.stage.value == if alive then old(at.stage.value)[p := old(at.stage.value)[p].(dataSynced := true)]
                                else old(at.stage.value)
    {
      hide Validates;
      alive := Alive();
      if alive {
        SyncOneContents(at.stage.value, p);
        at := at.(stage := Some(at.stage.value[p := at.stage.value[p].(dataSynced := true)]));
      }
    }

    /** `fsync` of every directory of the stage. */
    method SyncDirectories() returns (alive: bool)
      requires Valid() && at.stage.Some?
      modifies this`at, this`budget
      ensures Draws(old(budget), budget, !alive)
      ensures Valid() && at.stage.Some? && at == old(at).(stage := at.stage)
      ensures at.stage.value == if alive then SyncEntries(old(at.stage.value)) else old(at.stage.value)
    {
      hide Validates;
      alive := Alive();
      if alive {
        SyncEntriesContents(at.stage.value);
        at := at.(stage := Some(SyncEntries(at.stage.value)));
      }
    }

    /** `_fsync_artifact_tree`: every file, then every directory. */
    method SyncTree() returns (alive: bool)
      requires Valid() && at.stage.Some? && Validates(Contents(at.stage.value), setup.plan)
      modifies this`at, this`budget
      ensures Draws(old(budget), budget, !alive)
      ensures Valid() && at == old(at).(stage := at.stage) && at.stage.Some?
      ensures Contents(at.stage.value) == Contents(old(at.stage.value))
      ensures alive || AllDurable(old(at.stage.value)) ==> AllDurable(at.stage.value)
    {
      hide Validates, Sound, Contents;
      var left := at.stage.value.Keys;
      alive := true;
      while alive && left != {}
        invariant Valid() && at == old(at).(stage := at.stage) && at.stage.Some?
        invariant Draws(old(budget), budget, !alive)
        invariant AllDurable(old(at.stage.value)) ==> AllDurable(at.stage.value)
        invariant left <= at.stage.value.Keys
        invariant Contents(at.stage.value) == Contents(old(at.stage.value))
        invariant alive ==> forall p | p in at.stage.value && p !in left :: at.stage.value[p].dataSynced
        decreases |left|
      {
        var p :| p in left;
        SyncOneContents(at.stage.value, p);
        alive := SyncOneFile(p);
        left := left - {p};
      }
      if alive {
        SyncEntriesContents(at.stage.value);
        alive := SyncDirectories();
      }
    }

    /** `_publish_validated_export_stage`: sync the tree, rename it to the output, sync that. */
    method PublishStage() returns (ending: Ending)
      requires Valid() && at.output.None?
      requires at.stage.Some? && Validates(Contents(at.stage.value), setup.plan)
      modifies this`at, this`budget
      ensures Draws(old(budget), budget, ending.Killed?)
      ensures Valid()
      ensures ending.Published? || ending.Killed?
      ensures at.output.Some? ==> Contents(at.output.value) == Contents(old(at.stage.value))
      ensures at.output.None? ==> at.stage.Some? && Contents(at.stage.value) == Contents(old(at.stage.value))
      ensures ending.Published? ==> at.output.Some? && at.outputSynced
      ensures KeepsSecured(old(at), at, setup.plan)
    {
      hide Validates, Contents, AllDurable;
      var alive := SyncTree();
      if alive {
        alive := Alive();
      }
      if !alive {
        return Killed;
      }
      at := Place(None, at.stageSynced, at.stage, false, at.discarding);
      alive := Alive();
      if !alive {
        return Killed;
      }
      at := at.(outputSynced := true);
      ending := Published;
    }

    /** Everything of `publish_export` before the manifest. */
    method Assemble() returns (ending: Ending)
      requires Writing()
      requires forall p | p in Contents(at.stage.value) :: p.Payload?
      modifies this`at, this`budget
      ensures Draws(old(budget), budget, ending.Killed?)
      ensures Writing()
      ensures ending.Published? || ending.Refused? || ending.Killed?
      ensures ending.Refused? ==> !Exportable(setup, upgrade, Contents(old(at.stage.value)))
      ensures ending.Published? ==>
                && (upgrade.active.Present? ==> Accepted(upgrade, setup.plan))
                && ReadyFor(Contents(at.stage.value), upgrade, setup.plan)
                && setup.normalize(Contents(old(at.stage.value))).Some?
                && PayloadOf(Contents(at.stage.value)) == Normalized(setup, Contents(old(at.stage.value)))
                && setup.fulfils(PayloadOf(Contents(at.stage.value)))
    {
      hide Validates, Contents, Accepted, SameButUpgrade, SameButPayload, Carries, Loose;
      ghost var saved := Contents(at.stage.value);
      PlanAdded(saved, setup.plan);
      var alive := WriteJson(PlanPath, PlanContent(setup.plan));
      if !alive {
        return Killed;
      }
      ghost var planned := Contents(at.stage.value);
      ending := CopyUpgrade();
      if !ending.Published? {
        return;
      }
      ghost var upgraded := Contents(at.stage.value);
      PayloadKept(planned, upgraded);
      ending := Normalize();
      if !ending.Published? {
        return;
      }
      ghost var normalized := Contents(at.stage.value);
      PayloadRewritten(upgraded, setup.normalize(saved).value);
      StillReady(planned, upgraded, normalized, upgrade, setup.plan);
      if !setup.fulfils(PayloadOf(Contents(at.stage.value))) {
        return Refused;
      }
    }

    /** `publish_export` up to the run marker. It refuses exactly what may not be exported, and otherwise leaves a
        complete stage whose payload nothing has synced yet. */
    method Mark() returns (ending: Ending)
      requires Writing() && forall p | p in Contents(at.stage.value) :: p.Payload?
      modifies this`at, this`budget
      ensures Draws(old(budget), budget, ending.Killed?)
      ensures Valid() && at.output.None?
      ensures ending.Published? || ending.Refused? || ending.Killed?
      ensures ending.Refused? ==> !Marked(at.stage) && !Exportable(setup, upgrade, Contents(old(at.stage.value)))
      ensures ending.Published? ==>
                && Exposed() && Validates(Contents(at.stage.value), setup.plan)
                && Exports(setup, upgrade, Contents(at.stage.value), Contents(old(at.stage.value)))
    {
      hide Validates, Contents, Accepted, Carries, Normalized, WithMarkers, Loose;
      ending := Assemble();
      if !ending.Published? {
        return;
      }
      ghost var files := Contents(at.stage.value);
      ReadyIsStaged(files, upgrade, setup.plan);
      MarkersKeep(files, setup.plan, upgrade);
      MarkersComplete(files, setup.plan);
      TensorsInPayload(setup, files);
      ending := WriteMarkers();
    }

    /** `publish_export`: it refuses exactly what may not be exported, and otherwise, unless it is killed, ends with a
        complete, durable output. */
    method PublishExport() returns (ending: Ending)
      requires Writing() && forall p | p in Contents(at.stage.value) :: p.Payload?
      modifies this`at, this`budget
      ensures Draws(old(budget), budget, ending.Killed?)
      ensures Valid()
      ensures ending.Published? || ending.Refused? || ending.Killed?
      ensures ending.Refused? ==> at.output.None? && !Exportable(setup, upgrade, Contents(old(at.stage.value)))
      ensures ending.Published? ==>
                && at.output.Some? && at.outputSynced
                && Exports(setup, upgrade, Contents(at.output.value), Contents(old(at.stage.value)))
    {
      hide Validates, Contents, Exports, Exportable, Loose;
      ending := Mark();
      if !ending.Published? {
        return;
      }
      var valid := Validate(Contents(at.stage.value), setup.plan);
      if !valid {
        assert false;
      }
      ending := PublishStage();
    }

    /** `rmtree` of an unmarked stage, then a sync of the run state. */
    method Discard() returns (alive: bool)
      requires Unpublished() && at.stage.Some?
      modifies this`at, this`budget
      ensures Draws(old(budget), budget, !alive)
      ensures Unpublished()
      ensures alive ==> at.stage.None? && !at.discarding
    {
      hide Validates, Contents;
      at := at.(discarding := true);
      alive := true;
      while alive && at.stage.value != map[]
        invariant Unpublished() && at.stage.Some? && Draws(old(budget), budget, !alive)
        decreases alive, |at.stage.value|
      {
        alive := Alive();
        if alive {
          var p :| p in at.stage.value;
          assert |at.stage.value - {p}| < |at.stage.value| by {
            assert (at.stage.value - {p}).Keys == at.stage.value.Keys - {p};
          }
          at := at.(stage := Some(at.stage.value - {p}));
        }
      }
      if alive {
        alive := Alive();
      }
      if alive {
        at := at.(stage := None);
        alive := Alive();
      }
      if alive {
        at := at.(discarding := false);
      }
    }

    /** `_recover_export_stage`: a marked stage that no power loss damaged validates and is published, a damaged one
        is refused and kept, an unmarked one is discarded. */
    method Recover() returns (ending: Ending)
      requires Valid() && at.output.None?
      modifies this`at, this`budget
      ensures Draws(old(budget), budget, ending.Killed?)
      ensures Valid()
      ensures ending.Published? ==>
                && Marked(old(at.stage)) && at.output.Some? && at.outputSynced
                && Contents(at.output.value) == Contents(old(at.stage.value))
      ensures ending.NotPublished? ==> !Marked(old(at.stage)) && at.stage.None? && at.output.None?
      ensures ending.Refused? <==> Marked(old(at.stage)) && !Validates(Contents(old(at.stage.value)), setup.plan)
      ensures ending.Refused? ==> damaged && at == old(at)
      ensures at.output.Some? ==> Marked(old(at.stage))
      ensures KeepsSecured(old(at), at, setup.plan)
    {
      hide Validates, Contents;
      if at.stage.None? {
        return NotPublished;
      }
      if Marked(at.stage) {
        var valid := Validate(Contents(at.stage.value), setup.plan);
        if !valid {
          return Refused;
        }
        ending := PublishStage();
        return;
      }
      UnmarkedIsUnsecured(at, setup.plan);
      var alive := Discard();
      ending := if alive then NotPublished else Killed;
    }

    /** `prepare_run`, as far as the export goes. Behind a finished publication a resumed run changes nothing. */
    method Prepare(resume: bool) returns (ending: Ending)
      requires Valid()
      modifies this`at, this`budget
      ensures Draws(old(budget), budget, ending.Killed?)
      ensures Valid()
      ensures old(at.output).Some? ==> at == old(at) && ending == (if resume then Published else Refused)
      ensures ending.NotPublished? ==> at.stage.None? && at.output.None?
      ensures ending.Published? ==> at.output.Some?
      ensures ending.Published? && old(at.output).None? ==>
                Marked(old(at.stage)) && at.outputSynced && Contents(at.output.value) == Contents(old(at.stage.value))
      ensures KeepsSecured(old(at), at, setup.plan)
      ensures ending.NotPublished? ==> !Marked(old(at.stage))
      ensures old(at.output).None? && resume && ending.Refused? ==>
                && at == old(at)
                && (|| (damaged && Marked(at.stage) && !Validates(Contents(at.stage.value), setup.plan))
                    || UpgradeRejected(setup, upgrade))
      ensures old(at.output).None? && resume && ending.Published? ==>
                Validates(Contents(old(at.stage.value)), setup.plan) && !UpgradeRejected(setup, upgrade)
      ensures old(at.output).None? && !resume ==> at == old(at) && (ending.Refused? <==> old(at.stage).Some?)
    {
      hide Validates, Contents;
      if at.output.Some? {
        if !resume {
          return Refused;
        }
        var valid := Validate(Contents(at.output.value), setup.plan);
        if !valid {
          assert false;
        }
        return Published;
      }
      if resume {
        if upgrade.active.Present? {
          var read := ReadUpgrade(upgrade, setup.plan);
          if read.Reject? {
            return Refused;
          }
        }
        ending := Recover();
        return;
      }
      ending := if at.stage.Some? then Refused else NotPublished;
    }

    /** The first write into the run state syncs the removal of an old stage. */
    method EnterRunState() returns (alive: bool)
      requires Valid() && at.output.None? && at.stage.None?
      modifies this`at, this`budget
      ensures Draws(old(budget), budget, !alive)
      ensures Valid() && at.output.None? && at.stage.None? && (alive ==> !at.discarding)
    {
      hide Validates;
      alive := Alive();
      if alive {
        at := at.(discarding := false);
      }
    }

    /** Save the model into a new stage and publish it. */
    method Build(payload: map<string, string>) returns (ending: Ending)
      requires Valid() && at.output.None? && at.stage.None?
      modifies this`at, this`budget
      ensures Draws(old(budget), budget, ending.Killed?)
      ensures Valid()
      ensures ending.Published? || ending.Refused? || ending.Killed?
      ensures ending.Refused? ==> at.output.None? && !Exportable(setup, upgrade, Saved(payload))
      ensures ending.Published? ==>
                && at.output.Some? && at.outputSynced
                && Exports(setup, upgrade, Contents(at.output.value), Saved(payload))
    {
      hide Validates, Contents, Saved, Accepted, Loose, Exports, Exportable;
      ending := Save(payload);
      if ending.Refused? {
        assert false;
      }
      if ending.Killed? {
        return;
      }
      SavedIsPayload(payload);
      ending := PublishExport();
    }

    /** A session: prepare, quantize, save, publish. The stage never exists before the save, so the check that it does
        not never fires. Unless it is killed, which takes a budget that is used up, it ends in exactly one way. */
    method Execute(resume: bool, payload: map<string, string>) returns (ending: Ending)
      requires Valid()
      modifies this`at, this`budget
      ensures Draws(old(budget), budget, ending.Killed?)
      ensures Valid() && KeepsSecured(old(at), at, setup.plan)
      ensures old(at.output).Some? ==> at == old(at)
      ensures ending.Killed? || Completes(setup, upgrade, resume, payload, old(at), ending, at)
    {
      hide Validates, Contents, Saved, Accepted, Loose, KeepsSecured, Normalized, Carries, HoldsTensors;
      ending := Prepare(resume);
      if !ending.NotPublished? {
        return;
      }
      UnmarkedIsUnsecured(old(at), setup.plan);
      var alive := EnterRunState();
      if !alive {
        NothingSecured(old(at), at, setup.plan);
        return Killed;
      }
      ending := Build(payload);
      NothingSecured(old(at), at, setup.plan);
    }

    /** The power fails between sessions. */
    method PowerFails(after: Place)
      requires Valid() && LossOutcome(at, after)
      modifies this`at, this`damaged
      ensures Valid() && at == after
      ensures KeepsSecured(old(at), at, setup.plan)
      ensures at.output.Some? ==>
                && old(at.output).Some? && at.outputSynced
                && Contents(at.output.value) == Contents(old(at.output.value))
      ensures old(at.output).Some? && at.output.None? ==>
                && !old(at.outputSynced)
                && if at.stage.None? then !old(at.stageSynced)
                   else Marked(at.stage) && !damaged && Contents(at.stage.value) == Contents(old(at.output.value))
    {
      hide Validates, Contents;
      if at.output.Some? {
        LossKeepsOutput(at, after, setup.plan);
      }
      LossIsSound(at, after, damaged, setup.plan);
      LossKeepsSecured(at, after, damaged, setup.plan);
      damaged := Marked(after.stage) && !Validates(Contents(after.stage.value), setup.plan);
      at := after;
    }

    ghost function Now(): Moment
      reads this
    {
      Moment(at, damaged)
    }

    /** One event of a history. */
    method Happen(event: Event) returns (ending: Ending)
      requires Valid()
      modifies this
      ensures Valid() && KeepsSecured(old(at), at, setup.plan)
      ensures Accounts(setup, event, old(Now()), ending, Now())
    {
      hide Validates, Contents, LossOutcome, KeepsSecured, Sound, Completes;
      ending := NotPublished;
      match event {
        case Launch(resume, payload, launched, limit) =>
          upgrade, budget := launched, limit;
          ending := Execute(resume, payload);
        case Loss(after) =>
          if LossOutcome(at, after) {
            PowerFails(after);
          } else {
            KeepsSecuredSelf(at, setup.plan);
          }
      }
    }

    /** Any history of sessions, kills and power losses, as the moments between its events: at each one an output is
        complete if it exists, every event accounts for how it led to the next one, and an artifact that is safe at one
        of them, as the output or as a durable stage, is so at every later one, file by file. */
    method History(events: seq<Event>) returns (ghost moments: seq<Moment>, ghost endings: seq<Ending>)
      requires Valid()
      modifies this
      ensures Valid() && |endings| == |events| && |moments| == |events| + 1
      ensures moments[0] == old(Now()) && moments[|events|] == Now()
      ensures forall i | 0 <= i <= |events| :: SoundAt(moments[i], setup.plan)
      ensures forall i | 0 <= i < |events| :: Accounts(setup, events[i], moments[i], endings[i], moments[i + 1])
      ensures forall i, j | 0 <= i <= j <= |events| :: KeepsSecured(moments[i].place, moments[j].place, setup.plan)
    {
      hide Accounts, KeepsSecured, Sound;
      moments, endings := [Now()], [];
      KeepsSecuredSelf(at, setup.plan);
      for i := 0 to |events|
        invariant Valid() && |endings| == i && |moments| == i + 1
        invariant moments[0] == old(Now()) && moments[i] == Now()
        invariant forall j | 0 <= j <= i :: SoundAt(moments[j], setup.plan)
        invariant forall j | 0 <= j < i :: Accounts(setup, events[j], moments[j], endings[j], moments[j + 1])
        invariant forall j, k | 0 <= j <= k <= i :: KeepsSecured(moments[j].place, moments[k].place, setup.plan)
      {
        label Before:
        var ending := Happen(events[i]);
        forall j | 0 <= j <= i ensures KeepsSecured(moments[j].place, at, setup.plan) {
          KeepsSecuredOn(moments[j].place, old@Before(at), at, setup.plan);
        }
        KeepsSecuredSelf(at, setup.plan);
        moments, endings := moments + [Now()], endings + [ending];
      }
    }
  }
}
