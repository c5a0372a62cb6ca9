/** The files of an export, its manifest and its commit marker, and when they validate. */
module ExportArtifact {
  import opened Options
  import opened UpgradeRecords

  datatype Path =
    | PlanPath | UpgradePath | HistoryPath(name: FileName) | Payload(file: string) | ManifestPath | RunPath

  /** Size and SHA-256 of a file: distinct contents have distinct identities. */
  datatype FileIdentity = Identity(content: Content)

  datatype ManifestBody = ManifestBody(plan: string, files: map<Path, FileIdentity>)
  datatype ManifestDigest = ManifestSha(body: ManifestBody)
  datatype ArtifactManifest = ArtifactManifest(body: ManifestBody, digest: ManifestDigest)

  /** The run marker's own fields; layer list and layer index are fixed by the plan. */
  datatype RunBody = RunBody(plan: string, manifest: ManifestDigest, upgrade: Option<DigestField>)
  datatype RunDigest = RunSha(body: RunBody)
  datatype RunRecord = RunRecord(body: RunBody, digest: RunDigest)

  datatype Content =
    | PlanContent(plan: string)
    | UpgradeContent(record: Record)
    | PayloadContent(bytes: string)
    | ManifestContent(manifest: ArtifactManifest)
    | RunContent(run: RunRecord)
    | Broken

  type Artifact = map<Path, Content>

  function AsFile(c: Content): File {
    if c.UpgradeContent? then Regular(c.record) else Unreadable
  }

  function HistoryFiles(files: Artifact): map<FileName, File> {
    map p | p in files && p.HistoryPath? :: p.name := AsFile(files[p])
  }

  /** The upgrade chain that an artifact carries. */
  function UpgradeDisk(files: Artifact): Disk {
    Disk(if UpgradePath in files then Present(AsFile(files[UpgradePath])) else Missing, Directory(HistoryFiles(files)))
  }

  function UpgradeDigest(files: Artifact): Option<DigestField> {
    if UpgradePath in files && files[UpgradePath].UpgradeContent? then Some(files[UpgradePath].record.upgradeSha)
    else None
  }

  /** Everything that the manifest lists: all files but the manifest and the run marker. */
  function Listed(files: Artifact): Artifact {
    files - {ManifestPath, RunPath}
  }

  function ManifestFor(files: Artifact, plan: string): ArtifactManifest {
    var body := ManifestBody(plan, map p | p in Listed(files) :: Identity(files[p]));
    ArtifactManifest(body, ManifestSha(body))
  }

  function RunFor(files: Artifact, manifest: ArtifactManifest, plan: string): RunRecord {
    var body := RunBody(plan, manifest.digest, UpgradeDigest(files));
    RunRecord(body, RunSha(body))
  }

  /** Both records are self-consistent, belong to the plan and to each other. */
  predicate RecordsAgree(files: Artifact, plan: string) {
    && PlanPath in files && files[PlanPath] == PlanContent(plan)
    && ManifestPath in files && files[ManifestPath].ManifestContent?
    && RunPath in files && files[RunPath].RunContent?
    && var m, r := files[ManifestPath].manifest, files[RunPath].run;
       && m.digest == ManifestSha(m.body) && r.digest == RunSha(r.body)
       && m.body.plan == plan && r.body.plan == plan
       && r.body.manifest == m.digest && r.body.upgrade == UpgradeDigest(files)
  }

  /** The file set is the manifest's and the two markers. */
  predicate FileSetAgrees(files: Artifact)
    requires ManifestPath in files && files[ManifestPath].ManifestContent?
  {
    files.Keys == files[ManifestPath].manifest.body.files.Keys + {ManifestPath, RunPath}
  }

  predicate HashesAgree(files: Artifact)
    requires ManifestPath in files && files[ManifestPath].ManifestContent?
  {
    var listed := files[ManifestPath].manifest.body.files;
    forall p | p in listed :: p in files && Identity(files[p]) == listed[p]
  }

  /** `validate_published_artifact` with file hashes. */
  ghost predicate Validates(files: Artifact, plan: string) {
    && RecordsAgree(files, plan)
    && (UpgradePath in files ==> Accepted(UpgradeDisk(files), plan))
    && FileSetAgrees(files)
    && HashesAgree(files)
  }

  /** What is staged right before the manifest is written. */
  ghost predicate Staged(files: Artifact, plan: string) {
    && PlanPath in files && files[PlanPath] == PlanContent(plan)
    && ManifestPath !in files && RunPath !in files
    && (UpgradePath in files ==> Accepted(UpgradeDisk(files), plan))
  }

  function WithManifest(files: Artifact, plan: string): Artifact {
    files[ManifestPath := ManifestContent(ManifestFor(files, plan))]
  }

  function WithMarkers(files: Artifact, plan: string): Artifact {
    WithManifest(files, plan)[RunPath := RunContent(RunFor(files, ManifestFor(files, plan), plan))]
  }

  lemma MarkersKeepUpgrade(files: Artifact, plan: string)
    ensures UpgradeDisk(WithMarkers(files, plan)) == UpgradeDisk(files)
    ensures UpgradeDigest(WithMarkers(files, plan)) == UpgradeDigest(files)
  {
    assert HistoryFiles(WithMarkers(files, plan)) == HistoryFiles(files);
  }

  /** Writing the manifest and then the marker completes whatever was staged. */
  lemma MarkersComplete(files: Artifact, plan: string)
    requires Staged(files, plan)
    ensures Validates(WithMarkers(files, plan), plan)
  {
    MarkersKeepUpgrade(files, plan);
    var after := WithMarkers(files, plan);
    assert Listed(files) == files;
    assert after.Keys == files.Keys + {ManifestPath, RunPath};
  }

  lemma ValidIsRebuilt(files: Artifact, plan: string)
    requires Validates(files, plan)
    ensures Staged(files - {ManifestPath, RunPath}, plan)
    ensures files == WithMarkers(files - {ManifestPath, RunPath}, plan)
  {
    hide Accepted;
    var rest := files - {ManifestPath, RunPath};
    assert HistoryFiles(rest) == HistoryFiles(files);
    assert Listed(rest) == rest;
    assert files[ManifestPath].manifest.body.files == ManifestFor(rest, plan).body.files;
    assert files.Keys == WithMarkers(rest, plan).Keys;
  }

  /** An artifact validates exactly if it is what writing the two markers over its other files makes of them. */
  lemma ValidIsMarked(files: Artifact, plan: string)
    ensures Validates(files, plan) <==>
              && Staged(files - {ManifestPath, RunPath}, plan)
              && files == WithMarkers(files - {ManifestPath, RunPath}, plan)
  {
    hide Validates, Staged, WithMarkers;
    if Validates(files, plan) {
      ValidIsRebuilt(files, plan);
    }
    if Staged(files - {ManifestPath, RunPath}, plan) && files == WithMarkers(files - {ManifestPath, RunPath}, plan) {
      MarkersComplete(files - {ManifestPath, RunPath}, plan);
    }
  }

  /** What the two markers of a valid artifact say: the manifest lists every other file by its contents, and the run
      marker names the plan, the manifest and the active upgrade by their digests. */
  lemma MarkersSay(files: Artifact, plan: string)
    requires Validates(files, plan)
    ensures files[ManifestPath].ManifestContent? && files[RunPath].RunContent?
    ensures var body := files[ManifestPath].manifest.body;
            && body.plan == plan && body.files.Keys == files.Keys - {ManifestPath, RunPath}
            && (forall p | p in body.files :: p in files && body.files[p] == Identity(files[p]))
            && files[RunPath].run.body.plan == plan && files[RunPath].run.body.manifest == ManifestSha(body)
    ensures UpgradePath !in files ==> files[RunPath].run.body.upgrade.None?
    ensures UpgradePath in files ==>
              && files[UpgradePath].UpgradeContent?
              && files[RunPath].run.body.upgrade == Some(Claimed(Sha(files[UpgradePath].record.body)))
  {
    assert PlanPath in files && ManifestPath in files && RunPath in files;
    assert files[ManifestPath].manifest.body.files.Keys == files.Keys - {ManifestPath, RunPath} by {
      assert ManifestPath !in files[ManifestPath].manifest.body.files;
    }
  }

  /** The run marker binds the whole artifact: two artifacts that validate with the same marker are equal. */
  lemma MarkerBindsArtifact(a: Artifact, b: Artifact, plan: string)
    requires Validates(a, plan) && Validates(b, plan)
    requires a[RunPath] == b[RunPath]
    ensures a == b
  {
    var m, n := a[ManifestPath].manifest, b[ManifestPath].manifest;
    assert m == n;
    forall p | p in a ensures a[p] == b[p] {
      if p != ManifestPath && p != RunPath {
        assert p in m.body.files;
        assert Identity(a[p]) == Identity(b[p]);
      }
    }
  }

  /** A file whose data and directory entry may not have reached the disk. */
  datatype StoredFile = StoredFile(content: Content, dataSynced: bool, entrySynced: bool)

  type Tree = map<Path, StoredFile>

  function Contents(t: Tree): Artifact {
    map p | p in t :: t[p].content
  }

  predicate Durable(f: StoredFile) {
    f.dataSynced && f.entrySynced
  }

  predicate AllDurable(t: Tree) {
    forall p | p in t :: Durable(t[p])
  }

  /** What a power loss may leave of a directory tree. */
  predicate Survives(before: Tree, after: Tree) {
    && AllDurable(after)
    && (forall p | p in after :: p in before)
    && (forall p | p in before && Durable(before[p]) :: p in after && after[p].content == before[p].content)
  }

  lemma DurableSurvives(before: Tree, after: Tree)
    requires AllDurable(before) && Survives(before, after)
    ensures Contents(after) == Contents(before)
  {}

  /** After a power loss, a stage that still shows its marker validates exactly if it lost nothing. */
  lemma MarkedSurvivorIff(before: Tree, after: Tree, plan: string)
    requires Validates(Contents(before), plan) && Survives(before, after)
    requires RunPath in after && Durable(before[RunPath])
    ensures Validates(Contents(after), plan) <==> Contents(after) == Contents(before)
  {
    if Validates(Contents(after), plan) {
      MarkerBindsArtifact(Contents(before), Contents(after), plan);
    }
  }

  /** A power loss that drops one file and nothing else. */
  function Dropping(before: Tree, lost: Path): Tree {
    map p | p in before && p != lost :: StoredFile(before[p].content, true, true)
  }

  /** One file that was not synced is enough for a marked stage that no longer validates. */
  lemma DamagedSurvivor(before: Tree, plan: string, lost: Path)
    requires Validates(Contents(before), plan) && Durable(before[RunPath])
    requires lost in before && !Durable(before[lost])
    ensures var after := Dropping(before, lost);
            Survives(before, after) && RunPath in after && !Validates(Contents(after), plan)
  {
    var after := Dropping(before, lost);
    assert Survives(before, after);
    assert lost in Contents(before) && lost !in Contents(after);
    MarkedSurvivorIff(before, after, plan);
  }

  /** A complete stage with a durable marker is sure to validate after a power loss exactly if everything in it
      was synced: the marker alone promises nothing about the rest. */
  lemma MarkerSafeIff(before: Tree, plan: string)
    requires Validates(Contents(before), plan) && Durable(before[RunPath])
    ensures (forall after | Survives(before, after) :: Validates(Contents(after), plan)) <==> AllDurable(before)
  {
    if AllDurable(before) {
      forall after | Survives(before, after) ensures Validates(Contents(after), plan) {
        DurableSurvives(before, after);
      }
    } else {
      var p :| p in before && !Durable(before[p]);
      DamagedSurvivor(before, plan, p);
    }
  }
}
