/** The layer-boundary root on a file system that may lose whatever was not synced. */
module BoundaryDisk {
  import opened BoundaryManifest

  /** What makes a committed directory complete. */
  type Completeness = (Name, Files) -> bool

  /** A file, whether its data was synced, and whether its directory entry was. */
  datatype File = File(content: Content, dataSynced: bool, entrySynced: bool)

  /** A directory under the root. `subdirectoriesSynced` says whether the entries of its two subdirectories were
      synced; a directory whose files are being removed is `doomed`: nothing is known about what remains. */
  datatype Directory = Directory(files: map<Path, File>, subdirectoriesSynced: bool, doomed: bool)

  function Contents(d: Directory): Files {
    map p | p in d.files :: d.files[p].content
  }

  predicate FileDurable(d: Directory, p: Path)
    requires p in d.files
  {
    d.files[p].dataSynced && d.files[p].entrySynced && (p != ManifestPath ==> d.subdirectoriesSynced)
  }

  predicate Sealed(d: Directory) {
    !d.doomed && forall p | p in d.files :: FileDurable(d, p)
  }

  /** What a power loss may leave of a directory. */
  predicate Survives(before: Directory, after: Directory) {
    && Sealed(after)
    && (!before.doomed ==>
          && (forall p | p in after.files :: p in before.files)
          && (forall p | p in before.files && FileDurable(before, p) ::
                p in after.files && after.files[p].content == before.files[p].content))
  }

  /** One file that a power loss takes, and nothing else. */
  function Losing(d: Directory, lost: Path): Directory {
    Directory(map p | p in d.files && p != lost :: File(d.files[p].content, true, true), true, false)
  }

  /** A file is there with its contents after every power loss if and only if its data, its entry and, for a shard, the
      entry of its folder were synced. */
  lemma FileSurvivesIff(d: Directory, p: Path)
    requires !d.doomed && p in d.files
    ensures (forall after | Survives(d, after) :: p in after.files && after.files[p].content == d.files[p].content)
            <==> d.files[p].dataSynced && d.files[p].entrySynced && (p.ManifestPath? || d.subdirectoriesSynced)
  {
    if !FileDurable(d, p) {
      assert Survives(d, Losing(d, p));
    }
  }

  lemma SealedSurvives(before: Directory, after: Directory)
    requires Sealed(before) && Survives(before, after)
    ensures Contents(after) == Contents(before)
  {}

  type Root = map<Name, Directory>

  /** Changes to the root's entries. A move carries the directory that it renames. */
  datatype RootOp = Make(name: Name) | Move(source: Name, destination: Name, directory: Directory) | Remove(name: Name)

  const UNKNOWN: Directory := Directory(map[], false, true)

  function Apply(root: Root, op: RootOp): Root {
    match op
    case Make(name) => root[name := UNKNOWN]
    case Move(source, destination, directory) => (root - {source})[destination := directory]
    case Remove(name) => root - {name}
  }

  /** The root's entries after the kept ones of the unsynced changes. */
  function ApplyKept(root: Root, ops: seq<RootOp>, keep: seq<bool>): Root
    requires |keep| == |ops|
    decreases |ops|
  {
    if ops == [] then root
    else ApplyKept(if keep[0] then Apply(root, ops[0]) else root, ops[1..], keep[1..])
  }

  /** The newest change is kept or lost by itself, after any outcome of the earlier ones. */
  lemma {:induction false} NewestChangeKept(root: Root, ops: seq<RootOp>, op: RootOp, keep: seq<bool>, last: bool)
    requires |keep| == |ops|
    ensures ApplyKept(root, ops + [op], keep + [last])
            == if last then Apply(ApplyKept(root, ops, keep), op) else ApplyKept(root, ops, keep)
    ensures ApplyKept(root, [], []) == root
    decreases |ops|
  {
    var longer, kept := ops + [op], keep + [last];
    if ops == [] {
      assert longer[1..] == [] && kept[1..] == [];
    } else {
      assert longer[1..] == ops[1..] + [op] && kept[1..] == keep[1..] + [last];
      NewestChangeKept(if keep[0] then Apply(root, ops[0]) else root, ops[1..], op, keep[1..], last);
    }
  }

  /** The entry of the root itself in the run state, synced with every entry above it. Nothing that a commit syncs
      makes it durable. */
  datatype Anchor = Absent | Unsynced | Synced

  /** `live` is what processes see, `durable` what the last sync of the root made safe, `pending` the changes
      to the root's entries since then. */
  datatype Disk = Disk(anchor: Anchor, live: Root, durable: Root, pending: seq<RootOp>)

  const EMPTY_DISK: Disk := Disk(Absent, map[], map[], [])

  /** Without a root there is nothing in it. */
  predicate Rooted(disk: Disk) {
    disk.anchor.Absent? ==> disk == EMPTY_DISK
  }

  /** A power loss may take a root whose own entry was never synced, with everything in it. */
  predicate LosesRoot(before: Disk, after: Disk) {
    !before.anchor.Synced? && after == EMPTY_DISK
  }

  /** Otherwise any of the pending changes are gone, and every directory is what survives of it. */
  predicate KeepsRoot(before: Disk, after: Disk, keep: seq<bool>) {
    && !before.anchor.Absent? && after.anchor.Synced?
    && after.pending == [] && after.durable == after.live
    && |keep| == |before.pending|
    && var root := ApplyKept(before.durable, before.pending, keep);
       && after.live.Keys == root.Keys
       && forall n | n in root && n.Committed? :: Survives(root[n], after.live[n])
  }

  predicate LossOutcome(before: Disk, after: Disk, keep: seq<bool>) {
    LosesRoot(before, after) || KeepsRoot(before, after, keep)
  }

  /** A complete directory that a power loss cannot change. */
  ghost predicate Good(n: Name, d: Directory, whole: Completeness) {
    Sealed(d) && whole(n, Contents(d))
  }

  /** The layer of the newest committed directory; -1 when there is none. */
  type Top = t: int | t >= -1 witness -1

  /** `top` is the newest committed layer, held by one complete directory. */
  ghost predicate Topped(root: Root, top: Top, whole: Completeness) {
    && (forall n | n in root && n.Committed? :: n.layer <= top)
    && (forall n, m | n in root && m in root && n.Committed? && m.Committed? && n.layer == top && m.layer == top ::
          n == m)
    && (forall n | n in root && n.Committed? && n.layer == top :: Good(n, root[n], whole))
    && (top >= 0 ==> exists n :: n in root && n.Committed? && n.layer == top)
  }

  /** A change that no loss can turn against the newest complete directory: `safe` is the newest synced layer,
      `top` the newest layer before the change. */
  ghost predicate Harmless(op: RootOp, safe: Top, top: Top, whole: Completeness) {
    match op
    case Make(name) => name.Temporary?
    case Move(source, destination, directory) =>
      && source.Temporary? && destination.Committed? && destination.layer > top
      && Good(destination, directory, whole)
    case Remove(name) => name.Temporary? || name.layer < safe
  }

  function TopAfter(op: RootOp, top: Top): Top {
    if op.Move? && op.destination.Committed? then op.destination.layer else top
  }

  ghost predicate AllHarmless(ops: seq<RootOp>, safe: Top, top: Top, whole: Completeness)
    decreases |ops|
  {
    ops == []
    || (&& Harmless(ops[0], safe, top, whole)
        && AllHarmless(ops[1..], safe, TopAfter(ops[0], top), whole))
  }

  function TopAfterAll(ops: seq<RootOp>, top: Top): Top
    decreases |ops|
  {
    if ops == [] then top else TopAfterAll(ops[1..], TopAfter(ops[0], top))
  }

  /** What every step keeps: the newest synced layer is complete, the newest visible one is complete, and no
      pending change can hurt either. */
  ghost predicate Safe(disk: Disk, safe: Top, whole: Completeness) {
    && Topped(disk.durable, safe, whole)
    && AllHarmless(disk.pending, safe, safe, whole)
    && Topped(disk.live, TopAfterAll(disk.pending, safe), whole)
  }

  /** The newest visible layer. */
  ghost function LiveTop(disk: Disk, safe: Top): Top {
    TopAfterAll(disk.pending, safe)
  }

  /** The newest layer that no power loss can take back. */
  ghost function Assured(disk: Disk, safe: Top): Top {
    if disk.anchor.Synced? then safe else -1
  }

  /** One kept change keeps the newest layer complete; `bound` is the newest layer if all earlier changes were kept. */
  lemma ApplyTopped(root: Root, op: RootOp, safe: Top, bound: Top, top: Top, whole: Completeness)
    requires Topped(root, top, whole) && safe <= top <= bound
    requires Harmless(op, safe, bound, whole)
    ensures Topped(Apply(root, op), if op.Move? then TopAfter(op, bound) else top, whole)
    ensures TopAfter(op, bound) >= bound
  {
    var after := Apply(root, op);
    if op.Move? {
      assert op.destination in after;
    } else if top >= 0 {
      var n :| n in root && n.Committed? && n.layer == top;
      assert n in after;
    }
  }

  /** Whatever a power loss keeps of the root's changes, the newest committed directory is complete, no older than the
      synced one and no newer than the newest visible one. */
  lemma {:induction false} KeptTopped(root: Root, ops: seq<RootOp>, keep: seq<bool>, safe: Top, bound: Top, top: Top,
                                      whole: Completeness) returns (newest: Top)
    requires |keep| == |ops|
    requires Topped(root, top, whole) && safe <= top <= bound
    requires AllHarmless(ops, safe, bound, whole)
    ensures top <= newest <= TopAfterAll(ops, bound) && Topped(ApplyKept(root, ops, keep), newest, whole)
    decreases |ops|
  {
    if ops == [] {
      newest := top;
    } else {
      ApplyTopped(root, ops[0], safe, bound, top, whole);
      var kept := if keep[0] then Apply(root, ops[0]) else root;
      var now := if keep[0] && ops[0].Move? then TopAfter(ops[0], bound) else top;
      newest := KeptTopped(kept, ops[1..], keep[1..], safe, TopAfter(ops[0], bound), now, whole);
    }
  }

  lemma SurvivorsTopped(root: Root, after: Root, top: Top, whole: Completeness)
    requires Topped(root, top, whole)
    requires after.Keys == root.Keys && forall n | n in root && n.Committed? :: Survives(root[n], after[n])
    ensures Topped(after, top, whole)
  {
    forall n | n in after && n.Committed? && n.layer == top ensures Good(n, after[n], whole) {
      assert Good(n, root[n], whole);
      SealedSurvives(root[n], after[n]);
    }
    if top >= 0 {
      var n :| n in root && n.Committed? && n.layer == top;
      assert n in after;
    }
  }

  lemma {:induction false} TopsRise(ops: seq<RootOp>, safe: Top, top: Top, whole: Completeness)
    requires AllHarmless(ops, safe, top, whole)
    ensures TopAfterAll(ops, top) >= top
    decreases |ops|
  {
    if ops != [] {
      TopsRise(ops[1..], safe, TopAfter(ops[0], top), whole);
    }
  }

  /** Whatever a power loss takes, what is found afterwards is safe again. It is no newer than what was visible before
      and, unless the root itself is lost, no older than the newest synced layer. */
  lemma PowerLossIsSafe(before: Disk, after: Disk, keep: seq<bool>, safe: Top, whole: Completeness)
    returns (newest: Top)
    requires Safe(before, safe, whole) && LossOutcome(before, after, keep)
    ensures Assured(before, safe) <= newest <= LiveTop(before, safe)
    ensures KeepsRoot(before, after, keep) ==> newest >= safe
    ensures Safe(after, newest, whole) && Rooted(after) && Assured(after, newest) == LiveTop(after, newest) == newest
  {
    TopsRise(before.pending, safe, safe, whole);
    if KeepsRoot(before, after, keep) {
      newest := KeptTopped(before.durable, before.pending, keep, safe, safe, safe, whole);
      SurvivorsTopped(ApplyKept(before.durable, before.pending, keep), after.live, newest, whole);
    } else {
      newest := -1;
    }
  }

  /** Nothing in the root or in its directories waits for a sync. */
  predicate Firm(disk: Disk) {
    && disk.pending == [] && disk.durable == disk.live
    && forall n | n in disk.live :: Sealed(disk.live[n])
  }

  /** Then a power loss that leaves the root leaves every committed directory as it was. */
  lemma FirmSurvives(before: Disk, after: Disk, keep: seq<bool>)
    requires Firm(before) && KeepsRoot(before, after, keep)
    ensures after.live.Keys == before.live.Keys
    ensures forall n | n in before.live && n.Committed? :: Contents(after.live[n]) == Contents(before.live[n])
  {
    forall n | n in before.live && n.Committed? ensures Contents(after.live[n]) == Contents(before.live[n]) {
      SealedSurvives(before.live[n], after.live[n]);
    }
  }

  /** A committed directory of this layer or a newer one; nothing is asked for when there is no layer. */
  predicate Retains(root: Root, layer: Top) {
    layer == -1 || exists n :: n in root && n.Committed? && n.layer >= layer
  }

  /** The newest synced layer outlives every power loss if and only if the entry of the root was synced too. */
  lemma SyncedLayerSurvivesIff(disk: Disk, safe: Top, whole: Completeness)
    requires Safe(disk, safe, whole)
    ensures (forall after, keep | LossOutcome(disk, after, keep) :: Retains(after.live, safe))
            <==> (safe == -1 || disk.anchor.Synced?)
  {
    if safe >= 0 && !disk.anchor.Synced? {
      assert LossOutcome(disk, EMPTY_DISK, []) && !Retains(EMPTY_DISK.live, safe);
    }
    if disk.anchor.Synced? && safe >= 0 {
      forall after, keep | LossOutcome(disk, after, keep) ensures Retains(after.live, safe) {
        var newest := PowerLossIsSafe(disk, after, keep, safe, whole);
        var n :| n in after.live && n.Committed? && n.layer == newest;
      }
    }
  }

  lemma {:induction false} AppendHarmless(ops: seq<RootOp>, op: RootOp, safe: Top, top: Top, whole: Completeness)
    requires AllHarmless(ops, safe, top, whole)
    requires Harmless(op, safe, TopAfterAll(ops, top), whole)
    ensures AllHarmless(ops + [op], safe, top, whole)
    ensures TopAfterAll(ops + [op], top) == TopAfter(op, TopAfterAll(ops, top))
    ensures TopAfterAll(ops, top) >= top
    decreases |ops|
  {
    if ops != [] {
      AppendHarmless(ops[1..], op, safe, TopAfter(ops[0], top), whole);
      assert (ops + [op])[1..] == ops[1..] + [op];
    } else {
      assert ops + [op] == [op];
    }
  }

  /** A change to the root's entries. */
  function Change(disk: Disk, op: RootOp): Disk {
    disk.(live := Apply(disk.live, op), pending := disk.pending + [op])
  }

  /** Every harmless change keeps the disk safe. */
  lemma ChangeIsSafe(disk: Disk, op: RootOp, safe: Top, whole: Completeness)
    requires Safe(disk, safe, whole)
    requires Harmless(op, safe, LiveTop(disk, safe), whole)
    ensures Safe(Change(disk, op), safe, whole)
    ensures LiveTop(Change(disk, op), safe) == TopAfter(op, LiveTop(disk, safe))
    ensures LiveTop(disk, safe) >= safe
  {
    AppendHarmless(disk.pending, op, safe, safe, whole);
    ApplyTopped(disk.live, op, safe, LiveTop(disk, safe), LiveTop(disk, safe), whole);
  }

  /** Removing a temporary directory, or a committed one older than the newest synced layer. */
  lemma RemoveIsSafe(disk: Disk, name: Name, safe: Top, whole: Completeness)
    requires Safe(disk, safe, whole)
    requires name.Temporary? || name.layer < safe
    ensures Safe(Change(disk, Remove(name)), safe, whole)
    ensures LiveTop(Change(disk, Remove(name)), safe) == LiveTop(disk, safe)
    ensures Change(disk, Remove(name)).live == disk.live - {name}
  {
    ChangeIsSafe(disk, Remove(name), safe, whole);
  }

  /** `mkdtemp` under the root. */
  function MakeTemporary(disk: Disk, name: Name): Disk {
    disk.(live := disk.live[name := Directory(map[], false, false)], pending := disk.pending + [Make(name)])
  }

  /** Writing inside a directory that is not committed yet. */
  function Rewrite(disk: Disk, name: Name, directory: Directory): Disk
    requires name.Temporary? && name in disk.live
  {
    disk.(live := disk.live[name := directory])
  }

  /** Replacing a directory other than the newest keeps the newest. */
  lemma ReplaceKeepsTop(root: Root, name: Name, directory: Directory, top: Top, whole: Completeness)
    requires Topped(root, top, whole) && name in root
    requires name.Temporary? || name.layer < top
    ensures Topped(root[name := directory], top, whole)
  {
    var after := root[name := directory];
    if top >= 0 {
      var n :| n in root && n.Committed? && n.layer == top;
      assert n in after;
    }
  }

  lemma RewriteIsSafe(disk: Disk, name: Name, directory: Directory, safe: Top, whole: Completeness)
    requires Safe(disk, safe, whole)
    requires name.Temporary? && name in disk.live
    ensures Safe(Rewrite(disk, name, directory), safe, whole)
    ensures LiveTop(Rewrite(disk, name, directory), safe) == LiveTop(disk, safe)
  {
    ReplaceKeepsTop(disk.live, name, directory, LiveTop(disk, safe), whole);
  }

  lemma MakeIsSafe(disk: Disk, name: Name, safe: Top, whole: Completeness)
    requires Safe(disk, safe, whole)
    requires name.Temporary?
    ensures Safe(MakeTemporary(disk, name), safe, whole)
    ensures LiveTop(MakeTemporary(disk, name), safe) == LiveTop(disk, safe)
  {
    hide Topped, AllHarmless;
    var made := Change(disk, Make(name));
    ChangeIsSafe(disk, Make(name), safe, whole);
    RewriteIsSafe(made, name, Directory(map[], false, false), safe, whole);
    assert Rewrite(made, name, Directory(map[], false, false)) == MakeTemporary(disk, name);
  }

  /** `os.replace` of a finished temporary directory by its committed name. */
  function Promote(disk: Disk, source: Name, destination: Name): Disk
    requires source in disk.live
  {
    Change(disk, Move(source, destination, disk.live[source]))
  }

  lemma PromoteIsSafe(disk: Disk, source: Name, destination: Name, safe: Top, whole: Completeness)
    requires Safe(disk, safe, whole) && source in disk.live
    requires source.Temporary? && destination.Committed? && destination.layer > LiveTop(disk, safe)
    requires Good(destination, disk.live[source], whole)
    ensures Safe(Promote(disk, source, destination), safe, whole)
    ensures LiveTop(Promote(disk, source, destination), safe) == destination.layer
    ensures Promote(disk, source, destination).live == (disk.live - {source})[destination := disk.live[source]]
  {
    ChangeIsSafe(disk, Move(source, destination, disk.live[source]), safe, whole);
  }

  /** `mkdir` of the root, if there is none yet. */
  function MakeRoot(disk: Disk): Disk {
    if disk.anchor.Absent? then disk.(anchor := Unsynced) else disk
  }

  /** Committing may create the root, but does nothing for its entry. */
  predicate AnchorStays(before: Anchor, after: Anchor) {
    after == before || (before.Absent? && after.Unsynced?)
  }

  /** `fsync` of the run state: a root that is there stays, if the run state does. */
  function SyncRunState(disk: Disk, grounded: bool): Disk {
    if disk.anchor.Unsynced? && grounded then disk.(anchor := Synced) else disk
  }

  /** `fsync` of the root: the newest visible layer becomes the newest synced one. The root's own entry is as before. */
  function SyncRoot(disk: Disk): Disk {
    disk.(durable := disk.live, pending := [])
  }

  lemma SyncIsSafe(disk: Disk, safe: Top, whole: Completeness)
    requires Safe(disk, safe, whole)
    ensures LiveTop(disk, safe) >= safe
    ensures Safe(SyncRoot(disk), LiveTop(disk, safe), whole)
    ensures LiveTop(SyncRoot(disk), LiveTop(disk, safe)) == LiveTop(disk, safe)
    ensures Assured(SyncRoot(disk), LiveTop(disk, safe)) == if disk.anchor.Synced? then LiveTop(disk, safe) else -1
  {
    TopsRise(disk.pending, safe, safe, whole);
  }

  /** Unlinking a file: from then on nothing is known of the directory, on disk or in memory. Only a temporary
      directory or, once the root is synced, an older committed one is ever treated so. */
  function Unlink(disk: Disk, name: Name, p: Path): Disk
    requires name in disk.live
  {
    var d := disk.live[name];
    var remaining := Directory(d.files - {p}, d.subdirectoriesSynced, true);
    disk.(live := disk.live[name := remaining],
          durable := if name in disk.durable then disk.durable[name := remaining] else disk.durable)
  }

  lemma UnlinkIsSafe(disk: Disk, name: Name, p: Path, safe: Top, whole: Completeness)
    requires Safe(disk, safe, whole) && name in disk.live
    requires name.Temporary? || name.layer < safe
    ensures Safe(Unlink(disk, name, p), safe, whole)
    ensures LiveTop(Unlink(disk, name, p), safe) == LiveTop(disk, safe)
  {
    TopsRise(disk.pending, safe, safe, whole);
    var remaining := Unlink(disk, name, p).live[name];
    ReplaceKeepsTop(disk.live, name, remaining, LiveTop(disk, safe), whole);
    if name in disk.durable {
      ReplaceKeepsTop(disk.durable, name, remaining, safe, whole);
    }
  }

  /** Completeness that only ever accepts more keeps every safe disk safe. */
  lemma WidenTopped(root: Root, top: Top, whole: Completeness, wider: Completeness)
    requires Topped(root, top, whole) && forall n, f :: whole(n, f) ==> wider(n, f)
    ensures Topped(root, top, wider)
  {
    forall n | n in root && n.Committed? && n.layer == top ensures Good(n, root[n], wider) {
      assert Good(n, root[n], whole);
    }
  }

  lemma {:induction false} WidenHarmless(ops: seq<RootOp>, safe: Top, top: Top, whole: Completeness,
                                         wider: Completeness)
    requires AllHarmless(ops, safe, top, whole) && forall n, f :: whole(n, f) ==> wider(n, f)
    ensures AllHarmless(ops, safe, top, wider)
    decreases |ops|
  {
    if ops != [] {
      assert Harmless(ops[0], safe, top, wider);
      WidenHarmless(ops[1..], safe, TopAfter(ops[0], top), whole, wider);
    }
  }

  lemma WidenSafe(disk: Disk, safe: Top, whole: Completeness, wider: Completeness)
    requires Safe(disk, safe, whole) && forall n, f :: whole(n, f) ==> wider(n, f)
    ensures Safe(disk, safe, wider)
  {
    WidenTopped(disk.durable, safe, whole, wider);
    WidenHarmless(disk.pending, safe, safe, whole, wider);
    WidenTopped(disk.live, LiveTop(disk, safe), whole, wider);
  }
}
