/** Validating the active execution upgrade and its whole ancestry. */
module ExecutionUpgrade {
  import opened UpgradeRecords

  datatype Read = Accept(active: Record) | Reject

  datatype ReadChain = Chain(records: seq<Record>) | Broken

  function ActiveBody(disk: Disk): Body
    requires disk.active.Present? && disk.active.file.Regular?
  {
    disk.active.file.record.body
  }

  lemma NotOwnArchive(body: Body)
    ensures Named(Sha(body)) !in Archive(body)
  {
    ArchiveHolds(body);
    AncestorsDistinct(body);
  }

  lemma ActiveNotArchived(disk: Disk, plan: string)
    requires Accepted(disk, plan)
    ensures Named(Sha(ActiveBody(disk))) !in Files(disk.history)
  {
    NotOwnArchive(ActiveBody(disk));
  }

  /** The directory loop of `read_execution_upgrade`. */
  method ReadHistory(history: History, plan: string) returns (ok: bool, records: map<Digest, Record>)
    ensures ok <==>
            && !history.NotADirectory?
            && forall name | name in Files(history) ::
                 && name.Named? && Files(history)[name].Regular?
                 && ValidRecord(Files(history)[name].record, plan)
                 && name.digest == Sha(Files(history)[name].record.body)
    ensures ok ==> forall d :: d in records <==> Named(d) in Files(history)
    ensures ok ==> forall d | d in records ::
              Named(d) in Files(history) && Files(history)[Named(d)] == Regular(records[d])
  {
    records := map[];
    if history.NotADirectory? {
      return false, records;
    }
    var files := Files(history);
    var pending := files.Keys;
    while pending != {}
      invariant pending <= files.Keys
      invariant forall name | name in files.Keys - pending ::
                  && name.Named? && files[name].Regular? && ValidRecord(files[name].record, plan)
                  && name.digest == Sha(files[name].record.body)
      invariant forall d :: d in records <==> Named(d) in files.Keys - pending
      invariant forall d | d in records :: files[Named(d)] == Regular(records[d])
      decreases |pending|
    {
      var name :| name in pending;
      if name.Unsafe? || files[name].Unreadable? || !ValidRecord(files[name].record, plan)
         || files[name].record.upgradeSha != Claimed(name.digest) {
        return false, records;
      }
      records := records[name.digest := files[name].record];
      pending := pending - {name};
    }
    ok := true;
  }

  function AncestorDigests(body: Body): set<Digest>
    decreases body
  {
    match PreviousLink(body)
    case Linked(Sha(b)) => {Sha(b)} + AncestorDigests(b)
    case _ => {}
  }

  lemma {:induction false} ArchiveDigests(body: Body)
    ensures forall d :: d in AncestorDigests(body) <==> Named(d) in Archive(body)
    decreases body
  {
    match PreviousLink(body)
    case Linked(Sha(b)) => ArchiveDigests(b);
    case _ =>
  }

  /** Following the links through `records` reaches a record without one. */
  ghost predicate Complete(body: Body, records: map<Digest, Record>)
    decreases body
  {
    match PreviousLink(body)
    case NoLink => true
    case Linked(Sha(b)) => Sha(b) in records && Complete(b, records)
    case _ => false
  }

  lemma NextAncestor(body: Body)
    requires PreviousLink(body).Linked? && PreviousLink(body).digest.Sha?
    ensures AncestorDigests(body) == {PreviousLink(body).digest} + AncestorDigests(PreviousLink(body).digest.body)
    ensures |Ancestors(PreviousLink(body).digest.body)| < |Ancestors(body)|
  {}

  /** The cursor loop: no record is missing and none is left over. It never meets a record twice. */
  method WalkLinks(start: Body, history: map<Digest, Record>) returns (linked: bool)
    requires forall d | d in history :: d == Sha(history[d].body)
    ensures linked <==> Complete(start, history) && history.Keys == AncestorDigests(start)
  {
    var cursor := PreviousLink(start);
    var visited: set<Digest> := {};
    ghost var at := start;
    while cursor.Linked?
      invariant cursor == PreviousLink(at)
      invariant forall d | d in visited :: d.Sha? && |Ancestors(d.body)| >= |Ancestors(at)|
      invariant Complete(start, history) <==> Complete(at, history)
      invariant AncestorDigests(start) == visited + AncestorDigests(at)
      decreases at
    {
      if cursor.digest.Sha? {
        NextAncestor(at);
      }
      if cursor.digest in visited || cursor.digest !in history {
        return false;
      }
      visited := visited + {cursor.digest};
      var record := history[cursor.digest];
      at := record.body;
      cursor := PreviousLink(record.body);
    }
    linked := cursor.NoLink? && history.Keys == visited;
  }

  lemma AcceptedHistoryReads(disk: Disk, plan: string)
    requires Accepted(disk, plan)
    ensures forall name | name in Files(disk.history) ::
              && name.Named? && Files(disk.history)[name].Regular?
              && ValidRecord(Files(disk.history)[name].record, plan)
              && name.digest == Sha(Files(disk.history)[name].record.body)
  {
    var body := ActiveBody(disk);
    ArchiveHolds(body);
    forall name | name in Archive(body) ensures ValidRecord(Archive(body)[name].record, plan) {
      var k :| 0 <= k < |Ancestors(body)| && Ancestors(body)[k] == name.digest.body;
      AncestorsValid(body, plan, k);
    }
  }

  ghost predicate HoldsHistory(disk: Disk, plan: string, records: map<Digest, Record>) {
    && (forall d :: d in records <==> Named(d) in Files(disk.history))
    && (forall name | name in Files(disk.history) :: name.Named?)
    && (forall d | d in records ::
          && Files(disk.history)[Named(d)] == Regular(records[d])
          && ValidRecord(records[d], plan) && d == Sha(records[d].body))
  }

  lemma {:induction false} CompleteChainIsValid(body: Body, plan: string, disk: Disk, records: map<Digest, Record>)
    requires HoldsHistory(disk, plan, records)
    requires body.schemaOk && body.parentPlan == plan
    ensures Complete(body, records) <==> ValidChain(body, plan) && AncestorDigests(body) <= records.Keys
    decreases body
  {
    if PreviousLink(body).Linked? && PreviousLink(body).digest.Sha? {
      NextAncestor(body);
      var b := PreviousLink(body).digest.body;
      if Sha(b) in records {
        CompleteChainIsValid(b, plan, disk, records);
      }
    }
  }

  /** What the two loops decide together. */
  lemma AcceptedIff(disk: Disk, plan: string, records: map<Digest, Record>)
    requires disk.active.Present? && disk.active.file.Regular? && ValidRecord(disk.active.file.record, plan)
    requires !disk.history.NotADirectory? && HoldsHistory(disk, plan, records)
    ensures Accepted(disk, plan)
       <==> Complete(ActiveBody(disk), records) && records.Keys == AncestorDigests(ActiveBody(disk))
  {
    var body := ActiveBody(disk);
    CompleteChainIsValid(body, plan, disk, records);
    ArchiveHolds(body);
    ArchiveDigests(body);
    if Accepted(disk, plan) {
      forall d ensures d in records <==> d in AncestorDigests(body) {
        assert d in records <==> Named(d) in Archive(body);
      }
    }
    if records.Keys == AncestorDigests(body) {
      forall name ensures name in Files(disk.history) <==> name in Archive(body) {
        if name.Named? {
          assert name.digest in records <==> name in Files(disk.history);
        }
      }
      assert Files(disk.history) == Archive(body);
    }
  }

  /** A record file with its own digest. */
  predicate Stores(file: File, body: Body) {
    file == Regular(Record(body, Claimed(Sha(body))))
  }

  /** `next` is the target of exactly one of the two link fields, and the other one is absent. */
  predicate LinksTo(body: Body, next: Body) {
    || (body.previous == Link(Sha(next)) && body.previousFailed.Absent?)
    || (body.previous.Absent? && body.previousFailed == Link(Sha(next)))
  }

  /** Records of this plan, each linked to the next and the last one to none. */
  ghost predicate LinkedList(chain: seq<Body>, plan: string) {
    && chain != []
    && (forall i | 0 <= i < |chain| :: chain[i].schemaOk && chain[i].parentPlan == plan)
    && (forall i | 0 <= i < |chain| - 1 :: LinksTo(chain[i], chain[i + 1]))
    && chain[|chain| - 1].previous.Absent? && chain[|chain| - 1].previousFailed.Absent?
  }

  /** The disk is this list: its first record is active, the history holds each other one under its own digest, and
      nothing else. */
  ghost predicate IsList(disk: Disk, chain: seq<Body>, plan: string) {
    && LinkedList(chain, plan)
    && disk.active.Present? && Stores(disk.active.file, chain[0])
    && !disk.history.NotADirectory?
    && var files := if disk.history.Directory? then disk.history.files else map[];
       && (forall i | 0 < i < |chain| :: Named(Sha(chain[i])) in files && Stores(files[Named(Sha(chain[i]))], chain[i]))
       && (forall name | name in files :: name.Named? && name.digest.Sha? && name.digest.body in chain[1..])
  }

  lemma {:induction false} ListAncestry(chain: seq<Body>, plan: string)
    requires LinkedList(chain, plan)
    ensures Ancestors(chain[0]) == chain[1..] && ValidChain(chain[0], plan)
    decreases |chain|
  {
    if |chain| > 1 {
      assert LinksTo(chain[0], chain[1]);
      ListAncestry(chain[1..], plan);
    }
  }

  lemma {:induction false} AncestryIsList(body: Body, plan: string)
    requires ValidChain(body, plan)
    ensures LinkedList([body] + Ancestors(body), plan)
    decreases body
  {
    match PreviousLink(body)
    case Linked(Sha(b)) =>
      AncestryIsList(b, plan);
      assert LinksTo(body, b);
      var chain := [body] + Ancestors(body);
      assert chain == [body] + ([b] + Ancestors(b));
      assert chain[1..] == [b] + Ancestors(b);
      forall i | 0 <= i < |chain| - 1 ensures LinksTo(chain[i], chain[i + 1]) {
        assert i > 0 ==> LinksTo(chain[1..][i - 1], chain[1..][i]);
      }
    case _ =>
  }

  lemma AcceptedListed(disk: Disk, plan: string)
    requires Accepted(disk, plan)
    ensures IsList(disk, [ActiveBody(disk)] + Ancestors(ActiveBody(disk)), plan)
  {
    hide LinkedList, Ancestors, ValidChain, Archive;
    var body := ActiveBody(disk);
    var chain := [body] + Ancestors(body);
    AncestryIsList(body, plan);
    ArchiveHolds(body);
    assert chain[1..] == Ancestors(body);
    forall i | 0 < i < |chain|
      ensures Named(Sha(chain[i])) in Archive(body) && Stores(Archive(body)[Named(Sha(chain[i]))], chain[i])
    {
      assert chain[i] in Ancestors(body);
    }
  }

  lemma ListHistory(disk: Disk, chain: seq<Body>, plan: string)
    requires IsList(disk, chain, plan)
    ensures Files(disk.history) == Archive(chain[0])
  {
    hide Archive, ValidChain, Ancestors;
    ListAncestry(chain, plan);
    ArchiveHolds(chain[0]);
    var files := Files(disk.history);
    forall name | name in Archive(chain[0]) ensures name in files {
      var i :| 0 <= i < |chain[1..]| && chain[1..][i] == name.digest.body;
      assert chain[i + 1] == name.digest.body;
    }
    forall name | name in files ensures name in Archive(chain[0]) && files[name] == Archive(chain[0])[name] {
      var i :| 0 <= i < |chain[1..]| && chain[1..][i] == name.digest.body;
      assert Stores(files[Named(Sha(chain[i + 1]))], chain[i + 1]);
    }
  }

  /** Accepted disks are exactly the linked lists of the plan. */
  lemma AcceptedIsList(disk: Disk, plan: string)
    ensures Accepted(disk, plan) <==> exists chain :: IsList(disk, chain, plan)
  {
    if Accepted(disk, plan) {
      AcceptedListed(disk, plan);
    }
    if chain :| IsList(disk, chain, plan) {
      ListHistory(disk, chain, plan);
      ListAncestry(chain, plan);
    }
  }

  /** Validates the active record and its whole ancestry. It accepts exactly the linked lists. */
  method ReadUpgrade(disk: Disk, plan: string) returns (r: Read)
    ensures r.Accept? <==> Accepted(disk, plan)
    ensures r.Accept? <==> exists chain :: IsList(disk, chain, plan)
    ensures r.Accept? ==> disk.active == Present(Regular(r.active))
  {
    hide IsList;
    AcceptedIsList(disk, plan);
    if disk.active.Missing? || disk.active.file.Unreadable? || !ValidRecord(disk.active.file.record, plan) {
      return Reject;
    }
    var active := disk.active.file.record;
    var ok, history := ReadHistory(disk.history, plan);
    if !ok {
      if Accepted(disk, plan) {
        AcceptedHistoryReads(disk, plan);
      }
      return Reject;
    }
    AcceptedIff(disk, plan, history);
    var linked := WalkLinks(active.body, history);
    r := if linked then Accept(active) else Reject;
  }

  /** The archived records of a chain, nearest first. */
  function AncestorRecords(body: Body): seq<Record>
    decreases body
  {
    match PreviousLink(body)
    case Linked(Sha(b)) => [Bound(b)] + AncestorRecords(b)
    case _ => []
  }

  /** The whole chain, the active record first. */
  function ChainRecords(body: Body): seq<Record> {
    [Bound(body)] + AncestorRecords(body)
  }

  lemma {:induction false} AncestorRecordsMatch(body: Body)
    ensures |AncestorRecords(body)| == |Ancestors(body)|
    ensures forall i | 0 <= i < |Ancestors(body)| :: AncestorRecords(body)[i] == Bound(Ancestors(body)[i])
    decreases body
  {
    match PreviousLink(body)
    case Linked(Sha(b)) => AncestorRecordsMatch(b);
    case _ =>
  }

  lemma {:induction false} ChainLinks(body: Body, plan: string)
    requires ValidChain(body, plan)
    ensures forall i | 0 <= i < |ChainRecords(body)| - 1 ::
              PreviousLink(ChainRecords(body)[i].body) == Linked(Sha(ChainRecords(body)[i + 1].body))
    ensures PreviousLink(ChainRecords(body)[|ChainRecords(body)| - 1].body) == NoLink
    decreases body
  {
    match PreviousLink(body)
    case Linked(Sha(b)) =>
      ChainLinks(b, plan);
      assert ChainRecords(body) == [Bound(body)] + ChainRecords(b);
    case _ =>
  }

  lemma ChainDistinct(body: Body)
    ensures forall i, j | 0 <= i < j < |ChainRecords(body)| :: ChainRecords(body)[i] != ChainRecords(body)[j]
  {
    AncestorsDistinct(body);
    AncestorRecordsMatch(body);
  }

  /** A chain has one record more than the history has files. Its records are all different, each
      links to the next, and the last one has no link. */
  lemma ChainIsLinkedList(body: Body, plan: string)
    requires ValidChain(body, plan)
    ensures var chain := ChainRecords(body);
            && |chain| == |Archive(body)| + 1
            && (forall i, j | 0 <= i < j < |chain| :: chain[i] != chain[j])
            && (forall i | 0 <= i < |chain| - 1 :: PreviousLink(chain[i].body) == Linked(Sha(chain[i + 1].body)))
            && PreviousLink(chain[|chain| - 1].body) == NoLink
  {
    ArchiveHolds(body);
    AncestorRecordsMatch(body);
    ChainDistinct(body);
    ChainLinks(body, plan);
  }

  /** The files that the links from `body` lead to. */
  ghost predicate HoldsChain(body: Body, files: map<FileName, File>)
    decreases body
  {
    match PreviousLink(body)
    case Linked(Sha(b)) => Named(Sha(b)) in files && files[Named(Sha(b))] == Regular(Bound(b)) && HoldsChain(b, files)
    case _ => true
  }

  lemma {:induction false} ArchiveHoldsChain(body: Body, files: map<FileName, File>)
    requires forall name | name in Archive(body) :: name in files && files[name] == Archive(body)[name]
    ensures HoldsChain(body, files)
    decreases body
  {
    match PreviousLink(body)
    case Linked(Sha(b)) =>
      NotOwnArchive(b);
      ArchiveHoldsChain(b, files);
    case _ =>
  }

  /** Reads the chain back record by record. It needs no visited set of its own: on an accepted
      state it always ends, with the active record and every archived one. */
  method ReadUpgradeChain(disk: Disk, plan: string) returns (r: ReadChain)
    ensures r.Chain? <==> Accepted(disk, plan)
    ensures r.Chain? ==> r.records == ChainRecords(ActiveBody(disk))
  {
    var read := ReadUpgrade(disk, plan);
    if read.Reject? {
      return Broken;
    }
    ghost var active := read.active.body;
    ArchiveHoldsChain(active, Files(disk.history));
    var records, cursor := [read.active], PreviousLink(read.active.body);
    ghost var at := active;
    while cursor.Linked?
      invariant cursor == PreviousLink(at)
      invariant ValidChain(at, plan) && HoldsChain(at, Files(disk.history))
      invariant ChainRecords(active) == records + AncestorRecords(at)
      decreases at
    {
      var name := Named(cursor.digest);
      if name !in Files(disk.history) || Files(disk.history)[name].Unreadable? {
        assert false; // every link of an accepted chain has its file
      }
      var record := Files(disk.history)[name].record;
      if !ValidRecord(record, plan) || record.upgradeSha != Claimed(cursor.digest) {
        assert false; // and the file holds the linked record
      }
      records := records + [record];
      at := record.body;
      cursor := PreviousLink(record.body);
    }
    r := Chain(records);
  }
}
