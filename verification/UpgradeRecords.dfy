/** Content-bound execution-upgrade records and the hash-linked history they form. */
module UpgradeRecords {

  /** Hashing is injective: a digest is the hash of one body, or 64 hex digits that hash nothing. */
  datatype Digest = Sha(body: Body) | Unmatched(text: string)

  datatype LinkField = Absent | Malformed | Link(target: Digest)

  /** A record without its own digest. `content` stands for every field but the four named ones. */
  datatype Body = Body(schemaOk: bool, parentPlan: string, content: string, previous: LinkField,
                       previousFailed: LinkField)

  datatype DigestField = NotADigest | Claimed(digest: Digest)

  datatype Record = Record(body: Body, upgradeSha: DigestField)

  /** A directory entry: a readable JSON object in a regular file, or anything else. */
  datatype File = Regular(record: Record) | Unreadable

  datatype FileName = Named(digest: Digest) | Unsafe(text: string)

  datatype History = NoHistory | NotADirectory | Directory(files: map<FileName, File>)

  datatype Active = Missing | Present(file: File)

  /** The two run-state entries that hold the upgrade chain. */
  datatype Disk = Disk(active: Active, history: History)

  datatype Ancestry = NoLink | Linked(digest: Digest) | BadLink

  /** `_bound_record` */
  function Bound(body: Body): Record {
    Record(body, Claimed(Sha(body)))
  }

  /** `_validate_record` */
  predicate ValidRecord(record: Record, plan: string) {
    record.body.schemaOk && record.body.parentPlan == plan && record == Bound(record.body)
  }

  /** `_previous_link`: at most one of the two fields, and it must be a digest. */
  function PreviousLink(body: Body): (r: Ancestry)
    ensures r.NoLink? <==> body.previous.Absent? && body.previousFailed.Absent?
    ensures forall d :: r == Linked(d) <==>
              || (body.previous == Link(d) && body.previousFailed.Absent?)
              || (body.previous.Absent? && body.previousFailed == Link(d))
  {
    match (body.previous, body.previousFailed)
    case (Absent, Absent) => NoLink
    case (Link(d), Absent) => Linked(d)
    case (Absent, Link(d)) => Linked(d)
    case (_, _) => BadLink
  }

  function Files(history: History): map<FileName, File> {
    if history.Directory? then history.files else map[]
  }

  /** The bodies reached by following the links back, nearest first. */
  function Ancestors(body: Body): seq<Body>
    decreases body
  {
    match PreviousLink(body)
    case Linked(Sha(b)) => [b] + Ancestors(b)
    case _ => []
  }

  /** Every record on the way is valid for the plan, and the last one has no link. */
  predicate ValidChain(body: Body, plan: string)
    decreases body
  {
    && body.schemaOk && body.parentPlan == plan
    && match PreviousLink(body)
       case NoLink => true
       case Linked(Sha(b)) => ValidChain(b, plan)
       case _ => false
  }

  /** The history directory that the chain hanging from `body` calls for: one file per ancestor. */
  function Archive(body: Body): map<FileName, File>
    decreases body
  {
    match PreviousLink(body)
    case Linked(Sha(b)) => Archive(b)[Named(Sha(b)) := Regular(Bound(b))]
    case _ => map[]
  }

  /** The active record is valid and the history is exactly its linked list: no record is missing,
      none is extra and none is altered. */
  ghost predicate Accepted(disk: Disk, plan: string) {
    && disk.active.Present? && disk.active.file.Regular?
    && ValidRecord(disk.active.file.record, plan)
    && ValidChain(disk.active.file.record.body, plan)
    && !disk.history.NotADirectory?
    && Files(disk.history) == Archive(disk.active.file.record.body)
  }

  /** The links strictly shorten the chain, so no record is its own ancestor. */
  lemma {:induction false} AncestorsShrink(body: Body, k: nat)
    requires k < |Ancestors(body)|
    ensures |Ancestors(Ancestors(body)[k])| == |Ancestors(body)| - k - 1
    decreases k
  {
    if k > 0 {
      var b := Ancestors(body)[0];
      AncestorsShrink(b, k - 1);
      assert Ancestors(body)[k] == Ancestors(b)[k - 1];
    }
  }

  /** A record never occurs twice in a chain, and neither does the active one. */
  lemma AncestorsDistinct(body: Body)
    ensures body !in Ancestors(body)
    ensures forall i, j | 0 <= i < j < |Ancestors(body)| :: Ancestors(body)[i] != Ancestors(body)[j]
  {
    forall i | 0 <= i < |Ancestors(body)| ensures Ancestors(body)[i] != body {
      AncestorsShrink(body, i);
    }
    forall i, j | 0 <= i < j < |Ancestors(body)| ensures Ancestors(body)[i] != Ancestors(body)[j] {
      AncestorsShrink(body, i);
      AncestorsShrink(body, j);
    }
  }

  /** The archive holds exactly the ancestors, each under its own digest. */
  lemma {:induction false} ArchiveHolds(body: Body)
    ensures forall name :: name in Archive(body) <==>
              name.Named? && name.digest.Sha? && name.digest.body in Ancestors(body)
    ensures forall name | name in Archive(body) :: Archive(body)[name] == Regular(Bound(name.digest.body))
    ensures |Archive(body)| == |Ancestors(body)|
    decreases body
  {
    match PreviousLink(body)
    case Linked(Sha(b)) =>
      ArchiveHolds(b);
      AncestorsDistinct(b);
    case _ =>
  }

  lemma {:induction false} AncestorsValid(body: Body, plan: string, k: nat)
    requires ValidChain(body, plan) && k < |Ancestors(body)|
    ensures ValidChain(Ancestors(body)[k], plan)
    decreases k
  {
    if k > 0 {
      AncestorsValid(Ancestors(body)[0], plan, k - 1);
    }
  }
}
