/** Which projections are proved complete: validation of one layer, the cumulative index, and discovery. */
module ProjectionIndex {
  import opened Options
  import opened Sorting
  import opened SetUnions
  import opened ProjectionNames

  /** What a projection's ledger record says. */
  datatype Ledger = Ledger(name: string, layer: int, family: string, content: string)

  /** The SHA-256 of a record: distinct records have distinct digests. */
  datatype Digest = RecordSha(ledger: Ledger)

  /** One committed projection checkpoint: its request and its result. */
  datatype Checkpoint = Checkpoint(
    name: Option<string>, layer: int, family: string, request: Option<string>, ledger: Option<Ledger>)

  datatype Entry = Entry(name: string, request: string, record: Digest)

  /** The layers to quantize, the routed experts of each, and the family that all evidence must name. */
  datatype Scope = Scope(first: nat, last: nat, experts: nat, family: string)

  /** The projection store by request digest, and the error journal. */
  datatype Evidence = Evidence(checkpoints: map<string, Checkpoint>, journal: set<Digest>)

  /** The store and the journal only ever grow. */
  predicate Extends(before: Evidence, after: Evidence) {
    && (forall r | r in before.checkpoints :: r in after.checkpoints && after.checkpoints[r] == before.checkpoints[r])
    && before.journal <= after.journal
  }

  function NameLe(): (Entry, Entry) -> bool {
    (a: Entry, b: Entry) => StringLe(a.name, b.name)
  }

  predicate DistinctNames(entries: seq<Entry>) {
    forall i, j | 0 <= i < j < |entries| :: entries[i].name != entries[j].name
  }

  function Names(entries: seq<Entry>): set<string> {
    set e | e in entries :: e.name
  }

  /** `entries` lists exactly the members of `members`, by name, once each. */
  ghost predicate Lists(entries: seq<Entry>, members: set<Entry>) {
    && SortedBy(NameLe(), entries)
    && DistinctNames(entries)
    && forall e :: e in entries <==> e in members
  }

  lemma NameOrder()
    ensures TotalOrder(NameLe())
  {
    StringOrder();
  }

  lemma {:induction false} DistinctMultiset(xs: seq<Entry>, e: Entry)
    requires DistinctNames(xs)
    ensures multiset(xs)[e] == if e in xs then 1 else 0
  {
    if xs != [] {
      assert xs == [xs[0]] + xs[1..];
      DistinctMultiset(xs[1..], e);
    }
  }

  lemma ByNameAntisymmetric(xs: seq<Entry>)
    requires DistinctNames(xs)
    ensures AntisymmetricOn(NameLe(), xs)
  {
    forall a, b | a in xs && b in xs && NameLe()(a, b) && NameLe()(b, a) ensures a == b {
      StringLeTotal(a.name, b.name);
    }
  }

  /** There is one way to list a set of entries. */
  lemma ListsUnique(xs: seq<Entry>, ys: seq<Entry>, members: set<Entry>)
    requires Lists(xs, members) && Lists(ys, members)
    ensures xs == ys
  {
    forall e ensures multiset(xs)[e] == multiset(ys)[e] {
      DistinctMultiset(xs, e);
      DistinctMultiset(ys, e);
    }
    NameOrder();
    ByNameAntisymmetric(xs);
    SortedUnique(NameLe(), xs, ys);
  }

  lemma NamesStep(entries: seq<Entry>)
    requires entries != []
    ensures Names(entries) == {entries[0].name} + Names(entries[1..])
    ensures DistinctNames(entries[1..]) && entries[0].name !in Names(entries[1..]) ==> DistinctNames(entries)
  {
    assert entries == [entries[0]] + entries[1..];
    assert forall j | 0 < j < |entries| :: entries[j] in entries[1..];
  }

  lemma {:induction false} DistinctNameCount(entries: seq<Entry>)
    requires DistinctNames(entries)
    ensures |Names(entries)| == |entries|
  {
    if entries == [] {
      assert Names(entries) == {};
    } else {
      DistinctNameCount(entries[1..]);
      NamesStep(entries);
      assert entries[0].name !in Names(entries[1..]);
    }
  }

  lemma SortPermutes(entries: seq<Entry>)
    ensures var sorted := Sort(NameLe(), entries);
            && SortedBy(NameLe(), sorted) && |sorted| == |entries|
            && (forall e :: e in sorted <==> e in entries)
            && Names(sorted) == Names(entries)
  {
    NameOrder();
    SortSorted(NameLe(), entries);
    var sorted := Sort(NameLe(), entries);
    assert |multiset(sorted)| == |multiset(entries)|;
    forall e ensures e in sorted <==> e in entries {
      InMultiset(e, sorted);
      InMultiset(e, entries);
    }
  }

  /** The record of a checkpoint is in the journal, and everything about it names this module and family. */
  predicate Supported(name: string, layer: int, c: Checkpoint, scope: Scope, journal: set<Digest>) {
    && c.name == Some(name) && c.layer == layer && c.family == scope.family
    && c.ledger.Some?
    && c.ledger.value.name == name && c.ledger.value.layer == layer && c.ledger.value.family == scope.family
    && RecordSha(c.ledger.value) in journal
  }

  /** The evidence behind an entry of one layer. */
  predicate Backed(e: Entry, layer: int, scope: Scope, evidence: Evidence) {
    && e.request in evidence.checkpoints
    && Supported(e.name, layer, evidence.checkpoints[e.request], scope, evidence.journal)
    && RecordSha(evidence.checkpoints[e.request].ledger.value) == e.record
  }

  /** An entry is backed by exactly one kind of checkpoint: filed under its request, with its name, this layer and this
      family throughout, and a record that the journal holds and the entry names. */
  lemma BackedIff(e: Entry, layer: nat, scope: Scope, evidence: Evidence)
    ensures Backed(e, layer, scope, evidence) <==>
              exists request, content ::
                var ledger := Ledger(e.name, layer, scope.family, content);
                && e.request in evidence.checkpoints
                && evidence.checkpoints[e.request]
                   == Checkpoint(Some(e.name), layer, scope.family, request, Some(ledger))
                && e.record == RecordSha(ledger) && RecordSha(ledger) in evidence.journal
  {
    if Backed(e, layer, scope, evidence) {
      var c := evidence.checkpoints[e.request];
      assert c == Checkpoint(Some(e.name), layer, scope.family, c.request,
                             Some(Ledger(e.name, layer, scope.family, c.ledger.value.content)));
    }
  }

  /** The evidence behind an entry, whatever its layer. */
  predicate BackedEntry(e: Entry, scope: Scope, evidence: Evidence) {
    e.request in evidence.checkpoints && Backed(e, evidence.checkpoints[e.request].layer, scope, evidence)
  }

  ghost predicate AllBacked(entries: seq<Entry>, scope: Scope, evidence: Evidence) {
    forall e | e in entries :: BackedEntry(e, scope, evidence)
  }

  /** `_validate_projection_entries`: one layer, completely covered and backed. */
  function ValidateEntries(layer: nat, entries: seq<Entry>, scope: Scope, evidence: Evidence): (r: Option<seq<Entry>>)
    ensures r.Some? ==> forall i | 0 <= i < |r.value| :: Backed(r.value[i], layer, scope, evidence)
  {
    var sorted := Sort(NameLe(), entries);
    if && |sorted| == Times(scope.experts, 3)
       && DistinctNames(sorted)
       && Names(sorted) == ExpectedModules(layer, scope.experts)
       && (forall i | 0 <= i < |sorted| :: Backed(sorted[i], layer, scope, evidence))
    then Some(sorted) else None
  }

  function LayerCount(layer: nat, scope: Scope): nat {
    if layer < scope.first then 0 else layer - scope.first + 1
  }

  /** `_validate_completed_projection_index`: all layers up to one. */
  function ValidateIndex(layer: nat, entries: seq<Entry>, scope: Scope): Option<seq<Entry>> {
    var sorted := Sort(NameLe(), entries);
    if && |sorted| == Times(LayerCount(layer, scope), Times(scope.experts, 3))
       && DistinctNames(sorted)
       && Names(sorted) == CumulativeModules(scope.first, LayerCount(layer, scope), scope.experts)
    then Some(sorted) else None
  }

  /** The length checks follow from the other two. */
  lemma LengthChecksImplied(layer: nat, entries: seq<Entry>, scope: Scope)
    requires DistinctNames(entries)
    ensures Names(entries) == ExpectedModules(layer, scope.experts) ==> |entries| == Times(scope.experts, 3)
    ensures Names(entries) == CumulativeModules(scope.first, LayerCount(layer, scope), scope.experts) ==>
              |entries| == Times(LayerCount(layer, scope), Times(scope.experts, 3))
  {
    DistinctNameCount(entries);
    ExpectedCount(layer, scope.experts);
    CumulativeCount(scope.first, LayerCount(layer, scope), scope.experts);
  }

  /** A complete index for all layers up to `layer`. */
  ghost predicate IsIndex(layer: nat, index: seq<Entry>, scope: Scope) {
    && SortedBy(NameLe(), index) && DistinctNames(index)
    && Names(index) == CumulativeModules(scope.first, LayerCount(layer, scope), scope.experts)
  }

  /** Validation returns an index, and an index validates to itself. */
  lemma ValidIndexIff(layer: nat, entries: seq<Entry>, scope: Scope)
    ensures ValidateIndex(layer, entries, scope).Some? ==>
              IsIndex(layer, ValidateIndex(layer, entries, scope).value, scope)
    ensures IsIndex(layer, entries, scope) ==> ValidateIndex(layer, entries, scope) == Some(entries)
  {
    SortPermutes(entries);
    if IsIndex(layer, entries, scope) {
      SortFixed(NameLe(), entries);
      LengthChecksImplied(layer, entries, scope);
    }
  }

  /** One complete, backed layer. */
  ghost predicate IsLayer(layer: nat, entries: seq<Entry>, scope: Scope, evidence: Evidence) {
    && SortedBy(NameLe(), entries) && DistinctNames(entries)
    && Names(entries) == ExpectedModules(layer, scope.experts)
    && forall i | 0 <= i < |entries| :: Backed(entries[i], layer, scope, evidence)
  }

  lemma ValidLayerIff(layer: nat, entries: seq<Entry>, scope: Scope, evidence: Evidence)
    ensures ValidateEntries(layer, entries, scope, evidence).Some? ==>
              IsLayer(layer, ValidateEntries(layer, entries, scope, evidence).value, scope, evidence)
    ensures IsLayer(layer, entries, scope, evidence) ==>
              ValidateEntries(layer, entries, scope, evidence) == Some(entries)
  {
    SortPermutes(entries);
    if IsLayer(layer, entries, scope, evidence) {
      SortFixed(NameLe(), entries);
      LengthChecksImplied(layer, entries, scope);
    }
  }

  /** A list with as many names as entries repeats none. */
  lemma {:induction false} CountedDistinct(entries: seq<Entry>)
    ensures |Names(entries)| <= |entries|
    ensures |Names(entries)| == |entries| ==> DistinctNames(entries)
  {
    if entries == [] {
      assert Names(entries) == {};
    } else {
      CountedDistinct(entries[1..]);
      NamesStep(entries);
      if entries[0].name in Names(entries[1..]) {
        assert Names(entries) == Names(entries[1..]);
      }
    }
  }

  lemma SameDistinct(a: seq<Entry>, b: seq<Entry>)
    requires |a| == |b| && Names(a) == Names(b)
    ensures DistinctNames(a) <==> DistinctNames(b)
  {
    if DistinctNames(a) {
      DistinctNameCount(a);
      CountedDistinct(b);
    }
    if DistinctNames(b) {
      DistinctNameCount(b);
      CountedDistinct(a);
    }
  }

  /** In whatever order they come: entries validate exactly if they name every module of the layer once and all are
      backed, and nothing is added or dropped. */
  lemma ValidEntriesIff(layer: nat, entries: seq<Entry>, scope: Scope, evidence: Evidence)
    ensures ValidateEntries(layer, entries, scope, evidence).Some? <==>
              && DistinctNames(entries) && Names(entries) == ExpectedModules(layer, scope.experts)
              && forall e | e in entries :: Backed(e, layer, scope, evidence)
    ensures ValidateEntries(layer, entries, scope, evidence).Some? ==>
              forall e :: e in ValidateEntries(layer, entries, scope, evidence).value <==> e in entries
  {
    hide Backed;
    SortPermutes(entries);
    SameDistinct(entries, Sort(NameLe(), entries));
    if DistinctNames(entries) {
      LengthChecksImplied(layer, entries, scope);
    }
    var sorted := Sort(NameLe(), entries);
    assert forall i | 0 <= i < |sorted| :: sorted[i] in sorted;
  }

  /** More evidence never invalidates a validated layer. */
  lemma LayerPersists(layer: nat, entries: seq<Entry>, scope: Scope, before: Evidence, after: Evidence)
    requires IsLayer(layer, entries, scope, before) && Extends(before, after)
    ensures IsLayer(layer, entries, scope, after)
  {
    forall i | 0 <= i < |entries| ensures Backed(entries[i], layer, scope, after) {
      assert Backed(entries[i], layer, scope, before);
    }
  }

  lemma BackedPersists(entries: seq<Entry>, scope: Scope, before: Evidence, after: Evidence)
    requires AllBacked(entries, scope, before) && Extends(before, after)
    ensures AllBacked(entries, scope, after)
  {
    forall e | e in entries ensures BackedEntry(e, scope, after) {
      assert BackedEntry(e, scope, before);
    }
  }

  lemma LayerIsBacked(layer: nat, entries: seq<Entry>, scope: Scope, evidence: Evidence)
    requires IsLayer(layer, entries, scope, evidence)
    ensures AllBacked(entries, scope, evidence)
  {
    forall e | e in entries ensures BackedEntry(e, scope, evidence) {
      var i :| 0 <= i < |entries| && entries[i] == e;
      assert Backed(entries[i], layer, scope, evidence);
    }
  }

  lemma JoinedDistinct(a: seq<Entry>, b: seq<Entry>)
    requires DistinctNames(a) && DistinctNames(b) && Names(a) !! Names(b)
    ensures DistinctNames(a + b) && Names(a + b) == Names(a) + Names(b)
  {
    forall i, j | 0 <= i < j < |a + b| ensures (a + b)[i].name != (a + b)[j].name {
      if i < |a| && j >= |a| {
        assert a[i].name in Names(a);
        assert b[j - |a|].name in Names(b);
      }
    }
    forall n ensures n in Names(a + b) <==> n in Names(a) + Names(b) {
      if n in Names(a) {
        var e :| e in a && e.name == n;
        assert e in a + b;
      }
      if n in Names(b) {
        var e :| e in b && e.name == n;
        assert e in a + b;
      }
    }
  }

  lemma {:induction false} SortKeepsDistinct(entries: seq<Entry>)
    requires DistinctNames(entries)
    ensures DistinctNames(Sort(NameLe(), entries))
  {
    var sorted := Sort(NameLe(), entries);
    SortPermutes(entries);
    DistinctNameCount(entries);
    CountedDistinct(sorted);
  }

  lemma SortTwice(layer: nat, entries: seq<Entry>, scope: Scope)
    requires IsIndex(layer, Sort(NameLe(), entries), scope)
    ensures ValidateIndex(layer, entries, scope) == Some(Sort(NameLe(), entries))
  {
    LengthChecksImplied(layer, Sort(NameLe(), entries), scope);
  }

  lemma LayersArePairwiseDisjoint(experts: nat)
    ensures Disjoint(Layers(experts))
  {
    forall i, j: nat | i != j ensures Layers(experts)(i) !! Layers(experts)(j) {
      LayersDisjoint(i, j, experts);
    }
  }

  lemma CumulativeStep(layer: nat, scope: Scope)
    requires layer >= scope.first
    ensures var known := CumulativeModules(scope.first, layer - scope.first, scope.experts);
            && known !! ExpectedModules(layer, scope.experts)
            && CumulativeModules(scope.first, LayerCount(layer, scope), scope.experts)
               == known + ExpectedModules(layer, scope.experts)
    ensures layer == scope.first ==> Names([]) == CumulativeModules(scope.first, layer - scope.first, scope.experts)
  {
    LayersArePairwiseDisjoint(scope.experts);
    NextIsNew(Layers(scope.experts), scope.first, layer - scope.first);
  }

  /** Appending a complete layer to the index of the layers before it always validates. */
  lemma IndexGrows(layer: nat, index: seq<Entry>, entries: seq<Entry>, scope: Scope, evidence: Evidence)
    requires layer >= scope.first
    requires if layer == scope.first then index == [] else IsIndex(layer - 1, index, scope)
    requires IsLayer(layer, entries, scope, evidence)
    ensures ValidateIndex(layer, index + entries, scope) == Some(Sort(NameLe(), index + entries))
    ensures IsIndex(layer, Sort(NameLe(), index + entries), scope)
    ensures forall e :: e in Sort(NameLe(), index + entries) <==> e in index || e in entries
  {
    CumulativeStep(layer, scope);
    JoinedDistinct(index, entries);
    var joined := index + entries;
    SortPermutes(joined);
    SortKeepsDistinct(joined);
    ValidIndexIff(layer, Sort(NameLe(), joined), scope);
    SortTwice(layer, joined, scope);
  }
}
