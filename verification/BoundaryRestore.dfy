/** Splitting the cumulative index of a boundary by layer, and why it agrees with discovery. */
module BoundaryRestore {
  import opened Options
  import opened Sorting
  import opened SetUnions
  import opened ProjectionNames
  import opened ProjectionIndex
  import opened ProjectionDiscovery

  /** The layer at the front of a module name, as the restore reads it. */
  function LeadingLayer(name: string): Option<nat> {
    var tail := Strip(name, LAYERS);
    if tail.None? then None
    else
      var n := TakeNumeral(tail.value);
      if n.None? || n.value.rest == [] || n.value.rest[0] != '.' then None else Some(Read(n.value.numeral))
  }

  lemma LeadingLayerOfName(m: Module)
    ensures LeadingLayer(ModuleName(m)) == Some(m.layer)
  {
    StripLiteral(LAYERS, Print(m.layer) + SpelledExpert(Print(m.expert), m.projection));
    TakesNumeral(Print(m.layer), SpelledExpert(Print(m.expert), m.projection));
    ReadPrint(m.layer);
  }

  lemma LeadingLayerOfExpected(layer: nat, experts: nat, name: string)
    requires name in ExpectedModules(layer, experts)
    ensures LeadingLayer(name) == Some(layer)
  {
    var m := ExpectedNamed(layer, experts, name);
    LeadingLayerOfName(m);
  }

  /** The entries of one layer, in the order of the index. */
  function FilterLayer(index: seq<Entry>, layer: nat): seq<Entry> {
    if index == [] then []
    else
      var front := FilterLayer(index[..|index| - 1], layer);
      var e := index[|index| - 1];
      if LeadingLayer(e.name) == Some(layer) then front + [e] else front
  }

  /** Every entry names a layer of the prefix. */
  predicate LayersWithin(index: seq<Entry>, first: nat, top: nat) {
    forall i | 0 <= i < |index| ::
      LeadingLayer(index[i].name).Some? && first <= LeadingLayer(index[i].name).value <= top
  }

  /** The grouping loop of the restore. */
  method SplitByLayer(index: seq<Entry>, first: nat, top: nat) returns (r: Option<map<nat, seq<Entry>>>)
    ensures r.Some? <==> LayersWithin(index, first, top)
    ensures r.Some? ==> forall l: nat :: l in r.value <==> FilterLayer(index, l) != []
    ensures r.Some? ==> forall l | l in r.value :: r.value[l] == FilterLayer(index, l)
  {
    hide LeadingLayer;
    var byLayer: map<nat, seq<Entry>> := map[];
    var i := 0;
    while i < |index|
      invariant i <= |index| && LayersWithin(index[..i], first, top)
      invariant forall l: nat :: l in byLayer <==> FilterLayer(index[..i], l) != []
      invariant forall l | l in byLayer :: byLayer[l] == FilterLayer(index[..i], l)
    {
      var layer := LeadingLayer(index[i].name);
      if layer.None? || !(first <= layer.value <= top) {
        return None;
      }
      assert index[..i + 1][..i] == index[..i];
      byLayer := byLayer[layer.value := (if layer.value in byLayer then byLayer[layer.value] else []) + [index[i]]];
      i := i + 1;
    }
    assert index[..i] == index;
    r := Some(byLayer);
  }

  lemma {:induction false} FilterMembers(index: seq<Entry>, layer: nat, e: Entry)
    ensures e in FilterLayer(index, layer) <==> e in index && LeadingLayer(e.name) == Some(layer)
  {
    hide LeadingLayer;
    if index != [] {
      FilterMembers(index[..|index| - 1], layer, e);
      assert index == index[..|index| - 1] + [index[|index| - 1]];
    }
  }

  lemma {:induction false} FilterSorted(index: seq<Entry>, layer: nat)
    requires SortedBy(NameLe(), index) && DistinctNames(index)
    ensures SortedBy(NameLe(), FilterLayer(index, layer)) && DistinctNames(FilterLayer(index, layer))
  {
    hide LeadingLayer;
    if index != [] {
      var front := index[..|index| - 1];
      FilterSorted(front, layer);
      var kept := FilterLayer(front, layer);
      forall i | 0 <= i < |kept| ensures kept[i] in front {
        FilterMembers(front, layer, kept[i]);
      }
      forall x | x in front
        ensures NameLe()(x, index[|index| - 1]) && x.name != index[|index| - 1].name
      {
        var j :| 0 <= j < |front| && front[j] == x;
        assert index[j] == x;
      }
    }
  }

  /** Every entry of a complete index belongs to the layer that its name shows. */
  lemma IndexNameLayer(top: nat, index: seq<Entry>, scope: Scope, e: Entry)
    requires IsIndex(top, index, scope) && e in index
    ensures LeadingLayer(e.name).Some?
    ensures var l := LeadingLayer(e.name).value;
            scope.first <= l <= top && e.name in ExpectedModules(l, scope.experts)
  {
    hide LeadingLayer;
    assert e.name in Names(index);
    var l := Owner(Layers(scope.experts), scope.first, LayerCount(top, scope), e.name);
    LeadingLayerOfExpected(l, scope.experts, e.name);
  }

  /** The part of a complete index that belongs to one of its layers. */
  lemma IndexLayer(top: nat, index: seq<Entry>, scope: Scope, layer: nat)
    requires IsIndex(top, index, scope) && scope.first <= layer <= top
    ensures SortedBy(NameLe(), FilterLayer(index, layer)) && DistinctNames(FilterLayer(index, layer))
    ensures Names(FilterLayer(index, layer)) == ExpectedModules(layer, scope.experts)
  {
    hide LeadingLayer;
    FilterSorted(index, layer);
    var kept := FilterLayer(index, layer);
    forall name ensures name in Names(kept) <==> name in ExpectedModules(layer, scope.experts) {
      if name in Names(kept) {
        var e :| e in kept && e.name == name;
        FilterMembers(index, layer, e);
        IndexNameLayer(top, index, scope, e);
      }
      if name in ExpectedModules(layer, scope.experts) {
        Contains(Layers(scope.experts), scope.first, LayerCount(top, scope), layer);
        assert name in Names(index);
        var e :| e in index && e.name == name;
        LeadingLayerOfExpected(layer, scope.experts, name);
        FilterMembers(index, layer, e);
      }
    }
  }

  /** The split of a complete index never fails, and every layer of the prefix gets its share. */
  lemma IndexSplits(top: nat, index: seq<Entry>, scope: Scope)
    requires IsIndex(top, index, scope) && scope.experts > 0
    ensures LayersWithin(index, scope.first, top)
    ensures forall l: nat :: FilterLayer(index, l) != [] <==> scope.first <= l <= top
  {
    hide LeadingLayer;
    forall i | 0 <= i < |index|
      ensures LeadingLayer(index[i].name).Some? && scope.first <= LeadingLayer(index[i].name).value <= top
    {
      IndexNameLayer(top, index, scope, index[i]);
    }
    forall l: nat ensures FilterLayer(index, l) != [] <==> scope.first <= l <= top {
      if scope.first <= l <= top {
        IndexLayer(top, index, scope, l);
        NamedExpected(Module(l, 0, Gate), scope.experts);
        assert Names([]) == {};
      } else if FilterLayer(index, l) != [] {
        FilterMembers(index, l, FilterLayer(index, l)[0]);
        IndexNameLayer(top, index, scope, FilterLayer(index, l)[0]);
      }
    }
  }

  /** The inspected checkpoints are those of the store, each filed under its own request. */
  predicate Inspects(cs: seq<Checkpoint>, evidence: Evidence) {
    && (forall r | r in evidence.checkpoints :: evidence.checkpoints[r] in cs)
    && (forall r | r in evidence.checkpoints :: evidence.checkpoints[r].request == Some(r))
  }

  /** An index entry that is backed by the store is found again by discovery, under the layer of its name. */
  lemma BackedIsFound(e: Entry, layer: nat, cs: seq<Checkpoint>, scope: Scope, evidence: Evidence)
    requires Inspects(cs, evidence) && BackedEntry(e, scope, evidence)
    requires AllFound(Readings(cs, scope, evidence.journal))
    requires e.name in ExpectedModules(layer, scope.experts)
    ensures e in EntriesAt(Readings(cs, scope, evidence.journal), layer)
  {
    var c := evidence.checkpoints[e.request];
    var i :| 0 <= i < |cs| && cs[i] == c;
    var r := Readings(cs, scope, evidence.journal)[i];
    assert r.Found?;
    var m := ExpectedNamed(layer, scope.experts, e.name);
    ParsePrinted(m);
    assert r == Found(layer, e);
  }

  /** The name is what the printer makes of what it parses to: its numbers have no superfluous zeros. */
  predicate Printed(name: string) {
    Parse(name).Some? && ModuleName(Parse(name).value) == name
  }

  lemma ExpectedIsPrinted(layer: nat, experts: nat, name: string)
    requires name in ExpectedModules(layer, experts)
    ensures Printed(name)
  {
    var m := ExpectedNamed(layer, experts, name);
    ParsePrinted(m);
  }

  /** Every checkpoint found for these layers has a printed name. */
  ghost predicate CanonicalWithin(rs: seq<Reading>, first: nat, top: int) {
    forall r | r in rs && r.Found? && first <= r.layer <= top :: Printed(r.entry.name)
  }

  /** Printed names are expected names. */
  lemma FoundIsExpected(cs: seq<Checkpoint>, scope: Scope, evidence: Evidence, layer: nat, e: Entry)
    requires e in EntriesAt(Readings(cs, scope, evidence.journal), layer) && Printed(e.name)
    ensures e.name in ExpectedModules(layer, scope.experts)
  {
    hide Parse, ModuleName, ExpectedModules, Supported;
    var rs := Readings(cs, scope, evidence.journal);
    var r :| r in rs && r.Found? && r.layer == layer && r.entry == e;
    var i :| 0 <= i < |rs| && rs[i] == r;
    assert ReadCheckpoint(cs[i], scope, evidence.journal) == r;
    NamedExpected(Parse(e.name).value, scope.experts);
  }

  /** In a complete layer every name is printed, so one name that is not makes the whole layer incomplete. */
  lemma FullIsPrinted(rs: seq<Reading>, scope: Scope, r: Reading)
    requires r in rs && r.Found? && FullLayer(rs, scope, r.layer)
    ensures Printed(r.entry.name)
  {
    assert r.entry in EntriesAt(rs, r.layer);
    assert r.entry.name in NamesOf(EntriesAt(rs, r.layer));
    ExpectedIsPrinted(r.layer, scope.experts, r.entry.name);
  }

  /** A checkpoint of this module that is proven in every other respect, under a name with one leading zero. */
  function PaddedCheckpoint(m: Module, request: string, scope: Scope): Checkpoint {
    var name := PaddedName(m);
    Checkpoint(Some(name), m.layer, scope.family, Some(request), Some(Ledger(name, m.layer, scope.family, "")))
  }

  /** Discovery reads such a checkpoint without complaint, and from then on the layer is incomplete, even with every
      expected module committed beside it. */
  lemma LeadingZeroHidesLayer(m: Module, request: string, cs: seq<Checkpoint>, scope: Scope, journal: set<Digest>,
                              top: nat)
    requires scope.first <= m.layer <= scope.last && m.expert < scope.experts
    requires PaddedCheckpoint(m, request, scope) in cs
    requires EntryOf(PaddedCheckpoint(m, request, scope)).record in journal
    ensures Found(m.layer, EntryOf(PaddedCheckpoint(m, request, scope))) in Readings(cs, scope, journal)
    ensures !FullLayer(Readings(cs, scope, journal), scope, m.layer)
    ensures m.layer <= top ==> !CanonicalWithin(Readings(cs, scope, journal), scope.first, top)
  {
    hide Parse, ModuleName, PaddedName, FullLayer;
    var c := PaddedCheckpoint(m, request, scope);
    var rs := Readings(cs, scope, journal);
    var r := Found(m.layer, EntryOf(c));
    LeadingZeroIsLost(m);
    var i :| 0 <= i < |cs| && cs[i] == c;
    assert rs[i] == r && !Printed(r.entry.name);
    if FullLayer(rs, scope, m.layer) {
      FullIsPrinted(rs, scope, r);
    }
  }

  /** Two agreeing collections with the same names are the same. */
  lemma SameByName(rs: seq<Reading>, kept: seq<Entry>, layer: nat)
    requires Agreeing(rs)
    requires forall e | e in kept :: e in EntriesAt(rs, layer)
    requires forall e | e in EntriesAt(rs, layer) :: e.name in Names(kept)
    ensures forall e :: e in kept <==> e in EntriesAt(rs, layer)
  {
    forall e | e in EntriesAt(rs, layer) ensures e in kept {
      var other :| other in kept && other.name == e.name;
      var q :| q in rs && q.Found? && q.layer == layer && q.entry == e;
      var p :| p in rs && p.Found? && p.layer == layer && p.entry == other;
      assert SameModule(p, q);
    }
  }

  lemma FullByNames(rs: seq<Reading>, kept: seq<Entry>, layer: nat, scope: Scope)
    requires Names(kept) == ExpectedModules(layer, scope.experts)
    requires forall e :: e in kept <==> e in EntriesAt(rs, layer)
    ensures FullLayer(rs, scope, layer)
  {
    assert Names(kept) == NamesOf(EntriesAt(rs, layer));
  }

  lemma IndexLayerIsFound(top: nat, index: seq<Entry>, cs: seq<Checkpoint>, layer: nat, scope: Scope,
                          evidence: Evidence)
    requires IsIndex(top, index, scope) && AllBacked(index, scope, evidence) && Inspects(cs, evidence)
    requires CanonicalWithin(Readings(cs, scope, evidence.journal), layer, layer)
    requires AllFound(Readings(cs, scope, evidence.journal)) && Agreeing(Readings(cs, scope, evidence.journal))
    requires scope.first <= layer <= top
    ensures forall e :: e in FilterLayer(index, layer) <==> e in EntriesAt(Readings(cs, scope, evidence.journal), layer)
  {
    hide LeadingLayer, ReadCheckpoint, Readings, Printed, Inspects, AllFound, Agreeing;
    var rs := Readings(cs, scope, evidence.journal);
    var kept := FilterLayer(index, layer);
    IndexLayer(top, index, scope, layer);
    forall e | e in kept ensures e in EntriesAt(rs, layer) {
      FilterMembers(index, layer, e);
      assert e.name in Names(kept);
      assert BackedEntry(e, scope, evidence);
      BackedIsFound(e, layer, cs, scope, evidence);
    }
    forall e | e in EntriesAt(rs, layer) ensures e.name in Names(kept) {
      FoundIsExpected(cs, scope, evidence, layer, e);
    }
    SameByName(rs, kept, layer);
  }

  /** With printed names, a complete, backed boundary index restricted to a layer is exactly what discovery returns
      for it. */
  lemma CanonicalAgrees(top: nat, index: seq<Entry>, cs: seq<Checkpoint>, d: Discovery, layer: nat, scope: Scope,
                        evidence: Evidence)
    requires scope.experts > 0 && IsIndex(top, index, scope) && AllBacked(index, scope, evidence)
    requires Inspects(cs, evidence) && CanonicalWithin(Readings(cs, scope, evidence.journal), layer, layer)
    requires Discovered(d, Readings(cs, scope, evidence.journal), scope) && d.Complete?
    requires scope.first <= layer <= top
    ensures layer in d.layers && d.layers[layer] == FilterLayer(index, layer)
  {
    hide LeadingLayer, ReadCheckpoint, Readings, EntriesAt, CanonicalWithin, Inspects, IsIndex, AllBacked;
    var rs := Readings(cs, scope, evidence.journal);
    var kept := FilterLayer(index, layer);
    IndexLayer(top, index, scope, layer);
    IndexLayerIsFound(top, index, cs, layer, scope, evidence);
    FullByNames(rs, kept, layer, scope);
    assert Lists(kept, EntriesAt(rs, layer));
    ListsUnique(kept, d.layers[layer], EntriesAt(rs, layer));
  }

  /** Discovery returns exactly the boundary's entries for this layer. */
  predicate AgreesAt(d: Discovery, index: seq<Entry>, layer: nat)
    requires d.Complete?
  {
    layer in d.layers && d.layers[layer] == FilterLayer(index, layer)
  }

  /** The two cross-checks of the restore never fire on a complete, backed boundary if and only if every checkpoint
      found for its layers has a printed name. */
  lemma RestoreAgreesIff(top: nat, index: seq<Entry>, cs: seq<Checkpoint>, d: Discovery, scope: Scope,
                         evidence: Evidence)
    requires scope.experts > 0 && IsIndex(top, index, scope) && AllBacked(index, scope, evidence)
    requires Inspects(cs, evidence)
    requires Discovered(d, Readings(cs, scope, evidence.journal), scope) && d.Complete?
    ensures (forall layer: nat | scope.first <= layer <= top :: AgreesAt(d, index, layer))
            <==> CanonicalWithin(Readings(cs, scope, evidence.journal), scope.first, top)
  {
    hide LeadingLayer, Readings, EntriesAt, Inspects, IsIndex, AllBacked, FullLayer, Printed;
    var rs := Readings(cs, scope, evidence.journal);
    if CanonicalWithin(rs, scope.first, top) {
      forall layer: nat | scope.first <= layer <= top ensures AgreesAt(d, index, layer) {
        CanonicalAgrees(top, index, cs, d, layer, scope, evidence);
      }
    }
    if forall layer: nat | scope.first <= layer <= top :: AgreesAt(d, index, layer) {
      forall r | r in rs && r.Found? && scope.first <= r.layer <= top ensures Printed(r.entry.name) {
        assert AgreesAt(d, index, r.layer);
        FullIsPrinted(rs, scope, r);
      }
    }
  }
}
