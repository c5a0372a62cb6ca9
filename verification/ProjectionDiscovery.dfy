/** Finding the contiguous prefix of completely quantized layers in the projection store. */
module ProjectionDiscovery {
  import opened Options
  import opened Sorting
  import opened SetUnions
  import opened ProjectionNames
  import opened ProjectionIndex

  datatype Discovery =
    | Complete(layers: map<nat, seq<Entry>>)
    | UnexpectedModule
    | EvidenceDiffers
    | Collides
    | NotContiguous

  predicate Readable(c: Checkpoint) {
    c.name.Some? && Parse(c.name.value).Some?
  }

  function LayerOf(c: Checkpoint): nat
    requires Readable(c)
  {
    Parse(c.name.value).value.layer
  }

  /** The second check of the discovery loop. */
  predicate Proven(c: Checkpoint, scope: Scope, journal: set<Digest>)
    requires Readable(c)
  {
    && scope.first <= LayerOf(c) <= scope.last
    && Parse(c.name.value).value.expert < scope.experts
    && c.request.Some?
    && Supported(c.name.value, LayerOf(c), c, scope, journal)
  }

  function EntryOf(c: Checkpoint): Entry
    requires c.name.Some? && c.request.Some? && c.ledger.Some?
  {
    Entry(c.name.value, c.request.value, RecordSha(c.ledger.value))
  }

  /** What the discovery loop makes of one checkpoint. */
  datatype Reading = Found(layer: nat, entry: Entry) | Unexpected | Differs

  function ReadCheckpoint(c: Checkpoint, scope: Scope, journal: set<Digest>): Reading {
    if !Readable(c) then Unexpected
    else if !Proven(c, scope, journal) then Differs
    else Found(LayerOf(c), EntryOf(c))
  }

  /** A checkpoint is found exactly if it is a complete record of a module in scope: filed under its name, with this
      layer and this family throughout, and a ledger that the journal holds. */
  lemma FoundIff(c: Checkpoint, layer: nat, e: Entry, scope: Scope, journal: set<Digest>)
    ensures ReadCheckpoint(c, scope, journal) == Found(layer, e) <==>
              && Parse(e.name).Some? && Parse(e.name).value.layer == layer
              && scope.first <= layer <= scope.last && Parse(e.name).value.expert < scope.experts
              && exists content ::
                   var ledger := Ledger(e.name, layer, scope.family, content);
                   && c == Checkpoint(Some(e.name), layer, scope.family, Some(e.request), Some(ledger))
                   && e.record == RecordSha(ledger) && RecordSha(ledger) in journal
  {
    hide Parse;
    if ReadCheckpoint(c, scope, journal) == Found(layer, e) {
      assert c == Checkpoint(Some(e.name), layer, scope.family, Some(e.request),
                             Some(Ledger(e.name, layer, scope.family, c.ledger.value.content)));
    }
  }

  function Readings(cs: seq<Checkpoint>, scope: Scope, journal: set<Digest>): seq<Reading> {
    seq(|cs|, i requires 0 <= i < |cs| => ReadCheckpoint(cs[i], scope, journal))
  }

  predicate AllFound(rs: seq<Reading>) {
    forall i | 0 <= i < |rs| :: rs[i].Found?
  }

  predicate SameModule(a: Reading, b: Reading) {
    a.Found? && b.Found? && a.layer == b.layer && a.entry.name == b.entry.name
  }

  /** No module has two different entries. */
  predicate Agreeing(rs: seq<Reading>) {
    forall i, j | 0 <= i < |rs| && 0 <= j < |rs| :: SameModule(rs[i], rs[j]) ==> rs[i] == rs[j]
  }

  /** The entries of one layer. */
  function EntriesAt(rs: seq<Reading>, layer: nat): set<Entry> {
    set r | r in rs && r.Found? && r.layer == layer :: r.entry
  }

  function NamesOf(entries: set<Entry>): set<string> {
    set e | e in entries :: e.name
  }

  /** A map by name of exactly these entries. */
  ghost predicate Named(byName: map<string, Entry>, entries: set<Entry>) {
    && (forall n | n in byName :: byName[n].name == n && byName[n] in entries)
    && (forall e | e in entries :: e.name in byName && byName[e.name] == e)
  }

  function At(grouped: map<nat, map<string, Entry>>, layer: nat): map<string, Entry> {
    if layer in grouped then grouped[layer] else map[]
  }

  /** What the discovery loop has grouped from a prefix of the inspected checkpoints. */
  ghost predicate Groups(grouped: map<nat, map<string, Entry>>, rs: seq<Reading>) {
    && (forall l: nat :: Named(At(grouped, l), EntriesAt(rs, l)))
    && (forall l | l in grouped :: grouped[l] != map[])
  }

  lemma EntriesExtend(rs: seq<Reading>, r: Reading, layer: nat)
    ensures EntriesAt(rs + [r], layer)
            == EntriesAt(rs, layer) + if r.Found? && r.layer == layer then {r.entry} else {}
  {
    assert r in rs + [r];
    forall e ensures e in EntriesAt(rs + [r], layer) <==>
                       e in EntriesAt(rs, layer) || (r.Found? && r.layer == layer && e == r.entry) {
      if e in EntriesAt(rs, layer) {
        var q :| q in rs && q.Found? && q.layer == layer && q.entry == e;
        assert q in rs + [r];
      }
    }
  }

  /** The two `setdefault` calls. */
  function Put(grouped: map<nat, map<string, Entry>>, layer: nat, e: Entry): map<nat, map<string, Entry>> {
    if e.name in At(grouped, layer) then grouped else grouped[layer := At(grouped, layer)[e.name := e]]
  }

  predicate Collision(grouped: map<nat, map<string, Entry>>, r: Reading)
    requires r.Found?
  {
    r.entry.name in At(grouped, r.layer) && At(grouped, r.layer)[r.entry.name] != r.entry
  }

  lemma GroupsExtend(grouped: map<nat, map<string, Entry>>, rs: seq<Reading>, r: Reading)
    requires Groups(grouped, rs) && r.Found? && !Collision(grouped, r)
    ensures Groups(Put(grouped, r.layer, r.entry), rs + [r])
  {
    var put := Put(grouped, r.layer, r.entry);
    forall l: nat ensures Named(At(put, l), EntriesAt(rs + [r], l)) {
      EntriesExtend(rs, r, l);
      assert Named(At(grouped, l), EntriesAt(rs, l));
    }
  }

  lemma CollisionDisagrees(grouped: map<nat, map<string, Entry>>, rs: seq<Reading>, n: nat)
    requires n < |rs| && Groups(grouped, rs[..n]) && rs[n].Found? && Collision(grouped, rs[n])
    ensures !Agreeing(rs)
  {
    var r := rs[n];
    assert Named(At(grouped, r.layer), EntriesAt(rs[..n], r.layer));
    var e := At(grouped, r.layer)[r.entry.name];
    var q :| q in rs[..n] && q.Found? && q.layer == r.layer && q.entry == e;
    assert SameModule(q, r) && q in rs;
  }

  lemma AgreeingExtends(grouped: map<nat, map<string, Entry>>, rs: seq<Reading>, r: Reading)
    requires Groups(grouped, rs) && Agreeing(rs) && r.Found? && !Collision(grouped, r)
    ensures Agreeing(rs + [r])
  {
    assert Named(At(grouped, r.layer), EntriesAt(rs, r.layer));
    forall q | q in rs && SameModule(q, r) ensures q == r {
      assert q.entry in EntriesAt(rs, r.layer);
    }
  }

  datatype Grouping = Grouped(byLayer: map<nat, map<string, Entry>>) | Failed(error: Discovery)

  /** The loop over the inspected manifests. */
  method Group(rs: seq<Reading>) returns (g: Grouping)
    ensures g.Grouped? <==> AllFound(rs) && Agreeing(rs)
    ensures g.Grouped? ==> Groups(g.byLayer, rs)
    ensures g.Failed? ==> !g.error.Complete?
  {
    var grouped: map<nat, map<string, Entry>> := map[];
    var i := 0;
    while i < |rs|
      invariant i <= |rs|
      invariant AllFound(rs[..i]) && Agreeing(rs[..i]) && Groups(grouped, rs[..i])
    {
      var r := rs[i];
      if r.Unexpected? {
        return Failed(UnexpectedModule);
      }
      if r.Differs? {
        return Failed(EvidenceDiffers);
      }
      if Collision(grouped, r) {
        CollisionDisagrees(grouped, rs, i);
        return Failed(Collides);
      }
      assert rs[..i + 1] == rs[..i] + [r];
      AgreeingExtends(grouped, rs[..i], r);
      GroupsExtend(grouped, rs[..i], r);
      grouped := Put(grouped, r.layer, r.entry);
      i := i + 1;
    }
    assert rs[..i] == rs;
    g := Grouped(grouped);
  }

  /** `tuple(entries[name] for name in sorted(entries))` */
  method ByName(byName: map<string, Entry>, ghost members: set<Entry>) returns (r: seq<Entry>)
    requires Named(byName, members)
    ensures Lists(r, members)
  {
    r := [];
    var left := byName.Keys;
    while left != {}
      invariant left <= byName.Keys && DistinctNames(r)
      invariant forall e :: e in r <==> e in members && e.name !in left
      decreases |left|
    {
      var name :| name in left;
      r := r + [byName[name]];
      left := left - {name};
    }
    SortPermutes(r);
    SortKeepsDistinct(r);
    r := Sort(NameLe(), r);
  }

  method Maximum(grouped: map<nat, map<string, Entry>>) returns (m: nat)
    requires grouped != map[]
    ensures m in grouped && forall l | l in grouped :: l <= m
  {
    var left := grouped.Keys;
    m :| m in left;
    while left != {}
      invariant left <= grouped.Keys && m in grouped
      invariant forall l | l in grouped && l !in left :: l <= m
      decreases |left|
    {
      var l :| l in left;
      if l > m {
        m := l;
      }
      left := left - {l};
    }
  }

  predicate FullAt(grouped: map<nat, map<string, Entry>>, layer: nat, scope: Scope) {
    At(grouped, layer).Keys == ExpectedModules(layer, scope.experts)
  }

  /** Nothing is grouped behind an incomplete layer. */
  ghost predicate NothingBehindGaps(grouped: map<nat, map<string, Entry>>, scope: Scope) {
    forall l: nat | scope.first <= l && !FullAt(grouped, l, scope) :: forall g | g in grouped :: g <= l
  }

  lemma FullIsGrouped(grouped: map<nat, map<string, Entry>>, layer: nat, scope: Scope)
    requires scope.experts > 0 && FullAt(grouped, layer, scope)
    ensures layer in grouped
  {
    NamedExpected(Module(layer, 0, Gate), scope.experts);
  }

  lemma BeyondMaximum(grouped: map<nat, map<string, Entry>>, layer: nat, scope: Scope)
    requires scope.experts > 0 && layer !in grouped
    ensures !FullAt(grouped, layer, scope)
  {
    if FullAt(grouped, layer, scope) {
      FullIsGrouped(grouped, layer, scope);
    }
  }

  /** The loop over the layers, up to the first incomplete one. */
  method TakeComplete(grouped: map<nat, map<string, Entry>>, maximum: nat, scope: Scope, ghost rs: seq<Reading>)
    returns (complete: map<nat, seq<Entry>>, layer: nat)
    requires Groups(grouped, rs)
    ensures scope.first <= layer && forall l: nat | scope.first <= l < layer :: FullAt(grouped, l, scope)
    ensures layer > maximum || !FullAt(grouped, layer, scope)
    ensures forall l :: l in complete <==> scope.first <= l < layer
    ensures forall l | l in complete :: Lists(complete[l], EntriesAt(rs, l))
  {
    complete, layer := map[], scope.first;
    while layer <= maximum && FullAt(grouped, layer, scope)
      invariant scope.first <= layer && forall l: nat | scope.first <= l < layer :: FullAt(grouped, l, scope)
      invariant forall l :: l in complete <==> scope.first <= l < layer
      invariant forall l | l in complete :: Lists(complete[l], EntriesAt(rs, l))
    {
      assert Named(At(grouped, layer), EntriesAt(rs, layer));
      var entries := ByName(At(grouped, layer), EntriesAt(rs, layer));
      complete := complete[layer := entries];
      layer := layer + 1;
    }
  }

  /** The complete layers, unless something is grouped behind the first incomplete one. */
  method CompletePrefix(grouped: map<nat, map<string, Entry>>, scope: Scope, ghost rs: seq<Reading>)
    returns (d: Discovery)
    requires scope.experts > 0 && Groups(grouped, rs)
    ensures d.Complete? || d.NotContiguous?
    ensures d.Complete? <==> NothingBehindGaps(grouped, scope)
    ensures d.Complete? ==> forall l :: l in d.layers <==> scope.first <= l && FullAt(grouped, l, scope)
    ensures d.Complete? ==> forall l | l in d.layers :: Lists(d.layers[l], EntriesAt(rs, l))
  {
    forall l: nat | l !in grouped ensures !FullAt(grouped, l, scope) {
      BeyondMaximum(grouped, l, scope);
    }
    if grouped == map[] {
      return Complete(map[]);
    }
    var maximum := Maximum(grouped);
    var complete, layer := TakeComplete(grouped, maximum, scope, rs);
    if layer < maximum {
      return NotContiguous;
    }
    d := Complete(complete);
  }

  /** Every projection of the layer is committed. */
  predicate FullLayer(rs: seq<Reading>, scope: Scope, layer: nat) {
    NamesOf(EntriesAt(rs, layer)) == ExpectedModules(layer, scope.experts)
  }

  predicate NoneBehind(rs: seq<Reading>, layer: nat) {
    forall r | r in rs && r.Found? :: r.layer <= layer
  }

  /** Nothing is committed behind an incomplete layer. */
  ghost predicate Contiguous(rs: seq<Reading>, scope: Scope) {
    forall l: nat | scope.first <= l && !FullLayer(rs, scope, l) :: NoneBehind(rs, l)
  }

  lemma FullAgrees(grouped: map<nat, map<string, Entry>>, rs: seq<Reading>, scope: Scope, layer: nat)
    requires Groups(grouped, rs)
    ensures FullAt(grouped, layer, scope) <==> FullLayer(rs, scope, layer)
  {
    var entries := EntriesAt(rs, layer);
    assert Named(At(grouped, layer), entries);
    forall n ensures n in At(grouped, layer).Keys <==> n in NamesOf(entries) {
      if n in NamesOf(entries) {
        var e :| e in entries && e.name == n;
      }
    }
    assert At(grouped, layer).Keys == NamesOf(entries);
  }

  lemma NoneBehindAgrees(grouped: map<nat, map<string, Entry>>, rs: seq<Reading>, layer: nat)
    requires Groups(grouped, rs)
    ensures (forall g | g in grouped :: g <= layer) <==> NoneBehind(rs, layer)
  {
    forall g | g in grouped ensures exists r :: r in rs && r.Found? && r.layer == g {
      assert Named(At(grouped, g), EntriesAt(rs, g));
      var n :| n in grouped[g];
      assert grouped[g][n] in EntriesAt(rs, g);
    }
    forall r | r in rs && r.Found? ensures r.layer in grouped {
      assert Named(At(grouped, r.layer), EntriesAt(rs, r.layer));
      assert r.entry in EntriesAt(rs, r.layer);
    }
  }

  lemma ContiguousAgrees(grouped: map<nat, map<string, Entry>>, rs: seq<Reading>, scope: Scope)
    requires Groups(grouped, rs)
    ensures NothingBehindGaps(grouped, scope) <==> Contiguous(rs, scope)
    ensures forall l: nat :: FullAt(grouped, l, scope) <==> FullLayer(rs, scope, l)
  {
    forall l: nat ensures FullAt(grouped, l, scope) <==> FullLayer(rs, scope, l) {
      FullAgrees(grouped, rs, scope, l);
    }
    forall l: nat ensures (forall g | g in grouped :: g <= l) <==> NoneBehind(rs, l) {
      NoneBehindAgrees(grouped, rs, l);
    }
  }

  /** What discovery promises: it succeeds exactly on readable, agreeing, contiguous evidence, and then returns
      exactly the complete layers, each listed by name. */
  ghost predicate Discovered(d: Discovery, rs: seq<Reading>, scope: Scope) {
    && (d.Complete? <==> AllFound(rs) && Agreeing(rs) && Contiguous(rs, scope))
    && (d.Complete? ==> forall l :: l in d.layers <==> scope.first <= l && FullLayer(rs, scope, l))
    && (d.Complete? ==> forall l | l in d.layers :: Lists(d.layers[l], EntriesAt(rs, l)))
  }

  method DiscoverReadings(rs: seq<Reading>, scope: Scope) returns (d: Discovery)
    requires scope.experts > 0
    ensures Discovered(d, rs, scope)
  {
    var grouping := Group(rs);
    if grouping.Failed? {
      return grouping.error;
    }
    ContiguousAgrees(grouping.byLayer, rs, scope);
    d := CompletePrefix(grouping.byLayer, scope, rs);
  }

  method Discover(cs: seq<Checkpoint>, scope: Scope, journal: set<Digest>) returns (d: Discovery)
    requires scope.experts > 0
    ensures Discovered(d, Readings(cs, scope, journal), scope)
  {
    d := DiscoverReadings(Readings(cs, scope, journal), scope);
  }

  lemma FullLayerFound(rs: seq<Reading>, scope: Scope, layer: nat) returns (r: Reading)
    requires scope.experts > 0 && FullLayer(rs, scope, layer)
    ensures r in rs && r.Found? && r.layer == layer
  {
    NamedExpected(Module(layer, 0, Gate), scope.experts);
    var e :| e in EntriesAt(rs, layer);
    r :| r in rs && r.Found? && r.layer == layer && r.entry == e;
  }

  /** The complete layers form one prefix. */
  lemma CompleteIsPrefix(rs: seq<Reading>, scope: Scope, layer: nat, earlier: nat)
    requires scope.experts > 0 && Contiguous(rs, scope)
    requires scope.first <= earlier <= layer && FullLayer(rs, scope, layer)
    ensures FullLayer(rs, scope, earlier)
  {
    var r := FullLayerFound(rs, scope, layer);
    assert !NoneBehind(rs, earlier) || earlier == layer;
  }

  /** Nothing is complete outside the scope. */
  lemma CompleteInScope(cs: seq<Checkpoint>, scope: Scope, journal: set<Digest>, layer: nat)
    requires scope.experts > 0 && FullLayer(Readings(cs, scope, journal), scope, layer)
    ensures scope.first <= layer <= scope.last
  {
    var r := FullLayerFound(Readings(cs, scope, journal), scope, layer);
    var i :| 0 <= i < |cs| && ReadCheckpoint(cs[i], scope, journal) == r;
  }
}
