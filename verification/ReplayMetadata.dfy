/** Identities of the calibration replay metadata, with and without the recurrent state. */
module ReplayMetadata {
  import opened Options

  datatype DType = BFloat16 | OtherType(name: string)

  datatype Tensor = Tensor(shape: seq<nat>, dtype: DType, payload: seq<bv8>)

  /** Shape, dtype and size: what a tensor is without its values. */
  datatype TensorSpec = TensorSpec(shape: seq<nat>, dtype: DType, bytes: nat)

  function SpecOf(t: Tensor): TensorSpec {
    TensorSpec(t.shape, t.dtype, |t.payload|)
  }

  /** Names of arguments and of stored tensors. `prev_topk_indices` is the one recurrent argument, `hidden` the one
      activation tensor. */
  datatype Field = PrevTopkIndices | Hidden | Other(name: string)

  datatype Number = Finite(r: real) | NotFinite

  /** The values that activation metadata may hold. */
  datatype Value =
    | TensorValue(tensor: Tensor)
    | Null
    | Text(text: string)
    | Flag(flag: bool)
    | Whole(whole: int)
    | Floating(number: Number)
    | Dictionary(items: map<Field, Value>)
    | Sequence(values: seq<Value>)
    | Unsupported

  /** The SHA-256 of a tensor's bytes: distinct payloads have distinct digests. */
  datatype PayloadDigest = PayloadSha(payload: seq<bv8>)

  datatype Identity =
    | TensorIdentity(spec: TensorSpec, digest: PayloadDigest)
    | Same(value: Value)
    | DictionaryIdentity(items: map<Field, Identity>)
    | SequenceIdentity(values: seq<Identity>)

  /** `_metadata_value_identity`; nothing for a value that has none. */
  function IdentityOf(v: Value): Option<Identity>
    decreases v
  {
    match v
    case TensorValue(t) => Some(TensorIdentity(SpecOf(t), PayloadSha(t.payload)))
    case Null => Some(Same(v))
    case Text(_) => Some(Same(v))
    case Flag(_) => Some(Same(v))
    case Whole(_) => Some(Same(v))
    case Floating(n) => if n.Finite? then Some(Same(v)) else None
    case Dictionary(items) =>
      if forall k | k in items :: IdentityOf(items[k]).Some? then
        Some(DictionaryIdentity(map k | k in items :: IdentityOf(items[k]).value))
      else None
    case Sequence(values) =>
      if forall i | 0 <= i < |values| :: IdentityOf(values[i]).Some? then
        Some(SequenceIdentity(seq(|values|, i requires 0 <= i < |values| => IdentityOf(values[i]).value)))
      else None
    case Unsupported => None
  }

  /** The keyword arguments of one batch. */
  type Kwargs = map<Field, Value>

  /** The replay metadata of a run: per batch, its keyword arguments, positions and masks. */
  datatype Replay = Replay(kwargs: seq<Kwargs>, positions: seq<Value>, masks: seq<Value>)

  function Dictionaries(kwargs: seq<Kwargs>): seq<Value> {
    seq(|kwargs|, i requires 0 <= i < |kwargs| => Dictionary(kwargs[i]))
  }

  function SequenceIdentityOf(values: seq<Value>): Option<Identity> {
    IdentityOf(Sequence(values))
  }

  /** `replay_metadata_identity`. Its digest is a function of the rest and adds nothing to an equality. */
  datatype ReplayIdentity = ReplayIdentity(kwargs: Identity, positions: Identity, masks: Identity)

  function ReplayIdentityOf(r: Replay): Option<ReplayIdentity> {
    var k := SequenceIdentityOf(Dictionaries(r.kwargs));
    var p := SequenceIdentityOf(r.positions);
    var m := SequenceIdentityOf(r.masks);
    if k.Some? && p.Some? && m.Some? then Some(ReplayIdentity(k.value, p.value, m.value)) else None
  }

  function Strip(k: Kwargs): Kwargs {
    map key | key in k && key != PrevTopkIndices :: k[key]
  }

  function Stripped(r: Replay): Replay {
    r.(kwargs := seq(|r.kwargs|, i requires 0 <= i < |r.kwargs| => Strip(r.kwargs[i])))
  }

  /** `replay_static_metadata_identity` */
  function StaticIdentityOf(r: Replay): Option<ReplayIdentity> {
    ReplayIdentityOf(Stripped(r))
  }

  /** The recurrent state of a batch, if it is there as a tensor. */
  function StateOf(k: Kwargs): (r: Option<Tensor>)
    ensures forall t :: r == Some(t) <==> PrevTopkIndices in k && k[PrevTopkIndices] == TensorValue(t)
  {
    if PrevTopkIndices in k && k[PrevTopkIndices].TensorValue? then Some(k[PrevTopkIndices].tensor) else None
  }

  /** `kwargs.update(values)` for every batch. */
  function Refill(r: Replay, states: seq<Tensor>): Replay
    requires |states| == |r.kwargs|
  {
    r.(kwargs := seq(|r.kwargs|,
                     i requires 0 <= i < |r.kwargs| => r.kwargs[i][PrevTopkIndices := TensorValue(states[i])]))
  }

  /** A value has an identity unless it is, or holds, a number that is not finite or an unsupported object. */
  lemma HasIdentityIff(v: Value)
    ensures IdentityOf(v).Some? <==>
              match v {
                case Floating(n) => n.Finite?
                case Unsupported => false
                case Dictionary(items) => forall k | k in items :: IdentityOf(items[k]).Some?
                case Sequence(values) => forall w | w in values :: IdentityOf(w).Some?
                case _ => true
              }
  {
    if v.Sequence? {
      assert forall i | 0 <= i < |v.values| :: v.values[i] in v.values;
    }
  }

  /** A value has one identity, and an identity belongs to one value. */
  lemma {:induction false} IdentityInjective(v: Value, w: Value)
    requires IdentityOf(v).Some? && IdentityOf(v) == IdentityOf(w)
    ensures v == w
    decreases v
  {
    match v
    case Dictionary(items) =>
      var ids, others := IdentityOf(v).value.items, IdentityOf(w).value.items;
      assert items.Keys == ids.Keys == others.Keys == w.items.Keys;
      forall k | k in items ensures items[k] == w.items[k] {
        assert ids[k] == others[k];
        IdentityInjective(items[k], w.items[k]);
      }
      assert items == w.items;
    case Sequence(values) =>
      var ids, others := IdentityOf(v).value.values, IdentityOf(w).value.values;
      assert |values| == |ids| == |others| == |w.values|;
      forall i | 0 <= i < |values| ensures values[i] == w.values[i] {
        assert ids[i] == others[i];
        IdentityInjective(values[i], w.values[i]);
      }
    case _ =>
  }

  /** The keyword arguments of a batch agree, the recurrent one apart. */
  ghost predicate SameArguments(a: Kwargs, b: Kwargs) {
    forall f: Field | f != PrevTopkIndices :: (f in a <==> f in b) && (f in a ==> a[f] == b[f])
  }

  /** Two replays with the same positions, the same masks and, per batch, the same keyword arguments but for the
      recurrent one. */
  ghost predicate SameButState(a: Replay, b: Replay) {
    && a.positions == b.positions && a.masks == b.masks && |a.kwargs| == |b.kwargs|
    && forall i | 0 <= i < |a.kwargs| :: SameArguments(a.kwargs[i], b.kwargs[i])
  }

  lemma StrippedSame(a: Kwargs, b: Kwargs)
    ensures Strip(a) == Strip(b) <==> SameArguments(a, b)
  {
    if Strip(a) == Strip(b) {
      forall f: Field | f != PrevTopkIndices ensures (f in a <==> f in b) && (f in a ==> a[f] == b[f]) {
        assert f in Strip(a) <==> f in Strip(b);
        assert f in a ==> Strip(a)[f] == Strip(b)[f];
      }
    }
  }

  lemma StrippedReplays(a: Replay, b: Replay)
    ensures Stripped(a) == Stripped(b) <==> SameButState(a, b)
  {
    hide Strip, SameArguments;
    var s, t := Stripped(a), Stripped(b);
    if s == t {
      forall i | 0 <= i < |a.kwargs| ensures SameArguments(a.kwargs[i], b.kwargs[i]) {
        assert s.kwargs[i] == t.kwargs[i];
        StrippedSame(a.kwargs[i], b.kwargs[i]);
      }
    }
    if SameButState(a, b) {
      forall i | 0 <= i < |a.kwargs| ensures s.kwargs[i] == t.kwargs[i] {
        StrippedSame(a.kwargs[i], b.kwargs[i]);
      }
      assert s.kwargs == t.kwargs;
    }
  }

  lemma ReplayIdentityInjective(a: Replay, b: Replay)
    requires ReplayIdentityOf(a).Some? && ReplayIdentityOf(a) == ReplayIdentityOf(b)
    ensures a == b
  {
    hide IdentityOf;
    IdentityInjective(Sequence(Dictionaries(a.kwargs)), Sequence(Dictionaries(b.kwargs)));
    IdentityInjective(Sequence(a.positions), Sequence(b.positions));
    IdentityInjective(Sequence(a.masks), Sequence(b.masks));
    var x, y := Dictionaries(a.kwargs), Dictionaries(b.kwargs);
    forall i | 0 <= i < |a.kwargs| ensures a.kwargs[i] == b.kwargs[i] {
      assert x[i] == y[i];
    }
    assert a.kwargs == b.kwargs;
  }

  /** Static metadata match exactly when positions, masks and all arguments but the recurrent one are the same. */
  lemma StaticIdentityIff(a: Replay, b: Replay)
    requires StaticIdentityOf(b).Some?
    ensures StaticIdentityOf(a) == StaticIdentityOf(b) <==> SameButState(a, b)
  {
    hide ReplayIdentityOf, Stripped, SameButState;
    StrippedReplays(a, b);
    if StaticIdentityOf(a) == StaticIdentityOf(b) {
      ReplayIdentityInjective(Stripped(a), Stripped(b));
    }
  }

  /** The stripped state never influences the static identity. */
  lemma StaticIgnoresState(r: Replay, states: seq<Tensor>)
    requires |states| == |r.kwargs|
    ensures StaticIdentityOf(Refill(r, states)) == StaticIdentityOf(r)
  {
    StrippedReplays(Refill(r, states), r);
  }

  lemma SequenceElements(values: seq<Value>)
    ensures SequenceIdentityOf(values).Some? <==> forall i | 0 <= i < |values| :: IdentityOf(values[i]).Some?
  {}

  /** Every committed batch carries its recurrent state. */
  predicate CarriesStates(r: Replay, states: seq<Tensor>) {
    |states| == |r.kwargs| && forall i | 0 <= i < |states| :: StateOf(r.kwargs[i]) == Some(states[i])
  }

  /** One batch: the same arguments and the same state written into them are the same batch. */
  lemma RefilledBatch(current: Kwargs, committed: Kwargs, state: Tensor)
    requires SameArguments(current, committed) && StateOf(committed) == Some(state)
    ensures current[PrevTopkIndices := TensorValue(state)] == committed
  {
    assert current[PrevTopkIndices := TensorValue(state)].Keys == committed.Keys;
  }

  /** The same arguments with the committed states written into them are the committed arguments. */
  lemma RefillRestores(current: Replay, committed: Replay, states: seq<Tensor>)
    requires CarriesStates(committed, states) && SameButState(current, committed)
    ensures |current.kwargs| == |states| && Refill(current, states) == committed
  {
    var refilled := Refill(current, states);
    forall i | 0 <= i < |states| ensures refilled.kwargs[i] == committed.kwargs[i] {
      RefilledBatch(current.kwargs[i], committed.kwargs[i], states[i]);
    }
    assert refilled.kwargs == committed.kwargs;
  }

  lemma StripKeepsIdentity(k: Kwargs, state: Tensor)
    requires StateOf(k) == Some(state)
    ensures IdentityOf(Dictionary(Strip(k))).Some? <==> IdentityOf(Dictionary(k)).Some?
  {
    assert forall f | f in k && f != PrevTopkIndices :: f in Strip(k) && Strip(k)[f] == k[f];
    assert IdentityOf(k[PrevTopkIndices]).Some?;
  }

  /** The full identity exists whenever the static one does and every batch carries a state. */
  lemma StaticImpliesFull(r: Replay, states: seq<Tensor>)
    requires CarriesStates(r, states)
    ensures StaticIdentityOf(r).Some? <==> ReplayIdentityOf(r).Some?
  {
    hide IdentityOf, Strip, StateOf;
    var whole, stripped := Dictionaries(r.kwargs), Dictionaries(Stripped(r).kwargs);
    forall i | 0 <= i < |whole| ensures IdentityOf(whole[i]).Some? <==> IdentityOf(stripped[i]).Some? {
      StripKeepsIdentity(r.kwargs[i], states[i]);
    }
    SequenceElements(whole);
    SequenceElements(stripped);
  }
}
