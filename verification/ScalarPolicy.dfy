/** The current scalar policy as the replay drives it: a window of observations, a fitted bias and a probe
    that ends every stretch of decisions without drafts. */
module ScalarPolicy {
  import opened LogitBias
  import opened BiasFit
  import opened DraftSelection

  /** Python's `round` of a real number: to the nearest integer, halves to the even one. */
  function Round(x: real): (n: int)
    ensures x - 0.5 <= n as real <= x + 0.5
    ensures n as real == x + 0.5 || n as real == x - 0.5 ==> n % 2 == 0
  {
    var below := x.Floor;
    var fraction := x - below as real;
    if fraction < 0.5 || (fraction == 0.5 && below % 2 == 0) then below else below + 1
  }

  /** How many plans without drafts the policy tolerates: sixteen when it is certain, four when it is not. */
  function ProbeInterval(variance: real): (interval: int)
    ensures 4 <= interval <= 16
    ensures variance >= 4.0 ==> interval == 4
    ensures variance <= 0.0 ==> interval == 16
  {
    var interval := Round(16.0 - Clamp(variance / 4.0, 0.0, 1.0) * 12.0);
    if interval < 1 then 1 else interval
  }

  lemma RoundMonotone(x: real, y: real)
    requires x <= y
    ensures Round(x) <= Round(y)
  {}

  /** In between, the interval is the nearest integer to a line that falls by three plans per unit of variance, so a
      less certain policy never probes later. */
  lemma ProbesSooner(less: real, more: real)
    requires less <= more
    ensures ProbeInterval(more) <= ProbeInterval(less)
    ensures 0.0 <= less <= 4.0 ==> 15.5 - 3.0 * less <= ProbeInterval(less) as real <= 16.5 - 3.0 * less
  {
    RoundMonotone(16.0 - Clamp(more / 4.0, 0.0, 1.0) * 12.0, 16.0 - Clamp(less / 4.0, 0.0, 1.0) * 12.0);
  }

  /** The last `window` items, oldest first. */
  function Newest<T>(items: seq<T>, window: nat): (r: seq<T>)
    ensures |r| == if |items| <= window then |items| else window
    ensures forall i | 0 <= i < |r| :: r[i] == items[|items| - |r| + i]
  {
    if |items| <= window then items else items[|items| - window..]
  }

  class ScalarLogitPolicy {
    const e: Elementary
    const window: nat
    const prior: real
    const limit: real
    var observations: seq<Observation>
    var bias: real
    var variance: real
    var zeroDraftPlans: nat

    ghost predicate Valid()
      reads this
    {
      && Exponential(e) && prior > 0.0 && limit >= 0.0
      && |observations| <= window
      && -limit <= bias <= limit
      && 0.0 < variance <= 1.0 / prior
      && zeroDraftPlans <= 16
    }

    constructor (e: Elementary, window: nat, prior: real, limit: real)
      requires Exponential(e) && prior > 0.0 && limit >= 0.0
      ensures Valid() && observations == [] && bias == 0.0 && zeroDraftPlans == 0
      ensures this.e == e && this.window == window && this.prior == prior && this.limit == limit
    {
      this.e, this.window, this.prior, this.limit := e, window, prior, limit;
      observations, bias, variance, zeroDraftPlans := [], 0.0, 1.0 / prior, 0;
    }

    /** Every confidence shifted by the current bias stays a probability. */
    method Adjusted(confidence: seq<real>) returns (adjusted: seq<real>)
      requires Valid()
      ensures |adjusted| == |confidence|
      ensures forall i | 0 <= i < |confidence| ::
                adjusted[i] == ApplyLogitBias(e, confidence[i], bias) && 0.0 < adjusted[i] < 1.0
    {
      adjusted := [];
      while |adjusted| < |confidence|
        invariant |adjusted| <= |confidence|
        invariant forall i | 0 <= i < |adjusted| ::
                    adjusted[i] == ApplyLogitBias(e, confidence[i], bias) && 0.0 < adjusted[i] < 1.0
      {
        CalibrationMonotone(e, confidence[|adjusted|], bias, bias);
        adjusted := adjusted + [ApplyLogitBias(e, confidence[|adjusted|], bias)];
      }
    }

    predicate ForceProbe()
      reads this
    {
      zeroDraftPlans >= ProbeInterval(variance)
    }

    method RecordSelection(drafts: nat)
      requires Valid() && (drafts == 0 ==> zeroDraftPlans < 16)
      modifies this`zeroDraftPlans
      ensures Valid() && zeroDraftPlans == if drafts == 0 then old(zeroDraftPlans) + 1 else 0
    {
      zeroDraftPlans := if drafts == 0 then zeroDraftPlans + 1 else 0;
    }

    /** Keep the newest observations and refit the bias to them. */
    method Observe(confidence: seq<real>, accepted: nat)
      requires Valid()
      modifies this`observations, this`bias, this`variance
      ensures Valid()
      ensures confidence == [] || accepted > |confidence| ==>
                observations == old(observations) && bias == old(bias) && variance == old(variance)
      ensures confidence != [] && accepted <= |confidence| ==>
                && observations == Newest(old(observations) + [Observation(confidence, accepted)], window)
                && var surprise := Surprise(Biased(e), observations, old(bias));
                   && 0.0 <= surprise <= 1.0
                   && var decay := RecencyDecay(surprise);
                     && SignChangesWithin(Biased(e), observations, decay, prior, limit, bias,
                                          ErrorAfter(limit, HALVINGS))
                     && variance == 1.0 / Max(Curvature(Biased(e), observations, decay, prior, bias), prior)
    {
      if confidence == [] || accepted > |confidence| {
        return;
      }
      observations := Newest(observations + [Observation(confidence, accepted)], window);
      LogitBiasCalibrates(e);
      var fit, decay := FitCurrentScalarBias(Biased(e), observations, bias, prior, limit);
      bias, variance := fit.bias, fit.variance;
    }

    /** One decision of the replay with this policy. It drafts nothing only while the probe is not due, so no
        more than sixteen decisions in a row go without a draft. */
    method PlanCycle(confidence: seq<real>, context: nat, maxDrafts: nat, acceptedPrefix: nat)
      returns (drafts: nat, accepted: nat, ghost adjusted: seq<real>, ghost best: nat)
      requires Valid() && confidence != [] && acceptedPrefix <= |confidence| && 1 <= maxDrafts <= 15
      modifies this
      ensures Valid()
      ensures |adjusted| <= maxDrafts && |adjusted| <= |confidence|
      ensures |adjusted| == maxDrafts || |adjusted| == |confidence|
      ensures forall i | 0 <= i < |adjusted| :: adjusted[i] == ApplyLogitBias(e, confidence[i], old(bias))
      ensures SmallestBest(adjusted, context, best)
      ensures drafts == if old(zeroDraftPlans >= ProbeInterval(variance)) && best == 0 then 1 else best
      ensures drafts <= |adjusted|
      ensures accepted == if drafts < acceptedPrefix then drafts else acceptedPrefix
      ensures drafts == 0 ==> old(zeroDraftPlans) < old(ProbeInterval(variance))
      ensures zeroDraftPlans == if drafts == 0 then old(zeroDraftPlans) + 1 else 0
      ensures drafts == 0 ==> observations == old(observations) && bias == old(bias) && variance == old(variance)
      ensures drafts > 0 ==>
                observations == Newest(old(observations) + [Observation(confidence[..drafts], accepted)], window)
    {
      var all := Adjusted(confidence);
      var cut := if maxDrafts < |all| then all[..maxDrafts] else all;
      var selection, chosen := SelectDrafts(cut, context, ForceProbe());
      adjusted, best := cut, chosen;
      drafts := selection.count;
      accepted := if drafts < acceptedPrefix then drafts else acceptedPrefix;
      RecordSelection(drafts);
      if drafts > 0 {
        Observe(confidence[..drafts], accepted);
      }
    }
  }
}
