/** The current scalar policy: one bias added to every logit, refitted by bisection after each observation. */
module BiasFit {
  import opened LogitBias

  type Calibration = (real, real) -> real

  datatype Observation = Observation(confidence: seq<real>, accepted: nat)

  datatype Fit = Fit(bias: real, variance: real)

  /** The accepted positions and the first rejected one; slicing stops at the end of the proposal. */
  function ObservedPositions(o: Observation): (n: nat)
    ensures n <= |o.confidence|
  {
    if o.accepted < |o.confidence| then o.accepted + 1 else |o.confidence|
  }

  function Outcome(o: Observation, position: nat): real {
    if position < o.accepted then 1.0 else 0.0
  }

  /** The variance of an outcome with this probability. */
  function Spread(calibrated: real): (r: real)
    ensures 0.0 < calibrated < 1.0 ==> r > 0.0
  {
    calibrated * (1.0 - calibrated)
  }

  function Weigh(weight: real, amount: real): real {
    weight * amount
  }

  /** The unweighted gradient of one observation's first `n` positions. */
  function PositionSum(cal: Calibration, o: Observation, bias: real, n: nat): real
    requires n <= |o.confidence|
  {
    if n == 0 then 0.0
    else PositionSum(cal, o, bias, n - 1) + (cal(o.confidence[n - 1], bias) - Outcome(o, n - 1))
  }

  function SpreadSum(cal: Calibration, o: Observation, bias: real, n: nat): real
    requires n <= |o.confidence|
  {
    if n == 0 then 0.0
    else SpreadSum(cal, o, bias, n - 1) + Spread(cal(o.confidence[n - 1], bias))
  }

  function Power(base: real, exponent: nat): real {
    if exponent == 0 then 1.0 else Power(base, exponent - 1) * base
  }

  /** The `ages` newest observations, the newest with weight one. */
  function Residuals(cal: Calibration, os: seq<Observation>, decay: real, bias: real, ages: nat): real
    requires ages <= |os|
  {
    if ages == 0 then 0.0
    else
      var o := os[|os| - ages];
      Residuals(cal, os, decay, bias, ages - 1)
      + Weigh(Power(decay, ages - 1), PositionSum(cal, o, bias, ObservedPositions(o)))
  }

  function Spreads(cal: Calibration, os: seq<Observation>, decay: real, bias: real, ages: nat): real
    requires ages <= |os|
  {
    if ages == 0 then 0.0
    else
      var o := os[|os| - ages];
      Spreads(cal, os, decay, bias, ages - 1)
      + Weigh(Power(decay, ages - 1), SpreadSum(cal, o, bias, ObservedPositions(o)))
  }

  function Gradient(cal: Calibration, os: seq<Observation>, decay: real, prior: real, bias: real): real
  {
    Weigh(prior, bias) + Residuals(cal, os, decay, bias, |os|)
  }

  function Curvature(cal: Calibration, os: seq<Observation>, decay: real, prior: real, bias: real): real
  {
    prior + Spreads(cal, os, decay, bias, |os|)
  }

  lemma Distribute(w: real, a: real, b: real)
    ensures Weigh(w, a + b) == Weigh(w, a) + Weigh(w, b)
  {
  }

  /** The accepted drafts that the calibrated confidences of a proposal predict. */
  function Predicted(cal: Calibration, confidence: seq<real>, bias: real): real {
    if confidence == [] then 0.0
    else Predicted(cal, confidence[..|confidence| - 1], bias) + cal(confidence[|confidence| - 1], bias)
  }

  /** The variances of a proposal's outcomes, added up. */
  function Variances(cal: Calibration, confidence: seq<real>, bias: real): real {
    if confidence == [] then 0.0
    else
      var p := cal(confidence[|confidence| - 1], bias);
      Variances(cal, confidence[..|confidence| - 1], bias) + p * (1.0 - p) * (1.0 - p) + (1.0 - p) * p * p
  }

  lemma SpreadIsVariance(p: real)
    ensures Spread(p) == p * (1.0 - p) * (1.0 - p) + (1.0 - p) * p * p
  {}

  lemma {:induction false} PositionSumIs(cal: Calibration, o: Observation, bias: real, n: nat)
    requires n <= |o.confidence|
    ensures PositionSum(cal, o, bias, n)
            == Predicted(cal, o.confidence[..n], bias) - (if n <= o.accepted then n else o.accepted) as real
    ensures SpreadSum(cal, o, bias, n) == Variances(cal, o.confidence[..n], bias)
  {
    if n > 0 {
      PositionSumIs(cal, o, bias, n - 1);
      assert o.confidence[..n][..n - 1] == o.confidence[..n - 1];
      SpreadIsVariance(cal(o.confidence[n - 1], bias));
    }
  }

  /** One observation pulls by the acceptance that was predicted up to the first rejected draft, minus the acceptance
      that was seen. */
  lemma ObservationPull(cal: Calibration, o: Observation, bias: real)
    ensures PositionSum(cal, o, bias, ObservedPositions(o))
            == if o.accepted < |o.confidence|
               then Predicted(cal, o.confidence[..o.accepted + 1], bias) - o.accepted as real
               else Predicted(cal, o.confidence, bias) - |o.confidence| as real
    ensures SpreadSum(cal, o, bias, ObservedPositions(o))
            == if o.accepted < |o.confidence| then Variances(cal, o.confidence[..o.accepted + 1], bias)
               else Variances(cal, o.confidence, bias)
  {
    PositionSumIs(cal, o, bias, ObservedPositions(o));
    assert o.confidence[..|o.confidence|] == o.confidence;
  }

  /** One more accepted draft never raises the pull, at any bias. */
  lemma AcceptanceLowersPull(cal: Calibration, o: Observation, bias: real)
    requires Calibrating(cal) && o.accepted < |o.confidence|
    ensures var more := o.(accepted := o.accepted + 1);
            PositionSum(cal, more, bias, ObservedPositions(more)) < PositionSum(cal, o, bias, ObservedPositions(o))
  {
    var more := o.(accepted := o.accepted + 1);
    ObservationPull(cal, o, bias);
    ObservationPull(cal, more, bias);
    if more.accepted < |o.confidence| {
      assert o.confidence[..o.accepted + 2][..o.accepted + 1] == o.confidence[..o.accepted + 1];
      assert Rises(cal, o.confidence[o.accepted + 1], bias, bias);
    } else {
      assert o.confidence[..o.accepted + 1] == o.confidence;
    }
  }

  lemma Age(decay: real, ages: nat, amount: real)
    requires ages > 0
    ensures Weigh(Power(decay, ages), amount) == Weigh(decay, Weigh(Power(decay, ages - 1), amount))
  {}

  lemma {:induction false} OlderObservations(cal: Calibration, os: seq<Observation>, newest: Observation, decay: real,
                                             bias: real, ages: nat)
    requires ages <= |os|
    ensures Residuals(cal, os + [newest], decay, bias, ages + 1)
            == PositionSum(cal, newest, bias, ObservedPositions(newest))
               + Weigh(decay, Residuals(cal, os, decay, bias, ages))
    ensures Spreads(cal, os + [newest], decay, bias, ages + 1)
            == SpreadSum(cal, newest, bias, ObservedPositions(newest))
               + Weigh(decay, Spreads(cal, os, decay, bias, ages))
  {
    if ages > 0 {
      OlderObservations(cal, os, newest, decay, bias, ages - 1);
      var o := os[|os| - ages];
      assert (os + [newest])[|os + [newest]| - (ages + 1)] == o;
      var n := ObservedPositions(o);
      Age(decay, ages, PositionSum(cal, o, bias, n));
      Age(decay, ages, SpreadSum(cal, o, bias, n));
      Distribute(decay, Residuals(cal, os, decay, bias, ages - 1),
                 Weigh(Power(decay, ages - 1), PositionSum(cal, o, bias, n)));
      Distribute(decay, Spreads(cal, os, decay, bias, ages - 1),
                 Weigh(Power(decay, ages - 1), SpreadSum(cal, o, bias, n)));
    }
  }

  /** A newer observation counts in full and multiplies the weight of all earlier ones by the decay. */
  lemma ObservationAges(cal: Calibration, os: seq<Observation>, newest: Observation, decay: real, bias: real)
    ensures Residuals(cal, os + [newest], decay, bias, |os| + 1)
            == PositionSum(cal, newest, bias, ObservedPositions(newest)) + decay * Residuals(cal, os, decay, bias, |os|)
    ensures Spreads(cal, os + [newest], decay, bias, |os| + 1)
            == SpreadSum(cal, newest, bias, ObservedPositions(newest)) + decay * Spreads(cal, os, decay, bias, |os|)
  {
    OlderObservations(cal, os, newest, decay, bias, |os|);
  }

  /** Without observations the prior alone pulls the bias to zero; every observation adds its own pull. */
  lemma ObservationsAdd(cal: Calibration, os: seq<Observation>, decay: real, prior: real, bias: real)
    ensures Gradient(cal, [], decay, prior, bias) == prior * bias && Curvature(cal, [], decay, prior, bias) == prior
    ensures Gradient(cal, os, decay, prior, bias) - Gradient(cal, [], decay, prior, bias)
            == Residuals(cal, os, decay, bias, |os|)
    ensures Curvature(cal, os, decay, prior, bias) - Curvature(cal, [], decay, prior, bias)
            == Spreads(cal, os, decay, bias, |os|)
  {}

  /** The inner loop of `evaluate`: one observation at one weight. */
  method EvaluateObservation(cal: Calibration, o: Observation, bias: real, weight: real)
    returns (gradient: real, curvature: real)
    ensures gradient == Weigh(weight, PositionSum(cal, o, bias, ObservedPositions(o)))
    ensures curvature == Weigh(weight, SpreadSum(cal, o, bias, ObservedPositions(o)))
  {
    gradient, curvature := 0.0, 0.0;
    var position := 0;
    while position < ObservedPositions(o)
      invariant position <= ObservedPositions(o)
      invariant gradient == Weigh(weight, PositionSum(cal, o, bias, position))
      invariant curvature == Weigh(weight, SpreadSum(cal, o, bias, position))
    {
      var calibrated := cal(o.confidence[position], bias);
      var outcome := if position < o.accepted then 1.0 else 0.0;
      Distribute(weight, PositionSum(cal, o, bias, position), calibrated - outcome);
      Distribute(weight, SpreadSum(cal, o, bias, position), Spread(calibrated));
      gradient := gradient + Weigh(weight, calibrated - outcome);
      curvature := curvature + Weigh(weight, Spread(calibrated));
      position := position + 1;
    }
  }

  /** The nested function of the fit: newest observation first. */
  method Evaluate(cal: Calibration, os: seq<Observation>, decay: real, prior: real, bias: real)
    returns (gradient: real, curvature: real)
    ensures gradient == Gradient(cal, os, decay, prior, bias)
    ensures curvature == Curvature(cal, os, decay, prior, bias)
  {
    gradient, curvature := Weigh(prior, bias), prior;
    var age, weight := 0, 1.0;
    while age < |os|
      invariant age <= |os|
      invariant weight == Power(decay, age)
      invariant gradient == Weigh(prior, bias) + Residuals(cal, os, decay, bias, age)
      invariant curvature == prior + Spreads(cal, os, decay, bias, age)
    {
      var g, c := EvaluateObservation(cal, os[|os| - 1 - age], bias, weight);
      gradient, curvature := gradient + g, curvature + c;
      age, weight := age + 1, weight * decay;
    }
  }

  lemma {:induction false} PositionSumMonotone(cal: Calibration, o: Observation, low: real, high: real, n: nat)
    requires Calibrating(cal) && n <= |o.confidence| && low <= high
    ensures PositionSum(cal, o, low, n) <= PositionSum(cal, o, high, n)
    ensures SpreadSum(cal, o, low, n) >= 0.0
  {
    if n > 0 {
      PositionSumMonotone(cal, o, low, high, n - 1);
      assert Rises(cal, o.confidence[n - 1], low, high);
      assert Rises(cal, o.confidence[n - 1], low, low);
    }
  }

  lemma {:induction false} PowerPositive(base: real, exponent: nat)
    requires base > 0.0
    ensures Power(base, exponent) > 0.0
  {
    if exponent > 0 {
      PowerPositive(base, exponent - 1);
    }
  }

  lemma ScaleUp(w: real, a: real, b: real)
    requires w > 0.0 && a <= b
    ensures Weigh(w, a) <= Weigh(w, b)
  {
  }

  lemma WeightedMonotone(cal: Calibration, o: Observation, weight: real, low: real, high: real)
    requires Calibrating(cal) && weight > 0.0 && low <= high
    ensures Weigh(weight, PositionSum(cal, o, low, ObservedPositions(o)))
            <= Weigh(weight, PositionSum(cal, o, high, ObservedPositions(o)))
    ensures Weigh(weight, SpreadSum(cal, o, low, ObservedPositions(o))) >= 0.0
  {
    var n := ObservedPositions(o);
    PositionSumMonotone(cal, o, low, high, n);
    ScaleUp(weight, PositionSum(cal, o, low, n), PositionSum(cal, o, high, n));
    ScaleUp(weight, 0.0, SpreadSum(cal, o, low, n));
  }

  lemma {:induction false} ResidualsMonotone(cal: Calibration, os: seq<Observation>, decay: real,
                                             low: real, high: real, ages: nat)
    requires Calibrating(cal) && ages <= |os| && decay > 0.0 && low <= high
    ensures Residuals(cal, os, decay, low, ages) <= Residuals(cal, os, decay, high, ages)
    ensures Spreads(cal, os, decay, low, ages) >= 0.0
  {
    if ages > 0 {
      ResidualsMonotone(cal, os, decay, low, high, ages - 1);
      PowerPositive(decay, ages - 1);
      WeightedMonotone(cal, os[|os| - ages], Power(decay, ages - 1), low, high);
    }
  }

  /** Whatever was observed, the gradient climbs at least as steeply as the prior alone. */
  lemma GradientClimbs(cal: Calibration, os: seq<Observation>, decay: real, prior: real, low: real, high: real)
    requires Calibrating(cal) && decay > 0.0 && low <= high
    ensures Gradient(cal, os, decay, prior, high) - Gradient(cal, os, decay, prior, low) >= Weigh(prior, high - low)
    ensures Curvature(cal, os, decay, prior, low) >= prior
  {
    ResidualsMonotone(cal, os, decay, low, high, |os|);
    Distribute(prior, low, high - low);
  }

  lemma ScaleStrictly(w: real, a: real)
    requires w > 0.0 && a > 0.0
    ensures Weigh(w, a) > 0.0
  {
  }

  /** At most one bias zeroes the gradient. */
  lemma GradientStrict(cal: Calibration, os: seq<Observation>, decay: real, prior: real, low: real, high: real)
    requires Calibrating(cal) && decay > 0.0 && prior > 0.0 && low < high
    ensures Gradient(cal, os, decay, prior, low) < Gradient(cal, os, decay, prior, high)
  {
    GradientClimbs(cal, os, decay, prior, low, high);
    ScaleStrictly(prior, high - low);
  }

  function SurpriseSum(cal: Calibration, o: Observation, bias: real, n: nat): real
    requires n <= |o.confidence|
  {
    if n == 0 then 0.0
    else SurpriseSum(cal, o, bias, n - 1) + Abs(cal(o.confidence[n - 1], bias) - Outcome(o, n - 1))
  }

  /** The mean error of the newest observation under the previous bias. */
  function Surprise(cal: Calibration, os: seq<Observation>, previousBias: real): real {
    if os == [] || os[|os| - 1].confidence == [] then 0.0
    else
      var newest := os[|os| - 1];
      SurpriseSum(cal, newest, previousBias, ObservedPositions(newest)) / ObservedPositions(newest) as real
  }

  lemma {:induction false} SurpriseSumIs(cal: Calibration, o: Observation, bias: real, n: nat)
    requires Calibrating(cal) && n <= ObservedPositions(o)
    ensures SurpriseSum(cal, o, bias, n)
            == if n <= o.accepted then n as real - Predicted(cal, o.confidence[..n], bias)
               else o.accepted as real - Predicted(cal, o.confidence[..o.accepted], bias)
                    + cal(o.confidence[o.accepted], bias)
  {
    if n > 0 {
      SurpriseSumIs(cal, o, bias, n - 1);
      assert o.confidence[..n][..n - 1] == o.confidence[..n - 1];
      assert Rises(cal, o.confidence[n - 1], bias, bias);
    }
  }

  /** The surprise of the newest observation: for each accepted draft what its confidence lacked of one, for the first
      rejected one its confidence, on average. */
  lemma SurpriseIs(cal: Calibration, os: seq<Observation>, previousBias: real)
    requires Calibrating(cal)
    ensures os == [] ==> Surprise(cal, os, previousBias) == 0.0
    ensures os != [] && os[|os| - 1].confidence != [] ==>
              var o := os[|os| - 1];
              Surprise(cal, os, previousBias)
              == if o.accepted < |o.confidence|
                 then (o.accepted as real - Predicted(cal, o.confidence[..o.accepted], previousBias)
                       + cal(o.confidence[o.accepted], previousBias)) / (o.accepted + 1) as real
                 else (|o.confidence| as real - Predicted(cal, o.confidence, previousBias)) / |o.confidence| as real
  {
    if os != [] {
      var o := os[|os| - 1];
      SurpriseSumIs(cal, o, previousBias, ObservedPositions(o));
      assert o.confidence[..|o.confidence|] == o.confidence;
    }
  }

  lemma MeanBetween(total: real, n: real)
    requires 0.0 <= total <= n && n > 0.0
    ensures 0.0 <= total / n <= 1.0
  {
  }

  method NewestSurprise(cal: Calibration, os: seq<Observation>, previousBias: real) returns (surprise: real)
    requires Calibrating(cal)
    ensures surprise == Surprise(cal, os, previousBias)
    ensures 0.0 <= surprise <= 1.0
  {
    surprise := 0.0;
    if os != [] {
      var newest := os[|os| - 1];
      var total, position := 0.0, 0;
      while position < ObservedPositions(newest)
        invariant position <= ObservedPositions(newest)
        invariant total == SurpriseSum(cal, newest, previousBias, position)
        invariant 0.0 <= total <= position as real
      {
        var predicted := cal(newest.confidence[position], previousBias);
        var outcome := if position < newest.accepted then 1.0 else 0.0;
        assert Rises(cal, newest.confidence[position], previousBias, previousBias);
        total := total + Abs(predicted - outcome);
        position := position + 1;
      }
      if position > 0 {
        MeanBetween(total, position as real);
        surprise := total / position as real;
      }
    }
  }

  function RecencyDecay(surprise: real): (decay: real)
    requires 0.0 <= surprise <= 1.0
    ensures 0.70 <= decay <= 0.96
    ensures surprise == 0.0 ==> decay == 0.96
    ensures surprise == 1.0 ==> decay == 0.70
  {
    Clamp(0.96 - surprise * (0.96 - 0.70), 0.70, 0.96)
  }

  /** The decay falls linearly with the surprise. */
  lemma DecayFalls(less: real, more: real)
    requires 0.0 <= less <= more <= 1.0
    ensures RecencyDecay(less) - RecencyDecay(more) == 0.26 * (more - less)
  {}

  /** Half the width of the bracket after `halvings` steps. */
  function ErrorAfter(limit: real, halvings: nat): (error: real)
    requires limit >= 0.0
    ensures 0.0 <= error <= limit
  {
    if halvings == 0 then limit else 0.5 * ErrorAfter(limit, halvings - 1)
  }

  lemma TenHalvings(limit: real, n: nat)
    requires limit >= 0.0
    ensures ErrorAfter(limit, n + 10) == ErrorAfter(limit, n) / 1024.0
  {
    assert ErrorAfter(limit, n + 2) == 0.25 * ErrorAfter(limit, n);
    assert ErrorAfter(limit, n + 4) == 0.25 * ErrorAfter(limit, n + 2);
    assert ErrorAfter(limit, n + 6) == 0.25 * ErrorAfter(limit, n + 4);
    assert ErrorAfter(limit, n + 8) == 0.25 * ErrorAfter(limit, n + 6);
    assert ErrorAfter(limit, n + 10) == 0.25 * ErrorAfter(limit, n + 8);
  }

  /** Forty halvings reach the limit divided by two to the forty. */
  lemma ErrorAfterForty(limit: real)
    requires limit >= 0.0
    ensures ErrorAfter(limit, 10) == limit / 1024.0
    ensures ErrorAfter(limit, HALVINGS) == limit / 1099511627776.0
  {
    TenHalvings(limit, 0);
    TenHalvings(limit, 10);
    TenHalvings(limit, 20);
    TenHalvings(limit, 30);
  }

  const HALVINGS: nat := 40

  /** Inside the limits the gradient is negative beyond `error` below the bias and not negative beyond it above. */
  ghost predicate SignChangesWithin(cal: Calibration, os: seq<Observation>, decay: real, prior: real,
                                    limit: real, bias: real, error: real)
  {
    && -limit <= bias <= limit
    && (forall b | -limit <= b < bias - error :: Gradient(cal, os, decay, prior, b) < 0.0)
    && (forall b | bias + error < b <= limit :: Gradient(cal, os, decay, prior, b) > 0.0)
  }

  lemma BracketSigns(cal: Calibration, os: seq<Observation>, decay: real, prior: real, limit: real,
                     lower: real, upper: real, bias: real, error: real)
    requires Calibrating(cal) && decay > 0.0 && prior > 0.0
    requires -limit <= lower <= bias <= upper <= limit
    requires bias - lower <= error && upper - bias <= error
    requires Gradient(cal, os, decay, prior, lower) < 0.0 <= Gradient(cal, os, decay, prior, upper)
    ensures SignChangesWithin(cal, os, decay, prior, limit, bias, error)
  {
    forall b | -limit <= b < bias - error
      ensures Gradient(cal, os, decay, prior, b) < 0.0
    {
      GradientStrict(cal, os, decay, prior, b, lower);
    }
    forall b | bias + error < b <= limit
      ensures Gradient(cal, os, decay, prior, b) > 0.0
    {
      GradientStrict(cal, os, decay, prior, upper, b);
    }
  }

  /** The loop of the fit. */
  method Bisect(cal: Calibration, os: seq<Observation>, decay: real, prior: real, limit: real, halvings: nat)
    returns (bias: real)
    requires Calibrating(cal) && decay > 0.0 && prior > 0.0 && limit >= 0.0
    requires Gradient(cal, os, decay, prior, -limit) < 0.0 <= Gradient(cal, os, decay, prior, limit)
    ensures SignChangesWithin(cal, os, decay, prior, limit, bias, ErrorAfter(limit, halvings))
  {
    var lower, upper := -limit, limit;
    var step := 0;
    while step < halvings
      invariant step <= halvings
      invariant -limit <= lower <= upper <= limit
      invariant upper - lower == 2.0 * ErrorAfter(limit, step)
      invariant Gradient(cal, os, decay, prior, lower) < 0.0 <= Gradient(cal, os, decay, prior, upper)
    {
      var midpoint := 0.5 * (lower + upper);
      var gradient, _ := Evaluate(cal, os, decay, prior, midpoint);
      if gradient < 0.0 {
        lower := midpoint;
      } else {
        upper := midpoint;
      }
      step := step + 1;
    }
    bias := 0.5 * (lower + upper);
    BracketSigns(cal, os, decay, prior, limit, lower, upper, bias, ErrorAfter(limit, halvings));
  }

  lemma SaturatedSigns(cal: Calibration, os: seq<Observation>, decay: real, prior: real, limit: real)
    requires Calibrating(cal) && decay > 0.0 && prior > 0.0 && limit >= 0.0
    ensures Gradient(cal, os, decay, prior, -limit) >= 0.0 ==>
              SignChangesWithin(cal, os, decay, prior, limit, -limit, 0.0)
    ensures Gradient(cal, os, decay, prior, limit) <= 0.0 ==>
              SignChangesWithin(cal, os, decay, prior, limit, limit, 0.0)
  {
    if Gradient(cal, os, decay, prior, -limit) >= 0.0 {
      forall b | -limit < b <= limit
        ensures Gradient(cal, os, decay, prior, b) > 0.0
      {
        GradientStrict(cal, os, decay, prior, -limit, b);
      }
    }
    if Gradient(cal, os, decay, prior, limit) <= 0.0 {
      forall b | -limit <= b < limit
        ensures Gradient(cal, os, decay, prior, b) < 0.0
      {
        GradientStrict(cal, os, decay, prior, b, limit);
      }
    }
  }

  /** Any zero of the gradient, wherever it lies, is within the error once clamped to the limits. */
  lemma RootIsNear(cal: Calibration, os: seq<Observation>, decay: real, prior: real, limit: real,
                   bias: real, error: real, root: real)
    requires Calibrating(cal) && decay > 0.0 && prior > 0.0 && limit >= 0.0 && error >= 0.0
    requires SignChangesWithin(cal, os, decay, prior, limit, bias, error)
    requires Gradient(cal, os, decay, prior, root) == 0.0
    ensures Abs(bias - Clamp(root, -limit, limit)) <= error
  {
    if root < -limit {
      GradientStrict(cal, os, decay, prior, root, -limit);
    } else if root > limit {
      GradientStrict(cal, os, decay, prior, limit, root);
    }
  }

  /** Every observed proposal was accepted to its end. */
  predicate AllAccepted(os: seq<Observation>) {
    os != [] && forall o | o in os :: o.confidence != [] && o.accepted >= |o.confidence|
  }

  /** Of every observed proposal the first draft was rejected. */
  predicate NoneAccepted(os: seq<Observation>) {
    os != [] && forall o | o in os :: o.confidence != [] && o.accepted == 0
  }

  lemma {:induction false} PredictedBetween(cal: Calibration, confidence: seq<real>, bias: real)
    requires Calibrating(cal) && confidence != []
    ensures 0.0 < Predicted(cal, confidence, bias) < |confidence| as real
  {
    var n := |confidence| - 1;
    assert Rises(cal, confidence[n], bias, bias);
    if n > 0 {
      PredictedBetween(cal, confidence[..n], bias);
    } else {
      assert Predicted(cal, confidence[..n], bias) == 0.0;
    }
  }

  lemma {:induction false} ResidualSigns(cal: Calibration, os: seq<Observation>, decay: real, bias: real, ages: nat)
    requires Calibrating(cal) && decay > 0.0 && 0 < ages <= |os|
    ensures AllAccepted(os) ==> Residuals(cal, os, decay, bias, ages) < 0.0
    ensures NoneAccepted(os) ==> Residuals(cal, os, decay, bias, ages) > 0.0
  {
    var o := os[|os| - ages];
    if o.confidence != [] {
      ObservationPull(cal, o, bias);
      PredictedBetween(cal, o.confidence, bias);
      PredictedBetween(cal, o.confidence[..1], bias);
      PowerPositive(decay, ages - 1);
      var pull := PositionSum(cal, o, bias, ObservedPositions(o));
      if pull > 0.0 {
        ScaleStrictly(Power(decay, ages - 1), pull);
      } else if pull < 0.0 {
        ScaleStrictly(Power(decay, ages - 1), -pull);
        Distribute(Power(decay, ages - 1), pull, -pull);
      }
    }
    if ages > 1 {
      ResidualSigns(cal, os, decay, bias, ages - 1);
    }
  }

  /** Nothing but acceptance asks for a higher bias than none, nothing but rejection for a lower one. */
  lemma BiasDirection(cal: Calibration, os: seq<Observation>, decay: real, prior: real, limit: real, bias: real,
                      error: real)
    requires Calibrating(cal) && decay > 0.0 && prior > 0.0 && limit >= 0.0
    requires SignChangesWithin(cal, os, decay, prior, limit, bias, error)
    ensures AllAccepted(os) ==> Gradient(cal, os, decay, prior, 0.0) < 0.0 && bias >= -error
    ensures NoneAccepted(os) ==> Gradient(cal, os, decay, prior, 0.0) > 0.0 && bias <= error
  {
    if os != [] {
      ResidualSigns(cal, os, decay, 0.0, |os|);
    }
  }

  /** The fit: its error is the limit over two to the forty, and the variance never exceeds the prior's. */
  method FitCurrentScalarBias(cal: Calibration, os: seq<Observation>, previousBias: real, prior: real, limit: real)
    returns (fit: Fit, ghost decay: real)
    requires Calibrating(cal) && prior > 0.0 && limit >= 0.0
    ensures 0.0 <= Surprise(cal, os, previousBias) <= 1.0
    ensures decay == RecencyDecay(Surprise(cal, os, previousBias))
    ensures SignChangesWithin(cal, os, decay, prior, limit, fit.bias, ErrorAfter(limit, HALVINGS))
    ensures Curvature(cal, os, decay, prior, fit.bias) >= prior
    ensures fit.variance == 1.0 / Curvature(cal, os, decay, prior, fit.bias)
    ensures 0.0 < fit.variance <= 1.0 / prior
    ensures AllAccepted(os) ==>
              Gradient(cal, os, decay, prior, 0.0) < 0.0 && fit.bias >= -ErrorAfter(limit, HALVINGS)
    ensures NoneAccepted(os) ==>
              Gradient(cal, os, decay, prior, 0.0) > 0.0 && fit.bias <= ErrorAfter(limit, HALVINGS)
  {
    var surprise := NewestSurprise(cal, os, previousBias);
    var recencyDecay := RecencyDecay(surprise);
    decay := recencyDecay;
    var lowerGradient, _ := Evaluate(cal, os, recencyDecay, prior, -limit);
    var upperGradient, _ := Evaluate(cal, os, recencyDecay, prior, limit);
    var bias;
    SaturatedSigns(cal, os, decay, prior, limit);
    if lowerGradient >= 0.0 {
      bias := -limit;
    } else if upperGradient <= 0.0 {
      bias := limit;
    } else {
      bias := Bisect(cal, os, recencyDecay, prior, limit, HALVINGS);
    }
    if lowerGradient < 0.0 < upperGradient {
      BiasDirection(cal, os, decay, prior, limit, bias, ErrorAfter(limit, HALVINGS));
    } else {
      BiasDirection(cal, os, decay, prior, limit, bias, 0.0);
    }
    var _, curvature := Evaluate(cal, os, recencyDecay, prior, bias);
    GradientClimbs(cal, os, decay, prior, bias, bias);
    Inverses(prior, curvature);
    fit := Fit(bias, 1.0 / Max(curvature, prior));
  }}
