/** Shifting a confidence by a bias on its logit, with exp and log known by their laws alone. */
module LogitBias {

  function Max(a: real, b: real): real {
    if a < b then b else a
  }

  function Min(a: real, b: real): real {
    if a < b then a else b
  }

  function Abs(a: real): real {
    if a < 0.0 then -a else a
  }

  function Clamp(value: real, lower: real, upper: real): real {
    Min(Max(value, lower), upper)
  }

  type Positive = x: real | x > 0.0 witness 1.0

  datatype Elementary = Elementary(exp: real -> Positive, log: Positive -> real)

  function Times(a: Positive, b: Positive): Positive {
    a * b
  }

  predicate SumToProduct(e: Elementary, x: real, y: real) {
    e.exp(x + y) == Times(e.exp(x), e.exp(y))
  }

  predicate Increasing(e: Elementary, x: real, y: real) {
    x <= y ==> e.exp(x) <= e.exp(y)
  }

  predicate Inverse(e: Elementary, x: Positive) {
    e.exp(e.log(x)) == x
  }

  ghost predicate Exponential(e: Elementary) {
    && (forall x, y :: SumToProduct(e, x, y))
    && (forall x, y :: Increasing(e, x, y))
    && (forall x :: Inverse(e, x))
  }

  function Odds(raw: real): (odds: Positive) {
    var p := Clamp(raw, 0.000001, 0.999999);
    p / (1.0 - p)
  }

  function ApplyLogitBias(e: Elementary, raw: real, bias: real): real {
    var logit := e.log(Odds(raw)) + bias;
    if logit >= 0.0 then
      1.0 / (1.0 + e.exp(-logit))
    else
      e.exp(logit) / (1.0 + e.exp(logit))
  }

  function FromOdds(odds: Positive): real {
    odds / (1.0 + odds)
  }

  lemma Reciprocal(odds: Positive, inverse: Positive)
    requires Times(odds, inverse) == 1.0
    ensures 1.0 / (1.0 + inverse) == FromOdds(odds)
  {
    assert (1.0 + inverse) * odds == 1.0 + odds;
  }

  lemma Complement(odds: Positive)
    ensures FromOdds(odds) == 1.0 - 1.0 / (1.0 + odds)
    ensures FromOdds(odds) > 0.0
  {
    assert (1.0 + odds) * (1.0 / (1.0 + odds)) == 1.0;
  }

  lemma Inverses(low: Positive, high: Positive)
    requires low <= high
    ensures 0.0 < 1.0 / high <= 1.0 / low
  {
  }

  lemma FromOddsIncreases(a: Positive, b: Positive)
    requires a <= b
    ensures 0.0 < FromOdds(a) <= FromOdds(b) < 1.0
  {
    Complement(a);
    Complement(b);
    Inverses(1.0 + a, 1.0 + b);
  }

  lemma UnitFactor(a: Positive, b: Positive)
    requires a == Times(a, b)
    ensures b == 1.0
  {
    assert Times(a, b) / a == b;
    assert a / a == 1.0;
  }

  lemma ExpOfZero(e: Elementary, zero: real)
    requires Exponential(e) && zero == 0.0
    ensures e.exp(zero) == 1.0
  {
    assert SumToProduct(e, zero, zero);
    assert e.exp(zero + zero) == e.exp(zero);
    UnitFactor(e.exp(zero), e.exp(zero));
  }

  lemma ExpOfMinus(e: Elementary, x: real)
    requires Exponential(e)
    ensures Times(e.exp(x), e.exp(-x)) == 1.0
  {
    assert SumToProduct(e, x, -x);
    ExpOfZero(e, x + -x);
  }

  /** Both branches compute the same thing: the bias multiplies the odds by its exponential. */
  lemma BiasScalesOdds(e: Elementary, raw: real, bias: real)
    requires Exponential(e)
    ensures ApplyLogitBias(e, raw, bias) == FromOdds(Times(Odds(raw), e.exp(bias)))
  {
    var logit := e.log(Odds(raw)) + bias;
    assert Inverse(e, Odds(raw));
    assert SumToProduct(e, e.log(Odds(raw)), bias);
    assert e.exp(logit) == Times(Odds(raw), e.exp(bias));
    if logit >= 0.0 {
      ExpOfMinus(e, logit);
      Reciprocal(e.exp(logit), e.exp(-logit));
    }
  }

  lemma OddsOf(p: real)
    requires 0.0 < p < 1.0
    ensures p / (1.0 - p) > 0.0 && FromOdds(p / (1.0 - p)) == p
  {
    var odds := p / (1.0 - p);
    assert odds * (1.0 - p) == p;
    assert p * (1.0 + odds) == odds;
    assert p * (1.0 + odds) / (1.0 + odds) == p;
  }

  /** Without a bias a confidence is kept, up to the clamping. */
  lemma NoBiasKeeps(e: Elementary, raw: real)
    requires Exponential(e)
    ensures ApplyLogitBias(e, raw, 0.0)
            == if raw < 0.000001 then 0.000001 else if raw > 0.999999 then 0.999999 else raw
  {
    BiasScalesOdds(e, raw, 0.0);
    ExpOfZero(e, 0.0);
    var p := Clamp(raw, 0.000001, 0.999999);
    OddsOf(p);
    assert Times(Odds(raw), 1.0) == p / (1.0 - p);
  }

  lemma ScaledOdds(odds: Positive, low: Positive, high: Positive)
    requires low <= high
    ensures Times(odds, low) <= Times(odds, high)
  {
  }

  lemma ScaledIncreases(odds: Positive, low: Positive, high: Positive)
    requires low <= high
    ensures 0.0 < FromOdds(Times(odds, low)) <= FromOdds(Times(odds, high)) < 1.0
  {
    ScaledOdds(odds, low, high);
    FromOddsIncreases(Times(odds, low), Times(odds, high));
  }

  /** A calibrated confidence is a probability and grows with the bias. */
  lemma CalibrationMonotone(e: Elementary, raw: real, low: real, high: real)
    requires Exponential(e) && low <= high
    ensures 0.0 < ApplyLogitBias(e, raw, low) <= ApplyLogitBias(e, raw, high) < 1.0
  {
    BiasScalesOdds(e, raw, low);
    BiasScalesOdds(e, raw, high);
    assert Increasing(e, low, high);
    ScaledIncreases(Odds(raw), e.exp(low), e.exp(high));
  }

  /** All that the fit uses of a calibration. */
  predicate Rises(calibrate: (real, real) -> real, raw: real, low: real, high: real) {
    low <= high ==> 0.0 < calibrate(raw, low) <= calibrate(raw, high) < 1.0
  }

  ghost predicate Calibrating(calibrate: (real, real) -> real) {
    forall raw, low, high :: Rises(calibrate, raw, low, high)
  }

  function Biased(e: Elementary): (real, real) -> real {
    (raw, bias) => ApplyLogitBias(e, raw, bias)
  }

  lemma LogitBiasCalibrates(e: Elementary)
    requires Exponential(e)
    ensures Calibrating(Biased(e))
  {
    forall raw, low, high
      ensures Rises(Biased(e), raw, low, high)
    {
      if low <= high {
        CalibrationMonotone(e, raw, low, high);
      }
    }
  }
}
