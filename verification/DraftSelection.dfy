/** Choosing the draft length: expected tokens per millisecond over all prefixes. */
module DraftSelection {

  const CYCLE_MS: seq<real> := [
    51.02, 79.05, 97.98, 108.90, 120.47, 131.21, 142.90, 149.43,
    159.10, 164.54, 173.30, 187.73, 203.16, 213.94, 218.58, 220.62]
  const CONTEXT_BUCKET: nat := 32 * 1024
  const CONTEXT_BUCKET_MS: real := 2.0

  function CycleMs(physicalM: nat, context: nat): (ms: real)
    requires 1 <= physicalM <= 16
    ensures ms > 0.0
  {
    CYCLE_MS[physicalM - 1] + (context / CONTEXT_BUCKET) as real * CONTEXT_BUCKET_MS
  }

  /** Inside the first bucket the context costs nothing, and every further bucket of 32768 tokens costs two
      milliseconds. */
  lemma ContextCost(physicalM: nat, context: nat)
    requires 1 <= physicalM <= 16
    ensures context < 32768 ==> CycleMs(physicalM, context) == CycleMs(physicalM, 0) == CYCLE_MS[physicalM - 1]
    ensures CycleMs(physicalM, context + 32768) == CycleMs(physicalM, context) + 2.0
  {
    var buckets := context / CONTEXT_BUCKET;
    assert (context + CONTEXT_BUCKET) / CONTEXT_BUCKET == buckets + 1;
    assert (buckets + 1) as real == buckets as real + 1.0;
  }

  /** More physical rows take longer, whatever the context. */
  lemma RowsCost(fewer: nat, more: nat, context: nat)
    requires 1 <= fewer < more <= 16
    ensures CycleMs(fewer, context) < CycleMs(more, context)
    decreases more - fewer
  {
    assert forall i | 0 <= i < 15 :: CYCLE_MS[i] < CYCLE_MS[i + 1];
    if fewer + 1 < more {
      RowsCost(fewer + 1, more, context);
    }
  }

  /** The probability that the first `drafts` proposals are all accepted. */
  function Survival(confidence: seq<real>, drafts: nat): real
    requires drafts <= |confidence|
  {
    if drafts == 0 then 1.0 else Survival(confidence, drafts - 1) * confidence[drafts - 1]
  }

  /** The running sum of the selection loop. */
  function ExpectedTokens(confidence: seq<real>, drafts: nat): real
    requires drafts <= |confidence|
  {
    if drafts == 0 then 1.0 else ExpectedTokens(confidence, drafts - 1) + Survival(confidence, drafts)
  }

  function Throughput(confidence: seq<real>, context: nat, drafts: nat): real
    requires drafts <= |confidence| <= 15
  {
    ExpectedTokens(confidence, drafts) * 1000.0 / CycleMs(drafts + 1, context)
  }

  /** Tokens per second: the tokens expected of a cycle in the time that the cycle takes. */
  lemma ThroughputIs(confidence: seq<real>, context: nat, drafts: nat)
    requires drafts <= |confidence| <= 15
    ensures Throughput(confidence, context, drafts) * (CycleMs(drafts + 1, context) / 1000.0)
            == ExpectedTokens(confidence, drafts)
  {
    var ms, tokens := CycleMs(drafts + 1, context), ExpectedTokens(confidence, drafts);
    assert tokens * 1000.0 / ms * ms == tokens * 1000.0;
    assert tokens * 1000.0 / ms * (ms / 1000.0) == tokens * 1000.0 / ms * ms / 1000.0;
  }

  /** No prefix is faster, and every shorter one is slower. */
  ghost predicate SmallestBest(confidence: seq<real>, context: nat, drafts: nat)
    requires |confidence| <= 15
  {
    && drafts <= |confidence|
    && (forall d: nat | d <= |confidence| ::
          Throughput(confidence, context, d) <= Throughput(confidence, context, drafts))
    && (forall d: nat | d < drafts :: Throughput(confidence, context, d) < Throughput(confidence, context, drafts))
  }

  datatype Selection = Drafts(count: nat) | PhysicalMOutOfRange

  /** A sixteenth draft would need the seventeenth physical row, which has no cycle time. */
  method SelectDrafts(confidence: seq<real>, context: nat, forceProbe: bool) returns (r: Selection, ghost best: nat)
    ensures r.PhysicalMOutOfRange? <==> |confidence| > 15
    ensures r.Drafts? ==> SmallestBest(confidence, context, best)
    ensures r.Drafts? ==> r.count == (if forceProbe && best == 0 && confidence != [] then 1 else best)
  {
    var bestDrafts, expected, survival := 0, 1.0, 1.0;
    var bestTps := 1000.0 / CycleMs(1, context);
    var drafts := 0;
    best := 0;
    while drafts < |confidence|
      invariant 0 <= bestDrafts <= drafts <= |confidence|
      invariant drafts <= 15
      invariant survival == Survival(confidence, drafts)
      invariant expected == ExpectedTokens(confidence, drafts)
      invariant |confidence| <= 15 ==> bestTps == Throughput(confidence, context, bestDrafts)
      invariant |confidence| <= 15 ==>
                  forall d: nat | d <= drafts :: Throughput(confidence, context, d) <= bestTps
      invariant |confidence| <= 15 ==>
                  forall d: nat | d < bestDrafts :: Throughput(confidence, context, d) < bestTps
    {
      drafts := drafts + 1;
      survival := survival * confidence[drafts - 1];
      expected := expected + survival;
      if drafts + 1 > 16 {
        return PhysicalMOutOfRange, best;
      }
      var candidate := expected * 1000.0 / CycleMs(drafts + 1, context);
      if candidate > bestTps {
        bestTps := candidate;
        bestDrafts := drafts;
      }
    }
    best := bestDrafts;
    if forceProbe && bestDrafts == 0 && confidence != [] {
      return Drafts(1), best;
    }
    r := Drafts(bestDrafts);
  }

  /** The probability that exactly `k` of `drafts` independent proposals are accepted in a row. */
  function AcceptedExactly(confidence: seq<real>, drafts: nat, k: nat): real
    requires k <= drafts <= |confidence|
  {
    if k == drafts then Survival(confidence, drafts) else Survival(confidence, k) * (1.0 - confidence[k])
  }

  function TotalProbability(confidence: seq<real>, drafts: nat, upTo: nat): real
    requires upTo <= drafts + 1 && drafts <= |confidence|
  {
    if upTo == 0 then 0.0
    else TotalProbability(confidence, drafts, upTo - 1) + AcceptedExactly(confidence, drafts, upTo - 1)
  }

  /** The mean of 1 + min(drafts, accepted), outcome by outcome. */
  function MeanEmitted(confidence: seq<real>, drafts: nat, upTo: nat): real
    requires upTo <= drafts + 1 && drafts <= |confidence|
  {
    if upTo == 0 then 0.0
    else MeanEmitted(confidence, drafts, upTo - 1) + upTo as real * AcceptedExactly(confidence, drafts, upTo - 1)
  }

  lemma {:induction false} PartialSums(confidence: seq<real>, drafts: nat, k: nat)
    requires k <= drafts <= |confidence|
    ensures TotalProbability(confidence, drafts, k) + Survival(confidence, k) == 1.0
    ensures MeanEmitted(confidence, drafts, k) + (k + 1) as real * Survival(confidence, k)
            == ExpectedTokens(confidence, k)
  {
    if k > 0 {
      PartialSums(confidence, drafts, k - 1);
      var before, c := Survival(confidence, k - 1), confidence[k - 1];
      assert AcceptedExactly(confidence, drafts, k - 1) == before * (1.0 - c) == before - before * c;
      var n := k as real;
      assert n * (before - before * c) == n * before - n * (before * c);
      assert (k + 1) as real * (before * c) == n * (before * c) + before * c;
    }
  }

  /** The tail-sum identity: the running sum is the true mean of a probability distribution. */
  lemma ExpectedTokensIsMean(confidence: seq<real>, drafts: nat)
    requires drafts <= |confidence|
    ensures TotalProbability(confidence, drafts, drafts + 1) == 1.0
    ensures MeanEmitted(confidence, drafts, drafts + 1) == ExpectedTokens(confidence, drafts)
  {
    PartialSums(confidence, drafts, drafts);
  }

  lemma ScaleDown(amount: real, factor: real)
    requires amount >= 0.0 && 0.0 <= factor <= 1.0
    ensures 0.0 <= amount * factor <= amount
  {
    assert amount * (1.0 - factor) == amount - amount * factor;
  }

  /** Confidences are probabilities, so every outcome has one too. */
  lemma {:induction false} OutcomesNonNegative(confidence: seq<real>, drafts: nat, k: nat)
    requires k <= drafts <= |confidence|
    requires forall i | 0 <= i < |confidence| :: 0.0 <= confidence[i] <= 1.0
    ensures 0.0 <= Survival(confidence, k) <= 1.0
    ensures AcceptedExactly(confidence, drafts, k) >= 0.0
  {
    if k > 0 {
      OutcomesNonNegative(confidence, drafts, k - 1);
      var before, c := Survival(confidence, k - 1), confidence[k - 1];
      ScaleDown(before, c);
    }
    if k < drafts {
      ScaleDown(Survival(confidence, k), 1.0 - confidence[k]);
    }
  }
}
