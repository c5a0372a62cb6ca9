/** Replaying a draft policy over recorded target frontiers. */
module PolicyReplay {
  import opened ContiguousRuns
  import opened DraftSelection

  type Token = int

  datatype Resolution = FullMatch | Mismatch | RequestEnd

  datatype TraceRecord = TraceRecord(
    originContext: nat, proposal: seq<Token>, confidence: seq<real>, accepted: nat, resolution: Resolution)

  /** The checks of `parse_trace_object` that the replay relies on. */
  predicate Parsed(r: TraceRecord) {
    r.proposal != [] && |r.proposal| == |r.confidence| && r.accepted <= |r.proposal|
  }

  /** How many leading proposals agree with what the target emits from `context` on. */
  function MatchLength(proposal: seq<Token>, target: nat -> Token, context: nat): (n: nat)
    ensures n <= |proposal|
    ensures forall i | 0 <= i < n :: proposal[i] == target(context + i)
    ensures n < |proposal| ==> proposal[n] != target(context + n)
  {
    if proposal == [] || proposal[0] != target(context) then 0
    else 1 + MatchLength(proposal[1..], target, context + 1)
  }

  /** A recorded cycle that is not cut short by the end of its request reports its true match. */
  predicate Truthful(r: TraceRecord, target: nat -> Token) {
    !r.resolution.RequestEnd? ==> r.accepted == MatchLength(r.proposal, target, r.originContext)
  }

  /** Verifying only the first `drafts` proposals accepts the smaller of the two counts. */
  lemma MatchOfPrefix(proposal: seq<Token>, target: nat -> Token, context: nat, drafts: nat)
    requires drafts <= |proposal|
    ensures var full := MatchLength(proposal, target, context);
            MatchLength(proposal[..drafts], target, context) == if drafts < full then drafts else full
  {
    var full, cut := MatchLength(proposal, target, context), MatchLength(proposal[..drafts], target, context);
    if cut < drafts {
      assert proposal[..drafts][cut] == proposal[cut];
    }
  }

  /** The tokens the target emits from `context` on. */
  function Segment(target: nat -> Token, context: nat, length: nat): (s: seq<Token>)
    ensures |s| == length
  {
    seq(length, i requires 0 <= i < length => target(context + i))
  }

  lemma SegmentsJoin(target: nat -> Token, context: nat, a: nat, b: nat)
    ensures Segment(target, context, a) + Segment(target, context + a, b) == Segment(target, context, a + b)
  {}

  /** A policy is any state machine with the five operations of the base class. */
  datatype Policy<!S> = Policy(
    prepare: (S, nat) -> S,
    adjusted: (S, seq<real>) -> seq<real>,
    forceProbe: S -> bool,
    recordSelection: (S, nat) -> S,
    observe: (S, seq<real>, nat) -> S)

  /** Every policy returns one adjusted value per confidence. */
  predicate Adjusts<S>(policy: Policy<S>, s: S, confidence: seq<real>) {
    |policy.adjusted(s, confidence)| == |confidence|
  }

  ghost predicate Adjusting<S(!new)>(policy: Policy<S>) {
    forall s, confidence :: Adjusts(policy, s, confidence)
  }

  /** One decision of a run. */
  datatype Cycle = Cycle(context: nat, adjusted: seq<real>, probe: bool, best: nat, drafts: nat, accepted: nat,
                         tokens: seq<Token>)

  function Frontier(c: Cycle): nat {
    c.context + 1 + c.accepted
  }

  /** The target accepted what it should of the drafts at a recorded frontier, and added its own token. */
  predicate Verified(c: Cycle, byContext: map<nat, TraceRecord>, target: nat -> Token) {
    && c.context in byContext && c.drafts <= |byContext[c.context].proposal|
    && c.accepted == MatchLength(byContext[c.context].proposal[..c.drafts], target, c.context)
    && c.tokens == byContext[c.context].proposal[..c.accepted] + [target(c.context + c.accepted)]
  }

  /** The tokens of a verified cycle are the target's own. */
  predicate EmitsTarget(c: Cycle, target: nat -> Token) {
    c.tokens == Segment(target, c.context, 1 + c.accepted)
  }

  lemma VerifiedEmitsTarget(c: Cycle, byContext: map<nat, TraceRecord>, target: nat -> Token)
    requires Verified(c, byContext, target)
    ensures EmitsTarget(c, target)
  {
    var proposal := byContext[c.context].proposal;
    forall i | 0 <= i < c.accepted ensures proposal[i] == target(c.context + i) {
      assert proposal[..c.drafts][i] == proposal[i];
    }
  }

  /** A decision taken at a recorded frontier: drafts as the selection rule says, acceptance as the target says. */
  ghost predicate Decided(c: Cycle, byContext: map<nat, TraceRecord>, target: nat -> Token, maxDrafts: nat) {
    && c.context in byContext && !byContext[c.context].resolution.RequestEnd?
    && |c.adjusted| <= maxDrafts <= 15 && |c.adjusted| <= |byContext[c.context].proposal|
    && SmallestBest(c.adjusted, c.context, c.best)
    && c.drafts == (if c.probe && c.best == 0 && c.adjusted != [] then 1 else c.best)
    && c.drafts <= |c.adjusted|
    && Verified(c, byContext, target)
  }

  /** A Python slice of the first `n` items. */
  function First<T>(xs: seq<T>, n: nat): (r: seq<T>)
    ensures r <= xs && |r| == if n < |xs| then n else |xs|
  {
    if n < |xs| then xs[..n] else xs
  }

  /** The policy's state behind a decision: prepared for its context, told its drafts and, if there were any, what
      became of them. */
  function Advance<S>(policy: Policy<S>, state: S, r: TraceRecord, drafts: nat, accepted: nat): S {
    var selected := policy.recordSelection(policy.prepare(state, r.originContext), drafts);
    if drafts > 0 then policy.observe(selected, First(r.confidence, drafts), accepted) else selected
  }

  /** One call that changes a policy. */
  datatype Call = Prepared(context: nat) | Selected(drafts: nat) | Observed(confidence: seq<real>, accepted: nat)

  /** The policy that remembers its calls and changes nothing. */
  function Recorder(): Policy<seq<Call>> {
    Policy((calls: seq<Call>, context: nat) => calls + [Prepared(context)],
           (calls: seq<Call>, confidence: seq<real>) => confidence,
           (calls: seq<Call>) => false,
           (calls: seq<Call>, drafts: nat) => calls + [Selected(drafts)],
           (calls: seq<Call>, confidence: seq<real>, accepted: nat) => calls + [Observed(confidence, accepted)])
  }

  /** A decision prepares the policy for its context, then tells it the drafts, then, if there were any, what became of
      them. */
  lemma CallsOfDecision(calls: seq<Call>, r: TraceRecord, drafts: nat, accepted: nat)
    requires drafts <= |r.confidence|
    ensures Advance(Recorder(), calls, r, drafts, accepted)
            == calls + if drafts == 0 then [Prepared(r.originContext), Selected(0)]
                       else [Prepared(r.originContext), Selected(drafts), Observed(r.confidence[..drafts], accepted)]
  {
    var p, s, o := Prepared(r.originContext), Selected(drafts), Observed(r.confidence[..drafts], accepted);
    assert First(r.confidence, drafts) == r.confidence[..drafts];
    assert calls + [p] + [s] == calls + [p, s];
    assert calls + [p, s] + [o] == calls + [p, s, o];
  }

  /** The decision is based on what the policy, in this state, makes of the recorded confidences. */
  predicate ByPolicy<S>(policy: Policy<S>, state: S, c: Cycle, r: TraceRecord, maxDrafts: nat) {
    var prepared := policy.prepare(state, r.originContext);
    && c.adjusted == First(policy.adjusted(prepared, r.confidence), maxDrafts)
    && c.probe == policy.forceProbe(prepared)
  }

  predicate Located(log: seq<Cycle>, byContext: map<nat, TraceRecord>) {
    forall i | 0 <= i < |log| :: log[i].context in byContext
  }

  /** The policy's state behind all these decisions. */
  function StateAfter<S>(policy: Policy<S>, initial: S, log: seq<Cycle>, byContext: map<nat, TraceRecord>): S
    requires Located(log, byContext)
  {
    if log == [] then initial
    else
      var before, c := StateAfter(policy, initial, log[..|log| - 1], byContext), log[|log| - 1];
      Advance(policy, before, byContext[c.context], c.drafts, c.accepted)
  }

  /** Every decision is the policy's own, in the state that the decisions before it led to. */
  ghost predicate Follows<S>(policy: Policy<S>, initial: S, log: seq<Cycle>, byContext: map<nat, TraceRecord>,
                             maxDrafts: nat)
  {
    && Located(log, byContext)
    && forall i | 0 <= i < |log| ::
         ByPolicy(policy, StateAfter(policy, initial, log[..i], byContext), log[i], byContext[log[i].context],
                  maxDrafts)
  }

  /** And they led to this state. */
  ghost predicate Reaches<S>(policy: Policy<S>, initial: S, log: seq<Cycle>, byContext: map<nat, TraceRecord>,
                             maxDrafts: nat, state: S)
  {
    Follows(policy, initial, log, byContext, maxDrafts) && state == StateAfter(policy, initial, log, byContext)
  }

  lemma ReachesOn<S>(policy: Policy<S>, initial: S, log: seq<Cycle>, c: Cycle, byContext: map<nat, TraceRecord>,
                     maxDrafts: nat, state: S)
    requires Reaches(policy, initial, log, byContext, maxDrafts, state) && c.context in byContext
    requires ByPolicy(policy, state, c, byContext[c.context], maxDrafts)
    ensures Reaches(policy, initial, log + [c], byContext, maxDrafts,
                    Advance(policy, state, byContext[c.context], c.drafts, c.accepted))
  {
    hide Advance;
    var longer := log + [c];
    assert longer[..|log|] == log;
    forall i | 0 <= i < |longer|
      ensures ByPolicy(policy, StateAfter(policy, initial, longer[..i], byContext), longer[i],
                       byContext[longer[i].context], maxDrafts)
    {
      if i < |log| {
        assert longer[..i] == log[..i];
      }
    }
  }

  /** Each decision is taken where the one before it stopped. */
  predicate Linked(log: seq<Cycle>, start: nat) {
    && (log != [] ==> log[0].context == start)
    && (forall i | 0 < i < |log| :: log[i].context == Frontier(log[i - 1]))
  }

  ghost predicate Chained(log: seq<Cycle>, start: nat, byContext: map<nat, TraceRecord>, target: nat -> Token,
                          maxDrafts: nat) {
    Linked(log, start) && forall i | 0 <= i < |log| :: Decided(log[i], byContext, target, maxDrafts)
  }

  lemma SmallestBestUnique(confidence: seq<real>, context: nat, d: nat, e: nat)
    requires |confidence| <= 15
    requires SmallestBest(confidence, context, d) && SmallestBest(confidence, context, e)
    ensures d == e
  {
    hide Throughput;
    var first, second := Throughput(confidence, context, d), Throughput(confidence, context, e);
  }

  lemma SameDecision<S>(policy: Policy<S>, state: S, p: Cycle, q: Cycle, byContext: map<nat, TraceRecord>,
                        target: nat -> Token, maxDrafts: nat)
    requires Decided(p, byContext, target, maxDrafts) && Decided(q, byContext, target, maxDrafts)
    requires p.context == q.context
    requires ByPolicy(policy, state, p, byContext[p.context], maxDrafts)
    requires ByPolicy(policy, state, q, byContext[q.context], maxDrafts)
    ensures p == q
  {
    SmallestBestUnique(p.adjusted, p.context, p.best, q.best);
  }

  /** The policy, its initial state and the records determine every decision of a run. */
  lemma {:induction false} ReplayDetermined<S>(policy: Policy<S>, initial: S, a: seq<Cycle>, b: seq<Cycle>, start: nat,
                                               byContext: map<nat, TraceRecord>, target: nat -> Token,
                                               maxDrafts: nat, n: nat)
    requires Chained(a, start, byContext, target, maxDrafts) && Follows(policy, initial, a, byContext, maxDrafts)
    requires Chained(b, start, byContext, target, maxDrafts) && Follows(policy, initial, b, byContext, maxDrafts)
    requires n <= |a| && n <= |b|
    ensures a[..n] == b[..n]
  {
    hide ByPolicy, StateAfter, Decided;
    if n > 0 {
      ReplayDetermined(policy, initial, a, b, start, byContext, target, maxDrafts, n - 1);
      var p, q := a[n - 1], b[n - 1];
      assert n > 1 ==> a[..n - 1][n - 2] == b[..n - 1][n - 2];
      assert p.context == q.context;
      SameDecision(policy, StateAfter(policy, initial, a[..n - 1], byContext), p, q, byContext, target, maxDrafts);
      assert a[..n] == a[..n - 1] + [p] && b[..n] == b[..n - 1] + [q];
    }
  }

  function FinalContext(log: seq<Cycle>, start: nat): nat {
    if log == [] then start else Frontier(log[|log| - 1])
  }

  function DraftTotal(log: seq<Cycle>): nat {
    if log == [] then 0 else DraftTotal(log[..|log| - 1]) + log[|log| - 1].drafts
  }

  function AcceptedTotal(log: seq<Cycle>): nat {
    if log == [] then 0 else AcceptedTotal(log[..|log| - 1]) + log[|log| - 1].accepted
  }

  function PredictedMs(log: seq<Cycle>): real
    requires forall i | 0 <= i < |log| :: log[i].drafts <= 15
  {
    if log == [] then 0.0
    else PredictedMs(log[..|log| - 1]) + CycleMs(log[|log| - 1].drafts + 1, log[|log| - 1].context)
  }

  /** What a log drafts, accepts and costs is added up decision by decision. */
  lemma {:induction false} TotalsAdd(log: seq<Cycle>, more: seq<Cycle>)
    requires forall i | 0 <= i < |log| :: log[i].drafts <= 15
    requires forall i | 0 <= i < |more| :: more[i].drafts <= 15
    ensures forall i | 0 <= i < |log + more| :: (log + more)[i].drafts <= 15
    ensures DraftTotal(log + more) == DraftTotal(log) + DraftTotal(more)
    ensures AcceptedTotal(log + more) == AcceptedTotal(log) + AcceptedTotal(more)
    ensures PredictedMs(log + more) == PredictedMs(log) + PredictedMs(more)
    ensures forall c: Cycle :: DraftTotal([c]) == c.drafts && AcceptedTotal([c]) == c.accepted
    ensures forall c: Cycle | c.drafts <= 15 :: PredictedMs([c]) == CycleMs(c.drafts + 1, c.context)
  {
    hide CycleMs;
    if more == [] {
      assert log + more == log;
    } else {
      TotalsAdd(log, more[..|more| - 1]);
      assert (log + more)[..|log + more| - 1] == log + more[..|more| - 1];
    }
  }

  /** The tokens of a whole run, cycle by cycle. */
  function RunTokens(log: seq<Cycle>): seq<Token> {
    if log == [] then [] else RunTokens(log[..|log| - 1]) + log[|log| - 1].tokens
  }

  /** Keys are the contexts of their records. */
  predicate Keyed(byContext: map<nat, TraceRecord>) {
    forall c | c in byContext :: byContext[c].originContext == c && Parsed(byContext[c])
  }

  /** Whatever the policy decided, the run emits a contiguous stretch of the target stream. */
  lemma {:induction false} RunEmitsTarget(log: seq<Cycle>, start: nat, target: nat -> Token)
    requires Linked(log, start)
    requires forall i | 0 <= i < |log| :: EmitsTarget(log[i], target)
    ensures FinalContext(log, start) == start + |log| + AcceptedTotal(log)
    ensures RunTokens(log) == Segment(target, start, |log| + AcceptedTotal(log))
  {
    if log != [] {
      var before, c := log[..|log| - 1], log[|log| - 1];
      RunEmitsTarget(before, start, target);
      assert EmitsTarget(c, target);
      assert c.context == FinalContext(before, start);
      SegmentsJoin(target, start, |before| + AcceptedTotal(before), 1 + c.accepted);
    }
  }

  function Bump(counts: map<nat, nat>, m: nat): map<nat, nat> {
    counts[m := (if m in counts then counts[m] else 0) + 1]
  }

  /** Counts by physical row, the drafts of a cycle plus one. */
  function Histogram(log: seq<Cycle>): (counts: map<nat, nat>) {
    if log == [] then map[]
    else Bump(Histogram(log[..|log| - 1]), log[|log| - 1].drafts + 1)
  }

  function Count(counts: map<nat, nat>, m: nat): nat {
    if m in counts then counts[m] else 0
  }

  function Total(counts: map<nat, nat>, rows: nat): nat {
    if rows == 0 then 0 else Total(counts, rows - 1) + Count(counts, rows)
  }

  /** A physical row count includes the row of the target's own token. */
  function RowDrafts(row: nat, count: nat): nat
    requires row > 0
  {
    (row - 1) * count
  }

  function Weighted(counts: map<nat, nat>, rows: nat): nat {
    if rows == 0 then 0 else Weighted(counts, rows - 1) + RowDrafts(rows, Count(counts, rows))
  }

  lemma OneMoreRow(row: nat, count: nat)
    requires row > 0
    ensures RowDrafts(row, count + 1) == RowDrafts(row, count) + (row - 1)
  {}

  lemma {:induction false} BumpTotals(counts: map<nat, nat>, m: nat, rows: nat)
    requires m >= 1
    ensures Total(Bump(counts, m), rows) == Total(counts, rows) + if m <= rows then 1 else 0
    ensures Weighted(Bump(counts, m), rows) == Weighted(counts, rows) + if m <= rows then m - 1 else 0
  {
    if rows > 0 {
      BumpTotals(counts, m, rows - 1);
      OneMoreRow(rows, Count(counts, rows));
    }
  }

  lemma {:induction false} EmptyTotals(rows: nat)
    ensures Total(map[], rows) == Weighted(map[], rows) == 0
  {
    if rows > 0 {
      EmptyTotals(rows - 1);
      assert Count(map[], rows) == 0;
    }
  }

  /** The histogram counts every decision once and weighs to the drafted tokens. */
  lemma {:induction false} HistogramConserves(log: seq<Cycle>)
    requires forall i | 0 <= i < |log| :: log[i].drafts < |CYCLE_MS|
    ensures Total(Histogram(log), |CYCLE_MS|) == |log|
    ensures Weighted(Histogram(log), |CYCLE_MS|) == DraftTotal(log)
  {
    if log == [] {
      EmptyTotals(|CYCLE_MS|);
    } else {
      HistogramConserves(log[..|log| - 1]);
      BumpTotals(Histogram(log[..|log| - 1]), log[|log| - 1].drafts + 1, |CYCLE_MS|);
    }
  }

  /** The decisions that used this many physical rows. */
  function WithRows(log: seq<Cycle>, m: nat): set<nat> {
    set i: nat | i < |log| && log[i].drafts + 1 == m
  }

  /** The histogram counts, for every number of physical rows, the decisions that used as many. */
  lemma {:induction false} HistogramCounts(log: seq<Cycle>, m: nat)
    ensures Count(Histogram(log), m) == |WithRows(log, m)|
  {
    if log == [] {
      assert WithRows(log, m) == {};
    } else {
      var last := |log| - 1;
      HistogramCounts(log[..last], m);
      assert WithRows(log, m) == WithRows(log[..last], m) + if log[last].drafts + 1 == m then {last} else {};
    }
  }

  datatype Summary = Summary(
    decisions: nat, emitted: nat, draftTokens: nat, acceptedTokens: nat, predictedMs: real,
    censored: nat, missing: int, physicalM: map<nat, nat>)

  /** The counters of a run are those of its log. */
  predicate Tallies(s: Summary, log: seq<Cycle>)
    requires forall i | 0 <= i < |log| :: log[i].drafts <= 15
  {
    && s.decisions == |log|
    && s.emitted == |log| + AcceptedTotal(log)
    && s.draftTokens == DraftTotal(log)
    && s.acceptedTokens == AcceptedTotal(log)
    && s.predictedMs == PredictedMs(log)
    && s.physicalM == Histogram(log)
  }

  /** A run stops behind the last recorded frontier or at the record that ends the request. */
  predicate Finished(context: nat, run: Run, byContext: map<nat, TraceRecord>, s: Summary) {
    if context >= run.first + run.length then s.censored == 0
    else Within(context, run) && context in byContext && byContext[context].resolution.RequestEnd? && s.censored == 1
  }

  function Contexts(records: seq<TraceRecord>): seq<nat> {
    seq(|records|, i requires 0 <= i < |records| => records[i].originContext)
  }

  /** The records of the chosen run, by context. */
  method ByContext(records: seq<TraceRecord>, run: Run, ghost target: nat -> Token)
    returns (byContext: map<nat, TraceRecord>)
    requires forall r | r in records :: Parsed(r) && Truthful(r, target)
    requires Recorded(run, Contexts(records))
    ensures Keyed(byContext)
    ensures forall c :: c in byContext <==> Within(c, run)
    ensures forall c | c in byContext :: byContext[c] in records && Truthful(byContext[c], target)
  {
    byContext := map[];
    var i := 0;
    while i < |records|
      invariant i <= |records|
      invariant Keyed(byContext)
      invariant forall c | c in byContext :: Within(c, run) && byContext[c] in records && Truthful(byContext[c], target)
      invariant forall j | 0 <= j < i && Within(records[j].originContext, run) :: records[j].originContext in byContext
    {
      var r := records[i];
      assert r in records;
      if Within(r.originContext, run) {
        byContext := byContext[r.originContext := r];
      }
      i := i + 1;
    }
    forall c: nat | Within(c, run) ensures c in byContext {
      assert c in Contexts(records);
      var j :| 0 <= j < |records| && Contexts(records)[j] == c;
      assert records[j].originContext == c;
    }
  }

  /** Taking the smaller of the drafts and the recorded acceptance is verifying the drafts. */
  lemma TruthfulVerifies(c: Cycle, r: TraceRecord, target: nat -> Token)
    requires Parsed(r) && Truthful(r, target) && !r.resolution.RequestEnd?
    requires c.context == r.originContext && c.drafts <= |r.proposal|
    requires c.accepted == if c.drafts < r.accepted then c.drafts else r.accepted
    requires c.tokens == r.proposal[..c.accepted] + [target(c.context + c.accepted)]
    ensures Verified(c, map[r.originContext := r], target)
  {
    MatchOfPrefix(r.proposal, target, r.originContext, c.drafts);
  }

  /** One decision of the loop body: prepare, adjust, cut, select. */
  method Decide<S(!new)>(policy: Policy<S>, state: S, r: TraceRecord, maxDrafts: nat, ghost target: nat -> Token)
    returns (next: S, drafts: nat, accepted: nat, ghost cycle: Cycle)
    requires Adjusting(policy) && 1 <= maxDrafts <= 15
    requires Parsed(r) && Truthful(r, target) && !r.resolution.RequestEnd?
    ensures Decided(cycle, map[r.originContext := r], target, maxDrafts)
    ensures cycle.context == r.originContext && cycle.drafts == drafts && cycle.accepted == accepted
    ensures ByPolicy(policy, state, cycle, r, maxDrafts) && next == Advance(policy, state, r, drafts, accepted)
  {
    hide Throughput, MatchLength;
    var prepared := policy.prepare(state, r.originContext);
    assert Adjusts(policy, prepared, r.confidence);
    var all := policy.adjusted(prepared, r.confidence);
    var adjusted := if maxDrafts < |all| then all[..maxDrafts] else all;
    var probe := policy.forceProbe(prepared);
    var selection, best := SelectDrafts(adjusted, r.originContext, probe);
    drafts := selection.count;
    accepted := if drafts < r.accepted then drafts else r.accepted;
    next := policy.recordSelection(prepared, drafts);
    if drafts > 0 {
      next := policy.observe(next, r.confidence[..drafts], accepted);
    }
    cycle := Cycle(r.originContext, adjusted, probe, best, drafts, accepted,
                   r.proposal[..accepted] + [target(r.originContext + accepted)]);
    TruthfulVerifies(cycle, r, target);
    assert First(r.confidence, drafts) == r.confidence[..drafts];
  }

  /** Add one decision to the counters. */
  function Tally(s: Summary, context: nat, drafts: nat, accepted: nat): Summary
    requires drafts <= 15
  {
    Summary(s.decisions + 1, s.emitted + 1 + accepted, s.draftTokens + drafts, s.acceptedTokens + accepted,
            s.predictedMs + CycleMs(drafts + 1, context), s.censored, s.missing, Bump(s.physicalM, drafts + 1))
  }

  /** What the loop knows of the decisions so far. */
  ghost predicate Logged(log: seq<Cycle>, start: nat, byContext: map<nat, TraceRecord>, target: nat -> Token,
                         maxDrafts: nat, s: Summary) {
    && Chained(log, start, byContext, target, maxDrafts)
    && (forall i | 0 <= i < |log| :: log[i].drafts <= 15)
    && Tallies(s, log)
  }

  lemma ChainExtends(log: seq<Cycle>, c: Cycle, start: nat, byContext: map<nat, TraceRecord>, target: nat -> Token,
                     maxDrafts: nat)
    requires Chained(log, start, byContext, target, maxDrafts)
    requires c.context == FinalContext(log, start) && Decided(c, byContext, target, maxDrafts)
    ensures Chained(log + [c], start, byContext, target, maxDrafts)
    ensures FinalContext(log + [c], start) == Frontier(c)
  {
    hide Decided;
  }

  lemma TalliesExtend(s: Summary, log: seq<Cycle>, c: Cycle)
    requires c.drafts <= 15 && forall i | 0 <= i < |log| :: log[i].drafts <= 15
    requires Tallies(s, log)
    ensures forall i | 0 <= i < |log + [c]| :: (log + [c])[i].drafts <= 15
    ensures Tallies(Tally(s, c.context, c.drafts, c.accepted), log + [c])
  {
    hide CycleMs, Bump;
    assert (log + [c])[..|log|] == log;
  }

  lemma DecidedAmong(c: Cycle, byContext: map<nat, TraceRecord>, target: nat -> Token, maxDrafts: nat)
    requires c.context in byContext
    requires Decided(c, map[c.context := byContext[c.context]], target, maxDrafts)
    ensures Decided(c, byContext, target, maxDrafts) && c.drafts <= 15
  {
    hide SmallestBest, MatchLength;
  }

  lemma Append(log: seq<Cycle>, c: Cycle, start: nat, byContext: map<nat, TraceRecord>, target: nat -> Token,
               maxDrafts: nat, s: Summary)
    requires Logged(log, start, byContext, target, maxDrafts, s)
    requires c.context in byContext && c.context == FinalContext(log, start)
    requires Decided(c, map[c.context := byContext[c.context]], target, maxDrafts)
    ensures c.drafts <= 15
    ensures Logged(log + [c], start, byContext, target, maxDrafts, Tally(s, c.context, c.drafts, c.accepted))
    ensures FinalContext(log + [c], start) == Frontier(c)
  {
    hide Decided, Chained, Tallies, Tally, FinalContext;
    DecidedAmong(c, byContext, target, maxDrafts);
    ChainExtends(log, c, start, byContext, target, maxDrafts);
    TalliesExtend(s, log, c);
  }

  lemma NothingLogged<S>(policy: Policy<S>, initial: S, start: nat, byContext: map<nat, TraceRecord>,
                         target: nat -> Token, maxDrafts: nat)
    ensures Logged([], start, byContext, target, maxDrafts, Summary(0, 0, 0, 0, 0.0, 0, 0, map[]))
    ensures Reaches(policy, initial, [], byContext, maxDrafts, initial)
  {}

  lemma ChainEmitsTarget(log: seq<Cycle>, start: nat, byContext: map<nat, TraceRecord>, target: nat -> Token,
                         maxDrafts: nat)
    requires Chained(log, start, byContext, target, maxDrafts)
    ensures FinalContext(log, start) == start + |log| + AcceptedTotal(log)
    ensures RunTokens(log) == Segment(target, start, |log| + AcceptedTotal(log))
  {
    forall i | 0 <= i < |log| ensures EmitsTarget(log[i], target) {
      assert Decided(log[i], byContext, target, maxDrafts);
      VerifiedEmitsTarget(log[i], byContext, target);
    }
    RunEmitsTarget(log, start, target);
  }

  /** The counters describe one contiguous stretch of the target stream, and the histogram accounts for
      every decision and every draft. */
  predicate Faithful(s: Summary, log: seq<Cycle>, run: Run, target: nat -> Token) {
    && RunTokens(log) == Segment(target, run.first, s.emitted)
    && FinalContext(log, run.first) == run.first + s.emitted
    && s.emitted == s.decisions + s.acceptedTokens
    && s.decisions == |log|
    && Total(s.physicalM, |CYCLE_MS|) == s.decisions
    && Weighted(s.physicalM, |CYCLE_MS|) == s.draftTokens
  }

  lemma TalliesFaithful(s: Summary, log: seq<Cycle>, run: Run, byContext: map<nat, TraceRecord>,
                        target: nat -> Token, maxDrafts: nat)
    requires Chained(log, run.first, byContext, target, maxDrafts)
    requires forall i | 0 <= i < |log| :: log[i].drafts <= 15
    requires Tallies(s, log)
    ensures Faithful(s, log, run, target)
  {
    ChainEmitsTarget(log, run.first, byContext, target, maxDrafts);
    HistogramConserves(log);
  }

  /** The body of the loop up to the choice of the next frontier. */
  method DecideAndTally<S(!new)>(policy: Policy<S>, state: S, byContext: map<nat, TraceRecord>, context: nat,
                                 maxDrafts: nat, s: Summary, ghost start: nat, ghost log: seq<Cycle>,
                                 ghost target: nat -> Token, ghost initial: S)
    returns (next: S, accepted: nat, tallied: Summary, ghost longer: seq<Cycle>)
    requires Adjusting(policy) && 1 <= maxDrafts <= 15
    requires Keyed(byContext) && context in byContext
    requires Truthful(byContext[context], target) && !byContext[context].resolution.RequestEnd?
    requires Logged(log, start, byContext, target, maxDrafts, s) && context == FinalContext(log, start)
    requires Reaches(policy, initial, log, byContext, maxDrafts, state)
    ensures Logged(longer, start, byContext, target, maxDrafts, tallied)
    ensures FinalContext(longer, start) == context + 1 + accepted
    ensures tallied.censored == s.censored && tallied.missing == s.missing
    ensures Reaches(policy, initial, longer, byContext, maxDrafts, next)
  {
    var drafts;
    ghost var cycle;
    next, drafts, accepted, cycle := Decide(policy, state, byContext[context], maxDrafts, target);
    Append(log, cycle, start, byContext, target, maxDrafts, s);
    ReachesOn(policy, initial, log, cycle, byContext, maxDrafts, state);
    tallied := Tally(s, context, drafts, accepted);
    longer := log + [cycle];
  }

  /** The replay loop over one run. */
  method ReplayRun<S(!new)>(policy: Policy<S>, initial: S, run: Run, byContext: map<nat, TraceRecord>, maxDrafts: nat,
                            ghost target: nat -> Token)
    returns (s: Summary, ghost log: seq<Cycle>)
    requires Adjusting(policy) && 1 <= maxDrafts <= 15
    requires Keyed(byContext) && forall c | c in byContext :: Truthful(byContext[c], target)
    requires run.length > 0 && forall c :: c in byContext <==> Within(c, run)
    ensures Logged(log, run.first, byContext, target, maxDrafts, s)
    ensures Follows(policy, initial, log, byContext, maxDrafts)
    ensures s.missing == 0
    ensures Finished(FinalContext(log, run.first), run, byContext, s)
  {
    hide Chained, Histogram, PredictedMs, DraftTotal, AcceptedTotal, Follows, StateAfter, Truthful, Parsed;
    NothingLogged(policy, initial, run.first, byContext, target, maxDrafts);
    var state := initial;
    var context, maximum := run.first, run.first + run.length - 1;
    s := Summary(0, 0, 0, 0, 0.0, 0, 0, map[]);
    log := [];
    while context in byContext
      invariant context >= run.first && context == FinalContext(log, run.first)
      invariant Logged(log, run.first, byContext, target, maxDrafts, s)
      invariant Reaches(policy, initial, log, byContext, maxDrafts, state)
      invariant s.missing == 0 && s.censored == 0
      decreases maximum + 1 - context
    {
      var record := byContext[context];
      if record.resolution.RequestEnd? {
        s := s.(censored := s.censored + 1);
        return;
      }
      var accepted;
      state, accepted, s, log := DecideAndTally(policy, state, byContext, context, maxDrafts, s, run.first,
                                                log, target, initial);
      var nextContext := context + 1 + accepted;
      if nextContext !in byContext {
        if nextContext <= maximum {
          s := s.(missing := s.missing + 1);
        }
        return;
      }
      context := nextContext;
    }
  }

  /** The whole replay of one sequence: pick the run, index it, follow it. */
  method ReplaySequence<S(!new)>(records: seq<TraceRecord>, policy: Policy<S>, initial: S, maxDrafts: nat,
                                 ghost target: nat -> Token)
    returns (s: Summary, ghost run: Run, ghost log: seq<Cycle>, ghost byContext: map<nat, TraceRecord>)
    requires records != [] && Distinct(Contexts(records))
    requires forall r | r in records :: Parsed(r) && Truthful(r, target)
    requires Adjusting(policy) && 1 <= maxDrafts <= 15
    ensures LongestLatest(run, Contexts(records))
    ensures Keyed(byContext) && forall c | c in byContext :: byContext[c] in records
    ensures Chained(log, run.first, byContext, target, maxDrafts)
    ensures Follows(policy, initial, log, byContext, maxDrafts)
    ensures Faithful(s, log, run, target)
    ensures (forall i | 0 <= i < |log| :: log[i].drafts <= 15) && Tallies(s, log)
    ensures s.missing == 0
    ensures Finished(run.first + s.emitted, run, byContext, s)
  {
    var chosen := DecodeRun(Contexts(records));
    var indexed := ByContext(records, chosen, target);
    run, byContext := chosen, indexed;
    s, log := ReplayRun(policy, initial, chosen, indexed, maxDrafts, target);
    TalliesFaithful(s, log, run, byContext, target, maxDrafts);
  }

  /** The duplicate check of `load_traces`, for the records of one sequence. */
  method RejectDuplicates(raw: seq<TraceRecord>) returns (accepted: bool)
    ensures accepted <==> Distinct(Contexts(raw))
  {
    var seen: set<nat> := {};
    var i := 0;
    while i < |raw|
      invariant i <= |raw|
      invariant forall c :: c in seen <==> exists j :: 0 <= j < i && raw[j].originContext == c
      invariant forall j, k | 0 <= j < k < i :: raw[j].originContext != raw[k].originContext
    {
      if raw[i].originContext in seen {
        var j :| 0 <= j < i && raw[j].originContext == raw[i].originContext;
        assert Contexts(raw)[j] == Contexts(raw)[i];
        return false;
      }
      seen := seen + {raw[i].originContext};
      i := i + 1;
    }
    accepted := true;
  }
}
