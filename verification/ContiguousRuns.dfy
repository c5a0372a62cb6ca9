/** Which stretch of target frontiers a replay covers: the longest contiguous run of contexts. */
module ContiguousRuns {
  import opened Sorting

  /** `length` consecutive contexts starting at `first`. */
  datatype Run = Run(first: nat, length: nat)

  predicate Within(context: nat, run: Run) {
    run.first <= context < run.first + run.length
  }

  /** A nonempty stretch of recorded contexts. */
  ghost predicate Recorded(run: Run, contexts: seq<nat>) {
    run.length > 0 && forall c: nat | Within(c, run) :: c in contexts
  }

  predicate Beats(best: Run, other: Run) {
    other.length < best.length || (other.length == best.length && other.first <= best.first)
  }

  /** No recorded stretch is longer, and none as long starts later. */
  ghost predicate LongestLatest(run: Run, contexts: seq<nat>) {
    && Recorded(run, contexts)
    && forall other | Recorded(other, contexts) :: Beats(run, other)
  }

  /** There is one such run: every other stretch is shorter, or as long and earlier. */
  lemma OneLongestLatest(run: Run, other: Run, contexts: seq<nat>)
    requires LongestLatest(run, contexts) && Recorded(other, contexts) && other != run
    ensures other.length < run.length || (other.length == run.length && other.first < run.first)
  {}

  ghost predicate StrictlyAscending(contexts: seq<nat>) {
    forall i, j | 0 <= i < j < |contexts| :: contexts[i] < contexts[j]
  }

  ghost predicate Distinct(contexts: seq<nat>) {
    forall i, j | 0 <= i < j < |contexts| :: contexts[i] != contexts[j]
  }

  function NatLe(): (nat, nat) -> bool {
    (a, b) => a <= b
  }

  lemma {:induction false} DistinctCounts(contexts: seq<nat>, c: nat)
    requires Distinct(contexts)
    ensures multiset(contexts)[c] <= 1
  {
    if contexts != [] {
      assert contexts == [contexts[0]] + contexts[1..];
      DistinctCounts(contexts[1..], c);
      InMultiset(c, contexts[1..]);
    }
  }

  lemma TwiceCounts(contexts: seq<nat>, i: nat, j: nat)
    requires i < j < |contexts| && contexts[i] == contexts[j]
    ensures multiset(contexts)[contexts[i]] >= 2
  {
    assert contexts == contexts[..j] + contexts[j..];
    InMultiset(contexts[i], contexts[..j]);
    assert contexts[..j][i] == contexts[i];
    InMultiset(contexts[i], contexts[j..]);
    assert contexts[j..][0] == contexts[i];
  }

  lemma SortedContexts(contexts: seq<nat>)
    requires Distinct(contexts)
    ensures var ordered := Sort(NatLe(), contexts);
            StrictlyAscending(ordered) && |ordered| == |contexts| && forall c :: c in ordered <==> c in contexts
  {
    SortSorted(NatLe(), contexts);
    var ordered := Sort(NatLe(), contexts);
    assert |multiset(ordered)| == |multiset(contexts)|;
    forall c ensures c in ordered <==> c in contexts {
      InMultiset(c, ordered);
      InMultiset(c, contexts);
    }
    forall i, j | 0 <= i < j < |ordered| ensures ordered[i] < ordered[j] {
      assert NatLe()(ordered[i], ordered[j]);
      if ordered[i] == ordered[j] {
        DistinctCounts(contexts, ordered[i]);
        TwiceCounts(ordered, i, j);
      }
    }
  }

  ghost predicate AllRecorded(runs: seq<Run>, prefix: seq<nat>) {
    forall r | 0 <= r < |runs| :: Recorded(runs[r], prefix)
  }

  predicate InSome(c: nat, runs: seq<Run>) {
    exists r :: 0 <= r < |runs| && Within(c, runs[r])
  }

  ghost predicate Covering(runs: seq<Run>, prefix: seq<nat>) {
    forall c | c in prefix :: InSome(c, runs)
  }

  /** At least one context is missing between two groups. */
  ghost predicate Separated(runs: seq<Run>) {
    forall r, s | 0 <= r < s < |runs| :: runs[r].first + runs[r].length < runs[s].first
  }

  function End(run: Run): nat {
    run.first + run.length
  }

  /** What the grouping loop has built from a prefix of the ordered contexts. */
  ghost predicate Grouped(runs: seq<Run>, prefix: seq<nat>) {
    && AllRecorded(runs, prefix)
    && Covering(runs, prefix)
    && Separated(runs)
    && (prefix == [] <==> runs == [])
    && (runs != [] ==> End(runs[|runs| - 1]) == prefix[|prefix| - 1] + 1)
  }

  lemma EndsUnrecorded(runs: seq<Run>, contexts: seq<nat>, r: nat)
    requires Covering(runs, contexts) && Separated(runs) && r < |runs|
    requires AllRecorded(runs, contexts)
    ensures End(runs[r]) !in contexts
  {
    assert End(runs[r]) in contexts ==> InSome(End(runs[r]), runs);
  }

  /** A recorded stretch cannot run past the end of the group its first context is in. */
  lemma StretchEnds(runs: seq<Run>, contexts: seq<nat>, other: Run) returns (r: nat)
    requires Grouped(runs, contexts) && Recorded(other, contexts)
    ensures r < |runs| && runs[r].first <= other.first && End(other) <= End(runs[r])
  {
    assert Within(other.first, other);
    assert InSome(other.first, runs);
    r :| 0 <= r < |runs| && Within(other.first, runs[r]);
    EndsUnrecorded(runs, contexts, r);
    if End(runs[r]) < End(other) {
      assert Within(End(runs[r]), other);
    }
  }

  /** One step of the grouping loop: extend the last group or open another. */
  function Extend(runs: seq<Run>, c: nat): seq<Run> {
    if runs == [] || c != End(runs[|runs| - 1]) then runs + [Run(c, 1)]
    else
      var last := runs[|runs| - 1];
      runs[..|runs| - 1] + [Run(last.first, last.length + 1)]
  }

  lemma NewestIsLargest(prefix: seq<nat>, c: nat, x: nat)
    requires StrictlyAscending(prefix + [c]) && x in prefix
    ensures x < c
  {
    var i :| 0 <= i < |prefix| && prefix[i] == x;
    assert (prefix + [c])[i] < (prefix + [c])[|prefix|];
  }

  lemma ExtendRecorded(runs: seq<Run>, prefix: seq<nat>, c: nat)
    requires AllRecorded(runs, prefix)
    ensures AllRecorded(Extend(runs, c), prefix + [c])
  {
    var extended, grown := Extend(runs, c), prefix + [c];
    assert c in grown;
    forall r | 0 <= r < |extended| ensures Recorded(extended[r], grown) {
      assert r < |runs| ==> Recorded(runs[r], prefix);
      forall x: nat | Within(x, extended[r]) ensures x in grown {
        assert r < |runs| && Within(x, runs[r]) ==> x in prefix;
      }
    }
  }

  lemma ExtendCovers(runs: seq<Run>, prefix: seq<nat>, c: nat)
    requires Covering(runs, prefix)
    ensures Covering(Extend(runs, c), prefix + [c])
  {
    var extended := Extend(runs, c);
    assert Within(c, extended[|extended| - 1]);
    forall x | x in prefix + [c] ensures InSome(x, extended) {
      if x != c {
        assert x in prefix;
        assert InSome(x, runs);
        var r :| 0 <= r < |runs| && Within(x, runs[r]);
        assert Within(x, extended[r]);
      }
    }
  }

  lemma ExtendGrouped(runs: seq<Run>, prefix: seq<nat>, c: nat)
    requires Grouped(runs, prefix) && StrictlyAscending(prefix + [c])
    ensures Grouped(Extend(runs, c), prefix + [c])
  {
    hide Recorded, InSome;
    ExtendRecorded(runs, prefix, c);
    ExtendCovers(runs, prefix, c);
    if runs != [] {
      NewestIsLargest(prefix, c, prefix[|prefix| - 1]);
      assert forall r | 0 <= r < |runs| - 1 :: runs[r].first + runs[r].length < runs[|runs| - 1].first;
    }
  }

  lemma BestIsLongest(runs: seq<Run>, ordered: seq<nat>, contexts: seq<nat>, best: Run)
    requires Grouped(runs, ordered) && best in runs && forall r | r in runs :: Beats(best, r)
    requires forall c :: c in ordered <==> c in contexts
    ensures LongestLatest(best, contexts)
  {
    var b :| 0 <= b < |runs| && runs[b] == best;
    assert Recorded(runs[b], ordered);
    forall other | Recorded(other, contexts) ensures Beats(best, other) {
      assert Recorded(other, ordered);
      var r := StretchEnds(runs, ordered, other);
      assert Beats(best, runs[r]);
    }
  }

  /** The grouping loop over the ordered contexts. */
  method GroupRuns(ordered: seq<nat>) returns (runs: seq<Run>)
    requires StrictlyAscending(ordered)
    ensures Grouped(runs, ordered)
  {
    runs := [];
    var i := 0;
    while i < |ordered|
      invariant i <= |ordered|
      invariant Grouped(runs, ordered[..i])
    {
      assert ordered[..i + 1] == ordered[..i] + [ordered[i]];
      ExtendGrouped(runs, ordered[..i], ordered[i]);
      runs := Extend(runs, ordered[i]);
      i := i + 1;
    }
    assert ordered[..i] == ordered;
  }

  /** `max(runs, key=lambda run: (len(run), run[0]))` */
  method LastLongest(runs: seq<Run>) returns (best: Run)
    requires runs != []
    ensures best in runs
    ensures forall r | r in runs :: Beats(best, r)
  {
    best := runs[0];
    var i := 1;
    while i < |runs|
      invariant 1 <= i <= |runs| && best in runs
      invariant forall r | 0 <= r < i :: Beats(best, runs[r])
    {
      if runs[i].length > best.length || (runs[i].length == best.length && runs[i].first > best.first) {
        best := runs[i];
      }
      i := i + 1;
    }
  }

  /** The run that the replay covers. */
  method DecodeRun(contexts: seq<nat>) returns (best: Run)
    requires Distinct(contexts) && contexts != []
    ensures LongestLatest(best, contexts)
  {
    var ordered := Sort(NatLe(), contexts);
    SortedContexts(contexts);
    var runs := GroupRuns(ordered);
    best := LastLongest(runs);
    BestIsLongest(runs, ordered, contexts, best);
  }
}
