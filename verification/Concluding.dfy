/**
 What a whole consolidation comes to, said by its rounds: what is put into batches, answered, merged, and put into
 batches again.
 */
module Concluding {
  import opened Candidates
  import opened Consolidation
  import opened Greedy
  import opened Merge
  import opened Partition
  import opened Prelude
  import opened Replies

  /** Each batch's call, numbered from `first`, was answered so. */
  ghost predicate RoundReplied(results: seq<HistoryCandidates>, batches: seq<HistoryCandidates>, first: nat, s: Setting)
  {
    |results| == |batches| &&
    forall k :: 0 <= k < |batches| ==> Replied(results[k], batches[k], s.answer(first + k), s)
  }

  /** Kind by kind, all candidates in order, merged by key. */
  ghost predicate Merged(r: HistoryCandidates, results: seq<HistoryCandidates>, host: Host) {
    forall kind: Kind :: IsMerged(r.Of(kind), Gather(results, kind), host)
  }

  /** A candidate that does not fit a prompt even by itself. */
  ghost predicate TooLarge(c: HistoryCandidates, b: Budget) {
    exists kind: Kind, x :: x in c.Of(kind) && !Admissible([x], b)
  }

  /** The candidates in order, kind by kind, in as few batches as a prompt allows: each takes what it can. */
  ghost predicate Batched(batches: seq<HistoryCandidates>, c: HistoryCandidates, b: Budget) {
    && batches != [] && (forall k :: 0 <= k < |batches| ==> batches[k].Sorted())
    && if Run(c) == [] then batches == [NONE] else IsGreedy(Runs(batches), Run(c), b)
  }

  /** How a run goes on from the start of a round. One batch's answer is the result. Otherwise the merged answers are
      put into batches again, as long as these become fewer and for twelve rounds at most; then what is left of them is
      the result. A candidate that fits no prompt ends the run. */
  ghost predicate Concludes(round: nat, current: HistoryCandidates, batches: seq<HistoryCandidates>, calls: nat,
                            s: Setting, r: Option<Outcome>)
    requires round <= MAX_CONSOLIDATION_ROUNDS
    decreases MAX_CONSOLIDATION_ROUNDS - round
  {
    if round == 12 then
      exists out :: LeftOver(out, current, s.budget.evidence) && r == Some(Outcome(out, calls, round))
    else
      exists results, merged ::
        && RoundReplied(results, batches, calls, s) && Merged(merged, results, s.host)
        && RoundEnds(round, batches, results, merged, calls + |batches|, s, r)
  }

  ghost predicate RoundEnds(round: nat, batches: seq<HistoryCandidates>, results: seq<HistoryCandidates>,
                            merged: HistoryCandidates, calls: nat, s: Setting, r: Option<Outcome>)
    requires round < MAX_CONSOLIDATION_ROUNDS
    decreases MAX_CONSOLIDATION_ROUNDS - round, 0
  {
    if |batches| == 1 then results != [] && r == Some(Outcome(results[0], calls, round + 1))
    else if TooLarge(merged, s.budget) then r == None
    else
      exists next ::
        && Batched(next, merged, s.budget)
        && if |next| >= |batches| then
             exists out :: LeftOver(out, merged, s.budget.evidence) && r == Some(Outcome(out, calls, round + 1))
           else Concludes(round + 1, merged, next, calls, s, r)
  }

  ghost predicate Concluded(candidates: HistoryCandidates, s: Setting, r: Option<Outcome>) {
    if candidates.Total() == 0 then r == Some(Outcome(candidates, 0, 0))
    else if TooLarge(candidates, s.budget) then r == None
    else exists batches :: Batched(batches, candidates, s.budget) && Concludes(0, candidates, batches, 0, s, r)
  }

  lemma RunHasKind(c: HistoryCandidates, x: Candidate)
    ensures x in Run(c) <==> exists kind: Kind :: x in c.Of(kind)
  {
    assert c.Of(Expression) == c.expressions && c.Of(Behavior) == c.behaviors && c.Of(Jargon) == c.jargons;
    assert c.Of(Memory) == c.memories && c.Of(Profile) == c.profiles;
  }

  lemma TooLargeIs(c: HistoryCandidates, b: Budget)
    ensures TooLarge(c, b) <==> exists x :: x in Run(c) && !Admissible([x], b)
  {
    hide Run, Admissible;
    forall x ensures x in Run(c) <==> exists kind: Kind :: x in c.Of(kind) {
      RunHasKind(c, x);
    }
  }

  lemma PartitionedBatches(c: HistoryCandidates, b: Budget)
    requires c.Sorted()
    ensures TooLarge(c, b) <==> Partitioned(c, b) == None
    ensures Partitioned(c, b).Some? ==> Batched(Partitioned(c, b).value, c, b)
  {
    hide Partitioned, IsGreedy, Admissible, Run, TooLarge;
    PartitionIs(c, b);
    TooLargeIs(c, b);
  }

  lemma BatchedOnce(batches: seq<HistoryCandidates>, c: HistoryCandidates, b: Budget)
    requires c.Sorted() && Batched(batches, c, b) && !TooLarge(c, b)
    ensures Partitioned(c, b) == Some(batches)
  {
    TooLargeIs(c, b);
    hide IsGreedy, Admissible, TooLarge, CutFrom;
    if Run(c) != [] {
      hide Run;
      GreedyIsPartitioned(batches, c, b);
    }
  }

  lemma MergeMerged(results: seq<HistoryCandidates>, host: Host)
    ensures Merged(MergeWindows(results, host), results, host)
  {
    hide MergeWindows, IsMerged, Gather;
    forall kind: Kind ensures IsMerged(MergeWindows(results, host).Of(kind), Gather(results, kind), host) {
      MergedOf(results, kind, host);
      DedupIsMerged(Gather(results, kind), host);
    }
  }

  lemma MergedOnce(a: HistoryCandidates, b: HistoryCandidates, results: seq<HistoryCandidates>, host: Host)
    requires Merged(a, results, host) && Merged(b, results, host)
    ensures a == b
  {
    hide IsMerged, Gather;
    forall kind: Kind ensures a.Of(kind) == b.Of(kind) {
      MergedIsUnique(a.Of(kind), b.Of(kind), Gather(results, kind), host);
    }
    EachKind(a, b);
  }

  lemma {:induction false} CallsReplied(batches: seq<HistoryCandidates>, first: nat, s: Setting)
    requires AllSorted(batches)
    ensures RoundReplied(CallBatches(batches, first, s), batches, first, s)
  {
    hide Replied, Consolidate;
    if batches != [] {
      var n := |batches| - 1;
      CallsReplied(batches[..n], first, s);
      ConsolidateReplies(batches[n], first + n, s);
      forall k | 0 <= k < |batches|
        ensures Replied(CallBatches(batches, first, s)[k], batches[k], s.answer(first + k), s)
      {
        if k < n {
          assert CallBatches(batches, first, s)[k] == CallBatches(batches[..n], first, s)[k];
        }
      }
    }
  }

  lemma RoundRepliedOnce(a: seq<HistoryCandidates>, b: seq<HistoryCandidates>, batches: seq<HistoryCandidates>,
                         first: nat, s: Setting)
    requires RoundReplied(a, batches, first, s) && RoundReplied(b, batches, first, s)
    ensures a == b
  {
    hide Replied;
    forall k | 0 <= k < |batches| ensures a[k] == b[k] {
      RepliedOnce(a[k], b[k], batches[k], s.answer(first + k), s);
    }
  }

  /** The rounds go on as said. */
  lemma {:induction false} RoundsConclude(round: nat, current: HistoryCandidates, batches: seq<HistoryCandidates>,
                                          calls: nat, s: Setting)
    requires round <= MAX_CONSOLIDATION_ROUNDS && current.Sorted() && batches != [] && AllSorted(batches)
    ensures Concludes(round, current, batches, calls, s, Rounds(round, current, batches, calls, s))
    decreases MAX_CONSOLIDATION_ROUNDS - round
  {
    hide LeftOver, Rounds, RoundReplied, Merged, Fallback, CallBatches, MergeRound, RoundEnds, AllSorted;
    var r := Rounds(round, current, batches, calls, s);
    if round == MAX_CONSOLIDATION_ROUNDS {
      RoundsEnd(current, batches, calls, s);
      FallbackLeaves(current, s.budget.evidence);
    } else {
      var results, merged := CallBatches(batches, calls, s), MergeRound(batches, calls, s);
      CallsReplied(batches, calls, s);
      MergeMerged(results, s.host);
      MergeRoundIs(batches, calls, s);
      RoundsStep(round, current, batches, calls, s);
      EndsAs(round, current, batches, calls, s);
      assert RoundReplied(results, batches, calls, s) && Merged(merged, results, s.host);
    }
  }

  lemma MergeRoundIs(batches: seq<HistoryCandidates>, calls: nat, s: Setting)
    requires AllSorted(batches)
    ensures MergeRound(batches, calls, s) == MergeWindows(CallBatches(batches, calls, s), s.host)
  {
  }

  lemma {:induction false} EndsAs(round: nat, current: HistoryCandidates, batches: seq<HistoryCandidates>, calls: nat,
                                  s: Setting)
    requires round < MAX_CONSOLIDATION_ROUNDS && current.Sorted() && batches != [] && AllSorted(batches)
    ensures RoundEnds(round, batches, CallBatches(batches, calls, s), MergeRound(batches, calls, s), calls + |batches|,
                      s,
                      Rounds(round, current, batches, calls, s))
    decreases MAX_CONSOLIDATION_ROUNDS - round, 0
  {
    hide LeftOver, Rounds, Fallback, CallBatches, MergeRound, Partitioned, AllSorted, Batched, TooLarge, Concludes;
    RoundsStep(round, current, batches, calls, s);
    var merged := MergeRound(batches, calls, s);
    PartitionedBatches(merged, s.budget);
    if |batches| > 1 && Partitioned(merged, s.budget).Some? {
      var next := Partitioned(merged, s.budget).value;
      if |next| >= |batches| {
        FallbackLeaves(merged, s.budget.evidence);
      } else {
        RoundsConclude(round + 1, merged, next, calls + |batches|, s);
      }
    }
  }

  /** What a run comes to is said by its rounds. */
  lemma RunConcludes(candidates: HistoryCandidates, s: Setting)
    requires candidates.Sorted()
    ensures Concluded(candidates, s, Hierarchical(candidates, s))
  {
    hide Rounds, Concludes, Partitioned, Batched, TooLarge;
    PartitionedBatches(candidates, s.budget);
    if candidates.Total() > 0 && Partitioned(candidates, s.budget).Some? {
      PartsSorted(candidates, s.budget);
      RoundsConclude(0, candidates, Partitioned(candidates, s.budget).value, 0, s);
    }
  }

  /** And nothing else meets them: the rounds have one result. */
  lemma {:induction false} ConcludesOnce(round: nat, current: HistoryCandidates, batches: seq<HistoryCandidates>,
                                         calls: nat, s: Setting, r: Option<Outcome>)
    requires round <= MAX_CONSOLIDATION_ROUNDS && current.Sorted() && batches != [] && AllSorted(batches)
    requires Concludes(round, current, batches, calls, s, r)
    ensures r == Rounds(round, current, batches, calls, s)
    decreases MAX_CONSOLIDATION_ROUNDS - round
  {
    hide LeftOver, Rounds, RoundReplied, Merged, Fallback, CallBatches, MergeRound, RoundEnds, AllSorted;
    if round == MAX_CONSOLIDATION_ROUNDS {
      var out :| LeftOver(out, current, s.budget.evidence) && r == Some(Outcome(out, calls, round));
      RoundsEnd(current, batches, calls, s);
      FallbackLeaves(current, s.budget.evidence);
      LeftOverOnce(out, Fallback(current, s.budget.evidence), current, s.budget.evidence);
    } else {
      var results, merged :|
        && RoundReplied(results, batches, calls, s) && Merged(merged, results, s.host)
        && RoundEnds(round, batches, results, merged, calls + |batches|, s, r);
      CallsReplied(batches, calls, s);
      RoundRepliedOnce(results, CallBatches(batches, calls, s), batches, calls, s);
      MergeMerged(results, s.host);
      MergeRoundIs(batches, calls, s);
      MergedOnce(merged, MergeRound(batches, calls, s), results, s.host);
      EndsOnce(round, current, batches, calls, s, r);
    }
  }

  lemma {:induction false} EndsOnce(round: nat, current: HistoryCandidates, batches: seq<HistoryCandidates>, calls: nat,
                                    s: Setting, r: Option<Outcome>)
    requires round < MAX_CONSOLIDATION_ROUNDS && current.Sorted() && batches != [] && AllSorted(batches)
    requires RoundEnds(round, batches, CallBatches(batches, calls, s), MergeRound(batches, calls, s), calls + |batches|,
                       s, r)
    ensures r == Rounds(round, current, batches, calls, s)
    decreases MAX_CONSOLIDATION_ROUNDS - round, 0
  {
    hide LeftOver, Rounds, Fallback, CallBatches, MergeRound, Partitioned, AllSorted, Batched, TooLarge, Concludes;
    RoundsStep(round, current, batches, calls, s);
    var merged := MergeRound(batches, calls, s);
    PartitionedBatches(merged, s.budget);
    if |batches| > 1 && Partitioned(merged, s.budget).Some? {
      var next :|
        && Batched(next, merged, s.budget)
        && if |next| >= |batches| then
             exists out ::
               LeftOver(out, merged, s.budget.evidence) && r == Some(Outcome(out, calls + |batches|, round + 1))
           else Concludes(round + 1, merged, next, calls + |batches|, s, r);
      BatchedOnce(next, merged, s.budget);
      if |next| >= |batches| {
        var out :| LeftOver(out, merged, s.budget.evidence) && r == Some(Outcome(out, calls + |batches|, round + 1));
        FallbackLeaves(merged, s.budget.evidence);
        LeftOverOnce(out, Fallback(merged, s.budget.evidence), merged, s.budget.evidence);
      } else {
        ConcludesOnce(round + 1, merged, next, calls + |batches|, s, r);
      }
    }
  }

  /** The result of a run is the one its rounds say. */
  lemma ConcludedOnce(candidates: HistoryCandidates, s: Setting, r: Option<Outcome>)
    requires candidates.Sorted()
    ensures Concluded(candidates, s, r) <==> r == Hierarchical(candidates, s)
  {
    hide Rounds, Concludes, Partitioned, Batched, TooLarge;
    RunConcludes(candidates, s);
    if Concluded(candidates, s, r) && candidates.Total() > 0 {
      PartitionedBatches(candidates, s.budget);
      if Partitioned(candidates, s.budget).Some? {
        var batches :| Batched(batches, candidates, s.budget) && Concludes(0, candidates, batches, 0, s, r);
        BatchedOnce(batches, candidates, s.budget);
        PartsSorted(candidates, s.budget);
        ConcludesOnce(0, candidates, batches, 0, s, r);
      }
    }
  }
}
