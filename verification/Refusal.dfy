/**
 When consolidation is refused: exactly when some candidate it has to place exceeds a prompt by itself, and never when
 all candidates that the input, the answers and merging can give fit.
 */
module Refusal {
  import opened Candidates
  import opened Consolidation
  import opened Greedy
  import opened Partition
  import opened Prelude
  import opened Seqs

  /** From the start of a round on, the candidate is among those of a round that are to be put into batches. */
  ghost predicate Placed(c: Candidate, round: nat, batches: seq<HistoryCandidates>, calls: nat, s: Setting)
    requires round <= MAX_CONSOLIDATION_ROUNDS && batches != [] && AllSorted(batches)
    decreases MAX_CONSOLIDATION_ROUNDS - round
  {
    round < MAX_CONSOLIDATION_ROUNDS && |batches| > 1 &&
    var merged := MergeRound(batches, calls, s);
    || c in Run(merged)
    || match Partitioned(merged, s.budget)
       case None => false
       case Some(next) =>
         PartsSorted(merged, s.budget);
         |next| < |batches| && Placed(c, round + 1, next, calls + |batches|, s)
  }

  /** The candidate is of the input, or of a round of the run. */
  ghost predicate ToPlace(c: Candidate, candidates: HistoryCandidates, s: Setting)
    requires candidates.Sorted()
  {
    || c in Run(candidates)
    || match Partitioned(candidates, s.budget)
       case None => false
       case Some(batches) =>
         PartsSorted(candidates, s.budget);
         Placed(c, 0, batches, 0, s)
  }

  lemma {:induction false} RoundsRefused(round: nat, current: HistoryCandidates, batches: seq<HistoryCandidates>,
                                         calls: nat, s: Setting)
    requires round <= MAX_CONSOLIDATION_ROUNDS && current.Sorted() && batches != [] && AllSorted(batches)
    ensures Rounds(round, current, batches, calls, s) == None <==>
              exists c :: Placed(c, round, batches, calls, s) && !Admissible([c], s.budget)
    decreases MAX_CONSOLIDATION_ROUNDS - round
  {
    hide Partitioned, Fallback, CallBatches, AllSorted, MergeRound, Admissible;
    if round < MAX_CONSOLIDATION_ROUNDS && |batches| > 1 {
      var merged := MergeRound(batches, calls, s);
      PartitionIs(merged, s.budget);
      if Partitioned(merged, s.budget).Some? {
        PartsSorted(merged, s.budget);
        var next := Partitioned(merged, s.budget).value;
        if |next| < |batches| {
          RoundsRefused(round + 1, merged, next, calls + |batches|, s);
        }
      }
    }
  }

  /** A run is refused exactly when some candidate it has to place exceeds a prompt by itself. */
  lemma RefusedExactly(candidates: HistoryCandidates, s: Setting)
    requires candidates.Sorted()
    ensures Hierarchical(candidates, s) == None <==>
              exists c :: ToPlace(c, candidates, s) && !Admissible([c], s.budget)
  {
    hide Rounds, Placed, Admissible, Partitioned;
    PartitionIs(candidates, s.budget);
    if candidates.Total() == 0 {
      NothingToPlace(candidates, s);
    } else if Partitioned(candidates, s.budget).Some? {
      PartsSorted(candidates, s.budget);
      RoundsRefused(0, candidates, Partitioned(candidates, s.budget).value, 0, s);
    }
  }

  lemma NothingToPlace(candidates: HistoryCandidates, s: Setting)
    requires candidates.Sorted() && candidates.Total() == 0
    ensures forall c :: !ToPlace(c, candidates, s)
  {
    hide Admissible, CutFrom;
    assert Run(candidates) == [];
    assert Partitioned(candidates, s.budget) == Some([NONE]);
  }

  // ----- candidates that fit

  /** What claims and scores may occur. */
  datatype Bounds = Bounds(claims: Claim -> bool, scores: real -> bool)

  ghost predicate Fair(c: Candidate, p: Bounds) {
    p.claims(c.claim) && p.scores(c.confidence) && p.scores(c.importance)
  }

  ghost predicate AllFair(items: seq<Candidate>, p: Bounds) {
    forall c :: c in items ==> Fair(c, p)
  }

  ghost predicate FairAll(candidates: HistoryCandidates, p: Bounds) {
    forall kind: Kind :: AllFair(candidates.Of(kind), p)
  }

  ghost predicate FairBatches(batches: seq<HistoryCandidates>, p: Bounds) {
    forall batch :: batch in batches ==> FairAll(batch, p)
  }

  ghost predicate FairAnswers(s: Setting, p: Bounds) {
    forall call: nat :: s.answer(call).Some? ==> FairAll(s.answer(call).value, p)
  }

  /** Every candidate of such a claim and such scores that cites, of its kind, what the input cites, under a tag that
      occurs there, fits a prompt by itself. */
  ghost predicate Roomy(candidates: HistoryCandidates, s: Setting, p: Bounds) {
    forall kind: Kind, c: Candidate ::
      c.claim.Kind() == kind && Fair(c, p) && From(c, candidates.Of(kind), s.host) ==> Admissible([c], s.budget)
  }

  lemma MergeFair(a: Candidate, b: Candidate, host: Host, p: Bounds)
    requires Fair(a, p) && Fair(b, p)
    ensures Fair(MergeEvidence(a, b, host), p) && Fair(WithMetadata(a, host), p)
  {
    hide CleanProvenance, FirstDistinct;
  }

  lemma {:induction false} DedupFair(items: seq<Candidate>, host: Host, p: Bounds)
    requires AllFair(items, p)
    ensures AllFair(Dedup(items, host), p)
  {
    hide Fair, MergeEvidence, WithMetadata;
    if items != [] {
      var init, c := items[..|items| - 1], items[|items| - 1];
      assert items == init + [c];
      DedupFair(init, host, p);
      MergeFair(c, c, host, p);
      var item, r := WithMetadata(c, host), Dedup(init, host);
      if Key(item.claim, host) in Keys(r, host) {
        var i := IndexOf(Keys(r, host), Key(item.claim, host));
        assert r[i] in r;
        MergeFair(r[i], item, host, p);
      }
    }
  }

  lemma {:induction false} GatherFair(results: seq<HistoryCandidates>, kind: Kind, p: Bounds)
    requires FairBatches(results, p)
    ensures AllFair(Gather(results, kind), p)
  {
    hide Fair;
    if results != [] {
      var init, last := results[..|results| - 1], results[|results| - 1];
      assert results == init + [last];
      GatherFair(init, kind, p);
      assert FairAll(last, p);
      assert AllFair(last.Of(kind), p);
    }
  }

  lemma MergeWindowsFair(results: seq<HistoryCandidates>, host: Host, p: Bounds)
    requires FairBatches(results, p)
    ensures FairAll(MergeWindows(results, host), p)
  {
    hide AllFair, FairBatches, Dedup, Gather;
    forall kind: Kind ensures AllFair(MergeWindows(results, host).Of(kind), p) {
      GatherFair(results, kind, p);
      DedupFair(Gather(results, kind), host, p);
    }
  }

  lemma InheritFair(c: Candidate, source: seq<Candidate>, host: Host, p: Bounds)
    requires Fair(c, p)
    ensures Fair(Inherit(c, source, host), p)
  {
    hide CleanProvenance, InheritSources;
  }

  lemma {:induction false} AcceptedFair(answer: seq<Candidate>, source: seq<Candidate>, host: Host, p: Bounds)
    requires AllFair(answer, p)
    ensures AllFair(InheritKind(RestrictKind(answer, source, host), source, host), p)
  {
    hide Fair, Allowed, Inherit;
    if answer != [] {
      var init, c := answer[..|answer| - 1], answer[|answer| - 1];
      AcceptedFair(init, source, host, p);
      if Allowed(c, source, host) {
        InheritFair(c, source, host, p);
        SnocParts(RestrictKind(init, source, host), c);
      }
    }
  }

  lemma ConsolidateFair(batch: HistoryCandidates, call: nat, s: Setting, p: Bounds)
    requires batch.Sorted() && FairAll(batch, p) && FairAnswers(s, p)
    ensures FairAll(Consolidate(batch, call, s), p)
  {
    hide Fair, RestrictKind, InheritKind, ShownKind;
    match s.answer(call)
    case None =>
      RepeatedFrom(batch.jargons, s.budget.evidence);
      forall kind: Kind ensures AllFair(Fallback(batch, s.budget.evidence).Of(kind), p) {
        assert AllFair(batch.Of(kind), p);
      }
    case Some(answer) =>
      forall kind: Kind ensures AllFair(Accept(answer, batch, s.host).Of(kind), p) {
        assert AllFair(answer.Of(kind), p);
        AcceptedFair(answer.Of(kind), ShownKind(batch.Of(kind)), s.host, p);
      }
  }

  lemma {:induction false} CallsFair(batches: seq<HistoryCandidates>, first: nat, s: Setting, p: Bounds)
    requires AllSorted(batches) && FairBatches(batches, p) && FairAnswers(s, p)
    ensures FairBatches(CallBatches(batches, first, s), p)
  {
    hide FairAll, Consolidate, FairAnswers;
    if batches != [] {
      CallsFair(batches[..|batches| - 1], first, s, p);
      ConsolidateFair(batches[|batches| - 1], first + |batches| - 1, s, p);
    }
  }

  lemma PartsFair(candidates: HistoryCandidates, b: Budget, p: Bounds)
    requires candidates.Sorted() && Partitioned(candidates, b).Some? && FairAll(candidates, p)
    ensures FairBatches(Partitioned(candidates, b).value, p)
  {
    hide Partitioned, Fair, Admissible;
    PartitionIs(candidates, b);
    var batches := Partitioned(candidates, b).value;
    forall batch | batch in batches ensures FairAll(batch, p) {
      forall kind: Kind, c | c in batch.Of(kind) ensures Fair(c, p) {
        GatherHas(batches, kind, batch, c);
        assert AllFair(candidates.Of(kind), p);
      }
    }
  }

  /** Candidates of fair batches from the source fit. */
  lemma FairFits(merged: HistoryCandidates, source: HistoryCandidates, s: Setting, p: Bounds, c: Candidate)
    requires merged.Sorted() && FairAll(merged, p) && NothingPromoted(merged, source, s.host) && Roomy(source, s, p)
    requires c in Run(merged)
    ensures Admissible([c], s.budget)
  {
    hide Fair, From, Admissible;
    var kind := c.claim.Kind();
    RunKind(merged, c);
    assert AllFair(merged.Of(kind), p) && AllFrom(merged.Of(kind), source.Of(kind), s.host);
  }

  lemma RunKind(batch: HistoryCandidates, c: Candidate)
    requires batch.Sorted() && c in Run(batch)
    ensures c in batch.Of(c.claim.Kind())
  {
  }

  lemma RoundFair(batches: seq<HistoryCandidates>, calls: nat, s: Setting, p: Bounds)
    requires AllSorted(batches) && FairBatches(batches, p) && FairAnswers(s, p)
    ensures FairAll(MergeRound(batches, calls, s), p)
  {
    CallsFair(batches, calls, s, p);
    MergeWindowsFair(CallBatches(batches, calls, s), s.host, p);
    hide FairAll, FairBatches, FairAnswers, CallBatches, MergeWindows;
  }

  lemma PlacedStep(c: Candidate, round: nat, batches: seq<HistoryCandidates>, calls: nat, s: Setting)
    requires round <= MAX_CONSOLIDATION_ROUNDS && batches != [] && AllSorted(batches)
    requires Placed(c, round, batches, calls, s)
    ensures var merged := MergeRound(batches, calls, s);
            c !in Run(merged) ==>
              && round < MAX_CONSOLIDATION_ROUNDS && Partitioned(merged, s.budget).Some?
              && Partitioned(merged, s.budget).value != [] && AllSorted(Partitioned(merged, s.budget).value)
              && Placed(c, round + 1, Partitioned(merged, s.budget).value, calls + |batches|, s)
  {
    hide Partitioned, MergeRound, AllSorted;
    var merged := MergeRound(batches, calls, s);
    if Partitioned(merged, s.budget).Some? {
      PartsSorted(merged, s.budget);
    }
  }

  lemma {:induction false} PlacedFits(c: Candidate, round: nat, batches: seq<HistoryCandidates>, calls: nat, s: Setting,
                                      source: HistoryCandidates, p: Bounds)
    requires round <= MAX_CONSOLIDATION_ROUNDS && batches != [] && AllSorted(batches)
    requires FairBatches(batches, p) && FairAnswers(s, p) && AllNothingPromoted(batches, source, s.host)
    requires Roomy(source, s, p) && Placed(c, round, batches, calls, s)
    ensures Admissible([c], s.budget)
    decreases MAX_CONSOLIDATION_ROUNDS - round
  {
    hide *;
    var merged := MergeRound(batches, calls, s);
    RoundFair(batches, calls, s, p);
    RoundFrom(batches, calls, source, s);
    PlacedStep(c, round, batches, calls, s);
    if c in Run(merged) {
      FairFits(merged, source, s, p, c);
    } else {
      PartsSorted(merged, s.budget);
      PartsFair(merged, s.budget, p);
      PartitionPromotesNothing(merged, source, s);
      PlacedFits(c, round + 1, Partitioned(merged, s.budget).value, calls + |batches|, s, source, p);
    }
  }

  /** Whatever claims and scores are allowed: when the input and all answers keep to them, and every candidate that
      keeps to them and cites what the input cites fits a prompt by itself, the run succeeds. */
  lemma FairSucceeds(candidates: HistoryCandidates, s: Setting, p: Bounds)
    requires candidates.Sorted() && FairAll(candidates, p) && FairAnswers(s, p) && Roomy(candidates, s, p)
    ensures Hierarchical(candidates, s).Some?
  {
    hide Partitioned, FairAll, FairBatches, FairAnswers, AllNothingPromoted, Roomy, AllSorted, Admissible, Placed;
    hide Hierarchical, AllFrom;
    RefusedExactly(candidates, s);
    forall kind: Kind ensures AllFrom(candidates.Of(kind), candidates.Of(kind), s.host) {
      FromSelf(candidates.Of(kind), s.host);
    }
    assert NothingPromoted(candidates, candidates, s.host);
    forall c | ToPlace(c, candidates, s) ensures Admissible([c], s.budget) {
      if c in Run(candidates) {
        FairFits(candidates, candidates, s, p, c);
      } else {
        PartsSorted(candidates, s.budget);
        PartsFair(candidates, s.budget, p);
        PartitionPromotesNothing(candidates, candidates, s);
        PlacedFits(c, 0, Partitioned(candidates, s.budget).value, 0, s, candidates, p);
      }
    }
  }
}
