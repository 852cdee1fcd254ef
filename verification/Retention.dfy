/** What consolidation does not lose: a model that repeats what it is shown keeps every key. */
module Retention {
  import opened Candidates
  import opened Concluding
  import opened Consolidation
  import opened Greedy
  import opened Merge
  import opened Partition
  import opened Prelude
  import opened Replies
  import opened Seqs

  /** One of the candidates has the claim's key. */
  ghost predicate HasKey(items: seq<Candidate>, claim: Claim, host: Host) {
    exists x :: x in items && Key(x.claim, host) == Key(claim, host)
  }

  /** Every candidate's key occurs among the candidates of its kind. */
  ghost predicate Covers(r: seq<Candidate>, items: seq<Candidate>, host: Host) {
    forall c :: c in items ==> HasKey(r, c.claim, host)
  }

  ghost predicate CoversAll(r: HistoryCandidates, c: HistoryCandidates, host: Host) {
    forall kind: Kind :: Covers(r.Of(kind), c.Of(kind), host)
  }

  /** Every candidate cites something. */
  ghost predicate Citing(items: seq<Candidate>) {
    forall c :: c in items ==> c.evidenceIds != []
  }

  ghost predicate CitingAll(c: HistoryCandidates) {
    forall kind: Kind :: Citing(c.Of(kind))
  }

  /** The answer repeats each candidate it was shown: its claim, and the evidence shown with it. */
  ghost predicate RepeatsKind(answer: seq<Candidate>, batch: seq<Candidate>) {
    forall c :: c in batch ==>
      exists x :: x in answer && x.claim == c.claim && x.evidenceIds == First(c.evidenceIds, 2)
  }

  /** Every answer of the round can be read and does. */
  ghost predicate Faithful(batches: seq<HistoryCandidates>, first: nat, s: Setting) {
    forall k :: 0 <= k < |batches| ==> FaithfulTo(s.answer(first + k), batches[k])
  }

  ghost predicate FaithfulTo(answer: Option<ParsedCandidates>, batch: HistoryCandidates) {
    answer.Some? && forall kind: Kind :: RepeatsKind(answer.value.Of(kind), batch.Of(kind))
  }

  /** So does every answer of the rounds the run goes through. */
  ghost predicate FaithfulRounds(round: nat, batches: seq<HistoryCandidates>, calls: nat, s: Setting)
    requires round <= MAX_CONSOLIDATION_ROUNDS && batches != [] && AllSorted(batches)
    decreases MAX_CONSOLIDATION_ROUNDS - round
  {
    round == MAX_CONSOLIDATION_ROUNDS ||
    (Faithful(batches, calls, s) &&
     (|batches| > 1 ==>
        var merged := MergeRound(batches, calls, s);
        match Partitioned(merged, s.budget)
        case None => true
        case Some(next) =>
          PartsSorted(merged, s.budget);
          |next| < |batches| ==> FaithfulRounds(round + 1, next, calls + |batches|, s)))
  }

  ghost predicate FaithfulRun(candidates: HistoryCandidates, s: Setting)
    requires candidates.Sorted()
  {
    match Partitioned(candidates, s.budget)
    case None => true
    case Some(batches) =>
      PartsSorted(candidates, s.budget);
      FaithfulRounds(0, batches, 0, s)
  }

  ghost predicate CoversBatches(r: HistoryCandidates, batches: seq<HistoryCandidates>, host: Host) {
    forall batch :: batch in batches ==> CoversAll(r, batch, host)
  }

  ghost predicate CitingBatches(batches: seq<HistoryCandidates>) {
    forall batch :: batch in batches ==> CitingAll(batch)
  }

  lemma CoversTrans(a: HistoryCandidates, b: HistoryCandidates, c: HistoryCandidates, host: Host)
    requires CoversAll(a, b, host) && CoversAll(b, c, host)
    ensures CoversAll(a, c, host)
  {
    hide Key;
    forall kind: Kind, x | x in c.Of(kind) ensures HasKey(a.Of(kind), x.claim, host) {
      assert Covers(b.Of(kind), c.Of(kind), host) && Covers(a.Of(kind), b.Of(kind), host);
      var y :| y in b.Of(kind) && Key(y.claim, host) == Key(x.claim, host);
    }
  }

  /** What repeats a shown candidate is admitted. */
  lemma RepeatAdmitted(x: Candidate, c: Candidate, batch: seq<Candidate>, host: Host)
    requires c in batch && c.evidenceIds != [] && x.claim == c.claim && x.evidenceIds == First(c.evidenceIds, 2)
    ensures Admits(x, batch, host)
  {
    forall id | id in x.evidenceIds ensures exists o :: o in batch && ShowsId(o, id) {
      ShownHas(c, id);
    }
    assert SameTag(c.claim, c.claim, host);
  }

  /** The result of a call that repeats what it was shown has all claims of the batch, and cites something with each. */
  lemma AnsweredCovers(r: seq<Candidate>, answer: seq<Candidate>, batch: seq<Candidate>, host: Host)
    requires Answered(r, answer, batch, host) && RepeatsKind(answer, batch) && Citing(batch)
    ensures Covers(r, batch, host) && Citing(r)
  {
    hide Sifted, Admits, Carries, Key;
    var kept :| Sifted(kept, answer, Admitting(batch, host)) && AllCarry(r, kept, batch, host);
    SiftedMembers(kept, answer, Admitting(batch, host));
    forall c | c in batch ensures HasKey(r, c.claim, host) {
      var x :| x in answer && x.claim == c.claim && x.evidenceIds == First(c.evidenceIds, 2);
      RepeatAdmitted(x, c, batch, host);
      assert x in kept;
      var k :| 0 <= k < |kept| && kept[k] == x;
      CarriesClaim(r[k], x, batch, host);
      assert r[k] in r;
    }
    forall y | y in r ensures y.evidenceIds != [] {
      var k :| 0 <= k < |r| && r[k] == y;
      CarriesClaim(r[k], kept[k], batch, host);
      assert kept[k] in kept;
      AdmitsCites(kept[k], batch, host);
    }
  }

  lemma CarriesClaim(x: Candidate, c: Candidate, batch: seq<Candidate>, host: Host)
    requires Carries(x, c, batch, host)
    ensures x.claim == c.claim && x.evidenceIds == c.evidenceIds
  {
  }

  lemma AdmitsCites(c: Candidate, batch: seq<Candidate>, host: Host)
    requires Admits(c, batch, host)
    ensures c.evidenceIds != []
  {
  }

  lemma CallCovers(batch: HistoryCandidates, call: nat, s: Setting)
    requires batch.Sorted() && FaithfulTo(s.answer(call), batch) && CitingAll(batch)
    ensures CoversAll(Consolidate(batch, call, s), batch, s.host) && CitingAll(Consolidate(batch, call, s))
  {
    hide Consolidate, Answered, Covers, Citing, RepeatsKind;
    ConsolidateReplies(batch, call, s);
    forall kind: Kind
      ensures Covers(Consolidate(batch, call, s).Of(kind), batch.Of(kind), s.host)
      ensures Citing(Consolidate(batch, call, s).Of(kind))
    {
      AnsweredCovers(Consolidate(batch, call, s).Of(kind), s.answer(call).value.Of(kind), batch.Of(kind), s.host);
    }
  }

  lemma {:induction false} FoldCites(group: seq<Candidate>, host: Host)
    requires group != [] && Citing(group)
    ensures FoldGroup(group, host).evidenceIds != []
  {
    hide CleanProvenance, Identity;
    if |group| > 1 {
      FoldCites(group[..|group| - 1], host);
      var a, b := FoldGroup(group[..|group| - 1], host).evidenceIds, WithMetadata(group[|group| - 1], host).evidenceIds;
      DistinctMembers(a + b);
      assert (a + b)[0] in a + b;
      DistinctHas(a + b, (a + b)[0]);
    }
  }

  lemma MergedCovers(r: seq<Candidate>, items: seq<Candidate>, host: Host)
    requires IsMerged(r, items, host) && Citing(items)
    ensures Covers(r, items, host) && Citing(r)
  {
    hide Key, FoldGroup;
    forall c | c in items ensures HasKey(r, c.claim, host) {
      var k :| 0 <= k < |items| && items[k] == c;
      assert Keys(items, host)[k] == Key(c.claim, host);
      DistinctHas(Keys(items, host), Key(c.claim, host));
      assert Key(c.claim, host) in Keys(r, host);
      var j :| 0 <= j < |r| && Keys(r, host)[j] == Key(c.claim, host);
      assert r[j] in r;
    }
    forall x | x in r ensures x.evidenceIds != [] {
      var k :| 0 <= k < |r| && r[k] == x;
      assert FoldOf(r[k], items, host);
      GroupMembers(items, Key(x.claim, host), host);
      FoldCites(Group(items, Key(x.claim, host), host), host);
    }
  }

  lemma {:induction false} GatherCovers(results: seq<HistoryCandidates>, batches: seq<HistoryCandidates>, kind: Kind,
                                        k: nat, c: Candidate, host: Host)
    requires |results| == |batches| && k < |batches| && c in batches[k].Of(kind)
    requires CoversAll(results[k], batches[k], host)
    ensures HasKey(Gather(results, kind), c.claim, host)
  {
    hide Key;
    assert Covers(results[k].Of(kind), batches[k].Of(kind), host);
    var x :| x in results[k].Of(kind) && Key(x.claim, host) == Key(c.claim, host);
    GatherHas(results, kind, results[k], x);
  }

  lemma {:induction false} GatherCites(results: seq<HistoryCandidates>, kind: Kind)
    requires CitingBatches(results)
    ensures Citing(Gather(results, kind))
  {
    if results != [] {
      var init, last := results[..|results| - 1], results[|results| - 1];
      assert results == init + [last];
      GatherCites(init, kind);
      assert CitingAll(last) && Citing(last.Of(kind));
    }
  }

  lemma {:induction false} CallsCover(batches: seq<HistoryCandidates>, first: nat, s: Setting)
    requires AllSorted(batches) && Faithful(batches, first, s) && CitingBatches(batches)
    ensures var results := CallBatches(batches, first, s);
            CitingBatches(results) && forall k :: 0 <= k < |batches| ==> CoversAll(results[k], batches[k], s.host)
  {
    hide Consolidate, CoversAll, CitingAll, FaithfulTo;
    if batches != [] {
      var n := |batches| - 1;
      CallsCover(batches[..n], first, s);
      assert FaithfulTo(s.answer(first + n), batches[n]);
      CallCovers(batches[n], first + n, s);
    }
  }

  /** A round of such answers loses no key. */
  lemma RoundCovers(batches: seq<HistoryCandidates>, calls: nat, s: Setting)
    requires AllSorted(batches) && Faithful(batches, calls, s) && CitingBatches(batches)
    ensures CoversBatches(MergeRound(batches, calls, s), batches, s.host) && CitingAll(MergeRound(batches, calls, s))
  {
    var results, merged := CallBatches(batches, calls, s), MergeRound(batches, calls, s);
    CallsCover(batches, calls, s);
    MergeMerged(results, s.host);
    MergeRoundIs(batches, calls, s);
    hide Key, CoversAll, IsMerged, Gather, CallBatches, MergeRound, Faithful, CitingBatches;
    forall kind: Kind ensures Covers(merged.Of(kind), Gather(results, kind), s.host) && Citing(merged.Of(kind)) {
      GatherCites(results, kind);
      MergedCovers(merged.Of(kind), Gather(results, kind), s.host);
    }
    forall batch | batch in batches ensures CoversAll(merged, batch, s.host) {
      var k :| 0 <= k < |batches| && batches[k] == batch;
      forall kind: Kind, c | c in batch.Of(kind)
        ensures HasKey(merged.Of(kind), c.claim, s.host)
      {
        GatherCovers(results, batches, kind, k, c, s.host);
        var x :| x in Gather(results, kind) && Key(x.claim, s.host) == Key(c.claim, s.host);
        assert Covers(merged.Of(kind), Gather(results, kind), s.host);
      }
      CoversIs(merged, batch, s.host);
    }
  }

  lemma CoversIs(r: HistoryCandidates, c: HistoryCandidates, host: Host)
    requires forall kind: Kind, x :: x in c.Of(kind) ==>
               HasKey(r.Of(kind), x.claim, host)
    ensures CoversAll(r, c, host)
  {
    hide Key;
    forall kind: Kind ensures Covers(r.Of(kind), c.Of(kind), host) {
      forall x | x in c.Of(kind) ensures HasKey(r.Of(kind), x.claim, host) {
      }
    }
  }

  /** A partition's batches are the candidates, so what covers them covers it, and it covers them. */
  lemma PartsCover(c: HistoryCandidates, b: Budget, host: Host)
    requires c.Sorted() && Partitioned(c, b).Some?
    ensures CoversBatches(c, Partitioned(c, b).value, host)
    ensures CitingAll(c) ==> CitingBatches(Partitioned(c, b).value)
    ensures forall r :: CoversBatches(r, Partitioned(c, b).value, host) ==> CoversAll(r, c, host)
  {
    hide Partitioned, IsGreedy, Admissible, Key;
    PartitionIs(c, b);
    var batches := Partitioned(c, b).value;
    forall batch, kind: Kind, x | batch in batches && x in batch.Of(kind) ensures x in c.Of(kind) {
      GatherHas(batches, kind, batch, x);
    }
    forall batch | batch in batches ensures CoversAll(c, batch, host) {
    }
    forall batch | CitingAll(c) && batch in batches ensures CitingAll(batch) {
      forall kind: Kind, x | x in batch.Of(kind) ensures x.evidenceIds != [] {
        assert Citing(c.Of(kind));
      }
    }
    forall r | CoversBatches(r, batches, host) ensures CoversAll(r, c, host) {
      forall kind: Kind, x | x in c.Of(kind)
        ensures HasKey(r.Of(kind), x.claim, host)
      {
        var batch := GatheredFrom(batches, kind, x);
        assert CoversAll(r, batch, host) && Covers(r.Of(kind), batch.Of(kind), host);
      }
      CoversIs(r, c, host);
    }
  }

  lemma {:induction false} GatheredFrom(batches: seq<HistoryCandidates>, kind: Kind, c: Candidate)
    returns (batch: HistoryCandidates)
    requires c in Gather(batches, kind)
    ensures batch in batches && c in batch.Of(kind)
  {
    var init, last := batches[..|batches| - 1], batches[|batches| - 1];
    if c in last.Of(kind) {
      batch := last;
    } else {
      batch := GatheredFrom(init, kind, c);
    }
  }

  /** What the run comes to is something that covers all, or what is left of it. */
  ghost predicate Retains(out: HistoryCandidates, batches: seq<HistoryCandidates>, s: Setting) {
    exists kept ::
      CoversBatches(kept, batches, s.host) && (out == kept || LeftOver(out, kept, s.budget.evidence))
  }

  lemma {:induction false} RoundsRetain(round: nat, current: HistoryCandidates, batches: seq<HistoryCandidates>,
                                        calls: nat, s: Setting)
    requires round <= MAX_CONSOLIDATION_ROUNDS && current.Sorted() && batches != [] && AllSorted(batches)
    requires CoversBatches(current, batches, s.host) && CitingBatches(batches)
    requires FaithfulRounds(round, batches, calls, s)
    ensures Rounds(round, current, batches, calls, s).Some? ==>
              Retains(Rounds(round, current, batches, calls, s).value.candidates, batches, s)
    decreases MAX_CONSOLIDATION_ROUNDS - round
  {
    hide Partitioned, LeftOver, Rounds, CoversBatches, CitingBatches, Fallback, CallBatches, MergeRound, AllSorted,
      Faithful;
    if round == MAX_CONSOLIDATION_ROUNDS {
      RoundsEnd(current, batches, calls, s);
      FallbackLeaves(current, s.budget.evidence);
    } else {
      RoundsStep(round, current, batches, calls, s);
      RoundCovers(batches, calls, s);
      var merged := MergeRound(batches, calls, s);
      if |batches| == 1 {
        OneCovers(batches, calls, s);
      } else if Partitioned(merged, s.budget).Some? {
        PartsSorted(merged, s.budget);
        PartsCover(merged, s.budget, s.host);
        var next := Partitioned(merged, s.budget).value;
        if |next| >= |batches| {
          FallbackLeaves(merged, s.budget.evidence);
        } else {
          RoundsRetain(round + 1, merged, next, calls + |batches|, s);
          if Rounds(round + 1, merged, next, calls + |batches|, s).Some? {
            RetainsBack(Rounds(round + 1, merged, next, calls + |batches|, s).value.candidates, merged, next, batches,
                        s);
          }
        }
      }
    }
  }

  lemma OneCovers(batches: seq<HistoryCandidates>, calls: nat, s: Setting)
    requires |batches| == 1 && AllSorted(batches) && Faithful(batches, calls, s) && CitingBatches(batches)
    ensures Retains(CallBatches(batches, calls, s)[0], batches, s)
  {
    hide CoversAll;
    CallsCover(batches, calls, s);
    assert CoversBatches(CallBatches(batches, calls, s)[0], batches, s.host);
  }

  lemma RetainsBack(out: HistoryCandidates, merged: HistoryCandidates, next: seq<HistoryCandidates>,
                    batches: seq<HistoryCandidates>, s: Setting)
    requires Retains(out, next, s) && CoversBatches(merged, batches, s.host)
    requires forall r :: CoversBatches(r, next, s.host) ==> CoversAll(r, merged, s.host)
    ensures Retains(out, batches, s)
  {
    hide CoversAll, LeftOver;
    var kept :|
      CoversBatches(kept, next, s.host) && (out == kept || LeftOver(out, kept, s.budget.evidence));
    assert CoversAll(kept, merged, s.host);
    forall batch | batch in batches ensures CoversAll(kept, batch, s.host) {
      CoversTrans(kept, merged, batch, s.host);
    }
    assert CoversBatches(kept, batches, s.host);
  }

  /** A model that repeats what it is shown loses nothing: when every answer can be read and repeats the claims it was
      shown with the evidence shown, every key of the input is among what the run comes to, terms apart that the end of
      the rounds leaves out because no two messages use them. */
  lemma NothingLost(candidates: HistoryCandidates, s: Setting)
    requires candidates.Sorted() && candidates.Total() > 0 && CitingAll(candidates) && FaithfulRun(candidates, s)
    requires Hierarchical(candidates, s).Some?
    ensures exists kept ::
              && CoversAll(kept, candidates, s.host)
              && (Hierarchical(candidates, s).value.candidates == kept
                  || LeftOver(Hierarchical(candidates, s).value.candidates, kept, s.budget.evidence))
  {
    hide Partitioned, LeftOver, Rounds, CoversBatches, CoversAll, CitingBatches, CitingAll, FaithfulRounds, AllSorted;
    PartsSorted(candidates, s.budget);
    PartsCover(candidates, s.budget, s.host);
    var batches := Partitioned(candidates, s.budget).value;
    RoundsRetain(0, candidates, batches, 0, s);
    var out := Rounds(0, candidates, batches, 0, s).value.candidates;
    assert Retains(out, batches, s);
    var kept :|
      CoversBatches(kept, batches, s.host) && (out == kept || LeftOver(out, kept, s.budget.evidence));
    assert CoversAll(kept, candidates, s.host);
  }
}
