/**
 The end of a learning run: what consolidation leaves is grounded in the messages of the stream, by the strict rules
 under which its answers are read, whatever the model said in any window or any round.
 */
module Conclusion {
  import opened Candidates
  import opened Consolidation
  import opened Continuation
  import ExportText
  import opened Greedy
  import opened Grounding
  import opened Ingest
  import opened Learning
  import opened Merge
  import opened NaturalWindow
  import opened Paging
  import opened Partition
  import opened Prelude
  import opened Scheduler
  import opened Seqs
  import opened Windows

  /** The rules for consolidated candidates: a term needs two messages. */
  function Strict(ctx: Context): Context {
    ctx.(requireRepeated := true, provenance := [])
  }

  /** The answers are replies read by the strict rules; which replies is for the model to say. */
  ghost predicate ReadsReplies(s: Setting, ctx: Context, reply: nat -> Option<Reply>) {
    forall call :: match reply(call)
                   case None => s.answer(call) == None
                   case Some(r) => s.answer(call).Some? && s.answer(call).value == Parse(r, Strict(ctx))
  }

  // ----- what a reply can be read as

  lemma NoSources()
    ensures CleanProvenance([]) == [] && FirstDistinct<string>([], MAX_PROVENANCE) == []
  {
    assert Filter(NotBlank, []) == [];
  }

  lemma {:induction false} DedupSourceless(items: seq<Candidate>, host: Host)
    requires Sourceless(items)
    ensures Sourceless(Dedup(items, host))
  {
    hide Key, CleanProvenance, FirstDistinct;
    NoSources();
    if items != [] {
      var init, c := items[..|items| - 1], items[|items| - 1];
      assert items == init + [c];
      DedupSourceless(init, host);
      var none: seq<string> := [];
      assert none + none == none;
    }
  }

  lemma {:induction false} AcceptAllSourceless(items: seq<Option<RawItem>>, kind: Kind, ctx: Context)
    requires ctx.provenance == []
    ensures Sourceless(AcceptAll(items, kind, ctx)) && SameKind(AcceptAll(items, kind, ctx), kind)
  {
    hide ClaimOf, Importance, Score, Backing, EvidenceIds, Admitted, Suffices;
    if items != [] {
      AcceptAllSourceless(items[..|items| - 1], kind, ctx);
    }
  }

  lemma ParseKindSourceless(items: seq<Option<RawItem>>, kind: Kind, ctx: Context)
    requires ctx.provenance == []
    ensures Sourceless(ParseKind(items, kind, ctx)) && SameKind(ParseKind(items, kind, ctx), kind)
  {
    hide Dedup, AcceptAll;
    var taken := First(items, Maximum(kind));
    AcceptAllSourceless(taken, kind, ctx);
    DedupSourceless(AcceptAll(taken, kind, ctx), ctx.host);
    DedupClaims(AcceptAll(taken, kind, ctx), kind, ctx.host);
  }

  /** Every reply is one of the answers consolidation is modelled with. */
  lemma ReplyIsParsed(reply: Reply, ctx: Context)
    requires ctx.provenance == []
    ensures Parsed(Parse(reply, ctx))
  {
    hide ParseKind;
    ParseKindSourceless(reply.expressions, Expression, ctx);
    ParseKindSourceless(reply.behaviors, Behavior, ctx);
    ParseKindSourceless(reply.jargons, Jargon, ctx);
    ParseKindSourceless(reply.memories, Memory, ctx);
    ParseKindSourceless(reply.profiles, Profile, ctx);
  }

  // ----- one call

  lemma StrictSuffices(ids: seq<string>, claim: Claim, ctx: Context)
    ensures Suffices(ids, claim, Strict(ctx)) <==> Suffices(ids, claim, ctx) && (claim.JargonClaim? ==> |ids| >= 2)
  {
    if claim.BehaviorClaim? {
      assert ActorGrounded(claim.actorType, claim.learningType, ids, Strict(ctx).evidence)
        <==> ActorGrounded(claim.actorType, claim.learningType, ids, ctx.evidence);
    }
  }

  /** What meets the strict rules meets the others; for anything but a term, they are the same. */
  lemma StrictGrounded(c: Candidate, ctx: Context)
    ensures Grounded(c, Strict(ctx)) <==> Grounded(c, ctx) && (c.claim.JargonClaim? ==> |c.evidenceIds| >= 2)
  {
    StrictSuffices(c.evidenceIds, c.claim, ctx);
    hide Suffices;
    forall m ensures Supports(m, c.claim, Strict(ctx)) <==> Supports(m, c.claim, ctx) {
    }
  }

  lemma StrictWellGrounded(c: HistoryCandidates, ctx: Context)
    requires WellGrounded(c, Strict(ctx))
    ensures WellGrounded(c, ctx)
  {
    hide Grounded;
    forall kind: Kind, x | x in c.Of(kind) ensures Grounded(x, ctx) {
      WellGroundedOf(c, kind, Strict(ctx));
      StrictGrounded(x, ctx);
    }
    assert AllGrounded(c.Of(Expression), ctx) && AllGrounded(c.Of(Behavior), ctx) && AllGrounded(c.Of(Jargon), ctx);
    assert AllGrounded(c.Of(Memory), ctx) && AllGrounded(c.Of(Profile), ctx);
  }

  /** Restricting and inheriting sources touches nothing a candidate is judged by. */
  lemma {:induction false} RestrictGrounded(answer: seq<Candidate>, source: seq<Candidate>, kind: Kind, host: Host,
                                            ctx: Context)
    requires AllGrounded(answer, ctx) && SameKind(answer, kind)
    ensures AllGrounded(RestrictKind(answer, source, host), ctx) && SameKind(RestrictKind(answer, source, host), kind)
  {
    hide Grounded, Allowed;
    if answer != [] {
      var init, c := answer[..|answer| - 1], answer[|answer| - 1];
      assert answer == init + [c];
      RestrictGrounded(init, source, kind, host, ctx);
    }
  }

  lemma {:induction false} InheritGrounded(items: seq<Candidate>, source: seq<Candidate>, kind: Kind, host: Host,
                                           ctx: Context)
    requires AllGrounded(items, ctx) && SameKind(items, kind)
    ensures AllGrounded(InheritKind(items, source, host), ctx) && SameKind(InheritKind(items, source, host), kind)
  {
    hide Grounded, Inherit;
    if items != [] {
      var init, c := items[..|items| - 1], items[|items| - 1];
      assert items == init + [c];
      InheritGrounded(init, source, kind, host, ctx);
      InheritsGrounded(c, source, host, ctx);
    }
  }

  lemma InheritsGrounded(c: Candidate, source: seq<Candidate>, host: Host, ctx: Context)
    requires Grounded(c, ctx)
    ensures Grounded(Inherit(c, source, host), ctx) && Inherit(c, source, host).claim == c.claim
  {
    hide Supports, Suffices, Admitted, InheritSources, CleanProvenance;
  }

  lemma AcceptKindGrounded(answer: HistoryCandidates, batch: HistoryCandidates, kind: Kind, host: Host, ctx: Context)
    requires WellGrounded(answer, ctx)
    ensures var r := AcceptKind(answer.Of(kind), batch.Of(kind), host); AllGrounded(r, ctx) && SameKind(r, kind)
  {
    hide Grounded, RestrictKind, InheritKind, ShownKind;
    WellGroundedOf(answer, kind, ctx);
    var shown := ShownKind(batch.Of(kind));
    RestrictGrounded(answer.Of(kind), shown, kind, host, ctx);
    InheritGrounded(RestrictKind(answer.Of(kind), shown, host), shown, kind, host, ctx);
  }

  lemma AcceptGrounded(answer: HistoryCandidates, batch: HistoryCandidates, host: Host, ctx: Context)
    requires WellGrounded(answer, ctx)
    ensures WellGrounded(Consolidation.Accept(answer, batch, host), ctx)
  {
    AcceptKindGrounded(answer, batch, Expression, host, ctx);
    AcceptKindGrounded(answer, batch, Behavior, host, ctx);
    AcceptKindGrounded(answer, batch, Jargon, host, ctx);
    AcceptKindGrounded(answer, batch, Memory, host, ctx);
    AcceptKindGrounded(answer, batch, Profile, host, ctx);
    hide AllGrounded, AcceptKind, SameKind;
  }

  function Members(s: seq<string>): set<string> {
    set id | id in s
  }

  lemma {:induction false} MembersBound(s: seq<string>)
    ensures |Members(s)| <= |s|
  {
    if s != [] {
      var init, last := s[..|s| - 1], s[|s| - 1];
      assert s == init + [last];
      MembersBound(init);
      assert Members(s) == Members(init) + {last};
    }
  }

  lemma OccurrencesBound(c: Candidate, evidence: map<string, Message>)
    requires c.claim.JargonClaim?
    ensures |Occurrences(c, evidence)| <= |c.evidenceIds|
  {
    MembersBound(c.evidenceIds);
    SubsetSize(Occurrences(c, evidence), Members(c.evidenceIds));
  }

  lemma {:induction false} RepeatedGrounded(jargons: seq<Candidate>, evidence: map<string, Message>, ctx: Context)
    requires SameKind(jargons, Jargon) && AllGrounded(jargons, ctx)
    ensures AllGrounded(RepeatedJargons(jargons, evidence), Strict(ctx))
            && SameKind(RepeatedJargons(jargons, evidence), Jargon)
  {
    hide Grounded, Occurrences;
    if jargons != [] {
      var init, c := jargons[..|jargons| - 1], jargons[|jargons| - 1];
      assert jargons == init + [c];
      RepeatedGrounded(init, evidence, ctx);
      OccurrencesBound(c, evidence);
      StrictGrounded(c, ctx);
    }
  }

  /** The deterministic fallback leaves only terms in two messages. */
  lemma FallbackGrounded(batch: HistoryCandidates, evidence: map<string, Message>, ctx: Context)
    requires WellGrounded(batch, ctx)
    ensures WellGrounded(Fallback(batch, evidence), Strict(ctx))
  {
    hide Grounded, RepeatedJargons;
    RepeatedGrounded(batch.jargons, evidence, ctx);
    forall kind: Kind, x | kind != Jargon && x in batch.Of(kind) ensures Grounded(x, Strict(ctx)) {
      WellGroundedOf(batch, kind, ctx);
      StrictGrounded(x, ctx);
    }
    assert AllGrounded(batch.Of(Expression), Strict(ctx)) && AllGrounded(batch.Of(Behavior), Strict(ctx));
    assert AllGrounded(batch.Of(Memory), Strict(ctx)) && AllGrounded(batch.Of(Profile), Strict(ctx));
  }

  lemma ConsolidateGrounded(batch: HistoryCandidates, call: nat, s: Setting, ctx: Context, reply: nat -> Option<Reply>)
    requires WellGrounded(batch, ctx) && ReadsReplies(s, ctx, reply)
    ensures WellGrounded(Consolidate(batch, call, s), Strict(ctx))
  {
    hide Fallback, Consolidation.Accept, Parse, AllGrounded;
    if s.answer(call) == None {
      FallbackGrounded(batch, s.budget.evidence, ctx);
    } else {
      assert reply(call).Some?;
      ParseGrounded(reply(call).value, Strict(ctx));
      AcceptGrounded(s.answer(call).value, batch, s.host, Strict(ctx));
    }
  }

  // ----- the rounds

  lemma {:induction false} CallsGrounded(batches: seq<HistoryCandidates>, first: nat, s: Setting, ctx: Context,
                                         reply: nat -> Option<Reply>)
    requires AllSorted(batches) && EachGrounded(batches, ctx) && ReadsReplies(s, ctx, reply)
    ensures EachGrounded(CallBatches(batches, first, s), Strict(ctx))
  {
    hide WellGrounded, Consolidate, ReadsReplies;
    if batches != [] {
      CallsGrounded(batches[..|batches| - 1], first, s, ctx, reply);
      ConsolidateGrounded(batches[|batches| - 1], first + |batches| - 1, s, ctx, reply);
    }
  }

  lemma PartsGrounded(candidates: HistoryCandidates, b: Budget, ctx: Context)
    requires WellGrounded(candidates, ctx) && Partitioned(candidates, b).Some?
    ensures EachGrounded(Partitioned(candidates, b).value, ctx) && AllSorted(Partitioned(candidates, b).value)
  {
    hide Partitioned, Grounded;
    PartitionIs(candidates, b);
    PartsSorted(candidates, b);
    var batches := Partitioned(candidates, b).value;
    forall batch | batch in batches ensures WellGrounded(batch, ctx) {
      forall kind: Kind, c | c in batch.Of(kind) ensures Grounded(c, ctx) {
        GatherHas(batches, kind, batch, c);
        assert c in candidates.Of(kind);
        WellGroundedOf(candidates, kind, ctx);
      }
      assert AllGrounded(batch.Of(Expression), ctx) && AllGrounded(batch.Of(Behavior), ctx)
             && AllGrounded(batch.Of(Jargon), ctx);
      assert AllGrounded(batch.Of(Memory), ctx) && AllGrounded(batch.Of(Profile), ctx);
    }
  }

  lemma SortedWhenGrounded(c: HistoryCandidates, ctx: Context)
    requires WellGrounded(c, ctx)
    ensures c.Sorted()
  {
  }

  lemma {:induction false} RoundsGrounded(round: nat, current: HistoryCandidates, batches: seq<HistoryCandidates>,
                                          calls: nat, s: Setting,
                                          ctx: Context, reply: nat -> Option<Reply>)
    requires round <= MAX_CONSOLIDATION_ROUNDS && current.Sorted() && batches != [] && AllSorted(batches)
    requires s.host == ctx.host && ReadsReplies(s, ctx, reply)
    requires WellGrounded(current, ctx) && EachGrounded(batches, ctx)
    ensures Rounds(round, current, batches, calls, s).Some? ==>
              WellGrounded(Rounds(round, current, batches, calls, s).value.candidates, Strict(ctx))
    decreases MAX_CONSOLIDATION_ROUNDS - round
  {
    hide WellGrounded, ReadsReplies, Partitioned, Fallback, CallBatches, MergeWindows, AllSorted;
    if round == MAX_CONSOLIDATION_ROUNDS {
      FallbackGrounded(current, s.budget.evidence, ctx);
    } else {
      CallsGrounded(batches, calls, s, ctx, reply);
      if |batches| > 1 {
        var merged := MergeRound(batches, calls, s);
        MergeWindowsGrounded(CallBatches(batches, calls, s), Strict(ctx));
        StrictWellGrounded(merged, ctx);
        FallbackGrounded(merged, s.budget.evidence, ctx);
        if Partitioned(merged, s.budget).Some? {
          PartsSorted(merged, s.budget);
          PartsGrounded(merged, s.budget, ctx);
          var next := Partitioned(merged, s.budget).value;
          if |next| < |batches| {
            RoundsGrounded(round + 1, merged, next, calls + |batches|, s, ctx, reply);
          }
        }
      }
    }
  }

  /** Whatever the model answers in any round, consolidating grounded candidates leaves candidates that are grounded by
      the strict rules. */
  lemma ConsolidatedGrounded(candidates: HistoryCandidates, s: Setting, ctx: Context, reply: nat -> Option<Reply>)
    requires candidates.Sorted() && WellGrounded(candidates, ctx)
    requires s.host == ctx.host && ReadsReplies(s, ctx, reply)
    ensures Hierarchical(candidates, s).Some? ==>
              WellGrounded(Hierarchical(candidates, s).value.candidates, Strict(ctx))
  {
    hide Grounded, ReadsReplies, Partitioned, Rounds;
    if candidates.Total() > 0 && Partitioned(candidates, s.budget).Some? {
      PartsSorted(candidates, s.budget);
      PartsGrounded(candidates, s.budget, ctx);
      RoundsGrounded(0, candidates, Partitioned(candidates, s.budget).value, 0, s, ctx, reply);
    }
  }

  /** A whole run, from the stream to the candidates to be stored: whatever the model answers to any page of any window
      and in any round of consolidation, and however extraction is scheduled, interrupted and resumed, every candidate
      that comes out cites messages of the stream only, and meets the strict rules over them. */
  lemma RunGrounded(plan: Plan, s: seq<Message>, o: Limits, job: Job, actions: seq<Action>, setting: Setting,
                    reply: nat -> Option<Reply>)
    requires Learns(plan, s, o, job) && plan.Valid() && DistinctIds(s)
    requires Scheduler.Run(plan, actions).Some? && Complete(plan, Scheduler.Run(plan, actions).value)
    requires var r := Scheduler.Run(plan, actions).value.results;
             setting.host == job.host && setting.budget.evidence == r.evidence
               && ReadsReplies(setting, Rulebook(r.evidence, job), reply)
    ensures var r := Scheduler.Run(plan, actions).value.results;
            var merged := MergeWindows(r.extracted, job.host);
            && (forall id :: id in r.evidence ==> r.evidence[id] in s && r.evidence[id].messageId == id)
            && merged.Sorted()
            && (Hierarchical(merged, setting).Some? ==>
                  WellGrounded(Hierarchical(merged, setting).value.candidates, Strict(Rulebook(r.evidence, job))))
  {
    hide WellGrounded, Hierarchical, ReadsReplies, Learns, DistinctIds, MergeWindows;
    LearnedGrounded(plan, s, o, job, actions);
    var r := Scheduler.Run(plan, actions).value.results;
    var merged := MergeWindows(r.extracted, job.host);
    SortedWhenGrounded(merged, Rulebook(r.evidence, job));
    ConsolidatedGrounded(merged, setting, Rulebook(r.evidence, job), reply);
  }

  /** The same from the events of an export: that no id occurs twice is what reading them establishes. */
  lemma ExportGrounded(plan: Plan, events: seq<ExportText.Event>, known: set<string>, c: Importer, o: Limits, job: Job,
                       actions: seq<Action>,
                       setting: Setting, reply: nat -> Option<Reply>)
    requires Learns(plan, Ingested(events, known, c), o, job) && plan.Valid()
    requires Scheduler.Run(plan, actions).Some? && Complete(plan, Scheduler.Run(plan, actions).value)
    requires var r := Scheduler.Run(plan, actions).value.results;
             setting.host == job.host && setting.budget.evidence == r.evidence
               && ReadsReplies(setting, Rulebook(r.evidence, job), reply)
    ensures var r := Scheduler.Run(plan, actions).value.results;
            var merged := MergeWindows(r.extracted, job.host);
            && (forall id :: id in r.evidence ==>
                r.evidence[id] in Ingested(events, known, c) && r.evidence[id].messageId == id)
            && merged.Sorted()
            && (Hierarchical(merged, setting).Some? ==>
                  WellGrounded(Hierarchical(merged, setting).value.candidates, Strict(Rulebook(r.evidence, job))))
  {
    hide *;
    IngestedDistinct(events, known, c);
    RunGrounded(plan, Ingested(events, known, c), o, job, actions, setting, reply);
  }
}
