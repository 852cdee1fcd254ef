/**
 Hierarchical consolidation: a model, which may answer anything, is asked to consolidate bounded batches of
 candidates round after round; its answers are restricted to what the batch it saw already contained.
 */
module Consolidation {
  import opened Candidates
  import opened Greedy
  import opened Merge
  import opened Partition
  import opened Prelude
  import opened Seqs

  const MAX_CONSOLIDATION_ROUNDS: nat := 12

  /** What parsing a model response can give: candidates sorted by kind, without provenance. */
  predicate Parsed(c: HistoryCandidates) {
    c.Sorted() && Sourceless(c.expressions) && Sourceless(c.behaviors) && Sourceless(c.jargons)
    && Sourceless(c.memories) && Sourceless(c.profiles)
  }

  predicate Sourceless(items: seq<Candidate>) {
    forall c :: c in items ==> c.provenance == []
  }

  type ParsedCandidates = c: HistoryCandidates | Parsed(c) witness NONE

  /** The model's answers, call by call; None is a response that cannot be parsed. */
  type Answers = nat -> Option<ParsedCandidates>

  datatype Setting = Setting(host: Host, budget: Budget, answer: Answers)

  // ----- one call

  /** The kind-specific part of a claim that consolidation must not invent. */
  function Tag(claim: Claim, host: Host): seq<string> {
    match claim
    case ExpressionClaim(_, _) => []
    case BehaviorClaim(actorType, learningType, _, _) => [actorType, learningType]
    case JargonClaim(content, _) => [host.fold(content)]
    case MemoryClaim(atomType, _, subjectId) => [atomType, subjectId]
    case ProfileClaim(subjectId, category, _, _) => [subjectId, category]
  }

  predicate Cited(id: string, items: seq<Candidate>) {
    exists c :: c in items && id in c.evidenceIds
  }

  predicate Tagged(tag: seq<string>, items: seq<Candidate>, host: Host) {
    exists c :: c in items && Tag(c.claim, host) == tag
  }

  predicate Sourced(source: string, items: seq<Candidate>) {
    exists c :: c in items && source in c.provenance
  }

  /** The candidate cites something, nothing the batch did not, and under a tag of the batch (expressions have none). */
  predicate Allowed(c: Candidate, source: seq<Candidate>, host: Host) {
    && c.evidenceIds != [] && (forall id :: id in c.evidenceIds ==> Cited(id, source))
    && (c.claim.ExpressionClaim? || Tagged(Tag(c.claim, host), source, host))
  }

  function RestrictKind(answer: seq<Candidate>, source: seq<Candidate>, host: Host): seq<Candidate> {
    if answer == [] then []
    else
      var rest, c := RestrictKind(answer[..|answer| - 1], source, host), answer[|answer| - 1];
      if Allowed(c, source, host) then rest + [c] else rest
  }

  function InheritSources(c: Candidate, source: seq<Candidate>, host: Host): seq<string> {
    if source == [] then c.provenance
    else
      var rest, o := InheritSources(c, source[..|source| - 1], host), source[|source| - 1];
      if (exists id :: id in c.evidenceIds && id in o.evidenceIds) || Identity(c.claim, host) == Identity(o.claim, host)
      then rest + o.provenance else rest
  }

  function Inherit(c: Candidate, source: seq<Candidate>, host: Host): Candidate {
    WithMetadata(c.(provenance := InheritSources(c, source, host)), host)
  }

  function InheritKind(items: seq<Candidate>, source: seq<Candidate>, host: Host): seq<Candidate> {
    if items == [] then []
    else
      var c := items[|items| - 1];
      InheritKind(items[..|items| - 1], source, host) + [Inherit(c, source, host)]
  }

  /** Candidates as the prompt shows them: two evidence ids each. */
  function ShownKind(items: seq<Candidate>): seq<Candidate> {
    if items == [] then []
    else
      var c := items[|items| - 1];
      ShownKind(items[..|items| - 1]) + [c.(evidenceIds := First(c.evidenceIds, MAX_PROMPT_EVIDENCE_IDS))]
  }

  function AcceptKind(answer: seq<Candidate>, batch: seq<Candidate>, host: Host): seq<Candidate> {
    var shown := ShownKind(batch);
    InheritKind(RestrictKind(answer, shown, host), shown, host)
  }

  function Accept(answer: HistoryCandidates, batch: HistoryCandidates, host: Host): HistoryCandidates {
    HistoryCandidates(
      AcceptKind(answer.expressions, batch.expressions, host),
      AcceptKind(answer.behaviors, batch.behaviors, host),
      AcceptKind(answer.jargons, batch.jargons, host),
      AcceptKind(answer.memories, batch.memories, host),
      AcceptKind(answer.profiles, batch.profiles, host))
  }

  /** Evidence messages, not the bot's own, in which the term occurs. */
  function Occurrences(c: Candidate, evidence: map<string, Message>): set<string>
    requires c.claim.JargonClaim?
  {
    set id | id in c.evidenceIds && id in evidence && Contains(evidence[id].content, c.claim.content)
      && !evidence[id].isBot
  }

  function RepeatedJargons(jargons: seq<Candidate>, evidence: map<string, Message>): seq<Candidate>
    requires SameKind(jargons, Jargon)
  {
    if jargons == [] then []
    else
      var rest, c := RepeatedJargons(jargons[..|jargons| - 1], evidence), jargons[|jargons| - 1];
      if |Occurrences(c, evidence)| >= 2 then rest + [c] else rest
  }

  function Fallback(candidates: HistoryCandidates, evidence: map<string, Message>): HistoryCandidates
    requires candidates.Sorted()
  {
    candidates.(jargons := RepeatedJargons(candidates.jargons, evidence))
  }

  /** The result of the `call`-th call, for one batch. */
  function Consolidate(batch: HistoryCandidates, call: nat, s: Setting): HistoryCandidates
    requires batch.Sorted()
  {
    match s.answer(call)
    case None => Fallback(batch, s.budget.evidence)
    case Some(answer) => Accept(answer, batch, s.host)
  }

  // ----- no promotion

  /** The candidate cites only evidence and sources cited in `source`, under a tag that occurs there. */
  ghost predicate From(c: Candidate, source: seq<Candidate>, host: Host) {
    && (forall id :: id in c.evidenceIds ==> Cited(id, source))
    && (forall p :: p in c.provenance ==> Sourced(p, source))
    && Tagged(Tag(c.claim, host), source, host)
  }

  ghost predicate AllFrom(items: seq<Candidate>, source: seq<Candidate>, host: Host) {
    forall c :: c in items ==> From(c, source, host)
  }

  /** Kind by kind, nothing is cited or claimed that was not before. */
  ghost predicate NothingPromoted(result: HistoryCandidates, source: HistoryCandidates, host: Host) {
    forall kind: Kind :: AllFrom(result.Of(kind), source.Of(kind), host)
  }

  lemma FromSelf(items: seq<Candidate>, host: Host)
    ensures AllFrom(items, items, host)
  {
  }

  lemma FromTransitive(a: seq<Candidate>, b: seq<Candidate>, c: seq<Candidate>, host: Host)
    requires AllFrom(a, b, host) && AllFrom(b, c, host)
    ensures AllFrom(a, c, host)
  {
    forall x | x in a ensures From(x, c, host) {
      assert From(x, b, host);
      forall id | id in x.evidenceIds ensures Cited(id, c) {
        var y :| y in b && id in y.evidenceIds;
        assert From(y, c, host);
      }
      forall p | p in x.provenance ensures Sourced(p, c) {
        var y :| y in b && p in y.provenance;
        assert From(y, c, host);
      }
      var y :| y in b && Tag(y.claim, host) == Tag(x.claim, host);
      assert From(y, c, host);
    }
  }

  lemma {:induction false} ShownFrom(items: seq<Candidate>, host: Host)
    ensures AllFrom(ShownKind(items), items, host) && (items != [] ==> ShownKind(items) != [])
  {
    if items != [] {
      var init, c := items[..|items| - 1], items[|items| - 1];
      ShownFrom(init, host);
      assert c in items;
      FromSelf(items, host);
      forall x | x in ShownKind(init) ensures From(x, items, host) {
        assert AllFrom(init, items, host);
        FromTransitive(ShownKind(init), init, items, host);
      }
    }
  }

  /** The original's evidence or identity is the candidate's. */
  predicate Related(c: Candidate, o: Candidate, host: Host) {
    (exists id :: id in c.evidenceIds && id in o.evidenceIds) || Identity(c.claim, host) == Identity(o.claim, host)
  }

  /** A candidate's sources are its own and those of all related originals, and no others. */
  lemma {:induction false} SourcesAre(c: Candidate, source: seq<Candidate>, host: Host, p: string)
    ensures p in InheritSources(c, source, host) <==>
            p in c.provenance || exists o :: o in source && Related(c, o, host) && p in o.provenance
  {
    hide Identity;
    if source != [] {
      var init, last := source[..|source| - 1], source[|source| - 1];
      SourcesAre(c, init, host, p);
      assert source == init + [last];
      if exists o :: o in init && Related(c, o, host) && p in o.provenance {
        var o :| o in init && Related(c, o, host) && p in o.provenance;
        assert o in source;
      }
      assert Related(c, last, host) && p in last.provenance ==> last in source;
    }
  }

  /** Exactly the allowed candidates of an answer are kept. */
  lemma {:induction false} RestrictIs(answer: seq<Candidate>, source: seq<Candidate>, host: Host)
    ensures forall c :: c in RestrictKind(answer, source, host) <==> c in answer && Allowed(c, source, host)
  {
    hide Allowed;
    if answer != [] {
      RestrictIs(answer[..|answer| - 1], source, host);
      assert answer == answer[..|answer| - 1] + [answer[|answer| - 1]];
    }
  }

  lemma {:induction false} SourcesInherited(c: Candidate, source: seq<Candidate>, host: Host)
    ensures forall p :: p in InheritSources(c, source, host) ==> p in c.provenance || Sourced(p, source)
  {
    if source != [] {
      SourcesInherited(c, source[..|source| - 1], host);
      assert source[|source| - 1] in source;
    }
  }

  lemma CleanMembers(sources: seq<string>)
    ensures forall p :: p in CleanProvenance(sources) ==> p in sources
  {
    FilterMembers(NotBlank, sources);
    forall p | p in CleanProvenance(sources) ensures p in sources {
      DistinctHas(Filter(NotBlank, sources), p);
    }
  }

  lemma InheritFrom(c: Candidate, source: seq<Candidate>, kind: Kind, host: Host)
    requires c.provenance == [] && Allowed(c, source, host) && c.claim.Kind() == kind && SameKind(source, kind)
    ensures From(Inherit(c, source, host), source, host)
  {
    hide CleanProvenance;
    SourcesInherited(c, source, host);
    CleanMembers(InheritSources(c, source, host));
    if c.claim.ExpressionClaim? {
      assert Cited(c.evidenceIds[0], source);
      var o :| o in source && c.evidenceIds[0] in o.evidenceIds;
      assert Tag(o.claim, host) == [];
    }
  }

  /** Whatever the answer says about a kind, what is accepted is from the batch. */
  lemma {:induction false} AcceptedFrom(answer: seq<Candidate>, source: seq<Candidate>, kind: Kind, host: Host)
    requires Sourceless(answer) && SameKind(answer, kind) && SameKind(source, kind)
    ensures AllFrom(InheritKind(RestrictKind(answer, source, host), source, host), source, host)
    ensures SameKind(InheritKind(RestrictKind(answer, source, host), source, host), kind)
  {
    hide From, Inherit, Allowed;
    if answer != [] {
      var init, c := answer[..|answer| - 1], answer[|answer| - 1];
      AcceptedFrom(init, source, kind, host);
      if Allowed(c, source, host) {
        InheritFrom(c, source, kind, host);
        InheritClaim(c, source, host);
        SnocParts(RestrictKind(init, source, host), c);
      }
    }
  }

  lemma InheritClaim(c: Candidate, source: seq<Candidate>, host: Host)
    ensures Inherit(c, source, host).claim == c.claim
  {
  }

  lemma {:induction false} ShownSame(items: seq<Candidate>, kind: Kind)
    requires SameKind(items, kind)
    ensures SameKind(ShownKind(items), kind)
  {
    if items != [] {
      ShownSame(items[..|items| - 1], kind);
    }
  }

  lemma AcceptKindFrom(answer: seq<Candidate>, batch: seq<Candidate>, kind: Kind, host: Host)
    requires Sourceless(answer) && SameKind(answer, kind) && SameKind(batch, kind)
    ensures AllFrom(AcceptKind(answer, batch, host), batch, host) && SameKind(AcceptKind(answer, batch, host), kind)
  {
    hide AllFrom;
    ShownSame(batch, kind);
    ShownFrom(batch, host);
    AcceptedFrom(answer, ShownKind(batch), kind, host);
    FromTransitive(AcceptKind(answer, batch, host), ShownKind(batch), batch, host);
  }

  /** The fallback keeps exactly the terms that occur in two cited messages not the bot's own. */
  lemma {:induction false} RepeatedFrom(jargons: seq<Candidate>, evidence: map<string, Message>)
    requires SameKind(jargons, Jargon)
    ensures forall c :: c in RepeatedJargons(jargons, evidence) <==> c in jargons && |Occurrences(c, evidence)| >= 2
  {
    if jargons != [] {
      RepeatedFrom(jargons[..|jargons| - 1], evidence);
      assert jargons == jargons[..|jargons| - 1] + [jargons[|jargons| - 1]];
    }
  }

  lemma FallbackFrom(batch: HistoryCandidates, evidence: map<string, Message>, host: Host)
    requires batch.Sorted()
    ensures NothingPromoted(Fallback(batch, evidence), batch, host) && Fallback(batch, evidence).Sorted()
  {
    RepeatedFrom(batch.jargons, evidence);
    FromSelf(batch.jargons, host);
    forall kind: Kind ensures AllFrom(Fallback(batch, evidence).Of(kind), batch.Of(kind), host) {
      FromSelf(batch.Of(kind), host);
    }
  }

  /** One call promotes nothing, whatever the model answers. */
  lemma ConsolidateFrom(batch: HistoryCandidates, call: nat, s: Setting)
    requires batch.Sorted()
    ensures NothingPromoted(Consolidate(batch, call, s), batch, s.host) && Consolidate(batch, call, s).Sorted()
  {
    hide AllFrom, AcceptKind;
    match s.answer(call)
    case None => FallbackFrom(batch, s.budget.evidence, s.host);
    case Some(answer) =>
      AcceptKindFrom(answer.expressions, batch.expressions, Expression, s.host);
      AcceptKindFrom(answer.behaviors, batch.behaviors, Behavior, s.host);
      AcceptKindFrom(answer.jargons, batch.jargons, Jargon, s.host);
      AcceptKindFrom(answer.memories, batch.memories, Memory, s.host);
      AcceptKindFrom(answer.profiles, batch.profiles, Profile, s.host);
      forall kind: Kind ensures AllFrom(Consolidate(batch, call, s).Of(kind), batch.Of(kind), s.host) {
      }
  }

  // ----- merging promotes nothing

  lemma MergeFrom(a: Candidate, b: Candidate, source: seq<Candidate>, host: Host)
    requires From(a, source, host) && From(b, source, host)
    ensures From(MergeEvidence(a, b, host), source, host)
  {
    hide CleanProvenance, FirstDistinct;
    var m := MergeEvidence(a, b, host);
    var sources := FirstDistinct(a.provenance + b.provenance, MAX_PROVENANCE);
    CutDistinct(a.evidenceIds + b.evidenceIds, MAX_EVIDENCE_IDS);
    CutDistinct(a.provenance + b.provenance, MAX_PROVENANCE);
    CleanMembers(sources);
    forall p | p in m.provenance ensures Sourced(p, source) {
      assert p in sources;
      assert p in a.provenance + b.provenance;
    }
  }

  lemma MetadataFrom(c: Candidate, source: seq<Candidate>, host: Host)
    requires From(c, source, host)
    ensures From(WithMetadata(c, host), source, host)
  {
    hide CleanProvenance;
    CleanMembers(c.provenance);
  }

  lemma {:induction false} DedupFrom(items: seq<Candidate>, source: seq<Candidate>, host: Host)
    requires AllFrom(items, source, host)
    ensures AllFrom(Dedup(items, host), source, host)
  {
    hide From, MergeEvidence, WithMetadata;
    if items != [] {
      var init, c := items[..|items| - 1], items[|items| - 1];
      assert items == init + [c];
      DedupFrom(init, source, host);
      MetadataFrom(c, source, host);
      var item, r := WithMetadata(c, host), Dedup(init, host);
      if Key(item.claim, host) in Keys(r, host) {
        var i := IndexOf(Keys(r, host), Key(item.claim, host));
        assert r[i] in r;
        MergeFrom(r[i], item, source, host);
      }
    }
  }

  // ----- rounds

  /** The result, the model calls made and the rounds they took. */
  datatype Outcome = Outcome(candidates: HistoryCandidates, calls: nat, rounds: nat)

  ghost predicate AllSorted(batches: seq<HistoryCandidates>) {
    forall batch :: batch in batches ==> batch.Sorted()
  }

  ghost predicate AllNothingPromoted(batches: seq<HistoryCandidates>, source: HistoryCandidates, host: Host) {
    forall batch :: batch in batches ==> NothingPromoted(batch, source, host)
  }

  ghost function CallBatches(batches: seq<HistoryCandidates>, first: nat, s: Setting): (r: seq<HistoryCandidates>)
    requires AllSorted(batches)
    ensures |r| == |batches|
  {
    if batches == [] then []
    else
      CallBatches(batches[..|batches| - 1], first, s)
      + [Consolidate(batches[|batches| - 1], first + |batches| - 1, s)]
  }

  lemma {:induction false} CallsSorted(batches: seq<HistoryCandidates>, first: nat, s: Setting)
    requires AllSorted(batches)
    ensures AllSorted(CallBatches(batches, first, s))
  {
    hide Consolidate;
    if batches != [] {
      CallsSorted(batches[..|batches| - 1], first, s);
      ConsolidateFrom(batches[|batches| - 1], first + |batches| - 1, s);
    }
  }

  lemma PartsSorted(candidates: HistoryCandidates, b: Budget)
    requires candidates.Sorted() && Partitioned(candidates, b).Some?
    ensures Partitioned(candidates, b).value != [] && AllSorted(Partitioned(candidates, b).value)
  {
    hide Partitioned;
    PartitionIs(candidates, b);
  }

  ghost function MergeRound(batches: seq<HistoryCandidates>, calls: nat, s: Setting): (r: HistoryCandidates)
    requires AllSorted(batches)
    ensures r.Sorted()
  {
    CallsSorted(batches, calls, s);
    MergeSorted(CallBatches(batches, calls, s), s.host);
    MergeWindows(CallBatches(batches, calls, s), s.host)
  }

  /** From the start of a round on; None if a merged candidate alone exceeds the prompt budget. */
  ghost function Rounds(round: nat, current: HistoryCandidates, batches: seq<HistoryCandidates>, calls: nat,
                        s: Setting): Option<Outcome>
    requires round <= MAX_CONSOLIDATION_ROUNDS && current.Sorted() && batches != [] && AllSorted(batches)
    decreases MAX_CONSOLIDATION_ROUNDS - round
  {
    if round == MAX_CONSOLIDATION_ROUNDS then Some(Outcome(Fallback(current, s.budget.evidence), calls, round))
    else
      var calls' := calls + |batches|;
      if |batches| == 1 then Some(Outcome(CallBatches(batches, calls, s)[0], calls', round + 1))
      else
        var merged := MergeRound(batches, calls, s);
        match Partitioned(merged, s.budget)
        case None => None
        case Some(next) =>
          PartsSorted(merged, s.budget);
          if |next| >= |batches| then Some(Outcome(Fallback(merged, s.budget.evidence), calls', round + 1))
          else Rounds(round + 1, merged, next, calls', s)
  }

  ghost function Hierarchical(candidates: HistoryCandidates, s: Setting): Option<Outcome>
    requires candidates.Sorted()
  {
    if candidates.Total() == 0 then Some(Outcome(candidates, 0, 0))
    else match Partitioned(candidates, s.budget)
      case None => None
      case Some(batches) =>
        PartsSorted(candidates, s.budget);
        Rounds(0, candidates, batches, 0, s)
  }

  /** The calls made from the start of a round on, also when the run is refused after it. */
  ghost function RoundCalls(round: nat, batches: seq<HistoryCandidates>, calls: nat, s: Setting): nat
    requires round <= MAX_CONSOLIDATION_ROUNDS && batches != [] && AllSorted(batches)
    decreases MAX_CONSOLIDATION_ROUNDS - round
  {
    if round == MAX_CONSOLIDATION_ROUNDS then calls
    else
      var calls' := calls + |batches|;
      if |batches| == 1 then calls'
      else
        var merged := MergeRound(batches, calls, s);
        match Partitioned(merged, s.budget)
        case None => calls'
        case Some(next) =>
          PartsSorted(merged, s.budget);
          if |next| >= |batches| then calls' else RoundCalls(round + 1, next, calls', s)
  }

  ghost function CallsMade(candidates: HistoryCandidates, s: Setting): nat
    requires candidates.Sorted()
  {
    if candidates.Total() == 0 then 0
    else match Partitioned(candidates, s.budget)
      case None => 0
      case Some(batches) =>
        PartsSorted(candidates, s.budget);
        RoundCalls(0, batches, 0, s)
  }

  // ----- what every run of rounds keeps

  lemma PromotedTransitive(a: HistoryCandidates, b: HistoryCandidates, c: HistoryCandidates, host: Host)
    requires NothingPromoted(a, b, host) && NothingPromoted(b, c, host)
    ensures NothingPromoted(a, c, host)
  {
    hide AllFrom;
    forall kind: Kind ensures AllFrom(a.Of(kind), c.Of(kind), host) {
      FromTransitive(a.Of(kind), b.Of(kind), c.Of(kind), host);
    }
  }

  lemma {:induction false} CallsFrom(batches: seq<HistoryCandidates>, first: nat, source: HistoryCandidates, s: Setting)
    requires AllSorted(batches) && AllNothingPromoted(batches, source, s.host)
    ensures AllNothingPromoted(CallBatches(batches, first, s), source, s.host)
  {
    hide NothingPromoted, Consolidate;
    if batches != [] {
      var last := batches[|batches| - 1];
      CallsFrom(batches[..|batches| - 1], first, source, s);
      ConsolidateFrom(last, first + |batches| - 1, s);
      PromotedTransitive(Consolidate(last, first + |batches| - 1, s), last, source, s.host);
    }
  }

  lemma {:induction false} GatherFrom(results: seq<HistoryCandidates>, kind: Kind, source: HistoryCandidates,
                                      host: Host)
    requires AllNothingPromoted(results, source, host)
    ensures AllFrom(Gather(results, kind), source.Of(kind), host)
  {
    hide From;
    if results != [] {
      var last := results[|results| - 1];
      GatherFrom(results[..|results| - 1], kind, source, host);
      assert NothingPromoted(last, source, host);
      assert AllFrom(last.Of(kind), source.Of(kind), host);
    }
  }

  /** Merging results of which none promotes anything promotes nothing. */
  lemma MergePromotesNothing(results: seq<HistoryCandidates>, source: HistoryCandidates, host: Host)
    requires AllNothingPromoted(results, source, host)
    ensures NothingPromoted(MergeWindows(results, host), source, host)
  {
    hide AllFrom, AllNothingPromoted, Dedup, Gather;
    forall kind: Kind ensures AllFrom(MergeWindows(results, host).Of(kind), source.Of(kind), host) {
      GatherFrom(results, kind, source, host);
      DedupFrom(Gather(results, kind), source.Of(kind), host);
    }
  }

  lemma {:induction false} GatherHas(batches: seq<HistoryCandidates>, kind: Kind, batch: HistoryCandidates,
                                     c: Candidate)
    requires batch in batches && c in batch.Of(kind)
    ensures c in Gather(batches, kind)
  {
    var init, last := batches[..|batches| - 1], batches[|batches| - 1];
    assert batches == init + [last];
    if batch in init {
      GatherHas(init, kind, batch, c);
    }
  }

  lemma PartitionPromotesNothing(candidates: HistoryCandidates, source: HistoryCandidates, s: Setting)
    requires candidates.Sorted() && Partitioned(candidates, s.budget).Some?
             && NothingPromoted(candidates, source, s.host)
    ensures AllNothingPromoted(Partitioned(candidates, s.budget).value, source, s.host)
  {
    hide Partitioned, From;
    PartitionIs(candidates, s.budget);
    var batches := Partitioned(candidates, s.budget).value;
    forall batch | batch in batches ensures NothingPromoted(batch, source, s.host) {
      forall kind: Kind, c | c in batch.Of(kind) ensures From(c, source.Of(kind), s.host) {
        GatherHas(batches, kind, batch, c);
        assert c in candidates.Of(kind);
        assert AllFrom(candidates.Of(kind), source.Of(kind), s.host);
      }
    }
  }

  lemma RoundFrom(batches: seq<HistoryCandidates>, calls: nat, source: HistoryCandidates, s: Setting)
    requires AllSorted(batches) && AllNothingPromoted(batches, source, s.host)
    ensures NothingPromoted(MergeRound(batches, calls, s), source, s.host)
    ensures batches != [] ==> NothingPromoted(CallBatches(batches, calls, s)[0], source, s.host)
  {
    hide NothingPromoted, MergeWindows;
    CallsFrom(batches, calls, source, s);
    MergePromotesNothing(CallBatches(batches, calls, s), source, s.host);
  }

  lemma {:induction false} RoundsPromoteNothing(round: nat, current: HistoryCandidates, batches: seq<HistoryCandidates>,
                                                calls: nat, s: Setting, source: HistoryCandidates)
    requires round <= MAX_CONSOLIDATION_ROUNDS && current.Sorted() && batches != [] && AllSorted(batches)
    requires NothingPromoted(current, source, s.host) && AllNothingPromoted(batches, source, s.host)
    ensures Rounds(round, current, batches, calls, s).Some? ==>
              NothingPromoted(Rounds(round, current, batches, calls, s).value.candidates, source, s.host)
    decreases MAX_CONSOLIDATION_ROUNDS - round
  {
    hide NothingPromoted, Partitioned, Fallback, CallBatches, MergeRound, AllSorted;
    if round == MAX_CONSOLIDATION_ROUNDS {
      FallbackFrom(current, s.budget.evidence, s.host);
      PromotedTransitive(Fallback(current, s.budget.evidence), current, source, s.host);
    } else {
      RoundFrom(batches, calls, source, s);
      if |batches| > 1 {
        var merged := MergeRound(batches, calls, s);
        if Partitioned(merged, s.budget).Some? {
          PartsSorted(merged, s.budget);
          PartitionPromotesNothing(merged, source, s);
          FallbackFrom(merged, s.budget.evidence, s.host);
          PromotedTransitive(Fallback(merged, s.budget.evidence), merged, source, s.host);
          var next := Partitioned(merged, s.budget).value;
          if |next| < |batches| {
            RoundsPromoteNothing(round + 1, merged, next, calls + |batches|, s, source);
          }
        }
      }
    }
  }

  /** Whatever the model answers in any round, every candidate of the result cites only evidence and sources that
      candidates of its kind cited in the input, under a tag that occurred there. */
  lemma NoPromotion(candidates: HistoryCandidates, s: Setting)
    requires candidates.Sorted()
    ensures Hierarchical(candidates, s).Some? ==>
              NothingPromoted(Hierarchical(candidates, s).value.candidates, candidates, s.host)
  {
    hide AllFrom, Partitioned, Rounds;
    forall kind: Kind ensures AllFrom(candidates.Of(kind), candidates.Of(kind), s.host) {
      FromSelf(candidates.Of(kind), s.host);
    }
    if candidates.Total() > 0 && Partitioned(candidates, s.budget).Some? {
      PartsSorted(candidates, s.budget);
      PartitionPromotesNothing(candidates, candidates, s);
      RoundsPromoteNothing(0, candidates, Partitioned(candidates, s.budget).value, 0, s, candidates);
    }
  }

  /** The number of batches falls from round to round, which bounds rounds and calls, those of a refused run too. */
  lemma {:induction false} RoundsBound(round: nat, current: HistoryCandidates, batches: seq<HistoryCandidates>,
                                       calls: nat, s: Setting)
    requires round <= MAX_CONSOLIDATION_ROUNDS && current.Sorted() && batches != [] && AllSorted(batches)
    ensures var r, made := Rounds(round, current, batches, calls, s), RoundCalls(round, batches, calls, s);
            && 2 * made <= 2 * calls + |batches| * (|batches| + 1)
            && (r.Some? ==>
                  r.value.calls == made && r.value.rounds <= MAX_CONSOLIDATION_ROUNDS
                  && r.value.rounds <= round + |batches|)
    decreases MAX_CONSOLIDATION_ROUNDS - round
  {
    hide Partitioned, Fallback, CallBatches, AllSorted, MergeRound, Rounds, RoundCalls;
    if round == MAX_CONSOLIDATION_ROUNDS {
      RoundsEnd(current, batches, calls, s);
    } else {
      RoundsStep(round, current, batches, calls, s);
    }
    if round < MAX_CONSOLIDATION_ROUNDS && |batches| > 1 {
      var merged := MergeRound(batches, calls, s);
      if Partitioned(merged, s.budget).Some? {
        PartsSorted(merged, s.budget);
        var next := Partitioned(merged, s.budget).value;
        if |next| < |batches| {
          RoundsBound(round + 1, merged, next, calls + |batches|, s);
          Triangle(|next|, |batches|);
        }
      }
    }
    assert |batches| * (|batches| + 1) >= 2 * |batches|;
  }

  lemma Triangle(m: nat, n: nat)
    requires m < n
    ensures m * (m + 1) + 2 * n <= n * (n + 1)
  {
    assert m * (m + 1) <= (n - 1) * n;
  }

  /** From b batches, at most min(12, b) rounds and b(b + 1)/2 calls, whether the run succeeds or is refused. */
  lemma CallBound(candidates: HistoryCandidates, s: Setting)
    requires candidates.Sorted() && candidates.Total() > 0 && Partitioned(candidates, s.budget).Some?
    ensures var r, n := Hierarchical(candidates, s), |Partitioned(candidates, s.budget).value|;
            && CallsMade(candidates, s) <= n * (n + 1) / 2
            && (r.Some? ==>
                  r.value.calls == CallsMade(candidates, s) && r.value.rounds <= MAX_CONSOLIDATION_ROUNDS
                  && r.value.rounds <= n)
  {
    hide Partitioned, Rounds;
    PartsSorted(candidates, s.budget);
    RoundsBound(0, candidates, Partitioned(candidates, s.budget).value, 0, s);
  }

  // ----- the loop

  /** Progress reports (model calls completed, calls estimated): one before the first call and one after each, never
      over the estimate. */
  ghost predicate Counted(progress: seq<(nat, nat)>, calls: nat) {
    |progress| == calls + 1 && forall k :: 0 <= k <= calls ==> progress[k].0 == k <= progress[k].1
  }

  method CallRound(batches: seq<HistoryCandidates>, calls: nat, estimated: nat, progress: seq<(nat, nat)>, s: Setting)
    returns (reduced: seq<HistoryCandidates>, progress': seq<(nat, nat)>)
    requires AllSorted(batches) && calls + |batches| <= estimated && Counted(progress, calls)
    ensures reduced == CallBatches(batches, calls, s)
    ensures Counted(progress', calls + |batches|)
  {
    hide Consolidate;
    reduced, progress' := [], progress;
    for n := 0 to |batches|
      invariant AllSorted(batches[..n]) && reduced == CallBatches(batches[..n], calls, s)
      invariant Counted(progress', calls + n)
    {
      assert batches[..n + 1][..n] == batches[..n];
      var result := Consolidate(batches[n], calls + n, s);
      reduced := reduced + [result];
      progress' := progress' + [(calls + n + 1, estimated)];
    }
    assert batches[..|batches|] == batches;
  }

  /** One round of the recursion, in the order the loop takes its decisions. */
  lemma RoundsStep(round: nat, current: HistoryCandidates, batches: seq<HistoryCandidates>, calls: nat, s: Setting)
    requires round < MAX_CONSOLIDATION_ROUNDS && current.Sorted() && batches != [] && AllSorted(batches)
    ensures var r, merged, calls' :=
            Rounds(round, current, batches, calls, s), MergeRound(batches, calls, s), calls + |batches|;
            var made := RoundCalls(round, batches, calls, s);
            if |batches| == 1 then
              r == Some(Outcome(CallBatches(batches, calls, s)[0], calls', round + 1)) && made == calls'
            else if Partitioned(merged, s.budget) == None then r == None && made == calls'
            else
              var next := Partitioned(merged, s.budget).value;
              && next != [] && AllSorted(next)
              && made == (if |next| >= |batches| then calls' else RoundCalls(round + 1, next, calls', s))
              && r == if |next| >= |batches| then Some(Outcome(Fallback(merged, s.budget.evidence), calls', round + 1))
                      else Rounds(round + 1, merged, next, calls', s)
  {
    hide Partitioned, Fallback, CallBatches, AllSorted, MergeRound;
    if Partitioned(MergeRound(batches, calls, s), s.budget).Some? {
      PartsSorted(MergeRound(batches, calls, s), s.budget);
    }
  }

  lemma RoundsEnd(current: HistoryCandidates, batches: seq<HistoryCandidates>, calls: nat, s: Setting)
    requires current.Sorted() && batches != [] && AllSorted(batches)
    ensures Rounds(MAX_CONSOLIDATION_ROUNDS, current, batches, calls, s) ==
            Some(Outcome(Fallback(current, s.budget.evidence), calls, MAX_CONSOLIDATION_ROUNDS))
    ensures RoundCalls(MAX_CONSOLIDATION_ROUNDS, batches, calls, s) == calls
  {
  }

  /** All reports of a run: one per call, and perhaps a last one that repeats the count as its own estimate. */
  ghost predicate Reported(progress: seq<(nat, nat)>, calls: nat) {
    Counted(progress, calls) || (progress != [] && progress[|progress| - 1] == (calls, calls)
                                 && Counted(progress[..|progress| - 1], calls))
  }

  lemma FirstReport(estimated: nat)
    ensures Counted([(0, estimated)], 0)
  {
  }

  lemma LastReport(progress: seq<(nat, nat)>, calls: nat)
    requires Counted(progress, calls)
    ensures Reported(progress, calls) && Reported(progress + [(calls, calls)], calls)
  {
    assert (progress + [(calls, calls)])[..|progress|] == progress;
  }

  method ConsolidateHierarchically(candidates: HistoryCandidates, s: Setting)
    returns (r: Option<Outcome>, progress: seq<(nat, nat)>)
    requires candidates.Sorted()
    ensures r == Hierarchical(candidates, s)
    ensures if candidates.Total() == 0 then progress == [(1, 1)]
            else if Partitioned(candidates, s.budget) == None then progress == []
            else if r == None then Counted(progress, CallsMade(candidates, s))
            else r.value.calls == CallsMade(candidates, s) && Reported(progress, CallsMade(candidates, s))
  {
    hide Consolidate, Fallback, CallBatches, Partitioned, AllSorted, Rounds, RoundCalls, MergeWindows, Reported,
      Counted;
    if candidates.Total() == 0 {
      return Some(Outcome(candidates, 0, 0)), [(1, 1)];
    }
    var current := candidates;
    var first := PartitionCandidates(current, s.budget);
    if first == None {
      return None, [];
    }
    var batches := first.value;
    PartsSorted(current, s.budget);
    var estimated := if |batches| * 2 - 1 > 1 then |batches| * 2 - 1 else 1;
    var calls: nat := 0;
    progress := [(0, estimated)];
    FirstReport(estimated);
    for round := 0 to MAX_CONSOLIDATION_ROUNDS
      invariant current.Sorted() && batches != [] && AllSorted(batches)
      invariant Rounds(round, current, batches, calls, s) == Hierarchical(candidates, s)
      invariant RoundCalls(round, batches, calls, s) == CallsMade(candidates, s)
      invariant calls + |batches| <= estimated && Counted(progress, calls)
    {
      var reduced;
      reduced, progress := CallRound(batches, calls, estimated, progress, s);
      RoundsStep(round, current, batches, calls, s);
      calls := calls + |batches|;
      LastReport(progress, calls);
      if |batches| == 1 {
        return Some(Outcome(reduced[0], calls, round + 1)), progress + [(calls, calls)];
      }
      current := MergeWindowCandidates(reduced, s.host);
      var next := PartitionCandidates(current, s.budget);
      if next == None {
        return None, progress;
      }
      PartsSorted(current, s.budget);
      if |next.value| >= |batches| {
        return Some(Outcome(Fallback(current, s.budget.evidence), calls, round + 1)), progress + [(calls, calls)];
      }
      batches := next.value;
      estimated := if estimated >= calls + |batches| then estimated else calls + |batches|;
    }
    RoundsEnd(current, batches, calls, s);
    LastReport(progress, calls);
    return Some(Outcome(Fallback(current, s.budget.evidence), calls, MAX_CONSOLIDATION_ROUNDS)), progress;
  }
}
