/**
 Reading a model's reply: which raw items become candidates, and the grounding rules every candidate meets
 then and after any merging.
 */
module Grounding {
  import opened Candidates
  import opened Merge
  import opened Prelude
  import opened Seqs

  /** A raw JSON object: its string fields, the numbers its other fields convert to, and its list of evidence ids
      (None entries are neither strings nor integers). */
  datatype RawItem = RawItem(texts: map<string, string>, numbers: map<string, real>,
                             evidenceIds: Option<seq<Option<string>>>)

  datatype Reply = Reply(
    expressions: seq<Option<RawItem>>,
    behaviors: seq<Option<RawItem>>,
    jargons: seq<Option<RawItem>>,
    memories: seq<Option<RawItem>>,
    profiles: seq<Option<RawItem>>,
    /** The ids of an explicit request for a follow-up, if there is one. */
    boundary: Option<Option<seq<Option<string>>>>,
    hasMore: bool)

  /** Text cleaning and the filters for sensitive data, kept abstract. */
  datatype Rules = Rules(clean: string -> string, sensitive: string -> bool, restricted: (string, string) -> bool)

  datatype Context = Context(
    evidence: map<string, Message>,
    eligible: Option<set<string>>,
    excluded: set<string>,
    requireRepeated: bool,
    allowMemories: bool,
    allowProfiles: bool,
    provenance: seq<string>,
    host: Host,
    rules: Rules)
  {
    predicate Eligible(sender: string) {
      sender !in excluded && (eligible == None || sender in eligible.value)
    }
  }

  const MEMORY_TYPES: set<string> := {"episodic", "factual", "relational", "preference", "planned"}
  const PROFILE_CATEGORIES: set<string> := {"interest", "preference", "personality", "habit", "skill", "fact"}

  // ----- fields

  function Text(item: RawItem, key: string, minimum: nat, maximum: nat, ctx: Context): Option<string> {
    if key !in item.texts then None
    else
      var cleaned := ctx.rules.clean(item.texts[key]);
      if minimum <= |cleaned| <= maximum then Some(cleaned) else None
  }

  function Score(item: RawItem, key: string, minimum: real): Option<real> {
    if key in item.numbers && minimum <= item.numbers[key] <= 1.0 then Some(item.numbers[key]) else None
  }

  /** Known, distinct ids, in the order given. */
  function KnownIds(raw: seq<Option<string>>, evidence: map<string, Message>): (r: seq<string>)
    ensures |r| <= |raw|
  {
    if raw == [] then []
    else
      var rest, last := KnownIds(raw[..|raw| - 1], evidence), raw[|raw| - 1];
      if last == None then rest
      else
        var id := Strip(last.value);
        if id == "" || |id| > 128 || id !in evidence || id in rest then rest else rest + [id]
  }

  function EvidenceIds(raw: Option<seq<Option<string>>>, evidence: map<string, Message>): (r: seq<string>)
    ensures |r| <= MAX_EVIDENCE_IDS
  {
    if raw == None then [] else KnownIds(First(raw.value, MAX_EVIDENCE_IDS), evidence)
  }

  lemma {:induction false} KnownIdsAre(raw: seq<Option<string>>, evidence: map<string, Message>)
    ensures NoRepeats(KnownIds(raw, evidence)) && forall id :: id in KnownIds(raw, evidence) ==> id in evidence
  {
    if raw != [] {
      KnownIdsAre(raw[..|raw| - 1], evidence);
    }
  }

  // ----- what may back a claim

  /** The message may be cited for the claim. */
  predicate Backs(m: Message, claim: Claim, ctx: Context) {
    match claim
    case ExpressionClaim(_, _) => !m.isBot && !m.isLowSignal && ctx.Eligible(m.senderId)
    case BehaviorClaim(_, _, _, _) => m.isBot || ctx.Eligible(m.senderId)
    case JargonClaim(content, _) =>
      Contains(m.content, content) && !m.isBot && !m.isLowSignal && ctx.Eligible(m.senderId)
    case MemoryClaim(_, _, subjectId) =>
      !m.isLowSignal && (subjectId == "" || m.senderId == subjectId) && ctx.Eligible(m.senderId)
    case ProfileClaim(subjectId, _, _, _) =>
      m.senderId == subjectId && !m.isBot && !m.isLowSignal && ctx.Eligible(subjectId)
  }

  function Backing(ids: seq<string>, claim: Claim, ctx: Context): (r: seq<string>)
    ensures |r| <= |ids|
  {
    if ids == [] then []
    else
      var rest, id := Backing(ids[..|ids| - 1], claim, ctx), ids[|ids| - 1];
      if id in ctx.evidence && Backs(ctx.evidence[id], claim, ctx) then rest + [id] else rest
  }

  function Humans(ids: seq<string>, evidence: map<string, Message>): set<string> {
    set id | id in ids && id in evidence && !evidence[id].isBot :: evidence[id].senderId
  }

  /** The actor a behaviour is claimed of took part in the evidence. */
  predicate ActorGrounded(actorType: string, learningType: string, ids: seq<string>, evidence: map<string, Message>) {
    if actorType == "maibot_self" && learningType == "self_reflection" then
      exists id :: id in ids && id in evidence && evidence[id].isBot
    else if actorType == "other_user" && learningType == "observed_behavior" then
      exists id :: id in ids && id in evidence && !evidence[id].isBot
    else if actorType == "group_collective" && learningType == "observed_behavior" then
      |Humans(ids, evidence)| >= 2
    else false
  }

  /** Enough evidence, and of the right kind, for the claim. */
  predicate Suffices(ids: seq<string>, claim: Claim, ctx: Context) {
    match claim
    case ExpressionClaim(_, _) => |ids| >= 1
    case BehaviorClaim(actorType, learningType, _, _) =>
      |ids| >= 2 && ActorGrounded(actorType, learningType, ids, ctx.evidence)
    case JargonClaim(_, _) => |ids| >= if ctx.requireRepeated then 2 else 1
    case MemoryClaim(_, _, _) => exists id :: id in ids && id in ctx.evidence && !ctx.evidence[id].isBot
    case ProfileClaim(_, category, _, _) => |ids| >= if category in {"personality", "habit"} then 2 else 1
  }

  /** The claim itself is admissible: its type, its scores, and no sensitive data. */
  predicate Admitted(claim: Claim, confidence: real, importance: real, ctx: Context) {
    && 0.5 <= confidence <= 1.0
    && match claim
       case ExpressionClaim(_, _) => true
       case BehaviorClaim(_, _, _, _) => true
       case JargonClaim(_, _) => true
       case MemoryClaim(atomType, content, _) =>
         ctx.allowMemories && atomType in MEMORY_TYPES && confidence >= 0.65 && 0.2 <= importance <= 1.0
           && !ctx.rules.sensitive(content)
       case ProfileClaim(subjectId, category, name, value) =>
         ctx.allowProfiles && subjectId != "" && category in PROFILE_CATEGORIES && confidence >= 0.7
           && !ctx.rules.restricted(name, value)
  }

  // ----- raw items

  /** The claim an item makes, if its texts are all there and within their lengths. */
  function ClaimOf(item: RawItem, kind: Kind, ctx: Context): (r: Option<Claim>)
    ensures r.Some? ==> r.value.Kind() == kind
  {
    match kind
    case Expression =>
      var situation, style := Text(item, "situation", 4, 400, ctx), Text(item, "style", 4, 400, ctx);
      if situation.Some? && style.Some? then Some(ExpressionClaim(situation.value, style.value)) else None
    case Behavior =>
      var actorType, learningType := Text(item, "actor_type", 4, 32, ctx), Text(item, "learning_type", 4, 32, ctx);
      var action, outcome := Text(item, "action", 6, 500, ctx), Text(item, "outcome", 4, 500, ctx);
      if actorType.Some? && learningType.Some? && action.Some? && outcome.Some?
      then Some(BehaviorClaim(actorType.value, learningType.value, action.value, outcome.value)) else None
    case Jargon =>
      var content, meaning := Text(item, "content", 2, 64, ctx), Text(item, "meaning", 2, 500, ctx);
      if content.Some? && meaning.Some? then Some(JargonClaim(content.value, meaning.value)) else None
    case Memory =>
      var atomType, content := Text(item, "atom_type", 4, 20, ctx), Text(item, "content", 6, 500, ctx);
      var subject := Text(item, "subject_id", 1, 128, ctx);
      if atomType.Some? && content.Some?
      then Some(MemoryClaim(atomType.value, content.value, if subject.Some? then subject.value else "")) else None
    case Profile =>
      var subject, category := Text(item, "subject_id", 1, 128, ctx), Text(item, "category", 4, 24, ctx);
      var name, value := Text(item, "name", 2, 64, ctx), Text(item, "value", 2, 160, ctx);
      if subject.Some? && category.Some? && name.Some? && value.Some?
      then Some(ProfileClaim(subject.value, category.value, name.value, value.value)) else None
  }

  function Importance(item: RawItem, kind: Kind): Option<real> {
    if kind.Memory? then Score(item, "importance", 0.2) else Some(0.0)
  }

  /** The candidate an item gives, or None if any rule rejects it. */
  function Accept(raw: Option<RawItem>, kind: Kind, ctx: Context): (r: Option<Candidate>)
    ensures r.Some? ==> r.value.claim.Kind() == kind
  {
    if raw == None then None
    else
      var item := raw.value;
      var claim, confidence, importance :=
        ClaimOf(item, kind, ctx), Score(item, "confidence", 0.5), Importance(item, kind);
      if claim == None || confidence == None || importance == None then None
      else
        var known := EvidenceIds(item.evidenceIds, ctx.evidence);
        var ids := Backing(known, claim.value, ctx);
        // a behaviour with evidence from an excluded person is rejected altogether
        if kind.Behavior? && |ids| < |known| then None
        else if Admitted(claim.value, confidence.value, importance.value, ctx) && Suffices(ids, claim.value, ctx)
        then Some(Candidate(claim.value, ids, confidence.value, importance.value, "", ctx.provenance))
        else None
  }

  function AcceptAll(items: seq<Option<RawItem>>, kind: Kind, ctx: Context): seq<Candidate> {
    if items == [] then []
    else
      var rest, c := AcceptAll(items[..|items| - 1], kind, ctx), Accept(items[|items| - 1], kind, ctx);
      if c == None then rest else rest + [c.value]
  }

  function Maximum(kind: Kind): nat {
    match kind
    case Expression => 60
    case Behavior => 40
    case Jargon => 60
    case Memory => 50
    case Profile => 50
  }

  function ParseKind(items: seq<Option<RawItem>>, kind: Kind, ctx: Context): seq<Candidate> {
    Dedup(AcceptAll(First(items, Maximum(kind)), kind, ctx), ctx.host)
  }

  function Parse(reply: Reply, ctx: Context): HistoryCandidates {
    HistoryCandidates(
      ParseKind(reply.expressions, Expression, ctx),
      ParseKind(reply.behaviors, Behavior, ctx),
      ParseKind(reply.jargons, Jargon, ctx),
      if ctx.allowMemories then ParseKind(reply.memories, Memory, ctx) else [],
      if ctx.allowProfiles then ParseKind(reply.profiles, Profile, ctx) else [])
  }

  // ----- grounding

  /** The message may be cited for the claim, a term counting as present if some spelling of it is. */
  ghost predicate Supports(m: Message, claim: Claim, ctx: Context) {
    match claim
    case JargonClaim(content, _) =>
      && !m.isBot && !m.isLowSignal && ctx.Eligible(m.senderId)
      && exists term :: ctx.host.fold(term) == ctx.host.fold(content) && Contains(m.content, term)
    case _ => Backs(m, claim, ctx)
  }

  /** The rules of a candidate's kind. */
  ghost predicate Grounded(c: Candidate, ctx: Context) {
    && NoRepeats(c.evidenceIds) && |c.evidenceIds| <= MAX_EVIDENCE_IDS
    && (forall id :: id in c.evidenceIds ==> id in ctx.evidence && Supports(ctx.evidence[id], c.claim, ctx))
    && Suffices(c.evidenceIds, c.claim, ctx)
    && Admitted(c.claim, c.confidence, c.importance, ctx)
  }

  ghost predicate AllGrounded(items: seq<Candidate>, ctx: Context) {
    forall c :: c in items ==> Grounded(c, ctx)
  }

  ghost predicate WellGrounded(c: HistoryCandidates, ctx: Context) {
    && c.Sorted()
    && AllGrounded(c.expressions, ctx) && AllGrounded(c.behaviors, ctx) && AllGrounded(c.jargons, ctx)
    && AllGrounded(c.memories, ctx) && AllGrounded(c.profiles, ctx)
  }

  lemma {:induction false} BackingIs(ids: seq<string>, claim: Claim, ctx: Context)
    requires NoRepeats(ids)
    ensures NoRepeats(Backing(ids, claim, ctx))
    ensures forall id :: id in Backing(ids, claim, ctx) ==>
              id in ids && id in ctx.evidence && Backs(ctx.evidence[id], claim, ctx)
  {
    if ids != [] {
      BackingIs(ids[..|ids| - 1], claim, ctx);
    }
  }

  lemma BacksSupports(m: Message, claim: Claim, ctx: Context)
    requires Backs(m, claim, ctx)
    ensures Supports(m, claim, ctx)
  {
    if claim.JargonClaim? {
      assert ctx.host.fold(claim.content) == ctx.host.fold(claim.content);
    }
  }

  /** Whatever an item says, what it is accepted as meets the rules of its kind. */
  lemma AcceptGrounded(raw: Option<RawItem>, kind: Kind, ctx: Context)
    ensures Accept(raw, kind, ctx).Some? ==> Grounded(Accept(raw, kind, ctx).value, ctx)
  {
    hide Suffices, Admitted, Supports, Backs, ClaimOf, Importance, Score;
    if raw.Some? && Accept(raw, kind, ctx).Some? {
      var c := Accept(raw, kind, ctx).value;
      if raw.value.evidenceIds.Some? {
        KnownIdsAre(First(raw.value.evidenceIds.value, MAX_EVIDENCE_IDS), ctx.evidence);
      }
      BackingIs(EvidenceIds(raw.value.evidenceIds, ctx.evidence), c.claim, ctx);
      forall id | id in c.evidenceIds ensures Supports(ctx.evidence[id], c.claim, ctx) {
        BacksSupports(ctx.evidence[id], c.claim, ctx);
      }
    }
  }

  lemma {:induction false} AcceptAllGrounded(items: seq<Option<RawItem>>, kind: Kind, ctx: Context)
    ensures AllGrounded(AcceptAll(items, kind, ctx), ctx) && SameKind(AcceptAll(items, kind, ctx), kind)
  {
    hide Grounded, Accept;
    if items != [] {
      AcceptAllGrounded(items[..|items| - 1], kind, ctx);
      AcceptGrounded(items[|items| - 1], kind, ctx);
    }
  }

  // ----- merging keeps the rules

  /** Candidates merged by key agree on everything their evidence is judged by. */
  lemma SameKeySupports(a: Claim, b: Claim, m: Message, ctx: Context)
    requires a.Kind() == b.Kind() && Key(a, ctx.host) == Key(b, ctx.host) && Supports(m, b, ctx)
    ensures Supports(m, a, ctx)
  {
  }

  /** More evidence never makes a claim less backed. */
  lemma SufficesMonotone(ids: seq<string>, more: seq<string>, claim: Claim, ctx: Context)
    requires ids <= more && Suffices(ids, claim, ctx)
    ensures Suffices(more, claim, ctx)
  {
    forall id | id in ids ensures id in more {
      var k :| 0 <= k < |ids| && ids[k] == id;
      assert more[k] == id;
    }
    SubsetSize(Humans(ids, ctx.evidence), Humans(more, ctx.evidence));
  }

  /** The first candidate's evidence survives merging whole. */
  lemma FirstSurvives(a: seq<string>, b: seq<string>)
    requires NoRepeats(a) && |a| <= MAX_EVIDENCE_IDS
    ensures a <= FirstDistinct(a + b, MAX_EVIDENCE_IDS)
  {
    DistinctId(a);
    DistinctPrefix(a, b);
  }

  /** The better scores are still good enough. */
  lemma MergeAdmitted(a: Candidate, b: Candidate, ctx: Context)
    requires Admitted(a.claim, a.confidence, a.importance, ctx) && Admitted(b.claim, b.confidence, b.importance, ctx)
    requires a.claim.Kind() == b.claim.Kind()
    ensures var m := MergeEvidence(a, b, ctx.host);
            m.claim == a.claim && Admitted(m.claim, m.confidence, m.importance, ctx)
  {
    hide CleanProvenance, FirstDistinct, Identity;
  }

  lemma MergeSupported(a: Candidate, b: Candidate, ctx: Context, id: string)
    requires Grounded(a, ctx) && Grounded(b, ctx) && a.claim.Kind() == b.claim.Kind()
    requires Key(a.claim, ctx.host) == Key(b.claim, ctx.host)
    requires id in FirstDistinct(a.evidenceIds + b.evidenceIds, MAX_EVIDENCE_IDS)
    ensures id in ctx.evidence && Supports(ctx.evidence[id], a.claim, ctx)
  {
    hide Supports, Suffices, Admitted, Key, FirstDistinct;
    CutDistinct(a.evidenceIds + b.evidenceIds, MAX_EVIDENCE_IDS);
    assert id in a.evidenceIds + b.evidenceIds;
    if id !in a.evidenceIds {
      SameKeySupports(a.claim, b.claim, ctx.evidence[id], ctx);
    }
  }

  lemma MergeGrounded(a: Candidate, b: Candidate, ctx: Context)
    requires Grounded(a, ctx) && Grounded(b, ctx) && a.claim.Kind() == b.claim.Kind()
    requires Key(a.claim, ctx.host) == Key(b.claim, ctx.host)
    ensures Grounded(MergeEvidence(a, b, ctx.host), ctx)
  {
    hide Supports, Suffices, Admitted, Key, CleanProvenance, FirstDistinct;
    var m := MergeEvidence(a, b, ctx.host);
    CutDistinct(a.evidenceIds + b.evidenceIds, MAX_EVIDENCE_IDS);
    FirstSurvives(a.evidenceIds, b.evidenceIds);
    FirstAtMost(a.evidenceIds + b.evidenceIds);
    SufficesMonotone(a.evidenceIds, m.evidenceIds, a.claim, ctx);
    MergeAdmitted(a, b, ctx);
    forall id | id in m.evidenceIds ensures id in ctx.evidence && Supports(ctx.evidence[id], m.claim, ctx) {
      MergeSupported(a, b, ctx, id);
    }
  }

  lemma FirstAtMost(ids: seq<string>)
    ensures |FirstDistinct(ids, MAX_EVIDENCE_IDS)| <= MAX_EVIDENCE_IDS
  {
  }

  lemma MetadataGrounded(c: Candidate, ctx: Context)
    requires Grounded(c, ctx)
    ensures Grounded(WithMetadata(c, ctx.host), ctx)
  {
    hide Supports, Suffices, Admitted, CleanProvenance;
  }

  lemma {:induction false} DedupGrounded(items: seq<Candidate>, kind: Kind, ctx: Context)
    requires AllGrounded(items, ctx) && SameKind(items, kind)
    ensures AllGrounded(Dedup(items, ctx.host), ctx) && SameKind(Dedup(items, ctx.host), kind)
  {
    hide Grounded, MergeEvidence, WithMetadata;
    DedupClaims(items, kind, ctx.host);
    if items != [] {
      var init, c := items[..|items| - 1], items[|items| - 1];
      assert items == init + [c];
      DedupGrounded(init, kind, ctx);
      MetadataGrounded(c, ctx);
      MetadataClaim(c, ctx.host);
      var item, r := WithMetadata(c, ctx.host), Dedup(init, ctx.host);
      if Key(item.claim, ctx.host) in Keys(r, ctx.host) {
        var i := IndexOf(Keys(r, ctx.host), Key(item.claim, ctx.host));
        assert r[i] in r && c in items;
        MergeGrounded(r[i], item, ctx);
      }
    }
  }

  lemma MetadataClaim(c: Candidate, host: Host)
    ensures WithMetadata(c, host).claim == c.claim
  {
  }

  /** Every candidate of a parsed reply is grounded. */
  lemma ParseGrounded(reply: Reply, ctx: Context)
    ensures WellGrounded(Parse(reply, ctx), ctx)
  {
    hide AllGrounded, Dedup, AcceptAll;
    AcceptAllGrounded(First(reply.expressions, 60), Expression, ctx);
    DedupGrounded(AcceptAll(First(reply.expressions, 60), Expression, ctx), Expression, ctx);
    AcceptAllGrounded(First(reply.behaviors, 40), Behavior, ctx);
    DedupGrounded(AcceptAll(First(reply.behaviors, 40), Behavior, ctx), Behavior, ctx);
    AcceptAllGrounded(First(reply.jargons, 60), Jargon, ctx);
    DedupGrounded(AcceptAll(First(reply.jargons, 60), Jargon, ctx), Jargon, ctx);
    AcceptAllGrounded(First(reply.memories, 50), Memory, ctx);
    DedupGrounded(AcceptAll(First(reply.memories, 50), Memory, ctx), Memory, ctx);
    AcceptAllGrounded(First(reply.profiles, 50), Profile, ctx);
    DedupGrounded(AcceptAll(First(reply.profiles, 50), Profile, ctx), Profile, ctx);
    NoneGrounded(ctx);
  }

  lemma NoneGrounded(ctx: Context)
    ensures AllGrounded([], ctx) && WellGrounded(NONE, ctx)
  {
  }

  ghost predicate EachGrounded(results: seq<HistoryCandidates>, ctx: Context) {
    forall r :: r in results ==> WellGrounded(r, ctx)
  }

  lemma WellGroundedOf(c: HistoryCandidates, kind: Kind, ctx: Context)
    requires WellGrounded(c, ctx)
    ensures AllGrounded(c.Of(kind), ctx) && SameKind(c.Of(kind), kind)
  {
  }

  lemma {:induction false} GatherGrounded(results: seq<HistoryCandidates>, kind: Kind, ctx: Context)
    requires EachGrounded(results, ctx)
    ensures AllGrounded(Gather(results, kind), ctx) && SameKind(Gather(results, kind), kind)
  {
    hide Grounded, WellGrounded;
    if results != [] {
      GatherGrounded(results[..|results| - 1], kind, ctx);
      WellGroundedOf(results[|results| - 1], kind, ctx);
    }
  }

  /** Merging grounded results gives grounded results. */
  lemma MergeWindowsGrounded(results: seq<HistoryCandidates>, ctx: Context)
    requires EachGrounded(results, ctx)
    ensures WellGrounded(MergeWindows(results, ctx.host), ctx)
  {
    hide AllGrounded, EachGrounded, Dedup, Gather;
    GatherGrounded(results, Expression, ctx);
    DedupGrounded(Gather(results, Expression), Expression, ctx);
    GatherGrounded(results, Behavior, ctx);
    DedupGrounded(Gather(results, Behavior), Behavior, ctx);
    GatherGrounded(results, Jargon, ctx);
    DedupGrounded(Gather(results, Jargon), Jargon, ctx);
    GatherGrounded(results, Memory, ctx);
    DedupGrounded(Gather(results, Memory), Memory, ctx);
    GatherGrounded(results, Profile, ctx);
    DedupGrounded(Gather(results, Profile), Profile, ctx);
  }

  // ----- more evidence

  /** The same rules over other messages. */
  ghost predicate SameRules(ctx: Context, other: Context) {
    other == ctx.(evidence := other.evidence, provenance := other.provenance)
  }

  /** The same rules over at least the same messages. */
  ghost predicate Extends(ctx: Context, wider: Context) {
    && SameRules(ctx, wider)
    && forall id :: id in ctx.evidence ==> id in wider.evidence && wider.evidence[id] == ctx.evidence[id]
  }

  /** Both know the ids, and by the same messages. */
  ghost predicate Agree(ids: seq<string>, a: map<string, Message>, b: map<string, Message>) {
    forall id :: id in ids ==> id in a && id in b && a[id] == b[id]
  }

  lemma AgreeSuffices(ids: seq<string>, claim: Claim, ctx: Context, other: Context)
    requires SameRules(ctx, other) && Agree(ids, ctx.evidence, other.evidence) && Suffices(ids, claim, ctx)
    ensures Suffices(ids, claim, other)
  {
    assert Humans(ids, ctx.evidence) == Humans(ids, other.evidence);
  }

  /** Only the cited messages matter. */
  lemma AgreeGrounded(c: Candidate, ctx: Context, other: Context)
    requires SameRules(ctx, other) && Agree(c.evidenceIds, ctx.evidence, other.evidence) && Grounded(c, ctx)
    ensures Grounded(c, other)
  {
    AgreeSuffices(c.evidenceIds, c.claim, ctx, other);
    hide Suffices;
  }

  lemma WiderWellGrounded(c: HistoryCandidates, ctx: Context, wider: Context)
    requires Extends(ctx, wider) && WellGrounded(c, ctx)
    ensures WellGrounded(c, wider)
  {
    hide Suffices, Admitted, Supports;
    forall kind: Kind, x | x in c.Of(kind) ensures Grounded(x, wider) {
      WellGroundedOf(c, kind, ctx);
      AgreeGrounded(x, ctx, wider);
    }
    hide Grounded;
    assert AllGrounded(c.Of(Expression), wider) && AllGrounded(c.Of(Behavior), wider)
           && AllGrounded(c.Of(Jargon), wider);
    assert AllGrounded(c.Of(Memory), wider) && AllGrounded(c.Of(Profile), wider);
  }

  /** Some candidate cites the message. */
  ghost predicate CitedAnywhere(id: string, c: HistoryCandidates) {
    exists kind: Kind, x :: x in c.Of(kind) && id in x.evidenceIds
  }

  /** The cited messages are enough. */
  lemma CitedWellGrounded(c: HistoryCandidates, ctx: Context, other: Context)
    requires SameRules(ctx, other) && WellGrounded(c, ctx)
    requires forall id :: id in ctx.evidence && CitedAnywhere(id, c) ==>
               id in other.evidence && other.evidence[id] == ctx.evidence[id]
    ensures WellGrounded(c, other)
  {
    hide Suffices, Admitted, Supports;
    forall kind: Kind, x | x in c.Of(kind) ensures Grounded(x, other) {
      WellGroundedOf(c, kind, ctx);
      forall id | id in x.evidenceIds ensures CitedAnywhere(id, c) {
      }
      AgreeGrounded(x, ctx, other);
    }
    hide Grounded;
    assert AllGrounded(c.Of(Expression), other) && AllGrounded(c.Of(Behavior), other)
           && AllGrounded(c.Of(Jargon), other);
    assert AllGrounded(c.Of(Memory), other) && AllGrounded(c.Of(Profile), other);
  }
}
