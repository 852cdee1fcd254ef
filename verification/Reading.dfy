/** What a reply is read as: the rules an item is accepted by, read off its fields, and what is made of the rest. */
module Reading {
  import opened Candidates
  import opened Grounding
  import opened Merge
  import opened Prelude
  import opened Seqs

  // ----- exactly what is accepted

  /** The item says `text` under this key, cleaned and within the bounds. */
  ghost predicate Says(item: RawItem, key: string, minimum: nat, maximum: nat, ctx: Context, text: string) {
    key in item.texts && text == ctx.rules.clean(item.texts[key]) && minimum <= |text| <= maximum
  }

  /** The item makes this claim. */
  ghost predicate Claims(item: RawItem, claim: Claim, ctx: Context) {
    match claim
    case ExpressionClaim(situation, style) =>
      Says(item, "situation", 4, 400, ctx, situation) && Says(item, "style", 4, 400, ctx, style)
    case BehaviorClaim(actorType, learningType, action, outcome) =>
      && Says(item, "actor_type", 4, 32, ctx, actorType) && Says(item, "learning_type", 4, 32, ctx, learningType)
      && Says(item, "action", 6, 500, ctx, action) && Says(item, "outcome", 4, 500, ctx, outcome)
    case JargonClaim(content, meaning) =>
      Says(item, "content", 2, 64, ctx, content) && Says(item, "meaning", 2, 500, ctx, meaning)
    case MemoryClaim(atomType, content, subjectId) =>
      && Says(item, "atom_type", 4, 20, ctx, atomType) && Says(item, "content", 6, 500, ctx, content)
      && (Says(item, "subject_id", 1, 128, ctx, subjectId)
          || (subjectId == "" && forall text :: !Says(item, "subject_id", 1, 128, ctx, text)))
    case ProfileClaim(subjectId, category, name, value) =>
      && Says(item, "subject_id", 1, 128, ctx, subjectId) && Says(item, "category", 4, 24, ctx, category)
      && Says(item, "name", 2, 64, ctx, name) && Says(item, "value", 2, 160, ctx, value)
  }

  ghost predicate Rates(item: RawItem, key: string, score: real) {
    key in item.numbers && item.numbers[key] == score
  }

  /** The message may be cited for the claim: by anyone allowed (or, for a behaviour, by a bot), said by a person unless
      the kind says otherwise, with the term in it, by the person the claim is about. */
  ghost predicate MayCite(m: Message, claim: Claim, ctx: Context) {
    var allowed := m.senderId !in ctx.excluded && (ctx.eligible == None || m.senderId in ctx.eligible.value);
    match claim
    case ExpressionClaim(_, _) => allowed && !m.isBot && !m.isLowSignal
    case BehaviorClaim(_, _, _, _) => allowed || m.isBot
    case JargonClaim(content, _) =>
      && allowed && !m.isBot && !m.isLowSignal
      && exists a: nat, b: nat :: a <= b <= |m.content| && m.content[a..b] == content
    case MemoryClaim(_, _, subjectId) => allowed && !m.isLowSignal && (subjectId == "" || subjectId == m.senderId)
    case ProfileClaim(subjectId, _, _, _) => allowed && !m.isBot && !m.isLowSignal && subjectId == m.senderId
  }

  /** The k-th cited message is of a person, or is not. */
  ghost predicate CitesPerson(ids: seq<string>, k: nat, evidence: map<string, Message>) {
    k < |ids| && ids[k] in evidence && !evidence[ids[k]].isBot
  }

  ghost predicate CitesBot(ids: seq<string>, k: nat, evidence: map<string, Message>) {
    k < |ids| && ids[k] in evidence && evidence[ids[k]].isBot
  }

  /** Enough is cited for the claim: two messages for a behaviour, among them one of the actor, or of two people for a
      group; a person's for a memory; two for a term if it must be repeated, and for a personality or a habit. */
  ghost predicate Enough(ids: seq<string>, claim: Claim, ctx: Context) {
    match claim
    case ExpressionClaim(_, _) => ids != []
    case BehaviorClaim(actor, learning, _, _) =>
      && |ids| >= 2
      && ((actor == "maibot_self" && learning == "self_reflection" && exists k: nat :: CitesBot(ids, k, ctx.evidence))
          || (actor == "other_user" && learning == "observed_behavior"
              && exists k: nat :: CitesPerson(ids, k, ctx.evidence))
          || (actor == "group_collective" && learning == "observed_behavior"
              && exists j: nat, k: nat :: CitesPerson(ids, j, ctx.evidence) && CitesPerson(ids, k, ctx.evidence)
                   && ctx.evidence[ids[j]].senderId != ctx.evidence[ids[k]].senderId))
    case JargonClaim(_, _) => |ids| >= 2 || (|ids| == 1 && !ctx.requireRepeated)
    case MemoryClaim(_, _, _) => exists k: nat :: CitesPerson(ids, k, ctx.evidence)
    case ProfileClaim(_, category, _, _) =>
      |ids| >= 2 || (|ids| == 1 && category != "personality" && category != "habit")
  }

  /** The claim may be made with these scores. */
  ghost predicate MayClaim(claim: Claim, confidence: real, importance: real, ctx: Context) {
    match claim
    case ExpressionClaim(_, _) => 0.5 <= confidence <= 1.0 && importance == 0.0
    case BehaviorClaim(_, _, _, _) => 0.5 <= confidence <= 1.0 && importance == 0.0
    case JargonClaim(_, _) => 0.5 <= confidence <= 1.0 && importance == 0.0
    case MemoryClaim(atomType, content, _) =>
      && ctx.allowMemories && atomType in ["episodic", "factual", "relational", "preference", "planned"]
      && 0.65 <= confidence <= 1.0 && 0.2 <= importance <= 1.0 && !ctx.rules.sensitive(content)
    case ProfileClaim(subjectId, category, name, value) =>
      && ctx.allowProfiles && subjectId != "" && importance == 0.0
      && category in ["interest", "preference", "personality", "habit", "skill", "fact"]
      && 0.7 <= confidence <= 1.0 && !ctx.rules.restricted(name, value)
  }

  /** The k-th listed id is well-formed, of a message in evidence, and not listed before. */
  ghost predicate Cites(raw: seq<Option<string>>, k: nat, id: string, evidence: map<string, Message>) {
    && k < |raw| && raw[k].Some? && Strip(raw[k].value) == id
    && id != "" && |id| <= 128 && id in evidence
    && forall l :: 0 <= l < k ==> raw[l] == None || Strip(raw[l].value) != id
  }

  ghost function Citing(raw: seq<Option<string>>, evidence: map<string, Message>): (nat, string) -> bool {
    (k: nat, id: string) => Cites(raw, k, id, evidence)
  }

  ghost function CitingBacked(raw: seq<Option<string>>, claim: Claim, ctx: Context): (nat, string) -> bool {
    (k: nat, id: string) => Cites(raw, k, id, ctx.evidence) && MayCite(ctx.evidence[id], claim, ctx)
  }

  /** The first twelve ids an item lists. */
  function Listed(item: RawItem): seq<Option<string>> {
    if item.evidenceIds == None then [] else First(item.evidenceIds.value, 12)
  }

  /** The item is accepted as `c`: its claim and scores are admissible, its evidence are the cited messages that back
      the claim, in the order they are listed, and they suffice; of a behaviour every cited message must back the claim.
      */
  ghost predicate Accepts(raw: Option<RawItem>, kind: Kind, ctx: Context, c: Candidate) {
    && raw.Some? && c.claim.Kind() == kind && Claims(raw.value, c.claim, ctx)
    && Rates(raw.value, "confidence", c.confidence)
    && (kind.Memory? ==> Rates(raw.value, "importance", c.importance))
    && MayClaim(c.claim, c.confidence, c.importance, ctx)
    && Yields(c.evidenceIds, |Listed(raw.value)|, CitingBacked(Listed(raw.value), c.claim, ctx))
    && Enough(c.evidenceIds, c.claim, ctx)
    && (kind.Behavior? ==> forall k: nat, id ::
          Cites(Listed(raw.value), k, id, ctx.evidence) ==> MayCite(ctx.evidence[id], c.claim, ctx))
    && c.candidateId == "" && c.provenance == ctx.provenance
  }

  /** The accepted items, in order. */
  ghost predicate AcceptedOf(accepted: seq<Candidate>, items: seq<Option<RawItem>>, kind: Kind, ctx: Context) {
    Yields(accepted, |items|, Accepting(items, kind, ctx))
  }

  ghost function Accepting(items: seq<Option<RawItem>>, kind: Kind, ctx: Context): (nat, Candidate) -> bool {
    (k: nat, c: Candidate) => k < |items| && Accepts(items[k], kind, ctx, c)
  }

  lemma TextIs(item: RawItem, key: string, minimum: nat, maximum: nat, ctx: Context, text: string)
    ensures Text(item, key, minimum, maximum, ctx) == Some(text) <==> Says(item, key, minimum, maximum, ctx, text)
  {
  }

  lemma SubjectIs(item: RawItem, ctx: Context, text: string)
    ensures (var r := Text(item, "subject_id", 1, 128, ctx); text == if r.Some? then r.value else "") <==>
            Says(item, "subject_id", 1, 128, ctx, text)
            || (text == "" && forall other :: !Says(item, "subject_id", 1, 128, ctx, other))
  {
    if "subject_id" in item.texts {
      TextIs(item, "subject_id", 1, 128, ctx, ctx.rules.clean(item.texts["subject_id"]));
    }
  }

  lemma BacksIs(m: Message, claim: Claim, ctx: Context)
    ensures Backs(m, claim, ctx) <==> MayCite(m, claim, ctx)
  {
    if claim.JargonClaim? {
      ContainsIs(m.content, claim.content);
      hide Contains;
    }
  }

  lemma ContainsIs(text: string, part: string)
    ensures Contains(text, part) <==> exists a: nat, b: nat :: a <= b <= |text| && text[a..b] == part
  {
    if Contains(text, part) {
      var i :| 0 <= i <= |text| && OccursAt(text, part, i);
      assert text[i..i + |part|] == part;
    }
    if exists a: nat, b: nat :: a <= b <= |text| && text[a..b] == part {
      var a: nat, b: nat :| a <= b <= |text| && text[a..b] == part;
      assert text[a..a + |part|] == part;
      assert OccursAt(text, part, a);
    }
  }

  lemma CitedPeople(ids: seq<string>, evidence: map<string, Message>)
    ensures (exists id :: id in ids && id in evidence && evidence[id].isBot) <==>
            exists k: nat :: CitesBot(ids, k, evidence)
    ensures (exists id :: id in ids && id in evidence && !evidence[id].isBot) <==>
            exists k: nat :: CitesPerson(ids, k, evidence)
  {
    forall k: nat | CitesBot(ids, k, evidence) ensures ids[k] in ids && ids[k] in evidence && evidence[ids[k]].isBot {
    }
    forall k: nat | CitesPerson(ids, k, evidence)
      ensures ids[k] in ids && ids[k] in evidence && !evidence[ids[k]].isBot
    {
    }
    forall id | id in ids && id in evidence
      ensures exists k: nat :: if evidence[id].isBot then CitesBot(ids, k, evidence) else CitesPerson(ids, k, evidence)
    {
      var k: nat :| k < |ids| && ids[k] == id;
      assert if evidence[id].isBot then CitesBot(ids, k, evidence) else CitesPerson(ids, k, evidence);
    }
  }

  /** Two people are cited exactly when there are two different senders. */
  lemma TwoPeople(ids: seq<string>, evidence: map<string, Message>)
    ensures |Humans(ids, evidence)| >= 2 <==>
            exists j: nat, k: nat :: CitesPerson(ids, j, evidence) && CitesPerson(ids, k, evidence)
              && evidence[ids[j]].senderId != evidence[ids[k]].senderId
  {
    var people := Humans(ids, evidence);
    forall sender ensures sender in people <==>
                          exists k: nat :: CitesPerson(ids, k, evidence) && evidence[ids[k]].senderId == sender
    {
      if sender in people {
        var id :| id in ids && id in evidence && !evidence[id].isBot && evidence[id].senderId == sender;
        var k: nat :| k < |ids| && ids[k] == id;
        assert CitesPerson(ids, k, evidence);
      }
    }
    hide CitesPerson, Humans;
    if |people| >= 2 {
      var a :| a in people;
      assert |people - {a}| >= 1;
      var b :| b in people - {a};
      var j: nat :| CitesPerson(ids, j, evidence) && evidence[ids[j]].senderId == a;
      var k: nat :| CitesPerson(ids, k, evidence) && evidence[ids[k]].senderId == b;
    }
    if j: nat, k: nat :| CitesPerson(ids, j, evidence) && CitesPerson(ids, k, evidence)
                         && evidence[ids[j]].senderId != evidence[ids[k]].senderId {
      var pair := {evidence[ids[j]].senderId, evidence[ids[k]].senderId};
      SubsetSize(pair, people);
    }
  }

  lemma SufficesIs(ids: seq<string>, claim: Claim, ctx: Context)
    ensures Suffices(ids, claim, ctx) <==> Enough(ids, claim, ctx)
  {
    CitedPeople(ids, ctx.evidence);
    TwoPeople(ids, ctx.evidence);
    hide CitesPerson, CitesBot, Humans;
  }

  lemma AdmittedIs(claim: Claim, confidence: real, importance: real, ctx: Context)
    ensures Admitted(claim, confidence, importance, ctx) && (!claim.MemoryClaim? ==> importance == 0.0) <==>
            MayClaim(claim, confidence, importance, ctx)
  {
  }

  /** An item makes the claim read off its fields, and no other. */
  lemma ClaimIs(item: RawItem, kind: Kind, ctx: Context, claim: Claim)
    requires claim.Kind() == kind
    ensures ClaimOf(item, kind, ctx) == Some(claim) <==> Claims(item, claim, ctx)
  {
    match claim
    case ExpressionClaim(situation, style) =>
      TextIs(item, "situation", 4, 400, ctx, situation);
      TextIs(item, "style", 4, 400, ctx, style);
      hide Text, Says;
    case BehaviorClaim(actorType, learningType, action, outcome) =>
      TextIs(item, "actor_type", 4, 32, ctx, actorType);
      TextIs(item, "learning_type", 4, 32, ctx, learningType);
      TextIs(item, "action", 6, 500, ctx, action);
      TextIs(item, "outcome", 4, 500, ctx, outcome);
      hide Text, Says;
    case JargonClaim(content, meaning) =>
      TextIs(item, "content", 2, 64, ctx, content);
      TextIs(item, "meaning", 2, 500, ctx, meaning);
      hide Text, Says;
    case MemoryClaim(atomType, content, subjectId) =>
      TextIs(item, "atom_type", 4, 20, ctx, atomType);
      TextIs(item, "content", 6, 500, ctx, content);
      SubjectIs(item, ctx, subjectId);
      hide Text, Says;
    case ProfileClaim(subjectId, category, name, value) =>
      TextIs(item, "subject_id", 1, 128, ctx, subjectId);
      TextIs(item, "category", 4, 24, ctx, category);
      TextIs(item, "name", 2, 64, ctx, name);
      TextIs(item, "value", 2, 160, ctx, value);
      hide Text, Says;
  }

  /** The first time a listed id is named it is cited. */
  lemma {:induction false} FirstNamed(raw: seq<Option<string>>, l: nat, evidence: map<string, Message>)
    requires l < |raw| && raw[l].Some?
    requires var id := Strip(raw[l].value); id != "" && |id| <= 128 && id in evidence
    ensures exists k: nat :: k <= l && Cites(raw, k, Strip(raw[l].value), evidence)
    decreases l
  {
    hide Strip;
    var id := Strip(raw[l].value);
    if exists m :: 0 <= m < l && raw[m].Some? && Strip(raw[m].value) == id {
      var m: nat :| m < l && raw[m].Some? && Strip(raw[m].value) == id;
      FirstNamed(raw, m, evidence);
    } else {
      assert Cites(raw, l, id, evidence);
    }
  }

  lemma CitedInit(raw: seq<Option<string>>, evidence: map<string, Message>, k: nat, id: string)
    requires raw != [] && k < |raw| - 1
    ensures Cites(raw, k, id, evidence) <==> Cites(raw[..|raw| - 1], k, id, evidence)
  {
    hide Strip;
    var init := raw[..|raw| - 1];
    assert init[k] == raw[k];
    forall l | 0 <= l < k ensures init[l] == raw[l] {
    }
  }

  lemma CitedLast(raw: seq<Option<string>>, known: seq<string>, evidence: map<string, Message>, id: string)
    requires raw != []
    requires var init := raw[..|raw| - 1]; forall x :: x in known <==> exists k: nat :: Cites(init, k, x, evidence)
    ensures Cites(raw, |raw| - 1, id, evidence) <==>
            raw[|raw| - 1].Some? && Strip(raw[|raw| - 1].value) == id
            && id != "" && |id| <= 128 && id in evidence && id !in known
  {
    hide Strip;
    var init, n := raw[..|raw| - 1], |raw| - 1;
    if id in known {
      var k: nat :| Cites(init, k, id, evidence);
      assert raw[k] == init[k];
    } else if id != "" && |id| <= 128 && id in evidence {
      forall l | 0 <= l < n ensures raw[l] == None || Strip(raw[l].value) != id {
        assert init[l] == raw[l];
        if raw[l].Some? && Strip(raw[l].value) == id {
          FirstNamed(init, l, evidence);
        }
      }
    }
  }

  /** The known ids are the cited ones. */
  lemma {:induction false} KnownCited(raw: seq<Option<string>>, evidence: map<string, Message>)
    ensures forall id :: id in KnownIds(raw, evidence) <==> exists k: nat :: Cites(raw, k, id, evidence)
  {
    if raw != [] {
      var init, known := raw[..|raw| - 1], KnownIds(raw[..|raw| - 1], evidence);
      KnownCited(init, evidence);
      hide Cites, Strip;
      forall id ensures id in KnownIds(raw, evidence) <==> exists k: nat :: Cites(raw, k, id, evidence) {
        CitedLast(raw, known, evidence, id);
        CitedSomewhere(raw, evidence, id);
      }
    }
  }

  lemma CitedSomewhere(raw: seq<Option<string>>, evidence: map<string, Message>, id: string)
    requires raw != []
    ensures var init := raw[..|raw| - 1];
            (exists k: nat :: Cites(raw, k, id, evidence)) <==>
            Cites(raw, |raw| - 1, id, evidence) || exists k: nat :: Cites(init, k, id, evidence)
  {
    var n, init := |raw| - 1, raw[..|raw| - 1];
    CitedWithin(raw, evidence, id);
    CitedWithin(init, evidence, id);
    hide Cites;
    forall k: nat | k < n ensures Cites(raw, k, id, evidence) <==> Cites(init, k, id, evidence) {
      CitedInit(raw, evidence, k, id);
    }
  }

  lemma CitedWithin(raw: seq<Option<string>>, evidence: map<string, Message>, id: string)
    ensures forall k: nat :: Cites(raw, k, id, evidence) ==> k < |raw|
  {
  }

  /** One more listed id: it is cited, or nothing is. */
  lemma KnownNext(raw: seq<Option<string>>, evidence: map<string, Message>)
    requires raw != []
    ensures var known, n := KnownIds(raw[..|raw| - 1], evidence), |raw| - 1;
            && (forall id :: Cites(raw, n, id, evidence) ==> id in evidence && KnownIds(raw, evidence) == known + [id])
            && ((forall id :: !Cites(raw, n, id, evidence)) ==> KnownIds(raw, evidence) == known)
  {
    var init, n := raw[..|raw| - 1], |raw| - 1;
    var known := KnownIds(init, evidence);
    KnownCited(init, evidence);
    forall id ensures Cites(raw, n, id, evidence) <==>
                      raw[n].Some? && Strip(raw[n].value) == id
                      && id != "" && |id| <= 128 && id in evidence && id !in known {
      CitedLast(raw, known, evidence, id);
    }
    hide Cites, Strip;
  }

  /** The known ids are the cited ones, in order. */
  lemma {:induction false} KnownYields(raw: seq<Option<string>>, evidence: map<string, Message>)
    ensures Yields(KnownIds(raw, evidence), |raw|, Citing(raw, evidence))
  {
    hide Cites, Yields, Strip;
    var gives := Citing(raw, evidence);
    if raw == [] {
      NothingYields([], gives);
    } else {
      var init, n := raw[..|raw| - 1], |raw| - 1;
      var known := KnownIds(init, evidence);
      KnownYields(init, evidence);
      KnownNext(raw, evidence);
      hide KnownIds;
      forall k: nat, id | k < n ensures gives(k, id) <==> Citing(init, evidence)(k, id) {
        CitedInit(raw, evidence, k, id);
      }
      YieldsSame(known, n, Citing(init, evidence), gives);
      YieldsSnoc(known, n, gives);
      if id :| Cites(raw, n, id, evidence) {
        assert gives(n, id);
      }
    }
  }

  lemma KnownOnce(raw: seq<Option<string>>, evidence: map<string, Message>, ids: seq<string>)
    ensures ids == KnownIds(raw, evidence) <==> Yields(ids, |raw|, Citing(raw, evidence))
  {
    hide Strip, Yields, KnownIds;
    KnownYields(raw, evidence);
    if Yields(ids, |raw|, Citing(raw, evidence)) {
      YieldsOnce(ids, KnownIds(raw, evidence), |raw|, Citing(raw, evidence));
    }
  }

  /** The cited messages that back a claim, in order. */
  lemma {:induction false} BackingCited(raw: seq<Option<string>>, claim: Claim, ctx: Context)
    ensures Yields(Backing(KnownIds(raw, ctx.evidence), claim, ctx), |raw|, CitingBacked(raw, claim, ctx))
  {
    hide Cites, Backs, MayCite, Backing, Yields;
    var gives := CitingBacked(raw, claim, ctx);
    if raw == [] {
      BackingNothing(claim, ctx);
      NothingYields([], gives);
    } else {
      hide KnownIds;
      var init, n := raw[..|raw| - 1], |raw| - 1;
      var known := KnownIds(init, ctx.evidence);
      var rest := Backing(known, claim, ctx);
      BackingCited(init, claim, ctx);
      BackedInit(raw, claim, ctx);
      YieldsSame(rest, n, CitingBacked(init, claim, ctx), gives);
      YieldsSnoc(rest, n, gives);
      KnownNext(raw, ctx.evidence);
      if id :| Cites(raw, n, id, ctx.evidence) {
        BackingSnoc(known, id, claim, ctx);
        CitedOne(raw, n, id, ctx.evidence);
        BacksIs(ctx.evidence[id], claim, ctx);
        if Backs(ctx.evidence[id], claim, ctx) {
          assert gives(n, id);
        } else {
          assert rest + [] == rest;
          assert forall u :: !gives(n, u);
        }
      }
    }
  }

  lemma BackedInit(raw: seq<Option<string>>, claim: Claim, ctx: Context)
    requires raw != []
    ensures var init := raw[..|raw| - 1];
            forall k: nat, id :: k < |raw| - 1 ==>
              (CitingBacked(raw, claim, ctx)(k, id) <==> CitingBacked(init, claim, ctx)(k, id))
  {
    hide Cites, Backs;
    var init := raw[..|raw| - 1];
    forall k: nat, id | k < |raw| - 1
      ensures Cites(raw, k, id, ctx.evidence) <==> Cites(init, k, id, ctx.evidence)
      ensures CitingBacked(raw, claim, ctx)(k, id) <==> CitingBacked(init, claim, ctx)(k, id)
    {
      CitedInit(raw, ctx.evidence, k, id);
    }
  }

  lemma CitedOne(raw: seq<Option<string>>, k: nat, id: string, evidence: map<string, Message>)
    requires Cites(raw, k, id, evidence)
    ensures forall other :: Cites(raw, k, other, evidence) ==> other == id
  {
  }

  lemma BackingNothing(claim: Claim, ctx: Context)
    ensures Backing([], claim, ctx) == []
  {
  }

  lemma BackingSnoc(known: seq<string>, id: string, claim: Claim, ctx: Context)
    requires id in ctx.evidence
    ensures Backing(known + [id], claim, ctx)
            == Backing(known, claim, ctx) + (if Backs(ctx.evidence[id], claim, ctx) then [id] else [])
  {
    hide Backs;
    assert (known + [id])[..|known|] == known;
  }

  lemma {:induction false} BackingAll(ids: seq<string>, claim: Claim, ctx: Context)
    ensures |Backing(ids, claim, ctx)| == |ids| <==>
            forall id :: id in ids ==> id in ctx.evidence && Backs(ctx.evidence[id], claim, ctx)
  {
    hide Backs;
    if ids != [] {
      BackingAll(ids[..|ids| - 1], claim, ctx);
      assert ids == ids[..|ids| - 1] + [ids[|ids| - 1]];
    }
  }

  /** A listed id is cited once, and each place cites one id. */
  lemma CitesOnce(raw: seq<Option<string>>, claim: Claim, ctx: Context)
    ensures forall k: nat, x, y :: CitingBacked(raw, claim, ctx)(k, x) && CitingBacked(raw, claim, ctx)(k, y) ==> x == y
  {
    hide Strip, Backs;
  }

  lemma EvidenceIs(item: RawItem, claim: Claim, ctx: Context, ids: seq<string>)
    ensures ids == Backing(EvidenceIds(item.evidenceIds, ctx.evidence), claim, ctx) <==>
            Yields(ids, |Listed(item)|, CitingBacked(Listed(item), claim, ctx))
    ensures var known := EvidenceIds(item.evidenceIds, ctx.evidence);
            |Backing(known, claim, ctx)| == |known| <==>
            forall k: nat, id :: Cites(Listed(item), k, id, ctx.evidence) ==> MayCite(ctx.evidence[id], claim, ctx)
  {
    hide Backs, MayCite, Backing, Strip, Yields;
    var raw := Listed(item);
    var known := KnownIds(raw, ctx.evidence);
    forall m ensures Backs(m, claim, ctx) <==> MayCite(m, claim, ctx) {
      BacksIs(m, claim, ctx);
    }
    assert known == EvidenceIds(item.evidenceIds, ctx.evidence);
    BackingCited(raw, claim, ctx);
    CitesOnce(raw, claim, ctx);
    if Yields(ids, |raw|, CitingBacked(raw, claim, ctx)) {
      YieldsOnce(ids, Backing(known, claim, ctx), |raw|, CitingBacked(raw, claim, ctx));
    }
    BackingAll(known, claim, ctx);
    KnownCited(raw, ctx.evidence);
    CitedKnown(raw, ctx.evidence);
    hide Cites;
  }

  lemma CitedKnown(raw: seq<Option<string>>, evidence: map<string, Message>)
    ensures forall k: nat, id :: Cites(raw, k, id, evidence) ==> id in evidence
  {
  }

  lemma ScoresIn(claim: Claim, confidence: real, importance: real, ctx: Context)
    requires MayClaim(claim, confidence, importance, ctx)
    ensures 0.5 <= confidence <= 1.0
    ensures if claim.MemoryClaim? then 0.2 <= importance <= 1.0 else importance == 0.0
  {
  }

  /** An item is accepted as a candidate exactly when the rules say so; the candidate has no freedom left. */
  lemma AcceptIs(raw: Option<RawItem>, kind: Kind, ctx: Context, c: Candidate)
    ensures Accept(raw, kind, ctx) == Some(c) <==> Accepts(raw, kind, ctx, c)
  {
    if raw.Some? && c.claim.Kind() == kind {
      ClaimIs(raw.value, kind, ctx, c.claim);
      EvidenceIs(raw.value, c.claim, ctx, c.evidenceIds);
      SufficesIs(c.evidenceIds, c.claim, ctx);
      AdmittedIs(c.claim, c.confidence, c.importance, ctx);
      if MayClaim(c.claim, c.confidence, c.importance, ctx) {
        ScoresIn(c.claim, c.confidence, c.importance, ctx);
      }
      hide ClaimOf, Claims, Backing, EvidenceIds, Cites, Backs, MayCite, Suffices, Enough, Admitted, MayClaim, Yields,
        Listed, CitingBacked;
    }
  }

  /** Of a list of items exactly the accepted ones are candidates, in order. */
  lemma {:induction false} AcceptAllIs(items: seq<Option<RawItem>>, kind: Kind, ctx: Context)
    ensures AcceptedOf(AcceptAll(items, kind, ctx), items, kind, ctx)
  {
    hide Accept, Accepts, Yields;
    var gives := Accepting(items, kind, ctx);
    if items == [] {
      NothingYields([], gives);
    } else {
      var init, n := items[..|items| - 1], |items| - 1;
      var rest := AcceptAll(init, kind, ctx);
      AcceptAllIs(init, kind, ctx);
      YieldsSame(rest, n, Accepting(init, kind, ctx), gives);
      YieldsSnoc(rest, n, gives);
      forall c ensures Accept(items[n], kind, ctx) == Some(c) <==> gives(n, c) {
        AcceptIs(items[n], kind, ctx, c);
      }
    }
  }

  /** There is one such list only. */
  lemma AcceptedOnce(a: seq<Candidate>, b: seq<Candidate>, items: seq<Option<RawItem>>, kind: Kind, ctx: Context)
    requires AcceptedOf(a, items, kind, ctx) && AcceptedOf(b, items, kind, ctx)
    ensures a == b
  {
    hide Accept, Accepts, Yields;
    var gives := Accepting(items, kind, ctx);
    forall k: nat, x, y | gives(k, x) && gives(k, y) ensures x == y {
      AcceptIs(items[k], kind, ctx, x);
      AcceptIs(items[k], kind, ctx, y);
    }
    YieldsOnce(a, b, |items|, gives);
  }

  lemma ParseParts(reply: Reply, ctx: Context)
    ensures Parse(reply, ctx) == HistoryCandidates(
                                   ParseKind(reply.expressions, Expression, ctx),
                                   ParseKind(reply.behaviors, Behavior, ctx),
                                   ParseKind(reply.jargons, Jargon, ctx),
                                   if ctx.allowMemories then ParseKind(reply.memories, Memory, ctx) else [],
                                   if ctx.allowProfiles then ParseKind(reply.profiles, Profile, ctx) else [])
  {
  }

  /** A parsed reply is read as specified, and nothing else is: reading has one result. */
  lemma ParseReads(reply: Reply, ctx: Context)
    ensures ReadAs(reply, Parse(reply, ctx), ctx)
    ensures forall r :: ReadAs(reply, r, ctx) ==> r == Parse(reply, ctx)
  {
    KindsRead(reply, ctx);
    hide IsMerged, AcceptAll, Dedup, AcceptedOf, Considered;
    var parsed := Parse(reply, ctx);
    forall r | ReadAs(reply, r, ctx) ensures r == parsed {
      forall kind: Kind ensures r.Of(kind) == parsed.Of(kind) {
        var items := Considered(reply, kind, ctx);
        var accepted :| AcceptedOf(accepted, items, kind, ctx) && IsMerged(r.Of(kind), accepted, ctx.host);
        AcceptAllIs(items, kind, ctx);
        KindReads(reply, kind, ctx);
        AcceptedOnce(accepted, AcceptAll(items, kind, ctx), items, kind, ctx);
        MergedIsUnique(r.Of(kind), parsed.Of(kind), accepted, ctx.host);
      }
      SameOf(r, parsed);
    }
  }

  lemma KindsRead(reply: Reply, ctx: Context)
    ensures ReadAs(reply, Parse(reply, ctx), ctx)
  {
    hide IsMerged, AcceptAll, AcceptedOf, Considered, Parse;
    forall kind: Kind
      ensures MergedOf(Parse(reply, ctx).Of(kind), Considered(reply, kind, ctx), kind, ctx)
    {
      AcceptAllIs(Considered(reply, kind, ctx), kind, ctx);
      KindReads(reply, kind, ctx);
    }
  }

  lemma SameOf(a: HistoryCandidates, b: HistoryCandidates)
    requires forall kind: Kind :: a.Of(kind) == b.Of(kind)
    ensures a == b
  {
    assert a.Of(Expression) == b.Of(Expression) && a.Of(Behavior) == b.Of(Behavior) && a.Of(Jargon) == b.Of(Jargon);
    assert a.Of(Memory) == b.Of(Memory) && a.Of(Profile) == b.Of(Profile);
  }

  lemma KindReads(reply: Reply, kind: Kind, ctx: Context)
    ensures IsMerged(Parse(reply, ctx).Of(kind), AcceptAll(Considered(reply, kind, ctx), kind, ctx), ctx.host)
  {
    hide IsMerged, Dedup, Accept;
    DedupIsMerged(AcceptAll(Considered(reply, kind, ctx), kind, ctx), ctx.host);
    assert Dedup([], ctx.host) == [] by {
      NothingMerged(ctx.host);
    }
  }

  lemma NothingMerged(host: Host)
    ensures Dedup([], host) == []
  {
  }

  method ParseItems(items: seq<Option<RawItem>>, kind: Kind, ctx: Context) returns (r: seq<Candidate>)
    ensures r == ParseKind(items, kind, ctx)
  {
    hide Accept, Dedup;
    var taken := First(items, Maximum(kind));
    r := [];
    for n := 0 to |taken|
      invariant r == AcceptAll(taken[..n], kind, ctx)
    {
      assert taken[..n + 1][..n] == taken[..n];
      var c := Accept(taken[n], kind, ctx);
      if c.Some? {
        r := r + [c.value];
      }
    }
    assert taken[..|taken|] == taken;
    r := Deduplicate(r, ctx.host);
  }

  /** The items of a kind that are looked at. */
  function Considered(reply: Reply, kind: Kind, ctx: Context): seq<Option<RawItem>> {
    match kind
    case Expression => First(reply.expressions, 60)
    case Behavior => First(reply.behaviors, 40)
    case Jargon => First(reply.jargons, 60)
    case Memory => if ctx.allowMemories then First(reply.memories, 50) else []
    case Profile => if ctx.allowProfiles then First(reply.profiles, 50) else []
  }

  /** What a reply is read as: one candidate of each kind for each key of an accepted item, in the order of first
      occurrence, being the fold of all accepted items with its key. */
  ghost predicate ReadAs(reply: Reply, r: HistoryCandidates, ctx: Context) {
    forall kind: Kind :: MergedOf(r.Of(kind), Considered(reply, kind, ctx), kind, ctx)
  }

  ghost predicate MergedOf(r: seq<Candidate>, items: seq<Option<RawItem>>, kind: Kind, ctx: Context) {
    exists accepted :: AcceptedOf(accepted, items, kind, ctx) && IsMerged(r, accepted, ctx.host)
  }

  /** Every candidate read is grounded; what is read is made of the accepted items and of nothing else. */
  method ParseHistoryWindowResult(reply: Reply, ctx: Context) returns (r: HistoryCandidates)
    ensures WellGrounded(r, ctx) && ReadAs(reply, r, ctx)
    ensures r == Parse(reply, ctx)
  {
    hide *;
    ParseGrounded(reply, ctx);
    ParseReads(reply, ctx);
    ParseParts(reply, ctx);
    var expressions := ParseItems(reply.expressions, Expression, ctx);
    var behaviors := ParseItems(reply.behaviors, Behavior, ctx);
    var jargons := ParseItems(reply.jargons, Jargon, ctx);
    var memories, profiles := [], [];
    if ctx.allowMemories {
      memories := ParseItems(reply.memories, Memory, ctx);
    }
    if ctx.allowProfiles {
      profiles := ParseItems(reply.profiles, Profile, ctx);
    }
    r := HistoryCandidates(expressions, behaviors, jargons, memories, profiles);
  }
}
