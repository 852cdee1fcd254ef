/**
 What one call of consolidation keeps: of a readable answer exactly what it may say, of an unreadable one the batch.
 */
module Replies {
  import opened Candidates
  import opened Consolidation
  import opened Greedy
  import opened Prelude
  import opened Seqs

  // ----- what the model is shown

  /** The prompt shows the id with the candidate: it is one of its first two. */
  predicate ShowsId(o: Candidate, id: string) {
    exists k :: 0 <= k < |o.evidenceIds| && k < 2 && o.evidenceIds[k] == id
  }

  /** The types, the term up to case folding, or type and subject are the same; any two situations may stand for each
      other. */
  predicate SameTag(a: Claim, b: Claim, host: Host) {
    match (a, b)
    case (ExpressionClaim(_, _), ExpressionClaim(_, _)) => true
    case (BehaviorClaim(actor, learning, _, _), BehaviorClaim(actor2, learning2, _, _)) =>
      actor == actor2 && learning == learning2
    case (JargonClaim(content, _), JargonClaim(content2, _)) => host.fold(content) == host.fold(content2)
    case (MemoryClaim(atom, _, subject), MemoryClaim(atom2, _, subject2)) => atom == atom2 && subject == subject2
    case (ProfileClaim(subject, category, _, _), ProfileClaim(subject2, category2, _, _)) =>
      subject == subject2 && category == category2
    case _ => false
  }

  /** All that makes the claims the same candidate, up to case folding. */
  predicate SameIdentity(a: Claim, b: Claim, host: Host) {
    var f := host.fold;
    match (a, b)
    case (ExpressionClaim(situation, style), ExpressionClaim(situation2, style2)) =>
      f(situation) == f(situation2) && f(style) == f(style2)
    case (BehaviorClaim(actor, learning, action, outcome), BehaviorClaim(actor2, learning2, action2, outcome2)) =>
      f(actor) == f(actor2) && f(learning) == f(learning2) && f(action) == f(action2) && f(outcome) == f(outcome2)
    case (JargonClaim(content, _), JargonClaim(content2, _)) => f(content) == f(content2)
    case (MemoryClaim(atom, content, subject), MemoryClaim(atom2, content2, subject2)) =>
      f(atom) == f(atom2) && f(content) == f(content2) && f(subject) == f(subject2)
    case (ProfileClaim(subject, category, name, value), ProfileClaim(subject2, category2, name2, value2)) =>
      f(subject) == f(subject2) && f(category) == f(category2) && f(name) == f(name2) && f(value) == f(value2)
    case _ => false
  }

  // ----- one answer

  /** The answered candidate cites something, only what the batch shows, and carries a tag of the batch. */
  ghost predicate Admits(c: Candidate, batch: seq<Candidate>, host: Host) {
    && c.evidenceIds != []
    && (forall id :: id in c.evidenceIds ==> exists o :: o in batch && ShowsId(o, id))
    && (c.claim.ExpressionClaim? || exists o :: o in batch && SameTag(c.claim, o.claim, host))
  }

  ghost function Admitting(batch: seq<Candidate>, host: Host): Candidate -> bool {
    (c: Candidate) => Admits(c, batch, host)
  }

  /** It cites what is shown of the original, or says the same. */
  ghost predicate Near(c: Candidate, o: Candidate, host: Host) {
    (exists id :: id in c.evidenceIds && ShowsId(o, id)) || SameIdentity(c.claim, o.claim, host)
  }

  /** The sources of the originals that are near, in order. */
  ghost function NearSources(c: Candidate, batch: seq<Candidate>, host: Host): (r: seq<seq<string>>)
    ensures |r| == |batch|
    ensures forall k :: 0 <= k < |batch| ==> r[k] == if Near(c, batch[k], host) then batch[k].provenance else []
  {
    seq(|batch|, k requires 0 <= k < |batch| => if Near(c, batch[k], host) then batch[k].provenance else [])
  }

  /** The claim, evidence and scores of the answer, and the sources of the originals behind it, blank ones left out and
      none twice. */
  ghost predicate Carries(x: Candidate, c: Candidate, batch: seq<Candidate>, host: Host) {
    && x.claim == c.claim && x.evidenceIds == c.evidenceIds && x.confidence == c.confidence
    && x.importance == c.importance
    && x.provenance == Distinct(Filter(NotBlank, c.provenance + Flatten(NearSources(c, batch, host))))
    && x.candidateId == host.digest(c.claim.Kind(), Identity(c.claim, host))
  }

  /** Position by position the admitted candidates of the answer. */
  ghost predicate Answered(result: seq<Candidate>, answer: seq<Candidate>, batch: seq<Candidate>, host: Host) {
    exists kept :: Sifted(kept, answer, Admitting(batch, host)) && AllCarry(result, kept, batch, host)
  }

  ghost predicate AllCarry(result: seq<Candidate>, kept: seq<Candidate>, batch: seq<Candidate>, host: Host) {
    |result| == |kept| && forall k :: 0 <= k < |kept| ==> Carries(result[k], kept[k], batch, host)
  }

  /** The message is not the bot's own and has the term. */
  ghost predicate Uses(id: string, c: Candidate, evidence: map<string, Message>)
    requires c.claim.JargonClaim?
  {
    id in c.evidenceIds && id in evidence && !evidence[id].isBot && Contains(evidence[id].content, c.claim.content)
  }

  /** Two cited messages do. */
  ghost predicate UsedTwice(c: Candidate, evidence: map<string, Message>) {
    c.claim.JargonClaim? && exists a, b :: a != b && Uses(a, c, evidence) && Uses(b, c, evidence)
  }

  ghost function UsedIn(evidence: map<string, Message>): Candidate -> bool {
    (c: Candidate) => UsedTwice(c, evidence)
  }

  /** All candidates, the terms not used twice left out. */
  ghost predicate LeftOver(r: HistoryCandidates, c: HistoryCandidates, evidence: map<string, Message>) {
    && r.expressions == c.expressions && r.behaviors == c.behaviors && r.memories == c.memories
    && r.profiles == c.profiles && Sifted(r.jargons, c.jargons, UsedIn(evidence))
  }

  /** The result of one call: what the answer may say, or, when it cannot be read, the batch. */
  ghost predicate Replied(r: HistoryCandidates, batch: HistoryCandidates, answer: Option<ParsedCandidates>, s: Setting)
  {
    match answer
    case None => LeftOver(r, batch, s.budget.evidence)
    case Some(a) => forall kind: Kind :: Answered(r.Of(kind), a.Of(kind), batch.Of(kind), s.host)
  }

  // ----- every call meets it, in one way

  lemma SameTagIs(a: Claim, b: Claim, host: Host)
    requires a.Kind() == b.Kind()
    ensures SameTag(a, b, host) <==> Tag(a, host) == Tag(b, host)
    ensures SameIdentity(a, b, host) <==> Identity(a, host) == Identity(b, host)
  {
  }

  lemma ShownHas(o: Candidate, id: string)
    ensures id in First(o.evidenceIds, MAX_PROMPT_EVIDENCE_IDS) <==> ShowsId(o, id)
  {
    var first := First(o.evidenceIds, MAX_PROMPT_EVIDENCE_IDS);
    if ShowsId(o, id) {
      var k :| 0 <= k < |o.evidenceIds| && k < 2 && o.evidenceIds[k] == id;
      assert first[k] == id;
    }
  }

  lemma {:induction false} ShownAt(items: seq<Candidate>, k: nat)
    requires k < |items|
    ensures |ShownKind(items)| == |items|
    ensures ShownKind(items)[k] == items[k].(evidenceIds := First(items[k].evidenceIds, MAX_PROMPT_EVIDENCE_IDS))
  {
    if k < |items| - 1 {
      ShownAt(items[..|items| - 1], k);
    } else {
      ShownLength(items);
    }
  }

  lemma {:induction false} ShownLength(items: seq<Candidate>)
    ensures |ShownKind(items)| == |items|
  {
    if items != [] {
      ShownLength(items[..|items| - 1]);
    }
  }

  lemma CitedShown(batch: seq<Candidate>, id: string)
    ensures Cited(id, ShownKind(batch)) <==> exists o :: o in batch && ShowsId(o, id)
  {
    var shown := ShownKind(batch);
    ShownLength(batch);
    forall k | 0 <= k < |batch| ensures id in shown[k].evidenceIds <==> ShowsId(batch[k], id) {
      ShownAt(batch, k);
      ShownHas(batch[k], id);
    }
    if Cited(id, shown) {
      var c :| c in shown && id in c.evidenceIds;
      var k :| 0 <= k < |shown| && shown[k] == c;
      assert batch[k] in batch;
    }
    if exists o :: o in batch && ShowsId(o, id) {
      var o :| o in batch && ShowsId(o, id);
      var k :| 0 <= k < |batch| && batch[k] == o;
      assert shown[k] in shown;
    }
  }

  lemma TaggedShown(claim: Claim, batch: seq<Candidate>, host: Host)
    requires SameKind(batch, claim.Kind())
    ensures Tagged(Tag(claim, host), ShownKind(batch), host) <==>
              exists o :: o in batch && SameTag(claim, o.claim, host)
  {
    hide SameTag, Tag;
    var shown := ShownKind(batch);
    ShownLength(batch);
    forall k | 0 <= k < |batch|
      ensures Tag(shown[k].claim, host) == Tag(claim, host) <==> SameTag(claim, batch[k].claim, host)
    {
      ShownAt(batch, k);
      assert batch[k] in batch;
      SameTagIs(claim, batch[k].claim, host);
    }
    if Tagged(Tag(claim, host), shown, host) {
      var c :| c in shown && Tag(c.claim, host) == Tag(claim, host);
      var k :| 0 <= k < |shown| && shown[k] == c;
      assert batch[k] in batch;
    }
    if exists o :: o in batch && SameTag(claim, o.claim, host) {
      var o :| o in batch && SameTag(claim, o.claim, host);
      var k :| 0 <= k < |batch| && batch[k] == o;
      assert shown[k] in shown;
    }
  }

  lemma AdmitsIs(c: Candidate, batch: seq<Candidate>, host: Host)
    requires SameKind(batch, c.claim.Kind())
    ensures Allowed(c, ShownKind(batch), host) <==> Admits(c, batch, host)
  {
    hide Cited, Tagged, ShowsId, SameTag, Tag;
    forall id ensures Cited(id, ShownKind(batch)) <==> exists o :: o in batch && ShowsId(o, id) {
      CitedShown(batch, id);
    }
    TaggedShown(c.claim, batch, host);
  }

  lemma {:induction false} RestrictSifts(answer: seq<Candidate>, batch: seq<Candidate>, kind: Kind, host: Host)
    requires SameKind(answer, kind) && SameKind(batch, kind)
    ensures Sifted(RestrictKind(answer, ShownKind(batch), host), answer, Admitting(batch, host))
  {
    hide Sifted, Allowed, Admits, ShownKind;
    if answer == [] {
      NothingSifted(Admitting(batch, host));
    } else {
      var init, c := answer[..|answer| - 1], answer[|answer| - 1];
      RestrictSifts(init, batch, kind, host);
      SiftedSnoc(RestrictKind(init, ShownKind(batch), host), init, Admitting(batch, host), c);
      AdmitsIs(c, batch, host);
      assert answer == init + [c];
    }
  }

  lemma NearIs(c: Candidate, batch: seq<Candidate>, k: nat, host: Host)
    requires k < |batch| == |ShownKind(batch)| && batch[k].claim.Kind() == c.claim.Kind()
    ensures var o := ShownKind(batch)[k];
            && o.provenance == batch[k].provenance
            && (Related(c, o, host) <==> Near(c, batch[k], host))
  {
    hide ShowsId, SameIdentity, Identity;
    ShownAt(batch, k);
    forall id ensures id in First(batch[k].evidenceIds, MAX_PROMPT_EVIDENCE_IDS) <==> ShowsId(batch[k], id) {
      ShownHas(batch[k], id);
    }
    SameTagIs(c.claim, batch[k].claim, host);
  }

  lemma InheritSnoc(c: Candidate, source: seq<Candidate>, o: Candidate, host: Host)
    ensures InheritSources(c, source + [o], host) ==
            InheritSources(c, source, host) + if Related(c, o, host) then o.provenance else []
  {
    hide Identity;
    SnocParts(source, o);
  }

  lemma ShownSnoc(batch: seq<Candidate>, o: Candidate)
    ensures ShownKind(batch + [o]) ==
            ShownKind(batch) + [o.(evidenceIds := First(o.evidenceIds, MAX_PROMPT_EVIDENCE_IDS))]
  {
    SnocParts(batch, o);
  }

  lemma {:induction false} InheritsNear(c: Candidate, batch: seq<Candidate>, host: Host)
    requires SameKind(batch, c.claim.Kind())
    ensures InheritSources(c, ShownKind(batch), host) == c.provenance + Flatten(NearSources(c, batch, host))
  {
    hide Near, Related, InheritSources, ShownKind, Flatten, First;
    if batch == [] {
      NothingNear(c, host);
    } else {
      var init, o := batch[..|batch| - 1], batch[|batch| - 1];
      assert batch == init + [o] && o in batch;
      InheritsNear(c, init, host);
      ShownLength(batch);
      NearIs(c, batch, |init|, host);
      ShownSnoc(init, o);
      var shown := o.(evidenceIds := First(o.evidenceIds, MAX_PROMPT_EVIDENCE_IDS));
      ShownLength(init);
      InheritSnoc(c, ShownKind(init), shown, host);
      var piece := if Near(c, o, host) then o.provenance else [];
      assert NearSources(c, batch, host) == NearSources(c, init, host) + [piece];
      FlattenSnoc(NearSources(c, init, host), piece);
    }
  }

  lemma NothingNear(c: Candidate, host: Host)
    ensures InheritSources(c, ShownKind([]), host) == c.provenance + Flatten(NearSources(c, [], host))
  {
  }

  lemma InheritCarries(c: Candidate, batch: seq<Candidate>, host: Host)
    requires SameKind(batch, c.claim.Kind())
    ensures Carries(Inherit(c, ShownKind(batch), host), c, batch, host)
  {
    hide InheritSources, ShownKind, NearSources, Flatten, Identity;
    InheritsNear(c, batch, host);
  }

  lemma {:induction false} InheritAll(kept: seq<Candidate>, batch: seq<Candidate>, kind: Kind, host: Host)
    requires SameKind(kept, kind) && SameKind(batch, kind)
    ensures AllCarry(InheritKind(kept, ShownKind(batch), host), kept, batch, host)
  {
    hide Carries, Inherit, ShownKind;
    if kept != [] {
      InheritAll(kept[..|kept| - 1], batch, kind, host);
      InheritCarries(kept[|kept| - 1], batch, host);
    }
  }

  /** Of a readable answer exactly the admitted candidates are kept. */
  lemma AcceptAnswers(answer: seq<Candidate>, batch: seq<Candidate>, kind: Kind, host: Host)
    requires SameKind(answer, kind) && SameKind(batch, kind)
    ensures Answered(AcceptKind(answer, batch, host), answer, batch, host)
  {
    hide Sifted, RestrictKind, InheritKind, ShownKind, AllCarry;
    var kept := RestrictKind(answer, ShownKind(batch), host);
    RestrictSifts(answer, batch, kind, host);
    SiftedMembers(kept, answer, Admitting(batch, host));
    InheritAll(kept, batch, kind, host);
  }

  lemma TwiceIs(c: Candidate, evidence: map<string, Message>)
    requires c.claim.JargonClaim?
    ensures |Occurrences(c, evidence)| >= 2 <==> UsedTwice(c, evidence)
  {
    var used := Occurrences(c, evidence);
    assert forall id :: id in used <==> Uses(id, c, evidence);
    hide Uses, Occurrences;
    TwoMembers(used);
  }

  lemma TwoMembers<T>(s: set<T>)
    ensures |s| >= 2 <==> exists a, b :: a != b && a in s && b in s
  {
    if |s| >= 2 {
      var a :| a in s;
      assert |s - {a}| >= 1;
      var b :| b in s - {a};
      assert a != b && a in s && b in s;
    }
    if exists a, b :: a != b && a in s && b in s {
      var a, b :| a != b && a in s && b in s;
      SubsetSize({a, b}, s);
    }
  }

  lemma {:induction false} RepeatedSifts(jargons: seq<Candidate>, evidence: map<string, Message>)
    requires SameKind(jargons, Jargon)
    ensures Sifted(RepeatedJargons(jargons, evidence), jargons, UsedIn(evidence))
  {
    hide Sifted, Occurrences, UsedTwice;
    if jargons == [] {
      NothingSifted(UsedIn(evidence));
    } else {
      var init, c := jargons[..|jargons| - 1], jargons[|jargons| - 1];
      RepeatedSifts(init, evidence);
      SiftedSnoc(RepeatedJargons(init, evidence), init, UsedIn(evidence), c);
      TwiceIs(c, evidence);
      assert jargons == init + [c];
    }
  }

  lemma FallbackLeaves(c: HistoryCandidates, evidence: map<string, Message>)
    requires c.Sorted()
    ensures LeftOver(Fallback(c, evidence), c, evidence)
  {
    hide Sifted, RepeatedJargons;
    RepeatedSifts(c.jargons, evidence);
  }

  lemma ConsolidateReplies(batch: HistoryCandidates, call: nat, s: Setting)
    requires batch.Sorted()
    ensures Replied(Consolidate(batch, call, s), batch, s.answer(call), s)
  {
    hide AcceptKind, Answered, LeftOver, Fallback;
    match s.answer(call)
    case None => FallbackLeaves(batch, s.budget.evidence);
    case Some(answer) =>
      forall kind: Kind
        ensures Answered(Consolidate(batch, call, s).Of(kind), answer.Of(kind), batch.Of(kind), s.host)
      {
        AcceptAnswers(answer.Of(kind), batch.Of(kind), kind, s.host);
      }
  }

  lemma CarryOnce(a: seq<Candidate>, b: seq<Candidate>, kept: seq<Candidate>, batch: seq<Candidate>, host: Host)
    requires AllCarry(a, kept, batch, host) && AllCarry(b, kept, batch, host)
    ensures a == b
  {
    forall k | 0 <= k < |kept| ensures a[k] == b[k] {
      assert Carries(a[k], kept[k], batch, host) && Carries(b[k], kept[k], batch, host);
    }
  }

  lemma AnsweredOnce(a: seq<Candidate>, b: seq<Candidate>, answer: seq<Candidate>, batch: seq<Candidate>, host: Host)
    requires Answered(a, answer, batch, host) && Answered(b, answer, batch, host)
    ensures a == b
  {
    hide Sifted, AllCarry;
    var k :| Sifted(k, answer, Admitting(batch, host)) && AllCarry(a, k, batch, host);
    var l :| Sifted(l, answer, Admitting(batch, host)) && AllCarry(b, l, batch, host);
    SiftedOnce(k, l, answer, Admitting(batch, host));
    CarryOnce(a, b, k, batch, host);
  }

  lemma LeftOverOnce(a: HistoryCandidates, b: HistoryCandidates, c: HistoryCandidates, evidence: map<string, Message>)
    requires LeftOver(a, c, evidence) && LeftOver(b, c, evidence)
    ensures a == b
  {
    hide Sifted;
    SiftedOnce(a.jargons, b.jargons, c.jargons, UsedIn(evidence));
  }

  /** One call has one result. */
  lemma RepliedOnce(a: HistoryCandidates, b: HistoryCandidates, batch: HistoryCandidates,
                    answer: Option<ParsedCandidates>, s: Setting)
    requires Replied(a, batch, answer, s) && Replied(b, batch, answer, s)
    ensures a == b
  {
    hide Answered, LeftOver;
    match answer
    case None => LeftOverOnce(a, b, batch, s.budget.evidence);
    case Some(given) =>
      forall kind: Kind ensures a.Of(kind) == b.Of(kind) {
        AnsweredOnce(a.Of(kind), b.Of(kind), given.Of(kind), batch.Of(kind), s.host);
      }
      EachKind(a, b);
  }

  lemma EachKind(a: HistoryCandidates, b: HistoryCandidates)
    requires forall kind: Kind :: a.Of(kind) == b.Of(kind)
    ensures a == b
  {
    assert a.Of(Expression) == b.Of(Expression) && a.Of(Behavior) == b.Of(Behavior) && a.Of(Jargon) == b.Of(Jargon);
    assert a.Of(Memory) == b.Of(Memory) && a.Of(Profile) == b.Of(Profile);
  }
}
