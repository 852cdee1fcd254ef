/** Learning candidates, their keys, and the merge of candidates that say the same. */
module Candidates {
  import opened Prelude
  import opened Seqs

  datatype Kind = Expression | Behavior | Jargon | Memory | Profile

  /** What a candidate claims, apart from its evidence. */
  datatype Claim =
    | ExpressionClaim(situation: string, style: string)
    | BehaviorClaim(actorType: string, learningType: string, action: string, outcome: string)
    | JargonClaim(content: string, meaning: string)
    | MemoryClaim(atomType: string, content: string, subjectId: string)
    | ProfileClaim(subjectId: string, category: string, name: string, value: string)
  {
    function Kind(): Kind {
      match this
      case ExpressionClaim(_, _) => Expression
      case BehaviorClaim(_, _, _, _) => Behavior
      case JargonClaim(_, _) => Jargon
      case MemoryClaim(_, _, _) => Memory
      case ProfileClaim(_, _, _, _) => Profile
    }
  }

  datatype Candidate = Candidate(
    claim: Claim,
    evidenceIds: seq<string>,
    confidence: real,
    importance: real,
    candidateId: string,
    provenance: seq<string>)

  /** Case folding and the hash of a candidate's identity, as the host language provides them. */
  datatype Host = Host(fold: string -> string, digest: (Kind, seq<string>) -> string)

  predicate SameKind(items: seq<Candidate>, kind: Kind) {
    forall c :: c in items ==> c.claim.Kind() == kind
  }

  datatype HistoryCandidates = HistoryCandidates(
    expressions: seq<Candidate>,
    behaviors: seq<Candidate>,
    jargons: seq<Candidate>,
    memories: seq<Candidate>,
    profiles: seq<Candidate>)
  {
    function Of(kind: Kind): seq<Candidate> {
      match kind
      case Expression => expressions
      case Behavior => behaviors
      case Jargon => jargons
      case Memory => memories
      case Profile => profiles
    }

    function Total(): nat {
      |expressions| + |behaviors| + |jargons| + |memories| + |profiles|
    }

    /** Every collection holds candidates of its own kind only. */
    predicate Sorted() {
      && SameKind(expressions, Expression) && SameKind(behaviors, Behavior) && SameKind(jargons, Jargon)
      && SameKind(memories, Memory) && SameKind(profiles, Profile)
    }
  }

  const NONE := HistoryCandidates([], [], [], [], [])

  const MAX_EVIDENCE_IDS: nat := 12
  const MAX_PROVENANCE: nat := 64

  /** The identity a candidate's stable id is made from: everything folded. */
  function Identity(claim: Claim, host: Host): seq<string> {
    match claim
    case ExpressionClaim(situation, style) => [host.fold(situation), host.fold(style)]
    case BehaviorClaim(actorType, learningType, action, outcome) =>
      [host.fold(actorType), host.fold(learningType), host.fold(action), host.fold(outcome)]
    case JargonClaim(content, _) => [host.fold(content)]
    case MemoryClaim(atomType, content, subjectId) => [host.fold(atomType), host.fold(subjectId), host.fold(content)]
    case ProfileClaim(subjectId, category, name, value) =>
      [host.fold(subjectId), host.fold(category), host.fold(name), host.fold(value)]
  }

  /** The key candidates of one kind are merged by: only free text is folded. */
  function Key(claim: Claim, host: Host): seq<string> {
    match claim
    case ExpressionClaim(situation, style) => [host.fold(situation), host.fold(style)]
    case BehaviorClaim(actorType, learningType, action, outcome) =>
      [actorType, learningType, host.fold(action), host.fold(outcome)]
    case JargonClaim(content, _) => [host.fold(content)]
    case MemoryClaim(atomType, content, subjectId) => [atomType, subjectId, host.fold(content)]
    case ProfileClaim(subjectId, category, name, value) => [subjectId, category, host.fold(name), host.fold(value)]
  }

  /** The claims say the same: free text up to case folding, types and people exactly, the meaning of a term not at all.
      */
  predicate SaysSame(a: Claim, b: Claim, host: Host) {
    match (a, b)
    case (ExpressionClaim(situation, style), ExpressionClaim(situation2, style2)) =>
      host.fold(situation) == host.fold(situation2) && host.fold(style) == host.fold(style2)
    case (BehaviorClaim(actor, learning, action, outcome), BehaviorClaim(actor2, learning2, action2, outcome2)) =>
      && actor == actor2 && learning == learning2
      && host.fold(action) == host.fold(action2) && host.fold(outcome) == host.fold(outcome2)
    case (JargonClaim(content, _), JargonClaim(content2, _)) => host.fold(content) == host.fold(content2)
    case (MemoryClaim(atom, content, subject), MemoryClaim(atom2, content2, subject2)) =>
      atom == atom2 && subject == subject2 && host.fold(content) == host.fold(content2)
    case (ProfileClaim(subject, category, name, value), ProfileClaim(subject2, category2, name2, value2)) =>
      && subject == subject2 && category == category2
      && host.fold(name) == host.fold(name2) && host.fold(value) == host.fold(value2)
    case _ => false
  }

  lemma KeyIs(a: Claim, b: Claim, host: Host)
    requires a.Kind() == b.Kind()
    ensures SaysSame(a, b, host) <==> Key(a, host) == Key(b, host)
  {
  }

  predicate NotBlank(s: string) {
    exists k :: 0 <= k < |s| && !IsSpace(s[k])
  }

  function CleanProvenance(sources: seq<string>): seq<string> {
    Distinct(Filter(NotBlank, sources))
  }

  function WithMetadata(c: Candidate, host: Host): Candidate {
    c.(candidateId := host.digest(c.claim.Kind(), Identity(c.claim, host)), provenance := CleanProvenance(c.provenance))
  }

  function Max(x: real, y: real): real {
    if x >= y then x else y
  }

  function MergeEvidence(first: Candidate, second: Candidate, host: Host): Candidate {
    WithMetadata(
      first.(evidenceIds := FirstDistinct(first.evidenceIds + second.evidenceIds, MAX_EVIDENCE_IDS),
             confidence := Max(first.confidence, second.confidence),
             importance :=
               if first.claim.MemoryClaim? then Max(first.importance, second.importance) else first.importance,
             provenance := FirstDistinct(first.provenance + second.provenance, MAX_PROVENANCE)),
      host)
  }

  // ----- deduplication

  function Keys(items: seq<Candidate>, host: Host): (r: seq<seq<string>>)
    ensures |r| == |items| && forall k :: 0 <= k < |items| ==> r[k] == Key(items[k].claim, host)
  {
    seq(|items|, k requires 0 <= k < |items| => Key(items[k].claim, host))
  }

  function IndexOf(keys: seq<seq<string>>, key: seq<string>): (i: nat)
    requires key in keys
    ensures i < |keys| && keys[i] == key && key !in keys[..i]
  {
    if keys[0] == key then 0 else 1 + IndexOf(keys[1..], key)
  }

  /** One more item: merged into the candidate with its key, or put at the end. */
  function Insert(merged: seq<Candidate>, item: Candidate, host: Host): seq<Candidate> {
    var key := Key(item.claim, host);
    var keys := Keys(merged, host);
    if key in keys then
      var i := IndexOf(keys, key);
      merged[i := MergeEvidence(merged[i], item, host)]
    else merged + [item]
  }

  function Dedup(items: seq<Candidate>, host: Host): seq<Candidate> {
    if items == [] then []
    else Insert(Dedup(items[..|items| - 1], host), WithMetadata(items[|items| - 1], host), host)
  }

  /** An insertion-ordered dictionary (its keys in order, and its values) holds the candidates `items`. */
  ghost predicate Holds(keys: seq<seq<string>>, merged: map<seq<string>, Candidate>, items: seq<Candidate>, host: Host)
  {
    && NoRepeats(keys) && keys == Keys(items, host)
    && (forall key :: key in merged <==> key in keys)
    && (forall k :: 0 <= k < |keys| ==> keys[k] in merged && items[k] == merged[keys[k]])
  }

  lemma HoldsInsert(keys: seq<seq<string>>, merged: map<seq<string>, Candidate>, items: seq<Candidate>,
                    item: Candidate, host: Host)
    requires Holds(keys, merged, items, host)
    ensures var key := Key(item.claim, host);
            if key in merged then Holds(keys, merged[key := MergeEvidence(merged[key], item, host)],
                                        Insert(items, item, host), host)
            else Holds(keys + [key], merged[key := item], Insert(items, item, host), host)
  {
  }

  /** The original's loop over an insertion-ordered dictionary. */
  method Deduplicate(items: seq<Candidate>, host: Host) returns (r: seq<Candidate>)
    ensures r == Dedup(items, host)
  {
    hide Insert, MergeEvidence, WithMetadata;
    var keys: seq<seq<string>> := [];
    var merged: map<seq<string>, Candidate> := map[];
    for n := 0 to |items|
      invariant Holds(keys, merged, Dedup(items[..n], host), host)
    {
      assert items[..n + 1][..n] == items[..n];
      var item := WithMetadata(items[n], host);
      HoldsInsert(keys, merged, Dedup(items[..n], host), item, host);
      var key := Key(item.claim, host);
      if key in merged {
        merged := merged[key := MergeEvidence(merged[key], item, host)];
      } else {
        merged := merged[key := item];
        keys := keys + [key];
      }
    }
    assert items[..|items|] == items;
    r := seq(|keys|, k requires 0 <= k < |keys| && keys[k] in merged => merged[keys[k]]);
  }

  /** The candidates of several results, each kind merged by its key. */
  function MergeWindows(results: seq<HistoryCandidates>, host: Host): HistoryCandidates {
    HistoryCandidates(
      Dedup(Gather(results, Expression), host),
      Dedup(Gather(results, Behavior), host),
      Dedup(Gather(results, Jargon), host),
      Dedup(Gather(results, Memory), host),
      Dedup(Gather(results, Profile), host))
  }

  function Gather(results: seq<HistoryCandidates>, kind: Kind): seq<Candidate> {
    if results == [] then [] else Gather(results[..|results| - 1], kind) + results[|results| - 1].Of(kind)
  }

  method MergeWindowCandidates(results: seq<HistoryCandidates>, host: Host) returns (r: HistoryCandidates)
    ensures r == MergeWindows(results, host)
  {
    var expressions, behaviors, jargons, memories, profiles := [], [], [], [], [];
    for n := 0 to |results|
      invariant expressions == Gather(results[..n], Expression) && behaviors == Gather(results[..n], Behavior)
      invariant jargons == Gather(results[..n], Jargon) && memories == Gather(results[..n], Memory)
      invariant profiles == Gather(results[..n], Profile)
    {
      assert results[..n + 1][..n] == results[..n];
      expressions := expressions + results[n].expressions;
      behaviors := behaviors + results[n].behaviors;
      jargons := jargons + results[n].jargons;
      memories := memories + results[n].memories;
      profiles := profiles + results[n].profiles;
    }
    assert results[..|results|] == results;
    expressions := Deduplicate(expressions, host);
    behaviors := Deduplicate(behaviors, host);
    jargons := Deduplicate(jargons, host);
    memories := Deduplicate(memories, host);
    profiles := Deduplicate(profiles, host);
    r := HistoryCandidates(expressions, behaviors, jargons, memories, profiles);
  }
}
