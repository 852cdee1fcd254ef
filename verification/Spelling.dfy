/**
 Merged jargon terms. Terms are merged by their folded form while a message is searched for the term as it is
 spelled, so a merged term need not occur in every message it cites: when it does, and a reply for which it does not.
 */
module Spelling {
  import opened Candidates
  import opened Grounding
  import opened Prelude
  import opened Reading
  import opened Seqs

  /** Every cited message has the term as it is spelled. */
  ghost predicate Spelled(c: Candidate, evidence: map<string, Message>) {
    c.claim.JargonClaim? && forall id :: id in c.evidenceIds ==>
      id in evidence && Contains(evidence[id].content, c.claim.content)
  }

  /** A candidate for the term that meets all rules over the evidence, and is spelled as its messages have it. */
  ghost predicate Candidacy(c: Candidate, term: string, evidence: map<string, Message>, ctx: Context) {
    Grounded(c, ctx.(evidence := evidence)) && Spelled(c, evidence) && c.claim.content == term
  }

  /** Merging keeps the spelling, whatever the candidates for the two terms cite. */
  ghost predicate AlwaysSpelled(x: string, y: string, ctx: Context) {
    forall a, b, evidence: map<string, Message> :: Candidacy(a, x, evidence, ctx) && Candidacy(b, y, evidence, ctx)
                             ==> Spelled(MergeEvidence(a, b, ctx.host), evidence)
  }

  // ----- texts within texts

  lemma ContainsTrans(text: string, middle: string, part: string)
    requires Contains(text, middle) && Contains(middle, part)
    ensures Contains(text, part)
  {
    var i :| 0 <= i <= |text| && OccursAt(text, middle, i);
    var j :| 0 <= j <= |middle| && OccursAt(middle, part, j);
    forall n | 0 <= n < |part| ensures text[i + j + n] == part[n] {
      assert part[n] == middle[j..j + |part|][n] == middle[j + n] == text[i..i + |middle|][j + n];
    }
    assert text[i + j..i + j + |part|] == part;
    assert OccursAt(text, part, i + j);
  }

  lemma ContainsSelf(text: string)
    ensures Contains(text, text)
  {
    assert text[0..0 + |text|] == text;
    assert OccursAt(text, text, 0);
  }

  // ----- when the spelling is kept

  lemma ContainedKeeps(x: string, y: string, ctx: Context)
    requires Contains(y, x)
    ensures AlwaysSpelled(x, y, ctx)
  {
    hide Contains, Grounded;
    forall a, b, evidence: map<string, Message> | Candidacy(a, x, evidence, ctx) && Candidacy(b, y, evidence, ctx)
      ensures Spelled(MergeEvidence(a, b, ctx.host), evidence)
    {
      MergedCites(a, b, ctx.host);
      forall id | id in MergeEvidence(a, b, ctx.host).evidenceIds
        ensures id in evidence && Contains(evidence[id].content, x)
      {
        if id !in a.evidenceIds {
          ContainsTrans(evidence[id].content, y, x);
        }
      }
    }
  }

  lemma MergedCites(a: Candidate, b: Candidate, host: Host)
    ensures var m := MergeEvidence(a, b, host);
            m.claim == a.claim && forall id :: id in m.evidenceIds ==> id in a.evidenceIds || id in b.evidenceIds
  {
    CutDistinct(a.evidenceIds + b.evidenceIds, MAX_EVIDENCE_IDS);
    hide FirstDistinct;
  }

  /** Two messages that say nothing but x, and two that say nothing but y. */
  function Says(sender: string, id: string, term: string): Message {
    Message(id, 0.0, sender, term, None, false, false)
  }

  function TwoEach(sender: string, x: string, y: string): map<string, Message> {
    map["1" := Says(sender, "1", x), "2" := Says(sender, "2", x), "3" := Says(sender, "3", y),
        "4" := Says(sender, "4", y)]
  }

  function Term(term: string, ids: seq<string>): Candidate {
    Candidate(JargonClaim(term, ""), ids, 1.0, 0.0, "", [])
  }

  lemma TermCandidacy(term: string, ids: seq<string>, sender: string, evidence: map<string, Message>, ctx: Context)
    requires ctx.Eligible(sender) && NoRepeats(ids) && |ids| == 2
    requires forall id :: id in ids ==> id in evidence && evidence[id] == Says(sender, id, term)
    ensures Candidacy(Term(term, ids), term, evidence, ctx)
  {
    var within := ctx.(evidence := evidence);
    ContainsSelf(term);
    forall id | id in ids ensures Supports(evidence[id], Term(term, ids).claim, within) {
      BacksSupports(evidence[id], Term(term, ids).claim, within);
    }
    hide Supports;
  }

  lemma MergedPair(x: string, y: string, host: Host)
    ensures MergeEvidence(Term(x, ["1", "2"]), Term(y, ["3", "4"]), host).evidenceIds == ["1", "2", "3", "4"]
  {
    assert ["1", "2"] + ["3", "4"] == ["1", "2", "3", "4"];
    DistinctId(["1", "2", "3", "4"]);
  }

  lemma KeptContains(x: string, y: string, sender: string, ctx: Context)
    requires ctx.Eligible(sender) && AlwaysSpelled(x, y, ctx)
    ensures Contains(y, x)
  {
    var evidence := TwoEach(sender, x, y);
    var a, b := Term(x, ["1", "2"]), Term(y, ["3", "4"]);
    TermCandidacy(x, ["1", "2"], sender, evidence, ctx);
    TermCandidacy(y, ["3", "4"], sender, evidence, ctx);
    hide Candidacy, Contains;
    assert Spelled(MergeEvidence(a, b, ctx.host), evidence);
    MergedPair(x, y, ctx.host);
    MergedCites(a, b, ctx.host);
    assert "3" in MergeEvidence(a, b, ctx.host).evidenceIds;
  }

  /** Whenever anybody's messages may be cited at all: merging a candidate for y into one for x leaves x in every cited
      message, for all evidence, if and only if y contains x. */
  lemma MergeSpelled(x: string, y: string, sender: string, ctx: Context)
    requires ctx.Eligible(sender)
    ensures AlwaysSpelled(x, y, ctx) <==> Contains(y, x)
  {
    hide AlwaysSpelled, Contains;
    if Contains(y, x) {
      ContainedKeeps(x, y, ctx);
    }
    if AlwaysSpelled(x, y, ctx) {
      KeptContains(x, y, sender, ctx);
    }
  }

  // ----- a reply for which it is not

  function Lower(s: string): (r: string)
    ensures |r| == |s|
  {
    seq(|s|, k requires 0 <= k < |s| => if 'A' <= s[k] <= 'Z' then ((s[k] as int) + 32) as char else s[k])
  }

  function AsItIs(s: string): string {
    s
  }

  function Nothing(kind: Kind, identity: seq<string>): string {
    ""
  }

  const FOLDED: Context :=
    Context(
      map["1" := Says("ann", "1", "AB"), "2" := Says("bob", "2", "ab")], None, {}, false, false, false, [],
      Host(Lower, Nothing), Rules(AsItIs, _ => false, (_, _) => false))

  function TermItem(term: string, id: string): RawItem {
    RawItem(map["content" := term, "meaning" := "a term"], map["confidence" := 1.0], Some([Some(id)]))
  }

  lemma FoldsAlike()
    ensures Lower("AB") == Lower("ab")
  {
  }

  lemma TermKnown(id: string)
    requires id in ["1", "2"]
    ensures EvidenceIds(Some([Some(id)]), FOLDED.evidence) == [id]
  {
    var raw := [Some(id)];
    assert First(raw, MAX_EVIDENCE_IDS) == raw && raw[..0] == [];
    assert Strip(id) == id;
    assert KnownIds(raw[..0], FOLDED.evidence) == [];
  }

  lemma TermBacked(term: string, id: string)
    requires (term, id) in [("AB", "1"), ("ab", "2")]
    ensures Backing([id], JargonClaim(term, "a term"), FOLDED) == [id]
  {
    ContainsSelf(term);
    hide Contains;
    assert Backing([], JargonClaim(term, "a term"), FOLDED) == [] && [id][..0] == [];
  }

  lemma TermClaimed(term: string, id: string)
    requires |term| == 2
    ensures ClaimOf(TermItem(term, id), Jargon, FOLDED) == Some(JargonClaim(term, "a term"))
    ensures Score(TermItem(term, id), "confidence", 0.5) == Some(1.0)
            && Importance(TermItem(term, id), Jargon) == Some(0.0)
  {
  }

  lemma TermAccepted(term: string, id: string)
    requires (term, id) in [("AB", "1"), ("ab", "2")]
    ensures Accept(Some(TermItem(term, id)), Jargon, FOLDED) ==
            Some(Candidate(JargonClaim(term, "a term"), [id], 1.0, 0.0, "", []))
  {
    TermKnown(id);
    TermBacked(term, id);
    TermClaimed(term, id);
    hide EvidenceIds, Backing, ClaimOf, Score, Importance;
  }

  lemma BothAccepted()
    ensures AcceptAll([Some(TermItem("AB", "1")), Some(TermItem("ab", "2"))], Jargon, FOLDED) ==
            [Candidate(JargonClaim("AB", "a term"), ["1"], 1.0, 0.0, "", []),
             Candidate(JargonClaim("ab", "a term"), ["2"], 1.0, 0.0, "", [])]
  {
    hide Accept;
    TermAccepted("AB", "1");
    TermAccepted("ab", "2");
    var items := [Some(TermItem("AB", "1")), Some(TermItem("ab", "2"))];
    assert items[..1] == [Some(TermItem("AB", "1"))] && items[..1][..0] == [];
    assert AcceptAll([], Jargon, FOLDED) == [];
    assert AcceptAll(items[..1], Jargon, FOLDED) == [Candidate(JargonClaim("AB", "a term"), ["1"], 1.0, 0.0, "", [])];
  }

  lemma PairMerges(a: Candidate, b: Candidate, host: Host)
    requires Key(a.claim, host) == Key(b.claim, host)
    ensures Dedup([a, b], host) == [MergeEvidence(WithMetadata(a, host), WithMetadata(b, host), host)]
  {
    hide Key, MergeEvidence, WithMetadata;
    NothingMerged(host);
    MetadataClaim(a, host);
    MetadataClaim(b, host);
    assert [a, b][..1] == [a] && [a][..0] == [];
    assert Dedup([a], host) == [WithMetadata(a, host)];
    var key := Key(b.claim, host);
    assert Keys([WithMetadata(a, host)], host)[0] == key && key in Keys([WithMetadata(a, host)], host);
  }

  lemma PairCites(a: Candidate, b: Candidate, host: Host)
    requires a.evidenceIds == ["1"] && b.evidenceIds == ["2"]
    ensures var m := MergeEvidence(WithMetadata(a, host), WithMetadata(b, host), host);
            m.claim == a.claim && m.evidenceIds == ["1", "2"]
  {
    hide CleanProvenance, Identity;
    assert ["1"] + ["2"] == ["1", "2"];
    DistinctId(["1", "2"]);
  }

  /** Two messages spell one term differently, and the one candidate read cites both: the second message does not have
      the term as the candidate spells it. */
  lemma SpellingLost(reply: Reply)
    requires reply.jargons == [Some(TermItem("AB", "1")), Some(TermItem("ab", "2"))]
    ensures var jargons := Parse(reply, FOLDED).jargons;
            |jargons| == 1 && jargons[0].claim == JargonClaim("AB", "a term") && jargons[0].evidenceIds == ["1", "2"]
            && !Contains(FOLDED.evidence["2"].content, "AB") && !Spelled(jargons[0], FOLDED.evidence)
  {
    hide AcceptAll, Contains, Lower, Dedup, MergeEvidence;
    BothAccepted();
    FoldsAlike();
    var first := Candidate(JargonClaim("AB", "a term"), ["1"], 1.0, 0.0, "", []);
    var second := Candidate(JargonClaim("ab", "a term"), ["2"], 1.0, 0.0, "", []);
    PairMerges(first, second, FOLDED.host);
    PairCites(first, second, FOLDED.host);
    NotWithin();
  }

  lemma NotWithin()
    ensures !Contains("ab", "AB")
  {
    forall k | 0 <= k <= |"ab"| ensures !OccursAt("ab", "AB", k) {
      assert k == 0 ==> "ab"[k..k + 2][0] != "AB"[0];
    }
  }
}
