/** The texts of a prompt, and that the budgets measure exactly them. */
module Rendering {
  import opened Candidates
  import opened Greedy
  import opened JsonGrammar
  import opened Partition
  import opened Prelude
  import opened Seqs

  /** How a candidate and a piece of evidence are written. */
  datatype Writer = Writer(candidate: Candidate -> string, entry: (string, Message) -> string)

  /** A JSON list or object of these cells. */
  function Enclosed(open: string, cells: seq<string>, close: string): string {
    open + (if cells == [] then "" else Joined(cells)) + close
  }

  /** What the prompt shows of a candidate: its claim, its scores and its first two evidence ids. */
  function Shown(c: Candidate): Candidate {
    Candidate(c.claim, if |c.evidenceIds| <= 2 then c.evidenceIds else c.evidenceIds[..2], c.confidence, c.importance,
              "", [])
  }

  function Cells(items: seq<Candidate>, w: Writer): (r: seq<string>)
    ensures |r| == |items| && forall k :: 0 <= k < |items| ==> r[k] == w.candidate(Shown(items[k]))
  {
    seq(|items|, k requires 0 <= k < |items| => w.candidate(Shown(items[k])))
  }

  /** The candidates of a batch as the prompt has them. */
  function BatchText(batch: HistoryCandidates, w: Writer): string {
    Enclosed("{\"expressions\":[", Cells(batch.expressions, w), "]")
    + Enclosed(",\"behaviors\":[", Cells(batch.behaviors, w), "]")
    + Enclosed(",\"jargons\":[", Cells(batch.jargons, w), "]")
    + Enclosed(",\"memories\":[", Cells(batch.memories, w), "]")
    + Enclosed(",\"profiles\":[", Cells(batch.profiles, w), "]}")
  }

  /** The id is one of the first two of a candidate, and there is evidence for it. */
  ghost predicate Referenced(id: string, batch: HistoryCandidates, evidence: map<string, Message>) {
    id in evidence && exists kind: Kind, k, j :: RefersAt(batch.Of(kind), k, j, id)
  }

  ghost predicate RefersAt(items: seq<Candidate>, k: int, j: int, id: string) {
    0 <= k < |items| && 0 <= j < |items[k].evidenceIds| && j < 2 && items[k].evidenceIds[j] == id
  }

  function EntryCells(ids: seq<string>, w: Writer, evidence: map<string, Message>): (r: seq<string>)
    requires forall id :: id in ids ==> id in evidence
    ensures |r| == |ids| && forall k :: 0 <= k < |ids| ==> r[k] == w.entry(ids[k], evidence[ids[k]])
  {
    seq(|ids|, k requires 0 <= k < |ids| && ids[k] in evidence => w.entry(ids[k], evidence[ids[k]]))
  }

  /** The evidence of a batch: an entry for each id it refers to, once, in any order. */
  ghost predicate IsEvidenceText(text: string, batch: HistoryCandidates, w: Writer, evidence: map<string, Message>) {
    exists ids: seq<string> :: ListsEvidence(ids, batch, evidence)
                               && text == Enclosed("{", EntryCells(ids, w, evidence), "}")
  }

  ghost predicate ListsEvidence(ids: seq<string>, batch: HistoryCandidates, evidence: map<string, Message>) {
    NoRepeats(ids) && forall id :: id in ids <==> Referenced(id, batch, evidence)
  }

  /** The budget that measures what the writer writes. */
  ghost predicate Measures(b: Budget, w: Writer) {
    && (forall c :: b.candidateChars(c) == |w.candidate(c)|)
    && (forall id, m :: b.entryChars(id, m) == |w.entry(id, m)|)
  }

  // ----- lengths

  function Lengths(cells: seq<string>): nat {
    if cells == [] then 0 else Lengths(cells[..|cells| - 1]) + |cells[|cells| - 1]|
  }

  lemma {:induction false} LengthsHead(cells: seq<string>)
    requires cells != []
    ensures Lengths(cells) == |cells[0]| + Lengths(cells[1..])
  {
    if |cells| > 1 {
      LengthsHead(cells[..|cells| - 1]);
      assert cells[..|cells| - 1][1..] == cells[1..][..|cells| - 2];
    }
  }

  lemma {:induction false} JoinedLength(cells: seq<string>)
    requires cells != []
    ensures |Joined(cells)| == Lengths(cells) + |cells| - 1
    decreases |cells|
  {
    LengthsHead(cells);
    if |cells| > 1 {
      JoinedLength(cells[1..]);
    }
  }

  lemma EnclosedLength(open: string, cells: seq<string>, close: string)
    ensures |Enclosed(open, cells, close)| == |open| + Lengths(cells) + Commas(|cells|) + |close|
  {
    if cells != [] {
      JoinedLength(cells);
    }
  }

  lemma {:induction false} RenderedCells(items: seq<Candidate>, b: Budget, w: Writer)
    requires Measures(b, w)
    ensures Rendered(items, b) == Lengths(Cells(items, w))
  {
    if items != [] {
      var init := items[..|items| - 1];
      RenderedCells(init, b, w);
      assert Cells(items, w)[..|init|] == Cells(init, w);
      assert PromptForm(items[|init|]) == Shown(items[|init|]);
    }
  }

  lemma RenderedRun(batch: HistoryCandidates, b: Budget)
    ensures Rendered(Run(batch), b) ==
            Rendered(batch.expressions, b) + Rendered(batch.behaviors, b) + Rendered(batch.jargons, b)
            + Rendered(batch.memories, b) + Rendered(batch.profiles, b)
  {
    hide Rendered;
    RenderedConcat(batch.expressions + batch.behaviors + batch.jargons + batch.memories, batch.profiles, b);
    RenderedConcat(batch.expressions + batch.behaviors + batch.jargons, batch.memories, b);
    RenderedConcat(batch.expressions + batch.behaviors, batch.jargons, b);
    RenderedConcat(batch.expressions, batch.behaviors, b);
  }

  /** The length of one of the five lists, its frame being `frame` characters. */
  lemma ListLength(items: seq<Candidate>, b: Budget, w: Writer, open: string, close: string, frame: nat)
    requires Measures(b, w) && |open| + |close| == frame
    ensures |Enclosed(open, Cells(items, w), close)| == frame + Rendered(items, b) + Commas(|items|)
  {
    RenderedCells(items, b, w);
    EnclosedLength(open, Cells(items, w), close);
  }

  /** The candidates' budget is the length of their text. */
  lemma BatchLength(batch: HistoryCandidates, b: Budget, w: Writer)
    requires batch.Sorted() && Measures(b, w)
    ensures CandidateChars(Run(batch), b) == |BatchText(batch, w)|
  {
    hide Rendered, Run, Measures, Enclosed, Count;
    RenderedRun(batch, b);
    BatchCounts(batch);
    ListLength(batch.expressions, b, w, "{\"expressions\":[", "]", 17);
    ListLength(batch.behaviors, b, w, ",\"behaviors\":[", "]", 15);
    ListLength(batch.jargons, b, w, ",\"jargons\":[", "]", 13);
    ListLength(batch.memories, b, w, ",\"memories\":[", "]", 14);
    ListLength(batch.profiles, b, w, ",\"profiles\":[", "]}", 15);
    hide Cells, batch.Sorted;
  }

  lemma BatchCounts(batch: HistoryCandidates)
    requires batch.Sorted()
    ensures Count(Run(batch), Expression) == |batch.expressions| && Count(Run(batch), Behavior) == |batch.behaviors|
    ensures Count(Run(batch), Jargon) == |batch.jargons| && Count(Run(batch), Memory) == |batch.memories|
    ensures Count(Run(batch), Profile) == |batch.profiles|
  {
    hide Count, Run;
    CollectionCount(batch, Expression);
    CollectionCount(batch, Behavior);
    CollectionCount(batch, Jargon);
    CollectionCount(batch, Memory);
    CollectionCount(batch, Profile);
  }

  // ----- evidence

  lemma {:induction false} ReferencesHas(items: seq<Candidate>, id: string)
    ensures id in References(items) <==> exists k, j :: RefersAt(items, k, j, id)
  {
    if items != [] {
      var init, c, n := items[..|items| - 1], items[|items| - 1], |items| - 1;
      ReferencesHas(init, id);
      if k, j :| RefersAt(init, k, j, id) {
        assert RefersAt(items, k, j, id);
      }
      if id in First(c.evidenceIds, MAX_PROMPT_EVIDENCE_IDS) {
        var j :| 0 <= j < |First(c.evidenceIds, 2)| && First(c.evidenceIds, 2)[j] == id;
        assert RefersAt(items, n, j, id);
      }
      if k, j :| RefersAt(items, k, j, id) {
        if k < n {
          assert RefersAt(init, k, j, id);
        } else {
          assert First(c.evidenceIds, 2)[j] == id;
        }
      }
    }
  }

  lemma ReferencesRun(batch: HistoryCandidates, id: string)
    ensures id in References(Run(batch)) <==> exists kind: Kind :: id in References(batch.Of(kind))
  {
    hide References;
    ReferencesConcat(batch.expressions + batch.behaviors + batch.jargons + batch.memories, batch.profiles);
    ReferencesConcat(batch.expressions + batch.behaviors + batch.jargons, batch.memories);
    ReferencesConcat(batch.expressions + batch.behaviors, batch.jargons);
    ReferencesConcat(batch.expressions, batch.behaviors);
    if id in References(Run(batch)) {
      assert id in References(batch.Of(Expression)) || id in References(batch.Of(Behavior))
             || id in References(batch.Of(Jargon)) || id in References(batch.Of(Memory))
             || id in References(batch.Of(Profile));
    }
    if kind: Kind :| id in References(batch.Of(kind)) {
      match kind
      case Expression =>
      case Behavior =>
      case Jargon =>
      case Memory =>
      case Profile =>
    }
  }

  lemma ReferencedIs(id: string, batch: HistoryCandidates, evidence: map<string, Message>)
    ensures Referenced(id, batch, evidence) <==> id in evidence && id in Distinct(References(Run(batch)))
  {
    DistinctHas(References(Run(batch)), id);
    ReferencesRun(batch, id);
    hide Run, References, RefersAt;
    forall kind: Kind ensures id in References(batch.Of(kind)) <==> exists k, j :: RefersAt(batch.Of(kind), k, j, id) {
      ReferencesHas(batch.Of(kind), id);
    }
  }

  /** A comma for each entry. */
  lemma {:induction false} EntriesLength(ids: seq<string>, b: Budget, w: Writer)
    requires Measures(b, w) && forall id :: id in ids ==> id in b.evidence
    ensures Entries(ids, b) == Lengths(EntryCells(ids, w, b.evidence)) + |ids|
  {
    if ids != [] {
      var init := ids[..|ids| - 1];
      assert forall id :: id in init ==> id in ids;
      EntriesLength(init, b, w);
      assert EntryCells(ids, w, b.evidence)[..|init|] == EntryCells(init, w, b.evidence);
    }
  }

  function Has(b: Budget): string -> bool {
    (id: string) => id in b.evidence
  }

  /** Ids there is no evidence for cost nothing. */
  lemma {:induction false} EntriesFiltered(ids: seq<string>, b: Budget)
    ensures Entries(Filter(Has(b), ids), b) == Entries(ids, b)
  {
    if ids != [] {
      EntriesFiltered(ids[..|ids| - 1], b);
    }
  }

  lemma {:induction false} FilterNoRepeats(keep: string -> bool, ids: seq<string>)
    requires NoRepeats(ids)
    ensures NoRepeats(Filter(keep, ids))
  {
    if ids != [] {
      FilterNoRepeats(keep, ids[..|ids| - 1]);
      FilterMembers(keep, ids[..|ids| - 1]);
    }
  }

  lemma EntriesKnown(ids: seq<string>, known: seq<string>, b: Budget)
    requires NoRepeats(ids) && NoRepeats(known) && forall id :: id in known <==> id in ids && id in b.evidence
    ensures Entries(ids, b) == Entries(known, b)
  {
    hide Entries, Filter;
    var kept := Filter(Has(b), ids);
    FilterMembers(Has(b), ids);
    FilterNoRepeats(Has(b), ids);
    EntriesFiltered(ids, b);
    EntriesMonotone(known, kept, b);
    EntriesMonotone(kept, known, b);
  }

  /** The evidence's budget is the length of its text. */
  lemma EvidenceLength(batch: HistoryCandidates, b: Budget, w: Writer, text: string)
    requires Measures(b, w) && IsEvidenceText(text, batch, w, b.evidence)
    ensures EvidenceChars(Run(batch), b) == |text|
  {
    hide Run, References, Entries, Enclosed, RefersAt;
    var ids: seq<string> :| ListsEvidence(ids, batch, b.evidence)
                            && text == Enclosed("{", EntryCells(ids, w, b.evidence), "}");
    hide Referenced;
    var all := Distinct(References(Run(batch)));
    DistinctMembers(References(Run(batch)));
    forall id ensures id in ids <==> id in all && id in b.evidence {
      ReferencedIs(id, batch, b.evidence);
    }
    EntriesKnown(all, ids, b);
    EntriesLength(ids, b, w);
    EnclosedLength("{", EntryCells(ids, w, b.evidence), "}");
    assert ids == [] ==> EntryCells(ids, w, b.evidence) == [];
  }

  /** A batch fits a prompt exactly when it has at most 30 expressions, 20 behaviours, 30 terms, 25 memories and 30
      profile facts, its text at most 64,000 characters, and its text and that of its evidence at most 120,000. */
  lemma FitsIs(batch: HistoryCandidates, b: Budget, w: Writer, evidenceText: string)
    requires batch.Sorted() && Measures(b, w) && IsEvidenceText(evidenceText, batch, w, b.evidence)
    ensures Admissible(Run(batch), b) <==>
            && |batch.expressions| <= 30 && |batch.behaviors| <= 20 && |batch.jargons| <= 30
            && |batch.memories| <= 25 && |batch.profiles| <= 30
            && |BatchText(batch, w)| <= 64_000 && |BatchText(batch, w)| + |evidenceText| <= 120_000
  {
    hide WithinLimits, CandidateChars, EvidenceChars, BatchText, Enclosed, IsEvidenceText, Run, Measures, Count;
    BatchLength(batch, b, w);
    EvidenceLength(batch, b, w, evidenceText);
    BatchCounts(batch);
    hide batch.Sorted;
    AllKinds(Run(batch));
  }

  lemma AllKinds(run: seq<Candidate>)
    ensures WithinLimits(run) <==>
            && Count(run, Expression) <= 30 && Count(run, Behavior) <= 20 && Count(run, Jargon) <= 30
            && Count(run, Memory) <= 25 && Count(run, Profile) <= 30
  {
    hide Count;
  }
}
