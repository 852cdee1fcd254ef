/**
 What fits one model prompt, and greedy cutting of a run of candidates into stretches that fit.

 A batch is rendered as one JSON object with a list per kind, so its length, and the evidence it refers
 to, depend only on its candidates read off kind by kind: the *run* of the batch.
 */
module Greedy {
  import opened Candidates
  import opened Prelude
  import opened Seqs

  const MAX_CANDIDATE_CHARS: nat := 64_000
  const MAX_DYNAMIC_CHARS: nat := 120_000
  const MAX_PROMPT_EVIDENCE_IDS: nat := 2

  const KINDS: seq<Kind> := [Expression, Behavior, Jargon, Memory, Profile]

  /** Length of {"expressions":[],"behaviors":[],"jargons":[],"memories":[],"profiles":[]}. */
  const FRAME_CHARS: nat := 74

  /** The length of a rendered candidate and of a rendered evidence entry, and the evidence there is. */
  datatype Budget = Budget(
    candidateChars: Candidate -> nat,
    entryChars: (string, Message) -> nat,
    evidence: map<string, Message>)

  function Limit(kind: Kind): nat {
    match kind
    case Expression => 30
    case Behavior => 20
    case Jargon => 30
    case Memory => 25
    case Profile => 30
  }

  // ----- what a run costs

  /** A candidate as a prompt shows it: two evidence ids, no metadata. */
  function PromptForm(c: Candidate): Candidate {
    c.(evidenceIds := First(c.evidenceIds, MAX_PROMPT_EVIDENCE_IDS), candidateId := "", provenance := [])
  }

  function Count(run: seq<Candidate>, kind: Kind): nat {
    if run == [] then 0
    else Count(run[..|run| - 1], kind) + (if run[|run| - 1].claim.Kind() == kind then 1 else 0)
  }

  function Commas(n: nat): nat {
    if n == 0 then 0 else n - 1
  }

  function Rendered(run: seq<Candidate>, b: Budget): nat {
    if run == [] then 0 else Rendered(run[..|run| - 1], b) + b.candidateChars(PromptForm(run[|run| - 1]))
  }

  function CandidateChars(run: seq<Candidate>, b: Budget): nat {
    FRAME_CHARS + Rendered(run, b)
    + Commas(Count(run, Expression)) + Commas(Count(run, Behavior)) + Commas(Count(run, Jargon))
    + Commas(Count(run, Memory)) + Commas(Count(run, Profile))
  }

  function References(run: seq<Candidate>): seq<string> {
    if run == [] then []
    else References(run[..|run| - 1]) + First(run[|run| - 1].evidenceIds, MAX_PROMPT_EVIDENCE_IDS)
  }

  /** Entries with a comma each, for the ids there is evidence for. */
  function Entries(ids: seq<string>, b: Budget): nat {
    if ids == [] then 0
    else
      var id := ids[|ids| - 1];
      Entries(ids[..|ids| - 1], b) + (if id in b.evidence then b.entryChars(id, b.evidence[id]) + 1 else 0)
  }

  /** Shared evidence is rendered once. */
  function EvidenceChars(run: seq<Candidate>, b: Budget): nat {
    2 + Commas(Entries(Distinct(References(run)), b))
  }

  predicate FitsPrompt(run: seq<Candidate>, b: Budget) {
    && CandidateChars(run, b) <= MAX_CANDIDATE_CHARS
    && CandidateChars(run, b) + EvidenceChars(run, b) <= MAX_DYNAMIC_CHARS
  }

  predicate WithinLimits(run: seq<Candidate>) {
    forall kind: Kind :: Count(run, kind) <= Limit(kind)
  }

  predicate Admissible(run: seq<Candidate>, b: Budget) {
    WithinLimits(run) && FitsPrompt(run, b)
  }

  // ----- part of an admissible run is admissible

  lemma {:induction false} CountConcat(a: seq<Candidate>, c: seq<Candidate>, kind: Kind)
    ensures Count(a + c, kind) == Count(a, kind) + Count(c, kind)
    decreases |c|
  {
    if c == [] {
      assert a + c == a;
    } else {
      assert (a + c)[..|a + c| - 1] == a + c[..|c| - 1];
      CountConcat(a, c[..|c| - 1], kind);
    }
  }

  lemma {:induction false} RenderedConcat(a: seq<Candidate>, c: seq<Candidate>, b: Budget)
    ensures Rendered(a + c, b) == Rendered(a, b) + Rendered(c, b)
    decreases |c|
  {
    if c == [] {
      assert a + c == a;
    } else {
      assert (a + c)[..|a + c| - 1] == a + c[..|c| - 1];
      RenderedConcat(a, c[..|c| - 1], b);
    }
  }

  lemma {:induction false} ReferencesConcat(a: seq<Candidate>, c: seq<Candidate>)
    ensures References(a + c) == References(a) + References(c)
    decreases |c|
  {
    if c == [] {
      assert a + c == a;
    } else {
      assert (a + c)[..|a + c| - 1] == a + c[..|c| - 1];
      ReferencesConcat(a, c[..|c| - 1]);
    }
  }

  lemma {:induction false} EntriesConcat(x: seq<string>, y: seq<string>, b: Budget)
    ensures Entries(x + y, b) == Entries(x, b) + Entries(y, b)
    decreases |y|
  {
    if y == [] {
      assert x + y == x;
    } else {
      assert (x + y)[..|x + y| - 1] == x + y[..|y| - 1];
      EntriesConcat(x, y[..|y| - 1], b);
    }
  }

  /** Fewer distinct ids, fewer characters. */
  lemma {:induction false} EntriesMonotone(x: seq<string>, y: seq<string>, b: Budget)
    requires NoRepeats(x) && forall id :: id in x ==> id in y
    ensures Entries(x, b) <= Entries(y, b)
    decreases |x|
  {
    if x != [] {
      var id, x' := x[|x| - 1], x[..|x| - 1];
      assert id in y;
      var i :| 0 <= i < |y| && y[i] == id;
      var y' := y[..i] + y[i + 1..];
      forall v | v in x' ensures v in y' {
        assert v in x && v in y;
        var j :| 0 <= j < |y| && y[j] == v;
        assert j < i || y[j] == y[i + 1..][j - i - 1];
      }
      EntriesMonotone(x', y', b);
      assert y == (y[..i] + [id]) + y[i + 1..];
      EntriesConcat(y[..i] + [id], y[i + 1..], b);
      EntriesConcat(y[..i], [id], b);
      EntriesConcat(y[..i], y[i + 1..], b);
      assert [id][..0] == [];
    }
  }

  lemma EvidenceMonotone(a: seq<Candidate>, m: seq<Candidate>, z: seq<Candidate>, b: Budget)
    ensures EvidenceChars(m, b) <= EvidenceChars(a + m + z, b)
  {
    var all := a + m + z;
    ReferencesConcat(a + m, z);
    ReferencesConcat(a, m);
    DistinctMembers(References(m));
    forall id | id in Distinct(References(m)) ensures id in Distinct(References(all)) {
      DistinctHas(References(m), id);
      assert id in References(a) + References(m);
      DistinctHas(References(all), id);
    }
    EntriesMonotone(Distinct(References(m)), Distinct(References(all)), b);
  }

  /** Any stretch of an admissible run is admissible. */
  lemma StretchAdmissible(a: seq<Candidate>, m: seq<Candidate>, z: seq<Candidate>, b: Budget)
    requires Admissible(a + m + z, b)
    ensures Admissible(m, b)
  {
    hide EvidenceChars, Count, Rendered;
    forall kind: Kind ensures Count(m, kind) <= Count(a + m + z, kind) {
      CountConcat(a + m, z, kind);
      CountConcat(a, m, kind);
    }
    RenderedConcat(a + m, z, b);
    RenderedConcat(a, m, b);
    EvidenceMonotone(a, m, z, b);
  }

  // ----- greedy runs, and that no other cut needs fewer

  /** The runs make up the items, each is admissible, and none could have taken the next item. */
  ghost predicate IsGreedy(runs: seq<seq<Candidate>>, items: seq<Candidate>, b: Budget) {
    && Flatten(runs) == items
    && (forall k :: 0 <= k < |runs| ==> runs[k] != [] && Admissible(runs[k], b))
    && (forall k :: 0 <= k < |runs| - 1 ==> !Admissible(runs[k] + [runs[k + 1][0]], b))
  }

  lemma GreedyTail(runs: seq<seq<Candidate>>, items: seq<Candidate>, b: Budget)
    requires runs != [] && IsGreedy(runs, items, b)
    ensures |runs[0]| <= |items| && items == runs[0] + items[|runs[0]|..] && IsGreedy(runs[1..], items[|runs[0]|..], b)
  {
    hide Admissible;
    FlattenHead(runs);
    var rest := runs[1..];
    forall k | 0 <= k < |rest| - 1 ensures !Admissible(rest[k] + [rest[k + 1][0]], b) {
      assert rest[k] == runs[k + 1] && rest[k + 1] == runs[k + 2];
    }
  }

  lemma GreedyNext(g: seq<seq<Candidate>>, items: seq<Candidate>, b: Budget)
    requires g != [] && IsGreedy(g, items, b) && |g[0]| < |items|
    ensures !Admissible(g[0] + [items[|g[0]|]], b) && items[..|g[0]| + 1] == g[0] + [items[|g[0]|]]
  {
    hide Admissible;
    GreedyTail(g, items, b);
    var rest := items[|g[0]|..];
    assert g[1..] != [];
    GreedyTail(g[1..], rest, b);
    assert rest[0] == g[1][0];
  }

  /** An admissible run that starts no later ends no later than the first greedy run. */
  lemma GreedyReaches(g: seq<seq<Candidate>>, items: seq<Candidate>, lead: seq<Candidate>, r: seq<Candidate>, b: Budget)
    requires g != [] && IsGreedy(g, items, b) && Admissible(r, b) && r <= lead + items
    ensures |r| <= |lead| + |g[0]|
  {
    hide Admissible, IsGreedy;
    if |lead| + |g[0]| < |r| {
      GreedyNext(g, items, b);
      var m := items[..|g[0]| + 1];
      var n := |lead| + |m|;
      assert r[..n] == lead + m by {
        assert r[..n] == (lead + items)[..n];
      }
      assert r == lead + m + r[n..];
      StretchAdmissible(lead, m, r[n..], b);
    }
  }

  /** Greedy cutting needs no more batches than any other cut of the same items into admissible runs: `lead` is
      what the other cut still has to place before `items`. */
  lemma {:induction false} GreedyAhead(g: seq<seq<Candidate>>, items: seq<Candidate>,
                                       lead: seq<Candidate>, other: seq<seq<Candidate>>, b: Budget)
    requires IsGreedy(g, items, b)
    requires Flatten(other) == lead + items && forall k :: 0 <= k < |other| ==> Admissible(other[k], b)
    ensures |g| <= |other|
    decreases |other|
  {
    hide Admissible, IsGreedy;
    if g != [] {
      GreedyTail(g, items, b);
      GreedyStarts(g, items, b);
      assert other != [];
      FlattenHead(other);
      var r, rest := other[0], items[|g[0]|..];
      GreedyReaches(g, items, lead, r, b);
      var lead' := (lead + g[0])[|r|..];
      assert lead + items == (lead + g[0]) + rest;
      assert Flatten(other[1..]) == (lead + items)[|r|..] == lead' + rest;
      GreedyAhead(g[1..], rest, lead', other[1..], b);
    }
  }

  lemma GreedyFlat(g: seq<seq<Candidate>>, items: seq<Candidate>, b: Budget)
    requires IsGreedy(g, items, b)
    ensures Flatten(g) == items && forall k :: 0 <= k < |g| ==> Admissible(g[k], b)
  {
  }

  lemma GreedyStarts(g: seq<seq<Candidate>>, items: seq<Candidate>, b: Budget)
    requires g != [] && IsGreedy(g, items, b)
    ensures g[0] != [] && g[0] <= items
  {
    GreedyTail(g, items, b);
  }

  /** No cut into admissible batches, in order, has fewer batches than the greedy one. */
  lemma GreedyIsMinimal(g: seq<seq<Candidate>>, other: seq<seq<Candidate>>, items: seq<Candidate>, b: Budget)
    requires IsGreedy(g, items, b)
    requires Flatten(other) == items && forall k :: 0 <= k < |other| ==> Admissible(other[k], b)
    ensures |g| <= |other|
  {
    assert [] + items == items;
    GreedyAhead(g, items, [], other, b);
  }

  /** If an item alone exceeds the budget, there is no cut into admissible batches at all. */
  lemma OversizedHasNoCut(other: seq<seq<Candidate>>, items: seq<Candidate>, k: nat, b: Budget)
    requires Flatten(other) == items && k < |items| && !Admissible([items[k]], b)
    ensures exists j :: 0 <= j < |other| && !Admissible(other[j], b)
  {
    hide Admissible, Flatten;
    var c := items[k];
    FlattenHas(other, c);
    var j :| 0 <= j < |other| && c in other[j];
    var i :| 0 <= i < |other[j]| && other[j][i] == c;
    assert other[j] == other[j][..i] + [c] + other[j][i + 1..];
    if Admissible(other[j], b) {
      StretchAdmissible(other[j][..i], [c], other[j][i + 1..], b);
    }
  }

  lemma {:induction false} FlattenHas<T>(ss: seq<seq<T>>, x: T)
    requires x in Flatten(ss)
    ensures exists j :: 0 <= j < |ss| && x in ss[j]
  {
    if ss != [] {
      var init := ss[..|ss| - 1];
      if x in Flatten(init) {
        FlattenHas(init, x);
        var j :| 0 <= j < |init| && x in init[j];
        assert x in ss[j];
      } else {
        assert x in ss[|ss| - 1];
      }
    }
  }

  /** Two greedy cuts of the same items are the same. */
  lemma {:induction false} GreedyIsUnique(g: seq<seq<Candidate>>, h: seq<seq<Candidate>>, items: seq<Candidate>,
                                          b: Budget)
    requires IsGreedy(g, items, b) && IsGreedy(h, items, b)
    ensures g == h
    decreases |g|
  {
    hide Admissible;
    GreedyAheadOf(g, h, items, b);
    GreedyAheadOf(h, g, items, b);
    if g != [] {
      GreedyTail(g, items, b);
      GreedyTail(h, items, b);
      FirstRunsAgree(g, h, items, b);
      GreedyIsUnique(g[1..], h[1..], items[|g[0]|..], b);
      assert g == [g[0]] + g[1..] && h == [h[0]] + h[1..];
    }
  }

  lemma GreedyAheadOf(g: seq<seq<Candidate>>, h: seq<seq<Candidate>>, items: seq<Candidate>, b: Budget)
    requires IsGreedy(g, items, b) && IsGreedy(h, items, b)
    ensures |g| <= |h|
  {
    GreedyIsMinimal(g, h, items, b);
  }

  lemma FirstRunsAgree(g: seq<seq<Candidate>>, h: seq<seq<Candidate>>, items: seq<Candidate>, b: Budget)
    requires g != [] && h != [] && IsGreedy(g, items, b) && IsGreedy(h, items, b)
    ensures g[0] == h[0]
  {
    hide IsGreedy;
    GreedyStarts(g, items, b);
    GreedyStarts(h, items, b);
    ReachesFirst(g, h, items, b);
    ReachesFirst(h, g, items, b);
  }

  lemma ReachesFirst(g: seq<seq<Candidate>>, h: seq<seq<Candidate>>, items: seq<Candidate>, b: Budget)
    requires g != [] && h != [] && IsGreedy(g, items, b) && IsGreedy(h, items, b)
    ensures |h[0]| <= |g[0]|
  {
    GreedyStarts(h, items, b);
    GreedyFlat(h, items, b);
    hide IsGreedy, Admissible, Flatten;
    assert [] + items == items;
    GreedyReaches(g, items, [], h[0], b);
  }

  /** The greedy cut as a function: `open` is the run being filled. */
  function CutFrom(open: seq<Candidate>, items: seq<Candidate>, b: Budget): (r: seq<seq<Candidate>>)
    ensures r != []
    decreases |items|
  {
    if items == [] then [open]
    else if Admissible(open + [items[0]], b) then CutFrom(open + [items[0]], items[1..], b)
    else [open] + CutFrom([items[0]], items[1..], b)
  }

  lemma {:induction false} CutIsGreedy(open: seq<Candidate>, items: seq<Candidate>, b: Budget)
    requires open != [] && Admissible(open, b) && forall c :: c in items ==> Admissible([c], b)
    ensures IsGreedy(CutFrom(open, items, b), open + items, b)
    ensures open <= CutFrom(open, items, b)[0]
    decreases |items|
  {
    hide Admissible;
    if items == [] {
      assert open + items == open && [open][..0] == [] && [] + open == open;
      assert Flatten([open]) == open;
    } else {
      var c, rest := items[0], items[1..];
      assert open + items == (open + [c]) + rest == open + ([c] + rest);
      if Admissible(open + [c], b) {
        CutIsGreedy(open + [c], rest, b);
      } else {
        var tail := CutFrom([c], rest, b);
        CutIsGreedy([c], rest, b);
        var runs := [open] + tail;
        FlattenHead(runs);
        assert runs[1..] == tail;
        assert tail[0][0] == c;
        forall k | 0 <= k < |runs| - 1 ensures !Admissible(runs[k] + [runs[k + 1][0]], b) {
          if k > 0 {
            assert runs[k] == tail[k - 1] && runs[k + 1] == tail[k];
          }
        }
      }
    }
  }
}
