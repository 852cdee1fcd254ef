/**
 A whole learning run over a message stream: its windows, each extracted by asking the model, under any schedule.
 */
module Learning {
  import opened Candidates
  import opened Continuation
  import opened Grounding
  import opened NaturalWindow
  import opened Paging
  import opened Prelude
  import opened Scheduler
  import opened Windows

  const MAX_WINDOW_CALLS := 2 * MAX_WINDOW_EXTRACTION_PAGES

  /** The plan learns the stream `s`: its windows are the stream's, and extraction is what the job's model answers. */
  ghost predicate Learns(plan: Plan, s: seq<Message>, o: Limits, job: Job) {
    && Accepted(o) && InStream(s, StreamCuts(s, o)) && plan.windows == Build(s, StreamCuts(s, o))
    && forall w, f :: ExtractNatural(w, f, job) == Some(plan.extract(w, f))
  }

  /** At any concurrency the limits allow, and without checkpoints, learning a stream is a valid plan. */
  lemma LearningIsValid(plan: Plan, s: seq<Message>, o: Limits, job: Job)
    requires Learns(plan, s, o, job) && 1 <= plan.concurrency <= MAX_EXTRACTION_CONCURRENCY && plan.resume == map[]
    ensures plan.Valid()
  {
    hide ExtractNatural, Build, StreamCuts;
    forall k | 0 <= k < |plan.windows| ensures plan.Counts(k) && plan.windows[k].id == Natural(k + 1) {
      NaturalSucceeds(plan.windows[k], plan.Following(k), job);
      assert ExtractNatural(plan.windows[k], plan.Following(k), job) == Some(plan.Outcome(k));
      WindowAt(s, o, k);
    }
  }

  // ----- evidence

  lemma DistinctConsistent(s: seq<Message>, part: seq<Message>)
    requires DistinctIds(s) && forall m :: m in part ==> m in s
    ensures Consistent(part)
  {
  }

  /** What the evidence holds after retaining the cited messages. */
  lemma {:induction false} RetainIs(c: HistoryCandidates, messages: seq<Message>, evidence: map<string, Message>,
                                    id: string)
    ensures var r := Retain(c, messages, evidence);
            && (id in r <==> id in evidence || (CitedBy(id, c) && id in Ids(messages)))
            && (id in r ==> (id in evidence && r[id] == evidence[id]) || (r[id] in messages && r[id].messageId == id))
  {
    hide CitedBy;
    if messages != [] {
      var init, m := messages[..|messages| - 1], messages[|messages| - 1];
      RetainIs(c, init, evidence, id);
      assert messages == init + [m];
      IdsSnoc(init, m);
    }
  }

  /** The evidence is of the stream, and every extracted candidate is grounded in it. */
  ghost predicate Backed(r: Results, s: seq<Message>, job: Job) {
    && (forall id :: id in r.evidence ==> r.evidence[id] in s && r.evidence[id].messageId == id)
    && EachGrounded(r.extracted, Rulebook(r.evidence, job))
  }

  lemma CitedSame(id: string, c: HistoryCandidates)
    requires CitedAnywhere(id, c)
    ensures CitedBy(id, c)
  {
    var kind: Kind, x :| x in c.Of(kind) && id in x.evidenceIds;
    assert CitedIn(id, c.Of(kind));
  }

  lemma ApplyBacked(r: Results, c: Checkpoint, messages: seq<Message>, s: seq<Message>, job: Job)
    requires Backed(r, s, job) && DistinctIds(s) && forall m :: m in messages ==> m in s
    requires WellGrounded(c.candidates, Rulebook(ById(messages), job))
    ensures Backed(Apply(r, c, messages), s, job)
  {
    hide WellGrounded, Retain, CitedBy, CitedAnywhere, ById, DistinctIds, Ids;
    var evidence := Retain(c.candidates, messages, r.evidence);
    DistinctConsistent(s, s);
    forall id | id in evidence ensures evidence[id] in s && evidence[id].messageId == id {
      RetainIs(c.candidates, messages, r.evidence, id);
    }
    forall id | id in r.evidence ensures id in evidence && evidence[id] == r.evidence[id] {
      RetainIs(c.candidates, messages, r.evidence, id);
    }
    forall x | x in r.extracted ensures WellGrounded(x, Rulebook(evidence, job)) {
      WiderWellGrounded(x, Rulebook(r.evidence, job), Rulebook(evidence, job));
    }
    forall id | id in ById(messages) && CitedAnywhere(id, c.candidates)
      ensures id in evidence && evidence[id] == ById(messages)[id]
    {
      CitedSame(id, c.candidates);
      RetainIs(c.candidates, messages, r.evidence, id);
      ByIdFrom(messages, id);
    }
    CitedWellGrounded(c.candidates, Rulebook(ById(messages), job), Rulebook(evidence, job));
  }

  lemma ShownFrom(plan: Plan, s: seq<Message>, o: Limits, job: Job, k: nat)
    requires Learns(plan, s, o, job) && k < |plan.windows|
    ensures forall m :: m in plan.Shown(k) ==> m in s
    ensures plan.Shown(k) == ShownWith(plan.windows[k], plan.Following(k))
  {
    hide Build, StreamCuts, ExtractNatural;
    WindowAt(s, o, k);
    if k + 1 < |plan.windows| {
      WindowAt(s, o, k + 1);
    }
  }

  lemma {:induction false} SequentialBacked(plan: Plan, s: seq<Message>, o: Limits, job: Job, k: nat)
    requires Learns(plan, s, o, job) && DistinctIds(s) && k <= |plan.windows|
    ensures Backed(Sequential(plan, k), s, job)
    ensures Sequential(plan, k).calls <= MAX_WINDOW_CALLS * SelectedCount(plan, k)
  {
    hide Build, StreamCuts, ExtractNatural, Backed, DistinctIds, Apply, ById, WellGrounded;
    if k == 0 {
      NothingBacked(s, job);
    } else {
      SequentialBacked(plan, s, o, job, k - 1);
      if plan.Selected(k - 1) {
        var window, following := plan.windows[k - 1], plan.Following(k - 1);
        ShownFrom(plan, s, o, job, k - 1);
        DistinctConsistent(s, plan.Shown(k - 1));
        NaturalSucceeds(window, following, job);
        NaturalGrounded(window, following, job);
        assert ExtractNatural(window, following, job) == Some(plan.Outcome(k - 1));
        ApplyBacked(Sequential(plan, k - 1), plan.Outcome(k - 1).checkpoint, plan.Shown(k - 1), s, job);
        ApplyCalls(Sequential(plan, k - 1), plan.Outcome(k - 1).checkpoint, plan.Shown(k - 1));
      }
    }
  }

  lemma NothingBacked(s: seq<Message>, job: Job)
    ensures Backed(Results([], map[], [], [], 0), s, job)
  {
  }

  lemma ApplyCalls(r: Results, c: Checkpoint, messages: seq<Message>)
    ensures Apply(r, c, messages).calls == r.calls + c.calls
  {
  }

  /** Whatever the model answers and however the run is scheduled, interrupted before and resumed: when it completes,
      the merged candidates meet the rules of their kinds over the evidence kept, which is of the stream, and no more
      than forty calls were made for each selected window. */
  lemma LearnedGrounded(plan: Plan, s: seq<Message>, o: Limits, job: Job, actions: seq<Action>)
    requires Learns(plan, s, o, job) && plan.Valid() && DistinctIds(s)
    requires Run(plan, actions).Some? && Complete(plan, Run(plan, actions).value)
    ensures var r := Run(plan, actions).value.results;
            && (forall id :: id in r.evidence ==> r.evidence[id] in s && r.evidence[id].messageId == id)
            && WellGrounded(MergeWindows(r.extracted, job.host), Rulebook(r.evidence, job))
            && r.calls <= MAX_WINDOW_CALLS * SelectedCount(plan, |plan.windows|)
  {
    hide WellGrounded, EachGrounded, MergeWindows, Learns, Sequential, DistinctIds;
    CompleteRun(plan, actions);
    SequentialBacked(plan, s, o, job, |plan.windows|);
    var r := Sequential(plan, |plan.windows|);
    MergeWindowsGrounded(r.extracted, Rulebook(r.evidence, job));
  }
}
