/**
 The extraction schedule of a learning run: windows in chronological order, up to `concurrency` of them
 being extracted at once, outcomes applied strictly in order, a checkpoint emitted for each outcome, and
 checkpoints of an earlier run reused.

 A run is a sequence of atomic steps between suspensions.  It may stop after any step: that is a crash or
 a cancellation, and what it leaves behind is the checkpoints it emitted.
 */
module Scheduler {
  import opened Candidates
  import opened Prelude
  import opened Windows

  const MAX_EXTRACTION_CONCURRENCY: nat := 16

  /** Durable output for one fully processed window. */
  datatype Checkpoint = Checkpoint(
    windowId: WindowId,
    candidates: HistoryCandidates,
    continuationIds: seq<WindowId>,
    incompleteIds: seq<WindowId>,
    calls: nat)

  /** What extracting a window gives, and how many response pages of it and of its continuation it takes. */
  datatype Extraction = Extraction(checkpoint: Checkpoint, naturalPages: nat, followUpPages: nat)

  datatype Plan = Plan(
    windows: seq<Window>,
    selected: set<WindowId>,
    extract: (Window, Option<Window>) -> Extraction,
    concurrency: nat,
    resume: map<WindowId, Checkpoint>)
  {
    function Following(k: nat): Option<Window>
      requires k < |windows|
    {
      if k + 1 < |windows| then Some(windows[k + 1]) else None
    }

    function Outcome(k: nat): Extraction
      requires k < |windows|
    {
      extract(windows[k], Following(k))
    }

    function Pages(k: nat): nat
      requires k < |windows|
    {
      Outcome(k).naturalPages + Outcome(k).followUpPages
    }

    predicate Selected(k: nat)
      requires k < |windows|
    {
      windows[k].id in selected
    }

    /** There is a checkpoint for the window, and it says so itself. */
    predicate Saved(k: nat)
      requires k < |windows|
    {
      var id := windows[k].id;
      Selected(k) && id in resume && resume[id].windowId == id
    }

    predicate Fresh(k: nat)
      requires k < |windows|
    {
      Selected(k) && !Saved(k)
    }

    /** The messages candidates of a window may cite. */
    function Shown(k: nat): seq<Message>
      requires k < |windows|
    {
      windows[k].messages + (match Following(k) case None => [] case Some(w) => w.messages)
    }

    /** Windows are distinct; extracting one names it and counts its pages; saved checkpoints are what
        extraction gives. */
    ghost predicate Valid() {
      && 1 <= concurrency <= MAX_EXTRACTION_CONCURRENCY
      && (forall j, k :: 0 <= j < k < |windows| ==> windows[j].id != windows[k].id)
      && (forall k :: 0 <= k < |windows| && Selected(k) ==> Counts(k))
      && (forall k :: 0 <= k < |windows| && Saved(k) ==> resume[windows[k].id] == Outcome(k).checkpoint)
    }

    predicate Counts(k: nat)
      requires k < |windows|
    {
      var e := Outcome(k);
      e.naturalPages >= 1 && e.checkpoint.calls == e.naturalPages + e.followUpPages
        && e.checkpoint.windowId == windows[k].id
    }
  }

  // ----- results, and the sequential run

  datatype Results = Results(
    extracted: seq<HistoryCandidates>,
    evidence: map<string, Message>,
    continuationIds: seq<WindowId>,
    incompleteIds: seq<WindowId>,
    calls: nat)

  predicate CitedIn(id: string, items: seq<Candidate>) {
    exists c :: c in items && id in c.evidenceIds
  }

  predicate CitedBy(id: string, candidates: HistoryCandidates) {
    || CitedIn(id, candidates.expressions) || CitedIn(id, candidates.behaviors) || CitedIn(id, candidates.jargons)
    || CitedIn(id, candidates.memories) || CitedIn(id, candidates.profiles)
  }

  /** Evidence grows by the cited messages, later ones replacing earlier ones with the same id. */
  function Retain(candidates: HistoryCandidates, messages: seq<Message>, evidence: map<string, Message>)
    : map<string, Message>
  {
    if messages == [] then evidence
    else
      var m, rest := messages[|messages| - 1], Retain(candidates, messages[..|messages| - 1], evidence);
      if CitedBy(m.messageId, candidates) then rest[m.messageId := m] else rest
  }

  function Apply(r: Results, c: Checkpoint, messages: seq<Message>): Results {
    Results(
      r.extracted + [c.candidates],
      Retain(c.candidates, messages, r.evidence),
      r.continuationIds + c.continuationIds,
      r.incompleteIds + c.incompleteIds,
      r.calls + c.calls)
  }

  /** One window after the other, no concurrency, no checkpoints: the results of the first `k` windows. */
  function Sequential(plan: Plan, k: nat): Results
    requires k <= |plan.windows|
  {
    if k == 0 then Results([], map[], [], [], 0)
    else if !plan.Selected(k - 1) then Sequential(plan, k - 1)
    else Apply(Sequential(plan, k - 1), plan.Outcome(k - 1).checkpoint, plan.Shown(k - 1))
  }

  /** The checkpoints of the windows without a saved one, among the first `k`. */
  function FreshCheckpoints(plan: Plan, k: nat): seq<Checkpoint>
    requires k <= |plan.windows|
  {
    if k == 0 then []
    else if !plan.Fresh(k - 1) then FreshCheckpoints(plan, k - 1)
    else FreshCheckpoints(plan, k - 1) + [plan.Outcome(k - 1).checkpoint]
  }

  // ----- the state machine

  /** A window being extracted and the pages of it returned so far. */
  datatype Task = Task(at: nat, pages: nat)

  datatype State = State(
    next: nat,
    pending: seq<Task>,
    draining: bool,
    results: Results,
    emitted: seq<Checkpoint>,
    total: int,
    completed: int)

  /** What the coroutines do between two suspensions: pass over a window, start one, reuse a checkpoint, apply the
      oldest finished extraction, or receive the next page of the `task`-th pending one. */
  datatype Action = Skip | Start | Reuse | Drain | Page(task: nat)

  function Max(x: int, y: int): int {
    if x >= y then x else y
  }

  /** Pages already paid for by saved checkpoints: completed, and beyond the one each window is counted for. */
  function SavedCompleted(plan: Plan, k: nat): int
    requires k <= |plan.windows|
  {
    if k == 0 then 0
    else SavedCompleted(plan, k - 1) + (if plan.Saved(k - 1) then Max(1, plan.resume[plan.windows[k - 1].id].calls)
                                        else 0)
  }

  function SavedExtra(plan: Plan, k: nat): int
    requires k <= |plan.windows|
  {
    if k == 0 then 0
    else SavedExtra(plan, k - 1) + (if plan.Saved(k - 1) then Max(0, plan.resume[plan.windows[k - 1].id].calls - 1)
                                    else 0)
  }

  function SelectedCount(plan: Plan, k: nat): nat
    requires k <= |plan.windows|
  {
    if k == 0 then 0 else SelectedCount(plan, k - 1) + (if plan.Selected(k - 1) then 1 else 0)
  }

  function Init(plan: Plan): State {
    var n := |plan.windows|;
    State(0, [], false, Results([], map[], [], [], 0), [], SelectedCount(plan, n) + SavedExtra(plan, n),
          SavedCompleted(plan, n))
  }

  predicate Finished(plan: Plan, task: Task) {
    task.at < |plan.windows| && task.pages >= plan.Pages(task.at)
  }

  predicate Enabled(plan: Plan, s: State, a: Action) {
    var here := !s.draining && s.next < |plan.windows|;
    match a
    case Skip => here && !plan.Selected(s.next)
    case Start => here && plan.Fresh(s.next)
    case Reuse => here && plan.Saved(s.next) && s.pending == []
    case Drain =>
      && s.pending != [] && Finished(plan, s.pending[0])
      && (s.draining || s.next >= |plan.windows| || plan.Saved(s.next))
    case Page(task) => task < |s.pending| && !Finished(plan, s.pending[task])
  }

  function Step(plan: Plan, s: State, a: Action): State
    requires Enabled(plan, s, a)
  {
    match a
    case Skip => s.(next := s.next + 1)
    case Start =>
      var pending := s.pending + [Task(s.next, 0)];
      s.(next := s.next + 1, pending := pending, draining := |pending| >= plan.concurrency)
    case Reuse =>
      s.(next := s.next + 1,
         results := Apply(s.results, plan.resume[plan.windows[s.next].id], plan.Shown(s.next)))
    case Drain =>
      var k := s.pending[0].at;
      var c := plan.Outcome(k).checkpoint;
      s.(pending := s.pending[1..], draining := false,
         results := Apply(s.results, c, plan.Shown(k)), emitted := s.emitted + [c])
    case Page(task) =>
      var t := s.pending[task];
      s.(pending := s.pending[task := t.(pages := t.pages + 1)],
         // the first page was counted when the window was selected; every other page extends the total
         total := s.total + (if t.pages == 0 then 0 else 1),
         completed := s.completed + 1)
  }

  /** The state after some actions, if each was enabled in turn. */
  function Run(plan: Plan, actions: seq<Action>): Option<State> {
    if actions == [] then Some(Init(plan))
    else match Run(plan, actions[..|actions| - 1])
      case None => None
      case Some(s) =>
        var a := actions[|actions| - 1];
        if Enabled(plan, s, a) then Some(Step(plan, s, a)) else None
  }

  predicate Complete(plan: Plan, s: State) {
    s.next >= |plan.windows| && s.pending == []
  }

  // ----- the invariant

  /** Up to where outcomes have been applied. */
  function Applied(s: State): nat {
    if s.pending == [] then s.next else s.pending[0].at
  }

  ghost predicate PendingOrdered(plan: Plan, s: State) {
    && (forall j :: 0 <= j < |s.pending| ==> s.pending[j].at < s.next)
    && (forall j, k :: 0 <= j < k < |s.pending| ==> s.pending[j].at < s.pending[k].at)
    && s.next <= |plan.windows|
    && (forall j :: 0 <= j < |s.pending| ==>
        plan.Fresh(s.pending[j].at) && s.pending[j].pages <= plan.Pages(s.pending[j].at))
  }

  /** Every selected window between what is applied and what is next is being extracted. */
  ghost predicate PendingComplete(plan: Plan, s: State)
    requires s.next <= |plan.windows|
  {
    forall i :: Applied(s) <= i < s.next && plan.Selected(i) ==>
      exists j :: 0 <= j < |s.pending| && s.pending[j].at == i
  }

  ghost predicate Inv(plan: Plan, s: State) {
    && PendingOrdered(plan, s)
    && PendingComplete(plan, s)
    && s.results == Sequential(plan, Applied(s))
    && s.emitted == FreshCheckpoints(plan, Applied(s))
    && (if s.draining then |s.pending| == plan.concurrency else |s.pending| < plan.concurrency)
  }

  /** Passing over windows that are not selected changes nothing. */
  lemma {:induction false} Unselected(plan: Plan, a: nat, b: nat)
    requires a <= b <= |plan.windows| && forall i :: a <= i < b ==> !plan.Selected(i)
    ensures Sequential(plan, a) == Sequential(plan, b) && FreshCheckpoints(plan, a) == FreshCheckpoints(plan, b)
    decreases b
  {
    if a < b {
      Unselected(plan, a, b - 1);
    }
  }

  lemma InitInv(plan: Plan)
    requires plan.Valid()
    ensures Inv(plan, Init(plan))
  {
  }

  lemma StartInv(plan: Plan, s: State)
    requires plan.Valid() && Inv(plan, s) && Enabled(plan, s, Start)
    ensures Inv(plan, Step(plan, s, Start))
  {
    StartPending(plan, s);
    hide plan.Fresh, plan.Selected, Sequential, FreshCheckpoints, PendingOrdered, PendingComplete;
    assert Applied(Step(plan, s, Start)) == Applied(s);
  }

  lemma StartPending(plan: Plan, s: State)
    requires plan.Valid() && PendingOrdered(plan, s) && PendingComplete(plan, s) && Enabled(plan, s, Start)
    ensures PendingOrdered(plan, Step(plan, s, Start)) && PendingComplete(plan, Step(plan, s, Start))
  {
    hide plan.Counts, plan.Outcome, plan.Selected;
    var s' := Step(plan, s, Start);
    assert s'.pending[|s.pending|].at == s.next;
    forall j | 0 <= j < |s.pending| ensures s'.pending[j] == s.pending[j] {
    }
    forall i | Applied(s') <= i < s'.next && plan.Selected(i)
      ensures exists j :: 0 <= j < |s'.pending| && s'.pending[j].at == i
    {
      if i < s.next {
        var j :| 0 <= j < |s.pending| && s.pending[j].at == i;
        assert s'.pending[j].at == i;
      }
    }
  }

  lemma PagePending(plan: Plan, s: State, task: nat)
    requires PendingOrdered(plan, s) && PendingComplete(plan, s) && Enabled(plan, s, Page(task))
    ensures PendingOrdered(plan, Step(plan, s, Page(task))) && PendingComplete(plan, Step(plan, s, Page(task)))
  {
    hide plan.Outcome, plan.Selected;
    var s' := Step(plan, s, Page(task));
    assert forall j :: 0 <= j < |s.pending| ==> s'.pending[j].at == s.pending[j].at;
    forall i | Applied(s') <= i < s'.next && plan.Selected(i)
      ensures exists j :: 0 <= j < |s'.pending| && s'.pending[j].at == i
    {
      var j :| 0 <= j < |s.pending| && s.pending[j].at == i;
      assert s'.pending[j].at == i;
    }
  }

  lemma PageInv(plan: Plan, s: State, task: nat)
    requires plan.Valid() && Inv(plan, s) && Enabled(plan, s, Page(task))
    ensures Inv(plan, Step(plan, s, Page(task)))
  {
    PagePending(plan, s, task);
    hide PendingOrdered, PendingComplete, Sequential, FreshCheckpoints, plan.Valid;
  }

  /** After the oldest pending window, nothing up to the next pending one is selected. */
  lemma NextApplied(plan: Plan, s: State)
    requires PendingOrdered(plan, s) && PendingComplete(plan, s) && Enabled(plan, s, Drain)
    ensures var k, m := s.pending[0].at, Applied(Step(plan, s, Drain));
            k < m <= |plan.windows| && forall i :: k < i < m ==> !plan.Selected(i)
  {
    hide Apply, plan.Counts, plan.Outcome, plan.Selected, Sequential, FreshCheckpoints;
    var m := Applied(Step(plan, s, Drain));
    forall i | s.pending[0].at < i < m ensures !plan.Selected(i) {
      forall j | 0 <= j < |s.pending| ensures s.pending[j].at != i {
      }
    }
  }

  lemma DrainPending(plan: Plan, s: State)
    requires PendingOrdered(plan, s) && PendingComplete(plan, s) && Enabled(plan, s, Drain)
    ensures PendingOrdered(plan, Step(plan, s, Drain)) && PendingComplete(plan, Step(plan, s, Drain))
  {
    hide Apply, plan.Outcome, plan.Selected;
    var s' := Step(plan, s, Drain);
    forall i | Applied(s') <= i < s'.next && plan.Selected(i)
      ensures exists j :: 0 <= j < |s'.pending| && s'.pending[j].at == i
    {
      var j :| 0 <= j < |s.pending| && s.pending[j].at == i;
      assert s'.pending[j - 1].at == i;
    }
  }

  lemma DrainInv(plan: Plan, s: State)
    requires plan.Valid() && Inv(plan, s) && Enabled(plan, s, Drain)
    ensures Inv(plan, Step(plan, s, Drain))
  {
    NextApplied(plan, s);
    DrainPending(plan, s);
    Unselected(plan, s.pending[0].at + 1, Applied(Step(plan, s, Drain)));
    DrainResults(plan, s);
    hide PendingComplete, Sequential, FreshCheckpoints, plan.Valid, plan.Counts;
  }

  /** The oldest outcome is the next the sequential run applies. */
  lemma DrainResults(plan: Plan, s: State)
    requires Inv(plan, s) && Enabled(plan, s, Drain)
    ensures var k, s' := s.pending[0].at, Step(plan, s, Drain);
            s'.results == Sequential(plan, k + 1) && s'.emitted == FreshCheckpoints(plan, k + 1)
  {
    hide Apply, PendingComplete, plan.Counts, plan.Outcome;
  }

  lemma SkipInv(plan: Plan, s: State)
    requires plan.Valid() && Inv(plan, s) && Enabled(plan, s, Skip)
    ensures Inv(plan, Step(plan, s, Skip))
  {
    hide Apply, plan.Outcome, plan.Counts;
    if s.pending == [] {
      Unselected(plan, s.next, s.next + 1);
    }
  }

  lemma ReuseInv(plan: Plan, s: State)
    requires plan.Valid() && Inv(plan, s) && Enabled(plan, s, Reuse)
    ensures Inv(plan, Step(plan, s, Reuse))
  {
    hide Apply, plan.Counts;
  }

  lemma StepInv(plan: Plan, s: State, a: Action)
    requires plan.Valid() && Inv(plan, s) && Enabled(plan, s, a)
    ensures Inv(plan, Step(plan, s, a))
  {
    hide *;
    match a
    case Skip => SkipInv(plan, s);
    case Start => StartInv(plan, s);
    case Reuse => ReuseInv(plan, s);
    case Drain => DrainInv(plan, s);
    case Page(task) => PageInv(plan, s, task);
  }

  lemma {:induction false} RunInv(plan: Plan, actions: seq<Action>)
    requires plan.Valid() && Run(plan, actions).Some?
    ensures Inv(plan, Run(plan, actions).value)
  {
    if actions == [] {
      InitInv(plan);
    } else {
      var init := actions[..|actions| - 1];
      RunInv(plan, init);
      StepInv(plan, Run(plan, init).value, actions[|actions| - 1]);
    }
  }

  // ----- concurrency independence

  /** Any run that completes, at any concurrency and with any saved checkpoints, ends with the results of the sequential
      run, and has emitted the checkpoints of exactly the windows that had none, in order. */
  lemma CompleteRun(plan: Plan, actions: seq<Action>)
    requires plan.Valid() && Run(plan, actions).Some? && Complete(plan, Run(plan, actions).value)
    ensures Run(plan, actions).value.results == Sequential(plan, |plan.windows|)
    ensures Run(plan, actions).value.emitted == FreshCheckpoints(plan, |plan.windows|)
  {
    RunInv(plan, actions);
  }

  lemma {:induction false} FreshPrefix(plan: Plan, a: nat, b: nat)
    requires a <= b <= |plan.windows|
    ensures FreshCheckpoints(plan, a) <= FreshCheckpoints(plan, b)
    decreases b
  {
    if a < b {
      FreshPrefix(plan, a, b - 1);
    }
  }

  /** At any point of any run, the checkpoints emitted are a prefix of those of the fresh windows, and no more tasks
      are pending than the concurrency allows. */
  lemma AnyPoint(plan: Plan, actions: seq<Action>)
    requires plan.Valid() && Run(plan, actions).Some?
    ensures Run(plan, actions).value.emitted <= FreshCheckpoints(plan, |plan.windows|)
    ensures |Run(plan, actions).value.pending| <= plan.concurrency
  {
    RunInv(plan, actions);
    FreshPrefix(plan, Applied(Run(plan, actions).value), |plan.windows|);
  }

  // ----- crash independence

  /** The same learning job, at some concurrency, with the given checkpoints. */
  function Resumed(plan: Plan, concurrency: nat, saved: map<WindowId, Checkpoint>): Plan {
    plan.(concurrency := concurrency, resume := saved)
  }

  /** The earlier checkpoints and those a run emitted. */
  function Keep(saved: map<WindowId, Checkpoint>, emitted: seq<Checkpoint>): map<WindowId, Checkpoint> {
    if emitted == [] then saved
    else
      var c := emitted[|emitted| - 1];
      Keep(saved, emitted[..|emitted| - 1])[c.windowId := c]
  }

  lemma {:induction false} KeepHas(saved: map<WindowId, Checkpoint>, emitted: seq<Checkpoint>, id: WindowId)
    ensures id in Keep(saved, emitted) <==> id in saved || exists c :: c in emitted && c.windowId == id
    ensures id in Keep(saved, emitted) ==>
              (exists c :: c in emitted && c.windowId == id && Keep(saved, emitted)[id] == c)
              || (id in saved && Keep(saved, emitted)[id] == saved[id] && forall c :: c in emitted ==> c.windowId != id)
  {
    if emitted != [] {
      var init, c := emitted[..|emitted| - 1], emitted[|emitted| - 1];
      KeepHas(saved, init, id);
      assert emitted == init + [c];
      assert c in emitted;
    }
  }

  /** The checkpoints among the first `k` windows are those of fresh windows, each naming its window. */
  lemma {:induction false} FreshMembers(plan: Plan, k: nat)
    requires plan.Valid() && k <= |plan.windows|
    ensures forall c :: c in FreshCheckpoints(plan, k) <==>
              exists i :: 0 <= i < k && plan.Fresh(i) && plan.Outcome(i).checkpoint == c
  {
    if k > 0 {
      FreshMembers(plan, k - 1);
    }
  }

  lemma {:induction false} KeptOutcome(plan: Plan, m: nat, i: nat)
    requires plan.Valid() && m <= |plan.windows| && i < |plan.windows|
    ensures var kept, id := Keep(plan.resume, FreshCheckpoints(plan, m)), plan.windows[i].id;
            && (plan.Selected(i) && id in kept && kept[id].windowId == id ==> kept[id] == plan.Outcome(i).checkpoint)
            && (plan.Selected(i) && (id in kept && kept[id].windowId == id) <==>
                plan.Saved(i) || (i < m && plan.Fresh(i)))
  {
    var emitted := FreshCheckpoints(plan, m);
    var id := plan.windows[i].id;
    FreshMembers(plan, m);
    KeepHas(plan.resume, emitted, id);
    if i < m && plan.Fresh(i) {
      assert plan.Outcome(i).checkpoint in emitted;
      assert plan.Counts(i);
    }
    forall c | c in emitted && c.windowId == id ensures i < m && plan.Fresh(i) && c == plan.Outcome(i).checkpoint {
      var j :| 0 <= j < m && plan.Fresh(j) && plan.Outcome(j).checkpoint == c;
      assert plan.Counts(j);
    }
  }

  /** Starting over with what was saved and emitted is a valid plan. */
  lemma ResumedValid(plan: Plan, m: nat, concurrency: nat)
    requires plan.Valid() && m <= |plan.windows| && 1 <= concurrency <= MAX_EXTRACTION_CONCURRENCY
    ensures Resumed(plan, concurrency, Keep(plan.resume, FreshCheckpoints(plan, m))).Valid()
  {
    var plan' := Resumed(plan, concurrency, Keep(plan.resume, FreshCheckpoints(plan, m)));
    forall k | 0 <= k < |plan'.windows| && plan'.Selected(k) ensures plan'.Counts(k) {
      assert plan.Counts(k);
    }
    forall k | 0 <= k < |plan'.windows| && plan'.Saved(k)
      ensures plan'.resume[plan'.windows[k].id] == plan'.Outcome(k).checkpoint
    {
      KeptOutcome(plan, m, k);
    }
  }

  lemma {:induction false} SequentialAgree(plan: Plan, plan': Plan, k: nat)
    requires k <= |plan.windows| && plan' == Resumed(plan, plan'.concurrency, plan'.resume)
    ensures Sequential(plan', k) == Sequential(plan, k)
  {
    if k > 0 {
      SequentialAgree(plan, plan', k - 1);
    }
  }

  /** What is left to extract after a run that got as far as the `m`-th window. */
  lemma {:induction false} FreshLeft(plan: Plan, m: nat, concurrency: nat, k: nat)
    requires plan.Valid() && m <= |plan.windows| && k <= |plan.windows|
    ensures var plan' := Resumed(plan, concurrency, Keep(plan.resume, FreshCheckpoints(plan, m)));
            FreshCheckpoints(plan, if k <= m then k else m) + FreshCheckpoints(plan', k) == FreshCheckpoints(plan, k)
            && (k <= m ==> FreshCheckpoints(plan', k) == [])
  {
    if k > 0 {
      FreshLeft(plan, m, concurrency, k - 1);
      KeptOutcome(plan, m, k - 1);
    }
  }

  /** Crash independence: stop any run after any step, at any concurrency; start over with the checkpoints it had and
      those it emitted, at any other concurrency; any run that then completes has the results of the sequential run, and
      extracts exactly the windows whose checkpoints were not emitted before. */
  lemma CrashAndResume(plan: Plan, before: seq<Action>, concurrency: nat, after: seq<Action>)
    requires plan.Valid() && Run(plan, before).Some? && 1 <= concurrency <= MAX_EXTRACTION_CONCURRENCY
    ensures var emitted := Run(plan, before).value.emitted;
            var plan' := Resumed(plan, concurrency, Keep(plan.resume, emitted));
            && plan'.Valid()
            && (Run(plan', after).Some? && Complete(plan', Run(plan', after).value) ==>
                  && Run(plan', after).value.results == Sequential(plan, |plan.windows|)
                  && emitted + Run(plan', after).value.emitted == FreshCheckpoints(plan, |plan.windows|))
  {
    RunInv(plan, before);
    var m := Applied(Run(plan, before).value);
    ResumedValid(plan, m, concurrency);
    var plan' := Resumed(plan, concurrency, Keep(plan.resume, FreshCheckpoints(plan, m)));
    if Run(plan', after).Some? && Complete(plan', Run(plan', after).value) {
      CompleteRun(plan', after);
      SequentialAgree(plan, plan', |plan.windows|);
      FreshLeft(plan, m, concurrency, |plan.windows|);
    }
  }

  // ----- progress, and that every run comes to an end

  /** Fresh selected windows not started yet. */
  function Unstarted(plan: Plan, next: nat): nat
    requires next <= |plan.windows|
    decreases |plan.windows| - next
  {
    if next == |plan.windows| then 0 else (if plan.Fresh(next) then 1 else 0) + Unstarted(plan, next + 1)
  }

  /** Pending extractions without a page yet. */
  function Silent(pending: seq<Task>): nat {
    if pending == [] then 0 else Silent(pending[..|pending| - 1]) + (if pending[|pending| - 1].pages == 0 then 1 else 0)
  }

  lemma {:induction false} SilentConcat(a: seq<Task>, b: seq<Task>)
    ensures Silent(a + b) == Silent(a) + Silent(b)
    decreases |b|
  {
    if b == [] {
      assert a + b == a;
    } else {
      assert (a + b)[..|a + b| - 1] == a + b[..|b| - 1];
      SilentConcat(a, b[..|b| - 1]);
    }
  }

  lemma SilentOne(t: Task)
    ensures Silent([t]) == if t.pages == 0 then 1 else 0
  {
    assert [t][..0] == [];
  }

  lemma SilentUpdate(pending: seq<Task>, k: nat, t: Task)
    requires k < |pending|
    ensures Silent(pending[k := t]) == Silent(pending) - Silent([pending[k]]) + Silent([t])
  {
    var a, b := pending[..k], pending[k + 1..];
    assert pending == a + [pending[k]] + b && pending[k := t] == a + [t] + b;
    SilentConcat(a + [pending[k]], b);
    SilentConcat(a, [pending[k]]);
    SilentConcat(a + [t], b);
    SilentConcat(a, [t]);
  }

  /** What is missing from the total is exactly the fresh windows that have returned no page. */
  ghost predicate Ledger(plan: Plan, s: State) {
    s.next <= |plan.windows| && s.total - s.completed == Unstarted(plan, s.next) + Silent(s.pending)
  }

  lemma {:induction false} InitLedger(plan: Plan, k: nat)
    requires k <= |plan.windows|
    ensures SelectedCount(plan, k) + SavedExtra(plan, k) - SavedCompleted(plan, k) + Unstarted(plan, k) ==
            Unstarted(plan, 0)
  {
    if k > 0 {
      InitLedger(plan, k - 1);
    }
  }

  lemma PageLedger(plan: Plan, s: State, task: nat)
    requires Ledger(plan, s) && Enabled(plan, s, Page(task))
    ensures Ledger(plan, Step(plan, s, Page(task)))
  {
    hide plan.Outcome, Finished;
    var t := s.pending[task];
    SilentUpdate(s.pending, task, t.(pages := t.pages + 1));
    SilentOne(t);
    SilentOne(t.(pages := t.pages + 1));
  }

  lemma DrainLedger(plan: Plan, s: State)
    requires plan.Valid() && PendingOrdered(plan, s) && Ledger(plan, s) && Enabled(plan, s, Drain)
    ensures Ledger(plan, Step(plan, s, Drain))
  {
    var t := s.pending[0];
    assert plan.Counts(t.at);
    hide Apply, plan.Counts;
    assert s.pending == [t] + s.pending[1..];
    SilentConcat([t], s.pending[1..]);
    SilentOne(t);
  }

  lemma StartLedger(plan: Plan, s: State)
    requires Ledger(plan, s) && Enabled(plan, s, Start)
    ensures Ledger(plan, Step(plan, s, Start))
  {
    SilentConcat(s.pending, [Task(s.next, 0)]);
    SilentOne(Task(s.next, 0));
  }

  lemma StepLedger(plan: Plan, s: State, a: Action)
    requires plan.Valid() && Inv(plan, s) && Ledger(plan, s) && Enabled(plan, s, a)
    ensures Ledger(plan, Step(plan, s, a))
  {
    hide Apply, PendingComplete, PendingOrdered, Silent, plan.Valid;
    match a
    case Skip =>
    case Start => StartLedger(plan, s);
    case Reuse =>
    case Drain => DrainLedger(plan, s);
    case Page(task) => PageLedger(plan, s, task);
  }

  /** At any point of any run the progress count is short of its total by exactly the fresh windows that have not
      returned a page, so it never exceeds it. */
  lemma {:induction false} ProgressLedger(plan: Plan, actions: seq<Action>)
    requires plan.Valid() && Run(plan, actions).Some?
    ensures Ledger(plan, Run(plan, actions).value)
    ensures Run(plan, actions).value.completed <= Run(plan, actions).value.total
  {
    if actions == [] {
      InitLedger(plan, |plan.windows|);
    } else {
      var init := actions[..|actions| - 1];
      ProgressLedger(plan, init);
      RunInv(plan, init);
      StepLedger(plan, Run(plan, init).value, actions[|actions| - 1]);
    }
  }

  /** Model calls of the selected windows among the first `k`, at least one each. */
  function Paid(plan: Plan, k: nat): int
    requires k <= |plan.windows|
  {
    if k == 0 then 0
    else Paid(plan, k - 1) + (if plan.Selected(k - 1) then Max(1, plan.Outcome(k - 1).checkpoint.calls) else 0)
  }

  function FreshPages(plan: Plan, k: nat): nat
    requires k <= |plan.windows|
  {
    if k == 0 then 0 else FreshPages(plan, k - 1) + (if plan.Fresh(k - 1) then plan.Pages(k - 1) else 0)
  }

  function PendingPages(pending: seq<Task>): nat {
    if pending == [] then 0 else pending[0].pages + PendingPages(pending[1..])
  }

  lemma {:induction false} PendingPagesUpdate(pending: seq<Task>, k: nat)
    requires k < |pending|
    ensures var t := pending[k]; PendingPages(pending[k := t.(pages := t.pages + 1)]) == PendingPages(pending) + 1
  {
    var t := pending[k];
    var u := pending[k := t.(pages := t.pages + 1)];
    if k > 0 {
      assert u[1..] == pending[1..][k - 1 := t.(pages := t.pages + 1)];
      PendingPagesUpdate(pending[1..], k - 1);
    } else {
      assert u[1..] == pending[1..];
    }
  }

  lemma {:induction false} PendingPagesSnoc(pending: seq<Task>, t: Task)
    ensures PendingPages(pending + [t]) == PendingPages(pending) + t.pages
  {
    if pending != [] {
      assert (pending + [t])[1..] == pending[1..] + [t];
      PendingPagesSnoc(pending[1..], t);
    } else {
      assert pending + [t] == [t];
    }
  }

  lemma {:induction false} UnselectedPages(plan: Plan, a: nat, b: nat)
    requires a <= b <= |plan.windows| && forall i :: a <= i < b ==> !plan.Selected(i)
    ensures FreshPages(plan, a) == FreshPages(plan, b)
    decreases b
  {
    if a < b {
      UnselectedPages(plan, a, b - 1);
    }
  }

  /** Progress counts the pages of saved, applied and pending windows. */
  ghost predicate Tally(plan: Plan, s: State) {
    && s.next <= |plan.windows| && Applied(s) <= |plan.windows|
    && s.completed == SavedCompleted(plan, |plan.windows|) + FreshPages(plan, Applied(s)) + PendingPages(s.pending)
  }

  lemma StepTally(plan: Plan, s: State, a: Action)
    requires plan.Valid() && Inv(plan, s) && Tally(plan, s) && Enabled(plan, s, a)
    ensures Tally(plan, Step(plan, s, a))
  {
    hide Apply, PendingComplete, Sequential, FreshCheckpoints;
    match a
    case Skip =>
    case Start =>
      PendingPagesSnoc(s.pending, Task(s.next, 0));
    case Reuse =>
    case Drain =>
      NextApplied(plan, s);
      UnselectedPages(plan, s.pending[0].at + 1, Applied(Step(plan, s, a)));
    case Page(task) => PendingPagesUpdate(s.pending, task);
  }

  lemma {:induction false} RunTally(plan: Plan, actions: seq<Action>)
    requires plan.Valid() && Run(plan, actions).Some?
    ensures Tally(plan, Run(plan, actions).value)
  {
    if actions != [] {
      var init := actions[..|actions| - 1];
      RunTally(plan, init);
      RunInv(plan, init);
      StepTally(plan, Run(plan, init).value, actions[|actions| - 1]);
    }
  }

  lemma {:induction false} PaidIs(plan: Plan, k: nat)
    requires plan.Valid() && k <= |plan.windows|
    ensures Paid(plan, k) == SavedCompleted(plan, k) + FreshPages(plan, k)
  {
    if k > 0 {
      PaidIs(plan, k - 1);
      if plan.Selected(k - 1) {
        assert plan.Counts(k - 1);
      }
    }
  }

  /** A run that completes ends with progress and total both at the number of model calls, one at least per selected
      window. */
  lemma FinalProgress(plan: Plan, actions: seq<Action>)
    requires plan.Valid() && Run(plan, actions).Some? && Complete(plan, Run(plan, actions).value)
    ensures Run(plan, actions).value.completed == Run(plan, actions).value.total == Paid(plan, |plan.windows|)
  {
    RunInv(plan, actions);
    RunTally(plan, actions);
    ProgressLedger(plan, actions);
    PaidIs(plan, |plan.windows|);
  }

  // ----- every run can be completed, in a number of steps fixed by the plan

  function StepsFor(plan: Plan, k: nat): nat
    requires k < |plan.windows|
  {
    if plan.Fresh(k) then plan.Pages(k) + 2 else 1
  }

  function StepsFrom(plan: Plan, next: nat): nat
    requires next <= |plan.windows|
    decreases |plan.windows| - next
  {
    if next == |plan.windows| then 0 else StepsFor(plan, next) + StepsFrom(plan, next + 1)
  }

  function PendingSteps(plan: Plan, pending: seq<Task>): nat
    requires forall j :: 0 <= j < |pending| ==>
               pending[j].at < |plan.windows| && pending[j].pages <= plan.Pages(pending[j].at)
  {
    if pending == [] then 0
    else plan.Pages(pending[0].at) - pending[0].pages + 1 + PendingSteps(plan, pending[1..])
  }

  lemma {:induction false} PendingStepsSnoc(plan: Plan, pending: seq<Task>, t: Task)
    requires forall j :: 0 <= j < |pending| ==>
               pending[j].at < |plan.windows| && pending[j].pages <= plan.Pages(pending[j].at)
    requires t.at < |plan.windows| && t.pages <= plan.Pages(t.at)
    ensures PendingSteps(plan, pending + [t]) == PendingSteps(plan, pending) + plan.Pages(t.at) - t.pages + 1
  {
    if pending != [] {
      assert (pending + [t])[1..] == pending[1..] + [t];
      PendingStepsSnoc(plan, pending[1..], t);
    } else {
      assert pending + [t] == [t];
    }
  }

  lemma {:induction false} PendingStepsPage(plan: Plan, pending: seq<Task>, k: nat)
    requires forall j :: 0 <= j < |pending| ==>
               pending[j].at < |plan.windows| && pending[j].pages <= plan.Pages(pending[j].at)
    requires k < |pending| && pending[k].pages < plan.Pages(pending[k].at)
    ensures var t := pending[k];
            PendingSteps(plan, pending[k := t.(pages := t.pages + 1)]) == PendingSteps(plan, pending) - 1
  {
    var t := pending[k];
    var u := pending[k := t.(pages := t.pages + 1)];
    if k > 0 {
      assert u[1..] == pending[1..][k - 1 := t.(pages := t.pages + 1)];
      PendingStepsPage(plan, pending[1..], k - 1);
    } else {
      assert u[1..] == pending[1..];
    }
  }

  ghost function StepsLeft(plan: Plan, s: State): nat
    requires PendingOrdered(plan, s)
  {
    StepsFrom(plan, s.next) + PendingSteps(plan, s.pending)
  }

  lemma DrainCounts(plan: Plan, s: State)
    requires PendingOrdered(plan, s) && Enabled(plan, s, Drain) && PendingOrdered(plan, Step(plan, s, Drain))
    ensures StepsLeft(plan, Step(plan, s, Drain)) == StepsLeft(plan, s) - 1
  {
  }

  lemma PageCounts(plan: Plan, s: State, task: nat)
    requires PendingOrdered(plan, s) && Enabled(plan, s, Page(task)) && PendingOrdered(plan, Step(plan, s, Page(task)))
    ensures StepsLeft(plan, Step(plan, s, Page(task))) == StepsLeft(plan, s) - 1
  {
    PendingStepsPage(plan, s.pending, task);
  }

  lemma StepCounts(plan: Plan, s: State, a: Action)
    requires plan.Valid() && Inv(plan, s) && Enabled(plan, s, a)
    ensures Inv(plan, Step(plan, s, a)) && StepsLeft(plan, Step(plan, s, a)) == StepsLeft(plan, s) - 1
  {
    StepInv(plan, s, a);
    hide Apply, PendingComplete, Sequential, FreshCheckpoints, plan.Valid, plan.Outcome;
    match a
    case Skip =>
    case Start => PendingStepsSnoc(plan, s.pending, Task(s.next, 0));
    case Reuse =>
    case Drain => DrainCounts(plan, s);
    case Page(task) => PageCounts(plan, s, task);
  }

  /** Unless the run is complete, some step can be taken: the schedule never waits for itself. */
  lemma NeverStuck(plan: Plan, s: State)
    requires plan.Valid() && Inv(plan, s) && !Complete(plan, s)
    ensures exists a :: Enabled(plan, s, a)
  {
    if s.pending != [] && !Finished(plan, s.pending[0]) {
      assert Enabled(plan, s, Page(0));
    } else if s.pending != [] && (s.draining || s.next >= |plan.windows| || plan.Saved(s.next)) {
      assert Enabled(plan, s, Drain);
    } else if plan.Fresh(s.next) {
      assert Enabled(plan, s, Start);
    } else if plan.Saved(s.next) {
      assert Enabled(plan, s, Reuse);
    } else {
      assert Enabled(plan, s, Skip);
    }
  }

  lemma {:induction false} StepsTaken(plan: Plan, actions: seq<Action>)
    requires plan.Valid() && Run(plan, actions).Some?
    ensures Inv(plan, Run(plan, actions).value)
    ensures |actions| + StepsLeft(plan, Run(plan, actions).value) == StepsFrom(plan, 0)
  {
    RunInv(plan, actions);
    if actions != [] {
      var init := actions[..|actions| - 1];
      StepsTaken(plan, init);
      StepCounts(plan, Run(plan, init).value, actions[|actions| - 1]);
    }
  }

  /** Every run ends: none is longer than the plan's number of steps, one that is shorter can go on, and one of that
      length is complete. */
  lemma EveryRunEnds(plan: Plan, actions: seq<Action>)
    requires plan.Valid() && Run(plan, actions).Some?
    ensures |actions| <= StepsFrom(plan, 0)
    ensures |actions| == StepsFrom(plan, 0) <==> Complete(plan, Run(plan, actions).value)
    ensures |actions| < StepsFrom(plan, 0) ==> exists a :: Run(plan, actions + [a]).Some?
  {
    StepsTaken(plan, actions);
    var s := Run(plan, actions).value;
    if !Complete(plan, s) {
      NeverStuck(plan, s);
      var a :| Enabled(plan, s, a);
      assert (actions + [a])[..|actions + [a]| - 1] == actions;
      assert Run(plan, actions + [a]).Some?;
      StepCounts(plan, s, a);
    }
  }
}
