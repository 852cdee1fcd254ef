/**
 What a learning run collects: for every selected window, in order, what its extraction gave, and the messages that
 candidates cite.
 */
module Collected {
  import opened Candidates
  import opened Prelude
  import opened Scheduler
  import opened Seqs
  import opened Windows

  // ----- the windows, in order

  /** The window is one of the selected ones. */
  function Selects(plan: Plan): nat -> bool {
    (k: nat) => k < |plan.windows| && plan.windows[k].id in plan.selected
  }

  /** Selected, and without a saved checkpoint of its own. */
  function Asks(plan: Plan): nat -> bool {
    (k: nat) =>
      && k < |plan.windows| && plan.windows[k].id in plan.selected
      && !(plan.windows[k].id in plan.resume && plan.resume[plan.windows[k].id].windowId == plan.windows[k].id)
  }

  /** What extracting the window gives, with the window after it at hand. */
  function Given(plan: Plan, k: nat): Checkpoint
    requires k < |plan.windows|
  {
    plan.extract(plan.windows[k], if k + 1 < |plan.windows| then Some(plan.windows[k + 1]) else None).checkpoint
  }

  /** Its messages, and those of the window after it. */
  function ShownAt(plan: Plan, k: nat): seq<Message>
    requires k < |plan.windows|
  {
    plan.windows[k].messages + if k + 1 < |plan.windows| then plan.windows[k + 1].messages else []
  }

  // ----- what is collected

  ghost predicate CitesId(candidates: HistoryCandidates, id: string) {
    exists kind: Kind, c :: c in candidates.Of(kind) && id in c.evidenceIds
  }

  ghost predicate Shows(messages: seq<Message>, id: string) {
    exists m :: m in messages && m.messageId == id
  }

  /** The last of the messages with the id. */
  ghost predicate LastIs(messages: seq<Message>, id: string, m: Message) {
    exists p: nat :: p < |messages| && messages[p] == m && m.messageId == id && NoneAfter(messages, id, p)
  }

  ghost predicate NoneAfter(messages: seq<Message>, id: string, p: nat) {
    forall q :: p < q < |messages| ==> messages[q].messageId != id
  }

  /** The window shows the message and has a candidate that cites it. */
  ghost predicate Keeps(plan: Plan, k: nat, id: string)
    requires k < |plan.windows|
  {
    CitesId(Given(plan, k).candidates, id) && Shows(ShownAt(plan, k), id)
  }

  /** The evidence is exactly the cited messages, each as it was shown last. */
  ghost predicate Evidenced(plan: Plan, ks: seq<nat>, evidence: map<string, Message>)
    requires forall j :: 0 <= j < |ks| ==> ks[j] < |plan.windows|
  {
    forall id ::
      && (id in evidence <==> exists j :: 0 <= j < |ks| && Keeps(plan, ks[j], id))
      && (id in evidence ==> exists j :: 0 <= j < |ks| && LastKept(plan, ks, j, id, evidence[id]))
  }

  ghost predicate LastKept(plan: Plan, ks: seq<nat>, j: nat, id: string, m: Message)
    requires j < |ks| && forall j :: 0 <= j < |ks| ==> ks[j] < |plan.windows|
  {
    && Keeps(plan, ks[j], id) && (forall i :: j < i < |ks| ==> !Keeps(plan, ks[i], id))
    && LastIs(ShownAt(plan, ks[j]), id, m)
  }

  function Sum(ns: seq<nat>): nat {
    if ns == [] then 0 else Sum(ns[..|ns| - 1]) + ns[|ns| - 1]
  }

  function Checkpoints(plan: Plan, ks: seq<nat>): (r: seq<Checkpoint>)
    requires forall j :: 0 <= j < |ks| ==> ks[j] < |plan.windows|
    ensures |r| == |ks| && forall j :: 0 <= j < |ks| ==> r[j] == Given(plan, ks[j])
  {
    seq(|ks|, j requires 0 <= j < |ks| => Given(plan, ks[j]))
  }

  function ContinuationsOf(cs: seq<Checkpoint>): (r: seq<seq<WindowId>>)
    ensures |r| == |cs| && forall j :: 0 <= j < |cs| ==> r[j] == cs[j].continuationIds
  {
    seq(|cs|, j requires 0 <= j < |cs| => cs[j].continuationIds)
  }

  function IncompleteOf(cs: seq<Checkpoint>): (r: seq<seq<WindowId>>)
    ensures |r| == |cs| && forall j :: 0 <= j < |cs| ==> r[j] == cs[j].incompleteIds
  {
    seq(|cs|, j requires 0 <= j < |cs| => cs[j].incompleteIds)
  }

  function CallsOf(cs: seq<Checkpoint>): (r: seq<nat>)
    ensures |r| == |cs| && forall j :: 0 <= j < |cs| ==> r[j] == cs[j].calls
  {
    seq(|cs|, j requires 0 <= j < |cs| => cs[j].calls)
  }

  /** The candidates of each checkpoint, the concatenation of their ids of either kind, and the sum of their calls. */
  ghost predicate Gathers(cs: seq<Checkpoint>, r: Results) {
    && |r.extracted| == |cs| && (forall j :: 0 <= j < |cs| ==> r.extracted[j] == cs[j].candidates)
    && r.continuationIds == Flatten(ContinuationsOf(cs)) && r.incompleteIds == Flatten(IncompleteOf(cs))
    && r.calls == Sum(CallsOf(cs))
  }

  ghost predicate Collects(plan: Plan, ks: seq<nat>, r: Results)
    requires forall j :: 0 <= j < |ks| ==> ks[j] < |plan.windows|
  {
    Gathers(Checkpoints(plan, ks), r) && Evidenced(plan, ks, r.evidence)
  }

  // ----- evidence

  lemma CitesSame(id: string, candidates: HistoryCandidates)
    ensures CitedBy(id, candidates) <==> CitesId(candidates, id)
  {
    if CitesId(candidates, id) {
      var kind: Kind, c :| c in candidates.Of(kind) && id in c.evidenceIds;
      assert CitedIn(id, candidates.Of(kind));
    }
    if CitedBy(id, candidates) {
      assert CitedIn(id, candidates.Of(Expression)) || CitedIn(id, candidates.Of(Behavior))
             || CitedIn(id, candidates.Of(Jargon)) || CitedIn(id, candidates.Of(Memory))
             || CitedIn(id, candidates.Of(Profile));
    }
  }

  lemma LastSnoc(messages: seq<Message>, m: Message, id: string, last: Message)
    ensures m.messageId == id ==> LastIs(messages + [m], id, m) && Shows(messages + [m], id)
    ensures m.messageId != id ==> (Shows(messages + [m], id) <==> Shows(messages, id))
    ensures m.messageId != id && LastIs(messages, id, last) ==> LastIs(messages + [m], id, last)
  {
    var all := messages + [m];
    assert all[|messages|] == m;
    if m.messageId == id {
      assert NoneAfter(all, id, |messages|);
    } else if LastIs(messages, id, last) {
      var p: nat :| p < |messages| && messages[p] == last && last.messageId == id && NoneAfter(messages, id, p);
      assert all[p] == last && NoneAfter(all, id, p);
    }
  }

  /** A cited message that is shown is kept as it is shown last; all else stays as it was. */
  lemma {:induction false} RetainLast(c: HistoryCandidates, messages: seq<Message>, evidence: map<string, Message>,
                                      id: string)
    ensures var r := Retain(c, messages, evidence);
            if CitesId(c, id) && Shows(messages, id) then id in r && LastIs(messages, id, r[id])
            else (id in r <==> id in evidence) && (id in r && id in evidence ==> r[id] == evidence[id])
  {
    hide CitedBy, CitesId, LastIs;
    if messages != [] {
      var init, m := messages[..|messages| - 1], messages[|messages| - 1];
      assert messages == init + [m];
      RetainLast(c, init, evidence, id);
      CitesSame(m.messageId, c);
      var before := Retain(c, init, evidence);
      LastSnoc(init, m, id, if id in before then before[id] else m);
    }
  }

  // ----- the whole run

  lemma {:induction false} SequentialCollects(plan: Plan, k: nat, ks: seq<nat>)
    requires k <= |plan.windows| && Lists(ks, k, Selects(plan))
    ensures forall j :: 0 <= j < |ks| ==> ks[j] < |plan.windows|
    ensures Collects(plan, ks, Sequential(plan, k))
  {
    hide Collects;
    if k == 0 {
      assert ks == [];
      NothingCollected(plan);
    } else {
      ListsInit(ks, k, Selects(plan));
      if Selects(plan)(k - 1) {
        var init := ks[..|ks| - 1];
        SequentialCollects(plan, k - 1, init);
        assert ks == init + [k - 1];
        OneMore(plan, init, k - 1, Sequential(plan, k - 1));
      } else {
        SequentialCollects(plan, k - 1, ks);
      }
    }
  }

  lemma NothingCollected(plan: Plan)
    ensures Collects(plan, [], Results([], map[], [], [], 0))
  {
  }

  lemma GathersMore(cs: seq<Checkpoint>, c: Checkpoint, r: Results, messages: seq<Message>)
    requires Gathers(cs, r)
    ensures Gathers(cs + [c], Apply(r, c, messages))
  {
    hide Retain, Flatten, Sum;
    var all := cs + [c];
    assert ContinuationsOf(all) == ContinuationsOf(cs) + [c.continuationIds];
    assert IncompleteOf(all) == IncompleteOf(cs) + [c.incompleteIds];
    assert CallsOf(all) == CallsOf(cs) + [c.calls];
    FlattenSnoc(ContinuationsOf(cs), c.continuationIds);
    FlattenSnoc(IncompleteOf(cs), c.incompleteIds);
    SumSnoc(CallsOf(cs), c.calls);
  }

  lemma SumSnoc(ns: seq<nat>, n: nat)
    ensures Sum(ns + [n]) == Sum(ns) + n
  {
    SnocParts(ns, n);
  }

  lemma OneMore(plan: Plan, ks: seq<nat>, k: nat, r: Results)
    requires k < |plan.windows| && forall j :: 0 <= j < |ks| ==> ks[j] < |plan.windows|
    requires Collects(plan, ks, r)
    ensures Collects(plan, ks + [k], Apply(r, plan.Outcome(k).checkpoint, plan.Shown(k)))
  {
    hide Evidenced, Retain, Gathers;
    assert Given(plan, k) == plan.Outcome(k).checkpoint && ShownAt(plan, k) == plan.Shown(k);
    MoreEvidence(plan, ks, k, r.evidence);
    GathersMore(Checkpoints(plan, ks), Given(plan, k), r, ShownAt(plan, k));
    assert Checkpoints(plan, ks + [k]) == Checkpoints(plan, ks) + [Given(plan, k)];
  }

  lemma MoreEvidence(plan: Plan, ks: seq<nat>, k: nat, evidence: map<string, Message>)
    requires k < |plan.windows| && forall j :: 0 <= j < |ks| ==> ks[j] < |plan.windows|
    requires Evidenced(plan, ks, evidence)
    ensures Evidenced(plan, ks + [k], Retain(Given(plan, k).candidates, ShownAt(plan, k), evidence))
  {
    hide Retain, CitesId, Shows, LastIs, Keeps;
    var all, r := ks + [k], Retain(Given(plan, k).candidates, ShownAt(plan, k), evidence);
    forall id
      ensures id in r <==> exists j :: 0 <= j < |all| && Keeps(plan, all[j], id)
      ensures id in r ==> exists j :: 0 <= j < |all| && LastKept(plan, all, j, id, r[id])
    {
      RetainLast(Given(plan, k).candidates, ShownAt(plan, k), evidence, id);
      KeepsIs(plan, k, id);
      if Keeps(plan, k, id) {
        assert all[|ks|] == k && LastKept(plan, all, |ks|, id, r[id]);
      } else if id in evidence {
        var j :| 0 <= j < |ks| && LastKept(plan, ks, j, id, evidence[id]);
        assert all[j] == ks[j];
        forall i | j < i < |all| ensures !Keeps(plan, all[i], id) {
          assert i < |ks| ==> all[i] == ks[i];
        }
        assert LastKept(plan, all, j, id, r[id]);
      } else {
        forall j | 0 <= j < |all| ensures !Keeps(plan, all[j], id) {
          assert j < |ks| ==> all[j] == ks[j];
        }
      }
    }
  }

  lemma KeepsIs(plan: Plan, k: nat, id: string)
    requires k < |plan.windows|
    ensures Keeps(plan, k, id) <==> CitesId(Given(plan, k).candidates, id) && Shows(ShownAt(plan, k), id)
  {
  }

  lemma {:induction false} FreshAre(plan: Plan, k: nat, ks: seq<nat>)
    requires k <= |plan.windows| && Lists(ks, k, Asks(plan))
    ensures forall j :: 0 <= j < |ks| ==> ks[j] < |plan.windows|
    ensures FreshCheckpoints(plan, k) == Checkpoints(plan, ks)
  {
    if k == 0 {
      assert ks == [];
    } else {
      ListsInit(ks, k, Asks(plan));
      if Asks(plan)(k - 1) {
        FreshAre(plan, k - 1, ks[..|ks| - 1]);
        assert Given(plan, k - 1) == plan.Outcome(k - 1).checkpoint;
      } else {
        FreshAre(plan, k - 1, ks);
      }
    }
  }

  /** What a complete run has collected, at any concurrency, in any interleaving and with any saved checkpoints: for
      each selected window, in order, the candidates its extraction gave, its continuation ids, its incomplete ids and
      its calls; as evidence exactly the messages that some candidate cites and its window shows, each as it was shown
      last; and it has emitted the checkpoints of the windows without a saved one, in order. */
  lemma RunCollects(plan: Plan, actions: seq<Action>, ks: seq<nat>, unsaved: seq<nat>)
    requires plan.Valid() && Run(plan, actions).Some? && Complete(plan, Run(plan, actions).value)
    requires Lists(ks, |plan.windows|, Selects(plan)) && Lists(unsaved, |plan.windows|, Asks(plan))
    ensures Collects(plan, ks, Run(plan, actions).value.results)
    ensures Run(plan, actions).value.emitted == Checkpoints(plan, unsaved)
  {
    hide Collects, Run, plan.Valid, Sequential, FreshCheckpoints;
    CompleteRun(plan, actions);
    SequentialCollects(plan, |plan.windows|, ks);
    FreshAre(plan, |plan.windows|, unsaved);
  }
}
