/** Cutting candidates into batches that fit one model prompt. */
module Partition {
  import opened Candidates
  import opened Greedy
  import opened Prelude
  import opened Seqs

  // ----- batches

  /** A batch's candidates, kind by kind. */
  function Run(batch: HistoryCandidates): seq<Candidate> {
    batch.expressions + batch.behaviors + batch.jargons + batch.memories + batch.profiles
  }

  function Runs(batches: seq<HistoryCandidates>): (r: seq<seq<Candidate>>)
    ensures |r| == |batches| && forall k :: 0 <= k < |batches| ==> r[k] == Run(batches[k])
  {
    seq(|batches|, k requires 0 <= k < |batches| => Run(batches[k]))
  }

  /** The candidate joins the collection of the kind. */
  function Add(batch: HistoryCandidates, kind: Kind, c: Candidate): HistoryCandidates {
    match kind
    case Expression => batch.(expressions := batch.expressions + [c])
    case Behavior => batch.(behaviors := batch.behaviors + [c])
    case Jargon => batch.(jargons := batch.jargons + [c])
    case Memory => batch.(memories := batch.memories + [c])
    case Profile => batch.(profiles := batch.profiles + [c])
  }

  /** Nothing of a later kind than the `k`-th is in the batch yet. */
  predicate UpTo(batch: HistoryCandidates, k: nat) {
    && (k < 1 ==> batch.behaviors == []) && (k < 2 ==> batch.jargons == [])
    && (k < 3 ==> batch.memories == []) && (k < 4 ==> batch.profiles == [])
  }

  lemma RunTotal(batch: HistoryCandidates)
    ensures |Run(batch)| == batch.Total()
  {
  }

  lemma AddRun(batch: HistoryCandidates, k: nat, c: Candidate)
    requires k < 5 && UpTo(batch, k)
    ensures Run(Add(batch, KINDS[k], c)) == Run(batch) + [c] && UpTo(Add(batch, KINDS[k], c), k)
  {
  }

  /** What the limit check counts is the number of candidates of the kind. */
  lemma CollectionCount(batch: HistoryCandidates, kind: Kind)
    requires batch.Sorted()
    ensures Count(Run(batch), kind) == |batch.Of(kind)|
  {
    CountConcat(batch.expressions + batch.behaviors + batch.jargons + batch.memories, batch.profiles, kind);
    CountConcat(batch.expressions + batch.behaviors + batch.jargons, batch.memories, kind);
    CountConcat(batch.expressions + batch.behaviors, batch.jargons, kind);
    CountConcat(batch.expressions, batch.behaviors, kind);
    CountSame(batch.expressions, Expression, kind);
    CountSame(batch.behaviors, Behavior, kind);
    CountSame(batch.jargons, Jargon, kind);
    CountSame(batch.memories, Memory, kind);
    CountSame(batch.profiles, Profile, kind);
  }

  lemma {:induction false} CountSame(s: seq<Candidate>, own: Kind, kind: Kind)
    requires SameKind(s, own)
    ensures Count(s, kind) == if own == kind then |s| else 0
  {
    if s != [] {
      CountSame(s[..|s| - 1], own, kind);
    }
  }

  function Pick(run: seq<Candidate>, kind: Kind): seq<Candidate> {
    if run == [] then []
    else
      var init, c := Pick(run[..|run| - 1], kind), run[|run| - 1];
      if c.claim.Kind() == kind then init + [c] else init
  }

  /** The batch with the candidates of a run. */
  function Pack(run: seq<Candidate>): HistoryCandidates {
    HistoryCandidates(Pick(run, Expression), Pick(run, Behavior), Pick(run, Jargon), Pick(run, Memory),
                      Pick(run, Profile))
  }

  lemma {:induction false} PickConcat(a: seq<Candidate>, c: seq<Candidate>, kind: Kind)
    ensures Pick(a + c, kind) == Pick(a, kind) + Pick(c, kind)
    decreases |c|
  {
    if c == [] {
      assert a + c == a;
    } else {
      assert (a + c)[..|a + c| - 1] == a + c[..|c| - 1];
      PickConcat(a, c[..|c| - 1], kind);
    }
  }

  lemma {:induction false} PickSame(s: seq<Candidate>, own: Kind, kind: Kind)
    requires SameKind(s, own)
    ensures Pick(s, kind) == if own == kind then s else []
  {
    if s != [] {
      PickSame(s[..|s| - 1], own, kind);
    }
  }

  /** Reading a batch kind by kind loses nothing. */
  lemma PickRun(batch: HistoryCandidates, kind: Kind)
    requires batch.Sorted()
    ensures Pick(Run(batch), kind) == batch.Of(kind)
  {
    hide Pick;
    PickConcat(batch.expressions + batch.behaviors + batch.jargons + batch.memories, batch.profiles, kind);
    PickConcat(batch.expressions + batch.behaviors + batch.jargons, batch.memories, kind);
    PickConcat(batch.expressions + batch.behaviors, batch.jargons, kind);
    PickConcat(batch.expressions, batch.behaviors, kind);
    PickSame(batch.expressions, Expression, kind);
    PickSame(batch.behaviors, Behavior, kind);
    PickSame(batch.jargons, Jargon, kind);
    PickSame(batch.memories, Memory, kind);
    PickSame(batch.profiles, Profile, kind);
  }

  lemma PackRun(batch: HistoryCandidates)
    requires batch.Sorted()
    ensures Pack(Run(batch)) == batch
  {
    hide Pick, Run;
    PickRun(batch, Expression);
    PickRun(batch, Behavior);
    PickRun(batch, Jargon);
    PickRun(batch, Memory);
    PickRun(batch, Profile);
  }

  function PackAll(runs: seq<seq<Candidate>>): (r: seq<HistoryCandidates>)
    ensures |r| == |runs| && forall k :: 0 <= k < |runs| ==> r[k] == Pack(runs[k])
  {
    seq(|runs|, k requires 0 <= k < |runs| => Pack(runs[k]))
  }

  /** The batches of a partition, or None if some candidate exceeds the budget alone. */
  function Partitioned(candidates: HistoryCandidates, b: Budget): Option<seq<HistoryCandidates>> {
    var run := Run(candidates);
    if !AllAdmissible(run, b) then None
    else if run == [] then Some([NONE])
    else Some(PackAll(CutFrom([run[0]], run[1..], b)))
  }

  predicate AllAdmissible(items: seq<Candidate>, b: Budget) {
    forall c :: c in items ==> Admissible([c], b)
  }

  /** Sorted batches whose runs are a greedy cut are the partition. */
  lemma GreedyIsPartitioned(batches: seq<HistoryCandidates>, candidates: HistoryCandidates, b: Budget)
    requires Run(candidates) != [] && AllAdmissible(Run(candidates), b)
    requires forall k :: 0 <= k < |batches| ==> batches[k].Sorted()
    requires IsGreedy(Runs(batches), Run(candidates), b)
    ensures Partitioned(candidates, b) == Some(batches)
  {
    hide Admissible, IsGreedy, Pack, Run;
    var run := Run(candidates);
    assert run == [run[0]] + run[1..];
    CutIsGreedy([run[0]], run[1..], b);
    GreedyIsUnique(Runs(batches), CutFrom([run[0]], run[1..], b), run, b);
    forall k | 0 <= k < |batches| ensures Pack(Run(batches[k])) == batches[k] {
      PackRun(batches[k]);
    }
    assert PackAll(Runs(batches)) == batches;
  }

  /** Every candidate is in exactly the batches it was cut into, in order: per kind the batches make up the input. */
  lemma {:induction false} RunsOfKind(batches: seq<HistoryCandidates>, kind: Kind)
    requires forall k :: 0 <= k < |batches| ==> batches[k].Sorted()
    ensures Pick(Flatten(Runs(batches)), kind) == Gather(batches, kind)
    decreases |batches|
  {
    hide Run;
    if batches != [] {
      var init, last := batches[..|batches| - 1], batches[|batches| - 1];
      assert Runs(batches)[..|batches| - 1] == Runs(init);
      RunsOfKind(init, kind);
      PickConcat(Flatten(Runs(init)), Run(last), kind);
      PickRun(last, kind);
    }
  }

  /** The candidates of the first `k` kinds and `n` of the next. */
  function Before(candidates: HistoryCandidates, k: nat, n: nat): seq<Candidate>
    requires k < 5 && n <= |candidates.Of(KINDS[k])|
  {
    match k
    case 0 => candidates.expressions[..n]
    case 1 => candidates.expressions + candidates.behaviors[..n]
    case 2 => candidates.expressions + candidates.behaviors + candidates.jargons[..n]
    case 3 => candidates.expressions + candidates.behaviors + candidates.jargons + candidates.memories[..n]
    case _ =>
      candidates.expressions + candidates.behaviors + candidates.jargons + candidates.memories
      + candidates.profiles[..n]
  }

  lemma BeforeNext(candidates: HistoryCandidates, k: nat, n: nat)
    requires k < 5 && n < |candidates.Of(KINDS[k])|
    ensures Before(candidates, k, n + 1) == Before(candidates, k, n) + [candidates.Of(KINDS[k])[n]]
    ensures candidates.Of(KINDS[k])[n] in Run(candidates)
  {
    var all, e := candidates.Of(KINDS[k]), candidates.expressions;
    SliceNext([], all, n);
    match k {
      case 0 => assert [] + e[..n + 1] == e[..n + 1] && [] + e[..n] == e[..n];
      case 1 => SliceNext(e, all, n);
      case 2 => SliceNext(e + candidates.behaviors, all, n);
      case 3 => SliceNext(e + candidates.behaviors + candidates.jargons, all, n);
      case _ => SliceNext(e + candidates.behaviors + candidates.jargons + candidates.memories, all, n);
    }
    RunHas(candidates, k, all[n]);
  }

  lemma SliceNext<T>(before: seq<T>, s: seq<T>, n: nat)
    requires n < |s|
    ensures before + s[..n + 1] == (before + s[..n]) + [s[n]]
  {
  }

  lemma RunHas(candidates: HistoryCandidates, k: nat, c: Candidate)
    requires k < 5 && c in candidates.Of(KINDS[k])
    ensures c in Run(candidates)
  {
  }

  lemma BeforeKind(candidates: HistoryCandidates, k: nat)
    requires k < 5
    ensures var end := Before(candidates, k, |candidates.Of(KINDS[k])|);
            if k == 4 then end == Run(candidates) else end == Before(candidates, k + 1, 0)
  {
  }

  /** The state of the loop: closed batches are greedy, and the open one has what they leave. */
  ghost predicate Filling(batches: seq<HistoryCandidates>, current: HistoryCandidates, done: seq<Candidate>, b: Budget)
  {
    && (forall k :: 0 <= k < |batches| ==> batches[k].Sorted())
    && current.Sorted() && Admissible(Run(current), b)
    && if Run(current) == [] then batches == [] && done == []
       else IsGreedy(Runs(batches) + [Run(current)], done, b)
  }

  lemma GreedyExtend(runs: seq<seq<Candidate>>, open: seq<Candidate>, done: seq<Candidate>, c: Candidate, b: Budget)
    requires open != [] && IsGreedy(runs + [open], done, b) && Admissible(open + [c], b)
    ensures IsGreedy(runs + [open + [c]], done + [c], b)
  {
    hide Admissible;
    SnocParts(runs, open);
    SnocParts(runs, open + [c]);
    var r, r' := runs + [open], runs + [open + [c]];
    forall j | 0 <= j < |r'| - 1 ensures !Admissible(r'[j] + [r'[j + 1][0]], b) {
      assert r'[j] == r[j] && r'[j + 1][0] == r[j + 1][0];
    }
  }

  lemma GreedyClose(runs: seq<seq<Candidate>>, open: seq<Candidate>, done: seq<Candidate>, c: Candidate, b: Budget)
    requires IsGreedy(runs + [open], done, b) && !Admissible(open + [c], b) && Admissible([c], b)
    ensures IsGreedy(runs + [open] + [[c]], done + [c], b)
  {
    hide Admissible;
    SnocParts(runs + [open], [c]);
    var r, r' := runs + [open], runs + [open] + [[c]];
    forall j | 0 <= j < |r'| - 1 ensures !Admissible(r'[j] + [r'[j + 1][0]], b) {
      if j < |r| - 1 {
        assert r'[j] == r[j] && r'[j + 1] == r[j + 1];
      }
    }
  }

  lemma GreedySingle(c: Candidate, b: Budget)
    requires Admissible([c], b)
    ensures IsGreedy([[c]], [c], b)
  {
    hide Admissible;
    SnocParts<seq<Candidate>>([], [c]);
    assert [] + [[c]] == [[c]] && [] + [c] == [c];
    assert Flatten([[c]]) == Flatten<Candidate>([]) + [c];
  }

  lemma FillingAdd(batches: seq<HistoryCandidates>, current: HistoryCandidates, done: seq<Candidate>, k: nat,
                   c: Candidate, b: Budget)
    requires Filling(batches, current, done, b) && k < 5 && UpTo(current, k) && c.claim.Kind() == KINDS[k]
    requires Admissible(Run(current) + [c], b)
    ensures Filling(batches, Add(current, KINDS[k], c), done + [c], b)
  {
    hide Admissible, IsGreedy;
    AddRun(current, k, c);
    if Run(current) == [] {
      assert [] + [c] == [c] && Runs([]) + [[c]] == [[c]];
      GreedySingle(c, b);
    } else {
      GreedyExtend(Runs(batches), Run(current), done, c, b);
    }
  }

  lemma FillingClose(batches: seq<HistoryCandidates>, current: HistoryCandidates, done: seq<Candidate>, k: nat,
                     c: Candidate, b: Budget)
    requires Filling(batches, current, done, b) && k < 5 && c.claim.Kind() == KINDS[k] && Run(current) != []
    requires !Admissible(Run(current) + [c], b) && Admissible([c], b)
    ensures Filling(batches + [current], Add(NONE, KINDS[k], c), done + [c], b)
  {
    hide Admissible, IsGreedy;
    AddNone(k, c);
    assert Runs(batches + [current]) == Runs(batches) + [Run(current)];
    GreedyClose(Runs(batches), Run(current), done, c, b);
  }

  lemma FillingStart(candidates: HistoryCandidates, b: Budget)
    ensures Filling([], NONE, Before(candidates, 0, 0), b)
  {
    assert FRAME_CHARS + 2 <= MAX_CANDIDATE_CHARS;
  }

  lemma SingleAdmissible(c: Candidate, b: Budget)
    ensures Admissible([c], b) <==> FitsPrompt([c], b)
  {
    assert [c][..0] == [];
    assert forall kind: Kind :: Count([c], kind) <= 1;
  }

  /** With room for one more of its kind, a candidate is kept out by the characters only. */
  lemma RoomForOne(current: HistoryCandidates, kind: Kind, c: Candidate, b: Budget)
    requires current.Sorted() && Admissible(Run(current), b) && c.claim.Kind() == kind
    ensures Admissible(Run(current) + [c], b) <==> |current.Of(kind)| < Limit(kind) && FitsPrompt(Run(current) + [c], b)
  {
    hide FitsPrompt;
    CollectionCount(current, kind);
    SnocParts(Run(current), c);
    assert Count(Run(current) + [c], kind) == |current.Of(kind)| + 1;
  }

  lemma PartAdmissible(run: seq<Candidate>, c: Candidate, b: Budget)
    requires Admissible(run + [c], b)
    ensures Admissible([c], b)
  {
    assert run + [c] + [] == run + [c];
    StretchAdmissible(run, [c], [], b);
  }

  lemma AddNone(k: nat, c: Candidate)
    requires k < 5
    ensures Run(Add(NONE, KINDS[k], c)) == [c] && UpTo(Add(NONE, KINDS[k], c), k) && Run(NONE) == []
  {
    AddRun(NONE, k, c);
    assert [] + [c] == [c];
  }

  /** One candidate of the `k`-th kind joins the open batch, or closes it and opens another; it fails if it does not
      fit a prompt alone. */
  method Place(batches: seq<HistoryCandidates>, current: HistoryCandidates, k: nat, c: Candidate, b: Budget,
               ghost done: seq<Candidate>)
    returns (ok: bool, batches': seq<HistoryCandidates>, current': HistoryCandidates)
    requires Filling(batches, current, done, b) && k < 5 && UpTo(current, k) && c.claim.Kind() == KINDS[k]
    ensures ok <==> Admissible([c], b)
    ensures ok ==> Filling(batches', current', done + [c], b) && UpTo(current', k)
  {
    hide Admissible, FitsPrompt, IsGreedy, Filling, Run;
    var kind := KINDS[k];
    batches', current' := batches, current;
    FillingOpen(batches, current, done, b);
    SingleAdmissible(c, b);
    RoomForOne(current, kind, c, b);
    AddNone(k, c);
    AddRun(current, k, c);
    RunTotal(current);
    if |current.Of(kind)| >= Limit(kind) {
      batches' := batches' + [current'];
      current' := NONE;
    }
    var bounded := current';
    current' := Add(current', kind, c);
    if !FitsPrompt(Run(current'), b) {
      if bounded.Total() == 0 {
        if Run(current) == [] {
          assert Run(current) + [c] == [c];
        }
        return false, batches', current';
      }
      batches' := batches' + [bounded];
      current' := Add(NONE, kind, c);
      if !FitsPrompt(Run(current'), b) {
        return false, batches', current';
      }
    }
    ok := true;
    if |batches'| == |batches| {
      PartAdmissible(Run(current), c, b);
      FillingAdd(batches, current, done, k, c, b);
    } else {
      FillingClose(batches, current, done, k, c, b);
    }
  }

  lemma FillingOpen(batches: seq<HistoryCandidates>, current: HistoryCandidates, done: seq<Candidate>, b: Budget)
    requires Filling(batches, current, done, b)
    ensures current.Sorted() && Admissible(Run(current), b)
  {
  }

  lemma FillingEnd(batches: seq<HistoryCandidates>, current: HistoryCandidates, candidates: HistoryCandidates,
                   b: Budget)
    requires Filling(batches, current, Run(candidates), b) && AllAdmissible(Run(candidates), b)
    ensures Partitioned(candidates, b) == Some(if current.Total() > 0 || batches == [] then batches + [current]
                                               else batches)
  {
    hide Admissible, IsGreedy;
    RunTotal(current);
    if Run(current) == [] {
      assert batches + [current] == [NONE];
    } else {
      GreedyNotEmpty(Runs(batches), Run(current), Run(candidates), b);
      assert Runs(batches + [current]) == Runs(batches) + [Run(current)];
      GreedyIsPartitioned(batches + [current], candidates, b);
    }
  }

  lemma GreedyNotEmpty(runs: seq<seq<Candidate>>, open: seq<Candidate>, done: seq<Candidate>, b: Budget)
    requires open != [] && IsGreedy(runs + [open], done, b)
    ensures done != []
  {
    SnocParts(runs, open);
  }

  function Rank(kind: Kind): (k: nat)
    ensures k < 5 && KINDS[k] == kind
  {
    match kind
    case Expression => 0
    case Behavior => 1
    case Jargon => 2
    case Memory => 3
    case Profile => 4
  }

  ghost predicate KindOrdered(run: seq<Candidate>) {
    forall i, j :: 0 <= i < j < |run| ==> Rank(run[i].claim.Kind()) <= Rank(run[j].claim.Kind())
  }

  lemma {:induction false} PickNone(run: seq<Candidate>, kind: Kind)
    requires forall c :: c in run ==> c.claim.Kind() != kind
    ensures Pick(run, kind) == []
  {
    if run != [] {
      PickNone(run[..|run| - 1], kind);
    }
  }

  /** A run in kind order is the run of the batch packed from it. */
  lemma {:induction false} RunPack(run: seq<Candidate>)
    requires KindOrdered(run)
    ensures Run(Pack(run)) == run && Pack(run).Sorted()
  {
    if run != [] {
      var init, c := run[..|run| - 1], run[|run| - 1];
      RunPack(init);
      var k := Rank(c.claim.Kind());
      LaterEmpty(init, k);
      AddRun(Pack(init), k, c);
      assert run == init + [c];
      PackSnoc(init, c);
      hide Pack, Add, Run, UpTo;
      AddSorted(Pack(init), c);
    } else {
      hide *;
      PackNothing();
    }
  }

  lemma PackNothing()
    ensures Run(Pack([])) == [] && Pack([]).Sorted()
  {
  }

  lemma PackSnoc(init: seq<Candidate>, c: Candidate)
    ensures Pack(init + [c]) == Add(Pack(init), c.claim.Kind(), c) && KINDS[Rank(c.claim.Kind())] == c.claim.Kind()
  {
    SnocParts(init, c);
  }

  lemma AddSorted(batch: HistoryCandidates, c: Candidate)
    requires batch.Sorted()
    ensures Add(batch, c.claim.Kind(), c).Sorted()
  {
  }

  lemma LaterEmpty(init: seq<Candidate>, k: nat)
    requires k < 5 && forall c :: c in init ==> Rank(c.claim.Kind()) <= k
    ensures UpTo(Pack(init), k)
  {
    hide Pick;
    forall kind: Kind | Rank(kind) > k ensures Pick(init, kind) == [] {
      PickNone(init, kind);
    }
    assert Rank(Behavior) == 1 && Rank(Jargon) == 2 && Rank(Memory) == 3 && Rank(Profile) == 4;
  }

  lemma RunOrdered(batch: HistoryCandidates)
    requires batch.Sorted()
    ensures KindOrdered(Run(batch))
  {
    var e, v, j, m, p := batch.expressions, batch.behaviors, batch.jargons, batch.memories, batch.profiles;
    OrderedConcat(e, v, 0, 1);
    OrderedConcat(e + v, j, 1, 2);
    OrderedConcat(e + v + j, m, 2, 3);
    OrderedConcat(e + v + j + m, p, 3, 4);
  }

  lemma OrderedConcat(a: seq<Candidate>, s: seq<Candidate>, lo: nat, hi: nat)
    requires lo < hi < 5 && SameKind(s, KINDS[hi])
    requires KindOrdered(a) || SameKind(a, KINDS[lo])
    requires forall c :: c in a ==> Rank(c.claim.Kind()) <= lo
    ensures KindOrdered(a + s) && forall c :: c in a + s ==> Rank(c.claim.Kind()) <= hi
  {
  }

  /** The runs of a cut of a batch's run are runs of batches. */
  lemma {:induction false} StretchesPack(runs: seq<seq<Candidate>>, run: seq<Candidate>)
    requires Flatten(runs) == run && KindOrdered(run)
    ensures forall k :: 0 <= k < |runs| ==> Run(Pack(runs[k])) == runs[k] && Pack(runs[k]).Sorted()
    decreases |runs|
  {
    hide Run, Pack;
    if runs != [] {
      var init, last := runs[..|runs| - 1], runs[|runs| - 1];
      var n := |Flatten(init)|;
      assert run == Flatten(init) + last;
      assert KindOrdered(Flatten(init)) by {
        forall i, j | 0 <= i < j < n
          ensures Rank(Flatten(init)[i].claim.Kind()) <= Rank(Flatten(init)[j].claim.Kind())
        {
          assert run[i] == Flatten(init)[i] && run[j] == Flatten(init)[j];
        }
      }
      assert KindOrdered(last) by {
        forall i, j | 0 <= i < j < |last| ensures Rank(last[i].claim.Kind()) <= Rank(last[j].claim.Kind()) {
          assert run[n + i] == last[i] && run[n + j] == last[j];
        }
      }
      StretchesPack(init, Flatten(init));
      RunPack(last);
    }
  }

  /** What a partition is: lossless and in order for every kind, each batch within every limit, none empty unless
      the input is, each closed only because the next candidate did not fit; there is none exactly when some
      candidate exceeds the budget alone. */
  lemma PartitionIs(candidates: HistoryCandidates, b: Budget)
    requires candidates.Sorted()
    ensures Partitioned(candidates, b) == None <==> exists c :: c in Run(candidates) && !Admissible([c], b)
    ensures Partitioned(candidates, b).Some? ==>
              var batches := Partitioned(candidates, b).value;
              && batches != []
              && (forall k :: 0 <= k < |batches| ==> batches[k].Sorted() && Admissible(Run(batches[k]), b))
              && (forall kind: Kind :: Gather(batches, kind) == candidates.Of(kind))
              && (if Run(candidates) == [] then batches == [NONE] else IsGreedy(Runs(batches), Run(candidates), b))
  {
    hide Admissible, IsGreedy;
    var run := Run(candidates);
    if AllAdmissible(run, b) {
      if run == [] {
        FillingStart(candidates, b);
        FillingOpen([], NONE, Before(candidates, 0, 0), b);
        assert [NONE][..0] == [];
      } else {
        assert run == [run[0]] + run[1..];
        var runs := CutFrom([run[0]], run[1..], b);
        CutIsGreedy([run[0]], run[1..], b);
        GreedyFlat(runs, run, b);
        RunOrdered(candidates);
        StretchesPack(runs, run);
        var batches := PackAll(runs);
        assert Runs(batches) == runs;
        forall kind: Kind ensures Gather(batches, kind) == candidates.Of(kind) {
          RunsOfKind(batches, kind);
          PickRun(candidates, kind);
        }
      }
    }
  }

  method PartitionCandidates(candidates: HistoryCandidates, b: Budget) returns (r: Option<seq<HistoryCandidates>>)
    requires candidates.Sorted()
    ensures r == Partitioned(candidates, b)
  {
    hide Admissible, IsGreedy, Filling, Run;
    var batches: seq<HistoryCandidates> := [];
    var current := NONE;
    FillingStart(candidates, b);
    for k := 0 to 5
      invariant k < 5 ==> UpTo(current, k)
      invariant Filling(batches, current, if k == 5 then Run(candidates) else Before(candidates, k, 0), b)
      invariant AllAdmissible(if k == 5 then Run(candidates) else Before(candidates, k, 0), b)
    {
      var list := candidates.Of(KINDS[k]);
      for n := 0 to |list|
        invariant UpTo(current, k)
        invariant Filling(batches, current, Before(candidates, k, n), b)
        invariant AllAdmissible(Before(candidates, k, n), b)
      {
        BeforeNext(candidates, k, n);
        var ok;
        ok, batches, current := Place(batches, current, k, list[n], b, Before(candidates, k, n));
        if !ok {
          return None;
        }
      }
      BeforeKind(candidates, k);
    }
    FillingEnd(batches, current, candidates, b);
    if current.Total() > 0 || batches == [] {
      batches := batches + [current];
    }
    return Some(batches);
  }
}
