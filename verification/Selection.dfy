/**
 Choosing a budget of windows, spread over time and covering the participants that matter.
 */
module Selection {
  import opened Seqs
  import opened Windows

  datatype Summary = Summary(id: WindowId, senderIds: set<string>, signalScore: real)

  /** The chosen indices, in the order they were chosen, and the priority senders they cover. */
  datatype Picks = Picks(order: seq<nat>, covered: set<string>)

  datatype Task = Task(candidates: seq<Summary>, budget: nat, priority: set<string>) {
    /** More candidates than can be chosen. */
    predicate Valid() {
      0 < budget < |candidates|
    }

    function Slots(): (d: nat)
      ensures d > 0
    {
      if budget > 2 then budget - 1 else 1
    }

    /** Where in time a slot would like its window. */
    function Target(slot: nat): real
      requires Valid()
    {
      (slot * (|candidates| - 1)) as real / Slots() as real
    }

    function Distance(slot: nat, index: nat): (d: real)
      requires Valid()
      ensures d >= 0.0
    {
      if index as real >= Target(slot) then index as real - Target(slot) else Target(slot) - index as real
    }

    function Score(slot: nat, covered: set<string>, index: nat): real
      requires Valid() && index < |candidates|
    {
      |candidates[index].senderIds * priority - covered| as real * 5.0
      + candidates[index].signalScore - Distance(slot, index) * 0.75
    }

    /** A higher score, then a smaller distance, then a smaller index. */
    predicate Better(slot: nat, covered: set<string>, i: nat, j: nat)
      requires Valid() && i < |candidates| && j < |candidates|
    {
      var a, b := Score(slot, covered, i), Score(slot, covered, j);
      var c, d := Distance(slot, i), Distance(slot, j);
      a > b || (a == b && (c < d || (c == d && i < j)))
    }
  }

  // ----- one slot

  /** The priority senders a window would add. */
  ghost function Added(t: Task, covered: set<string>, i: nat): set<string>
    requires i < |t.candidates|
  {
    set sender | sender in t.candidates[i].senderIds && sender in t.priority && sender !in covered
  }

  /** How far a window is from a slot's place in time, in steps of one place divided by `Steps`, the slots being spread
      evenly from the first window to the last. */
  ghost function Away(t: Task, slot: nat, i: nat): nat
    requires t.Valid()
  {
    var gap := i * Steps(t) - slot * (|t.candidates| - 1);
    if gap >= 0 then gap else -gap
  }

  ghost function Steps(t: Task): (d: nat)
    ensures d > 0
  {
    if t.budget > 2 then t.budget - 1 else 1
  }

  /** Window i is the better one for the slot: every priority sender it adds is worth 5, its signal its score, and every
      place away costs 3/4; then the nearer window is better, and then the earlier one. */
  ghost predicate Wins(t: Task, slot: nat, covered: set<string>, i: nat, j: nat)
    requires t.Valid() && i < |t.candidates| && j < |t.candidates|
  {
    var gain := (|Added(t, covered, i)| - |Added(t, covered, j)|) as real * 5.0
                + (t.candidates[i].signalScore - t.candidates[j].signalScore);
    var cost := (Away(t, slot, i) - Away(t, slot, j)) as real * 0.75 / Steps(t) as real;
    || gain > cost
    || (gain == cost && (Away(t, slot, i) < Away(t, slot, j) || (Away(t, slot, i) == Away(t, slot, j) && i < j)))
  }

  ghost predicate IsBest(t: Task, slot: nat, p: Picks, best: nat, n: nat)
    requires t.Valid() && n <= |t.candidates|
  {
    && best < n && best !in p.order
    && forall i :: 0 <= i < n && i !in p.order && i != best ==> Wins(t, slot, p.covered, best, i)
  }

  lemma AwayIs(t: Task, slot: nat, i: nat)
    requires t.Valid()
    ensures Away(t, slot, i) as real == t.Distance(slot, i) * Steps(t) as real
  {
    var n, d := |t.candidates| - 1, t.Slots();
    var gap, target := i * d - slot * n, t.Target(slot);
    assert target * d as real == (slot * n) as real;
    assert (i as real - target) * d as real == gap as real by {
      assert (i * d) as real == i as real * d as real;
    }
    ScaledSign(i as real - target, d as real, gap as real);
  }

  lemma ScaledSign(x: real, d: real, y: real)
    requires d > 0.0 && x * d == y
    ensures x >= 0.0 <==> y >= 0.0
    ensures -x * d == -y
  {
  }

  lemma Scaled(x: real, y: real, d: real, a: int, b: int)
    requires d > 0.0 && a as real == x * d && b as real == y * d
    ensures (a - b) as real * 0.75 / d == (x - y) * 0.75
    ensures (a < b <==> x < y) && (a == b <==> x == y)
  {
    assert (a - b) as real == (x - y) * d;
    assert (x - y) * d * 0.75 / d == (x - y) * 0.75;
    ScaledSign(x - y, d, (a - b) as real);
    ScaledSign(y - x, d, (b - a) as real);
  }

  lemma Compared(m: int, x: real, d: real, n: int, y: real, e: real)
    ensures var a, b := m as real * 5.0 + x - d * 0.75, n as real * 5.0 + y - e * 0.75;
            var gain, cost := (m - n) as real * 5.0 + (x - y), (d - e) * 0.75;
            (a > b <==> gain > cost) && (a == b <==> gain == cost)
  {
  }

  lemma AddedIs(t: Task, covered: set<string>, i: nat)
    requires i < |t.candidates|
    ensures Added(t, covered, i) == t.candidates[i].senderIds * t.priority - covered
  {
  }

  lemma WinsIs(t: Task, slot: nat, covered: set<string>, i: nat, j: nat)
    requires t.Valid() && i < |t.candidates| && j < |t.candidates|
    ensures Wins(t, slot, covered, i, j) <==> t.Better(slot, covered, i, j)
  {
    hide Away, t.Distance, Steps, Added;
    AwayIs(t, slot, i);
    AwayIs(t, slot, j);
    var x, y := t.Distance(slot, i), t.Distance(slot, j);
    Scaled(x, y, Steps(t) as real, Away(t, slot, i), Away(t, slot, j));
    AddedIs(t, covered, i);
    AddedIs(t, covered, j);
    Compared(|Added(t, covered, i)|, t.candidates[i].signalScore, x, |Added(t, covered, j)|,
             t.candidates[j].signalScore, y);
  }

  lemma BestIsUnique(t: Task, slot: nat, p: Picks, i: nat, j: nat, n: nat)
    requires t.Valid() && n <= |t.candidates| && IsBest(t, slot, p, i, n) && IsBest(t, slot, p, j, n)
    ensures i == j
  {
    hide Wins, t.Better;
    if i != j {
      BetterTotal(t, slot, p.covered, i, j);
      WinsIs(t, slot, p.covered, i, j);
      WinsIs(t, slot, p.covered, j, i);
    }
  }

  lemma BetterTransitive(t: Task, slot: nat, covered: set<string>, i: nat, j: nat, k: nat)
    requires t.Valid() && i < |t.candidates| && j < |t.candidates| && k < |t.candidates|
    requires t.Better(slot, covered, i, j) && t.Better(slot, covered, j, k)
    ensures t.Better(slot, covered, i, k)
  {
  }

  /** The best index among the unselected of the first `n`, if any. */
  function BestFrom(t: Task, slot: nat, p: Picks, n: nat): (r: int)
    requires t.Valid() && n <= |t.candidates|
    ensures -1 <= r < n
  {
    if n == 0 then -1
    else
      var r := BestFrom(t, slot, p, n - 1);
      if n - 1 in p.order then r
      else if r < 0 || t.Better(slot, p.covered, n - 1, r) then n - 1
      else r
  }

  lemma {:induction false} BestFromIs(t: Task, slot: nat, p: Picks, n: nat)
    requires t.Valid() && n <= |t.candidates|
    ensures var r := BestFrom(t, slot, p, n);
            if r < 0 then forall i :: 0 <= i < n ==> i in p.order else IsBest(t, slot, p, r, n)
  {
    hide t.Better, Wins;
    if n > 0 {
      BestFromIs(t, slot, p, n - 1);
      var q, r := BestFrom(t, slot, p, n - 1), BestFrom(t, slot, p, n);
      if n - 1 !in p.order && q >= 0 {
        BetterTotal(t, slot, p.covered, q, n - 1);
        WinsIs(t, slot, p.covered, q, n - 1);
        WinsIs(t, slot, p.covered, n - 1, q);
        if r == n - 1 {
          forall i | 0 <= i < n - 1 && i !in p.order && i != q ensures Wins(t, slot, p.covered, r, i) {
            WinsIs(t, slot, p.covered, q, i);
            BetterTransitive(t, slot, p.covered, r, q, i);
            WinsIs(t, slot, p.covered, r, i);
          }
        }
      }
    }
  }

  lemma BetterTotal(t: Task, slot: nat, covered: set<string>, i: nat, j: nat)
    requires t.Valid() && i < |t.candidates| && j < |t.candidates| && i != j
    ensures t.Better(slot, covered, i, j) != t.Better(slot, covered, j, i)
  {
  }

  method PickSlot(t: Task, slot: nat, p: Picks) returns (best: int)
    requires t.Valid()
    ensures best == BestFrom(t, slot, p, |t.candidates|)
  {
    best := -1;
    for index := 0 to |t.candidates|
      invariant best == BestFrom(t, slot, p, index)
    {
      if index !in p.order {
        if best < 0 || t.Better(slot, p.covered, index, best) {
          best := index;
        }
      }
    }
  }

  // ----- all slots

  function Picked(t: Task, k: nat): (p: Picks)
    requires t.Valid() && k <= t.budget
  {
    if k == 0 then Picks([], {})
    else
      var p := Picked(t, k - 1);
      var best := BestFrom(t, k - 1, p, |t.candidates|);
      if best < 0 then p
      else Picks(p.order + [best], p.covered + t.candidates[best].senderIds * t.priority)
  }

  function Range(n: nat): (r: seq<nat>)
    ensures |r| == n && forall k :: 0 <= k < n ==> r[k] == k
  {
    seq(n, k => k)
  }

  lemma Pigeons(order: seq<nat>, n: nat)
    requires |order| < n
    ensures exists i :: 0 <= i < n && i !in order
  {
    if forall i :: 0 <= i < n ==> i in order {
      Pigeonhole(Range(n), order);
    }
  }

  /** Each slot takes the unique best of the windows no earlier slot took. */
  lemma {:induction false} EachSlotBest(t: Task, k: nat)
    requires t.Valid() && k <= t.budget
    ensures var p := Picked(t, k);
            && |p.order| == k && NoRepeats(p.order)
            && (forall j :: 0 <= j < k ==> p.order[j] < |t.candidates|)
            && (k > 0 ==> p.order[..k - 1] == Picked(t, k - 1).order
                          && IsBest(t, k - 1, Picked(t, k - 1), p.order[k - 1], |t.candidates|))
  {
    hide IsBest, BestFrom;
    if k > 0 {
      EachSlotBest(t, k - 1);
      var p := Picked(t, k - 1);
      BestFromIs(t, k - 1, p, |t.candidates|);
      Pigeons(p.order, |t.candidates|);
      BestNotTaken(t, k - 1, p);
      SnocNoRepeats(p.order, BestFrom(t, k - 1, p, |t.candidates|));
    }
  }

  lemma SnocNoRepeats(order: seq<nat>, i: nat)
    requires NoRepeats(order) && i !in order
    ensures NoRepeats(order + [i])
  {
  }

  lemma BestNotTaken(t: Task, slot: nat, p: Picks)
    requires t.Valid()
    ensures var r := BestFrom(t, slot, p, |t.candidates|); r >= 0 ==> r !in p.order
  {
    BestFromIs(t, slot, p, |t.candidates|);
  }

  /** The priority senders of the windows taken. */
  ghost function CoveredBy(t: Task, order: seq<nat>): set<string> {
    set sender | sender in t.priority && SeenIn(t, order, sender)
  }

  ghost predicate SeenIn(t: Task, order: seq<nat>, sender: string) {
    exists j :: 0 <= j < |order| && order[j] < |t.candidates| && sender in t.candidates[order[j]].senderIds
  }

  /** Slot after slot, the windows taken: each wins over all that are left, given the senders covered before. */
  ghost predicate Chooses(t: Task, order: seq<nat>, n: nat)
    requires t.Valid()
  {
    |order| == n && forall k :: 0 <= k < n ==> IsBest(t, k, PicksOf(t, order[..k]), order[k], |t.candidates|)
  }

  ghost function PicksOf(t: Task, order: seq<nat>): Picks {
    Picks(order, CoveredBy(t, order))
  }

  lemma CoversMore(t: Task, order: seq<nat>, i: nat)
    requires i < |t.candidates|
    ensures CoveredBy(t, order + [i]) == CoveredBy(t, order) + t.candidates[i].senderIds * t.priority
  {
    forall sender | sender in t.priority
      ensures SeenIn(t, order + [i], sender) <==> SeenIn(t, order, sender) || sender in t.candidates[i].senderIds
    {
      if SeenIn(t, order, sender) {
        var j :| 0 <= j < |order| && order[j] < |t.candidates| && sender in t.candidates[order[j]].senderIds;
        assert (order + [i])[j] == order[j];
      }
      assert (order + [i])[|order|] == i;
    }
  }

  lemma CoversNothing(t: Task)
    ensures CoveredBy(t, []) == {}
  {
  }

  /** The covered senders are those of the windows taken. */
  lemma {:induction false} PickedCovers(t: Task, k: nat)
    requires t.Valid() && k <= t.budget
    ensures Picked(t, k).covered == CoveredBy(t, Picked(t, k).order)
  {
    hide CoveredBy;
    if k == 0 {
      CoversNothing(t);
    } else {
      PickedCovers(t, k - 1);
      var p := Picked(t, k - 1);
      var best := BestFrom(t, k - 1, p, |t.candidates|);
      if best >= 0 {
        CoversMore(t, p.order, best);
      }
    }
  }

  /** The slots' windows are such a choice, and no others are. */
  lemma {:induction false} ChoosesOnce(t: Task, k: nat)
    requires t.Valid() && k <= t.budget
    ensures forall order :: Chooses(t, order, k) <==> order == Picked(t, k).order
  {
    hide Picked, IsBest, CoveredBy;
    EachSlotBest(t, k);
    if k == 0 {
      NothingPicked(t);
    } else {
      ChoosesOnce(t, k - 1);
      PickedCovers(t, k - 1);
      var picked := Picked(t, k).order;
      forall order ensures Chooses(t, order, k) <==> order == picked {
        ChoosesInit(t, order, k);
        if Chooses(t, order, k) {
          BestIsUnique(t, k - 1, Picked(t, k - 1), order[k - 1], picked[k - 1], |t.candidates|);
          assert order == order[..k - 1] + [order[k - 1]] && picked == picked[..k - 1] + [picked[k - 1]];
        }
      }
    }
  }

  lemma NothingPicked(t: Task)
    requires t.Valid()
    ensures Picked(t, 0).order == []
  {
  }

  lemma ChoosesInit(t: Task, order: seq<nat>, k: nat)
    requires t.Valid() && k > 0
    ensures Chooses(t, order, k) <==>
            |order| == k && Chooses(t, order[..k - 1], k - 1)
            && IsBest(t, k - 1, PicksOf(t, order[..k - 1]), order[k - 1], |t.candidates|)
  {
    hide IsBest, CoveredBy;
    if |order| == k {
      var init := order[..k - 1];
      forall j | 0 <= j < k - 1 ensures init[..j] == order[..j] && init[j] == order[j] {
      }
    }
  }

  /** The chosen candidates among the first `n`, in input order. */
  function Listed(candidates: seq<Summary>, order: seq<nat>, n: nat): seq<Summary>
    requires n <= |candidates|
  {
    if n == 0 then []
    else if n - 1 in order then Listed(candidates, order, n - 1) + [candidates[n - 1]]
    else Listed(candidates, order, n - 1)
  }

  /** The windows at the chosen places. */
  ghost function ChosenAt(candidates: seq<Summary>, order: seq<nat>): (nat, Summary) -> bool {
    (k: nat, c: Summary) => k < |candidates| && k in order && c == candidates[k]
  }

  lemma {:induction false} ListedAre(candidates: seq<Summary>, order: seq<nat>, n: nat)
    requires n <= |candidates|
    ensures Yields(Listed(candidates, order, n), n, ChosenAt(candidates, order))
  {
    hide Yields;
    var gives := ChosenAt(candidates, order);
    if n == 0 {
      NothingYields([], gives);
    } else {
      ListedAre(candidates, order, n - 1);
      YieldsSnoc(Listed(candidates, order, n - 1), n - 1, gives);
      assert n - 1 in order ==> gives(n - 1, candidates[n - 1]);
    }
  }

  /** What a selection is: the windows of the one choice there is, in input order. */
  ghost predicate Selected(r: seq<Summary>, t: Task)
    requires t.Valid()
  {
    exists order :: Chooses(t, order, t.budget) && Yields(r, |t.candidates|, ChosenAt(t.candidates, order))
  }

  /** There is one selection. */
  lemma SelectedIs(t: Task)
    requires t.Valid()
    ensures forall r :: Selected(r, t) <==> r == Listed(t.candidates, Picked(t, t.budget).order, |t.candidates|)
  {
    hide Chooses, Picked, Yields;
    ChoosesOnce(t, t.budget);
    var order := Picked(t, t.budget).order;
    ListedAre(t.candidates, order, |t.candidates|);
    forall r | Selected(r, t) ensures r == Listed(t.candidates, order, |t.candidates|) {
      YieldsOnce(r, Listed(t.candidates, order, |t.candidates|), |t.candidates|, ChosenAt(t.candidates, order));
    }
  }

  method SelectHistoryWindows(candidates: seq<Summary>, budget: int, priority: set<string>) returns (r: seq<Summary>)
    ensures budget <= 0 ==> r == []
    ensures 0 < budget && |candidates| <= budget ==> r == candidates
    ensures 0 < budget < |candidates| ==>
              var t := Task(candidates, budget, priority);
              Selected(r, t) && r == Listed(candidates, Picked(t, budget).order, |candidates|)
  {
    if budget <= 0 || candidates == [] {
      return [];
    }
    if |candidates| <= budget {
      return candidates;
    }
    var t := Task(candidates, budget, priority);
    var p := Picks([], {});
    for slot := 0 to budget
      invariant p == Picked(t, slot)
    {
      var best := PickSlot(t, slot, p);
      if best >= 0 {
        p := Picks(p.order + [best], p.covered + candidates[best].senderIds * priority);
      }
    }
    r := [];
    for index := 0 to |candidates|
      invariant r == Listed(candidates, p.order, index)
    {
      if index in p.order {
        r := r + [candidates[index]];
      }
    }
    SelectedIs(t);
  }

  /** The number of windows selected: the budget, or all there are. */
  lemma {:induction false} ListedCount(candidates: seq<Summary>, order: seq<nat>, n: nat)
    requires n <= |candidates|
    ensures |Listed(candidates, order, n)| == |set i: nat | 0 <= i < n && i in order|
  {
    if n > 0 {
      ListedCount(candidates, order, n - 1);
      var a, b := set i: nat | 0 <= i < n - 1 && i in order, set i: nat | 0 <= i < n && i in order;
      if n - 1 in order {
        assert b == a + {n - 1};
      } else {
        assert b == a;
      }
    }
  }

  lemma {:induction false} OrderCount(order: seq<nat>, n: nat)
    requires NoRepeats(order) && forall k :: 0 <= k < |order| ==> order[k] < n
    ensures |set i: nat | 0 <= i < n && i in order| == |order|
  {
    var s := set i: nat | 0 <= i < n && i in order;
    if order == [] {
      assert s == {};
    } else {
      var init, last := order[..|order| - 1], order[|order| - 1];
      OrderCount(init, n);
      assert order == init + [last];
      assert last !in init;
      assert s == (set i: nat | 0 <= i < n && i in init) + {last};
    }
  }

  lemma BudgetIsSpent(t: Task)
    requires t.Valid()
    ensures |Listed(t.candidates, Picked(t, t.budget).order, |t.candidates|)| == t.budget
  {
    EachSlotBest(t, t.budget);
    ListedCount(t.candidates, Picked(t, t.budget).order, |t.candidates|);
    OrderCount(Picked(t, t.budget).order, |t.candidates|);
  }

  // ----- spread

  /** Nothing but time distinguishes the windows. */
  ghost predicate Uniform(t: Task) {
    t.priority == {} && forall i, j :: 0 <= i < |t.candidates| && 0 <= j < |t.candidates| ==>
                                         t.candidates[i].signalScore == t.candidates[j].signalScore
  }

  function Stride(t: Task): real
    requires t.Valid()
  {
    (|t.candidates| - 1) as real / t.Slots() as real
  }

  lemma TargetStep(t: Task, slot: nat)
    requires t.Valid()
    ensures t.Target(slot + 1) == t.Target(slot) + Stride(t)
  {
    var n, d := |t.candidates| - 1, t.Slots() as real;
    assert ((slot + 1) * n) as real == (slot * n) as real + n as real;
    DivideSum((slot * n) as real, n as real, d);
  }

  lemma DivideSum(a: real, b: real, d: real)
    requires d > 0.0
    ensures (a + b) / d == a / d + b / d
  {
  }

  lemma StrideLong(t: Task)
    requires t.Valid() && t.budget >= 2
    ensures Stride(t) > 1.0
  {
    var n, d := (|t.candidates| - 1) as real, t.Slots() as real;
    assert n > d;
    DivideMore(n, d);
  }

  lemma DivideMore(n: real, d: real)
    requires n > d > 0.0
    ensures n / d > 1.0
  {
    assert n / d * d == n;
  }

  lemma {:induction false} TargetApart(t: Task, j: nat, k: nat)
    requires t.Valid() && t.budget >= 2 && j < k
    ensures t.Target(k) - t.Target(j) > 1.0
    decreases k
  {
    StrideLong(t);
    TargetStep(t, k - 1);
    if j < k - 1 {
      TargetApart(t, j, k - 1);
    }
  }

  lemma TargetEnds(t: Task)
    requires t.Valid() && t.budget >= 2
    ensures t.Target(0) == 0.0 && t.Target(t.budget - 1) == (|t.candidates| - 1) as real
  {
    var n, d := |t.candidates| - 1, t.budget - 1;
    assert t.Slots() == d;
    assert (d * n) as real == d as real * n as real;
    DivideBack(d as real, n as real);
  }

  lemma DivideBack(d: real, n: real)
    requires d > 0.0
    ensures d * n / d == n
  {
  }

  lemma {:induction false} TargetInside(t: Task, slot: nat)
    requires t.Valid() && slot < t.budget
    ensures 0.0 <= t.Target(slot) <= (|t.candidates| - 1) as real
  {
    if t.budget >= 2 {
      TargetEnds(t);
      if slot > 0 {
        TargetApart(t, 0, slot);
      }
      if slot < t.budget - 1 {
        TargetApart(t, slot, t.budget - 1);
      }
    }
  }

  /** The index nearest to a target, the lower one of two. */
  function Nearest(x: real): (r: int)
    ensures x - 0.5 <= r as real <= x + 0.5
  {
    if x - x.Floor as real <= 0.5 then x.Floor else x.Floor + 1
  }

  /** The first `k` slots' windows are within one half of where the slots want them. */
  ghost predicate AllNear(t: Task, order: seq<nat>, k: nat)
    requires t.Valid()
  {
    |order| == k && forall j :: 0 <= j < k ==> t.Distance(j, order[j]) <= 0.5
  }

  lemma LastBest(t: Task, slot: nat)
    requires t.Valid() && slot < t.budget
    ensures |Picked(t, slot + 1).order| == slot + 1
    ensures IsBest(t, slot, Picked(t, slot), Picked(t, slot + 1).order[slot], |t.candidates|)
  {
    hide IsBest, Picked;
    EachSlotBest(t, slot + 1);
  }

  /** With nothing but time to go by, every slot's window is within one half of where the slot wants it. */
  lemma {:induction false} Spread(t: Task, k: nat)
    requires t.Valid() && Uniform(t) && k <= t.budget
    ensures AllNear(t, Picked(t, k).order, k)
  {
    hide IsBest, Wins, Picked, t.Distance, t.Target, Uniform;
    if k == 0 {
      NothingPicked(t);
    } else {
      Spread(t, k - 1);
      SpreadSlot(t, k - 1);
      EachSlotBest(t, k);
      forall j | 0 <= j < k ensures t.Distance(j, Picked(t, k).order[j]) <= 0.5 {
        if j < k - 1 {
          assert Picked(t, k).order[j] == Picked(t, k).order[..k - 1][j];
        }
      }
    }
  }

  /** A slot takes the window nearest to its target if the earlier slots' windows are within one half of theirs. */
  lemma SpreadSlot(t: Task, slot: nat)
    requires t.Valid() && Uniform(t) && slot < t.budget
    requires AllNear(t, Picked(t, slot).order, slot)
    ensures |Picked(t, slot + 1).order| == slot + 1 && Picked(t, slot + 1).order[slot] == Nearest(t.Target(slot))
    ensures t.Distance(slot, Picked(t, slot + 1).order[slot]) <= 0.5
  {
    hide Picked, t.Target, t.Distance, Nearest, Uniform, IsBest, AllNear;
    LastBest(t, slot);
    var p, n := Picked(t, slot), |t.candidates|;
    TargetInside(t, slot);
    var r := Nearest(t.Target(slot));
    NearestFree(t, slot, r);
    NearestClose(t, slot, r);
    NearestIsBest(t, slot, p, r);
    BestIsUnique(t, slot, p, Picked(t, slot + 1).order[slot], r, n);
  }

  lemma NearestIsBest(t: Task, slot: nat, p: Picks, r: nat)
    requires t.Valid() && Uniform(t) && r < |t.candidates| && r == Nearest(t.Target(slot)) && r !in p.order
    ensures IsBest(t, slot, p, r, |t.candidates|)
  {
    hide t.Target, t.Better, Nearest, Uniform, Wins;
    forall i | 0 <= i < |t.candidates| && i !in p.order && i != r ensures Wins(t, slot, p.covered, r, i) {
      NearestWins(t, slot, p.covered, r, i);
      WinsIs(t, slot, p.covered, r, i);
    }
  }

  lemma NearestClose(t: Task, slot: nat, r: nat)
    requires t.Valid() && r == Nearest(t.Target(slot))
    ensures t.Distance(slot, r) <= 0.5
  {
    hide t.Target;
  }

  lemma NearestWins(t: Task, slot: nat, covered: set<string>, r: nat, i: nat)
    requires t.Valid() && Uniform(t) && r < |t.candidates| && i < |t.candidates|
    requires r == Nearest(t.Target(slot)) && i != r
    ensures t.Better(slot, covered, r, i)
  {
    assert t.candidates[i].senderIds * t.priority - covered == {} == t.candidates[r].senderIds * t.priority - covered;
    NearestIsNearer(t, slot, r, i);
    hide t.Target, t.Distance, Nearest;
  }

  lemma NearestIsNearer(t: Task, slot: nat, r: nat, i: nat)
    requires t.Valid() && r == Nearest(t.Target(slot)) && i != r
    ensures t.Distance(slot, r) < t.Distance(slot, i) || (t.Distance(slot, r) == t.Distance(slot, i) && r < i)
  {
    hide t.Target;
    var x := t.Target(slot);
    if i < r {
      assert i as real <= r as real - 1.0;
    } else {
      assert i as real >= r as real + 1.0;
    }
  }

  lemma NearestFree(t: Task, slot: nat, r: int)
    requires t.Valid() && slot < t.budget && r == Nearest(t.Target(slot))
             && 0.0 <= t.Target(slot) <= (|t.candidates| - 1) as real
    requires AllNear(t, Picked(t, slot).order, slot)
    ensures 0 <= r < |t.candidates| && r !in Picked(t, slot).order
  {
    var order := Picked(t, slot).order;
    forall j | 0 <= j < slot ensures order[j] != r {
      TargetApart(t, j, slot);
      assert t.Distance(j, order[j]) <= 0.5;
    }
  }

  /** The slots' windows are in time order, at most a stride and one apart, and both ends are chosen. */
  lemma SpreadEvenly(t: Task)
    requires t.Valid() && Uniform(t) && t.budget >= 2
    ensures var order := Picked(t, t.budget).order;
            && |order| == t.budget
            && order[0] == 0 && order[t.budget - 1] == |t.candidates| - 1
            && forall j :: 0 <= j < t.budget - 1 ==>
               order[j] < order[j + 1] && (order[j + 1] - order[j]) as real <= Stride(t) + 1.0
  {
    Spread(t, t.budget);
    TargetEnds(t);
    var order := Picked(t, t.budget).order;
    assert t.Distance(0, order[0]) <= 0.5 && t.Distance(t.budget - 1, order[t.budget - 1]) <= 0.5;
    forall j | 0 <= j < t.budget - 1
      ensures order[j] < order[j + 1] && (order[j + 1] - order[j]) as real <= Stride(t) + 1.0
    {
      assert t.Distance(j, order[j]) <= 0.5 && t.Distance(j + 1, order[j + 1]) <= 0.5;
      TargetStep(t, j);
      TargetApart(t, j, j + 1);
    }
  }
}
