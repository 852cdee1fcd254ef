/** Sequences without repeats: keeping first occurrences in order, and cutting to a length. */
module Seqs {

  /** First occurrences, in order, as an insertion-ordered dictionary keeps its keys. */
  function Distinct<T(==)>(s: seq<T>): (r: seq<T>)
    ensures |r| <= |s|
  {
    if s == [] then []
    else
      var init := s[..|s| - 1];
      var d := Distinct(init);
      if s[|s| - 1] in init then d else d + [s[|s| - 1]]
  }

  function First<T>(s: seq<T>, n: nat): (r: seq<T>)
    ensures |r| <= n && r <= s
  {
    if |s| <= n then s else s[..n]
  }

  function FirstDistinct<T(==)>(s: seq<T>, n: nat): seq<T> {
    First(Distinct(s), n)
  }

  predicate NoRepeats<T(==)>(s: seq<T>) {
    forall i, j :: 0 <= i < j < |s| ==> s[i] != s[j]
  }

  lemma SnocParts<T>(s: seq<T>, x: T)
    ensures (s + [x])[..|s + [x]| - 1] == s && (s + [x])[|s + [x]| - 1] == x
  {
  }

  lemma {:induction false} DistinctMembers<T>(s: seq<T>)
    ensures forall x :: x in Distinct(s) <==> x in s
    ensures NoRepeats(Distinct(s))
  {
    if s != [] {
      var init := s[..|s| - 1];
      DistinctMembers(init);
      assert s == init + [s[|s| - 1]];
    }
  }

  lemma {:induction false} DistinctHas<T>(s: seq<T>, x: T)
    ensures x in Distinct(s) <==> x in s
  {
    if s != [] {
      DistinctHas(s[..|s| - 1], x);
      assert s == s[..|s| - 1] + [s[|s| - 1]];
    }
  }

  lemma {:induction false} DistinctId<T>(s: seq<T>)
    requires NoRepeats(s)
    ensures Distinct(s) == s
  {
    if s != [] {
      DistinctId(s[..|s| - 1]);
    }
  }

  /** Appending only adds at the end. */
  lemma {:induction false} DistinctPrefix<T>(a: seq<T>, b: seq<T>)
    ensures Distinct(a) <= Distinct(a + b)
    decreases |b|
  {
    if b == [] {
      assert a + b == a;
    } else {
      var init := b[..|b| - 1];
      assert (a + b)[..|a + b| - 1] == a + init;
      DistinctPrefix(a, init);
    }
  }

  lemma {:induction false} DistinctLeft<T>(a: seq<T>, b: seq<T>)
    ensures Distinct(Distinct(a) + b) == Distinct(a + b)
    decreases |b|
  {
    DistinctMembers(a);
    if b == [] {
      assert a + b == a && Distinct(a) + b == Distinct(a);
      DistinctId(Distinct(a));
    } else {
      var init := b[..|b| - 1];
      assert (a + b)[..|a + b| - 1] == a + init;
      assert (Distinct(a) + b)[..|Distinct(a) + b| - 1] == Distinct(a) + init;
      DistinctLeft(a, init);
    }
  }

  lemma DistinctSnoc<T>(s: seq<T>, x: T)
    ensures Distinct(s + [x]) == if x in s then Distinct(s) else Distinct(s) + [x]
  {
    SnocParts(s, x);
  }

  lemma {:induction false} DistinctRight<T>(a: seq<T>, b: seq<T>)
    ensures Distinct(a + Distinct(b)) == Distinct(a + b)
    decreases |b|
  {
    if b != [] {
      hide Distinct;
      var init, x := b[..|b| - 1], b[|b| - 1];
      assert b == init + [x] && a + b == (a + init) + [x];
      DistinctRight(a, init);
      DistinctHas(init, x);
      DistinctSnoc(init, x);
      DistinctSnoc(a + init, x);
      if x !in init {
        assert a + Distinct(b) == (a + Distinct(init)) + [x];
        DistinctSnoc(a + Distinct(init), x);
        assert x in a + Distinct(init) <==> x in a;
      }
    }
  }

  lemma {:induction false} Pigeonhole<T>(a: seq<T>, b: seq<T>)
    requires NoRepeats(a) && forall x :: x in a ==> x in b
    ensures |a| <= |b|
    decreases |a|
  {
    if a != [] {
      var x := a[0];
      assert x in b;
      var i :| 0 <= i < |b| && b[i] == x;
      var b' := b[..i] + b[i + 1..];
      forall y | y in a[1..] ensures y in b' {
        assert y in a && y in b;
        var j :| 0 <= j < |b| && b[j] == y;
        assert b[j] != x;
        assert j < i || b[j] == b[i + 1..][j - i - 1];
      }
      Pigeonhole(a[1..], b');
    }
  }

  /** Cutting the left part first changes nothing. */
  lemma CutLeft<T>(u: seq<T>, v: seq<T>, n: nat)
    ensures FirstDistinct(FirstDistinct(u, n) + v, n) == FirstDistinct(u + v, n)
  {
    DistinctPrefix(u, v);
    DistinctMembers(u);
    var f := FirstDistinct(u, n);
    if |Distinct(u)| <= n {
      DistinctLeft(u, v);
    } else {
      DistinctId(f);
      DistinctPrefix(f, v);
    }
  }

  /** Cutting the right part first changes nothing. */
  lemma CutRight<T>(u: seq<T>, v: seq<T>, n: nat)
    ensures FirstDistinct(u + FirstDistinct(v, n), n) == FirstDistinct(u + v, n)
  {
    DistinctRight(u, v);
    DistinctMembers(v);
    var d := Distinct(v);
    if |d| > n {
      var w := u + d[..n];
      assert u + d == w + d[n..];
      DistinctPrefix(w, d[n..]);
      DistinctMembers(w);
      forall x | x in d[..n] ensures x in Distinct(w) {
        DistinctHas(w, x);
      }
      Pigeonhole(d[..n], Distinct(w));
    }
  }

  lemma FirstMembers<T>(s: seq<T>, n: nat)
    ensures forall x :: x in First(s, n) ==> x in s
  {
  }

  lemma CutDistinct<T>(s: seq<T>, n: nat)
    ensures Distinct(FirstDistinct(s, n)) == FirstDistinct(s, n)
    ensures forall x :: x in FirstDistinct(s, n) ==> x in s
    ensures NoRepeats(FirstDistinct(s, n))
  {
    DistinctMembers(s);
    DistinctId(FirstDistinct(s, n));
    forall x | x in FirstDistinct(s, n) ensures x in s {
      FirstMembers(Distinct(s), n);
      DistinctHas(s, x);
    }
  }

  function Filter<T>(keep: T -> bool, s: seq<T>): (r: seq<T>)
    ensures |r| <= |s|
  {
    if s == [] then []
    else if keep(s[|s| - 1]) then Filter(keep, s[..|s| - 1]) + [s[|s| - 1]] else Filter(keep, s[..|s| - 1])
  }

  lemma {:induction false} FilterMembers<T>(keep: T -> bool, s: seq<T>)
    ensures forall x :: x in Filter(keep, s) <==> x in s && keep(x)
  {
    if s != [] {
      FilterMembers(keep, s[..|s| - 1]);
      assert s == s[..|s| - 1] + [s[|s| - 1]];
    }
  }

  lemma {:induction false} FilterAll<T>(keep: T -> bool, s: seq<T>)
    requires forall x :: x in s ==> keep(x)
    ensures Filter(keep, s) == s
  {
    if s != [] {
      FilterAll(keep, s[..|s| - 1]);
    }
  }

  // ----- choosing by index

  /** Exactly the indices below n that `chosen` holds of, in order. */
  ghost predicate Lists(ks: seq<nat>, n: nat, chosen: nat -> bool) {
    && (forall j :: 0 <= j < |ks| ==> ks[j] < n && chosen(ks[j]))
    && (forall i, j :: 0 <= i < j < |ks| ==> ks[i] < ks[j])
    && (forall k :: 0 <= k < n && chosen(k) ==> k in ks)
  }

  lemma LastIsMost(ks: seq<nat>, n: nat, chosen: nat -> bool, k: nat)
    requires Lists(ks, n, chosen) && k in ks
    ensures k <= ks[|ks| - 1] < n
  {
  }

  lemma ListsInit(ks: seq<nat>, n: nat, chosen: nat -> bool)
    requires n > 0 && Lists(ks, n, chosen)
    ensures if chosen(n - 1) then ks != [] && ks[|ks| - 1] == n - 1 && Lists(ks[..|ks| - 1], n - 1, chosen)
            else Lists(ks, n - 1, chosen)
  {
    if chosen(n - 1) {
      LastIsMost(ks, n, chosen, n - 1);
      var init := ks[..|ks| - 1];
      assert ks == init + [n - 1];
      forall k | 0 <= k < n - 1 && chosen(k) ensures k in init {
        assert k in ks;
      }
    }
  }

  /** What the indices below n give, in order; an index gives one thing or nothing. */
  ghost predicate Yields<U(!new)>(r: seq<U>, n: nat, gives: (nat, U) -> bool) {
    exists ks: seq<nat> :: YieldsAt(r, n, gives, ks)
  }

  ghost predicate YieldsAt<U(!new)>(r: seq<U>, n: nat, gives: (nat, U) -> bool, ks: seq<nat>) {
    && |r| == |ks|
    && (forall j :: 0 <= j < |ks| ==> ks[j] < n && gives(ks[j], r[j]))
    && (forall i, j :: 0 <= i < j < |ks| ==> ks[i] < ks[j])
    && (forall k, u :: 0 <= k < n && gives(k, u) ==> k in ks)
  }

  lemma {:induction false} Below(ks: seq<nat>, n: nat)
    requires forall j :: 0 <= j < |ks| ==> ks[j] < n
    requires forall i, j :: 0 <= i < j < |ks| ==> ks[i] < ks[j]
    ensures |ks| <= n
  {
    if ks != [] {
      Below(ks[..|ks| - 1], ks[|ks| - 1]);
    }
  }

  lemma NothingYields<U(!new)>(r: seq<U>, gives: (nat, U) -> bool)
    ensures Yields(r, 0, gives) <==> r == []
  {
    if r == [] {
      assert YieldsAt(r, 0, gives, []);
    }
    if Yields(r, 0, gives) {
      var ks: seq<nat> :| YieldsAt(r, 0, gives, ks);
      Below(ks, 0);
    }
  }

  /** One more index gives something, or nothing. */
  lemma YieldsSnoc<U(!new)>(r: seq<U>, n: nat, gives: (nat, U) -> bool)
    requires Yields(r, n, gives)
    ensures forall u :: gives(n, u) ==> Yields(r + [u], n + 1, gives)
    ensures (forall u :: !gives(n, u)) ==> Yields(r, n + 1, gives)
  {
    var ks: seq<nat> :| YieldsAt(r, n, gives, ks);
    if forall u :: !gives(n, u) {
      assert YieldsAt(r, n + 1, gives, ks);
    }
    forall u | gives(n, u) ensures Yields(r + [u], n + 1, gives) {
      GivenAt(r, n, gives, u, ks);
    }
  }

  lemma GivenAt<U(!new)>(r: seq<U>, n: nat, gives: (nat, U) -> bool, u: U, ks: seq<nat>)
    requires YieldsAt(r, n, gives, ks) && gives(n, u)
    ensures YieldsAt(r + [u], n + 1, gives, ks + [n])
  {
    var ls := ks + [n];
    assert ls[|ks|] == n;
    forall k, v | 0 <= k < n + 1 && gives(k, v) ensures k in ls {
      assert k < n ==> k in ks;
    }
  }

  lemma YieldsInit<U(!new)>(r: seq<U>, n: nat, gives: (nat, U) -> bool)
    requires Yields(r, n + 1, gives)
    ensures (exists u :: gives(n, u)) ==> r != [] && gives(n, r[|r| - 1]) && Yields(r[..|r| - 1], n, gives)
    ensures (forall u :: !gives(n, u)) ==> Yields(r, n, gives)
  {
    var ks: seq<nat> :| YieldsAt(r, n + 1, gives, ks);
    hide YieldsAt;
    if exists u :: gives(n, u) {
      var u :| gives(n, u);
      LastGiven(r, n, gives, ks, u);
    } else {
      NoneGiven(r, n, gives, ks);
    }
  }

  lemma NoneGiven<U(!new)>(r: seq<U>, n: nat, gives: (nat, U) -> bool, ks: seq<nat>)
    requires YieldsAt(r, n + 1, gives, ks) && forall u :: !gives(n, u)
    ensures YieldsAt(r, n, gives, ks)
  {
  }

  lemma LastGiven<U(!new)>(r: seq<U>, n: nat, gives: (nat, U) -> bool, ks: seq<nat>, u: U)
    requires YieldsAt(r, n + 1, gives, ks) && gives(n, u)
    ensures ks != [] && ks[|ks| - 1] == n && |r| == |ks| && gives(n, r[|r| - 1])
    ensures YieldsAt(r[..|r| - 1], n, gives, ks[..|ks| - 1])
  {
    assert n in ks;
    assert ks == ks[..|ks| - 1] + [n];
  }

  /** There is one such list only. */
  lemma {:induction false} YieldsOnce<U(!new)>(a: seq<U>, b: seq<U>, n: nat, gives: (nat, U) -> bool)
    requires Yields(a, n, gives) && Yields(b, n, gives)
    requires forall k: nat, u, v :: gives(k, u) && gives(k, v) ==> u == v
    ensures a == b
    decreases n
  {
    hide Yields;
    if n == 0 {
      NothingYields(a, gives);
      NothingYields(b, gives);
    } else {
      YieldsInit(a, n - 1, gives);
      YieldsInit(b, n - 1, gives);
      var m: nat := n - 1;
      if exists u :: gives(m, u) {
        YieldsOnce(a[..|a| - 1], b[..|b| - 1], n - 1, gives);
        assert a == a[..|a| - 1] + [b[|b| - 1]] && b == b[..|b| - 1] + [b[|b| - 1]];
      } else {
        YieldsOnce(a, b, n - 1, gives);
      }
    }
  }

  lemma YieldsSame<U(!new)>(r: seq<U>, n: nat, gives: (nat, U) -> bool, other: (nat, U) -> bool)
    requires Yields(r, n, gives) && forall k: nat, u :: k < n ==> (gives(k, u) <==> other(k, u))
    ensures Yields(r, n, other)
  {
    var ks: seq<nat> :| YieldsAt(r, n, gives, ks);
    assert YieldsAt(r, n, other, ks);
  }

  /** The elements of `items` that are kept, in order, with all their repetitions. */
  ghost predicate Sifted<T(!new)>(r: seq<T>, items: seq<T>, keep: T -> bool) {
    Yields(r, |items|, KeptAt(items, keep))
  }

  ghost function KeptAt<T(!new)>(items: seq<T>, keep: T -> bool): (nat, T) -> bool {
    (k: nat, x: T) => k < |items| && x == items[k] && keep(x)
  }

  lemma NothingSifted<T(!new)>(keep: T -> bool)
    ensures Sifted([], [], keep)
  {
    NothingYields([], KeptAt([], keep));
  }

  /** One more element is kept, or is not. */
  lemma SiftedSnoc<T(!new)>(r: seq<T>, items: seq<T>, keep: T -> bool, x: T)
    requires Sifted(r, items, keep)
    ensures Sifted(if keep(x) then r + [x] else r, items + [x], keep)
  {
    hide Yields;
    YieldsSame(r, |items|, KeptAt(items, keep), KeptAt(items + [x], keep));
    YieldsSnoc(r, |items|, KeptAt(items + [x], keep));
    assert keep(x) ==> KeptAt(items + [x], keep)(|items|, x);
  }

  /** There is one such list only. */
  lemma SiftedOnce<T(!new)>(a: seq<T>, b: seq<T>, items: seq<T>, keep: T -> bool)
    requires Sifted(a, items, keep) && Sifted(b, items, keep)
    ensures a == b
  {
    hide Yields;
    YieldsOnce(a, b, |items|, KeptAt(items, keep));
  }

  lemma SiftedMembers<T(!new)>(r: seq<T>, items: seq<T>, keep: T -> bool)
    requires Sifted(r, items, keep)
    ensures forall x :: x in r <==> x in items && keep(x)
  {
    var ks: seq<nat> :| YieldsAt(r, |items|, KeptAt(items, keep), ks);
    forall x | x in items && keep(x) ensures x in r {
      var k: nat :| k < |items| && items[k] == x;
      assert KeptAt(items, keep)(k, x);
      var j :| 0 <= j < |ks| && ks[j] == k;
      assert r[j] == x;
    }
  }

  function Flatten<T>(ss: seq<seq<T>>): seq<T> {
    if ss == [] then [] else Flatten(ss[..|ss| - 1]) + ss[|ss| - 1]
  }

  lemma FlattenSnoc<T>(ss: seq<seq<T>>, s: seq<T>)
    ensures Flatten(ss + [s]) == Flatten(ss) + s
  {
    SnocParts(ss, s);
  }

  lemma {:induction false} FlattenHead<T>(ss: seq<seq<T>>)
    requires ss != []
    ensures Flatten(ss) == ss[0] + Flatten(ss[1..])
    decreases |ss|
  {
    if |ss| == 1 {
      assert ss[1..] == [] && ss[..0] == [];
    } else {
      hide Flatten;
      var init, last := ss[..|ss| - 1], ss[|ss| - 1];
      assert ss == init + [last] && ss[1..] == init[1..] + [last];
      FlattenHead(init);
      FlattenSnoc(init, last);
      FlattenSnoc(init[1..], last);
    }
  }

  lemma SubsetSize<T>(a: set<T>, b: set<T>)
    requires a <= b
    ensures |a| <= |b|
  {
    assert b == a + (b - a);
  }
}
