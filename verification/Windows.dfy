/**
 Cutting the normalized message stream into bounded, overlapping windows.
 */
module Windows {
  import opened Prelude

  datatype WindowId = Natural(index: nat) | Joined(current: WindowId, following: WindowId)

  datatype Window = Window(id: WindowId, messages: seq<Message>)

  datatype Limits = Limits(maxMessages: int, maxChars: int, maxGapSeconds: real, overlapMessages: int)

  /** What the original accepts; anything else is an error. */
  predicate Accepted(o: Limits) {
    o.maxMessages > 0 && o.maxChars > 0 && 0 <= o.overlapMessages < o.maxMessages
  }

  /** A stretch of the stream, from `lo` up to `hi`. */
  datatype Cut = Cut(lo: nat, hi: nat) {
    predicate Holds(i: nat) {
      lo <= i < hi
    }
  }

  /** Message `k` does not continue the one before: time runs backwards or stands still too long. */
  predicate Breaks(s: seq<Message>, k: nat, o: Limits)
    requires 0 < k < |s|
  {
    var gap := s[k].timestamp - s[k - 1].timestamp;
    gap > o.maxGapSeconds || gap < 0.0
  }

  /** Message `hi` does not fit behind the stretch. */
  predicate Full(s: seq<Message>, lo: nat, hi: nat, o: Limits)
    requires lo <= hi < |s|
  {
    hi - lo >= o.maxMessages || Chars(s[lo..hi]) + |s[hi].content| > o.maxChars
  }

  /** Where the next window starts when one is full: the overlap is kept unless it leaves no room. */
  function Restart(s: seq<Message>, lo: nat, hi: nat, o: Limits): (r: nat)
    requires lo <= hi < |s| && Accepted(o)
    ensures lo <= r <= hi
  {
    var keep := if hi - lo > o.overlapMessages then hi - o.overlapMessages else lo;
    if Full(s, keep, hi, o) then hi else keep
  }

  /** The windows still to be cut when the open one is the stretch from `lo` to `hi`. */
  function Cuts(s: seq<Message>, lo: nat, hi: nat, o: Limits): seq<Cut>
    requires lo <= hi <= |s| && Accepted(o)
    decreases |s| - hi
  {
    if hi == |s| then (if lo < hi then [Cut(lo, hi)] else [])
    else if lo < hi && Breaks(s, hi, o) then [Cut(lo, hi)] + Cuts(s, hi, hi + 1, o)
    else if lo < hi && Full(s, lo, hi, o) then [Cut(lo, hi)] + Cuts(s, Restart(s, lo, hi, o), hi + 1, o)
    else Cuts(s, lo, hi + 1, o)
  }

  ghost predicate InStream(s: seq<Message>, cuts: seq<Cut>) {
    forall k :: 0 <= k < |cuts| ==> cuts[k].lo <= cuts[k].hi <= |s|
  }

  /** The windows of some cuts, numbered from 1. */
  ghost function Build(s: seq<Message>, cuts: seq<Cut>): (r: seq<Window>)
    requires InStream(s, cuts)
    ensures |r| == |cuts|
  {
    if cuts == [] then []
    else
      var c := cuts[|cuts| - 1];
      Build(s, cuts[..|cuts| - 1]) + [Window(Natural(|cuts|), s[c.lo..c.hi])]
  }

  lemma {:induction false} BuildAt(s: seq<Message>, cuts: seq<Cut>, k: nat)
    requires InStream(s, cuts) && k < |cuts|
    ensures Build(s, cuts)[k] == Window(Natural(k + 1), s[cuts[k].lo..cuts[k].hi])
  {
    if k < |cuts| - 1 {
      BuildAt(s, cuts[..|cuts| - 1], k);
    }
  }

  lemma CharsSnoc(s: seq<Message>, lo: nat, hi: nat)
    requires lo <= hi < |s|
    ensures s[lo..hi + 1] == s[lo..hi] + [s[hi]] && Chars(s[lo..hi + 1]) == Chars(s[lo..hi]) + |s[hi].content|
  {
    assert s[lo..hi + 1][..hi - lo] == s[lo..hi];
  }

  // ----- what the windows are

  /** Within the limits, and no break inside. */
  ghost predicate GoodCut(s: seq<Message>, c: Cut, o: Limits) {
    && c.lo < c.hi <= |s|
    && c.hi - c.lo <= o.maxMessages
    && (Chars(s[c.lo..c.hi]) <= o.maxChars || c.hi - c.lo == 1)
    && forall k :: c.lo < k < c.hi ==> 0.0 <= s[k].timestamp - s[k - 1].timestamp <= o.maxGapSeconds
  }

  /** The messages, that many, and message `hi` behind them are within the limits. */
  ghost predicate Fit(s: seq<Message>, lo: nat, hi: nat, o: Limits)
    requires lo <= hi < |s|
  {
    hi - lo < o.maxMessages && Chars(s[lo..hi]) + |s[hi].content| <= o.maxChars
  }

  /** The second window starts and ends later, leaves nothing out and repeats at most the overlap. After a break in time
      nothing is repeated; otherwise the first was closed because the next message did not fit, and the last messages,
      as many as the overlap says or as there are, are repeated when the next one fits behind them, and none when not.
      */
  ghost predicate GoodPair(s: seq<Message>, c: Cut, d: Cut, o: Limits)
    requires Accepted(o)
  {
    && c.lo < d.lo <= c.hi < d.hi <= |s| && c.hi - d.lo <= o.overlapMessages
    && var gap := s[c.hi].timestamp - s[c.hi - 1].timestamp;
       if gap < 0.0 || gap > o.maxGapSeconds then d.lo == c.hi
       else
         var n := if o.overlapMessages < c.hi - c.lo then o.overlapMessages else c.hi - c.lo;
         !Fit(s, c.lo, c.hi, o) && d.lo == if Fit(s, c.hi - n, c.hi, o) then c.hi - n else c.hi
  }

  ghost predicate PairAt(s: seq<Message>, cuts: seq<Cut>, k: nat, o: Limits)
    requires Accepted(o) && k < |cuts| - 1
  {
    GoodPair(s, cuts[k], cuts[k + 1], o)
  }

  ghost predicate GoodCuts(s: seq<Message>, cuts: seq<Cut>, lo: nat, o: Limits)
    requires Accepted(o)
  {
    && (forall k :: 0 <= k < |cuts| ==> GoodCut(s, cuts[k], o))
    && (forall k :: 0 <= k < |cuts| - 1 ==> PairAt(s, cuts, k, o))
    && (if cuts == [] then lo == |s| else cuts[0].lo == lo && cuts[|cuts| - 1].hi == |s|)
  }

  /** The stretch that is open may become a window. */
  ghost predicate GoodOpen(s: seq<Message>, lo: nat, hi: nat, o: Limits) {
    lo <= hi <= |s| && (lo == hi ==> hi == 0) && (lo < hi ==> GoodCut(s, Cut(lo, hi), o))
  }

  lemma GoodOne(s: seq<Message>, k: nat, o: Limits)
    requires Accepted(o) && k < |s|
    ensures GoodOpen(s, k, k + 1, o)
  {
  }

  /** A message that neither breaks nor overfills the open stretch joins it. */
  lemma GoodGrow(s: seq<Message>, lo: nat, hi: nat, o: Limits)
    requires Accepted(o) && GoodOpen(s, lo, hi, o) && lo < hi < |s| && !Breaks(s, hi, o) && !Full(s, lo, hi, o)
    ensures GoodOpen(s, lo, hi + 1, o)
  {
    hide Chars;
    CharsSnoc(s, lo, hi);
  }

  lemma {:induction false} CharsSuffix(m: seq<Message>, k: nat)
    requires k <= |m|
    ensures Chars(m[k..]) <= Chars(m)
    decreases |m|
  {
    if k < |m| {
      CharsSuffix(m[..|m| - 1], k);
      assert m[k..][..|m| - k - 1] == m[..|m| - 1][k..];
    }
  }

  lemma GoodRestart(s: seq<Message>, lo: nat, hi: nat, o: Limits)
    requires Accepted(o) && GoodOpen(s, lo, hi, o) && lo < hi < |s| && !Breaks(s, hi, o) && Full(s, lo, hi, o)
    ensures var r := Restart(s, lo, hi, o); lo < r && hi - r <= o.overlapMessages && GoodOpen(s, r, hi + 1, o)
  {
    hide Chars;
    var r := Restart(s, lo, hi, o);
    if r == hi {
      GoodOne(s, hi, o);
    } else {
      CharsSnoc(s, r, hi);
    }
  }

  lemma RestartIs(s: seq<Message>, lo: nat, hi: nat, o: Limits)
    requires lo < hi < |s| && Accepted(o)
    ensures var n := if o.overlapMessages < hi - lo then o.overlapMessages else hi - lo;
            Restart(s, lo, hi, o) == if Fit(s, hi - n, hi, o) then hi - n else hi
    ensures Full(s, lo, hi, o) <==> !Fit(s, lo, hi, o)
  {
    hide Chars;
  }

  lemma PairBreaks(s: seq<Message>, lo: nat, hi: nat, d: Cut, o: Limits)
    requires Accepted(o) && lo < hi < |s| && d.lo == hi < d.hi <= |s| && Breaks(s, hi, o)
    ensures GoodPair(s, Cut(lo, hi), d, o)
  {
    hide Fit;
  }

  lemma PairFull(s: seq<Message>, lo: nat, hi: nat, d: Cut, o: Limits)
    requires Accepted(o) && GoodOpen(s, lo, hi, o) && lo < hi < |s| && !Breaks(s, hi, o) && Full(s, lo, hi, o)
    requires d.lo == Restart(s, lo, hi, o) && hi < d.hi <= |s|
    ensures GoodPair(s, Cut(lo, hi), d, o)
  {
    GoodRestart(s, lo, hi, o);
    RestartIs(s, lo, hi, o);
    hide Fit, Full, Restart, GoodOpen;
  }

  /** What is cut from an open stretch on. */
  lemma {:induction false} CutsGood(s: seq<Message>, lo: nat, hi: nat, o: Limits)
    requires Accepted(o) && GoodOpen(s, lo, hi, o)
    ensures GoodCuts(s, Cuts(s, lo, hi, o), lo, o)
    ensures Cuts(s, lo, hi, o) != [] ==> hi <= Cuts(s, lo, hi, o)[0].hi <= |s|
    decreases |s| - hi
  {
    hide Breaks, Full, Restart, GoodCut, GoodPair;
    if hi < |s| {
      if lo == hi {
        GoodOne(s, hi, o);
        CutsGood(s, lo, hi + 1, o);
      } else if Breaks(s, hi, o) {
        GoodOne(s, hi, o);
        CutsGood(s, hi, hi + 1, o);
        PairBreaks(s, lo, hi, Cuts(s, hi, hi + 1, o)[0], o);
        ConsGood(s, Cut(lo, hi), Cuts(s, hi, hi + 1, o), hi, o);
      } else if Full(s, lo, hi, o) {
        GoodRestart(s, lo, hi, o);
        var r := Restart(s, lo, hi, o);
        CutsGood(s, r, hi + 1, o);
        PairFull(s, lo, hi, Cuts(s, r, hi + 1, o)[0], o);
        ConsGood(s, Cut(lo, hi), Cuts(s, r, hi + 1, o), r, o);
      } else {
        GoodGrow(s, lo, hi, o);
        CutsGood(s, lo, hi + 1, o);
      }
    }
  }

  lemma ConsGood(s: seq<Message>, c: Cut, rest: seq<Cut>, lo: nat, o: Limits)
    requires Accepted(o) && GoodCut(s, c, o) && c.hi < |s| && GoodCuts(s, rest, lo, o) && lo < |s|
    requires rest != [] ==> GoodPair(s, c, rest[0], o)
    ensures GoodCuts(s, [c] + rest, c.lo, o)
  {
    hide GoodCut, GoodPair;
    var cuts := [c] + rest;
    forall k | 0 <= k < |cuts| - 1 ensures PairAt(s, cuts, k, o) {
      if k > 0 {
        assert PairAt(s, rest, k - 1, o);
      }
    }
  }

  /** The stretches of the whole stream. */
  function StreamCuts(s: seq<Message>, o: Limits): seq<Cut>
    requires Accepted(o)
  {
    Cuts(s, 0, 0, o)
  }

  predicate Covered(cuts: seq<Cut>, i: nat) {
    exists k :: 0 <= k < |cuts| && cuts[k].Holds(i)
  }

  /** Windows cover the stream: stretches within the limits and without breaks, from the first message to the last, each
      starting and ending later than the one before and repeating at most the overlap. */
  lemma WindowsCover(s: seq<Message>, o: Limits)
    requires Accepted(o)
    ensures GoodCuts(s, StreamCuts(s, o), 0, o)
    ensures forall i :: 0 <= i < |s| ==> Covered(StreamCuts(s, o), i)
  {
    CutsGood(s, 0, 0, o);
    forall i | 0 <= i < |s|
      ensures Covered(StreamCuts(s, o), i)
    {
      CoveredFrom(s, StreamCuts(s, o), 0, i, o);
    }
  }

  // ----- there is one way only

  lemma {:induction false} CharsPart(s: seq<Message>, lo: nat, m: nat, hi: nat)
    requires lo <= m <= hi <= |s|
    ensures Chars(s[lo..m]) <= Chars(s[lo..hi])
    decreases hi
  {
    if m < hi {
      CharsPart(s, lo, m, hi - 1);
      CharsSnoc(s, lo, hi - 1);
    }
  }

  /** A window that starts where another does does not end later. */
  lemma NotLater(s: seq<Message>, c: Cut, d: Cut, b: Cut, o: Limits)
    requires Accepted(o) && GoodCut(s, c, o) && GoodCut(s, b, o) && c.lo == b.lo && GoodPair(s, c, d, o)
    ensures b.hi <= c.hi
  {
    hide Chars;
    if c.hi < b.hi {
      CharsSnoc(s, c.lo, c.hi);
      CharsPart(s, c.lo, c.hi + 1, b.hi);
    }
  }

  lemma GoodRest(s: seq<Message>, cuts: seq<Cut>, lo: nat, o: Limits)
    requires Accepted(o) && GoodCuts(s, cuts, lo, o) && |cuts| > 1
    ensures GoodCuts(s, cuts[1..], cuts[1].lo, o) && GoodPair(s, cuts[0], cuts[1], o)
  {
    hide GoodCut, GoodPair;
    assert PairAt(s, cuts, 0, o);
    var rest := cuts[1..];
    forall k | 0 <= k < |rest| - 1 ensures PairAt(s, rest, k, o) {
      assert PairAt(s, cuts, k + 1, o);
    }
  }

  lemma SameEnd(s: seq<Message>, a: seq<Cut>, b: seq<Cut>, lo: nat, o: Limits)
    requires Accepted(o) && GoodCuts(s, a, lo, o) && GoodCuts(s, b, lo, o) && a != [] && b != []
    ensures b[0].hi <= a[0].hi
  {
    hide GoodPair;
    assert GoodCut(s, a[0], o) && GoodCut(s, b[0], o);
    if |a| > 1 {
      GoodRest(s, a, lo, o);
      NotLater(s, a[0], a[1], b[0], o);
    }
  }

  lemma SameNext(s: seq<Message>, c: Cut, a: Cut, b: Cut, o: Limits)
    requires Accepted(o) && GoodPair(s, c, a, o) && GoodPair(s, c, b, o)
    ensures a.lo == b.lo && c.hi < |s|
  {
    hide Fit;
  }

  /** The stretches are determined: nothing else meets all this. */
  lemma {:induction false} CutsOnce(s: seq<Message>, a: seq<Cut>, b: seq<Cut>, lo: nat, o: Limits)
    requires Accepted(o) && GoodCuts(s, a, lo, o) && GoodCuts(s, b, lo, o)
    ensures a == b
    decreases |a|
  {
    hide GoodPair;
    if a != [] && b != [] {
      SameEnd(s, a, b, lo, o);
      SameEnd(s, b, a, lo, o);
      assert a[0] == b[0];
      if |a| > 1 {
        GoodRest(s, a, lo, o);
        EndsBefore(s, a[0], a[1], o);
      }
      if |b| > 1 {
        GoodRest(s, b, lo, o);
        EndsBefore(s, b[0], b[1], o);
      }
      if |a| > 1 && |b| > 1 {
        SameNext(s, a[0], a[1], b[1], o);
        CutsOnce(s, a[1..], b[1..], a[1].lo, o);
        assert a == [a[0]] + a[1..] && b == [b[0]] + b[1..];
      }
    } else {
      NoneLeft(s, a, b, lo, o);
      NoneLeft(s, b, a, lo, o);
    }
  }

  lemma EndsBefore(s: seq<Message>, c: Cut, d: Cut, o: Limits)
    requires Accepted(o) && GoodPair(s, c, d, o)
    ensures c.hi < |s|
  {
  }

  lemma NoneLeft(s: seq<Message>, a: seq<Cut>, b: seq<Cut>, lo: nat, o: Limits)
    requires Accepted(o) && GoodCuts(s, a, lo, o) && GoodCuts(s, b, lo, o) && a == []
    ensures b == []
  {
    assert b != [] ==> GoodCut(s, b[0], o);
  }

  /** The windows are the stretches, numbered from 1. */
  ghost predicate AreWindows(s: seq<Message>, windows: seq<Window>, o: Limits)
    requires Accepted(o)
  {
    exists cuts :: GoodCuts(s, cuts, 0, o) && Numbered(s, windows, cuts)
  }

  ghost predicate Numbered(s: seq<Message>, windows: seq<Window>, cuts: seq<Cut>) {
    && InStream(s, cuts) && |windows| == |cuts|
    && forall k :: 0 <= k < |cuts| ==> windows[k] == Window(Natural(k + 1), s[cuts[k].lo..cuts[k].hi])
  }

  lemma BuildNumbered(s: seq<Message>, o: Limits)
    requires Accepted(o) && InStream(s, StreamCuts(s, o))
    ensures AreWindows(s, Build(s, StreamCuts(s, o)), o)
  {
    hide GoodCuts;
    var cuts := StreamCuts(s, o);
    WindowsCover(s, o);
    forall k | 0 <= k < |cuts| ensures Build(s, cuts)[k] == Window(Natural(k + 1), s[cuts[k].lo..cuts[k].hi]) {
      BuildAt(s, cuts, k);
    }
    assert Numbered(s, Build(s, cuts), cuts);
  }

  /** A window of the stream is one of its stretches, within the limits. */
  lemma WindowAt(s: seq<Message>, o: Limits, k: nat)
    requires Accepted(o) && InStream(s, StreamCuts(s, o)) && k < |StreamCuts(s, o)|
    ensures var c := StreamCuts(s, o)[k];
            && c.lo < c.hi <= |s| && c.hi - c.lo <= o.maxMessages
            && (Chars(s[c.lo..c.hi]) <= o.maxChars || c.hi - c.lo == 1)
            && Build(s, StreamCuts(s, o))[k] == Window(Natural(k + 1), s[c.lo..c.hi])
  {
    hide PairAt, Chars, Breaks;
    WindowsCover(s, o);
    BuildAt(s, StreamCuts(s, o), k);
    assert GoodCut(s, StreamCuts(s, o)[k], o);
  }

  lemma {:induction false} CoveredFrom(s: seq<Message>, cuts: seq<Cut>, k: nat, i: nat, o: Limits)
    requires Accepted(o) && GoodCuts(s, cuts, 0, o) && k < |cuts| && cuts[k].lo <= i < |s|
    ensures Covered(cuts, i)
    decreases |cuts| - k
  {
    if !cuts[k].Holds(i) {
      assert PairAt(s, cuts, k, o);
      CoveredFrom(s, cuts, k + 1, i, o);
    }
  }

  // ----- the generator

  lemma EmitOne(s: seq<Message>, cuts: seq<Cut>, lo: nat, hi: nat)
    requires InStream(s, cuts) && lo <= hi <= |s|
    ensures InStream(s, cuts + [Cut(lo, hi)])
    ensures Build(s, cuts + [Cut(lo, hi)]) == Build(s, cuts) + [Window(Natural(|cuts| + 1), s[lo..hi])]
  {
    assert (cuts + [Cut(lo, hi)])[..|cuts|] == cuts;
  }

  /** The cuts made before message `n`, with the stretch from `lo` still open. */
  ghost predicate CutSoFar(s: seq<Message>, cuts: seq<Cut>, lo: nat, n: nat, o: Limits)
    requires Accepted(o)
  {
    lo <= n <= |s| && InStream(s, cuts) && cuts + Cuts(s, lo, n, o) == StreamCuts(s, o)
  }

  lemma CutAt(s: seq<Message>, cuts: seq<Cut>, lo: nat, n: nat, o: Limits)
    requires Accepted(o) && CutSoFar(s, cuts, lo, n, o) && lo < n < |s| && (Breaks(s, n, o) || Full(s, lo, n, o))
    ensures CutSoFar(s, cuts + [Cut(lo, n)], if Breaks(s, n, o) then n else Restart(s, lo, n, o), n + 1, o)
  {
    var next := if Breaks(s, n, o) then n else Restart(s, lo, n, o);
    assert cuts + ([Cut(lo, n)] + Cuts(s, next, n + 1, o)) == (cuts + [Cut(lo, n)]) + Cuts(s, next, n + 1, o);
  }

  lemma CutStart(s: seq<Message>, o: Limits)
    requires Accepted(o)
    ensures CutSoFar(s, [], 0, 0, o) && Build(s, []) == []
  {
    assert [] + Cuts(s, 0, 0, o) == Cuts(s, 0, 0, o);
  }

  lemma CutNot(s: seq<Message>, cuts: seq<Cut>, lo: nat, n: nat, o: Limits)
    requires Accepted(o) && CutSoFar(s, cuts, lo, n, o) && n < |s|
    requires lo < n ==> !Breaks(s, n, o) && !Full(s, lo, n, o)
    ensures CutSoFar(s, cuts, lo, n + 1, o)
  {
  }

  lemma CutEnd(s: seq<Message>, cuts: seq<Cut>, lo: nat, o: Limits)
    requires Accepted(o) && CutSoFar(s, cuts, lo, |s|, o)
    ensures StreamCuts(s, o) == (if lo < |s| then cuts + [Cut(lo, |s|)] else cuts) && InStream(s, StreamCuts(s, o))
  {
  }

  lemma CharsNone()
    ensures Chars([]) == 0
  {
  }

  /** What stays open after a window was closed because message `n` does not fit. */
  method KeepOverlap(s: seq<Message>, ghost lo: nat, n: nat, current: seq<Message>, o: Limits)
    returns (kept: seq<Message>, keptChars: nat)
    requires Accepted(o) && lo < n < |s| && current == s[lo..n]
    ensures var k := if o.overlapMessages < n - lo then o.overlapMessages else n - lo;
            kept == if k < o.maxMessages && Chars(s[n - k..n]) + |s[n].content| <= o.maxChars then s[n - k..n] else []
    ensures kept == s[Restart(s, lo, n, o)..n] && keptChars == Chars(kept)
  {
    hide Chars;
    CharsNone();
    if o.overlapMessages != 0 {
      kept := if |current| > o.overlapMessages then current[|current| - o.overlapMessages..] else current;
      keptChars := CountChars(kept);
    } else {
      kept, keptChars := [], 0;
    }
    ghost var keep := if n - lo > o.overlapMessages then n - o.overlapMessages else lo;
    assert kept == s[keep..n];
    if |kept| >= o.maxMessages || keptChars + |s[n].content| > o.maxChars {
      kept, keptChars := [], 0;
    }
  }

  /** Whether message `n` closes the open window, and what is open when the message is appended. */
  method Arrive(s: seq<Message>, ghost lo: nat, n: nat, current: seq<Message>, currentChars: nat, o: Limits)
    returns (close: bool, kept: seq<Message>, keptChars: nat, ghost next: nat)
    requires Accepted(o) && lo <= n < |s| && current == s[lo..n] && currentChars == Chars(current)
    ensures close <==>
              lo < n && (s[n].timestamp - s[n - 1].timestamp < 0.0
                         || s[n].timestamp - s[n - 1].timestamp > o.maxGapSeconds
                         || n - lo >= o.maxMessages || Chars(s[lo..n]) + |s[n].content| > o.maxChars)
    ensures close <==> lo < n && (Breaks(s, n, o) || Full(s, lo, n, o))
    ensures next == if !close then lo else if Breaks(s, n, o) then n else Restart(s, lo, n, o)
    ensures kept == s[next..n] && keptChars == Chars(kept)
  {
    hide Restart;
    CharsNone();
    if current == [] {
      return false, current, currentChars, lo;
    }
    var gap := s[n].timestamp - current[|current| - 1].timestamp;
    if gap > o.maxGapSeconds || gap < 0.0 {
      return true, [], 0, n;
    }
    if |current| >= o.maxMessages || currentChars + |s[n].content| > o.maxChars {
      kept, keptChars := KeepOverlap(s, lo, n, current, o);
      return true, kept, keptChars, Restart(s, lo, n, o);
    }
    return false, current, currentChars, lo;
  }

  /** The windows of a stream, or None for limits the original rejects. */
  method IterHistoryWindows(s: seq<Message>, o: Limits) returns (r: Option<seq<Window>>)
    ensures r == None <==>
            o.maxMessages <= 0 || o.maxChars <= 0 || o.overlapMessages < 0 || o.overlapMessages >= o.maxMessages
    ensures r.Some? ==> AreWindows(s, r.value, o)
    ensures r.Some? ==> InStream(s, StreamCuts(s, o)) && r.value == Build(s, StreamCuts(s, o))
  {
    hide Restart, Breaks, Full, StreamCuts, Build, InStream, Chars, AreWindows;
    if o.maxMessages <= 0 || o.maxChars <= 0 {
      return None;
    }
    if o.overlapMessages < 0 || o.overlapMessages >= o.maxMessages {
      return None;
    }
    var windows: seq<Window> := [];
    var current: seq<Message> := [];
    var currentChars: nat := 0;
    ghost var lo, cuts := 0, [];
    CutStart(s, o);
    CharsNone();
    for n := 0 to |s|
      invariant 0 <= lo <= n && (lo == n ==> n == 0)
      invariant current == s[lo..n] && currentChars == Chars(current)
      invariant InStream(s, cuts) && windows == Build(s, cuts)
      invariant CutSoFar(s, cuts, lo, n, o)
    {
      var close, kept, keptChars, next := Arrive(s, lo, n, current, currentChars, o);
      if close {
        CutAt(s, cuts, lo, n, o);
        EmitOne(s, cuts, lo, n);
        windows := windows + [Window(Natural(|windows| + 1), current)];
        cuts := cuts + [Cut(lo, n)];
      } else {
        CutNot(s, cuts, lo, n, o);
      }
      lo := next;
      CharsSnoc(s, lo, n);
      current := kept + [s[n]];
      currentChars := keptChars + |s[n].content|;
    }
    CutEnd(s, cuts, lo, o);
    if current != [] {
      EmitOne(s, cuts, lo, |s|);
      windows := windows + [Window(Natural(|windows| + 1), current)];
    }
    BuildNumbered(s, o);
    return Some(windows);
  }

  method CountChars(messages: seq<Message>) returns (r: nat)
    ensures r == Chars(messages)
  {
    r := 0;
    for n := 0 to |messages|
      invariant r == Chars(messages[..n])
    {
      assert messages[..n + 1][..n] == messages[..n];
      r := r + |messages[n].content|;
    }
    assert messages[..|messages|] == messages;
  }
}
