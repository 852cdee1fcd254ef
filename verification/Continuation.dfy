/**
 The window that joins the tail of one window to the start of the next, when the model asks for more.
 */
module Continuation {
  import opened Prelude
  import opened Seqs
  import opened Windows

  const MAX_TAIL_MESSAGES: nat := 12
  const MAX_FOLLOW_UP_MESSAGES: nat := 40
  const MAX_WINDOW_MESSAGES: nat := 80
  const MAX_WINDOW_CHARS: nat := 12_000

  ghost predicate DistinctIds(messages: seq<Message>) {
    forall i, j :: 0 <= i < j < |messages| ==> messages[i].messageId != messages[j].messageId
  }

  /** The dictionary of a window's messages. */
  function ById(messages: seq<Message>): (r: map<string, Message>)
    ensures forall id :: id in r <==> id in Ids(messages)
  {
    if messages == [] then map[]
    else
      var m := messages[|messages| - 1];
      assert messages == messages[..|messages| - 1] + [m];
      IdsSnoc(messages[..|messages| - 1], m);
      ById(messages[..|messages| - 1])[m.messageId := m]
  }

  lemma IdsSnoc(messages: seq<Message>, m: Message)
    ensures Ids(messages + [m]) == Ids(messages) + [m.messageId]
  {
  }

  /** Appending stops at the first message that does not fit; known messages are passed over. */
  function Append(acc: seq<Message>, more: seq<Message>): seq<Message>
    decreases |more|
  {
    if more == [] then acc
    else
      var m := more[0];
      if m.messageId in Ids(acc) then Append(acc, more[1..])
      else if |acc| >= MAX_WINDOW_MESSAGES then acc
      else if acc != [] && Chars(acc) + |m.content| > MAX_WINDOW_CHARS then acc
      else Append(acc + [m], more[1..])
  }

  function LookUp(ids: seq<string>, byId: map<string, Message>): (r: seq<Message>)
    requires forall k :: 0 <= k < |ids| ==> ids[k] in byId
    ensures |r| == |ids| && forall k :: 0 <= k < |ids| ==> r[k] == byId[ids[k]]
  {
    seq(|ids|, k requires 0 <= k < |ids| && ids[k] in byId => byId[ids[k]])
  }

  /** The joined window, or None if the tail is not of the current window. */
  function Continued(current: Window, following: Window, tailIds: seq<string>): Option<Window> {
    var byId := ById(current.messages);
    if exists k :: 0 <= k < |tailIds| && tailIds[k] !in byId then None
    else
      var tail := LookUp(tailIds, byId);
      var messages :=
        Append(Append([], First(tail, MAX_TAIL_MESSAGES)), First(following.messages, MAX_FOLLOW_UP_MESSAGES));
      Some(if messages == [] then following else Window(Joined(current.id, following.id), messages))
  }

  // ----- the loops

  method AppendAll(acc: seq<Message>, more: seq<Message>) returns (r: seq<Message>)
    ensures r == Append(acc, more)
  {
    hide Chars;
    r := acc;
    var seen := set id | id in Ids(acc);
    for n := 0 to |more|
      invariant forall id :: id in seen <==> id in Ids(r)
      invariant Append(r, more[n..]) == Append(acc, more)
    {
      var m := more[n];
      assert more[n..][0] == m && more[n..][1..] == more[n + 1..];
      if m.messageId !in seen {
        if |r| >= MAX_WINDOW_MESSAGES {
          return;
        }
        var chars := CountChars(r);
        if r != [] && chars + |m.content| > MAX_WINDOW_CHARS {
          return;
        }
        IdsSnoc(r, m);
        r := r + [m];
        seen := seen + {m.messageId};
      }
    }
  }

  method BuildContinuationWindow(current: Window, following: Window, tailIds: seq<string>) returns (r: Option<Window>)
    ensures r == Continued(current, following, tailIds)
  {
    var byId: map<string, Message> := map[];
    for n := 0 to |current.messages|
      invariant byId == ById(current.messages[..n])
    {
      assert current.messages[..n + 1][..n] == current.messages[..n];
      byId := byId[current.messages[n].messageId := current.messages[n]];
    }
    assert current.messages[..|current.messages|] == current.messages;
    var tail: seq<Message> := [];
    for n := 0 to |tailIds|
      invariant |tail| == n && forall k :: 0 <= k < n ==> tailIds[k] in byId && tail[k] == byId[tailIds[k]]
    {
      if tailIds[n] !in byId {
        return None;
      }
      tail := tail + [byId[tailIds[n]]];
    }
    assert tail == LookUp(tailIds, byId);
    var messages := AppendAll([], First(tail, MAX_TAIL_MESSAGES));
    messages := AppendAll(messages, First(following.messages, MAX_FOLLOW_UP_MESSAGES));
    return Some(if messages == [] then following else Window(Joined(current.id, following.id), messages));
  }

  // ----- what the joined window holds

  /** Within the joined window's limits. */
  ghost predicate Bounded(messages: seq<Message>) {
    |messages| <= MAX_WINDOW_MESSAGES && (Chars(messages) <= MAX_WINDOW_CHARS || |messages| <= 1)
  }

  /** Messages of `more` not among `acc` nor repeated. */
  function Unseen(acc: seq<Message>, more: seq<Message>): seq<Message>
    decreases |more|
  {
    if more == [] then []
    else if more[0].messageId in Ids(acc) then Unseen(acc, more[1..])
    else [more[0]] + Unseen(acc + [more[0]], more[1..])
  }

  /** Their ids, with those there were, are all ids of both. */
  lemma {:induction false} UnseenIds(acc: seq<Message>, more: seq<Message>, id: string)
    ensures id in Ids(acc + Unseen(acc, more)) <==> id in Ids(acc) || id in Ids(more)
    decreases |more|
  {
    hide Ids;
    if more == [] {
      assert acc + [] == acc;
      NoIds(id);
    } else {
      var m, rest := more[0], more[1..];
      assert more == [m] + rest;
      IdsJoin([m], rest, id);
      IdsOne(m, id);
      if m.messageId in Ids(acc) {
        UnseenIds(acc, rest, id);
      } else {
        UnseenIds(acc + [m], rest, id);
        IdsSnoc(acc, m);
        assert acc + ([m] + Unseen(acc + [m], rest)) == (acc + [m]) + Unseen(acc + [m], rest);
      }
    }
  }

  lemma NoIds(id: string)
    ensures id !in Ids([])
  {
  }

  lemma IdsOne(m: Message, id: string)
    ensures id in Ids([m]) <==> id == m.messageId
  {
    assert Ids([m]) == [m.messageId];
  }

  lemma IdsJoin(a: seq<Message>, b: seq<Message>, id: string)
    ensures id in Ids(a + b) <==> id in Ids(a) || id in Ids(b)
  {
    assert Ids(a + b) == Ids(a) + Ids(b);
  }

  lemma CharsOne(acc: seq<Message>, m: Message)
    ensures Chars(acc + [m]) == Chars(acc) + |m.content|
  {
    assert (acc + [m])[..|acc|] == acc;
  }

  lemma PrefixTail(more: seq<Message>, k: nat)
    requires k < |more|
    ensures more[..k + 1][0] == more[0] && more[..k + 1][1..] == more[1..][..k]
  {
  }

  /** The message is new and does not fit: there are 80 messages, or 12,000 characters would be exceeded. */
  ghost predicate Overfull(messages: seq<Message>, m: Message) {
    && m.messageId !in Ids(messages)
    && (|messages| >= 80 || (messages != [] && Chars(messages) + |m.content| > 12_000))
  }

  /** Appending adds the unseen messages of a prefix (of length `k`), up to the first that does not fit. */
  lemma {:induction false} AppendIs(acc: seq<Message>, more: seq<Message>) returns (k: nat)
    ensures k <= |more| && Append(acc, more) == acc + Unseen(acc, more[..k])
    ensures k < |more| ==> Overfull(Append(acc, more), more[k])
    decreases |more|
  {
    hide Chars, Ids;
    k := 0;
    if more == [] {
      assert acc + Unseen(acc, more[..0]) == acc;
    } else {
      var m, rest := more[0], more[1..];
      if m.messageId in Ids(acc) {
        k := AppendIs(acc, rest);
        PrefixTail(more, k);
        k := k + 1;
      } else if |acc| >= MAX_WINDOW_MESSAGES || (acc != [] && Chars(acc) + |m.content| > MAX_WINDOW_CHARS) {
        assert acc + Unseen(acc, more[..0]) == acc;
      } else {
        k := AppendIs(acc + [m], rest);
        PrefixTail(more, k);
        assert (acc + [m]) + Unseen(acc + [m], rest[..k]) == acc + ([m] + Unseen(acc + [m], rest[..k]));
        k := k + 1;
      }
    }
  }

  /** Appending keeps the limits and never repeats an id. */
  lemma {:induction false} AppendKeeps(acc: seq<Message>, more: seq<Message>)
    requires Bounded(acc) && DistinctIds(acc)
    ensures Bounded(Append(acc, more)) && DistinctIds(Append(acc, more))
    ensures |Append(acc, more)| <= |acc| + |more| && acc <= Append(acc, more)
    decreases |more|
  {
    hide Chars, Ids, DistinctIds;
    if more != [] {
      var m, rest := more[0], more[1..];
      if m.messageId in Ids(acc) {
        AppendKeeps(acc, rest);
      } else if |acc| < MAX_WINDOW_MESSAGES && (acc == [] || Chars(acc) + |m.content| <= MAX_WINDOW_CHARS) {
        CharsOne(acc, m);
        DistinctIdsSnoc(acc, m);
        AppendKeeps(acc + [m], rest);
      }
    }
  }

  lemma DistinctIdsSnoc(acc: seq<Message>, m: Message)
    requires DistinctIds(acc) && m.messageId !in Ids(acc)
    ensures DistinctIds(acc + [m])
  {
    forall i | 0 <= i < |acc| ensures acc[i].messageId != m.messageId {
      assert Ids(acc)[i] == acc[i].messageId;
    }
  }

  lemma {:induction false} CharsConcat(a: seq<Message>, c: seq<Message>)
    ensures Chars(a + c) == Chars(a) + Chars(c)
    decreases |c|
  {
    if c == [] {
      assert a + c == a;
    } else {
      assert (a + c)[..|a + c| - 1] == a + c[..|c| - 1];
      CharsConcat(a, c[..|c| - 1]);
    }
  }

  /** Distinct messages that fit together are all appended. */
  lemma {:induction false} AppendFits(acc: seq<Message>, more: seq<Message>)
    requires DistinctIds(acc + more) && |acc + more| <= MAX_WINDOW_MESSAGES
    requires Chars(acc + more) <= MAX_WINDOW_CHARS || |acc + more| <= 1
    ensures Append(acc, more) == acc + more
    decreases |more|
  {
    if more == [] {
      assert acc + more == acc;
    } else {
      var m, rest := more[0], more[1..];
      assert acc + more == (acc + [m]) + rest;
      NewId(acc, m, rest);
      CharsConcat(acc + [m], rest);
      CharsOne(acc, m);
      hide Chars, Ids, DistinctIds;
      AppendFits(acc + [m], rest);
    }
  }

  lemma NewId(acc: seq<Message>, m: Message, rest: seq<Message>)
    requires DistinctIds((acc + [m]) + rest)
    ensures m.messageId !in Ids(acc)
  {
    var all := (acc + [m]) + rest;
    forall i | 0 <= i < |acc| ensures Ids(acc)[i] != m.messageId {
      assert all[i] == acc[i] && all[|acc|] == m;
    }
  }

  lemma {:induction false} ByIdIs(messages: seq<Message>, k: nat)
    requires DistinctIds(messages) && k < |messages|
    ensures messages[k].messageId in ById(messages) && ById(messages)[messages[k].messageId] == messages[k]
  {
    assert Ids(messages)[k] == messages[k].messageId;
    if k < |messages| - 1 {
      ByIdIs(messages[..|messages| - 1], k);
    }
  }

  /** Ids that end a window's ids, as many as a validated tail may have. */
  ghost predicate IsTail(tailIds: seq<string>, window: Window) {
    0 < |tailIds| <= MAX_TAIL_MESSAGES && |tailIds| <= |window.messages|
    && tailIds == Ids(window.messages[|window.messages| - |tailIds|..])
  }

  lemma TailIsLookedUp(window: Window, tailIds: seq<string>)
    requires DistinctIds(window.messages) && IsTail(tailIds, window)
    ensures var byId := ById(window.messages);
            && (forall k :: 0 <= k < |tailIds| ==> tailIds[k] in byId)
            && LookUp(tailIds, byId) == window.messages[|window.messages| - |tailIds|..]
  {
    hide ById, DistinctIds, Ids;
    var n := |window.messages| - |tailIds|;
    var tail, byId := window.messages[n..], ById(window.messages);
    forall k | 0 <= k < |tailIds| ensures tailIds[k] in byId && byId[tailIds[k]] == tail[k] {
      ByIdIs(window.messages, n + k);
      assert Ids(tail)[k] == tail[k].messageId;
    }
  }

  /** The joined messages: the whole tail, and the unseen messages of a prefix of the next window. */
  ghost predicate IsJoin(messages: seq<Message>, tail: seq<Message>, following: seq<Message>) {
    && tail <= messages && DistinctIds(messages) && Bounded(messages)
    && |messages| <= MAX_TAIL_MESSAGES + MAX_FOLLOW_UP_MESSAGES
    && exists k: nat :: JoinsUpTo(messages, tail, following, k)
  }

  /** Of the next window's first 40 messages the first k are joined, and the one after them does not fit. */
  ghost predicate JoinsUpTo(messages: seq<Message>, tail: seq<Message>, following: seq<Message>, k: nat) {
    && k <= |following| && k <= 40 && messages == tail + Unseen(tail, following[..k])
    && (k < |following| && k < 40 ==> Overfull(messages, following[k]))
  }

  lemma JoinTail(tail: seq<Message>, following: seq<Message>)
    requires DistinctIds(tail) && 0 < |tail| <= MAX_TAIL_MESSAGES && (Chars(tail) <= MAX_WINDOW_CHARS || |tail| == 1)
    ensures IsJoin(Append(Append([], First(tail, MAX_TAIL_MESSAGES)), First(following, MAX_FOLLOW_UP_MESSAGES)), tail,
                   following)
  {
    hide Chars, Append, Unseen;
    assert [] + tail == tail;
    AppendFits([], tail);
    var more := First(following, MAX_FOLLOW_UP_MESSAGES);
    AppendKeeps(tail, more);
    var k := AppendIs(tail, more);
    assert more[..k] == following[..k];
    assert JoinsUpTo(Append(tail, more), tail, following, k);
  }

  /** The joined window starts with the whole tail, goes on with the unseen messages of a prefix of the next window,
      repeats none, and keeps within 52 messages and 12,000 characters (or a single message). */
  lemma ContinuationHolds(current: Window, following: Window, tailIds: seq<string>)
    requires DistinctIds(current.messages) && IsTail(tailIds, current)
    requires Chars(current.messages) <= MAX_WINDOW_CHARS || |current.messages| == 1
    ensures Continued(current, following, tailIds).Some?
    ensures var w := Continued(current, following, tailIds).value;
            && w.id == Joined(current.id, following.id)
            && IsJoin(w.messages, current.messages[|current.messages| - |tailIds|..], following.messages)
  {
    hide Chars, Append, Unseen, ById;
    var n := |current.messages| - |tailIds|;
    TailIsLookedUp(current, tailIds);
    CharsSuffix(current.messages, n);
    DistinctPart(current.messages, n, |current.messages|);
    JoinTail(current.messages[n..], following.messages);
  }

  /** What the joined window shows of some evidence: all of it exactly when every id is of the tail or of the messages
      taken from the next window. */
  lemma ShownAgain(current: Window, following: Window, tailIds: seq<string>, evidenceIds: seq<string>)
    returns (taken: nat)
    requires DistinctIds(current.messages) && IsTail(tailIds, current)
    requires Chars(current.messages) <= MAX_WINDOW_CHARS || |current.messages| == 1
    ensures var w := Continued(current, following, tailIds);
            && w.Some?
            && JoinsUpTo(w.value.messages, TailMessages(current, tailIds), following.messages, taken)
            && ((forall id :: id in evidenceIds ==> id in Ids(w.value.messages)) <==>
                (forall id :: id in evidenceIds ==> id in tailIds || id in Ids(following.messages[..taken])))
  {
    hide Chars, Append, Unseen, ById, Ids, Continued;
    ContinuationHolds(current, following, tailIds);
    var tail := TailMessages(current, tailIds);
    var messages := Continued(current, following, tailIds).value.messages;
    taken :| JoinsUpTo(messages, tail, following.messages, taken);
    forall id ensures id in Ids(messages) <==> id in tailIds || id in Ids(following.messages[..taken]) {
      UnseenIds(tail, following.messages[..taken], id);
    }
  }

  function TailMessages(window: Window, tailIds: seq<string>): seq<Message>
    requires |tailIds| <= |window.messages|
  {
    window.messages[|window.messages| - |tailIds|..]
  }

  lemma DistinctPart(s: seq<Message>, lo: nat, hi: nat)
    requires DistinctIds(s) && lo <= hi <= |s|
    ensures DistinctIds(s[lo..hi])
  {
  }

  /** The first message always fits. */
  lemma AppendStarts(more: seq<Message>)
    requires more != []
    ensures Append([], more) != []
  {
    hide Chars;
    CharsNone();
    CharsOne([], more[0]);
    AppendKeeps([more[0]], more[1..]);
    assert [] + [more[0]] == [more[0]];
  }

  lemma JoinWhole(tail: seq<Message>, more: seq<Message>)
    requires DistinctIds(tail) && 0 < |tail| <= MAX_TAIL_MESSAGES
    ensures var messages := Append(Append([], tail), more);
            messages != [] && (tail <= messages <==> Chars(tail) <= MAX_WINDOW_CHARS || |tail| == 1)
  {
    hide Chars, Append, DistinctIds;
    CharsNone();
    assert DistinctIds([]) by {
      DistinctPart(tail, 0, 0);
    }
    AppendKeeps([], tail);
    AppendStarts(tail);
    var messages := Append(Append([], tail), more);
    AppendKeeps(Append([], tail), more);
    if Chars(tail) <= MAX_WINDOW_CHARS || |tail| == 1 {
      assert [] + tail == tail;
      AppendFits([], tail);
    }
    if tail <= messages {
      assert messages == tail + messages[|tail|..];
      CharsConcat(tail, messages[|tail|..]);
    }
  }

  /** The whole tail is joined exactly when it fits, or is a single message. */
  lemma WholeTail(current: Window, following: Window, tailIds: seq<string>)
    requires DistinctIds(current.messages) && IsTail(tailIds, current)
    ensures var tail := current.messages[|current.messages| - |tailIds|..];
            var w := Continued(current, following, tailIds);
            w.Some? && (tail <= w.value.messages <==> Chars(tail) <= MAX_WINDOW_CHARS || |tail| == 1)
  {
    hide Chars, Append, ById, DistinctIds;
    var n := |current.messages| - |tailIds|;
    TailIsLookedUp(current, tailIds);
    DistinctPart(current.messages, n, |current.messages|);
    assert current.messages[n..|current.messages|] == current.messages[n..];
    JoinWhole(current.messages[n..], First(following.messages, MAX_FOLLOW_UP_MESSAGES));
  }

  /** With at most 12,000 characters to a window (the default), every validated tail of every window but the last is
      joined whole to the next window. */
  lemma CutWindowsContinue(s: seq<Message>, o: Limits, k: nat, tailIds: seq<string>)
    requires Accepted(o) && o.maxChars <= MAX_WINDOW_CHARS
    requires DistinctIds(s) && InStream(s, StreamCuts(s, o)) && k + 1 < |StreamCuts(s, o)|
    requires IsTail(tailIds, Build(s, StreamCuts(s, o))[k])
    ensures var windows := Build(s, StreamCuts(s, o));
            var w := Continued(windows[k], windows[k + 1], tailIds);
            && w.Some? && w.value.id == Joined(Natural(k + 1), Natural(k + 2))
            && IsJoin(w.value.messages, windows[k].messages[|windows[k].messages| - |tailIds|..],
                      windows[k + 1].messages)
  {
    hide Chars, Continued, IsJoin, Build, StreamCuts, DistinctIds, IsTail;
    WindowAt(s, o, k);
    WindowAt(s, o, k + 1);
    var c := StreamCuts(s, o)[k];
    DistinctPart(s, c.lo, c.hi);
    var windows := Build(s, StreamCuts(s, o));
    ContinuationHolds(windows[k], windows[k + 1], tailIds);
  }
}
