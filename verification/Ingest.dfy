/**
 From the events of an export to the stream of messages: what cannot be used, what has been seen before, and what is
 repeated in a burst is left out and counted.
 */
module Ingest {
  import opened Continuation
  import opened ExportText
  import opened Json
  import opened Prelude
  import opened Seqs

  /** Why a message is left out. */
  datatype Reason = Unusable(reason: string) | DuplicateId | DuplicateBurst

  datatype Verdict = Usable(message: Message) | Useless(reason: string)

  /** Normalizing a raw message given the ids of the bots known by then, the id a chat's description gives the
      exporter's own account, and the digest of a folded text are parameters. */
  datatype Importer = Importer(
    normalize: (Value, set<string>) -> Verdict,
    selfId: Value -> Option<string>,
    digest: string -> string,
    burstSeconds: real)
  {
    function Key(m: Message): (string, string) {
      (m.senderId, digest(m.content))
    }

    /** A message comes soon enough after one sent at that time. */
    predicate Soon(m: Message, earlier: real) {
      0.0 <= m.timestamp - earlier <= burstSeconds
    }
  }

  datatype Analysis = Analysis(
    messages: seq<Message>,
    total: nat,
    retained: nat,
    noise: multiset<Reason>,
    senders: multiset<string>,
    start: Option<real>,
    end: Option<real>)

  // ----- what is read

  function Bots(events: seq<Event>, known: set<string>, c: Importer): set<string> {
    if events == [] then known
    else
      var bots := Bots(events[..|events| - 1], known, c);
      match events[|events| - 1]
      case Posted(_) => bots
      case Field(key, value) =>
        if key == Codes("chatInfo") && c.selfId(value).Some? then bots + {c.selfId(value).value} else bots
  }

  /** The usable messages, in order. */
  function Normal(events: seq<Event>, known: set<string>, c: Importer): seq<Message> {
    if events == [] then []
    else
      var init, last := events[..|events| - 1], events[|events| - 1];
      var messages := Normal(init, known, c);
      if !last.Posted? then messages
      else match c.normalize(last.value, Bots(init, known, c))
        case Usable(m) => messages + [m]
        case Useless(_) => messages
  }

  /** The reasons messages cannot be used for, in order. */
  function Rejected(events: seq<Event>, known: set<string>, c: Importer): seq<string> {
    if events == [] then []
    else
      var init, last := events[..|events| - 1], events[|events| - 1];
      var reasons := Rejected(init, known, c);
      if !last.Posted? then reasons
      else match c.normalize(last.value, Bots(init, known, c))
        case Usable(_) => reasons
        case Useless(reason) => reasons + [reason]
  }

  /** Of messages with one id the first. */
  function FirstSeen(messages: seq<Message>): seq<Message> {
    if messages == [] then []
    else
      var init, last := messages[..|messages| - 1], messages[|messages| - 1];
      if last.messageId in Ids(init) then FirstSeen(init) else FirstSeen(init) + [last]
  }

  /** When the last message with the key was sent, and its number in its burst. */
  function Latest(messages: seq<Message>, key: (string, string), c: Importer): Option<(real, nat)>
    decreases |messages|, 0
  {
    if messages == [] then None
    else
      var last := messages[|messages| - 1];
      if c.Key(last) == key then Some((last.timestamp, Number(messages, c)))
      else Latest(messages[..|messages| - 1], key, c)
  }

  /** The number of the last message in its burst. */
  function Number(messages: seq<Message>, c: Importer): (r: nat)
    requires messages != []
    ensures r >= 1
    decreases |messages| - 1, 1
  {
    var last := messages[|messages| - 1];
    var previous := Latest(messages[..|messages| - 1], c.Key(last), c);
    if previous.Some? && c.Soon(last, previous.value.0) then previous.value.1 + 1 else 1
  }

  /** The messages that are not the third or a later one of a burst. */
  function Calm(messages: seq<Message>, c: Importer): seq<Message> {
    if messages == [] then []
    else
      var rest := Calm(messages[..|messages| - 1], c);
      if Number(messages, c) > 2 then rest else rest + [messages[|messages| - 1]]
  }

  /** The stream an export gives. */
  function Ingested(events: seq<Event>, known: set<string>, c: Importer): seq<Message> {
    Calm(FirstSeen(Normal(events, known, c)), c)
  }

  function Senders(messages: seq<Message>): (r: seq<string>)
    ensures |r| == |messages| && forall k :: 0 <= k < |messages| ==> r[k] == messages[k].senderId
  {
    seq(|messages|, k requires 0 <= k < |messages| => messages[k].senderId)
  }

  /** The least and the greatest time, if there are any. */
  ghost predicate Spans(messages: seq<Message>, start: Option<real>, end: Option<real>) {
    if messages == [] then start == None && end == None
    else
      && start.Some? && end.Some?
      && (forall k :: 0 <= k < |messages| ==> start.value <= messages[k].timestamp <= end.value)
      && (exists k :: 0 <= k < |messages| && messages[k].timestamp == start.value)
      && (exists k :: 0 <= k < |messages| && messages[k].timestamp == end.value)
  }

  // ----- the loop

  /** All counters are those of the messages read so far. */
  ghost predicate Tally(r: Analysis, normal: seq<Message>, rejected: seq<string>, c: Importer) {
    && r.messages == Calm(FirstSeen(normal), c)
    && r.total == |normal| + |rejected| && r.retained == |r.messages| && |r.noise| + r.retained == r.total
    && (forall reason :: r.noise[Unusable(reason)] == multiset(rejected)[reason])
    && r.noise[DuplicateId] == |normal| - |FirstSeen(normal)|
    && r.noise[DuplicateBurst] == |FirstSeen(normal)| - |r.messages|
    && r.senders == multiset(Senders(r.messages))
    && Spans(r.messages, r.start, r.end)
  }

  method AnalyzeExport(events: seq<Event>, known: set<string>, c: Importer) returns (r: Analysis)
    ensures Tally(r, Normal(events, known, c), Rejected(events, known, c), c)
    ensures r.messages == Ingested(events, known, c)
  {
    hide *;
    var bots := known;
    var seen: set<string> := {};
    var bursts: map<(string, string), (real, nat)> := map[];
    r := Analysis([], 0, 0, multiset{}, multiset{}, None, None);
    NothingRead(known, c);
    for n := 0 to |events|
      invariant bots == Bots(events[..n], known, c)
      invariant Remembers(seen, bursts, Normal(events[..n], known, c), c)
      invariant Tally(r, Normal(events[..n], known, c), Rejected(events[..n], known, c), c)
    {
      EventRead(events, n, known, c);
      ghost var normal, rejected := Normal(events[..n], known, c), Rejected(events[..n], known, c);
      var event := events[n];
      if event.Field? {
        if event.key == Codes("chatInfo") {
          var id := c.selfId(event.value);
          if id.Some? {
            bots := bots + {id.value};
          }
        }
      } else {
        var verdict := c.normalize(event.value, bots);
        if verdict.Useless? {
          UselessAdds(r, normal, rejected, verdict.reason, c);
          r := r.(total := r.total + 1, noise := r.noise + multiset{Unusable(verdict.reason)});
        } else {
          var m := verdict.message;
          Remembered(seen, bursts, normal, m, c);
          if m.messageId in seen {
            SeenAdds(r, normal, rejected, m, c);
            r := r.(total := r.total + 1, noise := r.noise + multiset{DuplicateId});
          } else {
            var key := c.Key(m);
            var count := 1;
            if key in bursts && c.Soon(m, bursts[key].0) {
              count := bursts[key].1 + 1;
            }
            seen := seen + {m.messageId};
            bursts := bursts[key := (m.timestamp, count)];
            if count > 2 {
              BurstAdds(r, normal, rejected, m, c);
              r := r.(total := r.total + 1, noise := r.noise + multiset{DuplicateBurst});
            } else {
              var start := if r.start == None || m.timestamp < r.start.value then m.timestamp else r.start.value;
              var end := if r.end == None || m.timestamp > r.end.value then m.timestamp else r.end.value;
              KeptAdds(r, normal, rejected, m, c);
              r := Analysis(r.messages + [m], r.total + 1, r.retained + 1, r.noise, r.senders + multiset{m.senderId},
                            Some(start), Some(end));
            }
          }
        }
      }
    }
    assert events[..|events|] == events;
    TallyIs(r, events, known, c);
  }

  lemma TallyIs(r: Analysis, events: seq<Event>, known: set<string>, c: Importer)
    requires Tally(r, Normal(events, known, c), Rejected(events, known, c), c)
    ensures r.messages == Ingested(events, known, c)
  {
  }

  /** The ids seen are those of the messages so far, and each key's last burst is known. */
  ghost predicate Remembers(seen: set<string>, bursts: map<(string, string), (real, nat)>, normal: seq<Message>,
                            c: Importer)
  {
    && (forall id :: id in seen <==> id in Ids(normal))
    && (forall key :: (key in bursts <==> Latest(FirstSeen(normal), key, c).Some?)
                      && (key in bursts ==> Latest(FirstSeen(normal), key, c) == Some(bursts[key])))
  }

  lemma NothingRead(known: set<string>, c: Importer)
    ensures Bots([], known, c) == known && Remembers({}, map[], Normal([], known, c), c)
    ensures Tally(Analysis([], 0, 0, multiset{}, multiset{}, None, None), Normal([], known, c), Rejected([], known, c),
                  c)
  {
  }

  /** What one more event does to what is read. */
  lemma EventRead(events: seq<Event>, n: nat, known: set<string>, c: Importer)
    requires n < |events|
    ensures var before, after := events[..n], events[..n + 1];
            match events[n]
            case Field(key, value) =>
              && Normal(after, known, c) == Normal(before, known, c)
              && Rejected(after, known, c) == Rejected(before, known, c)
              && Bots(after, known, c) ==
                 if key == Codes("chatInfo") && c.selfId(value).Some?
                 then Bots(before, known, c) + {c.selfId(value).value}
                 else Bots(before, known, c)
            case Posted(value) =>
              && Bots(after, known, c) == Bots(before, known, c)
              && match c.normalize(value, Bots(before, known, c))
                 case Usable(m) =>
                   && Normal(after, known, c) == Normal(before, known, c) + [m]
                   && Rejected(after, known, c) == Rejected(before, known, c)
                 case Useless(reason) =>
                   && Normal(after, known, c) == Normal(before, known, c)
                   && Rejected(after, known, c) == Rejected(before, known, c) + [reason]
  {
    assert events[..n + 1][..n] == events[..n];
  }

  lemma UselessAdds(r: Analysis, normal: seq<Message>, rejected: seq<string>, reason: string,
                   c: Importer)
    requires Tally(r, normal, rejected, c)
    ensures Tally(r.(total := r.total + 1, noise := r.noise + multiset{Unusable(reason)}), normal,
                  rejected + [reason], c)
  {
    hide FirstSeen, Calm, Senders, Spans;
  }

  lemma FirstSnoc(normal: seq<Message>, m: Message)
    ensures FirstSeen(normal + [m]) == if m.messageId in Ids(normal) then FirstSeen(normal) else FirstSeen(normal) + [m]
  {
    assert (normal + [m])[..|normal|] == normal;
  }

  lemma CalmSnoc(messages: seq<Message>, m: Message, c: Importer)
    ensures Calm(messages + [m], c) == if Number(messages + [m], c) > 2 then Calm(messages, c)
            else Calm(messages, c) + [m]
  {
    hide Number;
    assert (messages + [m])[..|messages|] == messages;
  }

  lemma SeenAdds(r: Analysis, normal: seq<Message>, rejected: seq<string>, m: Message, c: Importer)
    requires Tally(r, normal, rejected, c) && m.messageId in Ids(normal)
    ensures Tally(r.(total := r.total + 1, noise := r.noise + multiset{DuplicateId}), normal + [m], rejected, c)
  {
    hide FirstSeen, Calm, Senders, Spans, Ids;
    FirstSnoc(normal, m);
  }

  lemma BurstAdds(r: Analysis, normal: seq<Message>, rejected: seq<string>, m: Message, c: Importer)
    requires Tally(r, normal, rejected, c) && m.messageId !in Ids(normal) && Number(FirstSeen(normal) + [m], c) > 2
    ensures Tally(r.(total := r.total + 1, noise := r.noise + multiset{DuplicateBurst}), normal + [m], rejected, c)
  {
    hide FirstSeen, Calm, Senders, Spans, Ids, Number;
    FirstSnoc(normal, m);
    CalmSnoc(FirstSeen(normal), m, c);
  }

  lemma SpansSnoc(messages: seq<Message>, m: Message, start: Option<real>, end: Option<real>)
    requires Spans(messages, start, end)
    ensures Spans(messages + [m], Some(if start == None || m.timestamp < start.value then m.timestamp else start.value),
                  Some(if end == None || m.timestamp > end.value then m.timestamp else end.value))
  {
    var all := messages + [m];
    assert all[|messages|] == m;
    if messages != [] {
      var i :| 0 <= i < |messages| && messages[i].timestamp == start.value;
      var j :| 0 <= j < |messages| && messages[j].timestamp == end.value;
      assert all[i] == messages[i] && all[j] == messages[j];
    }
  }

  lemma SendersSnoc(messages: seq<Message>, m: Message)
    ensures multiset(Senders(messages + [m])) == multiset(Senders(messages)) + multiset{m.senderId}
  {
    assert Senders(messages + [m]) == Senders(messages) + [m.senderId];
  }

  lemma KeptAdds(r: Analysis, normal: seq<Message>, rejected: seq<string>, m: Message, c: Importer)
    requires Tally(r, normal, rejected, c) && m.messageId !in Ids(normal) && Number(FirstSeen(normal) + [m], c) <= 2
    ensures Tally(Analysis(r.messages + [m], r.total + 1, r.retained + 1, r.noise, r.senders + multiset{m.senderId},
                           Some(if r.start == None || m.timestamp < r.start.value then m.timestamp else r.start.value),
                           Some(if r.end == None || m.timestamp > r.end.value then m.timestamp else r.end.value)),
                  normal + [m], rejected, c)
  {
    hide FirstSeen, Calm, Senders, Spans, Ids, Number;
    FirstSnoc(normal, m);
    CalmSnoc(FirstSeen(normal), m, c);
    SpansSnoc(r.messages, m, r.start, r.end);
    SendersSnoc(r.messages, m);
  }

  /** The next message's number in its burst is known from what is remembered, and remembered in turn. */
  lemma Remembered(seen: set<string>, bursts: map<(string, string), (real, nat)>, normal: seq<Message>, m: Message,
                   c: Importer)
    requires Remembers(seen, bursts, normal, c)
    ensures m.messageId in seen <==> m.messageId in Ids(normal)
    ensures m.messageId in seen ==> Remembers(seen, bursts, normal + [m], c)
    ensures m.messageId !in seen ==>
              var key := c.Key(m);
              var count := if key in bursts && c.Soon(m, bursts[key].0) then bursts[key].1 + 1 else 1;
              && count == Number(FirstSeen(normal) + [m], c)
              && Remembers(seen + {m.messageId}, bursts[key := (m.timestamp, count)], normal + [m], c)
  {
    hide FirstSeen, Latest, Number;
    IdsSnoc(normal, m);
    FirstSnoc(normal, m);
    NumberSnoc(FirstSeen(normal), m, c);
    forall key ensures Latest(FirstSeen(normal) + [m], key, c) ==
                       if c.Key(m) == key then Some((m.timestamp, Number(FirstSeen(normal) + [m], c)))
                       else Latest(FirstSeen(normal), key, c)
    {
      LatestSnoc(FirstSeen(normal), m, key, c);
    }
  }

  lemma LatestSnoc(messages: seq<Message>, m: Message, key: (string, string), c: Importer)
    ensures Latest(messages + [m], key, c) ==
            if c.Key(m) == key then Some((m.timestamp, Number(messages + [m], c))) else Latest(messages, key, c)
  {
    assert (messages + [m])[..|messages|] == messages;
  }

  lemma NumberSnoc(messages: seq<Message>, m: Message, c: Importer)
    ensures Number(messages + [m], c) ==
            var previous := Latest(messages, c.Key(m), c);
            if previous.Some? && c.Soon(m, previous.value.0) then previous.value.1 + 1 else 1
  {
    assert (messages + [m])[..|messages|] == messages;
  }

  // ----- what the stream is

  lemma {:induction false} FirstSeenHas(messages: seq<Message>, id: string)
    ensures id in Ids(FirstSeen(messages)) <==> id in Ids(messages)
  {
    hide Ids;
    if messages != [] {
      var init, last := messages[..|messages| - 1], messages[|messages| - 1];
      assert messages == init + [last];
      FirstSeenHas(init, id);
      IdsSnoc(init, last);
      IdsSnoc(FirstSeen(init), last);
    }
  }

  /** No id occurs twice among the messages seen first. */
  lemma {:induction false} FirstSeenDistinct(messages: seq<Message>)
    ensures DistinctIds(FirstSeen(messages))
  {
    hide DistinctIds, Ids;
    if messages == [] {
      NoneDistinct();
    } else {
      var init, last := messages[..|messages| - 1], messages[|messages| - 1];
      FirstSeenDistinct(init);
      FirstSeenHas(init, last.messageId);
      if last.messageId !in Ids(init) {
        DistinctIdsSnoc(FirstSeen(init), last);
      }
    }
  }

  lemma NoneDistinct()
    ensures DistinctIds([])
  {
  }

  lemma {:induction false} CalmIds(messages: seq<Message>, c: Importer, id: string)
    ensures id in Ids(Calm(messages, c)) ==> id in Ids(messages)
  {
    hide Ids, Number;
    if messages != [] {
      var init, last := messages[..|messages| - 1], messages[|messages| - 1];
      assert messages == init + [last];
      CalmIds(init, c, id);
      IdsSnoc(init, last);
      IdsSnoc(Calm(init, c), last);
    }
  }

  lemma {:induction false} CalmDistinct(messages: seq<Message>, c: Importer)
    requires DistinctIds(messages)
    ensures DistinctIds(Calm(messages, c))
  {
    hide DistinctIds, Ids, Number;
    if messages == [] {
      NoneDistinct();
    } else {
      var init, last := messages[..|messages| - 1], messages[|messages| - 1];
      assert messages == init + [last];
      DistinctPart(messages, 0, |init|);
      CalmDistinct(init, c);
      LastIsNew(init, last);
      CalmIds(init, c, last.messageId);
      if Number(messages, c) <= 2 {
        DistinctIdsSnoc(Calm(init, c), last);
      }
    }
  }

  lemma LastIsNew(init: seq<Message>, last: Message)
    requires DistinctIds(init + [last])
    ensures last.messageId !in Ids(init)
  {
    forall k | 0 <= k < |init| ensures Ids(init)[k] != last.messageId {
      assert (init + [last])[k] == init[k] && (init + [last])[|init|] == last;
    }
  }

  /** Whatever an export holds, the stream it gives has no id twice. */
  lemma IngestedDistinct(events: seq<Event>, known: set<string>, c: Importer)
    ensures DistinctIds(Ingested(events, known, c))
  {
    hide DistinctIds, FirstSeen, Calm;
    FirstSeenDistinct(Normal(events, known, c));
    CalmDistinct(FirstSeen(Normal(events, known, c)), c);
  }

  // ----- bursts

  /** The message before k by the same sender with the same folded text, if there is one. */
  ghost predicate Previous(messages: seq<Message>, j: nat, k: nat, c: Importer) {
    && j < k < |messages| && Alike(messages[j], messages[k], c)
    && forall i :: j < i < k ==> !Alike(messages[i], messages[k], c)
  }

  ghost predicate Alike(a: Message, b: Message, c: Importer) {
    a.senderId == b.senderId && c.digest(a.content) == c.digest(b.content)
  }

  /** It was sent at the time of k, or up to so many seconds before. */
  ghost predicate Repeats(messages: seq<Message>, j: nat, k: nat, c: Importer) {
    && Previous(messages, j, k, c)
    && messages[j].timestamp <= messages[k].timestamp <= messages[j].timestamp + c.burstSeconds
  }

  lemma {:induction false} LatestIs(messages: seq<Message>, n: nat, key: (string, string), c: Importer) returns (j: nat)
    requires n <= |messages|
    ensures match Latest(messages[..n], key, c)
            case None => forall i :: 0 <= i < n ==> c.Key(messages[i]) != key
            case Some(l) =>
              && j < n && c.Key(messages[j]) == key && (forall i :: j < i < n ==> c.Key(messages[i]) != key)
              && l == (messages[j].timestamp, Number(messages[..j + 1], c))
  {
    hide Number;
    j := 0;
    if n > 0 {
      assert messages[..n][..n - 1] == messages[..n - 1];
      if c.Key(messages[n - 1]) == key {
        j := n - 1;
      } else {
        j := LatestIs(messages, n - 1, key, c);
      }
    }
  }

  /** A message is numbered one more than the one it repeats, or 1. */
  lemma NumberIs(messages: seq<Message>, k: nat, c: Importer)
    requires k < |messages|
    ensures if exists j :: Repeats(messages, j, k, c) then
              exists j :: Repeats(messages, j, k, c) && Number(messages[..k + 1], c) == Number(messages[..j + 1], c) + 1
            else Number(messages[..k + 1], c) == 1
  {
    hide Number, Latest;
    var key := c.Key(messages[k]);
    assert messages[..k + 1] == messages[..k] + [messages[k]];
    NumberSnoc(messages[..k], messages[k], c);
    var j := LatestIs(messages, k, key, c);
    if Latest(messages[..k], key, c).Some? {
      assert Previous(messages, j, k, c);
      forall i | Previous(messages, i, k, c) ensures i == j {
        PreviousOnce(messages, i, j, k, c);
      }
      if c.Soon(messages[k], messages[j].timestamp) {
        assert Repeats(messages, j, k, c);
        assert Number(messages[..k + 1], c) == Number(messages[..j + 1], c) + 1;
      }
    }
  }

  /** A message is left out as part of a burst exactly when it repeats a message that repeats another. */
  lemma BurstIs(messages: seq<Message>, k: nat, c: Importer)
    requires k < |messages|
    ensures Number(messages[..k + 1], c) > 2 <==>
            exists i, j :: Repeats(messages, i, j, c) && Repeats(messages, j, k, c)
  {
    hide Number;
    NumberIs(messages, k, c);
    if exists j :: Repeats(messages, j, k, c) {
      var j :| Repeats(messages, j, k, c) && Number(messages[..k + 1], c) == Number(messages[..j + 1], c) + 1;
      NumberIs(messages, j, c);
      forall i | Repeats(messages, i, k, c) ensures i == j {
        PreviousOnce(messages, i, j, k, c);
      }
    }
  }

  lemma PreviousOnce(messages: seq<Message>, i: nat, j: nat, k: nat, c: Importer)
    requires Previous(messages, i, k, c) && Previous(messages, j, k, c)
    ensures i == j
  {
  }

  // ----- the stream, read off the events

  /** The id is known from the start, or the chat is described as that account's among these events. */
  ghost predicate Botlike(events: seq<Event>, n: nat, known: set<string>, c: Importer, id: string) {
    id in known || exists k :: 0 <= k < n && k < |events| && Describes(events[k], c, id)
  }

  ghost predicate Describes(event: Event, c: Importer, id: string) {
    event.Field? && event.key == Codes("chatInfo") && c.selfId(event.value) == Some(id)
  }

  /** The k-th event is a message, and this is what it is read as, given the bots known before. */
  ghost predicate ReadsAs(events: seq<Event>, known: set<string>, c: Importer, k: nat, verdict: Verdict) {
    && k < |events| && events[k].Posted?
    && exists bots :: BotsBefore(bots, events, k, known, c) && verdict == c.normalize(events[k].value, bots)
  }

  ghost predicate BotsBefore(bots: set<string>, events: seq<Event>, k: nat, known: set<string>, c: Importer) {
    forall id :: id in bots <==> Botlike(events, k, known, c, id)
  }

  ghost function Uses(events: seq<Event>, known: set<string>, c: Importer): (nat, Message) -> bool {
    (k: nat, m: Message) => ReadsAs(events, known, c, k, Usable(m))
  }

  ghost function Rejects(events: seq<Event>, known: set<string>, c: Importer): (nat, string) -> bool {
    (k: nat, reason: string) => ReadsAs(events, known, c, k, Useless(reason))
  }

  /** The message at k, no earlier one having its id. */
  ghost function Firsts(messages: seq<Message>): (nat, Message) -> bool {
    (k: nat, m: Message) =>
      k < |messages| && m == messages[k] && forall i :: 0 <= i < k ==> messages[i].messageId != m.messageId
  }

  /** The message at k, unless it repeats a message that repeats another. */
  ghost function Calms(messages: seq<Message>, c: Importer): (nat, Message) -> bool {
    (k: nat, m: Message) =>
      k < |messages| && m == messages[k] && !exists i, j :: Repeats(messages, i, j, c) && Repeats(messages, j, k, c)
  }

  /** The stream of an export: its usable messages, of those with one id the first, without those of bursts. */
  ghost predicate StreamOf(stream: seq<Message>, events: seq<Event>, known: set<string>, c: Importer) {
    exists normal, firsts ::
      && Yields(normal, |events|, Uses(events, known, c))
      && Yields(firsts, |normal|, Firsts(normal))
      && Yields(stream, |firsts|, Calms(firsts, c))
  }

  lemma {:induction false} BotsAre(events: seq<Event>, n: nat, known: set<string>, c: Importer, id: string)
    requires n <= |events|
    ensures id in Bots(events[..n], known, c) <==> Botlike(events, n, known, c, id)
  {
    if n > 0 {
      assert events[..n][..n - 1] == events[..n - 1];
      BotsAre(events, n - 1, known, c, id);
    }
  }

  lemma ReadsAre(events: seq<Event>, known: set<string>, c: Importer, k: nat)
    requires k < |events| && events[k].Posted?
    ensures forall verdict :: ReadsAs(events, known, c, k, verdict) <==>
              verdict == c.normalize(events[k].value, Bots(events[..k], known, c))
  {
    hide Botlike, Bots;
    forall id ensures id in Bots(events[..k], known, c) <==> Botlike(events, k, known, c, id) {
      BotsAre(events, k, known, c, id);
    }
    forall bots | BotsBefore(bots, events, k, known, c) ensures bots == Bots(events[..k], known, c)
    {
    }
  }

  /** The usable messages and the reasons others are not used for, event by event. */
  lemma {:induction false} NormalIs(events: seq<Event>, n: nat, known: set<string>, c: Importer)
    requires n <= |events|
    ensures Yields(Normal(events[..n], known, c), n, Uses(events, known, c))
    ensures Yields(Rejected(events[..n], known, c), n, Rejects(events, known, c))
  {
    hide Yields, ReadsAs, Bots;
    var uses, rejects := Uses(events, known, c), Rejects(events, known, c);
    if n == 0 {
      NothingYields([], uses);
      NothingYields([], rejects);
    } else {
      NormalIs(events, n - 1, known, c);
      EventRead(events, n - 1, known, c);
      YieldsSnoc(Normal(events[..n - 1], known, c), n - 1, uses);
      YieldsSnoc(Rejected(events[..n - 1], known, c), n - 1, rejects);
      if events[n - 1].Posted? {
        ReadsAre(events, known, c, n - 1);
        hide Normal, Rejected;
        var verdict := c.normalize(events[n - 1].value, Bots(events[..n - 1], known, c));
        match verdict
        case Usable(m) => assert uses(n - 1, m);
        case Useless(reason) => assert rejects(n - 1, reason);
      } else {
        FieldsReadAsNothing(events, known, c, n - 1);
      }
    }
  }

  lemma FieldsReadAsNothing(events: seq<Event>, known: set<string>, c: Importer, k: nat)
    requires k < |events| && !events[k].Posted?
    ensures forall verdict :: !ReadsAs(events, known, c, k, verdict)
  {
  }

  /** Those are seen first, in order, whose id no earlier one has. */
  lemma {:induction false} FirstSeenIs(messages: seq<Message>, n: nat)
    requires n <= |messages|
    ensures Yields(FirstSeen(messages[..n]), n, Firsts(messages))
  {
    hide Yields;
    if n == 0 {
      NothingYields([], Firsts(messages));
    } else {
      FirstSeenIs(messages, n - 1);
      assert messages[..n] == messages[..n - 1] + [messages[n - 1]];
      FirstSnoc(messages[..n - 1], messages[n - 1]);
      YieldsSnoc(FirstSeen(messages[..n - 1]), n - 1, Firsts(messages));
      IdsBefore(messages, n - 1);
      hide FirstSeen, Ids;
    }
  }

  lemma IdsBefore(messages: seq<Message>, k: nat)
    requires k < |messages|
    ensures messages[k].messageId in Ids(messages[..k]) <==>
            exists i :: 0 <= i < k && messages[i].messageId == messages[k].messageId
  {
    forall i | 0 <= i < k ensures Ids(messages[..k])[i] == messages[i].messageId {
    }
  }

  /** Those are kept, in order, that are not a third or later one of a burst. */
  lemma {:induction false} CalmIs(messages: seq<Message>, n: nat, c: Importer)
    requires n <= |messages|
    ensures Yields(Calm(messages[..n], c), n, Calms(messages, c))
  {
    hide Yields, Number, Repeats;
    var calms := Calms(messages, c);
    if n == 0 {
      NothingYields([], calms);
    } else {
      CalmIs(messages, n - 1, c);
      assert messages[..n] == messages[..n - 1] + [messages[n - 1]];
      CalmSnoc(messages[..n - 1], messages[n - 1], c);
      YieldsSnoc(Calm(messages[..n - 1], c), n - 1, calms);
      BurstIs(messages, n - 1, c);
      hide Calm;
    }
  }

  /** What is ingested is the stream of the export, and there is one such stream only. */
  lemma IngestedIs(events: seq<Event>, known: set<string>, c: Importer)
    ensures forall stream :: StreamOf(stream, events, known, c) <==> stream == Ingested(events, known, c)
  {
    hide Yields, ReadsAs, Repeats, Normal, FirstSeen, Calm;
    var normal := Normal(events, known, c);
    var firsts := FirstSeen(normal);
    assert events[..|events|] == events && normal[..|normal|] == normal && firsts[..|firsts|] == firsts;
    NormalIs(events, |events|, known, c);
    FirstSeenIs(normal, |normal|);
    CalmIs(firsts, |firsts|, c);
    forall stream | StreamOf(stream, events, known, c) ensures stream == Calm(firsts, c) {
      var normal', firsts' :| Yields(normal', |events|, Uses(events, known, c))
        && Yields(firsts', |normal'|, Firsts(normal')) && Yields(stream, |firsts'|, Calms(firsts', c));
      UsesOnce(events, known, c);
      YieldsOnce(normal', normal, |events|, Uses(events, known, c));
      YieldsOnce(firsts', firsts, |normal|, Firsts(normal));
      YieldsOnce(stream, Calm(firsts, c), |firsts|, Calms(firsts, c));
    }
  }

  lemma UsesOnce(events: seq<Event>, known: set<string>, c: Importer)
    ensures forall k: nat, m, m' :: Uses(events, known, c)(k, m) && Uses(events, known, c)(k, m') ==> m == m'
  {
    hide Botlike, Bots;
    forall k: nat, m, m' | ReadsAs(events, known, c, k, Usable(m)) && ReadsAs(events, known, c, k, Usable(m'))
      ensures m == m'
    {
      ReadsAre(events, known, c, k);
    }
  }
}
