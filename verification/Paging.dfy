/**
 Extracting one window: the model is asked for page after page of candidates, until it has no more to give, gives
 nothing new, gives something malformed, or has filled the last allowed page.
 */
module Paging {
  import opened Candidates
  import opened Continuation
  import opened Grounding
  import opened Merge
  import opened Prelude
  import opened Reading
  import opened Seqs
  import opened Windows

  const MAX_WINDOW_EXTRACTION_PAGES: nat := 20
  const MAX_SOURCE_LENGTH: nat := 128

  /** What a learning run fixes for all windows.  The model's answer to any page of any window is arbitrary, and
      None when it cannot be read. */
  datatype Job = Job(
    eligible: set<string>,
    excluded: set<string>,
    memories: bool,
    profiles: bool,
    host: Host,
    rules: Rules,
    nameOf: WindowId -> string,
    answer: (Window, nat) -> Option<Reply>)

  function Sources(name: string): seq<string> {
    if NotBlank(name) then [First(name, MAX_SOURCE_LENGTH)] else []
  }

  /** The rules candidates of a window are read by. */
  function ContextOf(window: Window, job: Job): Context {
    Context(ById(window.messages), if job.eligible == {} then None else Some(job.eligible), job.excluded, false,
            job.memories, job.profiles, Sources(job.nameOf(window.id)), job.host, job.rules)
  }

  function Last<T>(s: seq<T>, n: nat): seq<T> {
    if |s| <= n then s else s[|s| - n..]
  }

  predicate EndsWith<T(==)>(s: seq<T>, end: seq<T>) {
    |end| <= |s| && s[|s| - |end|..] == end
  }

  /** The ids a request for a follow-up names, if they are the end of the window. */
  function TailOf(reply: Reply, window: Window): Option<seq<string>> {
    if reply.boundary == None || reply.boundary.value == None then None
    else
      var tail := EvidenceIds(Some(Last(reply.boundary.value.value, MAX_TAIL_MESSAGES)), ById(window.messages));
      if tail != [] && EndsWith(Distinct(Ids(window.messages)), tail) then Some(tail) else None
  }

  datatype WindowResult = WindowResult(
    candidates: HistoryCandidates,
    tail: Option<seq<string>>,
    pages: nat,
    complete: bool)

  function Latest<T>(earlier: Option<T>, now: Option<T>): Option<T> {
    if now.Some? then now else earlier
  }

  /** What is left of an extraction when page `page` is about to be requested; None is an error. */
  function From(page: nat, acc: HistoryCandidates, tail: Option<seq<string>>, window: Window,
                job: Job): Option<WindowResult>
    requires 1 <= page <= MAX_WINDOW_EXTRACTION_PAGES
    decreases MAX_WINDOW_EXTRACTION_PAGES - page
  {
    match job.answer(window, page)
    case None => if page == 1 then None else Some(WindowResult(acc, tail, page, false))
    case Some(reply) =>
      var merged := MergeWindows([acc, Parse(reply, ContextOf(window, job))], job.host);
      var tail' := Latest(tail, TailOf(reply, window));
      if !reply.hasMore then Some(WindowResult(merged, tail', page, true))
      else if merged.Total() == acc.Total() || page == MAX_WINDOW_EXTRACTION_PAGES then
        Some(WindowResult(merged, tail', page, false))
      else From(page + 1, merged, tail', window, job)
  }

  function Extracted(window: Window, job: Job): Option<WindowResult> {
    From(1, NONE, None, window, job)
  }

  /** The number of model calls an extraction takes. */
  function Calls(result: Option<WindowResult>): nat {
    if result == None then 1 else result.value.pages
  }

  /** The loop; `notified` are the page numbers reported as their responses arrive. */
  method ExtractWindowResult(window: Window, job: Job) returns (r: Option<WindowResult>, notified: seq<nat>)
    ensures r == Extracted(window, job)
    ensures |notified| == Calls(r) && forall k :: 0 <= k < |notified| ==> notified[k] == k + 1
  {
    hide MergeWindows, Parse, TailOf;
    var accumulated, tail: Option<seq<string>>, complete := NONE, None, false;
    var page: nat := 0;
    notified := [];
    while page < MAX_WINDOW_EXTRACTION_PAGES
      invariant page < MAX_WINDOW_EXTRACTION_PAGES && !complete
      invariant From(page + 1, accumulated, tail, window, job) == Extracted(window, job)
      invariant |notified| == page && forall k :: 0 <= k < page ==> notified[k] == k + 1
      decreases MAX_WINDOW_EXTRACTION_PAGES - page
    {
      page := page + 1;
      var answer := job.answer(window, page);
      notified := notified + [page];
      if answer == None {
        if page == 1 {
          return None, notified;
        }
        break;
      }
      var previous := accumulated.Total();
      var candidates := ParseHistoryWindowResult(answer.value, ContextOf(window, job));
      accumulated := MergeWindowCandidates([accumulated, candidates], job.host);
      tail := Latest(tail, TailOf(answer.value, window));
      if !answer.value.hasMore {
        complete := true;
        break;
      }
      if accumulated.Total() == previous || page == MAX_WINDOW_EXTRACTION_PAGES {
        break;
      }
    }
    r := Some(WindowResult(accumulated, tail, page, complete));
  }

  // ----- what the pages come to

  /** The candidates of each of the first `n` pages that can be read. */
  function Parses(window: Window, n: nat, job: Job): seq<HistoryCandidates> {
    if n == 0 then []
    else match job.answer(window, n)
      case None => Parses(window, n - 1, job)
      case Some(reply) => Parses(window, n - 1, job) + [Parse(reply, ContextOf(window, job))]
  }

  /** The last valid follow-up request of the first `n` pages. */
  function LastTail(window: Window, n: nat, job: Job): Option<seq<string>> {
    if n == 0 then None
    else match job.answer(window, n)
      case None => LastTail(window, n - 1, job)
      case Some(reply) => Latest(LastTail(window, n - 1, job), TailOf(reply, window))
  }

  function Gathered(window: Window, n: nat, job: Job): HistoryCandidates {
    MergeWindows(Parses(window, n, job), job.host)
  }

  /** Page `k` was read, announced more, and brought something new. */
  ghost predicate Continues(window: Window, k: nat, job: Job) {
    && k > 0 && job.answer(window, k).Some? && job.answer(window, k).value.hasMore
    && Gathered(window, k, job).Total() > Gathered(window, k - 1, job).Total()
  }

  /** Every page but the last continues; the candidates are those of all readable pages merged at once; and the last
      page is the first that ends the extraction. */
  ghost predicate IsExtraction(r: WindowResult, window: Window, job: Job) {
    var last := job.answer(window, r.pages);
    && 1 <= r.pages <= MAX_WINDOW_EXTRACTION_PAGES
    && (forall k :: 1 <= k < r.pages ==> Continues(window, k, job))
    && (r.pages == MAX_WINDOW_EXTRACTION_PAGES || !Continues(window, r.pages, job))
    && r.candidates == Gathered(window, r.pages, job)
    && r.tail == LastTail(window, r.pages, job)
    && (r.complete <==> last.Some? && !last.value.hasMore)
  }

  lemma GatherSnoc(results: seq<HistoryCandidates>, p: HistoryCandidates, kind: Kind)
    ensures Gather(results + [p], kind) == Gather(results, kind) + p.Of(kind)
  {
    SnocParts(results, p);
  }

  /** A merge of more results keeps every key of a merge of fewer, in place. */
  lemma MergeGrows(results: seq<HistoryCandidates>, p: HistoryCandidates, kind: Kind, host: Host)
    ensures Keys(MergeWindows(results, host).Of(kind), host) <= Keys(MergeWindows(results + [p], host).Of(kind), host)
  {
    hide Dedup, Gather, FoldOf;
    var a, b := Gather(results, kind), p.Of(kind);
    GatherSnoc(results, p, kind);
    DedupIsMerged(a, host);
    DedupIsMerged(a + b, host);
    KeysConcat(a, b, host);
    DistinctPrefix(Keys(a, host), Keys(b, host));
  }

  lemma TotalGrows(results: seq<HistoryCandidates>, p: HistoryCandidates, host: Host)
    ensures MergeWindows(results, host).Total() <= MergeWindows(results + [p], host).Total()
  {
    hide MergeWindows;
    MergeGrows(results, p, Expression, host);
    MergeGrows(results, p, Behavior, host);
    MergeGrows(results, p, Jargon, host);
    MergeGrows(results, p, Memory, host);
    MergeGrows(results, p, Profile, host);
  }

  lemma GatherTwo(a: HistoryCandidates, b: HistoryCandidates, kind: Kind)
    ensures Gather([a, b], kind) == a.Of(kind) + b.Of(kind)
  {
    assert [a, b][..1] == [a] && [a][..0] == [];
    assert Gather([a], kind) == Gather([], kind) + a.Of(kind);
  }

  /** Merging page by page is merging all pages at once. */
  lemma MergeStep(results: seq<HistoryCandidates>, p: HistoryCandidates, host: Host)
    ensures MergeWindows([MergeWindows(results, host), p], host) == MergeWindows(results + [p], host)
  {
    hide Dedup, Gather;
    var m := MergeWindows(results, host);
    forall kind: Kind ensures Dedup(Gather([m, p], kind), host) == Dedup(Gather(results + [p], kind), host) {
      GatherTwo(m, p, kind);
      GatherSnoc(results, p, kind);
      AbsorbLeft(Gather(results, kind), p.Of(kind), host);
    }
  }

  /** One readable page: merged into what was gathered, and counted. */
  lemma PageGathered(window: Window, n: nat, job: Job)
    requires n > 0 && job.answer(window, n).Some?
    ensures MergeWindows([Gathered(window, n - 1, job), Parse(job.answer(window, n).value, ContextOf(window, job))],
                         job.host)
            == Gathered(window, n, job)
    ensures Gathered(window, n - 1, job).Total() <= Gathered(window, n, job).Total()
  {
    hide MergeWindows, Parse;
    var results, p := Parses(window, n - 1, job), Parse(job.answer(window, n).value, ContextOf(window, job));
    MergeStep(results, p, job.host);
    TotalGrows(results, p, job.host);
  }

  lemma {:induction false} FromIs(page: nat, window: Window, job: Job)
    requires 1 <= page <= MAX_WINDOW_EXTRACTION_PAGES
    requires forall k :: 1 <= k < page ==> Continues(window, k, job)
    requires page == 1 ==> job.answer(window, page).Some?
    ensures var r := From(page, Gathered(window, page - 1, job), LastTail(window, page - 1, job), window, job);
            r.Some? && IsExtraction(r.value, window, job)
    decreases MAX_WINDOW_EXTRACTION_PAGES - page
  {
    hide MergeWindows, Parse, TailOf;
    var answer := job.answer(window, page);
    if answer.Some? {
      PageGathered(window, page, job);
      if answer.value.hasMore && page < MAX_WINDOW_EXTRACTION_PAGES
         && Gathered(window, page, job).Total() != Gathered(window, page - 1, job).Total() {
        FromIs(page + 1, window, job);
      }
    }
  }

  lemma NothingMerged(host: Host)
    ensures MergeWindows([], host) == NONE
  {
  }

  /** An extraction fails exactly when its first page cannot be read, and otherwise is what `IsExtraction` says. */
  lemma ExtractedIs(window: Window, job: Job)
    ensures Extracted(window, job).Some? <==> job.answer(window, 1).Some?
    ensures Extracted(window, job).Some? ==> IsExtraction(Extracted(window, job).value, window, job)
  {
    hide IsExtraction;
    NothingMerged(job.host);
    if job.answer(window, 1).Some? {
      FromIs(1, window, job);
    }
  }

  /** Every page before the last adds a candidate. */
  lemma EachPageAdds(window: Window, job: Job)
    requires Extracted(window, job).Some?
    ensures var r := Extracted(window, job).value;
            r.pages <= MAX_WINDOW_EXTRACTION_PAGES && r.candidates.Total() >= r.pages - 1
  {
    hide Gathered;
    ExtractedIs(window, job);
    var r := Extracted(window, job).value;
    PagesAdd(window, r.pages - 1, job);
    if job.answer(window, r.pages).Some? {
      PageGathered(window, r.pages, job);
    } else {
      UnreadPage(window, r.pages, job);
    }
  }

  lemma UnreadPage(window: Window, n: nat, job: Job)
    requires n > 0 && job.answer(window, n) == None
    ensures Gathered(window, n, job) == Gathered(window, n - 1, job)
  {
  }

  lemma {:induction false} PagesAdd(window: Window, n: nat, job: Job)
    requires forall k :: 1 <= k <= n ==> Continues(window, k, job)
    ensures Gathered(window, n, job).Total() >= n
  {
    hide Gathered;
    if n > 0 {
      PagesAdd(window, n - 1, job);
      assert Continues(window, n, job);
    }
  }

  // ----- grounding

  lemma {:induction false} ParsesGrounded(window: Window, n: nat, job: Job)
    ensures EachGrounded(Parses(window, n, job), ContextOf(window, job))
  {
    hide WellGrounded, Parse;
    if n > 0 {
      ParsesGrounded(window, n - 1, job);
      if job.answer(window, n).Some? {
        ParseGrounded(job.answer(window, n).value, ContextOf(window, job));
      }
    }
  }

  /** Whatever the model answers on any page, every candidate of the window meets the rules of its kind. */
  lemma ExtractedGrounded(window: Window, job: Job)
    requires Extracted(window, job).Some?
    ensures WellGrounded(Extracted(window, job).value.candidates, ContextOf(window, job))
  {
    hide WellGrounded, EachGrounded;
    ExtractedIs(window, job);
    var n := Extracted(window, job).value.pages;
    ParsesGrounded(window, n, job);
    MergeWindowsGrounded(Parses(window, n, job), ContextOf(window, job));
  }

  /** Of any window, whatever the model answers: a candidate cites, without repetition, only messages of that window,
      none by an excluded person, and where only some people may be learned from, only theirs; a behaviour also bots'.
      */
  lemma ExtractedCites(window: Window, job: Job, kind: Kind, c: Candidate, id: string)
    requires Extracted(window, job).Some? && c in Extracted(window, job).value.candidates.Of(kind)
             && id in c.evidenceIds
    ensures c.claim.Kind() == kind && NoRepeats(c.evidenceIds) && |c.evidenceIds| <= 12
    ensures exists m :: m in window.messages && m.messageId == id
              && ((m.senderId !in job.excluded && (job.eligible == {} || m.senderId in job.eligible))
                  || (kind.Behavior? && m.isBot))
    ensures (kind.Memory? ==> job.memories) && (kind.Profile? ==> job.profiles)
  {
    hide Extracted, WellGrounded, Grounded, Supports, ById;
    ExtractedGrounded(window, job);
    var ctx := ContextOf(window, job);
    WellGroundedAt(Extracted(window, job).value.candidates, kind, c, ctx);
    GroundedCites(c, ctx, id);
    ByIdHas(window.messages, id);
  }

  lemma GroundedCites(c: Candidate, ctx: Context, id: string)
    requires Grounded(c, ctx) && id in c.evidenceIds
    ensures NoRepeats(c.evidenceIds) && |c.evidenceIds| <= MAX_EVIDENCE_IDS && id in ctx.evidence
    ensures var m := ctx.evidence[id];
            || (m.senderId !in ctx.excluded && (ctx.eligible == None || m.senderId in ctx.eligible.value))
            || (c.claim.BehaviorClaim? && m.isBot)
    ensures (c.claim.MemoryClaim? ==> ctx.allowMemories) && (c.claim.ProfileClaim? ==> ctx.allowProfiles)
  {
    hide Suffices, Contains;
    assert Supports(ctx.evidence[id], c.claim, ctx);
  }

  lemma WellGroundedAt(candidates: HistoryCandidates, kind: Kind, c: Candidate, ctx: Context)
    requires WellGrounded(candidates, ctx) && c in candidates.Of(kind)
    ensures Grounded(c, ctx) && c.claim.Kind() == kind
  {
    hide Grounded;
  }

  lemma {:induction false} ByIdHas(messages: seq<Message>, id: string)
    ensures id in ById(messages) ==> ById(messages)[id] in messages && ById(messages)[id].messageId == id
  {
    if messages != [] {
      ByIdHas(messages[..|messages| - 1], id);
      assert messages == messages[..|messages| - 1] + [messages[|messages| - 1]];
    }
  }

  // ----- the tail

  lemma DistinctIdsOnce(messages: seq<Message>)
    requires DistinctIds(messages)
    ensures Distinct(Ids(messages)) == Ids(messages)
  {
    forall i, j | 0 <= i < j < |messages| ensures Ids(messages)[i] != Ids(messages)[j] {
      assert messages[i].messageId != messages[j].messageId;
    }
    DistinctId(Ids(messages));
  }

  lemma TailOfIs(reply: Reply, window: Window)
    requires TailOf(reply, window).Some?
    ensures var tail := TailOf(reply, window).value;
            && 0 < |tail| <= MAX_TAIL_MESSAGES
            && (forall k :: 0 <= k < |tail| ==> tail[k] in ById(window.messages))
            && (DistinctIds(window.messages) ==> IsTail(tail, window))
  {
    hide KnownIds, ById, Distinct, DistinctIds;
    var byId := ById(window.messages);
    KnownIdsAre(First(Last(reply.boundary.value.value, MAX_TAIL_MESSAGES), MAX_EVIDENCE_IDS), byId);
    var tail := TailOf(reply, window).value;
    if DistinctIds(window.messages) {
      DistinctIdsOnce(window.messages);
      var n := |window.messages| - |tail|;
      assert Ids(window.messages)[n..] == Ids(window.messages[n..]);
    }
  }

  /** A request asks for this tail: its last twelve ids are well-formed, known or repeated, and what remains of them, in
      order, are the last messages of the window. */
  ghost predicate AsksFor(reply: Reply, window: Window, tail: seq<string>) {
    && reply.boundary.Some? && reply.boundary.value.Some?
    && 0 < |tail| <= |window.messages|
    && (forall k :: 0 <= k < |tail| ==> tail[k] == window.messages[|window.messages| - |tail| + k].messageId)
    && exists named: seq<Option<string>> ::
         && LastTwelve(named, reply.boundary.value.value)
         && Yields(tail, |named|, Citing(named, ById(window.messages)))
  }

  ghost predicate LastTwelve<T(!new)>(part: seq<T>, all: seq<T>) {
    |part| <= |all| && part == all[|all| - |part|..] && (|part| == 12 || (|part| < 12 && |part| == |all|))
  }

  /** Exactly what is asked for so is a follow-up request. */
  lemma TailIs(reply: Reply, window: Window, tail: seq<string>)
    requires DistinctIds(window.messages)
    ensures TailOf(reply, window) == Some(tail) <==> AsksFor(reply, window, tail)
  {
    hide KnownIds, ById, Distinct, DistinctIds, Yields;
    if reply.boundary.Some? && reply.boundary.value.Some? {
      var all := reply.boundary.value.value;
      var named := Last(all, MAX_TAIL_MESSAGES);
      assert First(named, MAX_EVIDENCE_IDS) == named;
      KnownOnce(named, ById(window.messages), tail);
      DistinctIdsOnce(window.messages);
      EndsIs(window, tail);
      assert LastTwelve(named, all) && forall part :: LastTwelve(part, all) ==> part == named;
      hide Ids, EndsWith, LastTwelve;
    }
  }

  lemma EndsIs(window: Window, tail: seq<string>)
    ensures EndsWith(Ids(window.messages), tail) <==>
            |tail| <= |window.messages|
            && forall k :: 0 <= k < |tail| ==> tail[k] == window.messages[|window.messages| - |tail| + k].messageId
  {
    if |tail| <= |window.messages| {
      var n, ids := |window.messages| - |tail|, Ids(window.messages);
      forall k | 0 <= k < |tail| ensures ids[n..][k] == window.messages[n + k].messageId {
      }
    }
  }

  /** A follow-up is only ever asked for the window's own last messages, twelve at most. */
  lemma {:induction false} LastTailIs(window: Window, n: nat, job: Job)
    requires LastTail(window, n, job).Some?
    ensures var tail := LastTail(window, n, job).value;
            && 0 < |tail| <= MAX_TAIL_MESSAGES
            && (forall k :: 0 <= k < |tail| ==> tail[k] in ById(window.messages))
            && (DistinctIds(window.messages) ==> IsTail(tail, window))
  {
    hide TailOf, IsTail, DistinctIds, ById;
    if job.answer(window, n).Some? && TailOf(job.answer(window, n).value, window).Some? {
      TailOfIs(job.answer(window, n).value, window);
    } else {
      LastTailIs(window, n - 1, job);
    }
  }

  function Listed(ids: seq<string>): (r: seq<Option<string>>)
    ensures |r| == |ids| && forall k :: 0 <= k < |ids| ==> r[k] == Some(ids[k])
  {
    seq(|ids|, k requires 0 <= k < |ids| => Some(ids[k]))
  }

  lemma {:induction false} ListedKnown(ids: seq<string>, evidence: map<string, Message>)
    requires NoRepeats(ids)
    requires forall id :: id in ids ==> id in evidence && id != "" && |id| <= 128 && Strip(id) == id
    ensures KnownIds(Listed(ids), evidence) == ids
  {
    hide Strip;
    if ids != [] {
      var init, last := ids[..|ids| - 1], ids[|ids| - 1];
      assert ids == init + [last];
      ListedKnown(init, evidence);
      assert Listed(ids)[..|init|] == Listed(init);
    }
  }

  lemma TailComputes(reply: Reply, window: Window, tail: seq<string>)
    requires 0 < |tail| <= MAX_TAIL_MESSAGES && reply.boundary == Some(Some(Listed(tail)))
    requires KnownIds(Listed(tail), ById(window.messages)) == tail && EndsWith(Distinct(Ids(window.messages)), tail)
    ensures TailOf(reply, window) == Some(tail)
  {
    hide KnownIds, ById, Distinct, Ids, EndsWith;
    assert First(Last(Listed(tail), MAX_TAIL_MESSAGES), MAX_EVIDENCE_IDS) == Listed(tail);
  }

  /** A request that lists the end of the window's ids, well-formed as normalized ids are, is accepted as such. */
  lemma TailAccepted(reply: Reply, window: Window, tail: seq<string>)
    requires DistinctIds(window.messages) && IsTail(tail, window)
    requires forall id :: id in tail ==> id != "" && |id| <= 128 && Strip(id) == id
    requires reply.boundary == Some(Some(Listed(tail)))
    ensures TailOf(reply, window) == Some(tail)
  {
    hide Strip, KnownIds, ById, Distinct, TailOf, Listed, DistinctIds;
    DistinctIdsOnce(window.messages);
    TailEnds(window, tail);
    hide IsTail, EndsWith, NoRepeats;
    ListedKnown(tail, ById(window.messages));
    TailComputes(reply, window, tail);
  }

  // ----- a tail that is not joined whole

  function Lengthy(id: string): Message {
    Message(id, 0.0, "ann", seq(7_000, _ => 'a'), None, false, false)
  }

  const LENGTHY: Window := Window(Natural(1), [Lengthy("1"), Lengthy("2")])

  lemma LengthyTail()
    ensures DistinctIds(LENGTHY.messages) && IsTail(["1", "2"], LENGTHY) && Chars(LENGTHY.messages) == 14_000
  {
    var messages := LENGTHY.messages;
    assert messages[0..] == messages && Ids(messages) == ["1", "2"];
    assert messages == [] + [Lengthy("1")] + [Lengthy("2")];
    CharsNone();
    CharsOne([], Lengthy("1"));
    CharsOne([] + [Lengthy("1")], Lengthy("2"));
  }

  /** Two messages of 7,000 characters each: the request for them is accepted, and they are not joined whole. */
  lemma TailCut(reply: Reply, following: Window)
    requires reply.boundary == Some(Some(Listed(["1", "2"])))
    ensures TailOf(reply, LENGTHY) == Some(["1", "2"])
    ensures var w := Continued(LENGTHY, following, ["1", "2"]); w.Some? && !(LENGTHY.messages <= w.value.messages)
  {
    hide DistinctIds, Chars, Continued, TailOf, IsTail;
    LengthyTail();
    TailAccepted(reply, LENGTHY, ["1", "2"]);
    WholeTail(LENGTHY, following, ["1", "2"]);
    assert LENGTHY.messages[0..] == LENGTHY.messages;
  }

  lemma TailEnds(window: Window, tail: seq<string>)
    requires DistinctIds(window.messages) && IsTail(tail, window)
    ensures NoRepeats(tail) && EndsWith(Ids(window.messages), tail)
    ensures forall id :: id in tail ==> id in ById(window.messages)
  {
    hide ById;
    var n := |window.messages| - |tail|;
    TailDistinct(window.messages, n);
    assert Ids(window.messages)[n..] == Ids(window.messages[n..]);
    forall id | id in tail ensures id in ById(window.messages) {
      assert id in Ids(window.messages)[n..];
      assert id in Ids(window.messages);
    }
  }

  lemma TailDistinct(messages: seq<Message>, n: nat)
    requires DistinctIds(messages) && n <= |messages|
    ensures NoRepeats(Ids(messages[n..]))
  {
    forall i, j | 0 <= i < j < |messages[n..]| ensures Ids(messages[n..])[i] != Ids(messages[n..])[j] {
      assert messages[n + i].messageId != messages[n + j].messageId;
    }
  }
}
