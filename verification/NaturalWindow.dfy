/**
 Extracting one natural window: its own pages, and then, when the model asked for a follow-up and there is a next
 window, the pages of the continuation that joins the two.
 */
module NaturalWindow {
  import opened Candidates
  import opened Continuation
  import opened Grounding
  import opened Merge
  import opened Paging
  import opened Prelude
  import opened Scheduler
  import opened Seqs
  import opened Windows

  predicate Avoids(ids: seq<string>, tail: seq<string>) {
    forall id :: id in ids ==> id !in tail
  }

  function Untailed(items: seq<Candidate>, tail: seq<string>): (r: seq<Candidate>)
    ensures |r| <= |items|
  {
    if items == [] then []
    else
      var rest, c := Untailed(items[..|items| - 1], tail), items[|items| - 1];
      if Avoids(c.evidenceIds, tail) then rest + [c] else rest
  }

  /** The candidates that cite none of the tail. */
  function Exclude(c: HistoryCandidates, tail: seq<string>): HistoryCandidates {
    HistoryCandidates(
      Untailed(c.expressions, tail), Untailed(c.behaviors, tail), Untailed(c.jargons, tail),
      Untailed(c.memories, tail), Untailed(c.profiles, tail))
  }

  /** What counts of a window's own extraction: what cites the tail is left to the follow-up. */
  function Kept(first: WindowResult): HistoryCandidates {
    if first.tail == None then first.candidates else Exclude(first.candidates, first.tail.value)
  }

  function Unfinished(id: WindowId, result: Option<WindowResult>): seq<WindowId> {
    if result.Some? && result.value.complete then [] else [id]
  }

  /** None is the error of a tail that is not of the window. */
  function ExtractNatural(window: Window, following: Option<Window>, job: Job): Option<Extraction> {
    var first := Extracted(window, job);
    var own := if first == None then [] else [Kept(first.value)];
    if first == None || first.value.tail == None || following == None then
      Some(Extraction(
        Checkpoint(window.id, MergeWindows(own, job.host), [], Unfinished(window.id, first), Calls(first)),
        Calls(first), 0))
    else
      match Continued(window, following.value, first.value.tail.value)
      case None => None
      case Some(joined) =>
        var second := Extracted(joined, job);
        var parts := if second == None then own else own + [second.value.candidates];
        Some(Extraction(
          Checkpoint(window.id, MergeWindows(parts, job.host), [joined.id],
                     Distinct(Unfinished(window.id, first) + Unfinished(joined.id, second)),
                       Calls(first) + Calls(second)),
          Calls(first), Calls(second)))
  }

  /** How much later pages extend a progress total that counts every window once. */
  function Extra(notified: seq<nat>): nat {
    if notified == [] then 0
    else Extra(notified[..|notified| - 1]) + (if notified[|notified| - 1] > 1 then 1 else 0)
  }

  lemma {:induction false} ExtraIs(notified: seq<nat>)
    requires forall k :: 0 <= k < |notified| ==> notified[k] == k + 1
    ensures Extra(notified) == if notified == [] then 0 else |notified| - 1
  {
    if notified != [] {
      ExtraIs(notified[..|notified| - 1]);
    }
  }

  lemma {:induction false} ExtraConcat(a: seq<nat>, b: seq<nat>)
    ensures Extra(a + b) == Extra(a) + Extra(b)
    decreases |b|
  {
    if b == [] {
      assert a + b == a;
    } else {
      assert (a + b)[..|a + b| - 1] == a + b[..|b| - 1];
      ExtraConcat(a, b[..|b| - 1]);
    }
  }

  /** The original's steps.  `notified` are the page numbers reported and `reserved` counts the calls that extend the
      total for a follow-up: together they extend it by every model call but one. */
  method ExtractNaturalWindow(window: Window, following: Option<Window>, job: Job)
    returns (r: Option<Extraction>, notified: seq<nat>, reserved: nat)
    ensures r == ExtractNatural(window, following, job)
    ensures r.Some? ==>
              |notified| == r.value.checkpoint.calls && Extra(notified) + reserved == r.value.checkpoint.calls - 1
  {
    hide Extracted, MergeWindows, Continued, Distinct, Kept;
    var parts: seq<HistoryCandidates>, continuationIds: seq<WindowId>, incompleteIds: seq<WindowId> := [], [], [];
    var first: Option<WindowResult>;
    reserved := 0;
    first, notified := ExtractWindowResult(window, job);
    CallsPositive(window, job);
    ExtraIs(notified);
    if first.Some? {
      parts := [Kept(first.value)];
    }
    incompleteIds := Unfinished(window.id, first);
    var followUp: nat := 0;
    if first.Some? && first.value.tail.Some? && following.Some? {
      var joined := BuildContinuationWindow(window, following.value, first.value.tail.value);
      if joined == None {
        return None, notified, 0;
      }
      continuationIds := [joined.value.id];
      var second, pages := ExtractWindowResult(joined.value, job);
      CallsPositive(joined.value, job);
      ExtraIs(pages);
      ExtraConcat(notified, pages);
      notified, reserved, followUp := notified + pages, 1, |pages|;
      if second.Some? {
        parts := parts + [second.value.candidates];
      }
      incompleteIds := incompleteIds + Unfinished(joined.value.id, second);
    }
    UnfinishedOnce(window.id, first);
    var candidates := MergeWindowCandidates(parts, job.host);
    r := Some(Extraction(Checkpoint(window.id, candidates, continuationIds, Distinct(incompleteIds), |notified|),
                         Calls(first), followUp));
  }

  lemma CallsPositive(window: Window, job: Job)
    ensures 1 <= Calls(Extracted(window, job)) <= MAX_WINDOW_EXTRACTION_PAGES
  {
    ExtractedIs(window, job);
  }

  lemma UnfinishedOnce(id: WindowId, result: Option<WindowResult>)
    ensures Distinct(Unfinished(id, result)) == Unfinished(id, result)
  {
    DistinctId(Unfinished(id, result));
  }

  // ----- a follow-up is always possible

  /** The messages a window's candidates may cite. */
  function ShownWith(window: Window, following: Option<Window>): seq<Message> {
    window.messages + (match following case None => [] case Some(w) => w.messages)
  }

  lemma {:induction false} AppendFrom(acc: seq<Message>, more: seq<Message>, source: seq<Message>)
    requires (forall m :: m in acc ==> m in source) && (forall m :: m in more ==> m in source)
    ensures forall m :: m in Append(acc, more) ==> m in source
    decreases |more|
  {
    hide Chars, Ids;
    if more != [] {
      var m, rest := more[0], more[1..];
      forall x | x in rest ensures x in source {
        assert x in more;
      }
      if m.messageId in Ids(acc) {
        AppendFrom(acc, rest, source);
      } else if !(|acc| >= MAX_WINDOW_MESSAGES) && !(acc != [] && Chars(acc) + |m.content| > MAX_WINDOW_CHARS) {
        AppendFrom(acc + [m], rest, source);
      }
    }
  }

  lemma {:induction false} ByIdFrom(messages: seq<Message>, id: string)
    requires id in ById(messages)
    ensures ById(messages)[id] in messages && ById(messages)[id].messageId == id
  {
    hide Ids;
    var init, m := messages[..|messages| - 1], messages[|messages| - 1];
    if m.messageId != id {
      ByIdFrom(init, id);
      assert messages == init + [m];
    }
  }

  lemma JoinedFrom(window: Window, following: Window, tail: seq<string>)
    requires forall k :: 0 <= k < |tail| ==> tail[k] in ById(window.messages)
    ensures Continued(window, following, tail).Some?
    ensures forall m :: m in Continued(window, following, tail).value.messages ==>
              m in ShownWith(window, Some(following))
  {
    hide Append, ById;
    var byId, source := ById(window.messages), ShownWith(window, Some(following));
    var tailMessages := LookUp(tail, byId);
    forall m | m in First(tailMessages, MAX_TAIL_MESSAGES) ensures m in source {
      var k :| 0 <= k < |First(tailMessages, MAX_TAIL_MESSAGES)| && First(tailMessages, MAX_TAIL_MESSAGES)[k] == m;
      assert tailMessages[k] == byId[tail[k]] == m;
      ByIdFrom(window.messages, tail[k]);
    }
    AppendFrom([], First(tailMessages, MAX_TAIL_MESSAGES), source);
    AppendFrom(Append([], First(tailMessages, MAX_TAIL_MESSAGES)), First(following.messages, MAX_FOLLOW_UP_MESSAGES),
               source);
  }

  lemma ExtractedTail(window: Window, job: Job)
    requires Extracted(window, job).Some? && Extracted(window, job).value.tail.Some?
    ensures var tail := Extracted(window, job).value.tail.value;
            && 0 < |tail| <= MAX_TAIL_MESSAGES
            && (forall k :: 0 <= k < |tail| ==> tail[k] in ById(window.messages))
            && (DistinctIds(window.messages) ==> IsTail(tail, window))
  {
    hide IsTail, DistinctIds, ById, Gathered;
    ExtractedIs(window, job);
    LastTailIs(window, Extracted(window, job).value.pages, job);
  }

  /** Whatever the model answers, extracting a window never fails, takes from one to twenty calls for the window and at
      most twenty more for a continuation, and records their number. */
  lemma NaturalSucceeds(window: Window, following: Option<Window>, job: Job)
    ensures ExtractNatural(window, following, job).Some?
    ensures var e := ExtractNatural(window, following, job).value;
            && e.checkpoint.windowId == window.id
            && 1 <= e.naturalPages <= MAX_WINDOW_EXTRACTION_PAGES && e.followUpPages <= MAX_WINDOW_EXTRACTION_PAGES
            && e.checkpoint.calls == e.naturalPages + e.followUpPages
  {
    hide Extracted, MergeWindows, Continued, ById, Distinct, Kept;
    CallsPositive(window, job);
    var first := Extracted(window, job);
    if first.Some? && first.value.tail.Some? && following.Some? {
      ExtractedTail(window, job);
      JoinedFrom(window, following.value, first.value.tail.value);
      CallsPositive(Continued(window, following.value, first.value.tail.value).value, job);
    }
  }

  // ----- grounding

  /** One id, one message. */
  ghost predicate Consistent(messages: seq<Message>) {
    forall m, n :: m in messages && n in messages && m.messageId == n.messageId ==> m == n
  }

  lemma ByIdExtends(part: seq<Message>, whole: seq<Message>)
    requires Consistent(whole) && forall m :: m in part ==> m in whole
    ensures forall id :: id in ById(part) ==> id in ById(whole) && ById(whole)[id] == ById(part)[id]
  {
    hide ById;
    forall id | id in ById(part) ensures id in ById(whole) && ById(whole)[id] == ById(part)[id] {
      ByIdFrom(part, id);
      var m := ById(part)[id];
      var k :| 0 <= k < |whole| && whole[k] == m;
      assert Ids(whole)[k] == id;
      ByIdFrom(whole, id);
    }
  }

  /** The rules for a window's candidates, over the given messages. */
  function Rulebook(evidence: map<string, Message>, job: Job): Context {
    Context(evidence, if job.eligible == {} then None else Some(job.eligible), job.excluded, false,
            job.memories, job.profiles, [], job.host, job.rules)
  }

  lemma PartGrounded(part: Window, whole: seq<Message>, job: Job)
    requires Consistent(whole) && forall m :: m in part.messages ==> m in whole
    requires Extracted(part, job).Some?
    ensures WellGrounded(Extracted(part, job).value.candidates, Rulebook(ById(whole), job))
  {
    hide WellGrounded, Extracted, Consistent, ById;
    ByIdExtends(part.messages, whole);
    ExtractedGrounded(part, job);
    WiderWellGrounded(Extracted(part, job).value.candidates, ContextOf(part, job), Rulebook(ById(whole), job));
  }

  lemma {:induction false} UntailedIs(items: seq<Candidate>, tail: seq<string>)
    ensures forall c :: c in Untailed(items, tail) <==> c in items && Avoids(c.evidenceIds, tail)
  {
    hide Avoids;
    if items != [] {
      UntailedIs(items[..|items| - 1], tail);
      assert items == items[..|items| - 1] + [items[|items| - 1]];
    }
  }

  lemma ExcludeGrounded(c: HistoryCandidates, tail: seq<string>, ctx: Context)
    requires WellGrounded(c, ctx)
    ensures WellGrounded(Exclude(c, tail), ctx)
  {
    hide Grounded, Avoids;
    UntailedIs(c.expressions, tail);
    UntailedIs(c.behaviors, tail);
    UntailedIs(c.jargons, tail);
    UntailedIs(c.memories, tail);
    UntailedIs(c.profiles, tail);
  }

  lemma KeptGrounded(first: WindowResult, ctx: Context)
    requires WellGrounded(first.candidates, ctx)
    ensures WellGrounded(Kept(first), ctx)
  {
    if first.tail.Some? {
      ExcludeGrounded(first.candidates, first.tail.value, ctx);
    }
  }

  lemma EachGroundedSnoc(results: seq<HistoryCandidates>, c: HistoryCandidates, ctx: Context)
    requires EachGrounded(results, ctx) && WellGrounded(c, ctx)
    ensures EachGrounded(results + [c], ctx)
  {
  }

  /** Whatever the model answers, every candidate recorded for a window meets the rules of its kind over the messages
      of the window and the next. */
  lemma NaturalGrounded(window: Window, following: Option<Window>, job: Job)
    requires Consistent(ShownWith(window, following))
    ensures ExtractNatural(window, following, job).Some?
    ensures WellGrounded(ExtractNatural(window, following, job).value.checkpoint.candidates,
                         Rulebook(ById(ShownWith(window, following)), job))
  {
    hide WellGrounded, Extracted, MergeWindows, Continued, Kept, Consistent, ById, Distinct, EachGrounded;
    NaturalSucceeds(window, following, job);
    var whole := ShownWith(window, following);
    var ctx := Rulebook(ById(whole), job);
    var first := Extracted(window, job);
    NoResults(ctx);
    if first == None {
      MergeWindowsGrounded([], ctx);
    } else {
      PartGrounded(window, whole, job);
      KeptGrounded(first.value, ctx);
      EachGroundedSnoc([], Kept(first.value), ctx);
      assert [] + [Kept(first.value)] == [Kept(first.value)];
      MergeWindowsGrounded([Kept(first.value)], ctx);
      if first.value.tail.Some? && following.Some? {
        ExtractedTail(window, job);
        JoinedFrom(window, following.value, first.value.tail.value);
        var joined := Continued(window, following.value, first.value.tail.value).value;
        if Extracted(joined, job).Some? {
          PartGrounded(joined, whole, job);
          EachGroundedSnoc([Kept(first.value)], Extracted(joined, job).value.candidates, ctx);
          MergeWindowsGrounded([Kept(first.value)] + [Extracted(joined, job).value.candidates], ctx);
        }
      }
    }
  }

  lemma NoResults(ctx: Context)
    ensures EachGrounded([], ctx)
  {
  }

  // ----- what becomes of the tail

  /** As deduplication leaves candidates. */
  ghost predicate Settled(items: seq<Candidate>, host: Host) {
    NoRepeats(Keys(items, host)) && forall c :: c in items ==> WithMetadata(c, host) == c
  }

  lemma DedupSettles(items: seq<Candidate>, host: Host)
    ensures Settled(Dedup(items, host), host)
  {
    hide Dedup, Group, FoldGroup, Distinct, WithMetadata;
    var r := Dedup(items, host);
    DedupIsMerged(items, host);
    DistinctMembers(Keys(items, host));
    forall c | c in r ensures WithMetadata(c, host) == c {
      var k :| 0 <= k < |r| && r[k] == c;
      assert FoldOf(r[k], items, host);
      FoldClean(Group(items, Key(c.claim, host), host), host);
    }
  }

  lemma {:induction false} SettledIsFixed(items: seq<Candidate>, host: Host)
    requires Settled(items, host)
    ensures Dedup(items, host) == items
  {
    hide WithMetadata, MergeEvidence;
    if items != [] {
      var init, c := items[..|items| - 1], items[|items| - 1];
      assert items == init + [c];
      KeysSnoc(init, c, host);
      SettledIsFixed(init, host);
      assert Key(c.claim, host) !in Keys(init, host) by {
        assert forall k :: 0 <= k < |init| ==> Keys(items, host)[k] == Keys(init, host)[k];
      }
    }
  }

  lemma {:induction false} UntailedSettled(items: seq<Candidate>, tail: seq<string>, host: Host)
    requires Settled(items, host)
    ensures Settled(Untailed(items, tail), host)
    ensures forall key :: key in Keys(Untailed(items, tail), host) ==> key in Keys(items, host)
  {
    hide WithMetadata, Avoids, Key;
    if items != [] {
      var init, c := items[..|items| - 1], items[|items| - 1];
      assert items == init + [c];
      KeysSnoc(init, c, host);
      UntailedSettled(init, tail, host);
      KeysSnoc(Untailed(init, tail), c, host);
      assert Key(c.claim, host) !in Keys(init, host) by {
        assert forall k :: 0 <= k < |init| ==> Keys(items, host)[k] == Keys(init, host)[k];
      }
    }
  }

  lemma GatherOne(c: HistoryCandidates, kind: Kind)
    ensures Gather([c], kind) == c.Of(kind)
  {
    assert [c][..0] == [];
  }

  lemma ExcludeOf(c: HistoryCandidates, tail: seq<string>, kind: Kind)
    ensures Exclude(c, tail).Of(kind) == Untailed(c.Of(kind), tail)
  {
  }

  /** Merging what is left of a merge when some candidates are taken out changes nothing. */
  lemma ExcludeStays(results: seq<HistoryCandidates>, tail: seq<string>, host: Host)
    ensures var left := Exclude(MergeWindows(results, host), tail); MergeWindows([left], host) == left
  {
    hide Dedup, Untailed, Gather, Settled;
    var m := MergeWindows(results, host);
    var left := Exclude(m, tail);
    forall kind: Kind ensures Dedup(Gather([left], kind), host) == left.Of(kind) {
      GatherOne(left, kind);
      ExcludeOf(m, tail, kind);
      DedupSettles(Gather(results, kind), host);
      UntailedSettled(m.Of(kind), tail, host);
      SettledIsFixed(left.Of(kind), host);
    }
  }

  /** No candidate cites the tail. */
  ghost predicate NoneCites(c: HistoryCandidates, tail: seq<string>) {
    forall kind: Kind, x :: x in c.Of(kind) ==> Avoids(x.evidenceIds, tail)
  }

  lemma {:induction false} UntailedAll(items: seq<Candidate>, tail: seq<string>)
    ensures Untailed(items, tail) == items <==> forall c :: c in items ==> Avoids(c.evidenceIds, tail)
  {
    hide Avoids;
    UntailedIs(items, tail);
    if items != [] {
      var init, c := items[..|items| - 1], items[|items| - 1];
      assert items == init + [c];
      UntailedAll(init, tail);
    }
  }

  lemma ExcludeAll(c: HistoryCandidates, tail: seq<string>)
    ensures Exclude(c, tail) == c <==> NoneCites(c, tail)
  {
    hide Avoids, Untailed;
    forall kind: Kind
      ensures Untailed(c.Of(kind), tail) == c.Of(kind) <==> forall x :: x in c.Of(kind) ==> Avoids(x.evidenceIds, tail)
    {
      UntailedAll(c.Of(kind), tail);
    }
    forall kind: Kind ensures Exclude(c, tail).Of(kind) == Untailed(c.Of(kind), tail) {
      ExcludeOf(c, tail, kind);
    }
    if NoneCites(c, tail) {
      assert Exclude(c, tail).Of(Expression) == c.Of(Expression) && Exclude(c, tail).Of(Behavior) == c.Of(Behavior);
      assert Exclude(c, tail).Of(Jargon) == c.Of(Jargon) && Exclude(c, tail).Of(Memory) == c.Of(Memory);
      assert Exclude(c, tail).Of(Profile) == c.Of(Profile);
    }
  }

  /** The last window has no follow-up: everything read of it is recorded exactly when the model asked for none or no
      candidate cites the tail it named.  Otherwise those candidates are dropped, and nothing re-reads the tail. */
  lemma LastWindowKeeps(window: Window, job: Job)
    requires Extracted(window, job).Some?
    ensures var first := Extracted(window, job).value;
            && ExtractNatural(window, None, job).value.checkpoint.candidates == Kept(first)
            && (ExtractNatural(window, None, job).value.checkpoint.candidates == first.candidates
                <==> first.tail == None || NoneCites(first.candidates, first.tail.value))
  {
    hide MergeWindows, NoneCites, Exclude, Extracted;
    var first := Extracted(window, job).value;
    ExtractedIs(window, job);
    var results := Parses(window, first.pages, job);
    MergeIdempotent(results, job.host);
    if first.tail.Some? {
      ExcludeStays(results, first.tail.value, job.host);
      ExcludeAll(first.candidates, first.tail.value);
    }
  }

  const SAMPLE_WINDOW := Window(Natural(1), [Message("m", 0.0, "u", "hello there", None, false, false)])

  function SampleItem(): RawItem {
    RawItem(map["situation" := "meeting", "style" := "cheerful"], map["confidence" := 1.0], Some([Some("m")]))
  }

  /** Every page: one expression citing the window's only message, and a request for a follow-up from that message. */
  function SampleReply(): Reply {
    Reply([Some(SampleItem())], [], [], [], [], Some(Some([Some("m")])), false)
  }

  function SampleJob(): Job {
    Job({}, {}, false, false, Host(s => s, (k, s) => ""), Rules(s => s, s => false, (s, t) => false), w => "w",
        (w, n) => Some(SampleReply()))
  }

  lemma SampleIds()
    ensures ById(SAMPLE_WINDOW.messages) == map["m" := SAMPLE_WINDOW.messages[0]]
    ensures EvidenceIds(Some([Some("m")]), ById(SAMPLE_WINDOW.messages)) == ["m"]
    ensures Distinct(Ids(SAMPLE_WINDOW.messages)) == ["m"]
  {
    var messages := SAMPLE_WINDOW.messages;
    assert messages[..0] == [];
    assert ById(messages[..0]) == map[];
    assert Ids(messages) == ["m"];
    assert ["m"][..0] == [];
    assert [Some("m")][..0] == [];
    assert KnownIds([Some("m")][..0], ById(messages)) == [];
    assert Strip("m") == "m";
  }

  lemma SampleAccepted()
    ensures var c := Accept(Some(SampleItem()), Expression, ContextOf(SAMPLE_WINDOW, SampleJob()));
            c.Some? && c.value.evidenceIds == ["m"]
  {
    hide EvidenceIds, ById, ActorGrounded, Contains;
    var ctx, item := ContextOf(SAMPLE_WINDOW, SampleJob()), SampleItem();
    SampleIds();
    assert |"meeting"| == 7 && |"cheerful"| == 8;
    var claim := ExpressionClaim("meeting", "cheerful");
    assert ["m"][..0] == [];
    assert Backing([], claim, ctx) == [];
    assert Backing(["m"], claim, ctx) == ["m"];
    assert ClaimOf(item, Expression, ctx) == Some(claim);
    assert Score(item, "confidence", 0.5) == Some(1.0);
    hide ClaimOf, Score, Backing, Text;
  }

  lemma SampleParse()
    ensures var c := Parse(SampleReply(), ContextOf(SAMPLE_WINDOW, SampleJob()));
            && |c.expressions| == 1 && c.expressions[0].evidenceIds == ["m"]
            && c.behaviors == [] && c.jargons == [] && c.memories == [] && c.profiles == []
  {
    hide Accept;
    var ctx, item := ContextOf(SAMPLE_WINDOW, SampleJob()), Some(SampleItem());
    SampleAccepted();
    assert [item][..0] == [];
    assert AcceptAll([], Expression, ctx) == [];
    var c := Accept(item, Expression, ctx).value;
    assert AcceptAll([item], Expression, ctx) == [c];
    assert [c][..0] == [];
    assert Dedup([c], ctx.host) == [WithMetadata(c, ctx.host)];
  }

  lemma SampleExtracted()
    ensures Extracted(SAMPLE_WINDOW, SampleJob()) ==
            Some(WindowResult(Parse(SampleReply(), ContextOf(SAMPLE_WINDOW, SampleJob())), Some(["m"]), 1, true))
  {
    hide Parse, MergeWindows, EvidenceIds, Distinct;
    SampleIds();
    MergeParsed(SampleReply(), ContextOf(SAMPLE_WINDOW, SampleJob()));
    assert TailOf(SampleReply(), SAMPLE_WINDOW) == Some(["m"]);
  }

  /** One such case: the model's only candidate is dropped, and the window still counts as complete. */
  lemma TailLost()
    ensures var first := Extracted(SAMPLE_WINDOW, SampleJob());
            && first.Some? && first.value.complete && first.value.candidates.Total() == 1
    ensures var e := ExtractNatural(SAMPLE_WINDOW, None, SampleJob());
            && e.Some? && e.value.checkpoint.candidates == NONE && e.value.checkpoint.incompleteIds == []
  {
    hide Parse, MergeWindows, Extracted;
    SampleParse();
    SampleExtracted();
    var p := Extracted(SAMPLE_WINDOW, SampleJob()).value.candidates;
    var ids := p.expressions[0].evidenceIds;
    assert ids[0] == "m" && ["m"][0] == "m" && "m" in ids && "m" in ["m"];
    assert p.expressions[..0] == [] && Untailed([], ["m"]) == [];
    assert Untailed(p.expressions, ["m"]) == [];
    LastWindowKeeps(SAMPLE_WINDOW, SampleJob());
  }

  /** The first page is taken as it was parsed. */
  lemma MergeParsed(reply: Reply, ctx: Context)
    ensures MergeWindows([NONE, Parse(reply, ctx)], ctx.host) == Parse(reply, ctx)
  {
    hide Dedup, AcceptAll;
    var p := Parse(reply, ctx);
    forall kind: Kind ensures Dedup(Gather([NONE, p], kind), ctx.host) == p.Of(kind) {
      GatherTwo(NONE, p, kind);
      assert Gather([NONE, p], kind) == p.Of(kind);
      ParsedFixed(reply, kind, ctx);
    }
  }

  lemma ParsedFixed(reply: Reply, kind: Kind, ctx: Context)
    ensures Dedup(Parse(reply, ctx).Of(kind), ctx.host) == Parse(reply, ctx).Of(kind)
  {
    hide AcceptAll, Maximum;
    match kind
    case Expression => DedupIdempotent(AcceptAll(First(reply.expressions, Maximum(kind)), kind, ctx), ctx.host);
    case Behavior => DedupIdempotent(AcceptAll(First(reply.behaviors, Maximum(kind)), kind, ctx), ctx.host);
    case Jargon => DedupIdempotent(AcceptAll(First(reply.jargons, Maximum(kind)), kind, ctx), ctx.host);
    case Memory => DedupIdempotent(AcceptAll(First(reply.memories, Maximum(kind)), kind, ctx), ctx.host);
    case Profile => DedupIdempotent(AcceptAll(First(reply.profiles, Maximum(kind)), kind, ctx), ctx.host);
  }

  /** Any other window of a stream hands its whole tail to the model again. */
  lemma TailIsReread(s: seq<Message>, o: Limits, k: nat, job: Job)
    requires Accepted(o) && o.maxChars <= MAX_WINDOW_CHARS
    requires DistinctIds(s) && InStream(s, StreamCuts(s, o)) && k + 1 < |StreamCuts(s, o)|
    requires var first := Extracted(Build(s, StreamCuts(s, o))[k], job); first.Some? && first.value.tail.Some?
    ensures var windows := Build(s, StreamCuts(s, o));
            var tail := Extracted(windows[k], job).value.tail.value;
            var e := ExtractNatural(windows[k], Some(windows[k + 1]), job);
            && e.Some? && e.value.followUpPages > 0
            && e.value.checkpoint.continuationIds == [Joined(windows[k].id, windows[k + 1].id)]
            && |tail| <= |windows[k].messages|
            && windows[k].messages[|windows[k].messages| - |tail|..] <= Continued(windows[k], windows[k + 1],
               tail).value.messages
            && tail == Ids(windows[k].messages[|windows[k].messages| - |tail|..])
  {
    hide Extracted, Build, StreamCuts, InStream, DistinctIds, Continued, MergeWindows, Distinct, Kept, Chars;
    WindowAt(s, o, k);
    var windows := Build(s, StreamCuts(s, o));
    DistinctPart(s, StreamCuts(s, o)[k].lo, StreamCuts(s, o)[k].hi);
    ExtractedTail(windows[k], job);
    var tail := Extracted(windows[k], job).value.tail.value;
    CutWindowsContinue(s, o, k, tail);
    WindowAt(s, o, k + 1);
    CallsPositive(Continued(windows[k], windows[k + 1], tail).value, job);
  }

  /** A candidate that was dropped for citing the tail can be found again whole, that is all its evidence is shown in
      the continuation, exactly when each cited message is of the tail or of those taken from the next window: one that
      also cites an earlier message is not. */
  lemma DroppedShown(s: seq<Message>, o: Limits, k: nat, job: Job, c: Candidate) returns (taken: nat)
    requires Accepted(o) && o.maxChars <= MAX_WINDOW_CHARS
    requires DistinctIds(s) && InStream(s, StreamCuts(s, o)) && k + 1 < |StreamCuts(s, o)|
    requires var first := Extracted(Build(s, StreamCuts(s, o))[k], job); first.Some? && first.value.tail.Some?
    ensures var windows := Build(s, StreamCuts(s, o));
            var tail := Extracted(windows[k], job).value.tail.value;
            var w := Continued(windows[k], windows[k + 1], tail);
            && w.Some? && |tail| <= |windows[k].messages|
            && JoinsUpTo(w.value.messages, TailMessages(windows[k], tail), windows[k + 1].messages, taken)
            && ((forall id :: id in c.evidenceIds ==> id in Ids(w.value.messages)) <==>
                (forall id :: id in c.evidenceIds ==> id in tail || id in Ids(windows[k + 1].messages[..taken])))
  {
    hide Extracted, Build, StreamCuts, InStream, DistinctIds, Continued, Unseen, Chars, Ids;
    WindowAt(s, o, k);
    var windows := Build(s, StreamCuts(s, o));
    DistinctPart(s, StreamCuts(s, o)[k].lo, StreamCuts(s, o)[k].hi);
    ExtractedTail(windows[k], job);
    taken := ShownAgain(windows[k], windows[k + 1], Extracted(windows[k], job).value.tail.value, c.evidenceIds);
  }
}
