/**
 What is recorded for a window: the candidates of its own pages that avoid the tail, merged with those of the follow-up,
 the ids of what was joined and of what is not complete, and the calls.
 */
module Recorded {
  import opened Candidates
  import opened Continuation
  import opened Merge
  import opened NaturalWindow
  import opened Paging
  import opened Prelude
  import opened Scheduler
  import opened Seqs
  import opened Windows

  /** What the window's own pages contribute: everything, or, when a follow-up is asked for, what cites none of the
      tail. */
  ghost predicate OwnPart(own: seq<Candidate>, first: Option<WindowResult>, kind: Kind) {
    if first == None then own == []
    else if first.value.tail == None then own == first.value.candidates.Of(kind)
    else Sifted(own, first.value.candidates.Of(kind), Misses(first.value.tail.value))
  }

  function Misses(tail: seq<string>): Candidate -> bool {
    (c: Candidate) => forall id :: id in c.evidenceIds ==> id !in tail
  }

  function FollowUpPart(second: Option<WindowResult>, kind: Kind): seq<Candidate> {
    if second == None then [] else second.value.candidates.Of(kind)
  }

  /** The extraction could be read to its end. */
  predicate Done(result: Option<WindowResult>) {
    result.Some? && result.value.complete
  }

  function PagesOf(result: Option<WindowResult>): nat {
    if result == None then 1 else result.value.pages
  }

  /** The merge of what the two contribute, in this order. */
  ghost predicate Merges(r: seq<Candidate>, first: Option<WindowResult>, second: Option<WindowResult>, kind: Kind,
                         host: Host)
  {
    exists own :: OwnPart(own, first, kind) && IsMerged(r, own + FollowUpPart(second, kind), host)
  }

  /** The record of a window whose own pages gave `first`, and, if there was a follow-up, of the joined window whose
      pages gave `second`. */
  ghost predicate Records(e: Extraction, id: WindowId, first: Option<WindowResult>, joined: Option<WindowId>,
                          second: Option<WindowResult>, host: Host)
  {
    var c := e.checkpoint;
    && c.windowId == id
    && (forall kind: Kind :: Merges(c.candidates.Of(kind), first, second, kind, host))
    && c.continuationIds == (if joined == None then [] else [joined.value])
    && NoRepeats(c.incompleteIds)
    && (forall x :: x in c.incompleteIds <==> (x == id && !Done(first)) || (joined == Some(x) && !Done(second)))
    && (!Done(first) ==> c.incompleteIds != [] && c.incompleteIds[0] == id)
    && e.naturalPages == PagesOf(first) && e.followUpPages == (if joined == None then 0 else PagesOf(second))
    && c.calls == e.naturalPages + e.followUpPages
  }

  lemma {:induction false} UntailedSifts(items: seq<Candidate>, tail: seq<string>)
    ensures Sifted(Untailed(items, tail), items, Misses(tail))
  {
    hide Sifted;
    if items == [] {
      NothingSifted(Misses(tail));
    } else {
      var init, c := items[..|items| - 1], items[|items| - 1];
      UntailedSifts(init, tail);
      SiftedSnoc(Untailed(init, tail), init, Misses(tail), c);
      assert items == init + [c];
      assert Misses(tail)(c) <==> Avoids(c.evidenceIds, tail);
    }
  }

  lemma KeptIsOwn(first: WindowResult, kind: Kind)
    ensures OwnPart(Kept(first).Of(kind), Some(first), kind)
  {
    hide Sifted, Untailed;
    if first.tail.Some? {
      UntailedSifts(first.candidates.Of(kind), first.tail.value);
    }
  }

  lemma PartsMerged(parts: seq<HistoryCandidates>, first: Option<WindowResult>, second: Option<WindowResult>,
                    host: Host)
    requires parts == (if first == None then [] else [Kept(first.value)])
                      + (if second == None then [] else [second.value.candidates])
    ensures forall kind: Kind :: Merges(MergeWindows(parts, host).Of(kind), first, second, kind, host)
  {
    hide OwnPart, IsMerged, Dedup, Gather, Kept, MergeWindows;
    forall kind: Kind ensures Merges(MergeWindows(parts, host).Of(kind), first, second, kind, host) {
      var own := if first == None then [] else Kept(first.value).Of(kind);
      if first.Some? {
        KeptIsOwn(first.value, kind);
      } else {
        NothingOwned(kind);
      }
      GatherParts(if first == None then None else Some(Kept(first.value)),
                  if second == None then None else Some(second.value.candidates), kind);
      assert Gather(parts, kind) == own + FollowUpPart(second, kind);
      MergedOf(parts, kind, host);
      DedupIsMerged(Gather(parts, kind), host);
    }
  }

  lemma NothingOwned(kind: Kind)
    ensures OwnPart([], None, kind)
  {
  }

  lemma GatherParts(a: Option<HistoryCandidates>, b: Option<HistoryCandidates>, kind: Kind)
    ensures Gather((if a == None then [] else [a.value]) + (if b == None then [] else [b.value]), kind) ==
            (if a == None then [] else a.value.Of(kind)) + (if b == None then [] else b.value.Of(kind))
  {
    var x, y := if a == None then [] else [a.value], if b == None then [] else [b.value];
    GatherConcat(x, y, kind);
    if a.Some? {
      Merge.GatherOne(a.value, kind);
    }
    if b.Some? {
      Merge.GatherOne(b.value, kind);
    }
  }

  lemma UnfinishedIs(id: WindowId, result: Option<WindowResult>)
    ensures Unfinished(id, result) == if Done(result) then [] else [id]
  {
  }

  lemma IncompleteIs(id: WindowId, first: Option<WindowResult>, joined: WindowId, second: Option<WindowResult>)
    ensures var r := Distinct(Unfinished(id, first) + Unfinished(joined, second));
            && NoRepeats(r)
            && (forall x :: x in r <==> (x == id && !Done(first)) || (joined == x && !Done(second)))
            && (!Done(first) ==> r != [] && r[0] == id)
  {
    hide Distinct;
    var rest := Unfinished(joined, second);
    var all := Unfinished(id, first) + rest;
    DistinctMembers(all);
    UnfinishedIs(id, first);
    UnfinishedIs(joined, second);
    hide Unfinished, Done;
    if !Done(first) {
      DistinctPrefix([id], rest);
      DistinctId([id]);
      assert [id] <= Distinct(all);
    }
  }

  /** What is recorded for a window that has no follow-up. */
  lemma RecordsAlone(window: Window, following: Option<Window>, job: Job)
    requires var first := Extracted(window, job); first == None || first.value.tail == None || following == None
    ensures var e := ExtractNatural(window, following, job);
            e.Some? && Records(e.value, window.id, Extracted(window, job), None, None, job.host)
  {
    hide Extracted, Merges, MergeWindows, Kept;
    var first := Extracted(window, job);
    var own := if first == None then [] else [Kept(first.value)];
    assert own + [] == own;
    PartsMerged(own, first, None, job.host);
  }

  /** What is recorded for a window whose tail is joined to the next one: the candidates that avoid the tail, followed
      by those of the joined window, merged; and the ids of the two that are not complete. */
  lemma RecordsFollowUp(window: Window, following: Window, job: Job)
    requires var first := Extracted(window, job); first.Some? && first.value.tail.Some?
    ensures var first := Extracted(window, job);
            var joined := Continued(window, following, first.value.tail.value);
            var e := ExtractNatural(window, Some(following), job);
            && joined.Some? && e.Some?
            && Records(e.value, window.id, first, Some(joined.value.id), Extracted(joined.value, job), job.host)
  {
    hide Extracted, Merges, MergeWindows, Kept, Continued, Distinct, Unfinished, Done;
    var first := Extracted(window, job);
    ExtractedTail(window, job);
    JoinedFrom(window, following, first.value.tail.value);
    var joined := Continued(window, following, first.value.tail.value).value;
    var second := Extracted(joined, job);
    var own := [Kept(first.value)];
    assert own + [] == own;
    PartsMerged(if second == None then own else own + [second.value.candidates], first, second, job.host);
    IncompleteIs(window.id, first, joined.id, second);
  }
}
