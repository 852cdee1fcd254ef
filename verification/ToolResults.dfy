/** The accumulated results of tool calls, kept within a budget of characters by giving up the oldest content first. */
module ToolResults {

  const MAX_TOOL_RESULT_CHARS: nat := 6_000
  const MAX_ACCUMULATED_TOOL_RESULT_CHARS: nat := 12_000
  const TOOL_RESULT_TRUNCATION_MARKER := "\n[工具结果已截断]"

  datatype ToolResult = ToolResult(
    callId: string,
    toolName: string,
    success: bool,
    content: string,
    terminal: bool,
    replyText: string,
    shouldContinue: bool)

  function Min(x: int, y: int): int {
    if x <= y then x else y
  }

  /** At most `limit` characters, ending in the marker, or in as much of it as fits, when anything is cut. */
  function Truncate(content: string, limit: nat): (r: string)
    ensures |r| == Min(|content|, limit)
    ensures |content| <= limit ==> r == content
  {
    var marker := TOOL_RESULT_TRUNCATION_MARKER;
    assert |marker| == 10;
    if |content| <= limit then content
    else if limit <= |marker| then marker[..limit]
    else content[..limit - |marker|] + marker
  }

  function Total(items: seq<ToolResult>): nat {
    if items == [] then 0 else Total(items[..|items| - 1]) + |items[|items| - 1].content|
  }

  function Cut(item: ToolResult, length: nat): ToolResult {
    item.(content := Truncate(item.content, length))
  }

  function Emptied(item: ToolResult): ToolResult {
    item.(content := "")
  }

  /** The first `k` items lost their content, the next keeps `left` characters of its own, the others are as before. */
  ghost predicate GivenUp(before: seq<ToolResult>, after: seq<ToolResult>, k: nat, left: nat) {
    && |after| == |before|
    && k <= |before|
    && (forall j :: 0 <= j < k ==> after[j] == Emptied(before[j]))
    && (k < |before| ==> after[k] == Cut(before[k], left))
    && (forall j :: k < j < |before| ==> after[j] == before[j])
  }

  /** What appending does: within the budget, and by giving up as much of the oldest content as that takes. */
  ghost predicate IsAppended(before: seq<ToolResult>, added: ToolResult, after: seq<ToolResult>) {
    && |after| == |before| + 1
    && after[|before|] == Cut(added, MAX_TOOL_RESULT_CHARS)
    && Total(after) == Min(Total(before) + Min(|added.content|, MAX_TOOL_RESULT_CHARS),
                           MAX_ACCUMULATED_TOOL_RESULT_CHARS)
    && exists k, left :: GivenUp(before, after[..|before|], k, left)
  }

  lemma {:induction false} TotalUpdate(items: seq<ToolResult>, k: nat, item: ToolResult)
    requires k < |items|
    ensures Total(items[k := item]) == Total(items) - |items[k].content| + |item.content|
  {
    var last := |items| - 1;
    if k < last {
      assert items[k := item][..last] == items[..last][k := item];
      TotalUpdate(items[..last], k, item);
    } else {
      assert items[k := item][..last] == items[..last];
    }
  }

  lemma TotalSnoc(items: seq<ToolResult>, item: ToolResult)
    ensures Total(items + [item]) == Total(items) + |item.content|
  {
    assert (items + [item])[..|items|] == items;
  }

  lemma {:induction false} TotalEmptied(items: seq<ToolResult>)
    requires forall j :: 0 <= j < |items| ==> items[j].content == ""
    ensures Total(items) == 0
  {
    if items != [] {
      TotalEmptied(items[..|items| - 1]);
    }
  }

  /** Nothing given up. */
  lemma AllAsBefore(items: seq<ToolResult>, k: nat)
    requires k == 0
    ensures exists left :: GivenUp(items, items, k, left)
  {
    assert GivenUp(items, items, k, if items == [] then 0 else |items[0].content|);
  }

  method CountTotal(items: seq<ToolResult>) returns (r: nat)
    ensures r == Total(items)
  {
    r := 0;
    for n := 0 to |items|
      invariant r == Total(items[..n])
    {
      assert items[..n + 1][..n] == items[..n];
      r := r + |items[n].content|;
    }
    assert items[..|items|] == items;
  }

  class ToolResultList {
    var results: seq<ToolResult>

    constructor ()
      ensures results == []
    {
      results := [];
    }

    method HasCapacity() returns (r: bool)
      ensures r <==> Total(results) < MAX_ACCUMULATED_TOOL_RESULT_CHARS
    {
      var total := CountTotal(results);
      r := total < MAX_ACCUMULATED_TOOL_RESULT_CHARS;
    }

    /** One result gives up content: as much as it has, or as much as is too much. */
    method GiveUp(index: nat, overflow: int) returns (left: int)
      requires index < |results| && overflow > 0
      modifies this
      ensures var length :=
              if |old(results)[index].content| > overflow then |old(results)[index].content| - overflow else 0;
              && results == old(results)[index := Cut(old(results)[index], length)]
              && left == overflow - (|old(results)[index].content| - length)
              && Total(results) - left == old(Total(results)) - overflow
              && 0 <= left && (left > 0 ==> results[index] == Emptied(old(results)[index]))
    {
      var previous := results[index];
      var length := if |previous.content| > overflow then |previous.content| - overflow else 0;
      var retained := Truncate(previous.content, length);
      TotalUpdate(results, index, previous.(content := retained));
      left := overflow - (|previous.content| - |retained|);
      results := results[index := previous.(content := retained)];
    }

    /** The oldest results give up content until it is no longer too much. */
    method MakeRoom(overflow: int) returns (remaining: int)
      modifies this
      ensures |results| == |old(results)| && exists k, left :: GivenUp(old(results), results, k, left)
      ensures Total(results) - remaining == old(Total(results)) - overflow
      ensures remaining > 0 ==> Total(results) == 0
      ensures if overflow <= 0 then remaining == overflow else remaining >= 0
    {
      hide Total, Truncate;
      remaining := overflow;
      var index := 0;
      ghost var before := results;
      AllAsBefore(before, 0);
      while index < |results| && remaining > 0
        invariant 0 <= index <= |results| == |before|
        invariant remaining > 0 ==> forall j :: 0 <= j < index ==> results[j] == Emptied(before[j])
        invariant forall j :: index <= j < |before| ==> results[j] == before[j]
        invariant exists k, left :: GivenUp(before, results, k, left)
        invariant Total(results) - remaining == Total(before) - overflow
        invariant if overflow <= 0 then remaining == overflow else remaining >= 0
        decreases |results| - index
      {
        var length := if |results[index].content| > remaining then |results[index].content| - remaining else 0;
        remaining := GiveUp(index, remaining);
        assert GivenUp(before, results, index, length);
        index := index + 1;
      }
      if remaining > 0 {
        TotalEmptied(results);
      }
    }

    /** Whatever was there, and whatever is added: the budget is met exactly, and the new result is never cut further
        than its own limit. */
    method AppendBounded(added: ToolResult)
      modifies this
      ensures IsAppended(old(results), added, results)
    {
      hide Total, GivenUp;
      var result := Cut(added, MAX_TOOL_RESULT_CHARS);
      var total := CountTotal(results);
      ghost var before := results;
      var overflow := MakeRoom(total + |result.content| - MAX_ACCUMULATED_TOOL_RESULT_CHARS);
      if overflow > 0 {
        // where the original would cut the new result further: two limits of 6,000 fit the budget
        assert false;
      }
      TotalSnoc(results, result);
      assert (results + [result])[..|before|] == results;
      results := results + [result];
    }
  }

  // ----- whole runs

  /** Each list is what appending made of the one before. */
  ghost predicate IsRun(lists: seq<seq<ToolResult>>, added: seq<ToolResult>) {
    && |lists| == |added| + 1 && lists[0] == []
    && forall i :: 0 <= i < |added| ==> IsAppended(lists[i], added[i], lists[i + 1])
  }

  /** What all the results would take, each within its own limit. */
  function Wanted(added: seq<ToolResult>): nat {
    if added == [] then 0
    else Wanted(added[..|added| - 1]) + Min(|added[|added| - 1].content|, MAX_TOOL_RESULT_CHARS)
  }

  /** The same result, whatever became of its content. */
  predicate SameCall(a: ToolResult, b: ToolResult) {
    Emptied(a) == Emptied(b)
  }

  lemma AppendedCalls(before: seq<ToolResult>, added: ToolResult, after: seq<ToolResult>, j: nat)
    requires IsAppended(before, added, after) && j <= |before|
    ensures SameCall(after[j], if j < |before| then before[j] else added)
  {
    var k, left :| GivenUp(before, after[..|before|], k, left);
    if j < |before| {
      assert after[j] == after[..|before|][j];
    }
  }

  /** However many results are appended: none is lost or reordered or changed but for its content, and what is kept is
      exactly what they want, up to the budget. */
  lemma {:induction false} RunKeepsBudget(lists: seq<seq<ToolResult>>, added: seq<ToolResult>)
    requires IsRun(lists, added)
    ensures var final := lists[|added|];
            && |final| == |added|
            && Total(final) == Min(Wanted(added), MAX_ACCUMULATED_TOOL_RESULT_CHARS)
            && forall j :: 0 <= j < |added| ==> SameCall(final[j], added[j])
    decreases |added|
  {
    if added != [] {
      var n := |added| - 1;
      RunKeepsBudget(lists[..|added|], added[..n]);
      assert IsAppended(lists[n], added[n], lists[n + 1]);
      forall j | 0 <= j < |added| ensures SameCall(lists[n + 1][j], added[j]) {
        AppendedCalls(lists[n], added[n], lists[n + 1], j);
      }
    }
  }
}
