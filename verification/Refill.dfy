/**
 Decoding from a buffer that is refilled chunk by chunk, as a function of the text still to be read.

 The streaming reader tries to decode whatever it has buffered and reads one more chunk each time that fails.  This
 module says when the outcome depends on the chunks: exactly when a chunk ends inside a number, behind its first digit.
 */
module Refill {
  import opened Json

  const MAX_RAW_JSON_VALUE_CHARS: nat := 2 * 1024 * 1024

  datatype Error = Malformed | Oversized

  datatype Decoded = Good(value: Value, used: nat) | Bad(error: Error)

  /** Decode the start of `r` when `have` characters of it are buffered and each refill adds `chunk`. */
  function ChunkDecode(r: string, have: nat, chunk: nat): (d: Decoded)
    requires have <= |r| && chunk > 0
    ensures d.Good? ==> 0 < d.used <= |r|
    decreases |r| - have
  {
    var v := DecodeValue(r[..have], 0);
    if v.Done? then
      if v.end > MAX_RAW_JSON_VALUE_CHARS then Bad(Oversized) else Good(v.value, v.end)
    else if have > MAX_RAW_JSON_VALUE_CHARS then Bad(Oversized)
    else if have == |r| then Bad(Malformed)
    else ChunkDecode(r, if have + chunk <= |r| then have + chunk else |r|, chunk)
  }

  /** Decode the start of `r` when all of it is buffered. */
  function WholeDecode(r: string): (d: Decoded)
    ensures d.Good? ==> 0 < d.used <= |r|
  {
    ChunkDecode(r, |r|, 1)
  }

  /** Characters of a number before any second digit. */
  function Lead(r: string): nat {
    if r != "" && r[0] == '-' then 2 else 1
  }

  /** `r` starts with a number that goes on after its first digit. */
  predicate LongNumberAhead(r: string) {
    var v := DecodeValue(r, 0);
    v.Done? && v.value.Number? && v.end > Lead(r)
  }

  lemma {:induction false} DigitsCut(r: string, h: nat, i: nat)
    requires i <= h <= |r|
    ensures DigitsEnd(r[..h], i) == if DigitsEnd(r, i) <= h then DigitsEnd(r, i) else h
    decreases h - i
  {
    if i < h && IsDigit(r[i]) {
      DigitsCut(r, h, i + 1);
    }
  }

  lemma IntCut(r: string, h: nat)
    requires h <= |r| && IntEnd(r[..h], 0).Done?
    ensures IntEnd(r, 0).Done? && Lead(r) <= IntEnd(r[..h], 0).end <= IntEnd(r, 0).end
    ensures IntEnd(r[..h], 0).end < h ==> IntEnd(r[..h], 0) == IntEnd(r, 0)
  {
    var p := r[..h];
    var d := if p[0] == '-' then 1 else 0;
    assert p[0] == r[0] && p[d] == r[d];
    if p[d] != '0' {
      DigitsCut(r, h, d + 1);
    }
  }

  lemma FracCut(r: string, h: nat, i: nat)
    requires i <= h <= |r|
    ensures FracEnd(r[..h], i) == FracEnd(r, i) || (FracEnd(r[..h], i) == i && h <= i + 1)
            || FracEnd(r[..h], i) == h <= FracEnd(r, i)
  {
    if i + 1 < h && r[i] == '.' && IsDigit(r[i + 1]) {
      DigitsCut(r, h, i + 2);
    }
  }

  lemma ExpCut(r: string, h: nat, i: nat)
    requires i <= h <= |r|
    ensures ExpEnd(r[..h], i) <= ExpEnd(r, i)
  {
    if i < h && (r[i] == 'e' || r[i] == 'E') && ExpEnd(r[..h], i) > i {
      var d := if r[i + 1] == '+' || r[i + 1] == '-' then i + 2 else i + 1;
      DigitsCut(r, h, d + 1);
    }
  }

  /** Cutting a text inside a number leaves a number that is no longer, or nothing that decodes. */
  lemma NumberCut(r: string, h: nat)
    requires h <= |r| && NumberEnd(r[..h], 0).Done?
    ensures NumberEnd(r, 0).Done?
    ensures Lead(r) <= NumberEnd(r[..h], 0).end <= NumberEnd(r, 0).end
  {
    IntCut(r, h);
    var a := IntEnd(r[..h], 0).end;
    if a < h {
      FracCut(r, h, a);
      ExpCut(r, h, FracEnd(r[..h], a));
    }
  }

  lemma FracKept(r: string, h: nat, i: nat)
    requires i <= |r| && FracEnd(r, i) <= h <= |r|
    ensures FracEnd(r[..h], i) == FracEnd(r, i)
  {
    if i + 1 < h && r[i] == '.' && IsDigit(r[i + 1]) {
      DigitsCut(r, h, i + 2);
    }
  }

  lemma ExpKept(r: string, h: nat, i: nat)
    requires i <= |r| && ExpEnd(r, i) <= h <= |r|
    ensures ExpEnd(r[..h], i) == ExpEnd(r, i)
  {
    if i < h && (r[i] == 'e' || r[i] == 'E') {
      var d := if i + 1 < h && (r[i + 1] == '+' || r[i + 1] == '-') then i + 2 else i + 1;
      if d < h && IsDigit(r[d]) {
        DigitsCut(r, h, d + 1);
      }
    }
  }

  lemma IntKept(r: string, h: nat)
    requires IntEnd(r, 0).Done? && IntEnd(r, 0).end <= h <= |r|
    ensures IntEnd(r[..h], 0) == IntEnd(r, 0)
  {
    var d := if r[0] == '-' then 1 else 0;
    if r[d] != '0' {
      DigitsCut(r, h, d + 1);
    }
  }

  /** Cutting a text behind a number leaves the number. */
  lemma NumberKept(r: string, h: nat)
    requires NumberEnd(r, 0).Done? && NumberEnd(r, 0).end <= h <= |r|
    ensures NumberEnd(r[..h], 0) == NumberEnd(r, 0)
  {
    hide DigitsEnd, IntEnd, FracEnd, ExpEnd;
    var a := IntEnd(r, 0).end;
    IntKept(r, h);
    FracKept(r, h, a);
    ExpKept(r, h, FracEnd(r, a));
  }

  /** What a cut text decodes to, compared with the text: the same value, or a shorter number. */
  lemma PrefixDecode(r: string, h: nat)
    requires h <= |r| && !LongNumberAhead(r)
    ensures DecodeValue(r[..h], 0).Done? ==> DecodeValue(r[..h], 0) == DecodeValue(r, 0)
    ensures DecodeValue(r, 0).Done? && DecodeValue(r, 0).end <= h ==> DecodeValue(r[..h], 0).Done?
  {
    var p, v := r[..h], DecodeValue(r[..h], 0);
    if DecodeValue(r, 0).Done? && DecodeValue(r, 0).end <= h {
      PrefixKept(r, h);
    } else if v.Done? && v.value.Number? {
      assert p[0] == r[0];
      NumberStarts(p);
      NumberCut(r, h);
    } else if v.Done? {
      ValueLocal(p, r, 0);
    }
  }

  /** If no long number is ahead, the outcome is that of decoding with everything buffered. */
  lemma {:induction false} ChunkFree(r: string, have: nat, chunk: nat)
    requires have <= |r| && chunk > 0 && !LongNumberAhead(r)
    ensures ChunkDecode(r, have, chunk) == WholeDecode(r)
    decreases |r| - have
  {
    assert r[..|r|] == r;
    PrefixDecode(r, have);
    if DecodeValue(r[..have], 0).Fail? && have <= MAX_RAW_JSON_VALUE_CHARS && have < |r| {
      ChunkFree(r, if have + chunk <= |r| then have + chunk else |r|, chunk);
    }
  }

  /** There are such numbers. */
  lemma TwelveIsLong()
    ensures LongNumberAhead("12") && NumberEnd("12", 0) == Done((), 2) && Lead("12") == 1
  {
    assert DigitsEnd("12", 1) == 2;
    assert IntEnd("12", 0) == Done((), 2);
  }

  /** A long number read one character at a time ends after its first digit. */
  lemma LongNumberIsCut(r: string)
    requires LongNumberAhead(r)
    ensures ChunkDecode(r, 1, 1) == Good(Number(r[..Lead(r)]), Lead(r)) != WholeDecode(r)
  {
    assert r[..|r|] == r;
    var p := r[..Lead(r)];
    assert p[0] == r[0] && p[Lead(r) - 1] == r[Lead(r) - 1];
    assert DecodeValue(p, 0) == Done(Number(p), Lead(r)) by {
      DigitsCut(r, Lead(r), Lead(r));
      assert p[0..Lead(r)] == p;
    }
    if r[0] == '-' {
      assert r[..1] == "-";
      assert DecodeValue("-", 0).Fail?;
    }
  }

  /** The chunk size never matters if and only if no number of more than one digit is ahead. */
  lemma ChunkSizeIrrelevant(r: string)
    requires r != ""
    ensures (forall have: nat, chunk: nat :: 1 <= have <= |r| && chunk > 0 ==>
             ChunkDecode(r, have, chunk) == WholeDecode(r))
            <==> !LongNumberAhead(r)
  {
    if LongNumberAhead(r) {
      LongNumberIsCut(r);
    } else {
      forall have: nat, chunk: nat | 1 <= have <= |r| && chunk > 0
        ensures ChunkDecode(r, have, chunk) == WholeDecode(r)
      {
        ChunkFree(r, have, chunk);
      }
    }
  }

  lemma LongNumberPrefix(r: string, have: nat)
    requires have <= |r| && LongNumberAhead(r)
    ensures var v := DecodeValue(r[..have], 0);
            if v.Done? then v.value.Number? && v.end <= DecodeValue(r, 0).end else have < Lead(r)
  {
    var p := r[..have];
    if DecodeValue(p, 0).Done? {
      assert p[0] == r[0];
      if NumberEnd(p, 0).Done? {
        NumberCut(r, have);
      } else {
        ValueLocal(p, r, 0);
      }
    }
  }

  /** A long number decodes to some number, or is found too long, whatever the chunk size. */
  lemma {:induction false} LongNumberDecodes(r: string, have: nat, chunk: nat)
    requires have <= |r| && chunk > 0 && LongNumberAhead(r)
    ensures var d := ChunkDecode(r, have, chunk);
            d == Bad(Oversized) || (d.Good? && d.value.Number?)
    ensures DecodeValue(r, 0).end <= MAX_RAW_JSON_VALUE_CHARS ==> ChunkDecode(r, have, chunk).Good?
    decreases |r| - have
  {
    LongNumberPrefix(r, have);
    if DecodeValue(r[..have], 0).Fail? {
      LongNumberDecodes(r, if have + chunk <= |r| then have + chunk else |r|, chunk);
    }
  }

  /** The refill before this one was not enough. */
  ghost predicate Unfinished(r: string, have: nat, before: nat) {
    have <= |r| && (before > 0 ==> before < have && DecodeValue(r[..before], 0).Fail?)
  }

  /** Cutting a text behind a value leaves the value. */
  lemma PrefixKept(r: string, h: nat)
    requires DecodeValue(r, 0).Done? && DecodeValue(r, 0).end <= h <= |r|
    ensures DecodeValue(r[..h], 0) == DecodeValue(r, 0)
  {
    var v := DecodeValue(r, 0);
    if v.value.Number? {
      NumberStarts(r);
      NumberKept(r, h);
      assert r[..h][..v.end] == r[..v.end] && r[..h][0] == r[0];
    } else {
      ValueLocal(r, r[..h], 0);
    }
  }

  lemma NumberStarts(r: string)
    requires DecodeValue(r, 0).Done? && DecodeValue(r, 0).value.Number?
    ensures r[0] !in ['"', '[', '{'] && NumberEnd(r, 0) == Done((), DecodeValue(r, 0).end)
  {
  }

  /** A value that a refill completed ends within what that refill brought. */
  lemma FirstSuccess(r: string, have: nat, before: nat)
    requires Unfinished(r, have, before) && DecodeValue(r[..have], 0).Done?
    ensures DecodeValue(r[..have], 0).end > before
  {
    if before > 0 && DecodeValue(r[..have], 0).end <= before {
      assert r[..have][..before] == r[..before];
      PrefixKept(r[..have], before);
    }
  }

  // ----- where the chunks end

  /** The first chunk boundary behind a position of the text. */
  function NextBoundary(p: nat, chunk: nat): (b: nat)
    requires chunk > 0
    ensures p < b <= p + chunk
  {
    if p < chunk then chunk else NextBoundary(p - chunk, chunk) + chunk
  }

  /** Up to its boundary a position has the same next boundary, and the next one is a chunk further. */
  lemma {:induction false} BoundaryStays(p: nat, q: nat, chunk: nat)
    requires chunk > 0 && p <= q
    ensures q < NextBoundary(p, chunk) ==> NextBoundary(q, chunk) == NextBoundary(p, chunk)
    ensures NextBoundary(p, chunk) <= NextBoundary(q, chunk)
    ensures q == NextBoundary(p, chunk) ==> NextBoundary(q, chunk) == q + chunk
  {
    if p >= chunk {
      BoundaryStays(p - chunk, q - chunk, chunk);
    }
  }

  /** How much of `r`, the rest of a text, is buffered up to the next boundary. */
  function Ahead(r: string, total: nat, chunk: nat): (have: nat)
    requires |r| <= total && chunk > 0
    ensures have <= |r| && (r != "" ==> have > 0)
  {
    var p := total - |r|;
    if NextBoundary(p, chunk) <= total then NextBoundary(p, chunk) - p else |r|
  }

  /** Decode the start of `r`, the rest of a text of `total` characters that is read in chunks. */
  function DecodeAt(r: string, total: nat, chunk: nat): (d: Decoded)
    requires |r| <= total && chunk > 0
    ensures d.Good? ==> 0 < d.used <= |r|
  {
    ChunkDecode(r, Ahead(r, total, chunk), chunk)
  }

  /** Where the first boundary behind the first digit of a number cuts `r`. */
  function Edge(r: string, total: nat, chunk: nat): (h: nat)
    requires |r| <= total && chunk > 0
  {
    NextBoundary(total - |r| + Lead(r) - 1, chunk) - (total - |r|)
  }

  /** A number of more than one digit is ahead, and a boundary falls inside it behind its first digit; what is before
      the boundary is not itself too long. */
  predicate CutAt(r: string, total: nat, chunk: nat)
    requires |r| <= total && chunk > 0
  {
    LongNumberAhead(r) && Edge(r, total, chunk) < DecodeValue(r, 0).end
    && DecodeValue(r[..Edge(r, total, chunk)], 0).Done?
    && DecodeValue(r[..Edge(r, total, chunk)], 0).end <= MAX_RAW_JSON_VALUE_CHARS
  }

  /** Cutting a long number behind its first digit leaves a number. */
  lemma NumberPrefix(r: string, h: nat)
    requires LongNumberAhead(r) && Lead(r) <= h <= |r|
    ensures var v := DecodeValue(r[..h], 0); v.Done? && v.value.Number? && v.end <= h
    ensures h < DecodeValue(r, 0).end ==> DecodeValue(r[..h], 0) != DecodeValue(r, 0)
  {
    var p := r[..h];
    assert p[0] == r[0] && p[Lead(r) - 1] == r[Lead(r) - 1];
  }

  /** The first attempt that sees the first digit sees the text up to the edge. */
  lemma DecodesAtEdge(r: string, total: nat, chunk: nat)
    requires |r| <= total && chunk > 0 && LongNumberAhead(r)
    ensures var h := Edge(r, total, chunk);
            Lead(r) <= h && DecodeAt(r, total, chunk) == ChunkDecode(r, if h <= |r| then h else |r|, chunk)
  {
    hide ChunkDecode, DecodeValue, NextBoundary;
    var p := total - |r|;
    BoundaryStays(p, p + Lead(r) - 1, chunk);
    if Lead(r) == 2 && NextBoundary(p, chunk) == p + 1 {
      MinusFails(r);
      SecondAttempt(r, chunk);
    }
  }

  lemma SecondAttempt(r: string, chunk: nat)
    requires |r| > 1 && chunk > 0 && DecodeValue(r[..1], 0).Fail?
    ensures ChunkDecode(r, 1, chunk) == ChunkDecode(r, if 1 + chunk <= |r| then 1 + chunk else |r|, chunk)
  {
    hide DecodeValue;
  }

  lemma MinusFails(r: string)
    requires LongNumberAhead(r) && Lead(r) == 2
    ensures |r| > 2 && DecodeValue(r[..1], 0).Fail?
  {
    assert r[..1] == "-";
  }

  /** Read in chunks, a value decodes as it does when the whole text is at hand, if and only if it is not a number cut
      behind its first digit. */
  lemma DecodesUnlessCut(r: string, total: nat, chunk: nat)
    requires |r| <= total && chunk > 0
    ensures DecodeAt(r, total, chunk) == WholeDecode(r) <==> !CutAt(r, total, chunk)
    ensures CutAt(r, total, chunk) ==>
              var d := DecodeAt(r, total, chunk);
              d.Good? && d.value.Number? && (WholeDecode(r).Good? ==> d.value != WholeDecode(r).value)
  {
    assert r[..|r|] == r;
    if LongNumberAhead(r) {
      var h := Edge(r, total, chunk);
      DecodesAtEdge(r, total, chunk);
      if h <= |r| {
        NumberPrefix(r, h);
      }
      if DecodeValue(r, 0).end <= h <= |r| {
        PrefixKept(r, h);
      }
      if h < DecodeValue(r, 0).end {
        ShorterNumber(r, h);
      }
    } else {
      ChunkFree(r, Ahead(r, total, chunk), chunk);
    }
  }

  lemma ShorterNumber(r: string, h: nat)
    requires LongNumberAhead(r) && Lead(r) <= h < DecodeValue(r, 0).end
    ensures var v, w := DecodeValue(r[..h], 0), DecodeValue(r, 0);
            v.Done? && v.value.Number? && v.value != w.value && v.end <= h
  {
    NumberPrefix(r, h);
  }

  /** With chunks of one character every long number is cut. */
  lemma OneIsCut(r: string, total: nat)
    requires |r| <= total
    ensures CutAt(r, total, 1) <==> LongNumberAhead(r)
  {
    if LongNumberAhead(r) {
      NumberPrefix(r, Lead(r));
    }
  }
}
