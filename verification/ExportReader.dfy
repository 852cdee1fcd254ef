/**
 The streaming reader: a buffer that is refilled in chunks and compacted, and the loop that yields the
 events of an export from it.
 */
module ExportReader {
  import opened Json
  import opened Refill
  import opened ExportText
  import opened Prelude

  const COMPACT_AFTER: nat := 65_536

  /** A chunk ends there. */
  ghost predicate AtBoundary(b: nat, chunk: nat)
    requires chunk > 0
  {
    NextBoundary(b, chunk) == b + chunk
  }

  /** A chunk read at a boundary reaches to the next one, or to the end. */
  lemma OneChunk(b: nat, n: nat, chunk: nat, total: nat)
    requires chunk > 0 && AtBoundary(b, chunk) && n == if chunk <= total - b then chunk else total - b
    ensures b + n <= NextBoundary(b, chunk) && (b + n < total ==> AtBoundary(b + n, chunk))
  {
    BoundaryStays(b, b + n, chunk);
  }

  /** A tight buffer that is not empty reaches to the next boundary. */
  lemma TightIsAhead(p: nat, available: nat, r: string, total: nat, chunk: nat, all: bool)
    requires chunk > 0 && p + |r| == total && available <= |r| && p + available <= NextBoundary(p, chunk)
    requires if all then available == |r| else AtBoundary(p + available, chunk)
    requires available > 0 || r == ""
    ensures available == Ahead(r, total, chunk)
  {
    BoundaryStays(p, p + available, chunk);
  }

  class IncrementalJsonReader {
    var buffer: string
    var position: nat
    var eof: bool
    /** The part of the file not read yet. */
    var source: string
    const chunk: nat

    /** How long the file is. */
    ghost const total: nat

    ghost predicate Valid()
      reads this
    {
      && position <= |buffer| && chunk > 0 && (eof ==> source == "")
      && |buffer| - position + |source| <= total && (source != "" ==> AtBoundary(total - |source|, chunk))
    }

    /** The input still to be consumed. */
    ghost function Remaining(): string
      reads this
      requires Valid()
    {
      buffer[position..] + source
    }

    ghost function Available(): nat
      reads this
      requires Valid()
    {
      |buffer| - position
    }

    ghost function Consumed(): (p: nat)
      reads this
      requires Valid()
      ensures p + |Remaining()| == total
    {
      total - (|buffer| - position + |source|)
    }

    /** No more has been read than up to the first boundary behind what is consumed. */
    ghost predicate Tight()
      reads this
      requires Valid()
    {
      Consumed() + Available() <= NextBoundary(Consumed(), chunk)
    }

    ghost function How(): Reading
    {
      Chunks(total, chunk)
    }

    /** Compacting leaves the position where it is, as it must while a value that starts there is decoded. */
    ghost predicate Settled()
      reads this
    {
      position == 0 || (position <= COMPACT_AFTER && position < |buffer|)
    }

    constructor (text: string, chunkChars: nat)
      requires chunkChars > 0
      ensures Valid() && Tight() && Remaining() == text && Available() == 0 && How() == Chunks(|text|, chunkChars)
    {
      buffer, position, eof, source, chunk := "", 0, false, text, chunkChars;
      total := |text|;
    }

    /** Consumes buffered characters. */
    method Advance(n: nat)
      requires Valid() && n <= Available()
      modifies `position
      ensures Valid() && position == old(position) + n && Remaining() == old(Remaining())[n..]
      ensures Available() == old(Available()) - n && Consumed() == old(Consumed()) + n
    {
      assert buffer[position + n..] + source == Remaining()[n..];
      position := position + n;
    }

    method Compact()
      requires Valid()
      modifies this
      ensures Valid() && Remaining() == old(Remaining()) && Available() == old(Available())
      ensures source == old(source) && eof == old(eof)
      ensures Settled() && (old(Settled()) ==> position == old(position))
    {
      if position != 0 && (position > COMPACT_AFTER || position == |buffer|) {
        buffer := buffer[position..];
        position := 0;
      }
    }

    method ReadMore() returns (more: bool)
      requires Valid()
      modifies this
      ensures Valid() && Remaining() == old(Remaining())
      ensures more == (old(source) != "")
      ensures more ==> |source| < |old(source)|
      ensures Consumed() == old(Consumed())
      ensures more ==> Consumed() + Available() <= NextBoundary(old(Consumed() + Available()), chunk)
      ensures Available() == if old(Available()) + chunk <= |Remaining()| then old(Available()) + chunk
              else |Remaining()|
      ensures old(Settled()) ==> Settled() && position == old(position)
    {
      hide NextBoundary, AtBoundary;
      if eof {
        return false;
      }
      Compact();
      var n := if chunk <= |source| then chunk else |source|;
      var read := source[..n];
      source := source[n..];
      if read != "" {
        OneChunk(total - |old(source)|, n, chunk, total);
        buffer := buffer + read;
        return true;
      }
      eof := true;
      return false;
    }

    method EnsureAvailable() returns (any: bool)
      requires Valid() && Tight()
      modifies this
      ensures Valid() && Tight() && Remaining() == old(Remaining())
      ensures any == (Remaining() != "") == (Available() > 0)
    {
      hide NextBoundary, AtBoundary;
      while position >= |buffer|
        invariant Valid() && Tight() && Remaining() == old(Remaining())
        decreases |source|, |buffer| - position
      {
        var more := ReadMore();
        if !more {
          return false;
        }
      }
      return true;
    }

    method SkipWhitespace()
      requires Valid() && Tight()
      modifies this
      ensures Valid() && Tight() && Remaining() == SkipSpace(old(Remaining()))
      ensures Available() > 0 || Remaining() == ""
    {
      hide NextBoundary, AtBoundary;
      while true
        invariant Valid() && Tight() && SkipSpace(Remaining()) == SkipSpace(old(Remaining()))
        decreases |source|
      {
        ghost var unread := source;
        while position < |buffer| && IsSpace(buffer[position])
          invariant Valid() && Tight() && SkipSpace(Remaining()) == SkipSpace(old(Remaining()))
          invariant source == unread
        {
          BoundaryStays(Consumed(), Consumed() + 1, chunk);
          Advance(1);
        }
        if position < |buffer| {
          assert Remaining()[0] == buffer[position];
          return;
        }
        var more := ReadMore();
        if !more {
          return;
        }
      }
    }

    method Peek() returns (c: Option<char>)
      requires Valid() && Tight()
      modifies this
      ensures Valid() && Tight() && Remaining() == SkipSpace(old(Remaining()))
      ensures c == if Remaining() == "" then None else Some(Remaining()[0])
      ensures c.Some? ==> Available() > 0
    {
      SkipWhitespace();
      var any := EnsureAvailable();
      if !any {
        return None;
      }
      assert Remaining()[0] == buffer[position];
      return Some(buffer[position]);
    }

    method Expect(expected: char) returns (ok: bool)
      requires Valid() && Tight()
      modifies this
      ensures Valid() && Tight() && ok == ExportText.Expect(old(Remaining()), expected).Some?
      ensures ok ==> Remaining() == ExportText.Expect(old(Remaining()), expected).value
    {
      var actual := Peek();
      if actual != Some(expected) {
        return false;
      }
      BoundaryStays(Consumed(), Consumed() + 1, chunk);
      Advance(1);
      return true;
    }

    /** Ready to try to decode `r`, the attempt before having seen `before` characters of it. */
    ghost predicate Trying(r: string, before: nat)
      reads this
    {
      && Valid() && Settled() && Remaining() == r && (Available() > 0 || r == "") && Unfinished(r, Available(), before)
      && Consumed() + Available() <= NextBoundary(Consumed() + before, chunk)
    }

    /** One attempt at what is buffered, or one more refill. */
    method Attempt(ghost r: string, ghost before: nat) returns (d: Option<Decoded>)
      requires Trying(r, before)
      modifies this
      ensures Valid() && (d.Some? ==> d.value == ChunkDecode(r, old(Available()), chunk))
      ensures d.Some? && d.value.Good? ==> Tight() && Remaining() == r[d.value.used..]
      ensures d == None ==>
                && Trying(r, old(Available())) && position == old(position) && |source| < |old(source)|
                && ChunkDecode(r, old(Available()), chunk) == ChunkDecode(r, Available(), chunk)
    {
      hide NextBoundary, AtBoundary, DecodeValue;
      assert buffer[position..] == r[..Available()];
      var v := DecodeValue(buffer[position..], 0);
      if v.Done? {
        if v.end > MAX_RAW_JSON_VALUE_CHARS {
          return Some(Bad(Oversized));
        }
        FirstSuccess(r, Available(), before);
        BoundaryStays(Consumed() + before, Consumed() + v.end, chunk);
        Advance(v.end);
        return Some(Good(v.value, v.end));
      }
      if |buffer| - position > MAX_RAW_JSON_VALUE_CHARS {
        return Some(Bad(Oversized));
      }
      var more := ReadMore();
      if !more {
        assert r[..|r|] == r;
        return Some(Bad(Malformed));
      }
      d := None;
    }

    /** Decodes the next value, refilling the buffer until something decodes. */
    method DecodeNext() returns (d: Decoded)
      requires Valid() && Tight()
      modifies this
      ensures Valid() && d == Decode(SkipSpace(old(Remaining())), How())
      ensures d.Good? ==> Tight() && Remaining() == SkipSpace(old(Remaining()))[d.used..]
    {
      SkipWhitespace();
      Compact();
      ghost var r, have := Remaining(), Available();
      TightIsAhead(Consumed(), have, r, total, chunk, source == "");
      hide SkipSpace, NextBoundary, AtBoundary, Ahead, ChunkDecode, Unfinished;
      StartsUnfinished(r, have);
      // what was buffered at the attempt before
      ghost var start, before: nat := position, 0;
      while true
        // the saved start never goes stale
        invariant Trying(r, before) && position == start
        invariant ChunkDecode(r, have, chunk) == ChunkDecode(r, Available(), chunk)
        decreases |source|
      {
        ghost var now := Available();
        var attempt := Attempt(r, before);
        if attempt.Some? {
          return attempt.value;
        }
        before := now;
      }
    }
  }

  lemma StartsUnfinished(r: string, have: nat)
    requires have <= |r|
    ensures Unfinished(r, have, 0)
  {
  }

  // ----- the event loop

  /** The events so far, with what is still to come, are those of the export. */
  ghost predicate OnTrack(events: seq<Event>, rest: Log, log: Log) {
    log.events == events + rest.events && log.end == rest.end
  }

  ghost predicate Finished(events: seq<Event>, end: End, log: Log) {
    log.events == events && log.end == end
  }

  lemma Starts(log: Log)
    ensures OnTrack([], log, log)
  {
    assert [] + log.events == log.events;
  }

  lemma Stops(events: seq<Event>, rest: Log, log: Log)
    requires OnTrack(events, rest, log) && rest.events == []
    ensures Finished(events, rest.end, log)
  {
    assert events + [] == events;
  }

  /** A decoded value joins the events. */
  lemma ValueJoins(events: seq<Event>, event: Event, start: string, rest: Log, log: Log)
    requires OnTrack(events, After(event, start, rest), log)
    ensures OnTrack(events + [event], rest, log)
  {
    assert events + ([event] + rest.events) == (events + [event]) + rest.events;
  }

  /** The members of the messages array, from the first one on; `end` is how reading failed, if it did. */
  method ReadMessages(reader: IncrementalJsonReader, before: seq<Event>, ghost log: Log)
    returns (events: seq<Event>, end: Option<End>)
    requires reader.Valid() && reader.Tight()
    requires OnTrack(before, Messages(reader.Remaining(), reader.How()), log)
    modifies reader
    ensures reader.Valid()
    ensures end.Some? ==> Finished(events, end.value, log)
    ensures end == None ==>
              && reader.Tight() && |reader.Remaining()| <= old(|reader.Remaining()|) && Peeks(reader.Remaining(), ']')
              && OnTrack(events, AfterEntry(ExportText.Expect(reader.Remaining(), ']').value, reader.How()), log)
  {
    hide OnTrack, Finished, Decode, NextBoundary;
    events := before;
    while true
      invariant reader.Valid() && reader.Tight() && |reader.Remaining()| <= old(|reader.Remaining()|)
      invariant OnTrack(events, Messages(reader.Remaining(), reader.How()), log)
      decreases |reader.Remaining()|
    {
      ghost var r := reader.Remaining();
      var d := reader.DecodeNext();
      if d.Bad? {
        Stops(events, Messages(r, reader.How()), log);
        return events, Some(Failed(d.error));
      }
      ValueJoins(events, Posted(d.value), SkipSpace(r), MessageRest(reader.Remaining(), reader.How()), log);
      events := events + [Posted(d.value)];
      ghost var rest := reader.Remaining();
      var separator := reader.Peek();
      SkipTwice(rest);
      if separator == Some(']') {
        return events, None;
      }
      var ok := reader.Expect(',');
      if !ok {
        Stops(events, MessageRest(rest, reader.How()), log);
        return events, Some(Failed(Malformed));
      }
    }
  }

  /** Looking at what comes next changes nothing. */
  lemma SkipTwice(r: string)
    ensures SkipSpace(SkipSpace(r)) == SkipSpace(r)
    ensures forall c :: ExportText.Expect(SkipSpace(r), c) == ExportText.Expect(r, c)
    ensures forall c :: Peeks(SkipSpace(r), c) == Peeks(r, c)
  {
  }

  /** The value of one top-level field; `end` is how reading failed, if it did. */
  method ReadEntryValue(reader: IncrementalJsonReader, key: Str, before: seq<Event>, ghost log: Log)
    returns (events: seq<Event>, end: Option<End>)
    requires reader.Valid() && reader.Tight()
    requires OnTrack(before, EntryValue(key, reader.Remaining(), reader.How()), log)
    modifies reader
    ensures reader.Valid()
    ensures end.Some? ==> Finished(events, end.value, log)
    ensures end == None ==>
              && reader.Tight() && |reader.Remaining()| <= old(|reader.Remaining()|)
              && OnTrack(events, AfterEntry(reader.Remaining(), reader.How()), log)
  {
    hide OnTrack, Finished, Decode, NextBoundary, Messages;
    events, end := before, None;
    ghost var r := reader.Remaining();
    if key == MessagesKey() {
      var ok := reader.Expect('[');
      if !ok {
        Stops(events, EntryValue(key, r, reader.How()), log);
        return events, Some(Failed(Malformed));
      }
      ghost var list := reader.Remaining();
      var c := reader.Peek();
      SkipTwice(list);
      if c != Some(']') {
        MessagesSkip(list, reader.How());
        events, end := ReadMessages(reader, events, log);
        if end.Some? {
          return;
        }
      }
      ok := reader.Expect(']');
    } else {
      var d := reader.DecodeNext();
      if d.Bad? {
        Stops(events, EntryValue(key, r, reader.How()), log);
        return events, Some(Failed(d.error));
      }
      ValueJoins(events, Field(key, d.value), SkipSpace(r), AfterEntry(reader.Remaining(), reader.How()), log);
      events := events + [Field(key, d.value)];
    }
  }

  lemma MessagesSkip(r: string, how: Reading)
    ensures Messages(SkipSpace(r), how) == Messages(r, how)
  {
    assert SkipSpace(SkipSpace(r)) == SkipSpace(r);
  }

  /** The events of an export and how reading ended; None for a chunk size the original rejects.  They are those of the
      chunked reading; those before the first number that is cut are those of the whole text, and all are if and only if
      none is. */
  method IterExportEvents(text: string, readChunkChars: int) returns (r: Option<(seq<Event>, End)>)
    ensures r == None <==> readChunkChars <= 0
    ensures r.Some? ==>
              var how, whole := Chunks(|text|, readChunkChars), WholeExport(text);
              && r.value == (Export(text, how).events, Export(text, how).end)
              && (r.value == (whole.events, whole.end) <==> Uncut(whole, how))
              && Clear(whole, how) <= r.value.0
  {
    if readChunkChars <= 0 {
      return None;
    }
    ghost var how := Chunks(|text|, readChunkChars);
    ChunksCompare(text, how);
    hide Export, WholeExport, Uncut, Clear;
    var events, end := ReadExport(text, readChunkChars, Export(text, how));
    r := Some((events, end));
  }

  /** One top-level field, with what separates it from the next; `end` is how reading ended, if it did. */
  method ReadEntry(reader: IncrementalJsonReader, before: seq<Event>, ghost log: Log)
    returns (events: seq<Event>, end: Option<End>)
    requires reader.Valid() && reader.Tight()
    requires OnTrack(before, Entries(reader.Remaining(), reader.How()), log)
    modifies reader
    ensures reader.Valid()
    ensures end.Some? ==> Finished(events, end.value, log)
    ensures end == None ==>
              && reader.Tight() && |reader.Remaining()| < old(|reader.Remaining()|)
              && OnTrack(events, Entries(reader.Remaining(), reader.How()), log)
  {
    hide OnTrack, Finished, EntryValue, Decode, NextBoundary;
    events := before;
    ghost var r := reader.Remaining();
    var key := reader.DecodeNext();
    if key.Bad? {
      Stops(events, Entries(r, reader.How()), log);
      return events, Some(Failed(key.error));
    }
    if !key.value.Text? {
      Stops(events, Entries(r, reader.How()), log);
      return events, Some(Failed(Malformed));
    }
    var ok := reader.Expect(':');
    if !ok {
      Stops(events, Entries(r, reader.How()), log);
      return events, Some(Failed(Malformed));
    }
    events, end := ReadEntryValue(reader, key.value.codes, events, log);
    if end.Some? {
      return;
    }
    ghost var rest := reader.Remaining();
    var c := reader.Peek();
    SkipTwice(rest);
    if c == Some('}') {
      ok := reader.Expect('}');
      Stops(events, AfterEntry(rest, reader.How()), log);
      return events, Some(Complete);
    }
    ok := reader.Expect(',');
    if !ok {
      Stops(events, AfterEntry(rest, reader.How()), log);
      return events, Some(Failed(Malformed));
    }
  }

  lemma EntriesSkip(r: string, how: Reading)
    ensures Entries(SkipSpace(r), how) == Entries(r, how)
  {
    assert SkipSpace(SkipSpace(r)) == SkipSpace(r);
  }

  method ReadExport(text: string, readChunkChars: nat, ghost log: Log) returns (events: seq<Event>, end: End)
    requires readChunkChars > 0 && log == Export(text, Chunks(|text|, readChunkChars))
    ensures Finished(events, end, log)
  {
    hide OnTrack, Finished, Entries, Decode, NextBoundary;
    events := [];
    var reader := new IncrementalJsonReader(text, readChunkChars);
    Starts(log);
    var ok := reader.Expect('{');
    if !ok {
      Stops(events, log, log);
      return events, Failed(Malformed);
    }
    ghost var r := reader.Remaining();
    var c := reader.Peek();
    EntriesSkip(r, reader.How());
    SkipTwice(r);
    if c == Some('}') {
      ok := reader.Expect('}');
      Stops(events, log, log);
      return events, Complete;
    }
    while true
      invariant reader.Valid() && reader.Tight() && fresh(reader)
      invariant OnTrack(events, Entries(reader.Remaining(), reader.How()), log)
      decreases |reader.Remaining()|
    {
      var ended;
      events, ended := ReadEntry(reader, events, log);
      if ended.Some? {
        return events, ended.value;
      }
    }
  }
}
