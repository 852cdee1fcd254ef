/**
 A chat export as text: what its top-level fields and messages are when the whole text is at hand, and when it is read
 in chunks; the two agree exactly when no number is cut.
 */
module ExportText {
  import opened Json
  import opened Prelude
  import opened Refill

  datatype Event = Field(key: Str, value: Value) | Posted(value: Value)

  datatype End = Complete | Failed(error: Error)

  /** What a reader yields: the events, the unread text where each one's value starts, how reading ended, and the unread
      text where it ended. */
  datatype Log = Log(events: seq<Event>, starts: seq<string>, end: End, at: string) {
    /** The same events and the same end. */
    predicate Agrees(other: Log) {
      events == other.events && end == other.end
    }
  }

  /** The text is at hand, or of so many characters and read in chunks. */
  datatype Reading = Whole | Chunks(total: nat, chunk: nat)

  function Decode(r: string, how: Reading): (d: Decoded)
    ensures d.Good? ==> 0 < d.used <= |r|
  {
    if how.Chunks? && how.chunk > 0 && |r| <= how.total then DecodeAt(r, how.total, how.chunk) else WholeDecode(r)
  }

  // ----- tokens between values

  function SkipSpace(r: string): (s: string)
    ensures |s| <= |r| && (s == "" || !IsSpace(s[0]))
  {
    if r != "" && IsSpace(r[0]) then SkipSpace(r[1..]) else r
  }

  /** The text after the expected character. */
  function Expect(r: string, c: char): (s: Option<string>)
    ensures s.Some? ==> |s.value| < |r|
  {
    var t := SkipSpace(r);
    if t != "" && t[0] == c then Some(t[1..]) else None
  }

  predicate Peeks(r: string, c: char) {
    var t := SkipSpace(r);
    t != "" && t[0] == c
  }

  function Stop(error: Error, at: string): Log {
    Log([], [], Failed(error), at)
  }

  function After(event: Event, start: string, log: Log): Log {
    log.(events := [event] + log.events, starts := [start] + log.starts)
  }

  function MessagesKey(): Str {
    Codes("messages")
  }

  // ----- the reader

  function Export(text: string, how: Reading): Log {
    match Expect(text, '{')
    case None => Stop(Malformed, "")
    case Some(r) => if Peeks(r, '}') then Log([], [], Complete, "") else Entries(r, how)
  }

  function WholeExport(text: string): Log {
    Export(text, Whole)
  }

  /** From the name of a top-level field to the end of the export. */
  function Entries(r: string, how: Reading): Log
    decreases |r|
  {
    var s := SkipSpace(r);
    match Decode(s, how)
    case Bad(error) => Stop(error, s)
    case Good(key, used) =>
      if !key.Text? then Stop(Malformed, "")
      else match Expect(s[used..], ':')
        case None => Stop(Malformed, "")
        case Some(r1) => EntryValue(key.codes, r1, how)
  }

  /** From after the colon of a top-level field to the end of the export. */
  function EntryValue(key: Str, r: string, how: Reading): Log
    decreases |r|
  {
    if key == MessagesKey() then
      match Expect(r, '[')
      case None => Stop(Malformed, "")
      case Some(r1) => if Peeks(r1, ']') then AfterEntry(Expect(r1, ']').value, how) else Messages(r1, how)
    else
      var s := SkipSpace(r);
      match Decode(s, how)
      case Bad(error) => Stop(error, s)
      case Good(value, n) => After(Field(key, value), s, AfterEntry(s[n..], how))
  }

  /** From a member of the messages array to the end of the export. */
  function Messages(r: string, how: Reading): Log
    decreases |r|
  {
    var s := SkipSpace(r);
    match Decode(s, how)
    case Bad(error) => Stop(error, s)
    case Good(value, n) => After(Posted(value), s, MessageRest(s[n..], how))
  }

  /** What follows a message: the end of the array, or a comma and more messages. */
  function MessageRest(r: string, how: Reading): Log
    decreases |r|
  {
    if Peeks(r, ']') then AfterEntry(Expect(r, ']').value, how)
    else match Expect(r, ',')
      case None => Stop(Malformed, "")
      case Some(r1) => Messages(r1, how)
  }

  function AfterEntry(r: string, how: Reading): Log
    decreases |r|
  {
    if Peeks(r, '}') then Log([], [], Complete, "")
    else match Expect(r, ',')
      case None => Stop(Malformed, "")
      case Some(r1) => Entries(r1, how)
  }

  // ----- when chunking is harmless

  /** Not a number of more than one digit. */
  predicate SelfDelimiting(v: Value) {
    v.Number? ==> |v.raw| <= Lead(v.raw)
  }

  predicate AllSelfDelimiting(events: seq<Event>) {
    forall k :: 0 <= k < |events| ==> SelfDelimiting(events[k].value)
  }

  /** At this place of the text stands a number that the chunks cut. */
  predicate Cut(r: string, how: Reading) {
    how.Chunks? && how.chunk > 0 && |r| <= how.total && CutAt(r, how.total, how.chunk)
  }

  /** No value that reading the whole text got to is cut, one that ended it included. */
  predicate Uncut(log: Log, how: Reading) {
    && (forall k :: 0 <= k < |log.starts| ==> !Cut(log.starts[k], how))
    && (log.end.Failed? ==> !Cut(log.at, how))
  }

  /** The events before the first value that is cut. */
  function Clear(log: Log, how: Reading): (r: seq<Event>)
    ensures r <= log.events
    decreases |log.events|
  {
    if log.events == [] || log.starts == [] || Cut(log.starts[0], how) then []
    else [log.events[0]] + Clear(log.(events := log.events[1..], starts := log.starts[1..]), how)
  }

  /** What is read in chunks, `log`, compared with what reading the whole text gives. */
  ghost predicate Compares(log: Log, whole: Log, how: Reading) {
    && (log.Agrees(whole) <==> Uncut(whole, how))
    && Clear(whole, how) <= log.events
    && |whole.starts| == |whole.events|
  }

  lemma CutDecodes(r: string, how: Reading)
    ensures Decode(r, how) == WholeDecode(r) <==> !Cut(r, how)
    ensures Cut(r, how) ==>
              var d := Decode(r, how);
              d.Good? && d.value.Number? && (WholeDecode(r).Good? ==> d.value != WholeDecode(r).value)
    ensures Cut(r, how) ==>
              if WholeDecode(r).Good? then WholeDecode(r).value.Number? else WholeDecode(r).error == Oversized
  {
    assert r[..|r|] == r;
    if how.Chunks? && how.chunk > 0 && |r| <= how.total {
      DecodesUnlessCut(r, how.total, how.chunk);
    }
  }

  /** A value that is not cut goes before both. */
  lemma AfterCompares(event: Event, start: string, log: Log, whole: Log, how: Reading)
    requires Compares(log, whole, how) && !Cut(start, how)
    ensures Compares(After(event, start, log), After(event, start, whole), how)
  {
    var w, l := After(event, start, whole), After(event, start, log);
    assert w.(events := w.events[1..], starts := w.starts[1..]) == whole;
    assert w.Agrees(l) <==> whole.Agrees(log) by {
      assert w.events[1..] == whole.events && l.events[1..] == log.events;
    }
    assert Uncut(w, how) <==> Uncut(whole, how) by {
      assert w.starts[0] == start && w.starts[1..] == whole.starts;
      forall k | 0 <= k < |whole.starts| ensures w.starts[k + 1] == whole.starts[k] {
      }
    }
  }

  /** A value that is cut sets them apart. */
  lemma CutCompares(event: Event, other: Event, start: string, log: Log, whole: Log, how: Reading)
    requires Cut(start, how) && event.value != other.value && |whole.starts| == |whole.events|
    ensures Compares(After(event, start, log), After(other, start, whole), how)
  {
    var w, l := After(other, start, whole), After(event, start, log);
    assert w.starts[0] == start && w.events[0] == other && l.events[0] == event;
  }

  /** So does one that is too long for the whole text to go on. */
  lemma EndCompares(log: Log, error: Error, start: string, how: Reading)
    requires Cut(start, how) && !(log.events == [] && log.end == Failed(error))
    ensures Compares(log, Stop(error, start), how)
  {
  }

  lemma StopCompares(error: Error, how: Reading)
    ensures Compares(Stop(error, ""), Stop(error, ""), how)
  {
  }

  /** A value at `s`, and what follows it. */
  lemma ValueCompares(s: string, how: Reading, whole: Log, log: Log, event: Value -> Event, after: string -> Log,
                      rest: string -> Log)
    requires forall v :: event(v).value == v
    requires whole == match WholeDecode(s) case Bad(e) => Stop(e, s) case Good(v, n) => After(event(v), s, rest(s[n..]))
    requires log == match Decode(s, how) case Bad(e) => Stop(e, s) case Good(v, n) => After(event(v), s, after(s[n..]))
    requires WholeDecode(s).Good? ==> Compares(after(s[WholeDecode(s).used..]), rest(s[WholeDecode(s).used..]), how)
    ensures Compares(log, whole, how)
  {
    hide Compares, Cut, WholeDecode, Decode;
    CutDecodes(s, how);
    if !Cut(s, how) {
      match WholeDecode(s)
      case Bad(e) => StopsCompare(e, s, how);
      case Good(v, n) => AfterCompares(event(v), s, after(s[n..]), rest(s[n..]), how);
    } else {
      var d := Decode(s, how);
      match WholeDecode(s)
      case Bad(e) => EndCompares(log, e, s, how);
      case Good(v, n) =>
        SameLength(after(s[n..]), rest(s[n..]), how);
        CutCompares(event(d.value), event(v), s, after(s[d.used..]), rest(s[n..]), how);
    }
  }

  lemma SameLength(log: Log, whole: Log, how: Reading)
    requires Compares(log, whole, how)
    ensures |whole.starts| == |whole.events|
  {
  }

  lemma StopsCompare(error: Error, s: string, how: Reading)
    requires !Cut(s, how)
    ensures Compares(Stop(error, s), Stop(error, s), how)
  {
  }

  lemma {:induction false} EntriesCompare(r: string, how: Reading)
    ensures Compares(Entries(r, how), Entries(r, Whole), how)
    decreases |r|
  {
    hide Compares, Cut, WholeDecode, EntryValue;
    var s := SkipSpace(r);
    CutDecodes(s, how);
    StopCompares(Malformed, how);
    if Cut(s, how) {
      if WholeDecode(s).Bad? {
        EndCompares(Stop(Malformed, ""), WholeDecode(s).error, s, how);
      }
    } else {
      match WholeDecode(s)
      case Bad(e) => StopsCompare(e, s, how);
      case Good(key, used) =>
        if key.Text? && Expect(s[used..], ':').Some? {
          EntryValueCompares(key.codes, Expect(s[used..], ':').value, how);
        }
    }
  }

  lemma {:induction false} EntryValueCompares(key: Str, r: string, how: Reading)
    ensures Compares(EntryValue(key, r, how), EntryValue(key, r, Whole), how)
    decreases |r|
  {
    hide Compares, Cut, WholeDecode, Messages, AfterEntry;
    StopCompares(Malformed, how);
    if key == MessagesKey() {
      if Expect(r, '[').Some? {
        var r1 := Expect(r, '[').value;
        if Peeks(r1, ']') {
          AfterEntryCompares(Expect(r1, ']').value, how);
        } else {
          MessagesCompare(r1, how);
        }
      }
    } else {
      var s := SkipSpace(r);
      if WholeDecode(s).Good? {
        AfterEntryCompares(s[WholeDecode(s).used..], how);
      }
      ValueCompares(s, how, EntryValue(key, r, Whole), EntryValue(key, r, how), v => Field(key, v),
                    t => AfterEntry(t, how), t => AfterEntry(t, Whole));
    }
  }

  lemma {:induction false} MessagesCompare(r: string, how: Reading)
    ensures Compares(Messages(r, how), Messages(r, Whole), how)
    decreases |r|
  {
    hide Compares, Cut, WholeDecode, MessageRest;
    var s := SkipSpace(r);
    if WholeDecode(s).Good? {
      MessageRestCompares(s[WholeDecode(s).used..], how);
    }
    ValueCompares(s, how, Messages(r, Whole), Messages(r, how), v => Posted(v),
                  t => MessageRest(t, how), t => MessageRest(t, Whole));
  }

  lemma {:induction false} MessageRestCompares(r: string, how: Reading)
    ensures Compares(MessageRest(r, how), MessageRest(r, Whole), how)
    decreases |r|
  {
    hide Compares, Cut, Messages, AfterEntry;
    StopCompares(Malformed, how);
    if Peeks(r, ']') {
      AfterEntryCompares(Expect(r, ']').value, how);
    } else if Expect(r, ',').Some? {
      MessagesCompare(Expect(r, ',').value, how);
    }
  }

  lemma {:induction false} AfterEntryCompares(r: string, how: Reading)
    ensures Compares(AfterEntry(r, how), AfterEntry(r, Whole), how)
    decreases |r|
  {
    hide Compares, Cut, Entries;
    StopCompares(Malformed, how);
    CompleteCompares(how);
    if !Peeks(r, '}') && Expect(r, ',').Some? {
      EntriesCompare(Expect(r, ',').value, how);
    }
  }

  lemma CompleteCompares(how: Reading)
    ensures Compares(Log([], [], Complete, ""), Log([], [], Complete, ""), how)
  {
  }

  /** Read in chunks of any size, an export gives the events of the whole text before the first number that is cut, and
      agrees with the whole text altogether if and only if none is. */
  lemma ChunksCompare(text: string, how: Reading)
    ensures Compares(Export(text, how), WholeExport(text), how)
  {
    hide Compares, Entries;
    StopCompares(Malformed, how);
    CompleteCompares(how);
    if Expect(text, '{').Some? {
      EntriesCompare(Expect(text, '{').value, how);
    }
  }

  // ----- numbers of one digit are never cut

  /** Every event's value is what stands where it starts, and reading ended where it says. */
  ghost predicate Placed(log: Log, most: nat) {
    && |log.starts| == |log.events|
    && (forall k :: 0 <= k < |log.starts| ==> |log.starts[k]| <= most && ValueAt(log.starts[k], log.events[k].value))
    && (log.end.Failed? && log.at != "" ==> WholeDecode(log.at) == Bad(log.end.error))
  }

  ghost predicate ValueAt(start: string, v: Value) {
    WholeDecode(start).Good? && WholeDecode(start).value == v
  }

  lemma AfterPlaced(event: Event, start: string, rest: Log, most: nat)
    requires Placed(rest, most) && ValueAt(start, event.value) && |start| <= most
    ensures Placed(After(event, start, rest), most)
  {
    hide ValueAt, WholeDecode;
    var log := After(event, start, rest);
    forall k | 0 <= k < |log.starts| ensures |log.starts[k]| <= most && ValueAt(log.starts[k], log.events[k].value) {
      assert k > 0 ==> log.starts[k] == rest.starts[k - 1] && log.events[k] == rest.events[k - 1];
    }
  }

  lemma StopPlaced(error: Error, at: string, most: nat)
    requires at == "" || WholeDecode(at) == Bad(error)
    ensures Placed(Stop(error, at), most) && Placed(Log([], [], Complete, ""), most)
  {
  }

  lemma {:induction false} EntriesPlaced(r: string, most: nat)
    requires |r| <= most
    ensures Placed(Entries(r, Whole), most)
    decreases |r|
  {
    hide Placed, WholeDecode, EntryValue;
    var s := SkipSpace(r);
    StopPlaced(Malformed, "", most);
    match WholeDecode(s)
    case Bad(e) => StopPlaced(e, s, most);
    case Good(key, used) =>
      if key.Text? && Expect(s[used..], ':').Some? {
        EntryValuePlaced(key.codes, Expect(s[used..], ':').value, most);
      }
  }

  lemma {:induction false} EntryValuePlaced(key: Str, r: string, most: nat)
    requires |r| <= most
    ensures Placed(EntryValue(key, r, Whole), most)
    decreases |r|
  {
    hide Placed, WholeDecode, Messages, AfterEntry;
    StopPlaced(Malformed, "", most);
    if key == MessagesKey() {
      if Expect(r, '[').Some? {
        var r1 := Expect(r, '[').value;
        if Peeks(r1, ']') {
          AfterEntryPlaced(Expect(r1, ']').value, most);
        } else {
          MessagesPlaced(r1, most);
        }
      }
    } else {
      var s := SkipSpace(r);
      match WholeDecode(s)
      case Bad(e) => StopPlaced(e, s, most);
      case Good(v, n) =>
        AfterEntryPlaced(s[n..], most);
        AfterPlaced(Field(key, v), s, AfterEntry(s[n..], Whole), most);
    }
  }

  lemma {:induction false} MessagesPlaced(r: string, most: nat)
    requires |r| <= most
    ensures Placed(Messages(r, Whole), most)
    decreases |r|
  {
    hide Placed, WholeDecode, MessageRest;
    var s := SkipSpace(r);
    match WholeDecode(s)
    case Bad(e) => StopPlaced(e, s, most);
    case Good(v, n) =>
      MessageRestPlaced(s[n..], most);
      AfterPlaced(Posted(v), s, MessageRest(s[n..], Whole), most);
  }

  lemma {:induction false} MessageRestPlaced(r: string, most: nat)
    requires |r| <= most
    ensures Placed(MessageRest(r, Whole), most)
    decreases |r|
  {
    hide Placed, Messages, AfterEntry;
    StopPlaced(Malformed, "", most);
    if Peeks(r, ']') {
      AfterEntryPlaced(Expect(r, ']').value, most);
    } else if Expect(r, ',').Some? {
      MessagesPlaced(Expect(r, ',').value, most);
    }
  }

  lemma {:induction false} AfterEntryPlaced(r: string, most: nat)
    requires |r| <= most
    ensures Placed(AfterEntry(r, Whole), most)
    decreases |r|
  {
    hide Placed, Entries;
    StopPlaced(Malformed, "", most);
    if !Peeks(r, '}') && Expect(r, ',').Some? {
      EntriesPlaced(Expect(r, ',').value, most);
    }
  }

  lemma ExportPlaced(text: string)
    ensures Placed(WholeExport(text), |text|)
  {
    hide Placed, Entries;
    var most := |text|;
    StopPlaced(Malformed, "", most);
    if Expect(text, '{').Some? {
      EntriesPlaced(Expect(text, '{').value, most);
    }
  }

  lemma LongIs(start: string, v: Value)
    requires ValueAt(start, v)
    ensures LongNumberAhead(start) <==> !SelfDelimiting(v)
  {
    assert start[..|start|] == start;
    if v.Number? {
      NumberStarts(start);
      assert v.raw[0] == start[0];
    }
  }

  /** An export that completes with no number of more than one digit is cut by no chunks, and, if any is, by chunks of
      one character. */
  lemma SelfDelimitingUncut(text: string, how: Reading)
    requires WholeExport(text).end == Complete
    ensures AllSelfDelimiting(WholeExport(text).events) ==> Uncut(WholeExport(text), how)
    ensures how == Chunks(|text|, 1) && Uncut(WholeExport(text), how) ==> AllSelfDelimiting(WholeExport(text).events)
  {
    hide WholeExport, SelfDelimiting, ValueAt, CutAt;
    ExportPlaced(text);
    var log := WholeExport(text);
    forall k | 0 <= k < |log.events|
      ensures SelfDelimiting(log.events[k].value) ==> !Cut(log.starts[k], how)
      ensures how == Chunks(|text|, 1) && !Cut(log.starts[k], how) ==> SelfDelimiting(log.events[k].value)
    {
      assert ValueAt(log.starts[k], log.events[k].value);
      LongIs(log.starts[k], log.events[k].value);
      CutIsLong(log.starts[k], how);
    }
  }

  lemma CutIsLong(r: string, how: Reading)
    ensures Cut(r, how) ==> LongNumberAhead(r)
    ensures how.Chunks? && how.chunk == 1 && |r| <= how.total && LongNumberAhead(r) ==> Cut(r, how)
  {
    if how.Chunks? && how.chunk == 1 && |r| <= how.total {
      OneIsCut(r, how.total);
    }
  }
}
