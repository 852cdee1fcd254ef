/** Which texts are exports, and of which fields and messages: the whole-text reader reads exactly those. */
module ExportGrammar {
  import opened Json
  import opened JsonGrammar
  import opened JsonNumber
  import opened JsonSpelling
  import opened Prelude
  import opened Refill
  import opened Seqs
  import opened ExportReader
  import opened ExportText

  /** A value, the text it is written as, and the white space around it. */
  datatype Written = Written(before: string, value: Value, text: string, after: string)

  /** A top-level field, or a messages array; of the array also the white space around its brackets and, if it is empty,
      between them. */
  datatype Entry =
    | One(key: Written, value: Written)
    | Batch(key: Written, before: string, messages: seq<Written>, hollow: string, after: string)

  /** An export: what comes before its brace, its entries or white space, and anything behind it. */
  datatype Layout = Layout(lead: string, doc: seq<Entry>, hollow: string, tail: string)

  predicate IsGap(gap: string) {
    forall k :: 0 <= k < |gap| ==> IsSpace(gap[k])
  }

  /** The text is a spelling of the value, with any escapes and white space, and not too long. */
  ghost predicate Fits(w: Written) {
    IsGap(w.before) && IsGap(w.after) && Spelled(w.text, w.value) && |w.text| <= MAX_RAW_JSON_VALUE_CHARS
  }

  ghost predicate AllFit(values: seq<Written>) {
    forall k :: 0 <= k < |values| ==> Fits(values[k])
  }

  ghost predicate ProperEntry(e: Entry) {
    && Fits(e.key) && e.key.value.Text?
    && match e
       case One(key, value) => key.value.codes != MessagesKey() && Fits(value)
       case Batch(key, before, messages, hollow, after) =>
         && key.value.codes == MessagesKey() && AllFit(messages)
         && IsGap(before) && IsGap(hollow) && IsGap(after)
  }

  ghost predicate ProperLayout(l: Layout) {
    IsGap(l.lead) && IsGap(l.hollow) && forall k :: 0 <= k < |l.doc| ==> ProperEntry(l.doc[k])
  }

  // ----- the text: every function writes its part and then what follows it

  function Write(w: Written, rest: string): string {
    w.before + (w.text + (w.after + rest))
  }

  function WriteMessages(messages: seq<Written>, rest: string): string
    requires messages != []
    decreases |messages|
  {
    Write(messages[0], if |messages| == 1 then [']'] + rest else [','] + WriteMessages(messages[1..], rest))
  }

  function WriteEntry(e: Entry, rest: string): string {
    match e
    case One(key, value) => Write(key, [':'] + Write(value, rest))
    case Batch(key, before, messages, hollow, after) =>
      Write(key, [':'] + (before + (['['] + (
        if messages == [] then hollow + ([']'] + (after + rest)) else WriteMessages(messages, after + rest)))))
  }

  function WriteEntries(doc: seq<Entry>, tail: string): string
    requires doc != []
    decreases |doc|
  {
    WriteEntry(doc[0], if |doc| == 1 then ['}'] + tail else [','] + WriteEntries(doc[1..], tail))
  }

  function WriteExport(l: Layout): string {
    l.lead + (['{'] + (if l.doc == [] then l.hollow + (['}'] + l.tail) else WriteEntries(l.doc, l.tail)))
  }

  // ----- what an export says

  function MessageEvents(messages: seq<Written>): (r: seq<Event>)
    ensures |r| == |messages| && forall k :: 0 <= k < |messages| ==> r[k] == Posted(messages[k].value)
  {
    seq(|messages|, k requires 0 <= k < |messages| => Posted(messages[k].value))
  }

  ghost function EntryEvents(e: Entry): seq<Event>
    requires ProperEntry(e)
  {
    match e
    case One(key, value) => [Field(key.value.codes, value.value)]
    case Batch(_, _, messages, _, _) => MessageEvents(messages)
  }

  ghost function DocEvents(doc: seq<Entry>): seq<Event>
    requires forall k :: 0 <= k < |doc| ==> ProperEntry(doc[k])
  {
    if doc == [] then [] else EntryEvents(doc[0]) + DocEvents(doc[1..])
  }

  /** The text is an export of these fields and messages, in this order; what follows it does not matter. */
  ghost predicate Exports(text: string, events: seq<Event>) {
    exists l :: ProperLayout(l) && text == WriteExport(l) && events == DocEvents(l.doc)
  }

  // ----- what is written is read

  lemma {:induction false} SkipGap(gap: string, r: string)
    requires IsGap(gap) && r != "" && !IsSpace(r[0])
    ensures SkipSpace(gap + r) == r && gap + r != ""
    decreases |gap|
  {
    if gap == "" {
      assert gap + r == r;
    } else {
      assert (gap + r)[1..] == gap[1..] + r;
      SkipGap(gap[1..], r);
    }
  }

  lemma GapChar(gap: string, c: char, r: string)
    requires IsGap(gap) && !IsSpace(c)
    ensures Expect(gap + ([c] + r), c) == Some(r)
    ensures forall x :: Peeks(gap + ([c] + r), x) <==> x == c
  {
    SkipGap(gap, [c] + r);
    assert ([c] + r)[1..] == r;
  }

  /** A written value is read back, whatever separator follows it. */
  lemma ValueRead(w: Written, c: char, r: string)
    requires Fits(w) && c in ['}', ']', ',', ':']
    ensures var s := SkipSpace(Write(w, [c] + r));
            WholeDecode(s) == Good(w.value, |w.text|) && Expect(s[|w.text|..], c) == Some(r)
            && forall x :: Peeks(s[|w.text|..], x) <==> x == c
    ensures forall x :: x in ['}', ']'] ==> !Peeks(Write(w, [c] + r), x)
  {
    var n, rest := |w.text|, w.after + ([c] + r);
    var s := w.text + rest;
    hide Spelled, NumberEnd;
    SpelledStart(w.text, w.value);
    assert s[0] == w.text[0];
    SkipGap(w.before, s);
    GapChar(w.after, c, r);
    assert s[0..n] == w.text && s[n..] == rest;
    assert s[n] == rest[0] == if w.after == "" then c else w.after[0];
    if w.value.Number? {
      NumberStops(s, w);
    }
    SpelledDecodes(s, 0, n, w.value);
    assert s[..|s|] == s;
  }

  lemma NumberStops(s: string, w: Written)
    requires |w.text| < |s| && s[..|w.text|] == w.text && w.value.Number? && Spelled(w.text, w.value)
    requires IsSpace(s[|w.text|]) || s[|w.text|] in ['}', ']', ',', ':']
    ensures NumberEnd(s, 0) == Done((), |w.text|)
  {
    hide IsNumber, NumberEnd;
    assert s[0..|w.text|] == w.text;
    StoppedIsLongest(s, 0, |w.text|);
    LongestIs(s, 0, |w.text|);
  }

  /** The events, and then what follows them. */
  ghost predicate Reads(log: Log, events: seq<Event>, rest: Log) {
    log.events == events + rest.events && log.end == rest.end
  }

  lemma {:induction false} MessagesRead(messages: seq<Written>, rest: string)
    requires messages != [] && AllFit(messages)
    ensures Reads(Messages(WriteMessages(messages, rest), Whole), MessageEvents(messages), AfterEntry(rest, Whole))
    ensures !Peeks(WriteMessages(messages, rest), ']')
    decreases |messages|
  {
    hide WholeDecode, SkipSpace, AfterEntry, Fits, Expect, Peeks, Write;
    var v := messages[0];
    var after := AfterEntry(rest, Whole).events;
    if |messages| == 1 {
      ValueRead(v, ']', rest);
      assert MessageEvents(messages) == [Posted(v.value)];
    } else {
      ValueRead(v, ',', WriteMessages(messages[1..], rest));
      MessagesRead(messages[1..], rest);
      assert MessageEvents(messages) + after == [Posted(v.value)] + (MessageEvents(messages[1..]) + after);
    }
  }

  lemma EntryRead(e: Entry, c: char, r: string)
    requires ProperEntry(e) && c in ['}', ',']
    ensures Reads(Entries(WriteEntry(e, [c] + r), Whole), EntryEvents(e),
                  if c == '}' then Log([], [], Complete, "") else Entries(r, Whole))
    ensures !Peeks(WriteEntry(e, [c] + r), '}')
  {
    hide WholeDecode, SkipSpace, Fits, Messages, WriteMessages, Expect, Peeks, Write, Entries;
    EntriesStep(WriteEntry(e, [c] + r));
    match e
    case One(key, value) =>
      ValueRead(key, ':', Write(value, [c] + r));
      ValueRead(value, c, r);
    case Batch(key, before, messages, hollow, after) =>
      var rest := after + ([c] + r);
      var list := if messages == [] then hollow + ([']'] + rest) else WriteMessages(messages, rest);
      ValueRead(key, ':', before + (['['] + list));
      GapChar(before, '[', list);
      GapChar(after, c, r);
      if messages == [] {
        GapChar(hollow, ']', rest);
        assert [] + AfterEntry(rest, Whole).events == AfterEntry(rest, Whole).events;
      } else {
        MessagesRead(messages, rest);
      }
  }

  /** How a top-level entry is read. */
  lemma EntriesStep(r: string)
    ensures var s := SkipSpace(r); var d := WholeDecode(s);
            d.Good? && d.value.Text? && Expect(s[d.used..], ':').Some? ==>
              Entries(r, Whole) == EntryValue(d.value.codes, Expect(s[d.used..], ':').value, Whole)
    ensures var s := SkipSpace(r); var d := WholeDecode(s);
            Entries(r, Whole).end == Complete ==> d.Good? && d.value.Text? && Expect(s[d.used..], ':').Some?
  {
    hide WholeDecode, SkipSpace, Expect;
  }

  lemma {:induction false} EntriesRead(doc: seq<Entry>, tail: string)
    requires doc != [] && forall k :: 0 <= k < |doc| ==> ProperEntry(doc[k])
    ensures Entries(WriteEntries(doc, tail), Whole).Agrees(Log(DocEvents(doc), [], Complete, ""))
    ensures !Peeks(WriteEntries(doc, tail), '}')
    decreases |doc|
  {
    hide Entries, WriteEntry, EntryEvents, SkipSpace, Peeks, Expect, ProperEntry;
    if |doc| == 1 {
      EntryRead(doc[0], '}', tail);
      assert DocEvents(doc) == EntryEvents(doc[0]) + [];
    } else {
      EntryRead(doc[0], ',', WriteEntries(doc[1..], tail));
      EntriesRead(doc[1..], tail);
    }
  }

  lemma WrittenReads(l: Layout)
    requires ProperLayout(l)
    ensures WholeExport(WriteExport(l)).Agrees(Log(DocEvents(l.doc), [], Complete, ""))
  {
    hide Entries, WriteEntries, SkipSpace, Peeks, Expect, ProperEntry;
    if l.doc == [] {
      GapChar(l.lead, '{', l.hollow + (['}'] + l.tail));
      GapChar(l.hollow, '}', l.tail);
    } else {
      GapChar(l.lead, '{', WriteEntries(l.doc, l.tail));
      EntriesRead(l.doc, l.tail);
    }
  }

  // ----- what is read is written

  lemma {:induction false} SpaceSplit(r: string) returns (gap: string)
    ensures IsGap(gap) && r == gap + SkipSpace(r)
    decreases |r|
  {
    if r != "" && IsSpace(r[0]) {
      var more := SpaceSplit(r[1..]);
      gap := [r[0]] + more;
    } else {
      gap := "";
    }
  }

  lemma ExpectSplit(r: string, c: char) returns (gap: string)
    requires Expect(r, c).Some?
    ensures IsGap(gap) && r == gap + ([c] + Expect(r, c).value)
  {
    gap := SpaceSplit(r);
    var t := SkipSpace(r);
    assert t == [c] + t[1..];
  }

  lemma DecodedSpelling(s: string)
    requires WholeDecode(s).Good?
    ensures var d := WholeDecode(s); Spelled(s[..d.used], d.value) && d.used <= MAX_RAW_JSON_VALUE_CHARS
  {
    hide Spelled, DecodeValue;
    assert s[..|s|] == s;
    DecodedSpelled(s, 0);
    var n := WholeDecode(s).used;
    assert s[0..n] == s[..n];
  }

  lemma ValueWritten(r: string, c: char) returns (w: Written)
    requires var s := SkipSpace(r); WholeDecode(s).Good? && Expect(s[WholeDecode(s).used..], c).Some?
    ensures var s := SkipSpace(r); var d := WholeDecode(s);
            Fits(w) && w.value == d.value && r == Write(w, [c] + Expect(s[d.used..], c).value)
  {
    var s := SkipSpace(r);
    hide Spelled, WholeDecode, Expect, SkipSpace;
    var d := WholeDecode(s);
    var before := SpaceSplit(r);
    var after := ExpectSplit(s[d.used..], c);
    DecodedSpelling(s);
    assert s == s[..d.used] + s[d.used..];
    w := Written(before, d.value, s[..d.used], after);
  }

  lemma PeekedExpect(r: string, c: char)
    ensures Peeks(r, c) <==> Expect(r, c).Some?
  {
  }

  lemma {:induction false} MessagesWritten(r: string) returns (messages: seq<Written>, rest: string)
    requires Messages(r, Whole).end == Complete
    ensures messages != [] && AllFit(messages) && r == WriteMessages(messages, rest) && |rest| < |r|
    ensures Reads(Messages(r, Whole), MessageEvents(messages), AfterEntry(rest, Whole))
    decreases |r|
  {
    hide WholeDecode, SkipSpace, AfterEntry, Fits, Expect, Peeks, Write;
    var s := SkipSpace(r);
    var d := WholeDecode(s);
    SkipShrinks(r);
    PeekedExpect(s[d.used..], ']');
    if Peeks(s[d.used..], ']') {
      var w := ValueWritten(r, ']');
      messages, rest := [w], Expect(s[d.used..], ']').value;
      ExpectShrinks(s[d.used..], ']');
      assert MessageEvents([w]) == [Posted(w.value)];
    } else {
      var w := ValueWritten(r, ',');
      ExpectShrinks(s[d.used..], ',');
      var more, rest' := MessagesWritten(Expect(s[d.used..], ',').value);
      messages, rest := [w] + more, rest';
      assert messages[1..] == more;
      assert MessageEvents(messages) + AfterEntry(rest, Whole).events
          == [Posted(w.value)] + (MessageEvents(more) + AfterEntry(rest, Whole).events);
    }
  }

  lemma SkipShrinks(r: string)
    ensures |SkipSpace(r)| <= |r|
    ensures var d := WholeDecode(SkipSpace(r)); d.Good? ==> 0 < d.used <= |SkipSpace(r)|
  {
  }

  lemma ExpectShrinks(r: string, c: char)
    ensures Expect(r, c).Some? ==> |Expect(r, c).value| < |r|
  {
  }

  /** What follows an entry of an export that completes. */
  lemma AfterSplits(r: string) returns (gap: string, c: char, more: string)
    requires AfterEntry(r, Whole).end == Complete
    ensures IsGap(gap) && c in ['}', ','] && r == gap + ([c] + more)
    ensures c == '}' ==> AfterEntry(r, Whole) == Log([], [], Complete, "")
    ensures c == ',' ==> AfterEntry(r, Whole) == Entries(more, Whole)
  {
    hide Entries, Expect, Peeks;
    PeekedExpect(r, '}');
    c := if Peeks(r, '}') then '}' else ',';
    gap := ExpectSplit(r, c);
    more := Expect(r, c).value;
  }

  /** The first entry of an export that completes, and what follows it. */
  lemma EntryWritten(r: string) returns (e: Entry, c: char, more: string)
    requires Entries(r, Whole).end == Complete
    ensures ProperEntry(e) && c in ['}', ','] && r == WriteEntry(e, [c] + more)
    ensures Reads(Entries(r, Whole), EntryEvents(e),
                  if c == '}' then Log([], [], Complete, "") else Entries(more, Whole))
  {
    hide WholeDecode, SkipSpace, Expect, Peeks, Write, Entries, AfterEntry, Messages, Fits;
    EntriesStep(r);
    var s := SkipSpace(r);
    var d := WholeDecode(s);
    var key := ValueWritten(r, ':');
    var r1 := Expect(s[d.used..], ':').value;
    if key.value.codes == MessagesKey() {
      var before := ExpectSplit(r1, '[');
      var r2 := Expect(r1, '[').value;
      PeekedExpect(r2, ']');
      var messages, hollow, rest := [], "", "";
      if Peeks(r2, ']') {
        hollow := ExpectSplit(r2, ']');
        rest := Expect(r2, ']').value;
      } else {
        messages, rest := MessagesWritten(r2);
      }
      var after;
      after, c, more := AfterSplits(rest);
      e := Batch(key, before, messages, hollow, after);
    } else {
      var s1 := SkipSpace(r1);
      var d1 := WholeDecode(s1);
      var after;
      after, c, more := AfterSplits(s1[d1.used..]);
      GapChar(after, c, more);
      var value := ValueWritten(r1, c);
      e := One(key, value);
    }
  }

  lemma {:induction false} EntriesWritten(r: string) returns (doc: seq<Entry>, tail: string)
    requires Entries(r, Whole).end == Complete
    ensures doc != [] && (forall k :: 0 <= k < |doc| ==> ProperEntry(doc[k])) && r == WriteEntries(doc, tail)
    decreases |r|
  {
    hide Entries, WriteEntry, EntryEvents, ProperEntry;
    var e, c, more := EntryWritten(r);
    if c == '}' {
      doc, tail := [e], more;
    } else {
      WriteGrows(e, [c] + more);
      var rest;
      rest, tail := EntriesWritten(more);
      doc := [e] + rest;
      assert doc[1..] == rest;
    }
  }

  lemma WriteGrows(e: Entry, rest: string)
    ensures |WriteEntry(e, rest)| >= |rest|
  {
    if e.Batch? && e.messages != [] {
      MessagesGrow(e.messages, e.after + rest);
    }
  }

  lemma {:induction false} MessagesGrow(messages: seq<Written>, rest: string)
    requires messages != []
    ensures |WriteMessages(messages, rest)| >= |rest|
    decreases |messages|
  {
    if |messages| > 1 {
      MessagesGrow(messages[1..], rest);
    }
  }

  lemma ReadWritten(text: string) returns (l: Layout)
    requires WholeExport(text).end == Complete
    ensures ProperLayout(l) && text == WriteExport(l)
  {
    hide Entries, WriteEntries, ProperEntry, Expect, Peeks;
    var lead := ExpectSplit(text, '{');
    var r := Expect(text, '{').value;
    PeekedExpect(r, '}');
    if Peeks(r, '}') {
      var hollow := ExpectSplit(r, '}');
      l := Layout(lead, [], hollow, Expect(r, '}').value);
    } else {
      var doc, tail := EntriesWritten(r);
      l := Layout(lead, doc, "", tail);
    }
  }

  /** Reading the whole text completes with these events if and only if it is an export of them. */
  lemma ExportsIs(text: string, events: seq<Event>)
    ensures WholeExport(text).end == Complete && WholeExport(text).events == events <==> Exports(text, events)
  {
    hide WriteExport, DocEvents, ProperEntry, WholeExport;
    if WholeExport(text).end == Complete && WholeExport(text).events == events {
      var l := ReadWritten(text);
      WrittenReads(l);
      AgreesIs(WholeExport(text), DocEvents(l.doc), Complete);
    }
    if Exports(text, events) {
      var l :| ProperLayout(l) && text == WriteExport(l) && events == DocEvents(l.doc);
      WrittenReads(l);
      AgreesIs(WholeExport(text), DocEvents(l.doc), Complete);
    }
  }

  lemma AgreesIs(log: Log, events: seq<Event>, end: End)
    requires log.Agrees(Log(events, [], end, ""))
    ensures log.events == events && log.end == end
  {
  }

  /** An export read in chunks of any size: its fields and messages come out in order and reading completes, if and only
      if no chunk cuts a number; when no value is a number of more than one digit, none can. */
  method ReadExport(text: string, ghost said: seq<Event>, readChunkChars: nat) returns (events: seq<Event>, end: End)
    requires Exports(text, said) && readChunkChars >= 1
    ensures events == said && end == Complete <==> Uncut(WholeExport(text), Chunks(|text|, readChunkChars))
    ensures AllSelfDelimiting(said) ==> events == said && end == Complete
    ensures readChunkChars == 1 && events == said && end == Complete ==> AllSelfDelimiting(said)
  {
    hide *;
    ExportsIs(text, said);
    SelfDelimitingUncut(text, Chunks(|text|, readChunkChars));
    var r := IterExportEvents(text, readChunkChars);
    events, end := r.value.0, r.value.1;
  }

  // ----- a number that is cut

  const TWELVE := One(Written("", Text(Codes("n")), "\"n\"", ""), Written("", Number("12"), "12", ""))

  lemma TwelveFits()
    ensures ProperEntry(TWELVE)
  {
    TwelveIsLong();
    NumberIs("12");
    assert PieceIs("n", 'n' as int) && Codes("n") == ['n' as int];
    assert Spells(["n"], Codes("n"));
    assert Flatten(["n"]) == Flatten<char>([]) + "n";
    assert "\"n\"" == "\"" + (Flatten(["n"]) + "\"");
    hide IsNumber, Spells, NumberEnd, PieceIs;
    assert |Codes("n")| == 1 && |MessagesKey()| == 8;
  }

  lemma TwelveText()
    ensures WriteExport(Layout("", [TWELVE], "", "")) == "{\"n\":12}"
  {
    assert WriteEntry(TWELVE, "}") == "\"n\":12}";
    assert ['}'] + "" == "}";
    assert "" + (['{'] + "\"n\":12}") == "{\"n\":12}";
  }

  lemma TwelveExports()
    ensures Exports("{\"n\":12}", [Field(Codes("n"), Number("12"))])
  {
    TwelveFits();
    TwelveText();
    hide WriteExport;
    var l := Layout("", [TWELVE], "", "");
    assert DocEvents([TWELVE][1..]) == [] && DocEvents([TWELVE]) == EntryEvents(TWELVE) + [];
    assert ProperLayout(l);
  }

  /** An export on which the chunk size matters: read one character at a time, the field of {"n":12} is not 12. */
  lemma TwelveIsCut()
    ensures WholeExport("{\"n\":12}").events == [Field(Codes("n"), Number("12"))]
    ensures !Uncut(WholeExport("{\"n\":12}"), Chunks(8, 1))
  {
    hide WholeExport, Uncut, AllSelfDelimiting, Exports;
    TwelveExports();
    ExportsIs("{\"n\":12}", [Field(Codes("n"), Number("12"))]);
    SelfDelimitingUncut("{\"n\":12}", Chunks(8, 1));
    NotSelfDelimiting();
  }

  lemma NotSelfDelimiting()
    ensures !AllSelfDelimiting([Field(Codes("n"), Number("12"))])
  {
    assert !SelfDelimiting([Field(Codes("n"), Number("12"))][0].value);
  }
}
