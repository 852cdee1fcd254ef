/** Writing prompt files, and reading back what was written. */
module PromptPrint {
  import opened Prelude
  import opened PromptDocument
  import opened PromptMetadata
  import opened PromptRegistry
  import opened PromptSections
  import opened PromptText
  import opened Seqs

  function Field(key: string, value: string): string {
    key + ": " + value
  }

  /** The keys and values of metadata, in the order they are written. */
  function Pairs(m: Metadata): seq<(string, string)> {
    [("id", m.promptId), ("kind", m.kind), ("stage", m.stage), ("status", m.status), ("summary", m.summary),
     ("output", m.output)]
    + (if m.variants == [] then [] else [("variants", Join(m.variants, ','))])
  }

  function Fields(pairs: seq<(string, string)>): (r: seq<string>)
    ensures |r| == |pairs| && forall k :: 0 <= k < |r| ==> r[k] == Field(pairs[k].0, pairs[k].1)
  {
    seq(|pairs|, k requires 0 <= k < |pairs| => Field(pairs[k].0, pairs[k].1))
  }

  function MetaBlock(m: Metadata): seq<string> {
    [META_START] + Fields(Pairs(m)) + [META_END]
  }

  function SectionBlock(name: string, body: string): seq<string> {
    [SECTION_START + " " + name] + Split(body, '\n') + [SECTION_END]
  }

  function SectionLines(sections: seq<(string, string)>): seq<string> {
    if sections == [] then []
    else
      var (name, body) := sections[|sections| - 1];
      SectionLines(sections[..|sections| - 1]) + SectionBlock(name, body)
  }

  function BodyLines(d: Document): seq<string> {
    if d.sections != [] then SectionLines(d.sections) else Split(d.template, '\n')
  }

  function Print(d: Document): string {
    Join((if d.metadata == None then [] else MetaBlock(d.metadata.value)) + BodyLines(d), '\n')
  }

  /** Taken for a marker of some kind, well-formed or not. */
  predicate Marked(line: string) {
    MetaMarked(line) || SectionMarked(line)
  }

  ghost predicate Unmarked(lines: seq<string>) {
    forall k :: 0 <= k < |lines| ==> !Marked(lines[k])
  }

  /** Trimmed, not empty, and free of markers. */
  ghost predicate GoodBody(body: string) {
    body != "" && Strip(body) == body && Unmarked(Split(body, '\n'))
  }

  ghost predicate GoodSections(sections: seq<(string, string)>) {
    && NoRepeats(Names(sections))
    && forall k :: 0 <= k < |sections| ==> Safe(sections[k].0) && GoodBody(sections[k].1)
  }

  ghost predicate GoodMetadata(m: Metadata) {
    && Normalized(m.promptId) == Some(m.promptId) && m.kind in KINDS && m.status in STATUSES
    && Safe(m.stage) && Safe(m.output)
    && m.summary != "" && Strip(m.summary) == m.summary && '\n' !in m.summary
  }

  ghost predicate WellFormed(d: Document) {
    && GoodSections(d.sections)
    && (if d.sections != [] then d.template == Join(SectionLines(d.sections), '\n')
        else Strip(d.template) != "" && Unmarked(Split(d.template, '\n')))
    && (d.metadata.Some? ==> GoodMetadata(d.metadata.value) && d.metadata.value.variants == Names(d.sections))
  }

  // ----- trimmed names

  lemma SafeStripped(s: string)
    requires Safe(s)
    ensures Strip(s) == s && TrimLeft(s) == s && '\n' !in s && ',' !in s && ':' !in s
  {
  }

  lemma IdStripped(id: string)
    requires Normalized(id) == Some(id)
    ensures id != "" && Strip(id) == id && '\n' !in id
  {
    assert forall part :: part in Split(id, '.') ==> Safe(part);
    assert "" in Split("", '.') && !Safe("");
    assert id != "";
    forall k | 0 <= k < |id| ensures id[k] == '.' || SafeChar(id[k]) {
      if id[k] != '.' {
        SplitChars(id, '.', k);
        var part :| part in Split(id, '.') && id[k] in part;
        assert Safe(part);
      }
    }
    assert id[0] == '.' || SafeChar(id[0]);
    assert id[|id| - 1] == '.' || SafeChar(id[|id| - 1]);
    StripEnds(id);
    forall k | 0 <= k < |id| ensures id[k] != '\n' {
      assert id[k] == '.' || SafeChar(id[k]);
    }
  }

  // ----- metadata

  lemma {:induction false} ColonAt(s: string, n: nat)
    requires n < |s| && s[n] == ':' && ':' !in s[..n]
    ensures Colon(s) == n
  {
    if n > 0 {
      assert s[0] == s[..n][0];
      assert s[1..][..n - 1] == s[..n][1..];
      ColonAt(s[1..], n - 1);
    }
  }

  /** A line of metadata splits at its first colon. */
  lemma FieldParts(key: string, value: string)
    requires key in ALLOWED_KEYS && value != "" && Strip(value) == value
    ensures var line := Field(key, value);
            && Strip(line) == line && line[0] == key[0] && line[0] != '#'
            && Colon(line) == |key| && Strip(line[..|key|]) == key && Strip(line[|key| + 1..]) == value
  {
    var line := Field(key, value);
    assert Safe(key);
    SafeStripped(key);
    StrippedEnds(value);
    StripEnds(line);
    assert line[..|key|] == key;
    hide Strip, TrimRight;
    ColonAt(line, |key|);
    assert line[|key| + 1..] == " " + value && (" " + value)[1..] == value;
    StripSpace(value);
  }

  lemma StripSpace(value: string)
    ensures Strip(" " + value) == Strip(value)
  {
    assert (" " + value)[1..] == value;
  }

  lemma FieldUnmarked(key: string, value: string)
    requires key in ALLOWED_KEYS && value != "" && Strip(value) == value
    ensures !Marked(Field(key, value)) && Strip(Field(key, value)) != META_END
  {
    FieldParts(key, value);
    hide Strip, Field;
  }

  lemma FieldReads(values: map<string, string>, key: string, value: string)
    requires key in ALLOWED_KEYS && key !in values && value != "" && Strip(value) == value
    ensures MetaLine(values, Field(key, value)) == Some(values[key := value])
  {
    FieldParts(key, value);
    hide Strip, Colon, Field;
  }

  ghost predicate GoodPairs(pairs: seq<(string, string)>) {
    && NoRepeats(Names(pairs))
    && forall k :: 0 <= k < |pairs| ==>
       pairs[k].0 in ALLOWED_KEYS && pairs[k].1 != "" && Strip(pairs[k].1) == pairs[k].1
  }

  function ValuesOf(pairs: seq<(string, string)>): map<string, string> {
    if pairs == [] then map[]
    else ValuesOf(pairs[..|pairs| - 1])[pairs[|pairs| - 1].0 := pairs[|pairs| - 1].1]
  }

  lemma {:induction false} ValuesAre(pairs: seq<(string, string)>)
    requires NoRepeats(Names(pairs))
    ensures forall key :: key in ValuesOf(pairs) <==> key in Names(pairs)
    ensures forall k :: 0 <= k < |pairs| ==> pairs[k].0 in ValuesOf(pairs) && ValuesOf(pairs)[pairs[k].0] == pairs[k].1
  {
    if pairs != [] {
      var init, last := pairs[..|pairs| - 1], pairs[|pairs| - 1];
      assert Names(pairs) == Names(init) + [last.0];
      ValuesAre(init);
      forall k | 0 <= k < |init| ensures pairs[k].0 != last.0 {
        assert Names(pairs)[k] != Names(pairs)[|init|];
      }
    }
  }

  lemma {:induction false} FieldsRead(pairs: seq<(string, string)>)
    requires GoodPairs(pairs)
    ensures MetaValues(Fields(pairs)) == Some(ValuesOf(pairs))
  {
    hide Strip, MetaLine, Field;
    if pairs != [] {
      var init, last := pairs[..|pairs| - 1], pairs[|pairs| - 1];
      assert Names(pairs) == Names(init) + [last.0] && Fields(pairs) == Fields(init) + [Field(last.0, last.1)];
      FieldsRead(init);
      ValuesAre(init);
      assert last.0 !in Names(init) by {
        forall k | 0 <= k < |init| ensures Names(init)[k] != last.0 {
          assert Names(pairs)[k] != Names(pairs)[|init|];
        }
      }
      FieldReads(ValuesOf(init), last.0, last.1);
      assert Fields(pairs)[..|init|] == Fields(init);
    }
  }

  ghost predicate GoodNames(names: seq<string>) {
    NoRepeats(names) && forall k :: 0 <= k < |names| ==> Safe(names[k])
  }

  lemma {:induction false} VariantsStripped(names: seq<string>)
    requires names != [] && forall k :: 0 <= k < |names| ==> Safe(names[k])
    ensures var s := Join(names, ','); s != "" && !IsSpace(s[0]) && !IsSpace(s[|s| - 1]) && '\n' !in s && Strip(s) == s
  {
    if |names| > 1 {
      VariantsStripped(names[..|names| - 1]);
    }
    SafeStripped(names[|names| - 1]);
    StripEnds(Join(names, ','));
  }

  lemma VariantsRead(names: seq<string>)
    requires names != [] && forall k :: 0 <= k < |names| ==> Safe(names[k])
    ensures StripAll(Split(Join(names, ','), ',')) == names
  {
    forall k | 0 <= k < |names| ensures ',' !in names[k] && Strip(names[k]) == names[k] {
      SafeStripped(names[k]);
    }
    SplitJoin(names, ',');
  }

  lemma WordStripped(s: string)
    requires s in KINDS || s in STATUSES
    ensures s != "" && Strip(s) == s && '\n' !in s
  {
    assert Safe(s);
    SafeStripped(s);
  }

  lemma PairsGood(m: Metadata)
    requires GoodMetadata(m) && GoodNames(m.variants)
    ensures GoodPairs(Pairs(m))
    ensures forall k :: 0 <= k < |Pairs(m)| ==> '\n' !in Pairs(m)[k].1
  {
    hide Strip, Normalized, Safe, Join;
    IdStripped(m.promptId);
    SafeNotEmpty(m.stage);
    SafeNotEmpty(m.output);
    WordStripped(m.kind);
    WordStripped(m.status);
    if m.variants != [] {
      VariantsStripped(m.variants);
    }
  }

  lemma SafeNotEmpty(s: string)
    requires Safe(s)
    ensures s != "" && Strip(s) == s && '\n' !in s
  {
    SafeStripped(s);
  }

  lemma RecordReads(m: Metadata, expected: Option<string>)
    requires GoodMetadata(m) && GoodNames(m.variants)
    requires expected.Some? ==> Normalized(expected.value) == Some(m.promptId)
    ensures Record(ValuesOf(Pairs(m)), expected) == Some(m)
  {
    hide Strip, Split, Join, Normalized, Safe, ValuesOf;
    PairsGood(m);
    var pairs := Pairs(m);
    ValuesAre(pairs);
    assert pairs[0].0 == "id" && pairs[1].0 == "kind" && pairs[2].0 == "stage" && pairs[3].0 == "status";
    assert pairs[4].0 == "summary" && pairs[5].0 == "output";
    if m.variants != [] {
      assert pairs[6].0 == "variants";
      VariantsRead(m.variants);
    } else {
      assert "variants" !in Names(pairs);
    }
  }

  // ----- sections

  lemma OpensSection(name: string)
    requires Safe(name)
    ensures var line := SECTION_START + " " + name;
            Strip(line) == line && SectionName(line) == Some(name) && '\n' !in line
  {
    var line := SECTION_START + " " + name;
    SafeStripped(name);
    assert line[0] == '#' && line[|line| - 1] == name[|name| - 1];
    StripEnds(line);
    assert line[|SECTION_START|..] == " " + name && (" " + name)[1..] == name;
  }

  lemma EndsSection()
    ensures Strip(SECTION_END) == SECTION_END && SectionName(SECTION_END) == None && !(SECTION_PREFIX <= SECTION_END)
  {
    assert SECTION_END[3] == 'E' && SECTION_PREFIX[3] == 'S' && SECTION_START[3] == 'S';
    StripEnds(SECTION_END);
  }

  /** A printed section is read as it was. */
  lemma ScanBlock(s: Scan, name: string, body: string)
    requires s.current == None && name !in Names(s.sections) && Safe(name) && GoodBody(body)
    ensures ScanLines(s, SectionBlock(name, body)) == Some(Scan(s.sections + [(name, body)], None, [], s.outside))
  {
    hide Strip, SectionName, Split, Join;
    var head, lines := [SECTION_START + " " + name], Split(body, '\n');
    var opened' := s.(current := Some(name), body := []);
    OpensSection(name);
    assert head[..0] == [];
    assert ScanLines(s, head) == Some(opened');
    ScanBody(opened', lines);
    assert [] + lines == lines;
    var full := opened'.(body := lines);
    ScanConcat(s, head, lines);
    JoinSplit(body, '\n');
    EndsSection();
    assert [SECTION_END][..0] == [];
    assert ScanLines(full, [SECTION_END]) == Some(Scan(s.sections + [(name, body)], None, [], s.outside));
    ScanConcat(s, head + lines, [SECTION_END]);
  }

  lemma {:induction false} ScanSections(sections: seq<(string, string)>)
    requires GoodSections(sections)
    ensures ScanLines(NOTHING_READ, SectionLines(sections)) == Some(Scan(sections, None, [], false))
  {
    hide ScanLines, SectionBlock, GoodBody, Safe;
    if sections == [] {
      assert ScanLines(NOTHING_READ, []) == Some(NOTHING_READ) by {
        NothingScanned();
      }
    } else {
      var init, last := sections[..|sections| - 1], sections[|sections| - 1];
      forall i, j | 0 <= i < j < |init| ensures Names(init)[i] != Names(init)[j] {
        assert Names(sections)[i] != Names(sections)[j];
      }
      ScanSections(init);
      forall k | 0 <= k < |init| ensures Names(init)[k] != last.0 {
        assert Names(sections)[k] != Names(sections)[|init|];
      }
      ScanConcat(NOTHING_READ, SectionLines(init), SectionBlock(last.0, last.1));
      ScanBlock(Scan(init, None, [], false), last.0, last.1);
      assert init + [(last.0, last.1)] == sections;
    }
  }

  lemma NothingScanned()
    ensures ScanLines(NOTHING_READ, []) == Some(NOTHING_READ)
  {
  }

  // ----- the lines of a file

  ghost predicate OneLiners(lines: seq<string>) {
    forall k :: 0 <= k < |lines| ==> '\n' !in lines[k]
  }

  ghost predicate NoMeta(lines: seq<string>) {
    forall k :: 0 <= k < |lines| ==> !MetaMarked(lines[k])
  }

  lemma BlockLines(name: string, body: string)
    requires Safe(name) && GoodBody(body)
    ensures OneLiners(SectionBlock(name, body)) && NoMeta(SectionBlock(name, body))
  {
    hide Strip, SectionName, Split, Join;
    OpensSection(name);
    EndsSection();
    JoinSplit(body, '\n');
    var head := SECTION_START + " " + name;
    assert head[3] == 'S' && META_PREFIX[3] == 'P' && META_END_PREFIX[3] == 'E';
    assert SECTION_END[7] == 'S' && META_END_PREFIX[7] == 'P' && SECTION_END[3] == 'E';
    assert !MetaMarked(head) && !MetaMarked(SECTION_END);
  }

  lemma {:induction false} SectionLinesAre(sections: seq<(string, string)>)
    requires GoodSections(sections)
    ensures OneLiners(SectionLines(sections)) && NoMeta(SectionLines(sections))
    ensures sections != [] ==> SectionLines(sections) != [] && SECTION_START <= SectionLines(sections)[0]
  {
    hide SectionBlock, GoodBody, Safe, MetaMarked;
    if sections != [] {
      var init, last := sections[..|sections| - 1], sections[|sections| - 1];
      forall i, j | 0 <= i < j < |init| ensures Names(init)[i] != Names(init)[j] {
        assert Names(sections)[i] != Names(sections)[j];
      }
      SectionLinesAre(init);
      BlockLines(last.0, last.1);
      BlockStarts(last.0, last.1);
    }
  }

  lemma BlockStarts(name: string, body: string)
    ensures SectionBlock(name, body) != [] && SECTION_START <= SectionBlock(name, body)[0]
  {
  }

  /** What a well-formed document's lines come to: they join to its template, which is not blank, and the sections are
      read back from it. */
  lemma BodyReads(d: Document)
    requires WellFormed(d)
    ensures BodyLines(d) != [] && OneLiners(BodyLines(d)) && NoMeta(BodyLines(d))
    ensures Join(BodyLines(d), '\n') == d.template && Split(d.template, '\n') == BodyLines(d)
    ensures Strip(d.template) != "" && Sections(d.template) == Some(d.sections)
  {
    hide Strip, Split, Join, MetaMarked, ScanLines, SectionLines, GoodSections;
    if d.sections != [] {
      SectionLinesAre(d.sections);
      SplitJoin(SectionLines(d.sections), '\n');
      ScanSections(d.sections);
      JoinStarts(SectionLines(d.sections), '\n');
      assert d.template[0] == SectionLines(d.sections)[0][0] == SECTION_START[0] == '#';
      StripStarts(d.template);
    } else {
      JoinSplit(d.template, '\n');
      ScanOutside(NOTHING_READ, Split(d.template, '\n'));
    }
  }

  lemma MarkersStripped()
    ensures Strip(META_START) == META_START && Strip(META_END) == META_END && META_START != META_END
    ensures MetaMarked(META_START)
  {
    StripEnds(META_START);
    StripEnds(META_END);
    assert META_START[3] == 'P' && META_END[3] == 'E';
    assert META_START[..|META_PREFIX|] == META_PREFIX;
  }

  lemma FieldLines(pairs: seq<(string, string)>)
    requires GoodPairs(pairs) && forall k :: 0 <= k < |pairs| ==> '\n' !in pairs[k].1
    ensures OneLiners(Fields(pairs)) && NoMeta(Fields(pairs))
    ensures forall k :: 0 <= k < |Fields(pairs)| ==> Strip(Fields(pairs)[k]) != META_END
  {
    hide Strip;
    forall k | 0 <= k < |pairs|
      ensures '\n' !in Fields(pairs)[k] && !MetaMarked(Fields(pairs)[k]) && Strip(Fields(pairs)[k]) != META_END
    {
      var (key, value) := pairs[k];
      FieldUnmarked(key, value);
      assert Safe(key);
      SafeStripped(key);
    }
  }

  lemma VariantsGood(d: Document)
    requires WellFormed(d) && d.metadata.Some?
    ensures GoodMetadata(d.metadata.value) && GoodNames(d.metadata.value.variants)
  {
  }

  /** A document without metadata. */
  lemma PlainReads(d: Document, expected: Option<string>)
    requires WellFormed(d) && d.metadata == None
    ensures MetadataOf(Print(d), expected) == Some((None, d.template))
  {
    hide Strip, Split, Join, BodyLines, MetaMarked;
    BodyReads(d);
    MarkersStripped();
    assert [] + BodyLines(d) == BodyLines(d);
    var lines := BodyLines(d);
    var first := FirstContent(lines);
    if first < |lines| && Strip(lines[first]) == META_START {
      StripTwice(lines[first]);
    }
  }

  lemma StripTwice(line: string)
    requires Strip(line) == META_START
    ensures MetaMarked(line)
  {
    assert META_START[..|META_PREFIX|] == META_PREFIX;
  }

  lemma PrintedLines(m: Metadata, body: seq<string>)
    requires GoodMetadata(m) && GoodNames(m.variants) && OneLiners(body)
    ensures Split(Join(MetaBlock(m) + body, '\n'), '\n') == MetaBlock(m) + body
  {
    hide Strip, Split, Join, Fields, Pairs, GoodPairs, GoodMetadata, GoodNames;
    PairsGood(m);
    FieldLines(Pairs(m));
    MarkersPlain();
    SplitJoin(MetaBlock(m) + body, '\n');
  }

  lemma BlockReads(fields: seq<string>, body: seq<string>, values: map<string, string>, m: Metadata, text: string,
                   expected: Option<string>)
    requires NoMeta(fields) && NoMeta(body) && forall k :: 0 <= k < |fields| ==> Strip(fields[k]) != META_END
    requires MetaValues(fields) == Some(values) && Record(values, expected) == Some(m)
    ensures MetadataIn([META_START] + fields + [META_END] + body, text, expected) == Some((Some(m), Join(body, '\n')))
  {
    hide Strip, Join, MetaMarked, MetaValues, Record, FirstEnd;
    MarkersStripped();
    var lines := [META_START] + fields + [META_END] + body;
    assert FirstContent(lines) == 0;
    assert lines[1..] == fields + [META_END] + body;
    FirstEndAt(lines[1..], |fields|);
    assert lines[1..|fields| + 1] == fields && lines[|fields| + 2..] == body && lines[..0] == [];
  }

  /** Metadata is read as it was written. */
  lemma MetadataReads(d: Document, expected: Option<string>)
    requires WellFormed(d) && d.metadata.Some?
    requires expected.Some? ==> Normalized(expected.value) == Some(d.metadata.value.promptId)
    ensures MetadataOf(Print(d), expected) == Some((d.metadata, d.template))
  {
    var m := d.metadata.value;
    VariantsGood(d);
    BodyReads(d);
    hide *;
    PairsGood(m);
    FieldLines(Pairs(m));
    FieldsRead(Pairs(m));
    RecordReads(m, expected);
    PrintedLines(m, BodyLines(d));
    BlockReads(Fields(Pairs(m)), BodyLines(d), ValuesOf(Pairs(m)), m, Print(d), expected);
    PrintsBlock(d);
  }

  lemma PrintsBlock(d: Document)
    requires d.metadata.Some?
    ensures var block := [META_START] + Fields(Pairs(d.metadata.value)) + [META_END];
            MetaBlock(d.metadata.value) == block && Print(d) == Join(block + BodyLines(d), '\n')
    ensures forall text, expected :: MetadataOf(text, expected) == MetadataIn(Split(text, '\n'), text, expected)
  {
  }

  lemma MarkersPlain()
    ensures '\n' !in META_START && '\n' !in META_END
  {
  }

  /** Reading a printed document gives the document: its metadata, its sections in order, and its template. */
  lemma PrintedDocumentReads(d: Document, expected: Option<string>, required: bool)
    requires WellFormed(d)
    requires required ==> d.metadata.Some?
    requires d.metadata.Some? && expected.Some? ==> Normalized(expected.value) == Some(d.metadata.value.promptId)
    ensures Parse(Print(d), expected, required) == Some(d)
  {
    hide MetadataOf, Print, Sections, Strip, BodyLines;
    BodyReads(d);
    if d.metadata == None {
      PlainReads(d, expected);
    } else {
      MetadataReads(d, expected);
    }
  }
}
