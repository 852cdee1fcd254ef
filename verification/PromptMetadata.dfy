/** The block of metadata a prompt file may start with. */
module PromptMetadata {
  import opened Prelude
  import opened PromptRegistry
  import opened PromptText
  import opened Seqs

  const META_START := "###PROMPT_META###"
  const META_END := "###END_PROMPT_META###"
  const META_PREFIX := "###PROMPT_META"
  const META_END_PREFIX := "###END_PROMPT_META"
  const REQUIRED_KEYS := {"id", "kind", "stage", "status", "summary", "output"}
  const ALLOWED_KEYS := REQUIRED_KEYS + {"variants"}
  const KINDS := {"template", "fragment"}
  const STATUSES := {"active", "fallback", "legacy"}

  predicate MetaMarked(line: string) {
    META_PREFIX <= Strip(line) || META_END_PREFIX <= Strip(line)
  }

  predicate AnyMarked(lines: seq<string>) {
    exists k :: 0 <= k < |lines| && MetaMarked(lines[k])
  }

  /** The first line that is not blank. */
  function FirstContent(lines: seq<string>): (r: nat)
    ensures r <= |lines|
  {
    if lines == [] || Strip(lines[0]) != "" then 0 else 1 + FirstContent(lines[1..])
  }

  /** The first line that ends the metadata. */
  function FirstEnd(lines: seq<string>): (r: nat)
    ensures r <= |lines|
  {
    if lines == [] || Strip(lines[0]) == META_END then 0 else 1 + FirstEnd(lines[1..])
  }

  function Colon(s: string): (r: nat)
    ensures r <= |s|
  {
    if s == "" || s[0] == ':' then 0 else 1 + Colon(s[1..])
  }

  /** One line of metadata; None for a line that is refused. */
  function MetaLine(values: map<string, string>, line: string): Option<map<string, string>> {
    var stripped := Strip(line);
    if stripped == "" then Some(values)
    else
      var at := Colon(stripped);
      if at == |stripped| then None
      else
        var key, value := Strip(stripped[..at]), Strip(stripped[at + 1..]);
        if key !in ALLOWED_KEYS || key in values || value == "" then None else Some(values[key := value])
  }

  function MetaValues(lines: seq<string>): Option<map<string, string>> {
    if lines == [] then Some(map[])
    else
      var before := MetaValues(lines[..|lines| - 1]);
      if before == None then None else MetaLine(before.value, lines[|lines| - 1])
  }

  method ParseMetadataValues(lines: seq<string>) returns (r: Option<map<string, string>>)
    ensures r == MetaValues(lines)
  {
    hide MetaLine;
    var values: map<string, string> := map[];
    for n := 0 to |lines|
      invariant MetaValues(lines[..n]) == Some(values)
    {
      assert lines[..n + 1][..n] == lines[..n];
      var next := MetaLine(values, lines[n]);
      if next == None {
        ValuesStop(lines, n + 1);
        return None;
      }
      values := next.value;
    }
    assert lines[..|lines|] == lines;
    r := Some(values);
  }

  lemma {:induction false} ValuesStop(lines: seq<string>, n: nat)
    requires n <= |lines| && MetaValues(lines[..n]) == None
    ensures MetaValues(lines) == None
    decreases |lines|
  {
    if n < |lines| {
      assert lines[..|lines| - 1][..n] == lines[..n];
      ValuesStop(lines[..|lines| - 1], n);
    } else {
      assert lines[..n] == lines;
    }
  }

  function StripAll(parts: seq<string>): (r: seq<string>)
    ensures |r| == |parts| && forall k :: 0 <= k < |r| ==> r[k] == Strip(parts[k])
  {
    seq(|parts|, k requires 0 <= k < |parts| => Strip(parts[k]))
  }

  function Record(values: map<string, string>, expected: Option<string>): Option<Metadata> {
    if !(REQUIRED_KEYS <= values.Keys) then None
    else
      var id := values["id"];
      var variants := if "variants" in values then StripAll(Split(values["variants"], ',')) else [];
      if Normalized(id) != Some(id) || (expected.Some? && Normalized(expected.value) != Some(id)) then None
      else if values["kind"] !in KINDS || values["status"] !in STATUSES then None
      else if !Safe(values["stage"]) || !Safe(values["output"]) then None
      else if !NoRepeats(variants) || !AllSafe(variants) then None
      else Some(Metadata(id, values["kind"], values["stage"], values["status"], values["summary"], values["output"],
                         variants))
  }

  // ----- what metadata is read

  /** What stands before the first colon of a line. */
  ghost function KeyOf(line: string): string {
    var stripped := Strip(line);
    Strip(stripped[..Colon(stripped)])
  }

  /** What stands behind it. */
  ghost function ValueOf(line: string): string {
    var stripped := Strip(line);
    if Colon(stripped) == |stripped| then "" else Strip(stripped[Colon(stripped) + 1..])
  }

  ghost predicate Entry(line: string, key: string, value: string) {
    !Blank(line) && KeyOf(line) == key && ValueOf(line) == value
  }

  ghost predicate Declares(block: seq<string>, key: string, value: string) {
    exists k :: 0 <= k < |block| && Entry(block[k], key, value)
  }

  /** Every line is blank, or gives a value to a known key no earlier line has. */
  ghost predicate Lawful(block: seq<string>) {
    forall k :: 0 <= k < |block| && !Blank(block[k]) ==> LawfulLine(block[..k], block[k])
  }

  ghost predicate LawfulLine(before: seq<string>, line: string) {
    KeyOf(line) in ALLOWED_KEYS && ValueOf(line) != "" && !HasKey(before, KeyOf(line))
  }

  ghost predicate HasKey(block: seq<string>, key: string) {
    exists k :: 0 <= k < |block| && !Blank(block[k]) && KeyOf(block[k]) == key
  }

  /** A line that is `start`, one that is `end`, blank lines before, and no other marker of metadata. */
  ghost predicate Framed(lines: seq<string>, start: nat, end: nat) {
    && start < end < |lines| && Strip(lines[start]) == META_START && Strip(lines[end]) == META_END
    && (forall k :: 0 <= k < start ==> Blank(lines[k]))
    && (forall k :: 0 <= k < |lines| && MetaMarked(lines[k]) ==> k == start || k == end)
  }

  /** A known kind and status, safe names, distinct safe variants, and the id that is expected. */
  ghost predicate ProperMetadata(m: Metadata, expected: Option<string>) {
    && Normalized(m.promptId) == Some(m.promptId)
    && (expected.Some? ==> Normalized(expected.value) == Some(m.promptId))
    && m.kind in KINDS && m.status in STATUSES && Safe(m.stage) && Safe(m.output)
    && NoRepeats(m.variants) && AllSafe(m.variants)
  }

  /** The metadata's fields are the values the lines give. */
  ghost predicate Declared(block: seq<string>, m: Metadata) {
    && Declares(block, "id", m.promptId) && Declares(block, "kind", m.kind) && Declares(block, "stage", m.stage)
    && Declares(block, "status", m.status) && Declares(block, "summary", m.summary)
       && Declares(block, "output", m.output)
    && if HasKey(block, "variants")
       then exists list :: Declares(block, "variants", list) && m.variants == StripAll(Split(list, ','))
       else m.variants == []
  }

  /** The lines have a block of metadata that says `m`, and `rest` is what follows it. */
  ghost predicate Describes(lines: seq<string>, m: Metadata, rest: string, expected: Option<string>) {
    ProperMetadata(m, expected) && exists start: nat, end: nat :: DescribesAt(lines, start, end, m, rest)
  }

  ghost predicate DescribesAt(lines: seq<string>, start: nat, end: nat, m: Metadata, rest: string) {
    && Framed(lines, start, end) && Lawful(lines[start + 1..end]) && Declared(lines[start + 1..end], m)
    && rest == Join(lines[end + 1..], '\n')
  }

  /** The metadata of a file, if it has any, and the rest of it; None for an error. */
  function MetadataOf(text: string, expected: Option<string>): Option<(Option<Metadata>, string)> {
    MetadataIn(Split(text, '\n'), text, expected)
  }

  function MetadataIn(lines: seq<string>, text: string, expected: Option<string>): Option<(Option<Metadata>, string)> {
    var first := FirstContent(lines);
    if first == |lines| then Some((None, text))
    else if Strip(lines[first]) != META_START then (if AnyMarked(lines) then None else Some((None, text)))
    else
      var end := first + 1 + FirstEnd(lines[first + 1..]);
      if end == |lines| || AnyMarked(lines[..first] + lines[first + 1..end] + lines[end + 1..]) then None
      else
        var values := MetaValues(lines[first + 1..end]);
        if values == None then None
        else
          var metadata := Record(values.value, expected);
          if metadata == None then None else Some((metadata, Join(lines[end + 1..], '\n')))
  }

  lemma {:induction false} ValuesSay(lines: seq<string>)
    ensures MetaValues(lines).Some? <==> Lawful(lines)
    ensures MetaValues(lines).Some? ==>
              forall key, value :: Has(MetaValues(lines).value, key, value) <==> Declares(lines, key, value)
    ensures MetaValues(lines).Some? ==> forall key :: key in MetaValues(lines).value <==> HasKey(lines, key)
  {
    hide Strip, KeyOf, ValueOf, Blank;
    if lines != [] {
      var init, line := lines[..|lines| - 1], lines[|lines| - 1];
      ValuesSay(init);
      LawfulSnoc(init, line);
      assert lines == init + [line];
      if MetaValues(init).Some? {
        LineSays(MetaValues(init).value, line);
        forall key ensures HasKey(lines, key) <==> HasKey(init, key) || (!Blank(line) && KeyOf(line) == key) {
          HasKeySnoc(init, line, key);
        }
        forall key, value
          ensures Declares(lines, key, value) <==> Declares(init, key, value) || Entry(line, key, value)
        {
          DeclaresSnoc(init, line, key, value);
        }
      }
    }
  }

  lemma LineSays(values: map<string, string>, line: string)
    ensures MetaLine(values, line) ==
            if Blank(line) then Some(values)
            else if KeyOf(line) !in ALLOWED_KEYS || KeyOf(line) in values || ValueOf(line) == "" then None
            else Some(values[KeyOf(line) := ValueOf(line)])
  {
  }

  lemma LawfulSnoc(init: seq<string>, line: string)
    ensures Lawful(init + [line]) <==> Lawful(init) && (Blank(line) || LawfulLine(init, line))
  {
    hide Blank, LawfulLine;
    var lines := init + [line];
    forall k | 0 <= k < |init| ensures lines[k] == init[k] && lines[..k] == init[..k] {
    }
    assert lines[..|init|] == init && lines[|init|] == line;
  }

  lemma HasKeySnoc(init: seq<string>, line: string, key: string)
    ensures HasKey(init + [line], key) <==> HasKey(init, key) || (!Blank(line) && KeyOf(line) == key)
  {
    hide Blank, KeyOf;
    var lines := init + [line];
    assert lines[|init|] == line;
    if HasKey(init, key) {
      var k :| 0 <= k < |init| && !Blank(init[k]) && KeyOf(init[k]) == key;
      assert lines[k] == init[k];
    }
  }

  lemma DeclaresSnoc(init: seq<string>, line: string, key: string, value: string)
    ensures Declares(init + [line], key, value) <==> Declares(init, key, value) || Entry(line, key, value)
  {
    hide Entry;
    var lines := init + [line];
    assert lines[|init|] == line;
    if Declares(init, key, value) {
      var k :| 0 <= k < |init| && Entry(init[k], key, value);
      assert lines[k] == init[k];
    }
  }

  lemma RecordSays(lines: seq<string>, expected: Option<string>, m: Metadata)
    requires MetaValues(lines).Some?
    ensures Record(MetaValues(lines).value, expected) == Some(m) <==> Declared(lines, m) && ProperMetadata(m, expected)
  {
    hide *;
    ValuesSay(lines);
    RecordIs(MetaValues(lines).value, expected, m);
    DeclaredIs(lines, MetaValues(lines).value, m);
  }

  /** The fields are the values of a map. */
  ghost predicate Fills(values: map<string, string>, m: Metadata) {
    && Has(values, "id", m.promptId) && Has(values, "kind", m.kind) && Has(values, "stage", m.stage)
    && Has(values, "status", m.status) && Has(values, "summary", m.summary) && Has(values, "output", m.output)
    && m.variants == if "variants" in values then StripAll(Split(values["variants"], ',')) else []
  }

  ghost predicate Has(values: map<string, string>, key: string, value: string) {
    key in values && values[key] == value
  }

  lemma RecordIs(values: map<string, string>, expected: Option<string>, m: Metadata)
    ensures Record(values, expected) == Some(m) <==> Fills(values, m) && ProperMetadata(m, expected)
  {
    hide Normalized, Safe, AllSafe, Split, NoRepeats, StripAll;
    assert REQUIRED_KEYS <= values.Keys <==>
           "id" in values && "kind" in values && "stage" in values && "status" in values && "summary" in values
             && "output" in values;
    if Fills(values, m) && ProperMetadata(m, expected) {
      assert Record(values, expected) == Some(m);
    }
    if Record(values, expected) == Some(m) {
      assert Fills(values, m);
    }
  }

  lemma DeclaredIs(lines: seq<string>, values: map<string, string>, m: Metadata)
    requires forall key, value :: Has(values, key, value) <==> Declares(lines, key, value)
    requires forall key :: key in values <==> HasKey(lines, key)
    ensures Declared(lines, m) <==> Fills(values, m)
  {
    hide Declares, HasKey, Split, StripAll;
    if "variants" in values {
      assert Has(values, "variants", values["variants"]);
    }
  }

  lemma {:induction false} FirstContentIs(lines: seq<string>, n: nat)
    requires n <= |lines| && (forall k :: 0 <= k < n ==> Blank(lines[k])) && (n < |lines| ==> !Blank(lines[n]))
    ensures FirstContent(lines) == n
  {
    hide Strip;
    if n > 0 {
      FirstContentIs(lines[1..], n - 1);
    }
  }

  lemma {:induction false} FirstContentBlank(lines: seq<string>)
    ensures forall k :: 0 <= k < FirstContent(lines) ==> Blank(lines[k])
    ensures FirstContent(lines) < |lines| ==> !Blank(lines[FirstContent(lines)])
  {
    hide Strip;
    if lines != [] && Strip(lines[0]) == "" {
      FirstContentBlank(lines[1..]);
    }
  }

  lemma {:induction false} FirstEndAt(lines: seq<string>, n: nat)
    requires n < |lines| && Strip(lines[n]) == META_END && forall k :: 0 <= k < n ==> Strip(lines[k]) != META_END
    ensures FirstEnd(lines) == n
  {
    hide Strip;
    if n > 0 {
      FirstEndAt(lines[1..], n - 1);
    }
  }

  lemma {:induction false} FirstEndEnds(lines: seq<string>)
    ensures FirstEnd(lines) < |lines| ==> Strip(lines[FirstEnd(lines)]) == META_END
  {
    hide Strip;
    if lines != [] && Strip(lines[0]) != META_END {
      FirstEndEnds(lines[1..]);
    }
  }

  lemma MarkersMarked()
    ensures META_START != META_END && META_START != ""
    ensures forall line :: Strip(line) == META_START || Strip(line) == META_END ==> MetaMarked(line)
  {
    assert META_START[3] == 'P' && META_END[3] == 'E';
    assert META_START[..|META_PREFIX|] == META_PREFIX && META_END[..|META_END_PREFIX|] == META_END_PREFIX;
  }

  lemma MarkedElsewhere(lines: seq<string>, start: nat, end: nat)
    requires start < end < |lines|
    ensures AnyMarked(lines[..start] + lines[start + 1..end] + lines[end + 1..]) <==>
            exists k :: 0 <= k < |lines| && MetaMarked(lines[k]) && k != start && k != end
  {
    hide MetaMarked;
    var rest := lines[..start] + lines[start + 1..end] + lines[end + 1..];
    forall k | 0 <= k < |lines| && k != start && k != end
      ensures exists j :: 0 <= j < |rest| && rest[j] == lines[k]
    {
      var j := if k < start then k else if k < end then k - 1 else k - 2;
      assert rest[j] == lines[k];
    }
    forall j | 0 <= j < |rest| ensures exists k :: 0 <= k < |lines| && k != start && k != end && rest[j] == lines[k] {
      var k := if j < start then j else if j < end - 1 then j + 1 else j + 2;
      assert rest[j] == lines[k];
    }
  }

  /** Framed lines are found by looking for the first line with text and the first end behind it. */
  lemma FramedFound(lines: seq<string>, start: nat, end: nat)
    requires Framed(lines, start, end)
    ensures FirstContent(lines) == start && start + 1 + FirstEnd(lines[start + 1..]) == end
    ensures !AnyMarked(lines[..start] + lines[start + 1..end] + lines[end + 1..])
  {
    hide Strip, MetaMarked;
    MarkersMarked();
    FirstContentIs(lines, start);
    var rest := lines[start + 1..];
    forall k | 0 <= k < end - start - 1 ensures Strip(rest[k]) != META_END {
      assert rest[k] == lines[start + 1 + k];
    }
    assert rest[end - start - 1] == lines[end];
    FirstEndAt(rest, end - start - 1);
    MarkedElsewhere(lines, start, end);
  }

  lemma FoundFramed(lines: seq<string>, start: nat, end: nat)
    requires start == FirstContent(lines) < |lines| && Strip(lines[start]) == META_START
    requires end == start + 1 + FirstEnd(lines[start + 1..]) < |lines|
    requires !AnyMarked(lines[..start] + lines[start + 1..end] + lines[end + 1..])
    ensures Framed(lines, start, end)
  {
    hide Strip, MetaMarked, AnyMarked, FirstContent, FirstEnd;
    FirstContentBlank(lines);
    var rest := lines[start + 1..];
    FirstEndEnds(rest);
    assert rest[end - start - 1] == lines[end];
    MarkedElsewhere(lines, start, end);
  }

  /** Metadata is read exactly when the lines describe it. */
  lemma MetadataDescribed(lines: seq<string>, text: string, expected: Option<string>, m: Metadata, rest: string)
    ensures MetadataIn(lines, text, expected) == Some((Some(m), rest)) <==> Describes(lines, m, rest, expected)
  {
    hide Strip, AnyMarked, Record, MetaValues, Framed, Lawful, Declared, ProperMetadata, Join, FirstContent, FirstEnd;
    if MetadataIn(lines, text, expected) == Some((Some(m), rest)) {
      var start := FirstContent(lines);
      var end := start + 1 + FirstEnd(lines[start + 1..]);
      FoundFramed(lines, start, end);
      ValuesSay(lines[start + 1..end]);
      RecordSays(lines[start + 1..end], expected, m);
      assert DescribesAt(lines, start, end, m, rest);
    }
    if Describes(lines, m, rest, expected) {
      var start: nat, end: nat :| DescribesAt(lines, start, end, m, rest);
      FramedStarts(lines, start, end);
      FramedFound(lines, start, end);
      ValuesSay(lines[start + 1..end]);
      RecordSays(lines[start + 1..end], expected, m);
    }
  }

  lemma FramedStarts(lines: seq<string>, start: nat, end: nat)
    requires Framed(lines, start, end)
    ensures start < end < |lines| && Strip(lines[start]) == META_START
  {
  }

  /** A text without metadata is taken whole, exactly when no line is marked. */
  lemma NoMetadata(lines: seq<string>, text: string, expected: Option<string>)
    ensures MetadataIn(lines, text, expected) == Some((None, text)) <==> !AnyMarked(lines)
    ensures forall rest :: MetadataIn(lines, text, expected) == Some((None, rest)) ==> rest == text
  {
    hide Strip, MetaMarked, Record, MetaValues, Join;
    FirstContentBlank(lines);
    MarkersMarked();
    var first := FirstContent(lines);
    if first < |lines| && Strip(lines[first]) == META_START {
      assert MetaMarked(lines[first]);
    }
    if first == |lines| {
      forall k | 0 <= k < |lines| ensures !MetaMarked(lines[k]) {
        assert Blank(lines[k]);
        BlankUnmarked(lines[k]);
      }
    }
  }

  lemma BlankUnmarked(line: string)
    requires Blank(line)
    ensures !MetaMarked(line)
  {
  }

  method ParsePromptMetadata(text: string, expected: Option<string>) returns (r: Option<(Option<Metadata>, string)>)
    ensures var lines := Split(text, '\n');
            && (r == Some((None, text)) <==> !AnyMarked(lines))
            && (forall rest :: r == Some((None, rest)) ==> rest == text)
            && (forall m, rest :: r == Some((Some(m), rest)) <==> Describes(lines, m, rest, expected))
    ensures r == MetadataOf(text, expected)
  {
    hide Split, FirstContent, FirstEnd, MetaValues, AnyMarked, Record, Strip, Join, Describes;
    var lines := Split(text, '\n');
    NoMetadata(lines, text, expected);
    forall m, rest
      ensures MetadataIn(lines, text, expected) == Some((Some(m), rest)) <==> Describes(lines, m, rest, expected)
    {
      MetadataDescribed(lines, text, expected, m, rest);
    }
    var first := FirstContent(lines);
    if first == |lines| {
      return Some((None, text));
    }
    if Strip(lines[first]) != META_START {
      return if AnyMarked(lines) then None else Some((None, text));
    }
    var end := first + 1 + FirstEnd(lines[first + 1..]);
    if end == |lines| || AnyMarked(lines[..first] + lines[first + 1..end] + lines[end + 1..]) {
      return None;
    }
    var values := ParseMetadataValues(lines[first + 1..end]);
    if values == None {
      return None;
    }
    var metadata := Record(values.value, expected);
    r := if metadata == None then None else Some((metadata, Join(lines[end + 1..], '\n')));
  }
}
