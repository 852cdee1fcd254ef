/** The named sections of a prompt file. */
module PromptSections {
  import opened Prelude
  import opened PromptText
  import opened Seqs

  const SECTION_START := "###SECTION:"
  const SECTION_PREFIX := "###SECTION"
  const SECTION_END := "###END_SECTION###"
  const SECTION_END_PREFIX := "###END_SECTION"

  /** The name in a stripped line that opens a section. */
  function SectionName(stripped: string): Option<string> {
    if SECTION_START <= stripped && Safe(TrimLeft(stripped[|SECTION_START|..]))
    then Some(TrimLeft(stripped[|SECTION_START|..])) else None
  }

  function Names(sections: seq<(string, string)>): (r: seq<string>)
    ensures |r| == |sections| && forall k :: 0 <= k < |r| ==> r[k] == sections[k].0
  {
    seq(|sections|, k requires 0 <= k < |sections| => sections[k].0)
  }

  /** What has been read of a file: the sections closed, the one open and its lines, and whether there was text
      outside. */
  datatype Scan = Scan(sections: seq<(string, string)>, current: Option<string>, body: seq<string>, outside: bool)

  function ScanLine(s: Scan, line: string): Option<Scan> {
    var stripped := Strip(line);
    var name := SectionName(stripped);
    if name.Some? then
      if s.current.Some? || name.value in Names(s.sections) then None else Some(s.(current := name, body := []))
    else if SECTION_PREFIX <= stripped then None
    else if stripped == SECTION_END then
      var text := Strip(Join(s.body, '\n'));
      if s.current == None || text == "" then None
      else Some(Scan(s.sections + [(s.current.value, text)], None, [], s.outside))
    else if SECTION_END_PREFIX <= stripped then None
    else if s.current.Some? then Some(s.(body := s.body + [line]))
    else Some(s.(outside := s.outside || stripped != ""))
  }

  function ScanLines(s: Scan, lines: seq<string>): Option<Scan> {
    if lines == [] then Some(s)
    else
      var before := ScanLines(s, lines[..|lines| - 1]);
      if before == None then None else ScanLine(before.value, lines[|lines| - 1])
  }

  const NOTHING_READ := Scan([], None, [], false)

  function Sections(template: string): Option<seq<(string, string)>> {
    var s := ScanLines(NOTHING_READ, Split(template, '\n'));
    if s == None || s.value.current.Some? || (s.value.sections != [] && s.value.outside) then None
    else Some(s.value.sections)
  }

  method ParsePromptSections(template: string) returns (r: Option<seq<(string, string)>>)
    ensures forall sections :: r == Some(sections) <==> Laid(Split(template, '\n'), sections)
    ensures r == Sections(template)
  {
    hide Strip, SectionName, Join, Split, Laid, ScanLines, Names;
    AllLaid(template);
    var sections: seq<(string, string)>, current: Option<string> := [], None;
    var body: seq<string>, outside := [], false;
    var lines := Split(template, '\n');
    NothingYet(lines);
    for n := 0 to |lines|
      invariant ScanLines(NOTHING_READ, lines[..n]) == Some(Scan(sections, current, body, outside))
    {
      ScanNext(lines, n, Scan(sections, current, body, outside));
      var stripped := Strip(lines[n]);
      var name := SectionName(stripped);
      if name.Some? {
        if current.Some? || name.value in Names(sections) {
          ScanStops(NOTHING_READ, lines, n + 1);
          return None;
        }
        current, body := name, [];
      } else if SECTION_PREFIX <= stripped {
        ScanStops(NOTHING_READ, lines, n + 1);
        return None;
      } else if stripped == SECTION_END {
        var text := Strip(Join(body, '\n'));
        if current == None || text == "" {
          ScanStops(NOTHING_READ, lines, n + 1);
          return None;
        }
        sections, current, body := sections + [(current.value, text)], None, [];
      } else if SECTION_END_PREFIX <= stripped {
        ScanStops(NOTHING_READ, lines, n + 1);
        return None;
      } else if current.Some? {
        body := body + [lines[n]];
      } else if stripped != "" {
        outside := true;
      }
    }
    assert lines[..|lines|] == lines;
    r := if current.Some? || (sections != [] && outside) then None else Some(sections);
  }

  lemma AllLaid(template: string)
    ensures forall sections :: Sections(template) == Some(sections) <==> Laid(Split(template, '\n'), sections)
  {
    hide *;
    forall sections ensures Sections(template) == Some(sections) <==> Laid(Split(template, '\n'), sections) {
      SectionsLaid(template, sections);
    }
  }

  lemma NothingYet(lines: seq<string>)
    ensures ScanLines(NOTHING_READ, lines[..0]) == Some(NOTHING_READ)
  {
  }

  lemma {:induction false} ScanStops(s: Scan, lines: seq<string>, n: nat)
    requires n <= |lines| && ScanLines(s, lines[..n]) == None
    ensures ScanLines(s, lines) == None
    decreases |lines|
  {
    if n < |lines| {
      assert lines[..|lines| - 1][..n] == lines[..n];
      ScanStops(s, lines[..|lines| - 1], n);
    } else {
      assert lines[..n] == lines;
    }
  }

  // ----- exactly which sections are read

  /** Taken for a marker of a section, well-formed or not. */
  predicate SectionMarked(line: string) {
    SECTION_PREFIX <= Strip(line) || SECTION_END_PREFIX <= Strip(line)
  }

  ghost predicate Plain(lines: seq<string>) {
    forall k :: 0 <= k < |lines| ==> !SectionMarked(lines[k])
  }

  ghost predicate AllBlank(lines: seq<string>) {
    forall k :: 0 <= k < |lines| ==> Blank(lines[k])
  }

  /** The line opens a section of that name, which no section before has. */
  ghost predicate Opens(line: string, name: string, before: seq<(string, string)>) {
    SectionName(Strip(line)) == Some(name) && name !in Names(before)
  }

  /** Line i opens the section, line j ends it, its text stands in between, and nothing follows. */
  ghost predicate Block(lines: seq<string>, i: nat, j: nat, section: (string, string), before: seq<(string, string)>) {
    && i < j < |lines| && Opens(lines[i], section.0, before) && Strip(lines[j]) == SECTION_END
    && Plain(lines[i + 1..j]) && AllBlank(lines[j + 1..])
    && section.1 == Strip(Join(lines[i + 1..j], '\n')) && section.1 != ""
  }

  /** The lines are the blocks of these sections in order, and blank lines. */
  ghost predicate Sectioned(lines: seq<string>, sections: seq<(string, string)>)
    decreases |sections|
  {
    if sections == [] then AllBlank(lines)
    else
      var init, last := sections[..|sections| - 1], sections[|sections| - 1];
      exists i: nat, j: nat :: Block(lines, i, j, last, init) && Sectioned(lines[..i], init)
  }

  /** What the lines of a file are: one template without any marker of a section, or sections and blank lines. */
  ghost predicate Laid(lines: seq<string>, sections: seq<(string, string)>) {
    if sections == [] then Plain(lines) else Sectioned(lines, sections)
  }

  lemma {:induction false} ScanConcat(s: Scan, a: seq<string>, b: seq<string>)
    ensures ScanLines(s, a + b) == (var t := ScanLines(s, a); if t == None then None else ScanLines(t.value, b))
    decreases |b|
  {
    hide ScanLine;
    if b == [] {
      assert a + b == a;
    } else {
      assert (a + b)[..|a + b| - 1] == a + b[..|b| - 1];
      ScanConcat(s, a, b[..|b| - 1]);
    }
  }

  lemma Markers(line: string)
    ensures SectionName(Strip(line)).Some? ==> SectionMarked(line)
    ensures Strip(line) == SECTION_END ==>
              SectionMarked(line) && SectionName(Strip(line)) == None && !(SECTION_PREFIX <= Strip(line))
    ensures Blank(line) ==> !SectionMarked(line)
  {
    var s := Strip(line);
    assert SECTION_START == SECTION_PREFIX + ":";
    assert SECTION_START <= s ==> s[..|SECTION_PREFIX|] == SECTION_START[..|SECTION_PREFIX|];
    assert SECTION_END[..|SECTION_END_PREFIX|] == SECTION_END_PREFIX;
    assert SECTION_END[3] == 'E' && SECTION_PREFIX[3] == 'S' && SECTION_START[3] == 'S';
  }

  /** Each line does one of these. */
  lemma LineDoes(s: Scan, line: string)
    ensures SectionName(Strip(line)).Some? ==>
              ScanLine(s, line) == if s.current.Some? || SectionName(Strip(line)).value in Names(s.sections) then None
                                   else Some(s.(current := SectionName(Strip(line)), body := []))
    ensures Strip(line) == SECTION_END ==>
              ScanLine(s, line) == var text := Strip(Join(s.body, '\n'));
                                   if s.current == None || text == "" then None
                                   else Some(Scan(s.sections + [(s.current.value, text)], None, [], s.outside))
    ensures !SectionMarked(line) ==>
              ScanLine(s, line) == if s.current.Some? then Some(s.(body := s.body + [line]))
                                   else Some(s.(outside := s.outside || !Blank(line)))
    ensures SectionMarked(line) && SectionName(Strip(line)) == None && Strip(line) != SECTION_END ==>
              ScanLine(s, line) == None
  {
    Markers(line);
    hide Strip, SectionName, Join;
  }

  /** Lines without markers are kept in an open section. */
  lemma {:induction false} ScanBody(s: Scan, lines: seq<string>)
    requires s.current.Some? && Plain(lines)
    ensures ScanLines(s, lines) == Some(s.(body := s.body + lines))
  {
    hide ScanLine, SectionMarked;
    if lines == [] {
      assert s.body + lines == s.body;
    } else {
      var init, line := lines[..|lines| - 1], lines[|lines| - 1];
      ScanBody(s, init);
      LineDoes(s.(body := s.body + init), line);
      assert s.body + lines == (s.body + init) + [line];
    }
  }

  /** Outside sections it only counts whether there are any. */
  lemma {:induction false} ScanOutside(s: Scan, lines: seq<string>)
    requires s.current == None && Plain(lines)
    ensures ScanLines(s, lines) == Some(s.(outside := s.outside || !AllBlank(lines)))
  {
    hide ScanLine, SectionMarked, Blank;
    if lines != [] {
      var init, line := lines[..|lines| - 1], lines[|lines| - 1];
      ScanOutside(s, init);
      LineDoes(s.(outside := s.outside || !AllBlank(init)), line);
      assert lines == init + [line];
    }
  }

  lemma BlankPlain(lines: seq<string>)
    requires AllBlank(lines)
    ensures Plain(lines)
  {
    forall k | 0 <= k < |lines| ensures !SectionMarked(lines[k]) {
      Markers(lines[k]);
    }
  }

  lemma ScanNext(lines: seq<string>, n: nat, s: Scan)
    requires n < |lines| && ScanLines(NOTHING_READ, lines[..n]) == Some(s)
    ensures ScanLines(NOTHING_READ, lines[..n + 1]) == ScanLine(s, lines[n])
  {
    hide ScanLine;
    assert lines[..n + 1][..n] == lines[..n];
  }

  lemma ScanUpTo(lines: seq<string>, n: nat, m: nat, s: Scan)
    requires n <= m <= |lines| && ScanLines(NOTHING_READ, lines[..n]) == Some(s)
    ensures ScanLines(NOTHING_READ, lines[..m]) == ScanLines(s, lines[n..m])
  {
    hide ScanLines;
    assert lines[..m] == lines[..n] + lines[n..m];
    ScanConcat(NOTHING_READ, lines[..n], lines[n..m]);
  }

  /** A block adds its section. */
  lemma ScanBlockOf(lines: seq<string>, i: nat, j: nat, section: (string, string), before: seq<(string, string)>)
    requires Block(lines, i, j, section, before)
             && ScanLines(NOTHING_READ, lines[..i]) == Some(Scan(before, None, [], false))
    ensures ScanLines(NOTHING_READ, lines) == Some(Scan(before + [section], None, [], false))
  {
    hide ScanLine, ScanLines, Strip, Blank, Plain, SectionMarked, SectionName, Join;
    var start, body := Scan(before, None, [], false), lines[i + 1..j];
    LineDoes(start, lines[i]);
    ScanNext(lines, i, start);
    var open := start.(current := Some(section.0));
    ScanBody(open, body);
    ScanUpTo(lines, i + 1, j, open);
    assert [] + body == body;
    var full := open.(body := body);
    LineDoes(full, lines[j]);
    ScanNext(lines, j, full);
    var done := start.(sections := before + [section]);
    BlankPlain(lines[j + 1..]);
    ScanOutside(done, lines[j + 1..]);
    ScanUpTo(lines, j + 1, |lines|, done);
    assert lines[..|lines|] == lines;
  }

  lemma {:induction false} SectionedScan(lines: seq<string>, sections: seq<(string, string)>)
    requires Sectioned(lines, sections)
    ensures ScanLines(NOTHING_READ, lines) == Some(Scan(sections, None, [], false))
    decreases |sections|
  {
    hide ScanLines, Opens, Plain, Join, Strip;
    if sections == [] {
      BlankPlain(lines);
      ScanOutside(NOTHING_READ, lines);
    } else {
      var init, last := sections[..|sections| - 1], sections[|sections| - 1];
      var i: nat, j: nat :| Block(lines, i, j, last, init) && Sectioned(lines[..i], init);
      SectionedScan(lines[..i], init);
      ScanBlockOf(lines, i, j, last, init);
      assert init + [last] == sections;
    }
  }

  /** Where a scan that has met no text outside sections is. */
  ghost predicate At(lines: seq<string>, s: Scan) {
    if s.current == None then s.body == [] && Sectioned(lines, s.sections)
    else exists i: nat :: OpenAt(lines, i, s.current.value, s)
  }

  ghost predicate OpenAt(lines: seq<string>, i: nat, name: string, s: Scan) {
    && i < |lines| && Sectioned(lines[..i], s.sections) && Opens(lines[i], name, s.sections)
    && s.body == lines[i + 1..] && Plain(s.body)
  }

  lemma BlockAfter(lines: seq<string>, line: string, i: nat, j: nat, section: (string, string),
                   before: seq<(string, string)>)
    requires Block(lines, i, j, section, before) && Blank(line)
    ensures Block(lines + [line], i, j, section, before) && (lines + [line])[..i] == lines[..i]
  {
    hide Blank, Opens, Plain, Join, Strip;
    var all := lines + [line];
    assert all[..i] == lines[..i] && all[i + 1..j] == lines[i + 1..j] && all[j + 1..] == lines[j + 1..] + [line];
  }

  lemma BlankAfter(lines: seq<string>, line: string, sections: seq<(string, string)>)
    requires Sectioned(lines, sections) && Blank(line)
    ensures Sectioned(lines + [line], sections)
  {
    hide Blank, Opens, Plain, Join, Strip;
    if sections != [] {
      var init, last := sections[..|sections| - 1], sections[|sections| - 1];
      var i: nat, j: nat :| Block(lines, i, j, last, init) && Sectioned(lines[..i], init);
      BlockAfter(lines, line, i, j, last, init);
    }
  }

  lemma AtOpens(init: seq<string>, line: string, s: Scan, t: Scan)
    requires At(init, s) && ScanLine(s, line) == Some(t) && SectionName(Strip(line)).Some?
    ensures At(init + [line], t)
  {
    hide Strip, SectionName, Sectioned, ScanLine;
    LineDoes(s, line);
    var lines, i, name := init + [line], |init|, SectionName(Strip(line)).value;
    assert t.current == Some(name) && t.sections == s.sections;
    assert lines[..i] == init && lines[i] == line && lines[i + 1..] == [];
    assert OpenAt(lines, i, name, t);
  }

  lemma SectionedSnoc(lines: seq<string>, i: nat, j: nat, section: (string, string), before: seq<(string, string)>)
    requires Block(lines, i, j, section, before) && Sectioned(lines[..i], before)
    ensures Sectioned(lines, before + [section])
  {
    hide Opens, Plain, Join, Strip, Blank;
    SnocParts(before, section);
  }

  lemma AtEnds(init: seq<string>, line: string, s: Scan, t: Scan)
    requires At(init, s) && ScanLine(s, line) == Some(t) && Strip(line) == SECTION_END
    ensures At(init + [line], t)
  {
    hide Strip, Opens, ScanLine, Join, Plain;
    LineDoes(s, line);
    var lines, j, name := init + [line], |init|, s.current.value;
    var i: nat :| OpenAt(init, i, name, s);
    assert lines[..i] == init[..i] && lines[i + 1..j] == init[i + 1..] && lines[j + 1..] == [];
    var last := (name, Strip(Join(s.body, '\n')));
    SectionedSnoc(lines, i, j, last, s.sections);
  }

  lemma AtGoesOn(init: seq<string>, line: string, s: Scan, t: Scan)
    requires At(init, s) && ScanLine(s, line) == Some(t) && !SectionMarked(line) && !t.outside
    ensures At(init + [line], t)
  {
    hide Strip, Opens, ScanLine, Sectioned, SectionMarked, Blank;
    LineDoes(s, line);
    var lines := init + [line];
    if s.current.Some? {
      var name := s.current.value;
      var i: nat :| OpenAt(init, i, name, s);
      assert lines[..i] == init[..i] && lines[i + 1..] == init[i + 1..] + [line];
      assert OpenAt(lines, i, name, t);
    } else {
      BlankAfter(init, line, s.sections);
    }
  }

  lemma OutsideStays(s: Scan, line: string)
    requires ScanLine(s, line).Some? && s.outside
    ensures ScanLine(s, line).value.outside
  {
    hide Strip, SectionName, Join;
  }

  lemma {:induction false} ScanAt(lines: seq<string>)
    requires ScanLines(NOTHING_READ, lines).Some? && !ScanLines(NOTHING_READ, lines).value.outside
    ensures At(lines, ScanLines(NOTHING_READ, lines).value)
  {
    hide ScanLine, At, SectionMarked;
    if lines == [] {
      NothingAt();
    } else {
      var init, line := lines[..|lines| - 1], lines[|lines| - 1];
      var s, t := ScanLines(NOTHING_READ, init).value, ScanLines(NOTHING_READ, lines).value;
      if s.outside {
        OutsideStays(s, line);
      }
      ScanAt(init);
      assert lines == init + [line];
      LineDoes(s, line);
      if SectionName(Strip(line)).Some? {
        AtOpens(init, line, s, t);
      } else if Strip(line) == SECTION_END {
        AtEnds(init, line, s, t);
      } else {
        AtGoesOn(init, line, s, t);
      }
    }
  }

  lemma NothingAt()
    ensures At([], NOTHING_READ)
  {
  }

  /** A file without sections has no line that looks like a marker. */
  lemma {:induction false} ScanPlain(lines: seq<string>)
    requires ScanLines(NOTHING_READ, lines).Some?
    ensures var s := ScanLines(NOTHING_READ, lines).value; s.sections == [] && s.current == None ==> Plain(lines)
  {
    hide ScanLine, SectionMarked;
    if lines != [] {
      var init, line := lines[..|lines| - 1], lines[|lines| - 1];
      ScanPlain(init);
      LineDoes(ScanLines(NOTHING_READ, init).value, line);
      assert lines == init + [line];
    }
  }

  /** Sections are read exactly when the lines are laid out as them. */
  lemma SectionsLaid(template: string, sections: seq<(string, string)>)
    ensures Sections(template) == Some(sections) <==> Laid(Split(template, '\n'), sections)
  {
    hide ScanLines, Sectioned, Plain, Split;
    var lines := Split(template, '\n');
    if Laid(lines, sections) {
      if sections == [] {
        ScanOutside(NOTHING_READ, lines);
      } else {
        SectionedScan(lines, sections);
      }
    }
    if Sections(template) == Some(sections) {
      if sections == [] {
        ScanPlain(lines);
      } else {
        ScanAt(lines);
      }
    }
  }

  // ----- what sections are read

  /** Names are distinct and safe, bodies trimmed and not empty. */
  ghost predicate ProperSections(sections: seq<(string, string)>) {
    && NoRepeats(Names(sections))
    && forall k :: 0 <= k < |sections| ==>
       Safe(sections[k].0) && sections[k].1 != "" && Strip(sections[k].1) == sections[k].1
  }

  ghost predicate ProperScan(s: Scan) {
    ProperSections(s.sections) && (s.current.Some? ==> Safe(s.current.value) && s.current.value !in Names(s.sections))
  }

  lemma LineProper(s: Scan, line: string)
    requires ProperScan(s) && ScanLine(s, line).Some?
    ensures ProperScan(ScanLine(s, line).value)
  {
    hide Strip, Safe, Join;
    StripStripped(Join(s.body, '\n'));
    SafeName(Strip(line));
    hide SectionName;
    var t := ScanLine(s, line).value;
    if t.sections != s.sections {
      assert Names(t.sections) == Names(s.sections) + [s.current.value];
    }
  }

  lemma SafeName(stripped: string)
    ensures SectionName(stripped).Some? ==> Safe(SectionName(stripped).value)
  {
  }

  lemma {:induction false} ScanProper(lines: seq<string>)
    ensures ScanLines(NOTHING_READ, lines).Some? ==> ProperScan(ScanLines(NOTHING_READ, lines).value)
  {
    hide ScanLine, Safe, Strip;
    if lines != [] {
      var init := lines[..|lines| - 1];
      ScanProper(init);
      var before := ScanLines(NOTHING_READ, init);
      if before.Some? && ScanLine(before.value, lines[|lines| - 1]).Some? {
        LineProper(before.value, lines[|lines| - 1]);
      }
    }
  }
}
