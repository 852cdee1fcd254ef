/**
 Which texts are values, after sections 2 to 7 of RFC 8259 (and NaN, Infinity and -Infinity, which the original's
 decoder takes too), and that the decoder reads a value exactly where such a text stands.
 */
module JsonGrammar {
  import opened Json
  import opened JsonNumber
  import opened JsonSpelling
  import opened Prelude
  import opened Seqs

  // ----- the grammar

  const WORDS := ["null", "true", "false", "NaN", "Infinity", "-Infinity"]

  predicate White(gap: string) {
    forall k :: 0 <= k < |gap| ==> gap[k] in " \t\n\r"
  }

  /** A string literal: the spelling of its codes between quotes. */
  ghost predicate TextIs(w: string, codes: Str) {
    exists pieces :: Spells(pieces, codes) && w == "\"" + (Flatten(pieces) + "\"")
  }

  /** The cells with commas between them. */
  function Joined(cells: seq<string>): string
    requires cells != []
  {
    if |cells| == 1 then cells[0] else cells[0] + ([','] + Joined(cells[1..]))
  }

  predicate Encloses(w: string, open: char, body: string, close: char) {
    w == [open] + (body + [close])
  }

  /** `w` is a spelling of `v`. */
  ghost predicate Spelled(w: string, v: Value)
    decreases v, 0
  {
    match v
    case Literal(name) => w == name && name in WORDS
    case Number(raw) => w == raw && IsNumber(raw)
    case Text(codes) => TextIs(w, codes)
    case Array(items) =>
      if items == [] then exists gap :: White(gap) && Encloses(w, '[', gap, ']')
      else exists cells: seq<string> ::
        && |cells| == |items|
        && (forall k :: 0 <= k < |items| ==> CellIs(cells[k], items[k]))
        && Encloses(w, '[', Joined(cells), ']')
    case Object(members) =>
      if members == [] then exists gap :: White(gap) && Encloses(w, '{', gap, '}')
      else exists cells: seq<string> ::
        && |cells| == |members|
        && (forall k :: 0 <= k < |members| ==> MemberIs(cells[k], members[k].0, members[k].1))
        && Encloses(w, '{', Joined(cells), '}')
  }

  /** A value with white space around it. */
  ghost predicate CellIs(cell: string, v: Value)
    decreases v, 1
  {
    exists a: nat, b: nat ::
      a <= b <= |cell| && White(cell[..a]) && Spelled(cell[a..b], v) && White(cell[b..])
  }

  /** A name, a colon and a value, with white space around all of them. */
  ghost predicate MemberIs(cell: string, name: Str, v: Value)
    decreases v, 2
  {
    exists a: nat, b: nat, c: nat :: NameIs(cell, name, a, b, c) && CellIs(cell[c + 1..], v)
  }

  ghost predicate NameIs(cell: string, name: Str, a: nat, b: nat, c: nat) {
    && a <= b <= c < |cell|
    && White(cell[..a]) && TextIs(cell[a..b], name) && White(cell[b..c]) && cell[c] == ':'
  }

  // ----- white space

  /** A part of a part. */
  lemma Inner(s: string, lo: nat, hi: nat, a: nat, b: nat)
    requires lo <= hi <= |s| && a <= b <= hi - lo
    ensures s[lo..hi][a..b] == s[lo + a..lo + b]
  {
    assert |s[lo..hi][a..b]| == |s[lo + a..lo + b]| == b - a;
    forall k | 0 <= k < b - a ensures s[lo..hi][a..b][k] == s[lo + a..lo + b][k] {
      assert s[lo..hi][a..b][k] == s[lo..hi][a + k] == s[lo + a + k];
    }
  }

  lemma {:induction false} WhiteSkipped(s: string, lo: nat, i: nat)
    requires lo <= i <= |s| && White(s[lo..i]) && (i < |s| ==> !IsWs(s[i]))
    ensures SkipWs(s, lo) == i
    decreases i - lo
  {
    if lo < i {
      assert s[lo..i][0] == s[lo] && s[lo..i][1..] == s[lo + 1..i];
      WhiteSkipped(s, lo + 1, i);
    }
  }

  lemma {:induction false} SkippedWhite(s: string, lo: nat)
    requires lo <= |s|
    ensures var i := SkipWs(s, lo); White(s[lo..i]) && (i < |s| ==> !IsWs(s[i]))
    decreases |s| - lo
  {
    if lo < |s| && IsWs(s[lo]) {
      SkippedWhite(s, lo + 1);
      assert s[lo..SkipWs(s, lo)] == [s[lo]] + s[lo + 1..SkipWs(s, lo)];
    }
  }

  // ----- what is spelled is read

  lemma WordRead(s: string, i: nat, name: string)
    requires name in WORDS && At(s, i, name)
    ensures i < |s| && s[i] !in "\"[{" && NumberEnd(s, i).Fail? && LiteralAt(s, i) == Done(Literal(name), i + |name|)
  {
    AtFirst(s, i, name);
    forall k | 0 <= k < |name| ensures s[i + k] == name[k] {
      assert s[i..i + |name|][k] == name[k];
    }
    assert s[i + 1] == name[1];
  }

  lemma TextRead(s: string, i: nat, e: nat, codes: Str)
    requires i <= e <= |s| && TextIs(s[i..e], codes)
    ensures i < |s| && s[i] == '"' && StringRest(s, i + 1) == Done(codes, e)
  {
    hide Spells, StringRest;
    var pieces :| Spells(pieces, codes) && s[i..e] == "\"" + (Flatten(pieces) + "\"");
    AtParts(s, i, "\"", Flatten(pieces) + "\"");
    AtFirst(s, i, "\"");
    SpelledReads(s, i + 1, pieces, codes);
  }

  /** What stands between values, in a value or in an export. */
  predicate Between(c: char) {
    IsSpace(c) || c == ',' || c == ':' || c == ']' || c == '}'
  }

  lemma Opens(w: string, v: Value)
    requires Spelled(w, v) && !v.Number? && !v.Literal?
    ensures w != "" && !Between(w[0])
  {
    hide Spells, CellIs, MemberIs, White, Joined;
  }

  lemma WordStart(w: string)
    requires w in WORDS
    ensures w != "" && !Between(w[0])
  {
  }

  lemma NumberStart(w: string)
    requires IsNumber(w)
    ensures w != "" && !Between(w[0])
  {
    NumberIs(w);
    NumberEnds(w, 0);
    hide IsNumber, NumberEnd;
  }

  /** A spelling never starts like white space or a separator. */
  lemma SpelledStart(w: string, v: Value)
    requires Spelled(w, v)
    ensures w != "" && !Between(w[0])
  {
    hide Between, TextIs, IsNumber, CellIs, MemberIs, White, Joined, Encloses;
    if v.Number? {
      NumberStart(w);
    } else if v.Literal? {
      WordStart(w);
    } else {
      Opens(w, v);
    }
  }

  lemma Enclosed(s: string, i: nat, e: nat, open: char, body: string, close: char)
    requires i <= e <= |s| && Encloses(s[i..e], open, body, close)
    ensures e >= i + 2 && s[i] == open && s[i + 1..e - 1] == body && s[e - 1] == close
  {
    var w := s[i..e];
    assert w[0] == s[i] && w[1..][..|body|] == body == s[i + 1..e - 1] && w[|w| - 1] == s[e - 1];
  }

  /** A spelled value is read as what it spells, at any place of any text; a number must not be continued there. */
  lemma {:induction false} SpelledDecodes(s: string, i: nat, e: nat, v: Value)
    requires i <= e <= |s| && Spelled(s[i..e], v)
    requires v.Number? ==> NumberEnd(s, i) == Done((), e)
    ensures DecodeValue(s, i) == Done(v, e)
    decreases v, 0
  {
    hide ArrayRest, ObjectRest, NumberEnd, LiteralAt, StringRest, TextIs, White, Joined, CellIs, MemberIs, Encloses;
    match v
    case Literal(name) =>
      WordRead(s, i, name);
    case Number(raw) =>
      NumberEnds(s, i);
    case Text(codes) =>
      TextRead(s, i, e, codes);
    case Array(items) =>
      ArrayRead(s, i, e, v, items);
    case Object(members) =>
      ObjectRead(s, i, e, v, members);
  }

  lemma {:induction false} ArrayRead(s: string, i: nat, e: nat, v: Value, items: seq<Value>)
    requires i <= e <= |s| && Spelled(s[i..e], v) && v == Array(items)
    ensures i < |s| && s[i] == '[' && ArrayRest(s, i + 1) == Done(items, e)
    decreases v, 0, |items| + 1
  {
    hide ArrayRest, DecodeElements, White, Joined, CellIs, MemberIs, Encloses;
    if items == [] {
      var gap :| White(gap) && Encloses(s[i..e], '[', gap, ']');
      Enclosed(s, i, e, '[', gap, ']');
      NothingRead(s, i + 1, e - 1);
    } else {
      var cells: seq<string> :| |cells| == |items| && (forall k :: 0 <= k < |items| ==> CellIs(cells[k], items[k]))
        && Encloses(s[i..e], '[', Joined(cells), ']');
      Enclosed(s, i, e, '[', Joined(cells), ']');
      ElementsRead(s, i + 1, e - 1, v, cells, items);
      ArrayStarts(s, i + 1);
    }
  }

  lemma {:induction false} ObjectRead(s: string, i: nat, e: nat, v: Value, members: seq<(Str, Value)>)
    requires i <= e <= |s| && Spelled(s[i..e], v) && v == Object(members)
    ensures i < |s| && s[i] == '{' && ObjectRest(s, i + 1) == Done(members, e)
    decreases v, 0, |members| + 1
  {
    hide ObjectRest, DecodeMembers, White, Joined, CellIs, MemberIs, Encloses;
    if members == [] {
      var gap :| White(gap) && Encloses(s[i..e], '{', gap, '}');
      Enclosed(s, i, e, '{', gap, '}');
      NothingRead(s, i + 1, e - 1);
    } else {
      var cells: seq<string> :| |cells| == |members|
        && (forall k :: 0 <= k < |members| ==> MemberIs(cells[k], members[k].0, members[k].1))
        && Encloses(s[i..e], '{', Joined(cells), '}');
      Enclosed(s, i, e, '{', Joined(cells), '}');
      MembersRead(s, i + 1, e - 1, v, cells, members);
      ObjectStarts(s, i + 1);
    }
  }

  lemma EnclosesAt(s: string, i: nat, e: nat)
    requires i + 2 <= e <= |s|
    ensures Encloses(s[i..e], s[i], s[i + 1..e - 1], s[e - 1])
  {
  }

  lemma NothingRead(s: string, lo: nat, e: nat)
    requires lo <= e < |s| && White(s[lo..e])
    ensures s[e] == ']' ==> ArrayRest(s, lo) == Done([], e + 1)
    ensures s[e] == '}' ==> ObjectRest(s, lo) == Done([], e + 1)
  {
    if s[e] in "]}" {
      WhiteSkipped(s, lo, e);
    }
  }

  lemma ArrayStarts(s: string, lo: nat)
    requires lo <= |s| && DecodeElements(s, SkipWs(s, lo)).Done?
    ensures ArrayRest(s, lo) == DecodeElements(s, SkipWs(s, lo))
  {
    hide DecodeValue;
    NoBracket(s, SkipWs(s, lo));
  }

  lemma NoBracket(s: string, j: nat)
    requires j <= |s| && DecodeValue(s, j).Done?
    ensures j < |s| && s[j] != ']'
  {
    NumberEnds(s, j);
    hide NumberEnd;
  }

  lemma ObjectStarts(s: string, lo: nat)
    requires lo <= |s| && DecodeMembers(s, SkipWs(s, lo)).Done?
    ensures ObjectRest(s, lo) == DecodeMembers(s, SkipWs(s, lo))
  {
  }

  /** A cell is read up to the separator behind it. */
  lemma {:induction false} CellRead(s: string, lo: nat, hi: nat, v: Value)
    requires lo <= hi < |s| && CellIs(s[lo..hi], v) && s[hi] in ",]}"
    ensures var d := DecodeValue(s, SkipWs(s, lo)); d.Done? && d.value == v && SkipWs(s, d.end) == hi
    decreases v, 1
  {
    hide Spelled, DecodeValue, NumberEnd, White, SkipWs;
    var cell := s[lo..hi];
    var a: nat, b: nat :| a <= b <= |cell| && White(cell[..a]) && Spelled(cell[a..b], v) && White(cell[b..]);
    Inner(s, lo, hi, 0, a);
    Inner(s, lo, hi, a, b);
    Inner(s, lo, hi, b, hi - lo);
    SpacesRead(s, lo, lo + a, lo + b, hi, v);
    if v.Number? {
      NumberStops(s, lo + a, lo + b, v, hi);
    }
    SpelledDecodes(s, lo + a, lo + b, v);
  }

  lemma SpacesRead(s: string, lo: nat, i: nat, e: nat, hi: nat, v: Value)
    requires lo <= i <= e <= hi < |s| && White(s[lo..i]) && Spelled(s[i..e], v) && White(s[e..hi]) && s[hi] in ",]}"
    ensures SkipWs(s, lo) == i && SkipWs(s, e) == hi
  {
    hide Spelled, White;
    SpelledStart(s[i..e], v);
    assert s[i] == s[i..e][0];
    WhiteSkipped(s, lo, i);
    WhiteSkipped(s, e, hi);
  }

  lemma NumberStops(s: string, i: nat, e: nat, v: Value, hi: nat)
    requires i <= e <= hi < |s| && v.Number? && Spelled(s[i..e], v) && White(s[e..hi]) && s[hi] in ",]}"
    ensures NumberEnd(s, i) == Done((), e)
  {
    assert s[e] == s[e..hi + 1][0];
    assert e < hi ==> s[e] == s[e..hi][0];
    hide NumberEnd, IsNumber;
    StoppedIsLongest(s, i, e);
    LongestIs(s, i, e);
  }

  lemma JoinedParts(s: string, lo: nat, e: nat, cells: seq<string>)
    requires lo <= e <= |s| && cells != [] && s[lo..e] == Joined(cells)
    ensures var hi := lo + |cells[0]|;
            if |cells| == 1 then hi == e && s[lo..e] == cells[0]
            else hi < e && s[lo..hi] == cells[0] && s[hi] == ',' && s[hi + 1..e] == Joined(cells[1..])
  {
    var hi, w := lo + |cells[0]|, s[lo..e];
    if |cells| > 1 {
      assert w[..|cells[0]|] == cells[0] && w[|cells[0]|] == ',' && w[|cells[0]| + 1..] == Joined(cells[1..]);
      assert s[lo..hi] == w[..|cells[0]|] && s[hi] == w[|cells[0]|] && s[hi + 1..e] == w[|cells[0]| + 1..];
    }
  }

  lemma {:induction false} ElementsRead(s: string, lo: nat, e: nat, parent: Value, cells: seq<string>,
                                        items: seq<Value>)
    requires lo <= e < |s| && s[e] == ']' && cells != [] && s[lo..e] == Joined(cells) && |cells| == |items|
    requires forall k :: 0 <= k < |items| ==> items[k] < parent && CellIs(cells[k], items[k])
    ensures DecodeElements(s, SkipWs(s, lo)) == Done(items, e + 1)
    decreases parent, 0, |items|
  {
    hide CellIs, DecodeValue, SkipWs, Joined;
    JoinedParts(s, lo, e, cells);
    var hi := lo + |cells[0]|;
    CellRead(s, lo, hi, items[0]);
    assert items == [items[0]] + items[1..];
    if |cells| > 1 {
      ElementsRead(s, hi + 1, e, parent, cells[1..], items[1..]);
    }
  }

  lemma NameRead(s: string, lo: nat, hi: nat, name: Str, a: nat, b: nat, c: nat)
    requires lo <= hi <= |s| && NameIs(s[lo..hi], name, a, b, c)
    ensures MemberName(s, SkipWs(s, lo)) == Done(name, SkipWs(s, lo + c + 1))
    ensures s[lo + c + 1..hi] == s[lo..hi][c + 1..]
  {
    hide TextIs, StringRest, White;
    Inner(s, lo, hi, 0, a);
    Inner(s, lo, hi, a, b);
    Inner(s, lo, hi, b, c);
    TextRead(s, lo + a, lo + b, name);
    WhiteSkipped(s, lo, lo + a);
    WhiteSkipped(s, lo + b, lo + c);
  }

  lemma MemberRead(s: string, lo: nat, hi: nat, name: Str, v: Value)
    requires lo <= hi < |s| && MemberIs(s[lo..hi], name, v) && s[hi] in ",]}"
    ensures var n := MemberName(s, SkipWs(s, lo));
            && n.Done? && n.value == name
            && var d := DecodeValue(s, n.end); d.Done? && d.value == v && SkipWs(s, d.end) == hi
    decreases v, 2
  {
    hide TextIs, White, CellIs, MemberName, DecodeValue, SkipWs;
    var cell := s[lo..hi];
    var a: nat, b: nat, c: nat :| NameIs(cell, name, a, b, c) && CellIs(cell[c + 1..], v);
    hide NameIs;
    NameRead(s, lo, hi, name, a, b, c);
    CellRead(s, lo + c + 1, hi, v);
  }

  lemma {:induction false} MembersRead(s: string, lo: nat, e: nat, parent: Value, cells: seq<string>,
                                       members: seq<(Str, Value)>)
    requires lo <= e < |s| && s[e] == '}' && cells != [] && s[lo..e] == Joined(cells) && |cells| == |members|
    requires forall k :: 0 <= k < |members| ==>
               members[k].1 < parent && MemberIs(cells[k], members[k].0, members[k].1)
    ensures DecodeMembers(s, SkipWs(s, lo)) == Done(members, e + 1)
    decreases parent, 0, |members|
  {
    hide MemberIs, DecodeValue, MemberName, SkipWs, Joined;
    JoinedParts(s, lo, e, cells);
    var hi := lo + |cells[0]|;
    MemberRead(s, lo, hi, members[0].0, members[0].1);
    assert members == [members[0]] + members[1..];
    if |cells| > 1 {
      MembersRead(s, hi + 1, e, parent, cells[1..], members[1..]);
    }
  }

  // ----- what is read is spelled

  lemma TextSpelled(s: string, i: nat)
    requires i < |s| && s[i] == '"' && StringRest(s, i + 1).Done?
    ensures TextIs(s[i..StringRest(s, i + 1).end], StringRest(s, i + 1).value)
  {
    hide Spells;
    var pieces := LiteralSpelled(s, i + 1);
    assert s[i..StringRest(s, i + 1).end] == "\"" + (Flatten(pieces) + "\"");
  }

  lemma WordSpelled(s: string, i: nat)
    requires i < |s| && LiteralAt(s, i).Done?
    ensures var r := LiteralAt(s, i); s[i..r.end] == r.value.name && r.value.name in WORDS
  {
    var word := WordFor(s[i]);
    forall k | 0 <= k < |word| ensures s[i..i + |word|][k] == word[k] {
      assert s[i + k] == word[k];
    }
    assert s[i..i + |word|] == word;
    assert WORDS[0] == "null" && WORDS[1] == "true" && WORDS[2] == "false" && WORDS[3] == "NaN"
           && WORDS[4] == "Infinity" && WORDS[5] == "-Infinity";
  }

  /** Every value that is read is spelled by the characters it was read from. */
  lemma {:induction false} DecodedSpelled(s: string, i: nat)
    requires i <= |s| && DecodeValue(s, i).Done?
    ensures Spelled(s[i..DecodeValue(s, i).end], DecodeValue(s, i).value)
    decreases |s| - i, 0
  {
    hide NumberEnd, LiteralAt, StringRest, TextIs, Joined, CellIs, MemberIs, IsNumber;
    if s[i] == '"' {
      TextSpelled(s, i);
    } else if s[i] == '[' {
      ArraySpelled(s, i);
    } else if s[i] == '{' {
      ObjectSpelled(s, i);
    } else if NumberEnd(s, i).Done? {
      NumberTaken(s, i);
    } else {
      WordSpelled(s, i);
    }
  }

  lemma ArrayOf(w: string, items: seq<Value>, cells: seq<string>)
    requires items != [] && |cells| == |items| && Encloses(w, '[', Joined(cells), ']')
    requires forall k :: 0 <= k < |items| ==> CellIs(cells[k], items[k])
    ensures Spelled(w, Array(items))
  {
    hide CellIs, Joined, Encloses;
  }

  lemma ObjectOf(w: string, members: seq<(Str, Value)>, cells: seq<string>)
    requires members != [] && |cells| == |members| && Encloses(w, '{', Joined(cells), '}')
    requires forall k :: 0 <= k < |members| ==> MemberIs(cells[k], members[k].0, members[k].1)
    ensures Spelled(w, Object(members))
  {
    hide MemberIs, Joined, Encloses;
  }

  lemma {:induction false} ArraySpelled(s: string, i: nat)
    requires i < |s| && s[i] == '[' && ArrayRest(s, i + 1).Done?
    ensures Spelled(s[i..ArrayRest(s, i + 1).end], Array(ArrayRest(s, i + 1).value))
    decreases |s| - i - 1, 4
  {
    hide DecodeElements, Joined, CellIs, White, Encloses;
    var e := ArrayRest(s, i + 1).end;
    var j := SkipWs(s, i + 1);
    if s[j] == ']' {
      SkippedWhite(s, i + 1);
      EnclosesAt(s, i, e);
    } else {
      var cells := ElementsSpelled(s, i + 1);
      EnclosesAt(s, i, e);
      ArrayOf(s[i..e], ArrayRest(s, i + 1).value, cells);
    }
  }

  lemma {:induction false} ObjectSpelled(s: string, i: nat)
    requires i < |s| && s[i] == '{' && ObjectRest(s, i + 1).Done?
    ensures Spelled(s[i..ObjectRest(s, i + 1).end], Object(ObjectRest(s, i + 1).value))
    decreases |s| - i - 1, 4
  {
    hide DecodeMembers, Joined, MemberIs, White, Encloses;
    var e := ObjectRest(s, i + 1).end;
    var j := SkipWs(s, i + 1);
    if s[j] == '}' {
      SkippedWhite(s, i + 1);
      EnclosesAt(s, i, e);
    } else {
      var cells := MembersSpelled(s, i + 1);
      EnclosesAt(s, i, e);
      ObjectOf(s[i..e], ObjectRest(s, i + 1).value, cells);
    }
  }

  lemma {:induction false} CellSpelled(s: string, lo: nat)
    requires lo <= |s| && DecodeValue(s, SkipWs(s, lo)).Done?
    ensures var d := DecodeValue(s, SkipWs(s, lo)); CellIs(s[lo..SkipWs(s, d.end)], d.value)
    decreases |s| - lo, 1
  {
    hide DecodeValue, Spelled, White;
    var i := SkipWs(s, lo);
    var e := DecodeValue(s, i).end;
    DecodedEnds(s, i);
    var hi := SkipWs(s, e);
    SkippedWhite(s, lo);
    SkippedWhite(s, e);
    DecodedSpelled(s, i);
    Inner(s, lo, hi, 0, i - lo);
    Inner(s, lo, hi, i - lo, e - lo);
    Inner(s, lo, hi, e - lo, hi - lo);
  }

  lemma DecodedEnds(s: string, i: nat)
    requires i <= |s| && DecodeValue(s, i).Done?
    ensures i < DecodeValue(s, i).end <= |s|
  {
  }

  lemma JoinedOne(cell: string)
    ensures Joined([cell]) == cell
  {
  }

  lemma JoinedMore(s: string, lo: nat, hi: nat, e: nat, rest: seq<string>)
    requires lo <= hi < e <= |s| && s[hi] == ',' && rest != [] && s[hi + 1..e] == Joined(rest)
    ensures s[lo..e] == Joined([s[lo..hi]] + rest)
  {
    var cells := [s[lo..hi]] + rest;
    assert cells[1..] == rest;
    assert s[lo..e] == s[lo..hi] + ([','] + s[hi + 1..e]);
  }

  lemma {:induction false} ElementsSpelled(s: string, lo: nat) returns (cells: seq<string>)
    requires lo <= |s| && DecodeElements(s, SkipWs(s, lo)).Done?
    ensures var r := DecodeElements(s, SkipWs(s, lo));
            && cells != [] && |cells| == |r.value| && lo < r.end <= |s|
            && (forall k :: 0 <= k < |r.value| ==> CellIs(cells[k], r.value[k]))
            && s[lo..r.end - 1] == Joined(cells) && s[r.end - 1] == ']'
    decreases |s| - lo, 2
  {
    hide DecodeValue, CellIs, Joined;
    var d := DecodeValue(s, SkipWs(s, lo));
    DecodedEnds(s, SkipWs(s, lo));
    var hi := SkipWs(s, d.end);
    CellSpelled(s, lo);
    if s[hi] == ']' {
      cells := [s[lo..hi]];
      JoinedOne(s[lo..hi]);
    } else {
      var rest := ElementsSpelled(s, hi + 1);
      cells := [s[lo..hi]] + rest;
      JoinedMore(s, lo, hi, DecodeElements(s, SkipWs(s, lo)).end - 1, rest);
    }
  }

  lemma NameSpelled(s: string, lo: nat) returns (a: nat, b: nat, c: nat)
    requires lo <= |s| && MemberName(s, SkipWs(s, lo)).Done?
    ensures var n := MemberName(s, SkipWs(s, lo));
            && n.end <= |s| && lo + c < n.end && n.end == SkipWs(s, lo + c + 1)
            && forall hi :: lo + c < hi <= |s| ==> NameIs(s[lo..hi], n.value, a, b, c)
  {
    hide StringRest, TextIs, White;
    var i := SkipWs(s, lo);
    var key := StringRest(s, i + 1);
    var j := SkipWs(s, key.end);
    a, b, c := i - lo, key.end - lo, j - lo;
    SkippedWhite(s, lo);
    SkippedWhite(s, key.end);
    TextSpelled(s, i);
    forall hi | lo + c < hi <= |s| ensures NameIs(s[lo..hi], key.value, a, b, c) {
      Inner(s, lo, hi, 0, a);
      Inner(s, lo, hi, a, b);
      Inner(s, lo, hi, b, c);
    }
  }

  lemma {:induction false} MemberSpelled(s: string, lo: nat)
    requires lo <= |s| && MemberName(s, SkipWs(s, lo)).Done?
    requires DecodeValue(s, MemberName(s, SkipWs(s, lo)).end).Done?
    ensures var n := MemberName(s, SkipWs(s, lo)); var d := DecodeValue(s, n.end);
            lo < n.end < d.end <= |s| && MemberIs(s[lo..SkipWs(s, d.end)], n.value, d.value)
    decreases |s| - lo, 2
  {
    hide DecodeValue, MemberName, NameIs, CellIs, SkipWs;
    var n := MemberName(s, SkipWs(s, lo));
    var a, b, c := NameSpelled(s, lo);
    DecodedEnds(s, n.end);
    CellSpelled(s, lo + c + 1);
    var hi := SkipWs(s, DecodeValue(s, n.end).end);
    assert NameIs(s[lo..hi], n.value, a, b, c);
    assert s[lo..hi][c + 1..] == s[lo + c + 1..hi];
  }

  lemma {:induction false} MembersSpelled(s: string, lo: nat) returns (cells: seq<string>)
    requires lo <= |s| && DecodeMembers(s, SkipWs(s, lo)).Done?
    ensures var r := DecodeMembers(s, SkipWs(s, lo));
            && cells != [] && |cells| == |r.value| && lo < r.end <= |s|
            && (forall k :: 0 <= k < |r.value| ==> MemberIs(cells[k], r.value[k].0, r.value[k].1))
            && s[lo..r.end - 1] == Joined(cells) && s[r.end - 1] == '}'
    decreases |s| - lo, 3
  {
    hide DecodeValue, MemberName, MemberIs, Joined;
    var n := MemberName(s, SkipWs(s, lo));
    MemberSpelled(s, lo);
    var hi := SkipWs(s, DecodeValue(s, n.end).end);
    if s[hi] == '}' {
      cells := [s[lo..hi]];
      JoinedOne(s[lo..hi]);
    } else {
      var rest := MembersSpelled(s, hi + 1);
      cells := [s[lo..hi]] + rest;
      JoinedMore(s, lo, hi, DecodeMembers(s, SkipWs(s, lo)).end - 1, rest);
    }
  }

  /** The decoder reads a value exactly where a spelling of it stands, a number as long as the text goes on with one. */
  lemma DecodesIs(s: string, i: nat, v: Value, e: nat)
    requires i <= e <= |s|
    ensures DecodeValue(s, i) == Done(v, e) <==> Spelled(s[i..e], v) && (v.Number? ==> Longest(s, i, e))
  {
    hide DecodeValue, Spelled, IsNumber;
    if DecodeValue(s, i) == Done(v, e) {
      DecodedSpelled(s, i);
      NumberDecoded(s, i);
    }
    LongestIs(s, i, e);
    if Spelled(s[i..e], v) && (v.Number? ==> Longest(s, i, e)) {
      SpelledDecodes(s, i, e, v);
    }
  }

  lemma NumberDecoded(s: string, i: nat)
    requires i <= |s|
    ensures DecodeValue(s, i).Done? && DecodeValue(s, i).value.Number? ==>
              NumberEnd(s, i) == Done((), DecodeValue(s, i).end)
  {
  }
}
