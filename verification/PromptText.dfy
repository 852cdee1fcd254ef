/** Texts as lines, trimming, and names as prompt files use them. */
module PromptText {
  import opened Prelude

  // ----- lines

  function Split(s: string, sep: char): (r: seq<string>)
    ensures |r| >= 1
  {
    if s == "" then [""]
    else
      var rest, c := Split(s[..|s| - 1], sep), s[|s| - 1];
      if c == sep then rest + [""] else rest[..|rest| - 1] + [rest[|rest| - 1] + [c]]
  }

  function Join(parts: seq<string>, sep: char): string {
    if parts == [] then ""
    else if |parts| == 1 then parts[0]
    else Join(parts[..|parts| - 1], sep) + [sep] + parts[|parts| - 1]
  }

  lemma {:induction false} SplitOne(s: string, sep: char)
    requires sep !in s
    ensures Split(s, sep) == [s]
  {
    if s != "" {
      var init, c := s[..|s| - 1], s[|s| - 1];
      assert s == init + [c];
      SplitOne(init, sep);
    }
  }

  lemma {:induction false} SplitSnoc(a: string, b: string, sep: char)
    requires sep !in b
    ensures Split(a + [sep] + b, sep) == Split(a, sep) + [b]
    decreases |b|
  {
    var s := a + [sep] + b;
    if b == "" {
      assert s[..|s| - 1] == a;
    } else {
      var init, c := b[..|b| - 1], b[|b| - 1];
      assert b == init + [c] && s[..|s| - 1] == a + [sep] + init;
      SplitSnoc(a, init, sep);
    }
  }

  lemma {:induction false} SplitJoin(parts: seq<string>, sep: char)
    requires parts != [] && forall k :: 0 <= k < |parts| ==> sep !in parts[k]
    ensures Split(Join(parts, sep), sep) == parts
  {
    hide Split;
    if |parts| == 1 {
      SplitOne(parts[0], sep);
    } else {
      var init, last := parts[..|parts| - 1], parts[|parts| - 1];
      assert Join(parts, sep) == Join(init, sep) + [sep] + last;
      hide Join;
      SplitJoin(init, sep);
      SplitSnoc(Join(init, sep), last, sep);
    }
  }

  lemma {:induction false} JoinSplit(s: string, sep: char)
    ensures Join(Split(s, sep), sep) == s
    ensures forall k :: 0 <= k < |Split(s, sep)| ==> sep !in Split(s, sep)[k]
  {
    if s != "" {
      var init, c := s[..|s| - 1], s[|s| - 1];
      JoinSplit(init, sep);
      var rest, parts := Split(init, sep), Split(s, sep);
      assert s == init + [c];
      if c == sep {
        assert parts[..|parts| - 1] == rest;
      } else {
        assert parts[..|parts| - 1] == rest[..|rest| - 1];
        if |rest| > 1 {
          assert Join(parts, sep) == Join(rest[..|rest| - 1], sep) + [sep] + (rest[|rest| - 1] + [c]);
        }
      }
    }
  }

  /** Every character is a separator or of a part. */
  lemma {:induction false} SplitChars(s: string, sep: char, k: nat)
    requires k < |s| && s[k] != sep
    ensures exists part :: part in Split(s, sep) && s[k] in part
  {
    var init, c := s[..|s| - 1], s[|s| - 1];
    var rest, parts := Split(init, sep), Split(s, sep);
    if k == |s| - 1 {
      assert parts[|parts| - 1] in parts;
    } else {
      SplitChars(init, sep, k);
      var part :| part in rest && init[k] in part;
      var j :| 0 <= j < |rest| && rest[j] == part;
      assert part == parts[j] || parts[j] == part + [c];
      assert s[k] in parts[j];
    }
  }

  lemma {:induction false} JoinStarts(parts: seq<string>, sep: char)
    requires parts != []
    ensures parts[0] <= Join(parts, sep)
  {
    if |parts| > 1 {
      JoinStarts(parts[..|parts| - 1], sep);
    }
  }

  // ----- trimming

  lemma StripEnds(s: string)
    requires s != "" && !IsSpace(s[0]) && !IsSpace(s[|s| - 1])
    ensures Strip(s) == s
  {
  }

  lemma {:induction false} TrimRightLength(s: string)
    ensures TrimRight(s) <= s && (TrimRight(s) == s ==> s == "" || !IsSpace(s[|s| - 1]))
  {
    if s != "" && IsSpace(s[|s| - 1]) {
      TrimRightLength(s[..|s| - 1]);
    }
  }

  lemma {:induction false} TrimLeftLength(s: string)
    ensures |TrimLeft(s)| <= |s| && (|TrimLeft(s)| == |s| ==> s == "" || !IsSpace(s[0]))
  {
    if s != "" && IsSpace(s[0]) {
      TrimLeftLength(s[1..]);
    }
  }

  lemma StrippedEnds(s: string)
    requires s != "" && Strip(s) == s
    ensures !IsSpace(s[0]) && !IsSpace(s[|s| - 1]) && TrimLeft(s) == s
  {
    TrimLeftLength(s);
    TrimRightLength(TrimLeft(s));
    TrimRightLength(s);
  }

  lemma StripStarts(s: string)
    requires s != "" && !IsSpace(s[0])
    ensures Strip(s) != ""
  {
    StripHead(s);
  }

  lemma {:induction false} StripHead(s: string)
    requires s != "" && !IsSpace(s[0])
    ensures TrimRight(s) != ""
  {
    if IsSpace(s[|s| - 1]) {
      StripHead(s[..|s| - 1]);
    }
  }

  lemma {:induction false} TrimRightEnds(s: string)
    ensures TrimRight(s) == "" || !IsSpace(TrimRight(s)[|TrimRight(s)| - 1])
  {
    if s != "" && IsSpace(s[|s| - 1]) {
      TrimRightEnds(s[..|s| - 1]);
    }
  }

  lemma {:induction false} TrimLeftStarts(s: string)
    ensures TrimLeft(s) == "" || !IsSpace(TrimLeft(s)[0])
  {
    if s != "" && IsSpace(s[0]) {
      TrimLeftStarts(s[1..]);
    }
  }

  lemma StripStripped(s: string)
    ensures Strip(Strip(s)) == Strip(s)
  {
    var left, r := TrimLeft(s), Strip(s);
    TrimLeftStarts(s);
    TrimRightEnds(left);
    TrimRightLength(left);
    if r != "" {
      assert r[0] == left[0];
      StripEnds(r);
    }
  }

  ghost predicate Blank(line: string) {
    Strip(line) == ""
  }

  // ----- names

  const PROMPT_EXTENSION := ".prompt"

  predicate SafeChar(c: char) {
    'A' <= c <= 'Z' || 'a' <= c <= 'z' || '0' <= c <= '9' || c == '_' || c == '-'
  }

  predicate Safe(name: string) {
    name != "" && forall k :: 0 <= k < |name| ==> SafeChar(name[k])
  }

  predicate AllSafe(names: seq<string>) {
    forall k :: 0 <= k < |names| ==> Safe(names[k])
  }

  predicate EndsIn(s: string, end: string) {
    |end| <= |s| && s[|s| - |end|..] == end
  }

  function Normalized(name: string): Option<string> {
    var base := if EndsIn(name, PROMPT_EXTENSION) then name[..|name| - |PROMPT_EXTENSION|] else name;
    if forall part :: part in Split(base, '.') ==> Safe(part) then Some(base) else None
  }
}
