/**
 The value decoder behind the streaming reader: RFC 8259 sections 2 to 7, with the three extra
 constants the original's decoder accepts (NaN, Infinity, -Infinity).

 A decoder call looks at a text from an index and either fails or returns a value and the index just
 after it.  What the streaming reader needs is *locality*: whether a decode succeeds, and what it
 returns, depends only on the characters the value consumes.
 */
module Json {

  /** Decoded strings are sequences of code points, because an escape can name a lone surrogate. */
  type Str = seq<int>

  datatype Value =
    | Literal(name: string)
    | Number(raw: string)
    | Text(codes: Str)
    | Array(items: seq<Value>)
    | Object(members: seq<(Str, Value)>)

  datatype Scan<T> = Fail | Done(value: T, end: nat)

  // ----- character classes

  predicate IsWs(c: char) {
    c == ' ' || c == '\t' || c == '\n' || c == '\r'
  }

  predicate IsDigit(c: char) {
    '0' <= c <= '9'
  }

  function HexVal(c: char): (v: int)
    ensures -1 <= v < 16
  {
    if '0' <= c <= '9' then c as int - '0' as int
    else if 'a' <= c <= 'f' then c as int - 'a' as int + 10
    else if 'A' <= c <= 'F' then c as int - 'A' as int + 10
    else -1
  }

  function Codes(s: string): (r: Str)
    ensures |r| == |s| && forall k :: 0 <= k < |s| ==> r[k] == s[k] as int
  {
    seq(|s|, k requires 0 <= k < |s| => s[k] as int)
  }

  // ----- the scanners

  function SkipWs(s: string, i: nat): (r: nat)
    requires i <= |s|
    ensures i <= r <= |s|
    decreases |s| - i
  {
    if i < |s| && IsWs(s[i]) then SkipWs(s, i + 1) else i
  }

  function DigitsEnd(s: string, i: nat): (r: nat)
    requires i <= |s|
    ensures i <= r <= |s|
    decreases |s| - i
  {
    if i < |s| && IsDigit(s[i]) then DigitsEnd(s, i + 1) else i
  }

  /** The integer part of a number: an optional minus, then 0 or digits without a leading 0. */
  function IntEnd(s: string, i: nat): (r: Scan<()>)
    requires i <= |s|
    ensures r.Done? ==> i < r.end <= |s|
  {
    var d := if i < |s| && s[i] == '-' then i + 1 else i;
    if d < |s| && s[d] == '0' then Done((), d + 1)
    else if d < |s| && IsDigit(s[d]) then Done((), DigitsEnd(s, d + 1))
    else Fail
  }

  function FracEnd(s: string, i: nat): (r: nat)
    requires i <= |s|
    ensures i <= r <= |s|
  {
    if i + 1 < |s| && s[i] == '.' && IsDigit(s[i + 1]) then DigitsEnd(s, i + 2) else i
  }

  function ExpEnd(s: string, i: nat): (r: nat)
    requires i <= |s|
    ensures i <= r <= |s|
  {
    if i < |s| && (s[i] == 'e' || s[i] == 'E') then
      var d := if i + 1 < |s| && (s[i + 1] == '+' || s[i + 1] == '-') then i + 2 else i + 1;
      if d < |s| && IsDigit(s[d]) then DigitsEnd(s, d + 1) else i
    else i
  }

  /** The longest number at `i`, as the original's decoder matches it. */
  function NumberEnd(s: string, i: nat): (r: Scan<()>)
    requires i <= |s|
    ensures r.Done? ==> i < r.end <= |s|
  {
    var n := IntEnd(s, i);
    if n.Fail? then Fail else Done((), ExpEnd(s, FracEnd(s, n.end)))
  }

  /** The four hexadecimal digits of a \u escape. */
  function Hex4(s: string, i: nat): (r: Scan<int>)
    ensures r.Done? ==> r.end == i + 4 <= |s| && 0 <= r.value < 0x10000
  {
    if i + 4 <= |s| && HexVal(s[i]) >= 0 && HexVal(s[i + 1]) >= 0 && HexVal(s[i + 2]) >= 0 && HexVal(s[i + 3]) >= 0 then
      Done(HexVal(s[i]) * 4096 + HexVal(s[i + 1]) * 256 + HexVal(s[i + 2]) * 16 + HexVal(s[i + 3]), i + 4)
    else Fail
  }

  predicate Has(s: string, i: nat, word: string) {
    i + |word| <= |s| && forall k :: 0 <= k < |word| ==> s[i + k] == word[k]
  }

  predicate StartsUnicode(s: string, i: nat) {
    i + 1 < |s| && s[i] == '\\' && s[i + 1] == 'u'
  }

  predicate IsHigh(u: int) { 0xD800 <= u <= 0xDBFF }

  predicate IsLow(u: int) { 0xDC00 <= u <= 0xDFFF }

  /** A \u escape from its digits on; a high surrogate is joined with a following \u escape of a low one. */
  function UnicodeEscape(s: string, i: nat): (r: Scan<int>)
    requires i <= |s|
    ensures r.Done? ==> i < r.end <= |s|
  {
    var u := Hex4(s, i);
    if u.Fail? || !IsHigh(u.value) || !StartsUnicode(s, u.end) then u
    else
      var l := Hex4(s, u.end + 2);
      if l.Fail? then Fail
      else if IsLow(l.value) then Done(0x10000 + (u.value - 0xD800) * 1024 + (l.value - 0xDC00), l.end)
      else u
  }

  /** One escape sequence, `i` pointing just after the backslash. */
  function Escape(s: string, i: nat): (r: Scan<int>)
    requires i <= |s|
    ensures r.Done? ==> i < r.end <= |s|
  {
    if i == |s| then Fail
    else match s[i]
      case '"' => Done('"' as int, i + 1)
      case '\\' => Done('\\' as int, i + 1)
      case '/' => Done('/' as int, i + 1)
      case 'b' => Done(8, i + 1)
      case 'f' => Done(12, i + 1)
      case 'n' => Done(10, i + 1)
      case 'r' => Done(13, i + 1)
      case 't' => Done(9, i + 1)
      case 'u' => UnicodeEscape(s, i + 1)
      case _ => Fail
  }

  /** The rest of a string literal, `i` pointing inside it; control characters are rejected. */
  function StringRest(s: string, i: nat): (r: Scan<Str>)
    requires i <= |s|
    ensures r.Done? ==> i < r.end <= |s|
    decreases |s| - i
  {
    if i == |s| then Fail
    else if s[i] == '"' then Done([], i + 1)
    else if s[i] == '\\' then
      var e := Escape(s, i + 1);
      if e.Fail? then Fail
      else
        var rest := StringRest(s, e.end);
        if rest.Fail? then Fail else Done([e.value] + rest.value, rest.end)
    else if s[i] as int < 0x20 then Fail
    else
      var rest := StringRest(s, i + 1);
      if rest.Fail? then Fail else Done([s[i] as int] + rest.value, rest.end)
  }

  /** The one constant that starts with `c`, or "" if none does. */
  function WordFor(c: char): (word: string)
    ensures word != "" ==> word[0] == c && c !in ['"', '[', '{']
  {
    match c
    case 'n' => "null"
    case 't' => "true"
    case 'f' => "false"
    case 'N' => "NaN"
    case 'I' => "Infinity"
    case '-' => "-Infinity"
    case _ => ""
  }

  function LiteralAt(s: string, i: nat): (r: Scan<Value>)
    requires i < |s|
    ensures r.Done? ==> i < r.end <= |s| && r.value.Literal?
  {
    var word := WordFor(s[i]);
    if word != "" && Has(s, i, word) then Done(Literal(word), i + |word|) else Fail
  }

  // ----- the decoder

  function DecodeValue(s: string, i: nat): (r: Scan<Value>)
    requires i <= |s|
    ensures r.Done? ==> i < r.end <= |s|
    decreases |s| - i, 0
  {
    if i == |s| then Fail
    else if s[i] == '"' then
      var t := StringRest(s, i + 1);
      if t.Fail? then Fail else Done(Text(t.value), t.end)
    else if s[i] == '[' then
      var es := ArrayRest(s, i + 1);
      if es.Fail? then Fail else Done(Array(es.value), es.end)
    else if s[i] == '{' then
      var ms := ObjectRest(s, i + 1);
      if ms.Fail? then Fail else Done(Object(ms.value), ms.end)
    else
      var n := NumberEnd(s, i);
      if n.Done? then Done(Number(s[i..n.end]), n.end) else LiteralAt(s, i)
  }

  function ArrayRest(s: string, i: nat): (r: Scan<seq<Value>>)
    requires i <= |s|
    ensures r.Done? ==> i < r.end <= |s|
    decreases |s| - i, 2
  {
    var j := SkipWs(s, i);
    if j < |s| && s[j] == ']' then Done([], j + 1) else DecodeElements(s, j)
  }

  function ObjectRest(s: string, i: nat): (r: Scan<seq<(Str, Value)>>)
    requires i <= |s|
    ensures r.Done? ==> i < r.end <= |s|
    decreases |s| - i, 2
  {
    var j := SkipWs(s, i);
    if j < |s| && s[j] == '}' then Done([], j + 1) else DecodeMembers(s, j)
  }

  function DecodeElements(s: string, i: nat): (r: Scan<seq<Value>>)
    requires i <= |s|
    ensures r.Done? ==> i < r.end <= |s|
    decreases |s| - i, 1
  {
    var v := DecodeValue(s, i);
    if v.Fail? then Fail
    else
      var rest := MoreElements(s, v.end);
      if rest.Fail? then Fail else Done([v.value] + rest.value, rest.end)
  }

  /** What follows an array element: the closing bracket, or a comma and more elements. */
  function MoreElements(s: string, i: nat): (r: Scan<seq<Value>>)
    requires i <= |s|
    ensures r.Done? ==> i < r.end <= |s|
    decreases |s| - i, 3
  {
    var j := SkipWs(s, i);
    if j < |s| && s[j] == ']' then Done([], j + 1)
    else if j < |s| && s[j] == ',' then DecodeElements(s, SkipWs(s, j + 1))
    else Fail
  }

  /** A member name with its colon; the result ends where the member's value starts. */
  function MemberName(s: string, i: nat): (r: Scan<Str>)
    requires i <= |s|
    ensures r.Done? ==> i < r.end <= |s|
  {
    if i == |s| || s[i] != '"' then Fail
    else
      var key := StringRest(s, i + 1);
      if key.Fail? then Fail
      else
        var c := SkipWs(s, key.end);
        if c == |s| || s[c] != ':' then Fail else Done(key.value, SkipWs(s, c + 1))
  }

  function DecodeMembers(s: string, i: nat): (r: Scan<seq<(Str, Value)>>)
    requires i <= |s|
    ensures r.Done? ==> i < r.end <= |s|
    decreases |s| - i, 1
  {
    var name := MemberName(s, i);
    if name.Fail? then Fail
    else
      var v := DecodeValue(s, name.end);
      if v.Fail? then Fail
      else
        var rest := MoreMembers(s, v.end);
        if rest.Fail? then Fail else Done([(name.value, v.value)] + rest.value, rest.end)
  }

  function MoreMembers(s: string, i: nat): (r: Scan<seq<(Str, Value)>>)
    requires i <= |s|
    ensures r.Done? ==> i < r.end <= |s|
    decreases |s| - i, 3
  {
    var j := SkipWs(s, i);
    if j < |s| && s[j] == '}' then Done([], j + 1)
    else if j < |s| && s[j] == ',' then DecodeMembers(s, SkipWs(s, j + 1))
    else Fail
  }

  // ----- locality

  /** The two texts show the same characters from `lo` up to `hi`. */
  ghost predicate Same(s: string, t: string, lo: nat, hi: nat) {
    lo <= hi <= |s| && hi <= |t| && forall k :: lo <= k < hi ==> s[k] == t[k]
  }

  /** The character at `i` (if any) cannot continue a number. */
  predicate StopsNumber(t: string, i: nat) {
    i < |t| ==> !IsDigit(t[i]) && t[i] != '.' && t[i] != 'e' && t[i] != 'E'
  }

  lemma {:induction false} SkipWsLocal(s: string, t: string, i: nat, hi: nat)
    requires i < hi && Same(s, t, i, hi) && SkipWs(s, i) < hi
    ensures SkipWs(t, i) == SkipWs(s, i)
    decreases |s| - i
  {
    if IsWs(s[i]) {
      SkipWsLocal(s, t, i + 1, hi);
    }
  }

  lemma {:induction false} DigitsLocal(s: string, t: string, i: nat)
    requires i <= |s| && Same(s, t, i, DigitsEnd(s, i))
    requires var e := DigitsEnd(s, i); e < |t| ==> !IsDigit(t[e])
    ensures DigitsEnd(t, i) == DigitsEnd(s, i)
    decreases |s| - i
  {
    if i < |s| && IsDigit(s[i]) {
      DigitsLocal(s, t, i + 1);
    }
  }

  lemma IntLocal(s: string, t: string, i: nat)
    requires i <= |s| && IntEnd(s, i).Done? && Same(s, t, i, IntEnd(s, i).end)
    requires var e := IntEnd(s, i).end; e < |t| ==> !IsDigit(t[e])
    ensures IntEnd(t, i) == Done((), IntEnd(s, i).end)
  {
    var m := if s[i] == '-' then i + 1 else i;
    if s[m] != '0' {
      DigitsLocal(s, t, m + 1);
    }
  }

  lemma FracLocal(s: string, t: string, i: nat)
    requires i <= |s| && Same(s, t, i, FracEnd(s, i))
    requires var e := FracEnd(s, i); e < |t| ==> !IsDigit(t[e]) && t[e] != '.'
    ensures FracEnd(t, i) == FracEnd(s, i)
  {
    if i < FracEnd(s, i) {
      DigitsLocal(s, t, i + 2);
    }
  }

  lemma ExpLocal(s: string, t: string, i: nat)
    requires i <= |s| && Same(s, t, i, ExpEnd(s, i))
    requires StopsNumber(t, ExpEnd(s, i))
    ensures ExpEnd(t, i) == ExpEnd(s, i)
  {
    if i < ExpEnd(s, i) {
      var m := if s[i + 1] == '+' || s[i + 1] == '-' then i + 2 else i + 1;
      DigitsLocal(s, t, m + 1);
    }
  }

  lemma NumberLocal(s: string, t: string, i: nat)
    requires i <= |s| && NumberEnd(s, i).Done?
    requires Same(s, t, i, NumberEnd(s, i).end)
    requires StopsNumber(t, NumberEnd(s, i).end)
    ensures NumberEnd(t, i) == Done((), NumberEnd(s, i).end)
  {
    var a := IntEnd(s, i).end;
    var b := FracEnd(s, a);
    if a < b {
      assert s[a] == '.';
    }
    if b < ExpEnd(s, b) {
      assert s[b] == 'e' || s[b] == 'E';
    }
    IntLocal(s, t, i);
    FracLocal(s, t, a);
    ExpLocal(s, t, b);
  }

  lemma Hex4Local(s: string, t: string, i: nat)
    requires Hex4(s, i).Done? && Same(s, t, i, i + 4)
    ensures Hex4(t, i) == Done(Hex4(s, i).value, i + 4)
  {
  }

  lemma UnicodeEscapeLocal(s: string, t: string, i: nat, hi: nat)
    requires i <= |s| && UnicodeEscape(s, i).Done? && UnicodeEscape(s, i).end <= hi
    requires Same(s, t, i, hi)
    requires var e := UnicodeEscape(s, i).end;
             e < hi && (StartsUnicode(s, e) ==> e + 6 <= hi) && (s[e] == '\\' ==> e + 1 < hi)
    ensures UnicodeEscape(t, i) == Done(UnicodeEscape(s, i).value, UnicodeEscape(s, i).end)
  {
    Hex4Local(s, t, i);
    var u := Hex4(s, i);
    if IsHigh(u.value) && StartsUnicode(s, u.end) {
      Hex4Local(s, t, u.end + 2);
    }
  }

  /** An escape inside a complete literal: what follows it (perhaps a second \u escape) lies in the literal too. */
  lemma EscapeLocal(s: string, t: string, i: nat)
    requires i <= |s| && Escape(s, i).Done?
    requires StringRest(s, Escape(s, i).end).Done?
    requires Same(s, t, i, StringRest(s, Escape(s, i).end).end)
    ensures Escape(t, i) == Done(Escape(s, i).value, Escape(s, i).end)
  {
    assert s[i] == t[i];
    if s[i] == 'u' {
      RestStarts(s, Escape(s, i).end);
      hide StringRest, UnicodeEscape, Escape;
      EscapeUnicode(s, i);
      EscapeUnicode(t, i);
      UnicodeEscapeLocal(s, t, i + 1, StringRest(s, Escape(s, i).end).end);
    } else {
      hide StringRest, UnicodeEscape;
    }
  }

  lemma EscapeUnicode(s: string, i: nat)
    requires i < |s| && s[i] == 'u'
    ensures Escape(s, i) == UnicodeEscape(s, i + 1)
  {
    hide UnicodeEscape;
  }

  /** A literal that is complete goes on behind a backslash, and behind a second escape. */
  lemma RestStarts(s: string, e: nat)
    requires e <= |s| && StringRest(s, e).Done?
    ensures var hi := StringRest(s, e).end;
            e < hi <= |s| && (s[e] == '\\' ==> e + 1 < hi) && (StartsUnicode(s, e) ==> e + 6 <= hi)
  {
    hide Hex4;
  }

  lemma {:induction false} StringLocal(s: string, t: string, i: nat)
    requires i <= |s| && StringRest(s, i).Done?
    requires Same(s, t, i, StringRest(s, i).end)
    ensures StringRest(t, i) == Done(StringRest(s, i).value, StringRest(s, i).end)
    decreases |s| - i
  {
    if s[i] == '"' {
    } else if s[i] == '\\' {
      EscapeLocal(s, t, i + 1);
      StringLocal(s, t, Escape(s, i + 1).end);
    } else {
      StringLocal(s, t, i + 1);
    }
  }

  lemma LiteralLocal(s: string, t: string, i: nat)
    requires i < |s| && LiteralAt(s, i).Done? && NumberEnd(s, i).Fail?
    requires Same(s, t, i, LiteralAt(s, i).end)
    ensures LiteralAt(t, i) == Done(LiteralAt(s, i).value, LiteralAt(s, i).end)
    ensures NumberEnd(t, i).Fail?
  {
    var word := WordFor(s[i]);
    forall k | 0 <= k < |word| ensures t[i + k] == word[k] {
      assert s[i + k] == word[k];
    }
    assert s[i + 1] == word[1] == t[i + 1];
  }

  /** Locality: a value that decodes from `s` decodes alike from any text that shows the same characters there, unless
      it is a number that the other text continues. */
  lemma {:induction false} ValueLocal(s: string, t: string, i: nat)
    requires i <= |s| && DecodeValue(s, i).Done?
    requires Same(s, t, i, DecodeValue(s, i).end)
    requires DecodeValue(s, i).value.Number? ==> StopsNumber(t, DecodeValue(s, i).end)
    ensures DecodeValue(t, i) == Done(DecodeValue(s, i).value, DecodeValue(s, i).end)
    decreases |s| - i, 0
  {
    var e := DecodeValue(s, i).end;
    assert s[i] == t[i];
    if s[i] == '"' {
      StringLocal(s, t, i + 1);
    } else if s[i] == '[' {
      ArrayLocal(s, t, i + 1);
    } else if s[i] == '{' {
      ObjectLocal(s, t, i + 1);
    } else if NumberEnd(s, i).Done? {
      NumberLocal(s, t, i);
      assert s[i..e] == t[i..e];
    } else {
      LiteralLocal(s, t, i);
    }
  }

  lemma {:induction false} ArrayLocal(s: string, t: string, i: nat)
    requires i <= |s| && ArrayRest(s, i).Done?
    requires Same(s, t, i, ArrayRest(s, i).end)
    ensures ArrayRest(t, i) == Done(ArrayRest(s, i).value, ArrayRest(s, i).end)
    decreases |s| - i, 2
  {
    SkipWsLocal(s, t, i, ArrayRest(s, i).end);
    var j := SkipWs(s, i);
    if s[j] != ']' {
      ElementsLocal(s, t, j);
    }
  }

  lemma {:induction false} ObjectLocal(s: string, t: string, i: nat)
    requires i <= |s| && ObjectRest(s, i).Done?
    requires Same(s, t, i, ObjectRest(s, i).end)
    ensures ObjectRest(t, i) == Done(ObjectRest(s, i).value, ObjectRest(s, i).end)
    decreases |s| - i, 2
  {
    SkipWsLocal(s, t, i, ObjectRest(s, i).end);
    var j := SkipWs(s, i);
    if s[j] != '}' {
      MembersLocal(s, t, j);
    }
  }

  lemma {:induction false} ElementsLocal(s: string, t: string, i: nat)
    requires i <= |s| && DecodeElements(s, i).Done?
    requires Same(s, t, i, DecodeElements(s, i).end)
    ensures DecodeElements(t, i) == Done(DecodeElements(s, i).value, DecodeElements(s, i).end)
    decreases |s| - i, 1
  {
    var v := DecodeValue(s, i);
    assert StopsNumber(t, v.end) by { assert IsWs(s[v.end]) || s[v.end] == ']' || s[v.end] == ','; }
    ValueLocal(s, t, i);
    MoreElementsLocal(s, t, v.end);
  }

  lemma {:induction false} MoreElementsLocal(s: string, t: string, i: nat)
    requires i <= |s| && MoreElements(s, i).Done?
    requires Same(s, t, i, MoreElements(s, i).end)
    ensures MoreElements(t, i) == Done(MoreElements(s, i).value, MoreElements(s, i).end)
    decreases |s| - i, 3
  {
    var e := MoreElements(s, i).end;
    SkipWsLocal(s, t, i, e);
    var j := SkipWs(s, i);
    assert s[j] == t[j];
    if s[j] == ',' {
      SkipWsLocal(s, t, j + 1, e);
      ElementsLocal(s, t, SkipWs(s, j + 1));
    }
  }

  lemma MemberNameLocal(s: string, t: string, i: nat, hi: nat)
    requires i <= |s| && MemberName(s, i).Done? && MemberName(s, i).end < hi
    requires Same(s, t, i, hi)
    ensures MemberName(t, i) == Done(MemberName(s, i).value, MemberName(s, i).end)
  {
    StringLocal(s, t, i + 1);
    var key := StringRest(s, i + 1);
    SkipWsLocal(s, t, key.end, hi);
    SkipWsLocal(s, t, SkipWs(s, key.end) + 1, hi);
  }

  lemma {:induction false} MembersLocal(s: string, t: string, i: nat)
    requires i <= |s| && DecodeMembers(s, i).Done?
    requires Same(s, t, i, DecodeMembers(s, i).end)
    ensures DecodeMembers(t, i) == Done(DecodeMembers(s, i).value, DecodeMembers(s, i).end)
    decreases |s| - i, 1
  {
    var k := MemberName(s, i).end;
    var v := DecodeValue(s, k);
    MemberNameLocal(s, t, i, DecodeMembers(s, i).end);
    assert StopsNumber(t, v.end) by { assert IsWs(s[v.end]) || s[v.end] == '}' || s[v.end] == ','; }
    ValueLocal(s, t, k);
    MoreMembersLocal(s, t, v.end);
  }

  lemma {:induction false} MoreMembersLocal(s: string, t: string, i: nat)
    requires i <= |s| && MoreMembers(s, i).Done?
    requires Same(s, t, i, MoreMembers(s, i).end)
    ensures MoreMembers(t, i) == Done(MoreMembers(s, i).value, MoreMembers(s, i).end)
    decreases |s| - i, 3
  {
    var e := MoreMembers(s, i).end;
    SkipWsLocal(s, t, i, e);
    var j := SkipWs(s, i);
    assert s[j] == t[j];
    if s[j] == ',' {
      SkipWsLocal(s, t, j + 1, e);
      MembersLocal(s, t, SkipWs(s, j + 1));
    }
  }
}
