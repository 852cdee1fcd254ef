/**
 How strings and numbers are spelled, after sections 6 and 7 of RFC 8259, and that the decoder reads exactly what is
 spelled so.
 */
module JsonSpelling {
  import opened Json
  import opened Seqs

  // ----- strings

  const LOWER := "0123456789abcdef"
  const UPPER := "0123456789ABCDEF"

  ghost predicate DigitIs(c: char, d: int) {
    0 <= d < 16 && (c == LOWER[d] || c == UPPER[d])
  }

  /** A backslash, the letter u, and four hexadecimal digits of either case. */
  ghost predicate UnitIs(text: string, code: int) {
    |text| == 6 && text[0] == '\\' && text[1] == 'u' &&
    exists a, b, c, d ::
      DigitIs(text[2], a) && DigitIs(text[3], b) && DigitIs(text[4], c) && DigitIs(text[5], d)
      && code == 0x1000 * a + 0x100 * b + 0x10 * c + d
  }

  predicate High(code: int) { 0xD800 <= code < 0xDC00 }

  predicate Low(code: int) { 0xDC00 <= code < 0xE000 }

  /** The eight short escapes and what they stand for. */
  const SHORT: map<string, int> :=
    map["\\\"" := 0x22, "\\\\" := 0x5C, "\\/" := 0x2F, "\\b" := 0x08, "\\f" := 0x0C, "\\n" := 0x0A, "\\r" := 0x0D,
        "\\t" := 0x09]

  /** A character as it is, neither a quote nor a backslash nor a control character. */
  ghost predicate PlainIs(text: string, code: int) {
    |text| == 1 && text[0] != '"' && text[0] != '\\' && text[0] as int >= 0x20 && code == text[0] as int
  }

  /** A pair of escapes for a code above 0xFFFF. */
  ghost predicate PairIs(text: string, code: int) {
    |text| == 12 && exists high, low ::
      UnitIs(text[..6], high) && UnitIs(text[6..], low) && High(high) && Low(low)
      && code == 0x10000 + (high - 0xD800) * 0x400 + (low - 0xDC00)
  }

  /** One spelling of one code. */
  ghost predicate PieceIs(text: string, code: int) {
    PlainIs(text, code) || (text in SHORT && SHORT[text] == code) || UnitIs(text, code) || PairIs(text, code)
  }

  /** The codes are spelled piece by piece; an escaped high surrogate directly before an escaped low one would be one
      code. */
  ghost predicate Spells(pieces: seq<string>, codes: Str) {
    && |pieces| == |codes|
    && (forall k :: 0 <= k < |codes| ==> PieceIs(pieces[k], codes[k]))
    && (forall k :: 0 <= k < |codes| - 1 ==> !(High(codes[k]) && Low(codes[k + 1])))
  }

  // ----- places in a text

  /** `w` stands in `text` at `i`. */
  ghost predicate At(text: string, i: nat, w: string) {
    i + |w| <= |text| && text[i..i + |w|] == w
  }

  lemma AtParts(text: string, i: nat, a: string, b: string)
    requires At(text, i, a + b)
    ensures At(text, i, a) && At(text, i + |a|, b)
  {
    var w := text[i..i + |a + b|];
    assert text[i..i + |a|] == w[..|a|];
    assert text[i + |a|..i + |a| + |b|] == w[|a|..];
  }

  lemma AtFirst(text: string, i: nat, w: string)
    requires At(text, i, w) && w != ""
    ensures i < |text| && text[i] == w[0]
  {
    assert text[i] == text[i..i + |w|][0];
  }

  // ----- one code

  lemma DigitVal(c: char, d: int)
    ensures DigitIs(c, d) <==> HexVal(c) == d >= 0
  {
    if 0 <= d < 16 {
      DigitChars(d);
    }
  }

  lemma DigitChars(d: int)
    requires 0 <= d < 16
    ensures LOWER[d] == (if d < 10 then '0' as int + d else 'a' as int + (d - 10)) as char
    ensures UPPER[d] == (if d < 10 then '0' as int + d else 'A' as int + (d - 10)) as char
  {
    assert d == 0 || d == 1 || d == 2 || d == 3 || d == 4 || d == 5 || d == 6 || d == 7 || d == 8 || d == 9 || d == 10
           || d == 11 || d == 12 || d == 13 || d == 14 || d == 15;
  }

  /** Four digits behind \u. */
  lemma UnitReads(s: string, i: nat, v: int)
    requires i + 6 <= |s| && s[i] == '\\' && s[i + 1] == 'u'
    ensures UnitIs(s[i..i + 6], v) <==> Hex4(s, i + 2) == Done(v, i + 6)
  {
    var w := s[i..i + 6];
    assert w[0] == s[i] && w[1] == s[i + 1] && w[2] == s[i + 2] && w[3] == s[i + 3] && w[4] == s[i + 4]
           && w[5] == s[i + 5];
    forall k, d | 2 <= k < 6 ensures DigitIs(w[k], d) <==> HexVal(w[k]) == d >= 0 {
      DigitVal(w[k], d);
    }
    hide HexVal, DigitIs;
    if Hex4(s, i + 2) == Done(v, i + 6) {
      var a, b, c, d := HexVal(w[2]), HexVal(w[3]), HexVal(w[4]), HexVal(w[5]);
      assert DigitIs(w[2], a) && DigitIs(w[3], b) && DigitIs(w[4], c) && DigitIs(w[5], d);
    }
  }

  /** A spelled unit is read as such, whatever follows. */
  lemma UnitAt(s: string, i: nat, v: int)
    requires i + 6 <= |s| && UnitIs(s[i..i + 6], v)
    ensures s[i] == '\\' && s[i + 1] == 'u' && Hex4(s, i + 2) == Done(v, i + 6) && StartsUnicode(s, i)
  {
    var w := s[i..i + 6];
    assert w[0] == s[i] && w[1] == s[i + 1];
    hide UnitIs, Hex4;
    UnitFirst(w, v);
    UnitReads(s, i, v);
  }

  lemma UnitFirst(w: string, v: int)
    requires UnitIs(w, v)
    ensures |w| == 6 && w[0] == '\\' && w[1] == 'u' && 0 <= v < 0x10000
  {
  }

  lemma PlainAt(s: string, i: nat)
    requires i < |s| && s[i] != '"' && s[i] != '\\' && s[i] as int >= 0x20
    ensures PieceIs(s[i..i + 1], s[i] as int)
  {
    assert s[i..i + 1][0] == s[i];
  }

  lemma ShortAt(s: string, i: nat)
    requires i + 2 <= |s| && s[i] == '\\' && s[i + 1] != 'u' && Escape(s, i + 1).Done?
    ensures var e := Escape(s, i + 1); e.end == i + 2 && s[i..i + 2] in SHORT && SHORT[s[i..i + 2]] == e.value
  {
    hide UnicodeEscape;
    assert s[i..i + 2] == [s[i], s[i + 1]];
  }

  /** An escape of the form \u is one unit, or two that are a pair. */
  lemma UnicodeSpelled(s: string, i: nat)
    requires i + 2 <= |s| && s[i] == '\\' && s[i + 1] == 'u' && UnicodeEscape(s, i + 2).Done?
    ensures var e := UnicodeEscape(s, i + 2);
            && (if e.end == i + 6 then UnitIs(s[i..i + 6], e.value)
                else e.end == i + 12 && PairIs(s[i..i + 12], e.value))
            && (High(e.value) && StartsUnicode(s, e.end) ==> Hex4(s, e.end + 2).Done? && !Low(Hex4(s, e.end + 2).value))
  {
    var u := Hex4(s, i + 2);
    hide Hex4, UnitIs, PairIs;
    if UnicodeEscape(s, i + 2).end == i + 6 {
      UnitReads(s, i, u.value);
    } else {
      PairSpelled(s, i);
    }
  }

  lemma PairSpelled(s: string, i: nat)
    requires i + 12 <= |s| && s[i] == '\\' && s[i + 1] == 'u' && StartsUnicode(s, i + 6)
    requires Hex4(s, i + 2).Done? && High(Hex4(s, i + 2).value) && Hex4(s, i + 8).Done? && Low(Hex4(s, i + 8).value)
    ensures PairIs(s[i..i + 12],
                   0x10000 + (Hex4(s, i + 2).value - 0xD800) * 0x400 + (Hex4(s, i + 8).value - 0xDC00))
  {
    Hex4Ends(s, i + 2);
    Hex4Ends(s, i + 8);
    hide Hex4, UnitIs;
    UnitReads(s, i, Hex4(s, i + 2).value);
    UnitReads(s, i + 6, Hex4(s, i + 8).value);
    assert s[i..i + 12][..6] == s[i..i + 6] && s[i..i + 12][6..] == s[i + 6..i + 12];
  }

  lemma Hex4Ends(s: string, i: nat)
    ensures Hex4(s, i).Done? ==> Hex4(s, i).end == i + 4 <= |s|
  {
  }

  /** An escape that is read is spelled as one. */
  lemma EscapeSpelled(s: string, i: nat)
    requires i < |s| && s[i] == '\\' && Escape(s, i + 1).Done?
    ensures var e := Escape(s, i + 1);
            && PieceIs(s[i..e.end], e.value)
            && (High(e.value) && StartsUnicode(s, e.end) ==>
                  Hex4(s, e.end + 2).Done? && !Low(Hex4(s, e.end + 2).value))
  {
    if s[i + 1] == 'u' {
      EscapeUnicode(s, i + 1);
      hide UnicodeEscape, Escape, Hex4, UnitIs, PairIs;
      UnicodeSpelled(s, i);
    } else {
      ShortAt(s, i);
      hide UnicodeEscape, Escape, Hex4;
    }
  }

  // ----- literals

  /** A low surrogate is only ever escaped. */
  lemma LowStarts(s: string, i: nat)
    requires i <= |s| && StringRest(s, i).Done? && StringRest(s, i).value != [] && Low(StringRest(s, i).value[0])
    ensures StartsUnicode(s, i) && Hex4(s, i + 2).Done? && Low(Hex4(s, i + 2).value)
  {
    hide Hex4;
    if s[i] == '\\' && s[i + 1] != 'u' {
      ShortAt(s, i);
    }
  }

  /** A literal that is read is spelled: the pieces, and a quote. */
  lemma {:induction false} LiteralSpelled(s: string, i: nat) returns (pieces: seq<string>)
    requires i <= |s| && StringRest(s, i).Done?
    ensures var r := StringRest(s, i); Spells(pieces, r.value) && s[i..r.end] == Flatten(pieces) + "\""
    decreases |s| - i
  {
    hide Escape, Hex4, PieceIs, Spells, StartsUnicode;
    if s[i] == '"' {
      pieces := [];
      NoPieces([]);
    } else {
      var code := if s[i] == '\\' then Escape(s, i + 1).value else s[i] as int;
      var next := if s[i] == '\\' then Escape(s, i + 1).end else i + 1;
      if s[i] == '\\' {
        EscapeSpelled(s, i);
      } else {
        PlainAt(s, i);
      }
      var rest := LiteralSpelled(s, next);
      pieces := [s[i..next]] + rest;
      if StringRest(s, next).value != [] && Low(StringRest(s, next).value[0]) {
        LowStarts(s, next);
      }
      SpellsCons(s[i..next], code, rest, StringRest(s, next).value);
      FlattenHead(pieces);
      assert pieces[1..] == rest;
    }
  }

  lemma SpellsCons(piece: string, code: int, pieces: seq<string>, codes: Str)
    requires PieceIs(piece, code) && Spells(pieces, codes) && (codes != [] ==> !(High(code) && Low(codes[0])))
    ensures Spells([piece] + pieces, [code] + codes)
  {
    hide PieceIs;
  }

  // ----- what is spelled is read

  /** An escaped piece is read as its code; a high surrogate by itself needs that no low one follows. */
  lemma PieceReads(s: string, i: nat, piece: string, code: int)
    requires At(s, i, piece) && PieceIs(piece, code) && !PlainIs(piece, code)
    requires var e := i + |piece|;
             High(code) && StartsUnicode(s, e) ==> Hex4(s, e + 2).Done? && !Low(Hex4(s, e + 2).value)
    ensures i < |s| && s[i] == '\\' && Escape(s, i + 1) == Done(code, i + |piece|)
  {
    assert s[i..i + |piece|] == piece;
    if piece in SHORT && SHORT[piece] == code {
      ShortReads(s, i, piece);
    } else if UnitIs(piece, code) {
      UnitAt(s, i, code);
      hide UnitIs, Hex4, PieceIs, PlainIs, PairIs;
      UnitFirst(piece, code);
      EscapeUnicode(s, i + 1);
    } else {
      PairReads(s, i, piece, code);
    }
  }

  lemma ShortReads(s: string, i: nat, piece: string)
    requires At(s, i, piece) && piece in SHORT
    ensures i < |s| && s[i] == '\\' && Escape(s, i + 1) == Done(SHORT[piece], i + |piece|)
  {
    hide UnicodeEscape;
    assert s[i..i + 2][0] == s[i] && s[i..i + 2][1] == s[i + 1];
  }

  lemma PairReads(s: string, i: nat, piece: string, code: int)
    requires At(s, i, piece) && PairIs(piece, code)
    ensures i < |s| && s[i] == '\\' && Escape(s, i + 1) == Done(code, i + |piece|)
  {
    hide UnitIs, Hex4, Escape, UnicodeEscape, StartsUnicode;
    var high, low :| UnitIs(piece[..6], high) && UnitIs(piece[6..], low) && High(high) && Low(low)
      && code == 0x10000 + (high - 0xD800) * 0x400 + (low - 0xDC00);
    hide PairIs;
    assert s[i..i + 6] == s[i..i + 12][..6] && s[i + 6..i + 12] == s[i..i + 12][6..];
    UnitAt(s, i, high);
    UnitAt(s, i + 6, low);
    hide At;
    EscapeUnicode(s, i + 1);
    PairJoins(s, i + 2, high, low);
  }

  lemma PairJoins(s: string, i: nat, high: int, low: int)
    requires i + 4 <= |s| && Hex4(s, i) == Done(high, i + 4) && StartsUnicode(s, i + 4)
    requires Hex4(s, i + 6) == Done(low, i + 10) && High(high) && Low(low)
    ensures UnicodeEscape(s, i) == Done(0x10000 + (high - 0xD800) * 0x400 + (low - 0xDC00), i + 10)
  {
    hide Hex4;
  }

  /** The first of the pieces, and the others. */
  lemma FirstPiece(s: string, i: nat, pieces: seq<string>, codes: Str)
    requires Spells(pieces, codes) && At(s, i, Flatten(pieces) + "\"") && pieces != []
    ensures codes != [] && PieceIs(pieces[0], codes[0]) && At(s, i, pieces[0])
    ensures Spells(pieces[1..], codes[1..]) && At(s, i + |pieces[0]|, Flatten(pieces[1..]) + "\"")
    ensures |Flatten(pieces)| == |pieces[0]| + |Flatten(pieces[1..])|
    ensures |codes| > 1 ==> !(High(codes[0]) && Low(codes[1]))
  {
    hide PieceIs, At;
    FlattenHead(pieces);
    assert Flatten(pieces) + "\"" == pieces[0] + (Flatten(pieces[1..]) + "\"");
    AtParts(s, i, pieces[0], Flatten(pieces[1..]) + "\"");
  }

  lemma UnitOfPiece(s: string, i: nat, piece: string, code: int)
    requires At(s, i, piece) && PieceIs(piece, code) && StartsUnicode(s, i)
    ensures Hex4(s, i + 2).Done? && (Low(Hex4(s, i + 2).value) ==> Low(code))
  {
    hide Hex4, DigitIs;
    assert s[i] == s[i..i + |piece|][0] == piece[0];
    if |piece| > 1 {
      assert s[i + 1] == s[i..i + |piece|][1] == piece[1];
    }
    hide UnitIs;
    if UnitIs(piece, code) {
      UnitAt(s, i, code);
    } else {
      assert PairIs(piece, code);
      var high :| UnitIs(piece[..6], high) && High(high);
      assert s[i..i + 6] == s[i..i + 12][..6];
      UnitAt(s, i, high);
    }
  }

  /** A spelled literal is read as its codes, whatever follows the closing quote. */
  lemma {:induction false} SpelledReads(s: string, i: nat, pieces: seq<string>, codes: Str)
    requires Spells(pieces, codes) && At(s, i, Flatten(pieces) + "\"")
    ensures StringRest(s, i) == Done(codes, i + |Flatten(pieces)| + 1)
    decreases |pieces|
  {
    hide Escape, Hex4, PieceIs, At, Spells, PlainIs, StartsUnicode, Flatten, High, Low;
    if pieces == [] {
      NoPieces(codes);
      AtFirst(s, i, "\"");
    } else {
      var piece := pieces[0];
      var e := i + |piece|;
      FirstPiece(s, i, pieces, codes);
      SpelledReads(s, e, pieces[1..], codes[1..]);
      assert codes == [codes[0]] + codes[1..];
      if PlainIs(piece, codes[0]) {
        PlainReads(s, i, piece, codes[0]);
      } else {
        if StartsUnicode(s, e) {
          NextUnit(s, e, pieces[1..], codes[1..]);
        }
        PieceReads(s, i, piece, codes[0]);
      }
    }
  }

  lemma NoPieces(codes: Str)
    ensures Flatten<char>([]) + "\"" == "\"" && (Spells([], codes) <==> codes == [])
  {
  }

  lemma PlainReads(s: string, i: nat, piece: string, code: int)
    requires At(s, i, piece) && PlainIs(piece, code)
    ensures i < |s| && |piece| == 1 && s[i] !in ['"', '\\'] && s[i] as int == code >= 0x20
  {
    AtFirst(s, i, piece);
  }

  /** A text that goes on with \u goes on with a low surrogate only if that is the next code. */
  lemma NextUnit(s: string, i: nat, pieces: seq<string>, codes: Str)
    requires Spells(pieces, codes) && At(s, i, Flatten(pieces) + "\"") && StartsUnicode(s, i)
    ensures codes != [] && Hex4(s, i + 2).Done? && (Low(Hex4(s, i + 2).value) ==> Low(codes[0]))
  {
    hide Spells, PieceIs, Hex4, At, Flatten;
    if pieces == [] {
      NoPieces(codes);
      AtFirst(s, i, "\"");
      assert false;
    } else {
      FirstPiece(s, i, pieces, codes);
      UnitOfPiece(s, i, pieces[0], codes[0]);
    }
  }
}
