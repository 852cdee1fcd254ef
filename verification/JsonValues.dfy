/** Which values have a spelling: the grammar of JsonGrammar reaches exactly the values described here. */
module JsonValues {
  import opened Json
  import opened JsonGrammar
  import opened JsonNumber
  import opened JsonSpelling
  import opened Seqs

  /** Code points, without a high surrogate directly before a low one. */
  predicate ProperText(codes: Str) {
    && (forall k :: 0 <= k < |codes| ==> 0 <= codes[k] < 0x11_0000)
    && (forall k :: 0 <= k < |codes| - 1 ==> !(High(codes[k]) && Low(codes[k + 1])))
  }

  ghost predicate Proper(v: Value) {
    match v
    case Literal(name) => name in WORDS
    case Number(raw) => IsNumber(raw)
    case Text(codes) => ProperText(codes)
    case Array(items) => forall k :: 0 <= k < |items| ==> Proper(items[k])
    case Object(members) => forall k :: 0 <= k < |members| ==> ProperText(members[k].0) && Proper(members[k].1)
  }

  // ----- spelled values are proper

  lemma PieceRange(piece: string, code: int)
    requires PieceIs(piece, code)
    ensures 0 <= code < 0x11_0000
  {
    if UnitIs(piece, code) {
      UnitFirst(piece, code);
    } else if PairIs(piece, code) {
      hide UnitIs;
      var high, low :| High(high) && Low(low) && code == 0x10000 + (high - 0xD800) * 0x400 + (low - 0xDC00);
    }
  }

  lemma TextProper(w: string, codes: Str)
    requires TextIs(w, codes)
    ensures ProperText(codes)
  {
    hide PieceIs, Flatten;
    var pieces :| Spells(pieces, codes) && w == "\"" + (Flatten(pieces) + "\"");
    forall k | 0 <= k < |codes| ensures 0 <= codes[k] < 0x11_0000 {
      PieceRange(pieces[k], codes[k]);
    }
  }

  lemma {:induction false} SpelledProper(w: string, v: Value)
    requires Spelled(w, v)
    ensures Proper(v)
    decreases v
  {
    hide TextIs, ProperText, White, Joined, Encloses, NameIs;
    match v
    case Literal(name) =>
    case Number(raw) =>
    case Text(codes) =>
      TextProper(w, codes);
    case Array(items) =>
      if items != [] {
        var cells: seq<string> :| |cells| == |items| && (forall k :: 0 <= k < |items| ==> CellIs(cells[k], items[k]))
          && Encloses(w, '[', Joined(cells), ']');
        forall k | 0 <= k < |items| ensures Proper(items[k]) {
          var a: nat, b: nat :| a <= b <= |cells[k]| && Spelled(cells[k][a..b], items[k]);
          SpelledProper(cells[k][a..b], items[k]);
        }
      }
    case Object(members) =>
      if members != [] {
        var cells: seq<string> :| |cells| == |members|
          && (forall k :: 0 <= k < |members| ==> MemberIs(cells[k], members[k].0, members[k].1))
          && Encloses(w, '{', Joined(cells), '}');
        forall k | 0 <= k < |members| ensures ProperText(members[k].0) && Proper(members[k].1) {
          var part := MemberProper(cells[k], members[k].0, members[k].1);
          SpelledProper(part, members[k].1);
        }
      }
  }

  lemma MemberProper(cell: string, name: Str, v: Value) returns (part: string)
    requires MemberIs(cell, name, v)
    ensures ProperText(name) && Spelled(part, v)
  {
    hide TextIs, ProperText, White, Spelled;
    var a: nat, b: nat, c: nat :| NameIs(cell, name, a, b, c) && CellIs(cell[c + 1..], v);
    TextProper(cell[a..b], name);
    var rest := cell[c + 1..];
    var d: nat, e: nat :| d <= e <= |rest| && Spelled(rest[d..e], v);
    part := rest[d..e];
  }

  // ----- proper values are spelled

  function Unit(code: nat): (w: string)
    requires code < 0x10000
    ensures |w| == 6
  {
    var high, low := code / 0x100, code % 0x100;
    ['\\', 'u', LOWER[high / 0x10], LOWER[high % 0x10], LOWER[low / 0x10], LOWER[low % 0x10]]
  }

  lemma DigitSpells(d: nat)
    requires d < 16
    ensures DigitIs(LOWER[d], d)
  {
  }

  lemma UnitSpells(code: nat)
    requires code < 0x10000
    ensures UnitIs(Unit(code), code)
  {
    hide DigitIs;
    var w := Unit(code);
    var high, low := code / 0x100, code % 0x100;
    var a, b, c, d := high / 0x10, high % 0x10, low / 0x10, low % 0x10;
    DigitSpells(a);
    DigitSpells(b);
    DigitSpells(c);
    DigitSpells(d);
    assert DigitIs(w[2], a) && DigitIs(w[3], b) && DigitIs(w[4], c) && DigitIs(w[5], d);
  }

  function Escaped(code: nat): string
    requires code < 0x11_0000
  {
    if code < 0x10000 then Unit(code)
    else Unit(0xD800 + (code - 0x10000) / 0x400) + Unit(0xDC00 + (code - 0x10000) % 0x400)
  }

  lemma EscapedSpells(code: nat)
    requires code < 0x11_0000
    ensures PieceIs(Escaped(code), code)
  {
    hide UnitIs, Unit, PlainIs;
    if code < 0x10000 {
      UnitSpells(code);
    } else {
      var high, low := 0xD800 + (code - 0x10000) / 0x400, 0xDC00 + (code - 0x10000) % 0x400;
      var w := Escaped(code);
      UnitSpells(high);
      UnitSpells(low);
      assert w[..6] == Unit(high) && w[6..] == Unit(low);
      assert PairIs(w, code);
    }
  }

  lemma TextSpelling(codes: Str) returns (w: string)
    requires ProperText(codes)
    ensures TextIs(w, codes)
  {
    hide PieceIs, Escaped;
    var pieces := seq(|codes|, k requires 0 <= k < |codes| => Escaped(codes[k]));
    forall k | 0 <= k < |codes| ensures PieceIs(pieces[k], codes[k]) {
      EscapedSpells(codes[k]);
    }
    w := "\"" + (Flatten(pieces) + "\"");
  }

  lemma BareCell(w: string, v: Value)
    requires Spelled(w, v)
    ensures CellIs(w, v)
  {
    hide Spelled;
    assert w[0..|w|] == w && w[..0] == "" && w[|w|..] == "";
  }

  lemma BareMember(n: string, name: Str, w: string, v: Value)
    requires TextIs(n, name) && Spelled(w, v)
    ensures MemberIs(n + ":" + w, name, v)
  {
    hide Spelled, TextIs, CellIs;
    var cell := n + ":" + w;
    BareCell(w, v);
    assert cell[0..|n|] == n && cell[..0] == "" && cell[|n|..|n|] == "" && cell[|n| + 1..] == w;
    assert NameIs(cell, name, 0, |n|, |n|);
  }

  lemma {:induction false} Cells(parent: Value, items: seq<Value>) returns (cells: seq<string>)
    requires forall k :: 0 <= k < |items| ==> items[k] < parent && Proper(items[k])
    ensures |cells| == |items| && forall k :: 0 <= k < |items| ==> CellIs(cells[k], items[k])
    decreases parent, |items|
  {
    hide Proper, CellIs, Spelled;
    cells := [];
    if items != [] {
      var w := Spelling(items[0]);
      BareCell(w, items[0]);
      var rest := Cells(parent, items[1..]);
      cells := [w] + rest;
    }
  }

  lemma {:induction false} Members(parent: Value, members: seq<(Str, Value)>) returns (cells: seq<string>)
    requires forall k :: 0 <= k < |members| ==>
               members[k].1 < parent && ProperText(members[k].0) && Proper(members[k].1)
    ensures |cells| == |members| && forall k :: 0 <= k < |members| ==> MemberIs(cells[k], members[k].0, members[k].1)
    decreases parent, |members|
  {
    hide Proper, ProperText, MemberIs, Spelled, TextIs;
    cells := [];
    if members != [] {
      var n := TextSpelling(members[0].0);
      var w := Spelling(members[0].1);
      BareMember(n, members[0].0, w, members[0].1);
      var rest := Members(parent, members[1..]);
      cells := [n + ":" + w] + rest;
    }
  }

  lemma {:induction false} Spelling(v: Value) returns (w: string)
    requires Proper(v)
    ensures Spelled(w, v)
    decreases v
  {
    hide ProperText, TextIs, CellIs, MemberIs, Joined;
    match v
    case Literal(name) =>
      w := name;
    case Number(raw) =>
      w := raw;
    case Text(codes) =>
      w := TextSpelling(codes);
    case Array(items) =>
      var cells := Cells(v, items);
      w := ['['] + ((if items == [] then "" else Joined(cells)) + [']']);
      assert items == [] ==> Encloses(w, '[', "", ']');
    case Object(members) =>
      var cells := Members(v, members);
      w := ['{'] + ((if members == [] then "" else Joined(cells)) + ['}']);
      assert members == [] ==> Encloses(w, '{', "", '}');
  }

  /** Exactly the proper values can be spelled. */
  lemma ProperIs(v: Value)
    ensures (exists w :: Spelled(w, v)) <==> Proper(v)
  {
    hide Spelled, Proper;
    if exists w :: Spelled(w, v) {
      var w :| Spelled(w, v);
      SpelledProper(w, v);
    }
    if Proper(v) {
      var w := Spelling(v);
    }
  }
}
