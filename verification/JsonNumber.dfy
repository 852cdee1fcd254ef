/** How numbers are spelled, after section 6 of RFC 8259, and that the decoder takes the longest number at its place. */
module JsonNumber {
  import opened Json
  import opened Refill

  predicate AllDigits(s: string) {
    forall k :: 0 <= k < |s| ==> '0' <= s[k] <= '9'
  }

  /** Zero, or digits of which the first is not zero. */
  predicate WholeIs(s: string) {
    s == "0" || (s != "" && AllDigits(s) && s[0] != '0')
  }

  predicate FracIs(s: string) {
    s == "" || (|s| > 1 && s[0] == '.' && AllDigits(s[1..]))
  }

  predicate ExpIs(s: string) {
    s == "" || (|s| > 1 && s[0] in "eE" && (AllDigits(s[1..]) || (|s| > 2 && s[1] in "+-" && AllDigits(s[2..]))))
  }

  /** An optional minus, a whole number, and optionally a fraction and an exponent. */
  ghost predicate IsNumber(raw: string) {
    exists a: nat, b: nat, c: nat :: NumberParts(raw, a, b, c)
  }

  ghost predicate NumberParts(raw: string, a: nat, b: nat, c: nat) {
    a <= b <= c <= |raw| && raw[..a] in ["", "-"] && WholeIs(raw[a..b]) && FracIs(raw[b..c]) && ExpIs(raw[c..])
  }

  lemma {:induction false} DigitsAre(s: string, i: nat, e: nat)
    requires i <= e <= |s|
    ensures DigitsEnd(s, i) == e <==> AllDigits(s[i..e]) && (e < |s| ==> !IsDigit(s[e]))
    decreases |s| - i
  {
    if i < |s| && IsDigit(s[i]) && i < e {
      DigitsAre(s, i + 1, e);
      assert s[i..e] == [s[i]] + s[i + 1..e];
    } else if i < e {
      assert s[i..e][0] == s[i];
    }
  }

  lemma SignRead(raw: string, a: nat, b: nat)
    requires a < b <= |raw| && raw[..a] in ["", "-"] && IsDigit(raw[a])
    ensures a == if raw[0] == '-' then 1 else 0
  {
    if a > 0 {
      assert raw[..a][0] == raw[0];
    }
  }

  lemma WholeRead(raw: string, a: nat, b: nat)
    requires a <= b <= |raw| && raw[..a] in ["", "-"] && WholeIs(raw[a..b]) && (b < |raw| ==> !IsDigit(raw[b]))
    ensures IntEnd(raw, 0) == Done((), b)
  {
    var w := raw[a..b];
    assert w[0] == raw[a];
    SignRead(raw, a, b);
    if w[0] != '0' {
      assert w[1..] == raw[a + 1..b];
      DigitsAre(raw, a + 1, b);
    }
  }

  lemma FracRead(raw: string, b: nat, c: nat)
    requires b <= c <= |raw| && FracIs(raw[b..c]) && (c < |raw| ==> !IsDigit(raw[c]) && (b == c ==> raw[c] != '.'))
    ensures FracEnd(raw, b) == c
  {
    if b < c {
      var w := raw[b..c];
      assert w[0] == raw[b] && w[1..][0] == raw[b + 1] && w[1..][1..] == raw[b + 2..c];
      DigitsAre(raw, b + 2, c);
    }
  }

  lemma ExpRead(raw: string, c: nat)
    requires c <= |raw| && ExpIs(raw[c..])
    ensures ExpEnd(raw, c) == |raw|
  {
    if c < |raw| {
      var w := raw[c..];
      var d := if w[1] in "+-" then 2 else 1;
      assert AllDigits(w[d..]) && w[d..] != "" by { assert w[1..][0] == w[1]; }
      assert w[0] == raw[c] && w[1] == raw[c + 1] && w[d..][0] == raw[c + d] && w[d..][1..] == raw[c + d + 1..|raw|];
      DigitsAre(raw, c + d + 1, |raw|);
    }
  }

  lemma {:induction false} DigitsTaken(s: string, i: nat)
    requires i <= |s|
    ensures AllDigits(s[i..DigitsEnd(s, i)])
  {
    DigitsAre(s, i, DigitsEnd(s, i));
  }

  /** A number is exactly what the scanner reads to the end. */
  lemma NumberIs(raw: string)
    ensures IsNumber(raw) <==> NumberEnd(raw, 0) == Done((), |raw|)
  {
    if IsNumber(raw) {
      var a: nat, b: nat, c: nat :| NumberParts(raw, a, b, c);
      PartsRead(raw, a, b, c);
    }
    if NumberEnd(raw, 0) == Done((), |raw|) {
      ReadParts(raw);
    }
  }

  lemma PartsRead(raw: string, a: nat, b: nat, c: nat)
    requires NumberParts(raw, a, b, c)
    ensures NumberEnd(raw, 0) == Done((), |raw|)
  {
    assert b < c ==> raw[b..c][0] == raw[b];
    assert c < |raw| ==> raw[c..][0] == raw[c];
    WholeRead(raw, a, b);
    FracRead(raw, b, c);
    ExpRead(raw, c);
  }

  lemma ReadParts(raw: string)
    requires NumberEnd(raw, 0) == Done((), |raw|)
    ensures IsNumber(raw)
  {
    var a := if raw[0] == '-' then 1 else 0;
    var b := IntEnd(raw, 0).end;
    var c := FracEnd(raw, b);
    WholeTaken(raw);
    FracTaken(raw, b);
    ExpTaken(raw, c);
    assert NumberParts(raw, a, b, c);
  }

  lemma WholeTaken(raw: string)
    requires IntEnd(raw, 0).Done?
    ensures var a := if raw[0] == '-' then 1 else 0;
            raw[..a] in ["", "-"] && a <= IntEnd(raw, 0).end && WholeIs(raw[a..IntEnd(raw, 0).end])
  {
    var a, b := if raw[0] == '-' then 1 else 0, IntEnd(raw, 0).end;
    assert raw[..a] == if a == 0 then "" else "-";
    assert raw[a..b] == [raw[a]] + raw[a + 1..b];
    if raw[a] != '0' {
      DigitsTaken(raw, a + 1);
    } else {
      assert raw[a + 1..b] == "";
    }
  }

  lemma FracTaken(raw: string, b: nat)
    requires b <= |raw|
    ensures FracIs(raw[b..FracEnd(raw, b)])
  {
    var c := FracEnd(raw, b);
    if b < c {
      DigitsTaken(raw, b + 2);
      assert raw[b..c][1..] == [raw[b + 1]] + raw[b + 2..c];
    }
  }

  lemma ExpTaken(raw: string, c: nat)
    requires c <= |raw| && ExpEnd(raw, c) == |raw|
    ensures ExpIs(raw[c..])
  {
    if c < |raw| {
      var d := if raw[c + 1] in "+-" then 2 else 1;
      DigitsTaken(raw, c + d + 1);
      assert raw[c..][d..] == [raw[c + d]] + raw[c + d + 1..|raw|];
    }
  }

  // ----- a number at its place in a text

  lemma {:induction false} DigitsShift(s: string, k: nat, i: nat)
    requires k + i <= |s|
    ensures DigitsEnd(s[k..], i) + k == DigitsEnd(s, k + i)
    decreases |s| - k - i
  {
    if k + i < |s| && IsDigit(s[k + i]) {
      DigitsShift(s, k, i + 1);
    }
  }

  lemma FracShift(s: string, k: nat, i: nat)
    requires k + i <= |s|
    ensures FracEnd(s[k..], i) + k == FracEnd(s, k + i)
  {
    if i + 1 < |s[k..]| && s[k + i] == '.' && IsDigit(s[k + i + 1]) {
      DigitsShift(s, k, i + 2);
    }
  }

  lemma ExpShift(s: string, k: nat, i: nat)
    requires k + i <= |s|
    ensures ExpEnd(s[k..], i) + k == ExpEnd(s, k + i)
  {
    if i + 1 < |s[k..]| && (s[k + i] == 'e' || s[k + i] == 'E') {
      var d := if s[k + i + 1] == '+' || s[k + i + 1] == '-' then i + 2 else i + 1;
      if d < |s[k..]| {
        DigitsShift(s, k, d + 1);
      }
    }
  }

  lemma IntShift(s: string, k: nat)
    requires k <= |s|
    ensures IntEnd(s[k..], 0).Done? <==> IntEnd(s, k).Done?
    ensures IntEnd(s, k).Done? ==> IntEnd(s, k) == Done((), IntEnd(s[k..], 0).end + k)
  {
    var t := s[k..];
    var d := if t != "" && t[0] == '-' then 1 else 0;
    if d < |t| {
      assert t[d] == s[k + d];
      if t[d] != '0' {
        DigitsShift(s, k, d + 1);
      }
    }
  }

  /** A number ends where it ends in the rest of the text. */
  lemma NumberShift(s: string, k: nat)
    requires k <= |s|
    ensures NumberEnd(s[k..], 0).Done? <==> NumberEnd(s, k).Done?
    ensures NumberEnd(s, k).Done? ==> NumberEnd(s, k) == Done((), NumberEnd(s[k..], 0).end + k)
  {
    var t := s[k..];
    IntShift(s, k);
    hide IntEnd, FracEnd, ExpEnd;
    if IntEnd(s, k).Done? {
      FracShift(s, k, IntEnd(t, 0).end);
      ExpShift(s, k, FracEnd(t, IntEnd(t, 0).end));
    }
  }

  /** The text from `i` to `e` is a number and no longer one starts at `i`. */
  ghost predicate Longest(s: string, i: nat, e: nat) {
    i <= e <= |s| && IsNumber(s[i..e]) && forall f :: e < f <= |s| ==> !IsNumber(s[i..f])
  }

  lemma NumberTaken(s: string, i: nat)
    requires i <= |s| && NumberEnd(s, i).Done?
    ensures IsNumber(s[i..NumberEnd(s, i).end])
  {
    NumberShift(s, i);
    hide NumberEnd, IsNumber;
    var f := NumberEnd(s, i).end;
    NumberEnds(s, i);
    NumberKept(s[i..], f - i);
    assert s[i..f] == s[i..][..f - i];
    NumberIs(s[i..f]);
  }

  lemma NumberMost(s: string, i: nat, f: nat)
    requires i <= f <= |s| && IsNumber(s[i..f])
    ensures NumberEnd(s, i).Done? && f <= NumberEnd(s, i).end
  {
    NumberShift(s, i);
    hide NumberEnd, IsNumber;
    NumberIs(s[i..f]);
    assert s[i..f] == s[i..][..f - i];
    NumberCut(s[i..], f - i);
  }

  /** The scanner takes the longest number at its place. */
  lemma LongestIs(s: string, i: nat, e: nat)
    requires i <= e <= |s|
    ensures NumberEnd(s, i) == Done((), e) <==> Longest(s, i, e)
  {
    NumberEnds(s, i);
    hide NumberEnd, IsNumber;
    forall f | i <= f <= |s| && IsNumber(s[i..f]) ensures NumberEnd(s, i).Done? && f <= NumberEnd(s, i).end {
      NumberMost(s, i, f);
    }
    if NumberEnd(s, i).Done? {
      NumberTaken(s, i);
    }
  }

  lemma NumberEnds(s: string, i: nat)
    requires i <= |s|
    ensures NumberEnd(s, i).Done? ==> i < NumberEnd(s, i).end <= |s| && (s[i] == '-' || IsDigit(s[i]))
  {
  }

  /** A number that the text does not continue is the longest. */
  lemma StoppedIsLongest(s: string, i: nat, e: nat)
    requires i <= e <= |s| && IsNumber(s[i..e]) && StopsNumber(s, e)
    ensures Longest(s, i, e)
  {
    var raw, t := s[i..e], s[i..];
    hide IsNumber, NumberEnd;
    NumberIs(raw);
    assert t[..|raw|] == raw;
    NumberLocal(raw, t, 0);
    NumberShift(s, i);
    LongestIs(s, i, e);
  }
}
