/** Ranking stored expressions for a query: cosine similarity and shared tokens, blended, the best first. */
module VectorRanking {
  import opened Seqs

  const VECTOR_WEIGHT := 0.85
  const LEXICAL_WEIGHT := 0.15

  /** The host's square root. */
  ghost predicate IsSquareRoot(root: real -> real) {
    forall x :: x >= 0.0 ==> root(x) >= 0.0 && root(x) * root(x) == x
  }

  // ----- vectors

  function Dot(a: seq<real>, b: seq<real>): real
    requires |a| == |b|
  {
    if a == [] then 0.0 else Dot(a[..|a| - 1], b[..|b| - 1]) + a[|a| - 1] * b[|b| - 1]
  }

  /** A dot product over the root of the squared norms; 0 when a norm is. */
  function Normalized(dot: real, a: real, b: real, root: real -> real): real {
    if a <= 0.0 || b <= 0.0 || root(a * b) == 0.0 then 0.0 else dot / root(a * b)
  }

  function Cosine(a: seq<real>, b: seq<real>, root: real -> real): real {
    if a == [] || |a| != |b| then 0.0 else Normalized(Dot(a, b), Dot(a, a), Dot(b, b), root)
  }

  lemma DotEmpty()
    ensures Dot([], []) == 0.0
  {
  }

  lemma DotSnoc(a: seq<real>, b: seq<real>, n: nat)
    requires n < |a| && n < |b|
    ensures Dot(a[..n + 1], b[..n + 1]) == Dot(a[..n], b[..n]) + a[n] * b[n]
  {
    assert a[..n + 1][..n] == a[..n] && b[..n + 1][..n] == b[..n];
  }

  /** The original's single loop over both vectors. */
  method CosineSimilarity(left: seq<real>, right: seq<real>, root: real -> real) returns (r: real)
    requires IsSquareRoot(root)
    ensures r == Cosine(left, right, root)
  {
    if left == [] || right == [] || |left| != |right| {
      return 0.0;
    }
    hide Dot, Normalized, IsSquareRoot;
    DotEmpty();
    var dot, leftNorm, rightNorm := 0.0, 0.0, 0.0;
    for n := 0 to |left|
      invariant n <= |left| == |right| && dot == Dot(left[..n], right[..n])
      invariant leftNorm == Dot(left[..n], left[..n]) && rightNorm == Dot(right[..n], right[..n])
    {
      DotSnoc(left, right, n);
      DotSnoc(left, left, n);
      DotSnoc(right, right, n);
      dot := dot + left[n] * right[n];
      leftNorm := leftNorm + left[n] * left[n];
      rightNorm := rightNorm + right[n] * right[n];
    }
    assert left[..|left|] == left && right[..|right|] == right;
    if leftNorm <= 0.0 || rightNorm <= 0.0 {
      return 0.0;
    }
    NormalizedIs(dot, leftNorm, rightNorm, root);
    r := dot / root(leftNorm * rightNorm);
  }

  lemma NormalizedIs(dot: real, a: real, b: real, root: real -> real)
    requires IsSquareRoot(root) && a > 0.0 && b > 0.0
    ensures root(a * b) > 0.0 && Normalized(dot, a, b, root) == dot / root(a * b)
  {
    PositiveProduct(a, b);
    RootPositive(root, a * b);
  }

  lemma PositiveProduct(x: real, y: real)
    requires x > 0.0 && y > 0.0
    ensures x * y > 0.0
  {
  }

  lemma NonNegativeProduct(x: real, y: real)
    requires x >= 0.0 && y >= 0.0
    ensures x * y >= 0.0
  {
  }

  lemma Square(x: real)
    ensures x * x >= 0.0
  {
  }

  /** A number whose square is no larger is no larger. */
  lemma BySquares(t: real, s: real)
    requires s >= 0.0 && t * t <= s * s
    ensures -s <= t <= s
  {
    if t > s {
      Larger(t, s);
    }
    if -t > s {
      assert (-t) * (-t) == t * t;
      Larger(-t, s);
    }
  }

  lemma Larger(t: real, s: real)
    requires t > s >= 0.0
    ensures t * t > s * s
  {
    assert t * t - s * s == (t - s) * (t + s);
    PositiveProduct(t - s, t + s);
  }

  lemma MixedSquares(d: real, x: real, y: real)
    ensures (2.0 * d * x * y) * (2.0 * d * x * y) == 4.0 * (d * d) * ((x * x) * (y * y))
  {
    var t := 2.0 * d * x * y;
    assert t == (2.0 * d) * (x * y);
    assert t * t == ((2.0 * d) * (2.0 * d)) * ((x * y) * (x * y));
  }

  lemma Discriminant(d: real, a: real, b: real, u: real, v: real)
    requires u >= 0.0 && v >= 0.0 && d * d <= a * b
    ensures 4.0 * (d * d) * (u * v) <= (a * v + b * u) * (a * v + b * u)
  {
    NonNegativeProduct(u, v);
    NonNegativeProduct(a * b - d * d, u * v);
    var p, q := a * v, b * u;
    Square(p - q);
    assert p * q == (a * b) * (u * v);
    assert (p + q) * (p + q) - 4.0 * (p * q) == (p - q) * (p - q);
    assert (a * b - d * d) * (u * v) == (a * b) * (u * v) - (d * d) * (u * v);
  }

  /** The middle term of the step below. */
  lemma Mixed(d: real, a: real, b: real, x: real, y: real)
    requires a >= 0.0 && b >= 0.0 && d * d <= a * b
    ensures 2.0 * d * x * y <= a * (y * y) + b * (x * x)
  {
    Square(x);
    Square(y);
    NonNegativeProduct(a, y * y);
    NonNegativeProduct(b, x * x);
    MixedSquares(d, x, y);
    Discriminant(d, a, b, x * x, y * y);
    BySquares(2.0 * d * x * y, a * (y * y) + b * (x * x));
  }

  /** The squared dot product is at most the product of the squared norms. */
  lemma {:induction false} DotBounded(a: seq<real>, b: seq<real>)
    requires |a| == |b|
    ensures Dot(a, a) >= 0.0 && Dot(b, b) >= 0.0
    ensures Dot(a, b) * Dot(a, b) <= Dot(a, a) * Dot(b, b)
  {
    if a != [] {
      var a', b', x, y := a[..|a| - 1], b[..|b| - 1], a[|a| - 1], b[|b| - 1];
      DotBounded(a', b');
      var d, p, q := Dot(a', b'), Dot(a', a'), Dot(b', b');
      Square(x);
      Square(y);
      Mixed(d, p, q, x, y);
      Expand(d, p, q, x, y);
    }
  }

  lemma Expand(d: real, p: real, q: real, x: real, y: real)
    requires d * d <= p * q && 2.0 * d * x * y <= p * (y * y) + q * (x * x)
    ensures (d + x * y) * (d + x * y) <= (p + x * x) * (q + y * y)
  {
    var xy := x * y;
    assert (d + xy) * (d + xy) == d * d + 2.0 * d * xy + xy * xy;
    assert 2.0 * d * xy == 2.0 * d * x * y;
    assert xy * xy == (x * x) * (y * y);
    var u, v := x * x, y * y;
    assert (p + u) * (q + v) == p * q + p * v + u * q + u * v;
  }

  /** The similarity of any two vectors is between -1 and 1. */
  lemma CosineBounded(a: seq<real>, b: seq<real>, root: real -> real)
    requires IsSquareRoot(root)
    ensures -1.0 <= Cosine(a, b, root) <= 1.0
  {
    hide Dot, Normalized;
    if a != [] && |a| == |b| {
      DotBounded(a, b);
      NormalizedBounded(Dot(a, b), Dot(a, a), Dot(b, b), root);
    }
  }

  lemma NormalizedBounded(dot: real, a: real, b: real, root: real -> real)
    requires IsSquareRoot(root) && dot * dot <= a * b
    ensures -1.0 <= Normalized(dot, a, b, root) <= 1.0
  {
    if a > 0.0 && b > 0.0 {
      NormalizedIs(dot, a, b, root);
      var r := root(a * b);
      PositiveProduct(a, b);
      BySquares(dot, r);
      Quotient(dot, r);
    }
  }

  lemma Quotient(x: real, r: real)
    requires r > 0.0 && -r <= x <= r
    ensures -1.0 <= x / r <= 1.0 && (x >= 0.0 ==> x / r >= 0.0)
  {
    var z := x / r;
    assert z * r == x;
    assert (1.0 - z) * r == r - x && (z + 1.0) * r == x + r;
    SignOf(1.0 - z, r);
    SignOf(z + 1.0, r);
    if x >= 0.0 {
      SignOf(z, r);
    }
  }

  lemma SignOf(z: real, r: real)
    requires r > 0.0 && z * r >= 0.0
    ensures z >= 0.0
  {
  }

  lemma RootPositive(root: real -> real, x: real)
    requires IsSquareRoot(root) && x > 0.0
    ensures root(x) > 0.0
  {
    assert root(x) * root(x) == x;
  }

  // ----- tokens

  /** What the original's character tests say; the ideographs come first. */
  datatype Alphabet = Alphabet(isAlnum: char -> bool) {
    predicate Ideograph(c: char) {
      '\U{4E00}' <= c <= '\U{9FFF}'
    }

    predicate Word(c: char) {
      !Ideograph(c) && (isAlnum(c) || c in {'_', '#', '+', '-', '.'})
    }
  }

  /** A longest run of word characters, of two or more. */
  ghost predicate WordRun(text: string, lo: nat, hi: nat, abc: Alphabet) {
    && lo + 2 <= hi <= |text| && (forall k :: lo <= k < hi ==> abc.Word(text[k]))
    && (lo > 0 ==> !abc.Word(text[lo - 1])) && (hi < |text| ==> !abc.Word(text[hi]))
  }

  ghost predicate WordBefore(text: string, end: nat, token: string, abc: Alphabet) {
    exists lo, hi :: 0 <= lo <= hi <= end && WordRun(text, lo, hi, abc) && token == text[lo..hi]
  }

  predicate IdeographAt(text: string, at: nat, abc: Alphabet) {
    at < |text| && abc.Ideograph(text[at])
  }

  ghost predicate IdeographBefore(text: string, end: nat, token: string, abc: Alphabet) {
    exists at :: 0 <= at < end && IdeographAt(text, at, abc) && token == [text[at]]
  }

  ghost predicate PairBefore(text: string, end: nat, token: string, abc: Alphabet) {
    exists at :: 0 <= at < end && IdeographAt(text, at, abc) && at + 1 < end && IdeographAt(text, at + 1, abc)
                 && token == [text[at], text[at + 1]]
  }

  /** A token: a whole word, an ideograph, or two neighbouring ideographs. */
  ghost predicate IsToken(text: string, token: string, abc: Alphabet) {
    WordBefore(text, |text|, token, abc) || IdeographBefore(text, |text|, token, abc)
      || PairBefore(text, |text|, token, abc)
  }

  /** The word characters from `w` to `n` are a run still open. */
  ghost predicate OpenWord(text: string, w: nat, n: nat, abc: Alphabet) {
    && w <= n <= |text| && (forall k :: w <= k < n ==> abc.Word(text[k]))
    && (w > 0 ==> !abc.Word(text[w - 1]))
  }

  ghost predicate OpenIdeographs(text: string, c: nat, n: nat, abc: Alphabet) {
    && c <= n <= |text| && (forall k :: c <= k < n ==> IdeographAt(text, k, abc))
    && (c > 0 ==> !abc.Ideograph(text[c - 1]))
  }

  /** Closing a run of word characters yields one word, if it is long enough. */
  lemma CloseWord(text: string, w: nat, n: nat, end: nat, token: string, abc: Alphabet)
    requires OpenWord(text, w, n, abc) && (n < |text| ==> !abc.Word(text[n])) && n <= end <= n + 1 && end <= |text|
    ensures WordBefore(text, end, token, abc) <==>
              WordBefore(text, w, token, abc) || (n - w >= 2 && token == text[w..n])
  {
    if n - w >= 2 && token == text[w..n] {
      assert WordRun(text, w, n, abc);
    }
    if WordBefore(text, end, token, abc) {
      var lo, hi :| 0 <= lo <= hi <= end && WordRun(text, lo, hi, abc) && token == text[lo..hi];
      if hi > w {
        assert abc.Word(text[hi - 1]);
        assert hi == n && lo == w;
      }
    }
  }

  /** One of the run's ideographs, or two neighbouring ones. */
  ghost predicate RunToken(text: string, c: nat, n: nat, token: string, abc: Alphabet) {
    || (exists at :: c <= at < n && IdeographAt(text, at, abc) && token == [text[at]])
    || (exists at ::
          c <= at < n - 1 && IdeographAt(text, at, abc) && IdeographAt(text, at + 1, abc)
          && token == [text[at], text[at + 1]])
  }

  /** Closing a run of ideographs yields its ideographs and their pairs. */
  lemma CloseIdeographs(text: string, c: nat, n: nat, end: nat, token: string, abc: Alphabet)
    requires OpenIdeographs(text, c, n, abc) && (n < |text| ==> !abc.Ideograph(text[n])) && n <= end <= n + 1
             && end <= |text|
    ensures IdeographBefore(text, end, token, abc) || PairBefore(text, end, token, abc) <==>
              (IdeographBefore(text, c, token, abc) || PairBefore(text, c, token, abc)
               || RunToken(text, c, n, token, abc))
  {
    if IdeographBefore(text, end, token, abc) {
      var at :| 0 <= at < end && IdeographAt(text, at, abc) && token == [text[at]];
      assert at < c || c <= at < n;
    }
    if PairBefore(text, end, token, abc) {
      var at :| 0 <= at < end && IdeographAt(text, at, abc) && at + 1 < end && IdeographAt(text, at + 1, abc)
                && token == [text[at], text[at + 1]];
      assert at + 1 < c || c <= at < n - 1;
    }
  }

  /** The tokens of a run of ideographs. */
  method RunTokens(text: string, c: nat, n: nat, tokens: set<string>, abc: Alphabet) returns (r: set<string>)
    requires OpenIdeographs(text, c, n, abc) && (n < |text| ==> !abc.Ideograph(text[n]))
    ensures forall token :: token in r <==> token in tokens || RunToken(text, c, n, token, abc)
  {
    r := tokens;
    for k := c to n
      invariant forall token :: token in r <==>
                  token in tokens || (exists at :: c <= at < k && IdeographAt(text, at, abc) && token == [text[at]])
    {
      r := r + {[text[k]]};
      assert IdeographAt(text, k, abc);
    }
    ghost var singles := r;
    for k := c to if c < n then n - 1 else c
      invariant forall token :: token in r <==>
                  token in singles
                  || (exists at :: c <= at < k && IdeographAt(text, at, abc) && IdeographAt(text, at + 1, abc)
                                   && token == [text[at], text[at + 1]])
    {
      r := r + {[text[k], text[k + 1]]};
      assert IdeographAt(text, k, abc) && IdeographAt(text, k + 1, abc);
    }
  }

  /** Tokens of the first characters, all runs before `w` and `c` closed. */
  ghost predicate HasTokens(tokens: set<string>, text: string, w: nat, c: nat, abc: Alphabet) {
    forall token :: token in tokens <==>
      WordBefore(text, w, token, abc) || IdeographBefore(text, c, token, abc) || PairBefore(text, c, token, abc)
  }

  method FlushWord(text: string, w: nat, n: nat, end: nat, c: nat, tokens: set<string>, abc: Alphabet)
    returns (r: set<string>)
    requires OpenWord(text, w, n, abc) && (n < |text| ==> !abc.Word(text[n])) && n <= end <= n + 1 && end <= |text|
    requires HasTokens(tokens, text, w, c, abc)
    ensures HasTokens(r, text, end, c, abc)
  {
    r := if n - w >= 2 then tokens + {text[w..n]} else tokens;
    forall token ensures token in r <==>
      WordBefore(text, end, token, abc) || IdeographBefore(text, c, token, abc) || PairBefore(text, c, token, abc)
    {
      CloseWord(text, w, n, end, token, abc);
    }
  }

  method FlushIdeographs(text: string, w: nat, c: nat, n: nat, end: nat, tokens: set<string>, abc: Alphabet)
    returns (r: set<string>)
    requires OpenIdeographs(text, c, n, abc) && (n < |text| ==> !abc.Ideograph(text[n])) && n <= end <= n + 1
             && end <= |text|
    requires HasTokens(tokens, text, w, c, abc)
    ensures HasTokens(r, text, w, end, abc)
  {
    r := RunTokens(text, c, n, tokens, abc);
    forall token ensures token in r <==>
      WordBefore(text, w, token, abc) || IdeographBefore(text, end, token, abc) || PairBefore(text, end, token, abc)
    {
      CloseIdeographs(text, c, n, end, token, abc);
    }
  }

  /** The original's pass over the characters, with a buffer for each kind of run. */
  method LexicalTokens(text: string, abc: Alphabet) returns (tokens: set<string>)
    ensures forall token :: token in tokens <==> IsToken(text, token, abc)
  {
    hide WordBefore, IdeographBefore, PairBefore;
    tokens := {};
    var w, c: nat := 0, 0;
    NoTokens(text, abc);
    for n := 0 to |text|
      invariant OpenWord(text, w, n, abc) && OpenIdeographs(text, c, n, abc)
      invariant HasTokens(tokens, text, w, c, abc)
    {
      if '\U{4E00}' <= text[n] <= '\U{9FFF}' {
        tokens := FlushWord(text, w, n, n + 1, c, tokens, abc);
        w := n + 1;
      } else if abc.isAlnum(text[n]) || text[n] in {'_', '#', '+', '-', '.'} {
        tokens := FlushIdeographs(text, w, c, n, n + 1, tokens, abc);
        c := n + 1;
      } else {
        tokens := FlushWord(text, w, n, n + 1, c, tokens, abc);
        w := n + 1;
        tokens := FlushIdeographs(text, w, c, n, n + 1, tokens, abc);
        c := n + 1;
      }
    }
    tokens := FlushWord(text, w, |text|, |text|, c, tokens, abc);
    tokens := FlushIdeographs(text, |text|, c, |text|, |text|, tokens, abc);
  }

  lemma NoTokens(text: string, abc: Alphabet)
    ensures HasTokens({}, text, 0, 0, abc)
  {
  }

  // ----- shared tokens

  function Overlap(query: set<string>, tokens: set<string>, root: real -> real): real {
    var shared := |query * tokens|;
    if query == {} || tokens == {} || shared == 0 || root((|query| * |tokens|) as real) == 0.0 then 0.0
    else shared as real / root((|query| * |tokens|) as real)
  }

  lemma SharedBounded(a: set<string>, b: set<string>)
    ensures |a * b| * |a * b| <= |a| * |b|
  {
    SubsetSize(a * b, a);
    SubsetSize(a * b, b);
    Products(|a * b|, |a|, |b|);
  }

  lemma Products(n: nat, a: nat, b: nat)
    requires n <= a && n <= b
    ensures n * n <= a * b
  {
    assert a * b == n * n + n * (b - n) + (a - n) * b;
  }

  lemma OverlapBounded(query: set<string>, tokens: set<string>, root: real -> real)
    requires IsSquareRoot(root)
    ensures 0.0 <= Overlap(query, tokens, root) <= 1.0
  {
    var shared := |query * tokens|;
    if query != {} && tokens != {} && shared > 0 {
      SharedBounded(query, tokens);
      var r := root((|query| * |tokens|) as real);
      assert (shared * shared) as real == (shared as real) * (shared as real);
      BySquares(shared as real, r);
      if r > 0.0 {
        Quotient(shared as real, r);
      }
    }
  }

  // ----- ranking

  datatype Expression = Expression(id: int, fingerprint: string, tokens: set<string>)

  datatype Entry = Entry(model: string, dimension: nat, embedding: seq<real>)

  /** What is asked for; rounding to four places is as the host language does it. */
  datatype Query = Query(
    embedding: seq<real>,
    model: string,
    tokens: set<string>,
    root: real -> real,
    round: real -> real)

  predicate Matches(e: Expression, entries: map<string, Entry>, q: Query) {
    e.fingerprint in entries && entries[e.fingerprint].model == q.model
      && entries[e.fingerprint].dimension == |q.embedding|
  }

  function Score(e: Expression, entries: map<string, Entry>, q: Query): real
    requires e.fingerprint in entries
  {
    Cosine(q.embedding, entries[e.fingerprint].embedding, q.root) * VECTOR_WEIGHT
      + Overlap(q.tokens, e.tokens, q.root) * LEXICAL_WEIGHT
  }

  /** Every score is between -0.85 and 1. */
  lemma ScoreBounded(e: Expression, entries: map<string, Entry>, q: Query)
    requires IsSquareRoot(q.root) && e.fingerprint in entries
    ensures -VECTOR_WEIGHT <= Score(e, entries, q) <= 1.0
  {
    CosineBounded(q.embedding, entries[e.fingerprint].embedding, q.root);
    OverlapBounded(q.tokens, e.tokens, q.root);
  }

  // ----- the best first

  /** An expression with the scores it is shown with. */
  datatype Ranked = Ranked(expression: Expression, selectorScore: real, vectorScore: real, lexicalScore: real)

  datatype Scored = Scored(score: real, shown: Ranked)

  function Shown(e: Expression, entries: map<string, Entry>, q: Query): Ranked
    requires e.fingerprint in entries
  {
    Ranked(e, q.round(Score(e, entries, q)), q.round(Cosine(q.embedding, entries[e.fingerprint].embedding, q.root)),
           q.round(Overlap(q.tokens, e.tokens, q.root)))
  }

  ghost predicate Descending(s: seq<Scored>) {
    forall i, j :: 0 <= i < j < |s| ==> s[i].score >= s[j].score
  }

  function Insert(s: seq<Scored>, x: Scored): seq<Scored> {
    if s == [] || s[|s| - 1].score >= x.score then s + [x]
    else Insert(s[..|s| - 1], x) + [s[|s| - 1]]
  }

  /** Sorted by score, the highest first; equal ones stay in order. */
  function SortDown(s: seq<Scored>): seq<Scored> {
    if s == [] then [] else Insert(SortDown(s[..|s| - 1]), s[|s| - 1])
  }

  /** The matching expressions with their scores, in order. */
  function Candidates(expressions: seq<Expression>, entries: map<string, Entry>, q: Query): seq<Scored> {
    if expressions == [] then []
    else
      var rest, e := Candidates(expressions[..|expressions| - 1], entries, q), expressions[|expressions| - 1];
      if Matches(e, entries, q) then rest + [Scored(Score(e, entries, q), Shown(e, entries, q))] else rest
  }

  function Display(s: seq<Scored>): (r: seq<Ranked>)
    ensures |r| == |s| && forall k :: 0 <= k < |s| ==> r[k] == s[k].shown
  {
    seq(|s|, k requires 0 <= k < |s| => s[k].shown)
  }

  method RankCandidates(expressions: seq<Expression>, entries: map<string, Entry>, q: Query, limit: nat)
    returns (r: seq<Ranked>)
    requires IsSquareRoot(q.root)
    ensures r == Display(First(SortDown(Candidates(expressions, entries, q)), limit))
  {
    var scored: seq<Scored> := [];
    for n := 0 to |expressions|
      invariant scored == Candidates(expressions[..n], entries, q)
    {
      assert expressions[..n + 1][..n] == expressions[..n];
      var e := expressions[n];
      if Matches(e, entries, q) {
        var similarity := CosineSimilarity(q.embedding, entries[e.fingerprint].embedding, q.root);
        var overlap := Overlap(q.tokens, e.tokens, q.root);
        var score := similarity * VECTOR_WEIGHT + overlap * LEXICAL_WEIGHT;
        scored := scored + [Scored(score, Ranked(e, q.round(score), q.round(similarity), q.round(overlap)))];
      }
    }
    assert expressions[..|expressions|] == expressions;
    r := Display(First(SortDown(scored), limit));
  }

  lemma {:induction false} InsertHolds(s: seq<Scored>, x: Scored)
    ensures multiset(Insert(s, x)) == multiset(s) + multiset{x}
  {
    if s != [] && s[|s| - 1].score < x.score {
      InsertHolds(s[..|s| - 1], x);
      assert s == s[..|s| - 1] + [s[|s| - 1]];
    }
  }

  lemma DescendingSnoc(s: seq<Scored>, x: Scored)
    requires Descending(s) && forall y :: y in s ==> y.score >= x.score
    ensures Descending(s + [x])
  {
  }

  lemma {:induction false} InsertSorts(s: seq<Scored>, x: Scored)
    requires Descending(s)
    ensures Descending(Insert(s, x))
  {
    if s == [] {
    } else {
      var init, last := s[..|s| - 1], s[|s| - 1];
      if last.score >= x.score {
        DescendingSnoc(s, x);
      } else {
        InsertSorts(init, x);
        InsertHolds(init, x);
        forall y | y in Insert(init, x) ensures y.score >= last.score {
          assert y in multiset(Insert(init, x));
        }
        DescendingSnoc(Insert(init, x), last);
      }
    }
  }

  lemma {:induction false} SortDownSorts(s: seq<Scored>)
    ensures Descending(SortDown(s)) && multiset(SortDown(s)) == multiset(s)
  {
    hide Insert;
    if s != [] {
      SortDownSorts(s[..|s| - 1]);
      InsertSorts(SortDown(s[..|s| - 1]), s[|s| - 1]);
      InsertHolds(SortDown(s[..|s| - 1]), s[|s| - 1]);
      assert s == s[..|s| - 1] + [s[|s| - 1]];
    }
  }

  /** The elements with a score, in order. */
  function OfScore(s: seq<Scored>, score: real): seq<Scored> {
    if s == [] then []
    else
      var rest, last := OfScore(s[..|s| - 1], score), s[|s| - 1];
      if last.score == score then rest + [last] else rest
  }

  lemma OfScoreSnoc(s: seq<Scored>, x: Scored, score: real)
    ensures OfScore(s + [x], score) == if x.score == score then OfScore(s, score) + [x] else OfScore(s, score)
  {
    assert (s + [x])[..|s|] == s;
  }

  lemma {:induction false} InsertStable(s: seq<Scored>, x: Scored, score: real)
    requires Descending(s)
    ensures OfScore(Insert(s, x), score) == if x.score == score then OfScore(s, score) + [x] else OfScore(s, score)
  {
    OfScoreSnoc(s, x, score);
    if s != [] && s[|s| - 1].score < x.score {
      var init, last := s[..|s| - 1], s[|s| - 1];
      InsertStable(init, x, score);
      OfScoreSnoc(Insert(init, x), last, score);
    }
  }

  /** Sorting is stable: elements of one score keep their order. */
  lemma {:induction false} SortDownStable(s: seq<Scored>, score: real)
    ensures OfScore(SortDown(s), score) == OfScore(s, score)
  {
    hide Insert;
    if s != [] {
      SortDownStable(s[..|s| - 1], score);
      SortDownSorts(s[..|s| - 1]);
      InsertStable(SortDown(s[..|s| - 1]), s[|s| - 1], score);
    }
  }

  lemma {:induction false} OfScoreHas(s: seq<Scored>, x: Scored, score: real)
    ensures x in OfScore(s, score) <==> x in s && x.score == score
  {
    if s != [] {
      OfScoreHas(s[..|s| - 1], x, score);
      assert s == s[..|s| - 1] + [s[|s| - 1]];
    }
  }

  lemma LastIsLeast(a: seq<Scored>, b: seq<Scored>)
    requires a != [] && Descending(a) && forall v :: OfScore(a, v) == OfScore(b, v)
    ensures exists y :: y in b && y.score == a[|a| - 1].score
    ensures forall y :: y in b ==> y.score >= a[|a| - 1].score
  {
    hide OfScore;
    var last := a[|a| - 1];
    OfScoreHas(a, last, last.score);
    OfScoreHas(b, last, last.score);
    forall y | y in b ensures y.score >= last.score {
      OfScoreHas(b, y, y.score);
      OfScoreHas(a, y, y.score);
    }
  }

  lemma SameLast(i: seq<Scored>, x: Scored, j: seq<Scored>, y: Scored, v: real)
    requires x.score == y.score && OfScore(i + [x], v) == OfScore(j + [y], v)
    ensures OfScore(i, v) == OfScore(j, v) && (v == x.score ==> x == y)
  {
    OfScoreSnoc(i, x, v);
    OfScoreSnoc(j, y, v);
    hide OfScore;
    var p, q := OfScore(i, v), OfScore(j, v);
    if v == x.score {
      assert |p| == |q| && (p + [x])[|p|] == (q + [y])[|q|];
      assert (p + [x])[..|p|] == p && (q + [y])[..|q|] == q;
    }
  }

  /** There is one such order only: whatever is sorted and stable is this sequence. */
  lemma {:induction false} StableIsUnique(a: seq<Scored>, b: seq<Scored>)
    requires Descending(a) && Descending(b) && forall v :: OfScore(a, v) == OfScore(b, v)
    ensures a == b
  {
    hide OfScore;
    if a == [] || b == [] {
      if a != [] {
        LastIsLeast(a, b);
      }
      if b != [] {
        LastIsLeast(b, a);
      }
    } else {
      var i, j, x, y := a[..|a| - 1], b[..|b| - 1], a[|a| - 1], b[|b| - 1];
      LastIsLeast(a, b);
      LastIsLeast(b, a);
      assert a == i + [x] && b == j + [y];
      forall v ensures x == y && OfScore(i, v) == OfScore(j, v) {
        SameLast(i, x, j, y, x.score);
        SameLast(i, x, j, y, v);
      }
      assert OfScore(i, x.score) == OfScore(j, x.score);
      StableIsUnique(i, j);
    }
  }

  lemma {:induction false} CandidatesAre(expressions: seq<Expression>, entries: map<string, Entry>, q: Query, x: Scored)
    ensures x in Candidates(expressions, entries, q) <==>
            var e := x.shown.expression;
            e in expressions && Matches(e, entries, q) && x == Scored(Score(e, entries, q), Shown(e, entries, q))
  {
    hide Score, Cosine, Overlap;
    if expressions != [] {
      CandidatesAre(expressions[..|expressions| - 1], entries, q, x);
      assert expressions == expressions[..|expressions| - 1] + [expressions[|expressions| - 1]];
    }
  }

  lemma CandidateBounded(expressions: seq<Expression>, entries: map<string, Entry>, q: Query, x: Scored)
    requires IsSquareRoot(q.root) && x in multiset(Candidates(expressions, entries, q))
    ensures -VECTOR_WEIGHT <= x.score <= 1.0
  {
    hide Score, Candidates;
    CandidatesAre(expressions, entries, q, x);
    ScoreBounded(x.shown.expression, entries, q);
  }

  /** A beginning of what is sorted scores no lower than the rest, and nothing is lost. */
  lemma TopIsLeast(sorted: seq<Scored>, n: nat)
    requires Descending(sorted) && n <= |sorted|
    ensures multiset(sorted[..n]) + multiset(sorted[n..]) == multiset(sorted) && Descending(sorted[..n])
    ensures forall x, y :: x in sorted[..n] && y in sorted[n..] ==> x.score >= y.score
  {
    assert sorted == sorted[..n] + sorted[n..];
  }

  /** Ranking keeps the best matching expressions, the best first: what is left out scores no higher than anything
      kept, nothing is lost otherwise, and every score is between -0.85 and 1. */
  lemma RankingIsTop(expressions: seq<Expression>, entries: map<string, Entry>, q: Query, limit: nat)
    requires IsSquareRoot(q.root)
    ensures var all := Candidates(expressions, entries, q);
            var kept := First(SortDown(all), limit);
            var left := SortDown(all)[|kept|..];
            && |kept| == (if |all| <= limit then |all| else limit)
            && multiset(kept) + multiset(left) == multiset(all)
            && Descending(kept)
            && (forall x, y :: x in kept && y in left ==> x.score >= y.score)
            && (forall x :: x in kept ==> -VECTOR_WEIGHT <= x.score <= 1.0)
  {
    hide Score, SortDown, Candidates;
    var all := Candidates(expressions, entries, q);
    var sorted := SortDown(all);
    SortDownSorts(all);
    assert |sorted| == |multiset(sorted)| == |multiset(all)| == |all|;
    var kept := First(sorted, limit);
    TopIsLeast(sorted, |kept|);
    forall x | x in kept ensures -VECTOR_WEIGHT <= x.score <= 1.0 {
      assert x in multiset(sorted);
      CandidateBounded(expressions, entries, q, x);
    }
  }

  lemma ShownScore(expressions: seq<Expression>, entries: map<string, Entry>, q: Query, x: Scored)
    requires x in multiset(Candidates(expressions, entries, q))
    ensures x.shown.selectorScore == q.round(x.score)
  {
    hide Score, Candidates, Cosine, Overlap;
    CandidatesAre(expressions, entries, q, x);
  }

  /** The scores shown are rounded, the order is that of the exact ones; rounding that keeps order shows it too. */
  lemma ShownDescending(expressions: seq<Expression>, entries: map<string, Entry>, q: Query, limit: nat)
    requires forall x, y :: x >= y ==> q.round(x) >= q.round(y)
    ensures var r := Display(First(SortDown(Candidates(expressions, entries, q)), limit));
            forall i, j :: 0 <= i < j < |r| ==> r[i].selectorScore >= r[j].selectorScore
  {
    hide Score, SortDown, Candidates;
    var sorted := SortDown(Candidates(expressions, entries, q));
    SortDownSorts(Candidates(expressions, entries, q));
    forall i, j | 0 <= i < j < |sorted| ensures sorted[i].shown.selectorScore >= sorted[j].shown.selectorScore {
      assert sorted[i] in multiset(sorted) && sorted[j] in multiset(sorted);
      ShownScore(expressions, entries, q, sorted[i]);
      ShownScore(expressions, entries, q, sorted[j]);
      assert q.round(sorted[i].score) >= q.round(sorted[j].score);
    }
  }
}
