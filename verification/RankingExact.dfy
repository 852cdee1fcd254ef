/** What the ranking of expressions is, apart from how it is computed: its two scores by their squares, and the list. */
module RankingExact {
  import opened Seqs
  import opened VectorRanking

  /** The cosine of the angle of two vectors: of the sign of their dot product, its square the squared dot product over
      the product of the squared norms; 0 for vectors that are empty, of unequal length or zero. */
  ghost predicate IsCosine(x: real, a: seq<real>, b: seq<real>) {
    if a == [] || |a| != |b| || Dot(a, a) <= 0.0 || Dot(b, b) <= 0.0 then x == 0.0
    else x * x * (Dot(a, a) * Dot(b, b)) == Dot(a, b) * Dot(a, b) && (x >= 0.0 <==> Dot(a, b) >= 0.0)
  }

  /** The shared tokens: its square is their squared number over the product of the numbers of tokens. */
  ghost predicate IsShared(x: real, query: set<string>, tokens: set<string>) {
    if query == {} || tokens == {} then x == 0.0
    else x >= 0.0 && x * x * (|query| * |tokens|) as real == (|query * tokens| * |query * tokens|) as real
  }

  /** The k-th expression has an embedding of the query's model and dimension, and these are its scores. */
  ghost predicate Scores(expressions: seq<Expression>, entries: map<string, Entry>, q: Query, k: nat, x: Scored) {
    && k < |expressions|
    && var e := expressions[k];
       && e.fingerprint in entries
       && entries[e.fingerprint].model == q.model && entries[e.fingerprint].dimension == |q.embedding|
       && exists cosine, shared ::
            && IsCosine(cosine, q.embedding, entries[e.fingerprint].embedding) && IsShared(shared, q.tokens, e.tokens)
            && x.score == 0.85 * cosine + 0.15 * shared
            && x.shown == Ranked(e, q.round(x.score), q.round(cosine), q.round(shared))
  }

  ghost function Scoring(expressions: seq<Expression>, entries: map<string, Entry>, q: Query): (nat, Scored) -> bool {
    (k: nat, x: Scored) => Scores(expressions, entries, q, k, x)
  }

  /** The best of the scored expressions, the best first, equal ones in order, at most `limit`. */
  ghost predicate IsRanking(r: seq<Ranked>, expressions: seq<Expression>, entries: map<string, Entry>, q: Query,
                            limit: nat)
  {
    exists scored, sorted ::
      && Yields(scored, |expressions|, Scoring(expressions, entries, q))
      && Descending(sorted) && (forall score :: OfScore(sorted, score) == OfScore(scored, score))
      && r == Display(if |sorted| <= limit then sorted else sorted[..limit])
  }

  // ----- the scores

  lemma SquareScaled(x: real, y: real, r: real)
    requires r > 0.0
    ensures x * r == y ==> x * x * (r * r) == y * y && (x >= 0.0 <==> y >= 0.0)
  {
    if x * r == y {
      assert x * x * (r * r) == (x * r) * (x * r);
      if y >= 0.0 {
        SignOf(x, r);
      }
    }
  }

  lemma SameSquare(x: real, y: real, r: real)
    requires r > 0.0 && x * x * r == y * y * r && (x >= 0.0 <==> y >= 0.0)
    ensures x == y
  {
    assert (x * x - y * y) * r == 0.0;
    assert x * x == y * y;
    BySquares(x, if y >= 0.0 then y else -y);
    BySquares(y, if x >= 0.0 then x else -x);
  }

  lemma CosineIs(a: seq<real>, b: seq<real>, root: real -> real, x: real)
    requires IsSquareRoot(root)
    ensures IsCosine(x, a, b) <==> x == Cosine(a, b, root)
  {
    hide Dot, Normalized;
    if a != [] && |a| == |b| {
      if Dot(a, a) > 0.0 && Dot(b, b) > 0.0 {
        var p := Dot(a, a) * Dot(b, b);
        NormalizedIs(Dot(a, b), Dot(a, a), Dot(b, b), root);
        PositiveProduct(Dot(a, a), Dot(b, b));
        var cosine := Cosine(a, b, root);
        RootSquared(root, p);
        QuotientBack(Dot(a, b), root(p));
        SquareScaled(cosine, Dot(a, b), root(p));
        if IsCosine(x, a, b) {
          SameSquare(x, cosine, p);
        }
      } else {
        NoNorm(Dot(a, b), Dot(a, a), Dot(b, b), root);
      }
    }
  }

  lemma RootSquared(root: real -> real, p: real)
    requires IsSquareRoot(root) && p > 0.0
    ensures root(p) > 0.0 && root(p) * root(p) == p
  {
    RootPositive(root, p);
  }

  lemma QuotientBack(y: real, r: real)
    requires r > 0.0
    ensures y / r * r == y
  {
  }

  lemma NoNorm(dot: real, a: real, b: real, root: real -> real)
    requires a <= 0.0 || b <= 0.0
    ensures Normalized(dot, a, b, root) == 0.0
  {
  }

  lemma SharedIs(query: set<string>, tokens: set<string>, root: real -> real, x: real)
    requires IsSquareRoot(root)
    ensures IsShared(x, query, tokens) <==> x == Overlap(query, tokens, root)
  {
    if query != {} && tokens != {} {
      var n, p := |query * tokens|, (|query| * |tokens|) as real;
      var overlap := Overlap(query, tokens, root);
      RootSquared(root, p);
      assert overlap == n as real / root(p);
      QuotientBack(n as real, root(p));
      SquareScaled(overlap, n as real, root(p));
      assert (n * n) as real == n as real * n as real;
      if IsShared(x, query, tokens) {
        SameSquare(x, overlap, p);
      }
    }
  }

  // ----- the list

  lemma ScoresAre(expressions: seq<Expression>, entries: map<string, Entry>, q: Query, k: nat)
    requires IsSquareRoot(q.root) && k < |expressions|
    ensures forall x :: Scores(expressions, entries, q, k, x) <==>
              var e := expressions[k];
              Matches(e, entries, q) && x == Scored(Score(e, entries, q), Shown(e, entries, q))
  {
    hide IsCosine, IsShared, Cosine, Overlap;
    var e := expressions[k];
    if e.fingerprint in entries {
      forall x ensures IsCosine(x, q.embedding, entries[e.fingerprint].embedding) <==>
                       x == Cosine(q.embedding, entries[e.fingerprint].embedding, q.root)
      {
        CosineIs(q.embedding, entries[e.fingerprint].embedding, q.root, x);
      }
      forall x ensures IsShared(x, q.tokens, e.tokens) <==> x == Overlap(q.tokens, e.tokens, q.root) {
        SharedIs(q.tokens, e.tokens, q.root, x);
      }
    }
  }

  lemma {:induction false} CandidatesScore(expressions: seq<Expression>, n: nat, entries: map<string, Entry>, q: Query)
    requires IsSquareRoot(q.root) && n <= |expressions|
    ensures Yields(Candidates(expressions[..n], entries, q), n, Scoring(expressions, entries, q))
  {
    hide Yields, Scores, Score, Shown, Matches, IsSquareRoot;
    var gives := Scoring(expressions, entries, q);
    if n == 0 {
      NothingYields([], gives);
    } else {
      assert expressions[..n][..n - 1] == expressions[..n - 1];
      CandidatesScore(expressions, n - 1, entries, q);
      YieldsSnoc(Candidates(expressions[..n - 1], entries, q), n - 1, gives);
      ScoresAre(expressions, entries, q, n - 1);
      MatchesHas(expressions[n - 1], entries, q);
      if Matches(expressions[n - 1], entries, q) {
        var e := expressions[n - 1];
        assert gives(n - 1, Scored(Score(e, entries, q), Shown(e, entries, q)));
      }
    }
  }

  lemma MatchesHas(e: Expression, entries: map<string, Entry>, q: Query)
    ensures Matches(e, entries, q) ==> e.fingerprint in entries
  {
  }

  /** The ranking computed is a ranking so specified, and there is one only. */
  lemma RankingIs(expressions: seq<Expression>, entries: map<string, Entry>, q: Query, limit: nat)
    requires IsSquareRoot(q.root)
    ensures forall r :: IsRanking(r, expressions, entries, q, limit) <==>
              r == Display(First(SortDown(Candidates(expressions, entries, q)), limit))
  {
    hide Yields, Scores, Candidates, SortDown, Descending, IsSquareRoot, Display, OfScore;
    var all := Candidates(expressions, entries, q);
    assert expressions[..|expressions|] == expressions;
    CandidatesScore(expressions, |expressions|, entries, q);
    SortDownSorts(all);
    forall score ensures OfScore(SortDown(all), score) == OfScore(all, score) {
      SortDownStable(all, score);
    }
    forall r | IsRanking(r, expressions, entries, q, limit) ensures r == Display(First(SortDown(all), limit)) {
      var scored, sorted :| Yields(scored, |expressions|, Scoring(expressions, entries, q))
        && Descending(sorted) && (forall score :: OfScore(sorted, score) == OfScore(scored, score))
        && r == Display(if |sorted| <= limit then sorted else sorted[..limit]);
      ScoringOnce(expressions, entries, q);
      YieldsOnce(scored, all, |expressions|, Scoring(expressions, entries, q));
      StableIsUnique(sorted, SortDown(all));
    }
  }

  lemma ScoringOnce(expressions: seq<Expression>, entries: map<string, Entry>, q: Query)
    requires IsSquareRoot(q.root)
    ensures forall k: nat, x, y ::
              Scoring(expressions, entries, q)(k, x) && Scoring(expressions, entries, q)(k, y) ==> x == y
  {
    hide Score, Shown, Matches, IsSquareRoot, IsCosine, IsShared;
    forall k: nat, x, y | Scores(expressions, entries, q, k, x) && Scores(expressions, entries, q, k, y)
      ensures x == y
    {
      ScoresAre(expressions, entries, q, k);
    }
  }
}
