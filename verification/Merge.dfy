/**
 The algebra of merging: what a merged candidate is, in terms of all the candidates with its key, and
 that merging what is already merged, in any grouping, changes nothing.
 */
module Merge {
  import opened Seqs
  import opened Candidates

  // ----- one key: folding the candidates that share it

  /** The candidates with a key, in order. */
  function Group(items: seq<Candidate>, key: seq<string>, host: Host): seq<Candidate> {
    if items == [] then []
    else
      var init, x := Group(items[..|items| - 1], key, host), items[|items| - 1];
      if Key(x.claim, host) == key then init + [x] else init
  }

  function FoldGroup(group: seq<Candidate>, host: Host): Candidate
    requires group != []
  {
    if |group| == 1 then WithMetadata(group[0], host)
    else MergeEvidence(FoldGroup(group[..|group| - 1], host), WithMetadata(group[|group| - 1], host), host)
  }

  /** Sources as metadata leaves them: no repeats, none blank. */
  ghost predicate Clean(c: Candidate) {
    NoRepeats(c.provenance) && forall s :: s in c.provenance ==> NotBlank(s)
  }

  lemma CleanIsFixed(sources: seq<string>)
    ensures var r := CleanProvenance(sources); NoRepeats(r) && forall s :: s in r ==> NotBlank(s)
    ensures (NoRepeats(sources) && forall s :: s in sources ==> NotBlank(s)) ==> CleanProvenance(sources) == sources
  {
    DistinctMembers(Filter(NotBlank, sources));
    FilterMembers(NotBlank, sources);
    if NoRepeats(sources) && forall s :: s in sources ==> NotBlank(s) {
      FilterAll(NotBlank, sources);
      DistinctId(sources);
    }
  }

  lemma MetadataClean(c: Candidate, host: Host)
    ensures Clean(WithMetadata(c, host))
    ensures WithMetadata(WithMetadata(c, host), host) == WithMetadata(c, host)
  {
    CleanIsFixed(c.provenance);
    CleanIsFixed(CleanProvenance(c.provenance));
  }

  /** What merging two clean candidates gives, without the metadata step. */
  lemma MergeClean(a: Candidate, b: Candidate, host: Host)
    requires Clean(a) && Clean(b)
    ensures var m := MergeEvidence(a, b, host);
            && Clean(m) && WithMetadata(m, host) == m
            && m.claim == a.claim
            && m.evidenceIds == FirstDistinct(a.evidenceIds + b.evidenceIds, MAX_EVIDENCE_IDS)
            && m.provenance == FirstDistinct(a.provenance + b.provenance, MAX_PROVENANCE)
            && m.candidateId == host.digest(a.claim.Kind(), Identity(a.claim, host))
  {
    var p := FirstDistinct(a.provenance + b.provenance, MAX_PROVENANCE);
    CutDistinct(a.provenance + b.provenance, MAX_PROVENANCE);
    forall s | s in p ensures NotBlank(s) {
      assert s in a.provenance + b.provenance;
    }
    CleanIsFixed(p);
  }

  /** Merging is associative, the caps on evidence and provenance included. */
  lemma MergeAssociative(a: Candidate, b: Candidate, c: Candidate, host: Host)
    requires Clean(a) && Clean(b) && Clean(c) && a.claim.Kind() == b.claim.Kind() == c.claim.Kind()
    ensures MergeEvidence(MergeEvidence(a, b, host), c, host) == MergeEvidence(a, MergeEvidence(b, c, host), host)
  {
    hide FirstDistinct, CleanProvenance, Identity;
    MergeClean(a, b, host);
    MergeClean(b, c, host);
    MergeClean(MergeEvidence(a, b, host), c, host);
    MergeClean(a, MergeEvidence(b, c, host), host);
    CutBoth(a.evidenceIds, b.evidenceIds, c.evidenceIds, MAX_EVIDENCE_IDS);
    CutBoth(a.provenance, b.provenance, c.provenance, MAX_PROVENANCE);
  }

  lemma CutBoth<T>(a: seq<T>, b: seq<T>, c: seq<T>, n: nat)
    ensures FirstDistinct(FirstDistinct(a + b, n) + c, n) == FirstDistinct(a + FirstDistinct(b + c, n), n)
  {
    CutLeft(a + b, c, n);
    CutRight(a, b + c, n);
    assert (a + b) + c == a + (b + c);
  }

  lemma {:induction false} FoldClean(group: seq<Candidate>, host: Host)
    requires group != []
    ensures Clean(FoldGroup(group, host)) && WithMetadata(FoldGroup(group, host), host) == FoldGroup(group, host)
    ensures FoldGroup(group, host).claim == group[0].claim
  {
    MetadataClean(group[|group| - 1], host);
    if |group| > 1 {
      FoldClean(group[..|group| - 1], host);
      MergeClean(FoldGroup(group[..|group| - 1], host), WithMetadata(group[|group| - 1], host), host);
    }
  }

  /** Folding a folded beginning is folding the whole. */
  lemma {:induction false} FoldLeft(a: seq<Candidate>, b: seq<Candidate>, host: Host)
    requires a != []
    ensures FoldGroup([FoldGroup(a, host)] + b, host) == FoldGroup(a + b, host)
    decreases |b|
  {
    hide MergeEvidence, WithMetadata;
    FoldClean(a, host);
    var f := [FoldGroup(a, host)];
    if b == [] {
      assert a + b == a && f + b == f;
    } else {
      assert (a + b)[..|a + b| - 1] == a + b[..|b| - 1];
      assert (f + b)[..|f + b| - 1] == f + b[..|b| - 1];
      FoldLeft(a, b[..|b| - 1], host);
    }
  }

  /** Merging with a folded end is folding the whole. */
  lemma {:induction false} FoldMerge(a: seq<Candidate>, b: seq<Candidate>, kind: Kind, host: Host)
    requires a != [] && b != [] && SameKind(a, kind) && SameKind(b, kind)
    ensures MergeEvidence(FoldGroup(a, host), FoldGroup(b, host), host) == FoldGroup(a + b, host)
    decreases |b|
  {
    var init, x := b[..|b| - 1], b[|b| - 1];
    assert (a + b)[..|a + b| - 1] == a + init;
    if |b| == 1 {
      assert a + init == a;
    } else {
      FoldMerge(a, init, kind, host);
      FoldClean(a, host);
      FoldClean(init, host);
      MetadataClean(x, host);
      MergeAssociative(FoldGroup(a, host), FoldGroup(init, host), WithMetadata(x, host), host);
    }
  }

  lemma FoldRight(a: seq<Candidate>, b: seq<Candidate>, kind: Kind, host: Host)
    requires b != [] && SameKind(a, kind) && SameKind(b, kind)
    ensures FoldGroup(a + [FoldGroup(b, host)], host) == FoldGroup(a + b, host)
  {
    FoldClean(b, host);
    if a == [] {
      assert a + b == b && a + [FoldGroup(b, host)] == [FoldGroup(b, host)];
    } else {
      SnocParts(a, FoldGroup(b, host));
      FoldMerge(a, b, kind, host);
    }
  }

  // ----- all keys: what deduplication gives

  /** `r` holds one candidate for each key of `items`, in the order the keys first occur, and each is the fold of
      all the items with its key. */
  ghost predicate IsMerged(r: seq<Candidate>, items: seq<Candidate>, host: Host) {
    && Keys(r, host) == Distinct(Keys(items, host))
    && forall k :: 0 <= k < |r| ==> FoldOf(r[k], items, host)
  }

  ghost predicate FoldOf(c: Candidate, items: seq<Candidate>, host: Host) {
    var group := Group(items, Key(c.claim, host), host);
    group != [] && c == FoldGroup(group, host)
  }

  lemma MergedIsUnique(r: seq<Candidate>, r': seq<Candidate>, items: seq<Candidate>, host: Host)
    requires IsMerged(r, items, host) && IsMerged(r', items, host)
    ensures r == r'
  {
    assert |r| == |Keys(r, host)| == |r'|;
    forall k | 0 <= k < |r| ensures r[k] == r'[k] {
      assert Key(r[k].claim, host) == Keys(r, host)[k] == Keys(r', host)[k] == Key(r'[k].claim, host);
    }
  }

  lemma GroupSnoc(items: seq<Candidate>, x: Candidate, key: seq<string>, host: Host)
    ensures Group(items + [x], key, host) ==
            if Key(x.claim, host) == key then Group(items, key, host) + [x] else Group(items, key, host)
  {
    SnocParts(items, x);
  }

  lemma {:induction false} GroupMembers(items: seq<Candidate>, key: seq<string>, host: Host)
    ensures forall c :: c in Group(items, key, host) <==> c in items && Key(c.claim, host) == key
    ensures Group(items, key, host) != [] <==> key in Keys(items, host)
  {
    if items != [] {
      var init, x := items[..|items| - 1], items[|items| - 1];
      GroupMembers(init, key, host);
      assert items == init + [x];
      KeysSnoc(init, x, host);
    }
  }

  lemma KeysSnoc(items: seq<Candidate>, x: Candidate, host: Host)
    ensures Keys(items + [x], host) == Keys(items, host) + [Key(x.claim, host)]
  {
  }

  /** An item with another key does not touch a fold. */
  lemma FoldOfOther(c: Candidate, items: seq<Candidate>, x: Candidate, host: Host)
    requires FoldOf(c, items, host) && Key(c.claim, host) != Key(x.claim, host)
    ensures FoldOf(c, items + [x], host)
  {
    GroupSnoc(items, x, Key(c.claim, host), host);
  }

  lemma FoldOfSame(c: Candidate, items: seq<Candidate>, x: Candidate, host: Host)
    requires FoldOf(c, items, host) && Key(c.claim, host) == Key(x.claim, host)
    ensures FoldOf(MergeEvidence(c, WithMetadata(x, host), host), items + [x], host)
  {
    var group := Group(items, Key(x.claim, host), host);
    GroupSnoc(items, x, Key(x.claim, host), host);
    SnocParts(group, x);
  }

  lemma FoldOfFirst(items: seq<Candidate>, x: Candidate, host: Host)
    requires Key(x.claim, host) !in Keys(items, host)
    ensures FoldOf(WithMetadata(x, host), items + [x], host)
  {
    var key := Key(x.claim, host);
    GroupSnoc(items, x, key, host);
    GroupMembers(items, key, host);
    assert Group(items + [x], key, host) == [x];
  }

  /** One insertion: the candidates stay the folds of their groups. */
  lemma InsertMerged(r: seq<Candidate>, items: seq<Candidate>, x: Candidate, host: Host)
    requires IsMerged(r, items, host)
    ensures IsMerged(Insert(r, WithMetadata(x, host), host), items + [x], host)
  {
    hide FoldOf, MergeEvidence;
    var y := WithMetadata(x, host);
    var key := Key(x.claim, host);
    var keys := Keys(items, host);
    var r' := Insert(r, y, host);
    KeysSnoc(items, x, host);
    SnocParts(keys, key);
    DistinctMembers(keys);
    DistinctHas(keys, key);
    if key in keys {
      var i := IndexOf(Keys(r, host), key);
      MergeClaim(r[i], y, host);
      assert Keys(r', host) == Keys(r, host);
      forall k | 0 <= k < |r'| ensures FoldOf(r'[k], items + [x], host) {
        if k == i {
          FoldOfSame(r[i], items, x, host);
        } else {
          assert Keys(r, host)[k] != Keys(r, host)[i];
          FoldOfOther(r[k], items, x, host);
        }
      }
    } else {
      KeysSnoc(r, y, host);
      forall k | 0 <= k < |r'| ensures FoldOf(r'[k], items + [x], host) {
        if k == |r| {
          FoldOfFirst(items, x, host);
        } else {
          assert Keys(r, host)[k] in Keys(r, host);
          DistinctHas(keys, Keys(r, host)[k]);
          FoldOfOther(r[k], items, x, host);
        }
      }
    }
  }

  lemma MergeClaim(a: Candidate, b: Candidate, host: Host)
    ensures MergeEvidence(a, b, host).claim == a.claim
  {
  }

  /** Deduplication gives one candidate per key, each the fold of all items with that key. */
  lemma {:induction false} DedupIsMerged(items: seq<Candidate>, host: Host)
    ensures IsMerged(Dedup(items, host), items, host)
  {
    if items != [] {
      var init, x := items[..|items| - 1], items[|items| - 1];
      DedupIsMerged(init, host);
      InsertMerged(Dedup(init, host), init, x, host);
      assert items == init + [x];
    }
  }

  lemma KeysConcat(a: seq<Candidate>, b: seq<Candidate>, host: Host)
    ensures Keys(a + b, host) == Keys(a, host) + Keys(b, host)
  {
  }

  lemma {:induction false} GroupConcat(a: seq<Candidate>, b: seq<Candidate>, key: seq<string>, host: Host)
    ensures Group(a + b, key, host) == Group(a, key, host) + Group(b, key, host)
    decreases |b|
  {
    if b == [] {
      assert a + b == a;
    } else {
      assert (a + b)[..|a + b| - 1] == a + b[..|b| - 1];
      GroupConcat(a, b[..|b| - 1], key, host);
    }
  }

  /** In a list without repeated keys a key has at most one candidate. */
  lemma GroupAlone(r: seq<Candidate>, i: nat, host: Host)
    requires i < |r| && NoRepeats(Keys(r, host))
    ensures Group(r, Key(r[i].claim, host), host) == [r[i]]
  {
    hide Key, Group;
    var key := Key(r[i].claim, host);
    var a, b := r[..i], r[i + 1..];
    assert r == (a + [r[i]]) + b;
    GroupConcat(a + [r[i]], b, key, host);
    GroupSnoc(a, r[i], key, host);
    GroupMembers(a, key, host);
    GroupMembers(b, key, host);
    assert key !in Keys(a, host) by {
      forall k | 0 <= k < |a| ensures Keys(a, host)[k] != key {
        assert Keys(r, host)[k] != Keys(r, host)[i];
      }
    }
    assert key !in Keys(b, host) by {
      forall k | 0 <= k < |b| ensures Keys(b, host)[k] != key {
        assert Keys(r, host)[i + 1 + k] != Keys(r, host)[i];
      }
    }
  }

  lemma GroupOfDedup(items: seq<Candidate>, key: seq<string>, host: Host)
    ensures Group(Dedup(items, host), key, host) ==
            if Group(items, key, host) == [] then [] else [FoldGroup(Group(items, key, host), host)]
  {
    hide FoldGroup, Dedup;
    var r := Dedup(items, host);
    DedupIsMerged(items, host);
    DistinctMembers(Keys(items, host));
    DistinctHas(Keys(items, host), key);
    GroupMembers(items, key, host);
    GroupMembers(r, key, host);
    if key in Keys(r, host) {
      var i := IndexOf(Keys(r, host), key);
      GroupAlone(r, i, host);
      assert FoldOf(r[i], items, host);
    }
  }

  /** Deduplicating a deduplicated beginning changes nothing. */
  lemma AbsorbLeft(a: seq<Candidate>, b: seq<Candidate>, host: Host)
    ensures Dedup(Dedup(a, host) + b, host) == Dedup(a + b, host)
  {
    var items := Dedup(a, host) + b;
    var r := Dedup(items, host);
    DedupIsMerged(items, host);
    DedupIsMerged(a, host);
    KeysConcat(a, b, host);
    KeysConcat(Dedup(a, host), b, host);
    DistinctLeft(Keys(a, host), Keys(b, host));
    forall k | 0 <= k < |r| ensures FoldOf(r[k], a + b, host) {
      var key := Key(r[k].claim, host);
      assert FoldOf(r[k], items, host);
      GroupConcat(a, b, key, host);
      GroupConcat(Dedup(a, host), b, key, host);
      GroupOfDedup(a, key, host);
      if Group(a, key, host) != [] {
        FoldLeft(Group(a, key, host), Group(b, key, host), host);
      }
    }
    DedupIsMerged(a + b, host);
    MergedIsUnique(r, Dedup(a + b, host), a + b, host);
  }

  /** Deduplicating a deduplicated end changes nothing. */
  lemma AbsorbRight(a: seq<Candidate>, b: seq<Candidate>, kind: Kind, host: Host)
    requires SameKind(a, kind) && SameKind(b, kind)
    ensures Dedup(a + Dedup(b, host), host) == Dedup(a + b, host)
  {
    var items := a + Dedup(b, host);
    var r := Dedup(items, host);
    DedupIsMerged(items, host);
    DedupIsMerged(b, host);
    KeysConcat(a, b, host);
    KeysConcat(a, Dedup(b, host), host);
    DistinctRight(Keys(a, host), Keys(b, host));
    forall k | 0 <= k < |r| ensures FoldOf(r[k], a + b, host) {
      var key := Key(r[k].claim, host);
      assert FoldOf(r[k], items, host);
      GroupConcat(a, b, key, host);
      GroupConcat(a, Dedup(b, host), key, host);
      GroupOfDedup(b, key, host);
      GroupMembers(a, key, host);
      GroupMembers(b, key, host);
      if Group(b, key, host) != [] {
        FoldRight(Group(a, key, host), Group(b, key, host), kind, host);
      }
    }
    DedupIsMerged(a + b, host);
    MergedIsUnique(r, Dedup(a + b, host), a + b, host);
  }

  lemma DedupIdempotent(a: seq<Candidate>, host: Host)
    ensures Dedup(Dedup(a, host), host) == Dedup(a, host)
  {
    AbsorbLeft(a, [], host);
    assert a + [] == a && Dedup(a, host) + [] == Dedup(a, host);
  }

  // ----- a merged candidate without the loop

  function AllEvidence(group: seq<Candidate>): seq<string> {
    if group == [] then [] else AllEvidence(group[..|group| - 1]) + group[|group| - 1].evidenceIds
  }

  function AllSources(group: seq<Candidate>): seq<string> {
    if group == [] then [] else AllSources(group[..|group| - 1]) + CleanProvenance(group[|group| - 1].provenance)
  }

  // ----- what merged candidates claim

  ghost function Claims(items: seq<Candidate>): (r: seq<Claim>)
    ensures |r| == |items| && forall k :: 0 <= k < |items| ==> r[k] == items[k].claim
  {
    seq(|items|, k requires 0 <= k < |items| => items[k].claim)
  }

  /** The k-th item makes the claim, and no earlier one says the same. */
  ghost predicate FirstSays(items: seq<Candidate>, k: nat, claim: Claim, host: Host) {
    k < |items| && claim == items[k].claim && forall l :: 0 <= l < k ==> !SaysSame(items[l].claim, claim, host)
  }

  ghost function SayingFirst(items: seq<Candidate>, host: Host): (nat, Claim) -> bool {
    (k: nat, claim: Claim) => FirstSays(items, k, claim, host)
  }

  lemma KeyedBefore(items: seq<Candidate>, x: Candidate, kind: Kind, host: Host)
    requires SameKind(items, kind) && x.claim.Kind() == kind
    ensures FirstSays(items + [x], |items|, x.claim, host) <==> Key(x.claim, host) !in Keys(items, host)
  {
    hide Key, SaysSame;
    var all := items + [x];
    forall l | 0 <= l < |items|
      ensures all[l] == items[l] && (SaysSame(items[l].claim, x.claim, host) <==>
                                     Keys(items, host)[l] == Key(x.claim, host))
    {
      assert items[l] in items;
      KeyIs(items[l].claim, x.claim, host);
    }
  }

  lemma SayingInit(items: seq<Candidate>, x: Candidate, host: Host)
    ensures forall k: nat, claim :: k < |items| ==>
              (SayingFirst(items, host)(k, claim) <==> SayingFirst(items + [x], host)(k, claim))
  {
    hide SaysSame;
    forall k | 0 <= k < |items| ensures (items + [x])[k] == items[k] {
    }
  }

  lemma InsertClaims(merged: seq<Candidate>, item: Candidate, host: Host)
    ensures Claims(Insert(merged, item, host)) ==
            if Key(item.claim, host) in Keys(merged, host) then Claims(merged) else Claims(merged) + [item.claim]
  {
    hide Key, WithMetadata, MergeEvidence;
    if Key(item.claim, host) in Keys(merged, host) {
      var i := IndexOf(Keys(merged, host), Key(item.claim, host));
      MergeKeepsClaim(merged[i], item, host);
    }
  }

  lemma MergeKeepsClaim(a: Candidate, b: Candidate, host: Host)
    ensures MergeEvidence(a, b, host).claim == a.claim
  {
  }

  /** The claims that remain are those no earlier item says the same as, in the order of the items. */
  lemma {:induction false} ClaimsMerged(items: seq<Candidate>, kind: Kind, host: Host)
    requires SameKind(items, kind)
    ensures Yields(Claims(Dedup(items, host)), |items|, SayingFirst(items, host))
  {
    hide Yields, Insert, Key, WithMetadata, FirstSays, IsMerged;
    if items == [] {
      NothingYields(Claims([]), SayingFirst(items, host));
    } else {
      var init, x := items[..|items| - 1], items[|items| - 1];
      var item, r, gives := WithMetadata(x, host), Dedup(init, host), SayingFirst(items, host);
      assert items == init + [x];
      assert SameKind(init, kind) && x in items;
      ClaimsMerged(init, kind, host);
      SayingInit(init, x, host);
      YieldsSame(Claims(r), |init|, SayingFirst(init, host), gives);
      YieldsSnoc(Claims(r), |init|, gives);
      InsertClaims(r, item, host);
      MetadataKeepsClaim(x, host);
      KeyedBefore(init, x, kind, host);
      DedupKeys(init, x, host);
      OnlyOwnClaim(items, host);
    }
  }

  lemma MetadataKeepsClaim(c: Candidate, host: Host)
    ensures WithMetadata(c, host).claim == c.claim
  {
  }

  lemma OnlyOwnClaim(items: seq<Candidate>, host: Host)
    ensures forall k: nat, claim :: SayingFirst(items, host)(k, claim) ==> k < |items| && claim == items[k].claim
  {
  }

  lemma DedupKeys(items: seq<Candidate>, x: Candidate, host: Host)
    ensures Key(x.claim, host) in Keys(Dedup(items, host), host) <==> Key(x.claim, host) in Keys(items, host)
  {
    DedupIsMerged(items, host);
    DistinctMembers(Keys(items, host));
  }

  /** Two or more candidates merge to the first one's claim, and to the first twelve distinct evidence ids and the
      first sixty-four distinct sources of all of them. */
  lemma {:induction false} FoldIs(group: seq<Candidate>, host: Host)
    requires |group| >= 2
    ensures var f := FoldGroup(group, host);
            && f.claim == group[0].claim
            && f.evidenceIds == FirstDistinct(AllEvidence(group), MAX_EVIDENCE_IDS)
            && f.provenance == FirstDistinct(AllSources(group), MAX_PROVENANCE)
  {
    hide MergeEvidence, FirstDistinct, CleanProvenance, Clean;
    var init, x := group[..|group| - 1], group[|group| - 1];
    var a, b := FoldGroup(init, host), WithMetadata(x, host);
    FoldClean(init, host);
    MetadataClean(x, host);
    MergeClean(a, b, host);
    if |init| == 1 {
      assert init[..0] == [];
      assert AllEvidence(init) == init[0].evidenceIds;
      assert AllSources(init) == CleanProvenance(init[0].provenance);
    } else {
      FoldIs(init, host);
      CutLeft(AllEvidence(init), x.evidenceIds, MAX_EVIDENCE_IDS);
      CutLeft(AllSources(init), b.provenance, MAX_PROVENANCE);
    }
  }

  /** `top` is the greatest of the scores. */
  ghost predicate IsBest(top: real, scores: seq<real>) {
    top in scores && forall s :: s in scores ==> s <= top
  }

  function Confidences(group: seq<Candidate>): (r: seq<real>)
    ensures |r| == |group|
  {
    seq(|group|, k requires 0 <= k < |group| => group[k].confidence)
  }

  function Importances(group: seq<Candidate>): (r: seq<real>)
    ensures |r| == |group|
  {
    seq(|group|, k requires 0 <= k < |group| => group[k].importance)
  }

  /** Merged confidence is the best one; so is merged importance, for memories. */
  lemma {:induction false} FoldScores(group: seq<Candidate>, host: Host)
    requires group != []
    ensures IsBest(FoldGroup(group, host).confidence, Confidences(group))
    ensures if group[0].claim.MemoryClaim? then IsBest(FoldGroup(group, host).importance, Importances(group))
            else FoldGroup(group, host).importance == group[0].importance
  {
    hide MergeEvidence, WithMetadata, IsBest;
    var init, x := group[..|group| - 1], group[|group| - 1];
    MetadataScores(x, host);
    if |group| > 1 {
      FoldScores(init, host);
      FoldClean(init, host);
      var before := FoldGroup(init, host);
      MergeScores(before, WithMetadata(x, host), host);
      assert Confidences(group) == Confidences(init) + [x.confidence];
      assert Importances(group) == Importances(init) + [x.importance];
      BestOfMore(before.confidence, Confidences(init), x.confidence);
      if group[0].claim.MemoryClaim? {
        BestOfMore(before.importance, Importances(init), x.importance);
      }
    } else {
      assert Confidences(group) == [x.confidence] && Importances(group) == [x.importance];
      BestOfOne(x.confidence);
      BestOfOne(x.importance);
    }
  }

  lemma MetadataScores(c: Candidate, host: Host)
    ensures var m := WithMetadata(c, host);
            m.confidence == c.confidence && m.importance == c.importance && m.claim == c.claim
  {
  }

  lemma MergeScores(a: Candidate, b: Candidate, host: Host)
    ensures var m := MergeEvidence(a, b, host);
            && m.confidence == Max(a.confidence, b.confidence)
            && m.importance == (if a.claim.MemoryClaim? then Max(a.importance, b.importance) else a.importance)
  {
    hide CleanProvenance, FirstDistinct;
  }

  lemma BestOfMore(top: real, scores: seq<real>, x: real)
    requires IsBest(top, scores)
    ensures IsBest(Max(top, x), scores + [x])
  {
  }

  lemma BestOfOne(x: real)
    ensures IsBest(x, [x])
  {
  }

  // ----- whole results

  lemma {:induction false} DedupClaims(items: seq<Candidate>, kind: Kind, host: Host)
    requires SameKind(items, kind)
    ensures SameKind(Dedup(items, host), kind)
  {
    if items != [] {
      DedupClaims(items[..|items| - 1], kind, host);
    }
  }

  lemma {:induction false} GatherKind(results: seq<HistoryCandidates>, kind: Kind)
    requires forall r :: r in results ==> r.Sorted()
    ensures SameKind(Gather(results, kind), kind)
  {
    if results != [] {
      var last := results[|results| - 1];
      GatherKind(results[..|results| - 1], kind);
      assert last.Sorted();
    }
  }

  lemma MergeSorted(results: seq<HistoryCandidates>, host: Host)
    requires forall r :: r in results ==> r.Sorted()
    ensures MergeWindows(results, host).Sorted()
  {
    forall kind: Kind ensures SameKind(Dedup(Gather(results, kind), host), kind) {
      GatherKind(results, kind);
      DedupClaims(Gather(results, kind), kind, host);
    }
  }

  lemma {:induction false} GatherConcat(a: seq<HistoryCandidates>, b: seq<HistoryCandidates>, kind: Kind)
    ensures Gather(a + b, kind) == Gather(a, kind) + Gather(b, kind)
    decreases |b|
  {
    if b == [] {
      assert a + b == a;
    } else {
      assert (a + b)[..|a + b| - 1] == a + b[..|b| - 1];
      GatherConcat(a, b[..|b| - 1], kind);
    }
  }

  /** Each group of results merged by itself. */
  function MergeEach(groups: seq<seq<HistoryCandidates>>, host: Host): seq<HistoryCandidates> {
    if groups == [] then [] else MergeEach(groups[..|groups| - 1], host) + [MergeWindows(groups[|groups| - 1], host)]
  }

  lemma {:induction false} RegroupKind(groups: seq<seq<HistoryCandidates>>, kind: Kind, host: Host)
    requires forall g, r :: g in groups && r in g ==> r.Sorted()
    ensures Dedup(Gather(MergeEach(groups, host), kind), host) == Dedup(Gather(Flatten(groups), kind), host)
    ensures forall r :: r in MergeEach(groups, host) ==> r.Sorted()
  {
    if groups != [] {
      var init, g := groups[..|groups| - 1], groups[|groups| - 1];
      assert g in groups;
      RegroupKind(init, kind, host);
      MergeSorted(g, host);
      var x, y, z := Gather(MergeEach(init, host), kind), Gather(Flatten(init), kind), Gather(g, kind);
      GatherKind(MergeEach(init, host), kind);
      GatherKind(g, kind);
      SnocParts(MergeEach(init, host), MergeWindows(g, host));
      assert Gather(MergeEach(groups, host), kind) == x + Dedup(z, host);
      GatherConcat(Flatten(init), g, kind);
      AbsorbRight(x, z, kind, host);
      AbsorbLeft(x, z, host);
      AbsorbLeft(y, z, host);
    }
  }

  /** Merging already merged groups is merging everything at once, whatever the grouping. */
  lemma Regroup(groups: seq<seq<HistoryCandidates>>, host: Host)
    requires forall g, r :: g in groups && r in g ==> r.Sorted()
    ensures MergeWindows(MergeEach(groups, host), host) == MergeWindows(Flatten(groups), host)
  {
    forall kind: Kind
      ensures Dedup(Gather(MergeEach(groups, host), kind), host) == Dedup(Gather(Flatten(groups), kind), host)
    {
      RegroupKind(groups, kind, host);
    }
  }

  lemma MergeIdempotent(results: seq<HistoryCandidates>, host: Host)
    ensures MergeWindows([MergeWindows(results, host)], host) == MergeWindows(results, host)
  {
    hide Dedup, Gather;
    var m := MergeWindows(results, host);
    forall kind: Kind ensures Dedup(Gather([m], kind), host) == m.Of(kind) {
      GatherOne(m, kind);
      MergedOf(results, kind, host);
      DedupIdempotent(Gather(results, kind), host);
    }
    SameMerge([m], m, host);
  }

  lemma GatherOne(c: HistoryCandidates, kind: Kind)
    ensures Gather([c], kind) == c.Of(kind)
  {
    assert [c][..0] == [];
    assert [] + c.Of(kind) == c.Of(kind);
  }

  lemma MergedOf(results: seq<HistoryCandidates>, kind: Kind, host: Host)
    ensures MergeWindows(results, host).Of(kind) == Dedup(Gather(results, kind), host)
  {
    hide Dedup, Gather;
  }

  lemma SameMerge(results: seq<HistoryCandidates>, m: HistoryCandidates, host: Host)
    requires forall kind: Kind :: Dedup(Gather(results, kind), host) == m.Of(kind)
    ensures MergeWindows(results, host) == m
  {
    hide Dedup, Gather;
    assert Dedup(Gather(results, Expression), host) == m.expressions
           && Dedup(Gather(results, Behavior), host) == m.behaviors;
    assert Dedup(Gather(results, Jargon), host) == m.jargons && Dedup(Gather(results, Memory), host) == m.memories;
    assert Dedup(Gather(results, Profile), host) == m.profiles;
  }

  /** What the candidates of a group come to: the first claim, its id, the first twelve ids and sixty-four sources of
      all, and the best scores; a candidate by itself keeps all its ids and sources but repeated and blank sources. */
  ghost predicate IsFold(c: Candidate, group: seq<Candidate>, host: Host)
    requires group != []
  {
    && c.claim == group[0].claim && c.candidateId == host.digest(c.claim.Kind(), Identity(c.claim, host))
    && c.evidenceIds == (if |group| == 1 then group[0].evidenceIds else FirstDistinct(AllEvidence(group), 12))
    && c.provenance == (if |group| == 1 then Distinct(Filter(NotBlank, group[0].provenance))
                        else FirstDistinct(AllSources(group), 64))
    && IsBest(c.confidence, Confidences(group))
    && (if c.claim.MemoryClaim? then IsBest(c.importance, Importances(group)) else c.importance == group[0].importance)
  }

  lemma BestOnce(x: real, y: real, scores: seq<real>)
    requires IsBest(x, scores) && IsBest(y, scores)
    ensures x == y
  {
  }

  /** A group folds to that, and to nothing else. */
  lemma FoldExactly(group: seq<Candidate>, host: Host, c: Candidate)
    requires group != []
    ensures c == FoldGroup(group, host) <==> IsFold(c, group, host)
  {
    hide IsBest, FirstDistinct, Identity, MergeEvidence, AllEvidence, AllSources, Clean;
    var f := FoldGroup(group, host);
    FoldClean(group, host);
    FoldScores(group, host);
    FoldNamed(group, host);
    if |group| >= 2 {
      FoldIs(group, host);
    }
    if IsFold(c, group, host) {
      BestOnce(c.confidence, f.confidence, Confidences(group));
      if c.claim.MemoryClaim? {
        BestOnce(c.importance, f.importance, Importances(group));
      }
    }
  }

  lemma FoldNamed(group: seq<Candidate>, host: Host)
    requires group != []
    ensures var f := FoldGroup(group, host); f.candidateId == host.digest(f.claim.Kind(), Identity(f.claim, host))
  {
    FoldClean(group, host);
    hide FoldGroup;
  }
}
