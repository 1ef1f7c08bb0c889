/** The scoring and selection of the technical matcher: `_score_match`
    rates a requirement line against one catalog entry, and `match_specs`
    keeps, for each extracted line, the three best-rated entries. */
module Matching {
  import opened Seqs
  import opened Text
  import opened Scope

  /** One row of the SKU catalog; every field is kept as text. */
  datatype Sku = Sku(
    skuId: string,
    cores: string,
    areaSqmm: string,
    insulation: string,
    material: string,
    voltage: string)

  /** A catalog entry that scored above zero, with its score. */
  datatype Candidate = Candidate(
    skuId: string,
    score: int,
    cores: string,
    areaSqmm: string,
    insulation: string,
    material: string,
    voltage: string)

  /** The matches of one extracted requirement line. */
  datatype MatchResult = MatchResult(rfpItem: string, topMatches: seq<Candidate>)

  /** An attribute counts when it is non-empty and occurs in the line. */
  predicate Occurs(attr: string, spec: string)
  {
    attr != [] && Contains(spec, attr)
  }

  /** Whether any of the four attributes counts for the line. */
  predicate AnyHit(specLine: string, sku: Sku)
  {
    var spec := Lower(specLine);
    Occurs(sku.cores, spec) || Occurs(sku.areaSqmm, spec) ||
    Occurs(Lower(sku.insulation), spec) || Occurs(Lower(sku.material), spec)
  }

  /** The score of an entry for a line: 30 for the cores, 30 for the
      cross-section, 20 for the insulation and 20 for the material, each
      earned when that attribute occurs in the lower-cased line. Cores and
      cross-section are compared as written, insulation and material
      lower-cased. */
  function Score(specLine: string, sku: Sku): (r: int)
    ensures 0 <= r <= 100
    ensures r == 0 <==> !AnyHit(specLine, sku)
  {
    var spec := Lower(specLine);
    (if Occurs(sku.cores, spec) then 30 else 0) +
    (if Occurs(sku.areaSqmm, spec) then 30 else 0) +
    (if Occurs(Lower(sku.insulation), spec) then 20 else 0) +
    (if Occurs(Lower(sku.material), spec) then 20 else 0)
  }

  /** `_score_match`: the accumulating computation of `Score`. */
  method ScoreMatch(specLine: string, sku: Sku) returns (score: int)
    ensures score == Score(specLine, sku)
  {
    var spec := Lower(specLine);
    score := 0;
    if sku.cores != [] && Contains(spec, sku.cores) {
      score := score + 30;
    }
    if sku.areaSqmm != [] && Contains(spec, sku.areaSqmm) {
      score := score + 30;
    }
    if sku.insulation != [] && Contains(spec, Lower(sku.insulation)) {
      score := score + 20;
    }
    if sku.material != [] && Contains(spec, Lower(sku.material)) {
      score := score + 20;
    }
  }

  /** A cores or cross-section value with an upper-case letter never occurs
      in the lower-cased line, so it adds nothing to the score. */
  lemma UppercaseCoresNeverMatch(specLine: string, sku: Sku, k: nat)
    requires k < |sku.cores| && IsUpper(sku.cores[k])
    ensures Score(specLine, sku) == Score(specLine, sku.(cores := []))
  {
    UpperNeverInLower(specLine, sku.cores, k);
  }

  lemma UppercaseAreaNeverMatches(specLine: string, sku: Sku, k: nat)
    requires k < |sku.areaSqmm| && IsUpper(sku.areaSqmm[k])
    ensures Score(specLine, sku) == Score(specLine, sku.(areaSqmm := []))
  {
    UpperNeverInLower(specLine, sku.areaSqmm, k);
  }

  /** The case of the line, and of the insulation and material values,
      does not matter. */
  lemma ScoreIgnoresCase(specLine: string, sku: Sku)
    ensures Score(Lower(specLine), sku) == Score(specLine, sku)
    ensures Score(specLine, sku.(insulation := Lower(sku.insulation), material := Lower(sku.material)))
            == Score(specLine, sku)
  {
    LowerIsLower(specLine);
    LowerIsLower(sku.insulation);
    LowerIsLower(sku.material);
  }

  /** The four tests are independent: each attribute adds its own weight
      when it occurs and nothing otherwise, whatever the others do. */
  lemma ScoreWeights(specLine: string, sku: Sku)
    ensures var spec := Lower(specLine);
            Score(specLine, sku) == Score(specLine, sku.(cores := [])) + (if Occurs(sku.cores, spec) then 30 else 0) &&
            Score(specLine, sku) == Score(specLine, sku.(areaSqmm := [])) + (if Occurs(sku.areaSqmm, spec) then 30 else 0) &&
            Score(specLine, sku) == Score(specLine, sku.(insulation := [])) + (if Occurs(Lower(sku.insulation), spec) then 20 else 0) &&
            Score(specLine, sku) == Score(specLine, sku.(material := [])) + (if Occurs(Lower(sku.material), spec) then 20 else 0)
  {
    assert Lower([]) == [];
  }

  /** The candidate recorded for an entry. */
  function FromSku(sku: Sku, score: int): (c: Candidate)
    ensures c.skuId == sku.skuId && c.score == score
    ensures c.cores == sku.cores && c.areaSqmm == sku.areaSqmm && c.insulation == sku.insulation &&
            c.material == sku.material && c.voltage == sku.voltage
  {
    Candidate(sku.skuId, score, sku.cores, sku.areaSqmm, sku.insulation, sku.material, sku.voltage)
  }

  /** What an entry contributes to the scored list: a candidate when it
      scores above zero. */
  function Rated(specLine: string, sku: Sku): Option<Candidate>
  {
    var s := Score(specLine, sku);
    if s > 0 then Some(FromSku(sku, s)) else None
  }

  function Ratings(specLine: string, catalog: seq<Sku>): (r: seq<Option<Candidate>>)
    ensures |r| == |catalog|
  {
    if catalog == [] then []
    else Ratings(specLine, catalog[..|catalog| - 1]) + [Rated(specLine, catalog[|catalog| - 1])]
  }

  lemma {:induction false} RatingsAt(specLine: string, catalog: seq<Sku>)
    ensures forall i :: 0 <= i < |catalog| ==> Ratings(specLine, catalog)[i] == Rated(specLine, catalog[i])
  {
    if catalog != [] {
      var n := |catalog| - 1;
      RatingsAt(specLine, catalog[..n]);
      assert forall i :: 0 <= i < n ==> catalog[..n][i] == catalog[i];
    }
  }

  /** The candidates with a positive score, in catalog order. */
  function Scored(specLine: string, catalog: seq<Sku>): seq<Candidate>
  {
    Somes(Ratings(specLine, catalog))
  }

  /** The candidates whose score equals `v`, in order. */
  function WithScore(xs: seq<Candidate>, v: int): (r: seq<Candidate>)
    ensures |r| <= |xs|
  {
    if xs == [] then []
    else (if xs[0].score == v then [xs[0]] else []) + WithScore(xs[1..], v)
  }

  /** Non-increasing by score. */
  predicate Descending(xs: seq<Candidate>)
  {
    forall i, j :: 0 <= i < j < |xs| ==> xs[i].score >= xs[j].score
  }

  /** Puts `c` before the first candidate whose score is not above its own,
      so that it lands ahead of the candidates with the same score. */
  function Insert(c: Candidate, xs: seq<Candidate>): (r: seq<Candidate>)
    ensures |r| == |xs| + 1
  {
    if xs == [] || xs[0].score <= c.score then [c] + xs
    else [xs[0]] + Insert(c, xs[1..])
  }

  /** Python's `sorted(..., key=score, reverse=True)`: a stable sort by
      descending score. */
  function SortByScore(xs: seq<Candidate>): (r: seq<Candidate>)
    ensures |r| == |xs|
  {
    if xs == [] then [] else Insert(xs[0], SortByScore(xs[1..]))
  }

  lemma {:induction false} InsertPermutes(c: Candidate, xs: seq<Candidate>)
    ensures multiset(Insert(c, xs)) == multiset(xs) + multiset{c}
  {
    if xs != [] && xs[0].score > c.score {
      InsertPermutes(c, xs[1..]);
      assert xs == [xs[0]] + xs[1..];
    }
  }

  /** The sort only reorders its input. */
  lemma {:induction false} SortByScorePermutes(xs: seq<Candidate>)
    ensures multiset(SortByScore(xs)) == multiset(xs)
  {
    if xs != [] {
      SortByScorePermutes(xs[1..]);
      InsertPermutes(xs[0], SortByScore(xs[1..]));
      assert xs == [xs[0]] + xs[1..];
    }
  }

  /** The sorted sequence holds exactly the candidates of its input. */
  lemma SortedMembers(xs: seq<Candidate>)
    ensures forall c :: c in SortByScore(xs) <==> c in xs
  {
    SortByScorePermutes(xs);
    forall c
      ensures c in SortByScore(xs) <==> c in xs
    {
      assert c in SortByScore(xs) <==> c in multiset(SortByScore(xs));
      assert c in xs <==> c in multiset(xs);
    }
  }

  /** A candidate scoring at least as much as every other one may lead a
      non-increasing sequence. */
  lemma ConsDescending(x: Candidate, rest: seq<Candidate>)
    requires Descending(rest)
    requires forall y :: y in rest ==> y.score <= x.score
    ensures Descending([x] + rest)
  {
    var r := [x] + rest;
    forall i, j | 0 <= i < j < |r|
      ensures r[i].score >= r[j].score
    {
      assert r[j] == rest[j - 1];
      if i > 0 {
        assert r[i] == rest[i - 1];
      }
    }
  }

  lemma {:induction false} InsertDescending(c: Candidate, xs: seq<Candidate>)
    requires Descending(xs)
    ensures Descending(Insert(c, xs))
  {
    if xs == [] || xs[0].score <= c.score {
      forall y | y in xs
        ensures y.score <= c.score
      {
        var q :| 0 <= q < |xs| && xs[q] == y;
      }
      ConsDescending(c, xs);
    } else {
      var rest := Insert(c, xs[1..]);
      InsertDescending(c, xs[1..]);
      InsertPermutes(c, xs[1..]);
      forall y | y in rest
        ensures y.score <= xs[0].score
      {
        assert y in multiset(rest);
        if y != c {
          assert y in multiset(xs[1..]);
          var q :| 0 <= q < |xs[1..]| && xs[1..][q] == y;
          assert xs[q + 1] == y;
        }
      }
      ConsDescending(xs[0], rest);
    }
  }

  /** One step of `WithScore`, for a sequence given as its first element
      and the rest. */
  lemma WithScoreCons(x: Candidate, xs: seq<Candidate>, v: int)
    ensures WithScore([x] + xs, v) == (if x.score == v then [x] else []) + WithScore(xs, v)
  {
    assert ([x] + xs)[1..] == xs;
  }

  lemma {:induction false} InsertWithScore(c: Candidate, xs: seq<Candidate>, v: int)
    ensures WithScore(Insert(c, xs), v) == (if c.score == v then [c] else []) + WithScore(xs, v)
  {
    if xs == [] || xs[0].score <= c.score {
      WithScoreCons(c, xs, v);
    } else {
      var rest := Insert(c, xs[1..]);
      var own := if c.score == v then [c] else [];
      var first := if xs[0].score == v then [xs[0]] else [];
      var tail := WithScore(xs[1..], v);
      assert WithScore(rest, v) == own + tail by {
        InsertWithScore(c, xs[1..], v);
      }
      assert WithScore(Insert(c, xs), v) == first + (own + tail) by {
        WithScoreCons(xs[0], rest, v);
      }
      assert WithScore(xs, v) == first + tail by {
        WithScoreCons(xs[0], xs[1..], v);
        assert xs == [xs[0]] + xs[1..];
      }
      assert first == [] || own == [];
    }
  }

  /** The sort keeps the order among candidates of equal score. */
  lemma {:induction false} SortByScoreStable(xs: seq<Candidate>, v: int)
    ensures WithScore(SortByScore(xs), v) == WithScore(xs, v)
  {
    if xs != [] {
      SortByScoreStable(xs[1..], v);
      InsertWithScore(xs[0], SortByScore(xs[1..]), v);
    }
  }

  lemma {:induction false} SortByScoreDescending(xs: seq<Candidate>)
    ensures Descending(SortByScore(xs))
  {
    if xs != [] {
      SortByScoreDescending(xs[1..]);
      InsertDescending(xs[0], SortByScore(xs[1..]));
    }
  }

  lemma {:induction false} WithScoreMembers(xs: seq<Candidate>, v: int)
    ensures forall x :: x in WithScore(xs, v) ==> x in xs && x.score == v
  {
    if xs != [] {
      WithScoreMembers(xs[1..], v);
    }
  }

  /** A non-increasing sequence holding a candidate of score `v` starts
      with a score of at least `v`. */
  lemma FirstScoreAtLeast(b: seq<Candidate>, v: int)
    requires Descending(b) && WithScore(b, v) != []
    ensures b != [] && b[0].score >= v
  {
    WithScoreMembers(b, v);
    var x := WithScore(b, v)[0];
    assert x in WithScore(b, v);
    var q :| 0 <= q < |b| && b[q] == x;
  }

  /** Two non-empty non-increasing sequences that agree score by score
      start with the same candidate. */
  lemma SameFirst(a: seq<Candidate>, b: seq<Candidate>)
    requires a != [] && b != [] && Descending(a) && Descending(b)
    requires forall v :: WithScore(a, v) == WithScore(b, v)
    ensures a[0] == b[0]
  {
    var m, n := a[0].score, b[0].score;
    assert WithScore(a, m)[0] == a[0];
    assert WithScore(b, n)[0] == b[0];
    FirstScoreAtLeast(b, m);
    FirstScoreAtLeast(a, n);
  }

  /** A non-empty sequence has a candidate with the score of its first one. */
  lemma LeadScorePresent(b: seq<Candidate>)
    requires b != []
    ensures WithScore(b, b[0].score) != []
  {
  }

  /** Only the empty sequence agrees score by score with the empty sequence. */
  lemma NoneLeft(a: seq<Candidate>, b: seq<Candidate>)
    requires a == [] && forall v :: WithScore(a, v) == WithScore(b, v)
    ensures b == []
  {
    if b != [] {
      LeadScorePresent(b);
      assert false;
    }
  }

  /** Two orderings that are both non-increasing and keep the same order
      within each score are the same sequence. */
  lemma {:induction false} StableOrderUnique(a: seq<Candidate>, b: seq<Candidate>)
    requires Descending(a) && Descending(b)
    requires forall v :: WithScore(a, v) == WithScore(b, v)
    ensures a == b
    decreases |a|
  {
    if a == [] {
      NoneLeft(a, b);
    } else if b == [] {
      NoneLeft(b, a);
    } else {
      SameFirst(a, b);
      forall v
        ensures WithScore(a[1..], v) == WithScore(b[1..], v)
      {
        WithScoreCons(a[0], a[1..], v);
        WithScoreCons(b[0], b[1..], v);
        assert a == [a[0]] + a[1..] && b == [b[0]] + b[1..];
        var p := if a[0].score == v then [a[0]] else [];
        assert WithScore(a[1..], v) == (p + WithScore(a[1..], v))[|p|..];
        assert WithScore(b[1..], v) == (p + WithScore(b[1..], v))[|p|..];
      }
      StableOrderUnique(a[1..], b[1..]);
      assert a == [a[0]] + a[1..] && b == [b[0]] + b[1..];
    }
  }

  /** `SortByScore` is the stable descending sort: a sequence is its result
      exactly when it is non-increasing by score and keeps, within each
      score, the order of the input. */
  lemma SortByScoreIsStableSort(xs: seq<Candidate>, r: seq<Candidate>)
    ensures r == SortByScore(xs) ==>
            Descending(r) && forall v :: WithScore(r, v) == WithScore(xs, v)
    ensures (Descending(r) && forall v :: WithScore(r, v) == WithScore(xs, v)) ==>
            r == SortByScore(xs)
  {
    var sorted := SortByScore(xs);
    SortByScoreDescending(xs);
    forall v
      ensures WithScore(sorted, v) == WithScore(xs, v)
    {
      SortByScoreStable(xs, v);
    }
    if Descending(r) && forall v :: WithScore(r, v) == WithScore(xs, v) {
      forall v
        ensures WithScore(r, v) == WithScore(sorted, v)
      {
        assert WithScore(r, v) == WithScore(xs, v);
      }
      StableOrderUnique(r, sorted);
    }
  }

  /** Python's `[:3]`. */
  function Take3(xs: seq<Candidate>): (r: seq<Candidate>)
    ensures |r| <= 3 && r <= xs
    ensures |r| == if |xs| < 3 then |xs| else 3
  {
    if |xs| <= 3 then xs else xs[..3]
  }

  /** The matches of one line: the first three of the positive-scoring
      candidates sorted by descending score. */
  function TopMatches(specLine: string, catalog: seq<Sku>): seq<Candidate>
  {
    Take3(SortByScore(Scored(specLine, catalog)))
  }

  /** Every candidate of the scored list comes from a catalog entry with a
      positive score, carries that score and copies the entry's fields; the
      candidates keep catalog order, and an entry is listed exactly when it
      scores above zero. */
  lemma ScoredProvenance(specLine: string, catalog: seq<Sku>) returns (idx: seq<nat>)
    ensures |idx| == |Scored(specLine, catalog)|
    ensures forall k :: 0 <= k < |idx| ==>
              idx[k] < |catalog| && Score(specLine, catalog[idx[k]]) > 0 &&
              Scored(specLine, catalog)[k] == FromSku(catalog[idx[k]], Score(specLine, catalog[idx[k]]))
    ensures forall k, n :: 0 <= k < n < |idx| ==> idx[k] < idx[n]
    ensures forall i :: 0 <= i < |catalog| ==> (i in idx <==> Score(specLine, catalog[i]) > 0)
  {
    var ratings := Ratings(specLine, catalog);
    RatingsAt(specLine, catalog);
    idx := SomesProvenance(ratings, 0);
    var scored := Somes(ratings);
    forall k | 0 <= k < |idx|
      ensures Score(specLine, catalog[idx[k]]) > 0 &&
              scored[k] == FromSku(catalog[idx[k]], Score(specLine, catalog[idx[k]]))
    {
      assert ratings[idx[k]] == Rated(specLine, catalog[idx[k]]) == Some(scored[k]);
    }
    forall i | 0 <= i < |catalog|
      ensures i in idx <==> Score(specLine, catalog[i]) > 0
    {
      assert ratings[i] == Rated(specLine, catalog[i]);
    }
  }

  /** At most three matches, each with a positive score. */
  lemma TopMatchesBounds(specLine: string, catalog: seq<Sku>)
    ensures |TopMatches(specLine, catalog)| <= 3
    ensures forall c :: c in TopMatches(specLine, catalog) ==> 0 < c.score <= 100
  {
    var idx := ScoredProvenance(specLine, catalog);
    var scored := Scored(specLine, catalog);
    forall c | c in TopMatches(specLine, catalog)
      ensures 0 < c.score <= 100
    {
      assert c in scored by {
        SortedMembers(scored);
      }
      var k :| 0 <= k < |scored| && scored[k] == c;
    }
  }

  /** The matches are non-increasing by score and are the first three of
      the stable descending sort of the positive-scoring candidates. */
  lemma TopMatchesOrdered(specLine: string, catalog: seq<Sku>)
    ensures Descending(TopMatches(specLine, catalog))
    ensures TopMatches(specLine, catalog) <= SortByScore(Scored(specLine, catalog))
    ensures |TopMatches(specLine, catalog)| == if |Scored(specLine, catalog)| < 3 then |Scored(specLine, catalog)| else 3
  {
    var sorted := SortByScore(Scored(specLine, catalog));
    SortByScoreDescending(Scored(specLine, catalog));
    var top := TopMatches(specLine, catalog);
    assert forall i :: 0 <= i < |top| ==> top[i] == sorted[i];
  }

  /** A candidate of `xs` is among the first three after sorting, or three
      were kept and each scores at least as much. */
  lemma TopOfSorted(xs: seq<Candidate>, c: Candidate)
    requires c in xs
    ensures var top := Take3(SortByScore(xs));
            c in top || (|top| == 3 && forall d :: d in top ==> d.score >= c.score)
  {
    var sorted := SortByScore(xs);
    assert c in sorted by {
      SortedMembers(xs);
    }
    var p :| 0 <= p < |sorted| && sorted[p] == c;
    var top := Take3(sorted);
    if p < 3 {
      assert top[p] == c;
    } else {
      forall d | d in top
        ensures d.score >= c.score
      {
        var q :| 0 <= q < |top| && top[q] == d;
        assert sorted[q] == d;
        assert sorted[q].score >= sorted[p].score by {
          SortByScoreDescending(xs);
        }
      }
    }
  }

  /** The first three after sorting are empty only for an empty input, and
      otherwise start with a highest score. */
  lemma FirstOfSorted(xs: seq<Candidate>)
    ensures Take3(SortByScore(xs)) == [] <==> xs == []
    ensures xs != [] ==> forall c :: c in xs ==> c.score <= Take3(SortByScore(xs))[0].score
  {
    if xs != [] {
      var sorted := SortByScore(xs);
      forall c | c in xs
        ensures c.score <= sorted[0].score
      {
        assert c in sorted by {
          SortedMembers(xs);
        }
        var p :| 0 <= p < |sorted| && sorted[p] == c;
        assert sorted[0].score >= sorted[p].score by {
          SortByScoreDescending(xs);
        }
      }
    }
  }

  /** An entry that scores above zero is either among the matches, or three
      matches were kept and each of them scores at least as much. */
  lemma TopMatchesAreBest(specLine: string, catalog: seq<Sku>, i: nat)
    requires i < |catalog| && Score(specLine, catalog[i]) > 0
    ensures var s := Score(specLine, catalog[i]);
            FromSku(catalog[i], s) in TopMatches(specLine, catalog) ||
            (|TopMatches(specLine, catalog)| == 3 &&
             forall c :: c in TopMatches(specLine, catalog) ==> c.score >= s)
  {
    var c := FromSku(catalog[i], Score(specLine, catalog[i]));
    var idx := ScoredProvenance(specLine, catalog);
    var k :| 0 <= k < |idx| && idx[k] == i;
    assert Scored(specLine, catalog)[k] == c;
    TopOfSorted(Scored(specLine, catalog), c);
  }

  /** A line gets a match exactly when some entry scores above zero, and the
      first match then has the highest score of the whole catalog. */
  lemma FirstMatchIsBest(specLine: string, catalog: seq<Sku>)
    ensures TopMatches(specLine, catalog) != [] <==>
            exists i :: 0 <= i < |catalog| && Score(specLine, catalog[i]) > 0
    ensures TopMatches(specLine, catalog) != [] ==>
            forall i :: 0 <= i < |catalog| ==> Score(specLine, catalog[i]) <= TopMatches(specLine, catalog)[0].score
  {
    var scored := Scored(specLine, catalog);
    var idx := ScoredProvenance(specLine, catalog);
    FirstOfSorted(scored);
    if scored != [] {
      assert idx[0] < |catalog| && Score(specLine, catalog[idx[0]]) > 0;
      forall i | 0 <= i < |catalog| && Score(specLine, catalog[i]) > 0
        ensures Score(specLine, catalog[i]) <= TopMatches(specLine, catalog)[0].score
      {
        var k :| 0 <= k < |idx| && idx[k] == i;
        assert scored[k] in scored;
      }
    }
  }

  /** The inner loop of `match_specs`: score every catalog entry against
      one line and keep the positive ones, in catalog order. */
  method ScoreCatalog(specLine: string, catalog: seq<Sku>) returns (scored: seq<Candidate>)
    ensures scored == Scored(specLine, catalog)
  {
    scored := [];
    for j := 0 to |catalog|
      invariant scored == Scored(specLine, catalog[..j])
    {
      var sku := catalog[j];
      var score := ScoreMatch(specLine, sku);
      assert catalog[..j + 1][..j] == catalog[..j];
      SomesSnoc(Ratings(specLine, catalog[..j]), Rated(specLine, sku));
      if score > 0 {
        scored := scored + [FromSku(sku, score)];
      }
    }
    assert catalog[..|catalog|] == catalog;
  }

  /** The outer loop of `match_specs`: the matches of each line, in order. */
  method MatchItems(items: seq<string>, catalog: seq<Sku>) returns (results: seq<MatchResult>)
    ensures |results| == |items|
    ensures forall k :: 0 <= k < |items| ==>
              results[k] == MatchResult(items[k], TopMatches(items[k], catalog))
  {
    results := [];
    for k := 0 to |items|
      invariant |results| == k
      invariant forall m :: 0 <= m < k ==>
                  results[m] == MatchResult(items[m], TopMatches(items[m], catalog))
    {
      var item := items[k];
      var scored := ScoreCatalog(item, catalog);
      results := results + [MatchResult(item, Take3(SortByScore(scored)))];
    }
  }

  /** `match_specs`: extract the requirement lines, then, for each, score
      every catalog entry, keep the positive ones and take the best three. */
  method MatchSpecs(rfpText: string, catalog: seq<Sku>) returns (results: seq<MatchResult>)
    ensures var items := ScopeItems(Rules, SplitLines(rfpText));
            |results| == |items| &&
            forall k :: 0 <= k < |items| ==>
              results[k] == MatchResult(items[k], TopMatches(items[k], catalog))
  {
    var items := ExtractScopeItems(rfpText);
    results := MatchItems(items, catalog);
  }
}
