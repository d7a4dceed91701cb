/** Ranking of similarity scores, shared by `recommend_split` and the service's recommend
    handler: the seed's score is overwritten with -1.0, row indices are sorted by descending
    score (`argsort()[::-1]`), cut to `top_k`, and numbered from 1. The cosine scores
    themselves are an input. */
module Ranking {
  import opened Outcomes
  import opened Text
  import Catalog

  /** One entry of the result list. */
  datatype RecItem = RecItem(rank: nat, idx: nat, title: string, author: string, genre: string, score: real)

  /** `order` lists every row index below `n` exactly once. */
  predicate IsIndexPermutation(order: seq<nat>, n: nat)
  {
    && |order| == n
    && (forall j :: 0 <= j < |order| ==> order[j] < n)
    && (forall j, k :: 0 <= j < k < |order| ==> order[j] != order[k])
    && (forall v :: 0 <= v < n ==> v in order)
  }

  /** Scores are non-increasing along `order`; nothing is said about the order of ties. */
  predicate DescendingBy(scores: seq<real>, order: seq<nat>)
  {
    forall j, k :: 0 <= j < k < |order| && order[j] < |scores| && order[k] < |scores| ==>
      scores[order[j]] >= scores[order[k]]
  }

  /** `scores.argsort()[::-1]`: every row index once, by non-increasing score. NumPy's sort is
      not stable, so only the order of distinct scores is fixed; this insertion sort is one
      admissible implementation. */
  method ArgsortDescending(scores: seq<real>) returns (order: seq<nat>)
    ensures IsIndexPermutation(order, |scores|)
    ensures DescendingBy(scores, order)
  {
    order := [];
    var i := 0;
    while i < |scores|
      invariant 0 <= i <= |scores|
      invariant IsIndexPermutation(order, i)
      invariant DescendingBy(scores, order)
    {
      var p := InsertionPoint(scores, order, i);
      InsertKeepsPermutation(order, i, p);
      InsertKeepsDescending(scores, order, i, p);
      order := order[..p] + [i] + order[p..];
      i := i + 1;
    }
  }

  /** The first position of `order` whose score is below that of row `i`. */
  method InsertionPoint(scores: seq<real>, order: seq<nat>, i: nat) returns (p: nat)
    requires i < |scores|
    requires forall j :: 0 <= j < |order| ==> order[j] < |scores|
    requires DescendingBy(scores, order)
    ensures p <= |order|
    ensures forall q :: 0 <= q < p ==> scores[order[q]] >= scores[i]
    ensures forall q :: p <= q < |order| ==> scores[order[q]] < scores[i]
  {
    p := 0;
    while p < |order| && scores[order[p]] >= scores[i]
      invariant 0 <= p <= |order|
      invariant forall q :: 0 <= q < p ==> scores[order[q]] >= scores[i]
    {
      p := p + 1;
    }
    forall q | p <= q < |order| ensures scores[order[q]] < scores[i] {
      assert scores[order[p]] >= scores[order[q]] || q == p;
    }
  }

  lemma InsertKeepsPermutation(order: seq<nat>, i: nat, p: nat)
    requires IsIndexPermutation(order, i) && p <= |order|
    ensures IsIndexPermutation(order[..p] + [i] + order[p..], i + 1)
  {
    var next := order[..p] + [i] + order[p..];
    assert forall j :: 0 <= j < |next| ==> next[j] == if j < p then order[j] else if j == p then i else order[j - 1];
    forall v | 0 <= v < i + 1 ensures v in next {
      if v < i {
        assert v in order;
        var j :| 0 <= j < |order| && order[j] == v;
        assert next[if j < p then j else j + 1] == v;
      } else {
        assert next[p] == v;
      }
    }
  }

  lemma InsertKeepsDescending(scores: seq<real>, order: seq<nat>, i: nat, p: nat)
    requires i < |scores| && p <= |order|
    requires forall j :: 0 <= j < |order| ==> order[j] < |scores|
    requires DescendingBy(scores, order)
    requires forall q :: 0 <= q < p ==> scores[order[q]] >= scores[i]
    requires forall q :: p <= q < |order| ==> scores[order[q]] < scores[i]
    ensures DescendingBy(scores, order[..p] + [i] + order[p..])
  {
    var next := order[..p] + [i] + order[p..];
    assert forall j :: 0 <= j < |next| ==> next[j] == if j < p then order[j] else if j == p then i else order[j - 1];
  }

  /** Length of `xs[:k]` for a sequence of length `n`, with Python's reading of a negative
      bound as counting from the end. */
  function SliceLength(n: nat, k: int): (r: nat)
    ensures r <= n
    ensures 0 <= k ==> r == if k < n then k else n
  {
    if k >= 0 then (if k < n then k else n)
    else if n + k > 0 then n + k else 0
  }

  /** The scores after `sims[seed] = -1.0` in seed mode; unchanged in custom mode. */
  function Adjusted(sims: seq<real>, exclude: Option<nat>): (r: seq<real>)
    ensures |r| == |sims|
    ensures exclude.Some? && exclude.value < |sims| ==> r[exclude.value] == -1.0
    ensures forall i :: 0 <= i < |sims| && exclude != Some(i) ==> r[i] == sims[i]
  {
    if exclude.Some? && exclude.value < |sims| then sims[exclude.value := -1.0] else sims
  }

  /** The entry for row `idx` at rank `rank`: its cleaned title, author and genre, and its score. */
  function ItemAt(meta: seq<Catalog.Book>, scores: seq<real>, rank: nat, idx: nat): RecItem
    requires idx < |meta| && idx < |scores|
  {
    RecItem(rank, idx, SafeText(meta[idx].title), SafeText(meta[idx].authors),
            SafeText(meta[idx].genres), scores[idx])
  }

  /** The loop `for rank, idx in enumerate(order, 1)` that appends one entry per index. */
  method NumberResults(order: seq<nat>, scores: seq<real>, meta: seq<Catalog.Book>)
    returns (results: seq<RecItem>)
    requires forall j :: 0 <= j < |order| ==> order[j] < |meta| && order[j] < |scores|
    ensures |results| == |order|
    ensures forall j :: 0 <= j < |order| ==> results[j] == ItemAt(meta, scores, j + 1, order[j])
  {
    results := [];
    for rank := 1 to |order| + 1
      invariant |results| == rank - 1
      invariant forall j :: 0 <= j < rank - 1 ==> results[j] == ItemAt(meta, scores, j + 1, order[j])
    {
      var idx := order[rank - 1];
      results := results + [ItemAt(meta, scores, rank, idx)];
    }
  }

  predicate Returned(results: seq<RecItem>, i: nat)
  {
    exists j :: 0 <= j < |results| && results[j].idx == i
  }

  /** What a result list promises about the scores it was ranked by: `top_k` entries (Python
      slice length), ranks 1, 2, ... in order, distinct row indices each carrying that row's
      cleaned metadata and score, scores non-increasing, and no row left out scoring above any
      row returned. */
  ghost predicate Ranked(results: seq<RecItem>, scores: seq<real>, topK: int, meta: seq<Catalog.Book>)
  {
    && |results| == SliceLength(|scores|, topK)
    && (forall j :: 0 <= j < |results| ==>
          && results[j].idx < |scores| && results[j].idx < |meta|
          && results[j] == ItemAt(meta, scores, j + 1, results[j].idx))
    && (forall j, k :: 0 <= j < k < |results| ==> results[j].idx != results[k].idx)
    && (forall j, k :: 0 <= j < k < |results| ==> results[j].score >= results[k].score)
    && (forall i, j :: 0 <= i < |scores| && 0 <= j < |results| && !Returned(results, i) ==>
          scores[i] <= results[j].score)
  }

  /** The ranking step: copy the scores, overwrite the seed's with -1.0 in place, sort the
      indices by descending score, keep the first `top_k` and number them. */
  method RankRows(sims: seq<real>, exclude: Option<nat>, topK: int, meta: seq<Catalog.Book>)
    returns (results: seq<RecItem>)
    requires |sims| == |meta|
    requires exclude.Some? ==> exclude.value < |sims|
    ensures Ranked(results, Adjusted(sims, exclude), topK, meta)
    ensures 0 <= topK ==> |results| == if topK < |sims| then topK else |sims|
  {
    var scores := ExcludeSeed(sims, exclude);
    var order := ArgsortDescending(scores);
    var n := SliceLength(|order|, topK);
    results := NumberResults(order[..n], scores, meta);
    PrefixIsRanked(order, n, scores, topK, meta, results);
  }

  /** `sims[seed] = -1.0` on a copy of the scores, in place. */
  method ExcludeSeed(sims: seq<real>, exclude: Option<nat>) returns (scores: seq<real>)
    requires exclude.Some? ==> exclude.value < |sims|
    ensures scores == Adjusted(sims, exclude)
  {
    var a := new real[|sims|](i requires 0 <= i < |sims| => sims[i]);
    assert a[..] == sims;
    if exclude.Some? {
      a[exclude.value] := -1.0;
    }
    scores := a[..];
  }

  /** Numbering the first `SliceLength` entries of a descending ordering of all rows yields a
      ranked result list. */
  lemma PrefixIsRanked(order: seq<nat>, n: nat, scores: seq<real>, topK: int,
                       meta: seq<Catalog.Book>, results: seq<RecItem>)
    requires |scores| == |meta|
    requires IsIndexPermutation(order, |scores|) && DescendingBy(scores, order)
    requires n == SliceLength(|order|, topK)
    requires |results| == n
    requires forall j :: 0 <= j < n ==> results[j] == ItemAt(meta, scores, j + 1, order[j])
    ensures Ranked(results, scores, topK, meta)
  {
    assert forall q :: 0 <= q < n ==> Returned(results, order[q]) by {
      forall q | 0 <= q < n ensures Returned(results, order[q]) {
        assert results[q].idx == order[q];
      }
    }
    forall i, j | 0 <= i < |scores| && 0 <= j < |results| && !Returned(results, i)
      ensures scores[i] <= results[j].score
    {
      assert i in order;
      var q :| 0 <= q < |order| && order[q] == i;
      assert j < q;
    }
  }

  /** In seed mode the seed scores exactly -1.0, and it is ranked after every row scoring above
      -1.0, all of which are returned. */
  lemma SeedRankedAfterHigher(results: seq<RecItem>, sims: seq<real>, seed: nat, topK: int,
                              meta: seq<Catalog.Book>, s: nat)
    requires seed < |sims|
    requires Ranked(results, Adjusted(sims, Some(seed)), topK, meta)
    requires s < |results| && results[s].idx == seed
    ensures results[s].score == -1.0
    ensures forall i :: 0 <= i < |sims| && Adjusted(sims, Some(seed))[i] > -1.0 ==>
              exists k :: 0 <= k < s && results[k].idx == i
  {
    var scores := Adjusted(sims, Some(seed));
    forall i | 0 <= i < |sims| && scores[i] > -1.0
      ensures exists k :: 0 <= k < s && results[k].idx == i
    {
      assert Returned(results, i);
      var k :| 0 <= k < |results| && results[k].idx == i;
      assert results[k].score == scores[i];
      assert k < s;
    }
  }

  /** Exclusion of the seed is soft: when `top_k` covers the whole catalogue the seed is still
      among the results. */
  lemma SeedReturnedWhenAllRequested(results: seq<RecItem>, sims: seq<real>, seed: nat, topK: int,
                                     meta: seq<Catalog.Book>)
    requires seed < |sims| && topK >= |sims|
    requires Ranked(results, Adjusted(sims, Some(seed)), topK, meta)
    ensures Returned(results, seed)
  {
    var idxs := seq(|results|, j requires 0 <= j < |results| => results[j].idx);
    DistinctBelowCoversAll(idxs, |sims|);
    assert seed in idxs;
    var j :| 0 <= j < |idxs| && idxs[j] == seed;
    assert results[j].idx == seed;
  }

  /** The naturals below `n`. */
  function Below(n: nat): (r: set<nat>)
    ensures forall v: nat :: v in r <==> v < n
    ensures |r| == n
  {
    if n == 0 then {} else Below(n - 1) + {n - 1}
  }

  /** `n` distinct naturals below `n` are all of them. */
  lemma DistinctBelowCoversAll(xs: seq<nat>, n: nat)
    requires |xs| == n
    requires forall j :: 0 <= j < |xs| ==> xs[j] < n
    requires forall j, k :: 0 <= j < k < |xs| ==> xs[j] != xs[k]
    ensures forall v :: 0 <= v < n ==> v in xs
  {
    var present := Elements(xs);
    DistinctCard(xs);
    forall v | 0 <= v < n ensures v in xs {
      if v !in present {
        SubsetCard(present, Below(n) - {v});
      }
    }
  }

  function Elements(xs: seq<nat>): (r: set<nat>)
    ensures forall x :: x in r <==> x in xs
  {
    set x | x in xs
  }

  lemma {:induction false} DistinctCard(xs: seq<nat>)
    requires forall j, k :: 0 <= j < k < |xs| ==> xs[j] != xs[k]
    ensures |Elements(xs)| == |xs|
  {
    if xs != [] {
      var init := xs[..|xs| - 1];
      DistinctCard(init);
      assert Elements(xs) == Elements(init) + {xs[|xs| - 1]};
    }
  }

  lemma {:induction false} SubsetCard(a: set<nat>, b: set<nat>)
    requires a <= b
    ensures |a| <= |b|
    decreases b
  {
    if a != {} {
      var x :| x in a;
      SubsetCard(a - {x}, b - {x});
    }
  }
}
