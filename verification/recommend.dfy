/** The offline script's query entry point `recommend_split`: resolve the request into seed or
    custom mode, embed the query text, and rank the catalogue by the given similarity scores.
    The answering step after resolution is shared with the service's recommend handler. */
module Recommend {
  import opened Outcomes
  import opened Text
  import Catalog
  import Vectors
  import Ranking

  /** The persisted bundle: the trained model, one averaged vector per row, and the rows. */
  datatype Artifact = Artifact(model: Vectors.WordModel, vectors: seq<seq<real>>, meta: seq<Catalog.Book>)
  {
    predicate Valid()
    {
      Vectors.WellFormed(model) && |vectors| == |meta|
    }
  }

  datatype Mode = SeedMode | CustomMode

  /** The `seed_info` payload: mode, index (None in custom mode), title, author, genre. */
  datatype SeedInfo = SeedInfo(mode: Mode, idx: Option<nat>, title: string, author: string, genre: string)

  datatype Response = Response(seedInfo: SeedInfo, results: seq<Ranking.RecItem>)

  const CUSTOM_INFO := SeedInfo(CustomMode, None, "", "", "")

  function SeedInfoFor(meta: seq<Catalog.Book>, i: nat): SeedInfo
    requires i < |meta|
  {
    SeedInfo(SeedMode, Some(i), SafeText(meta[i].title), SafeText(meta[i].authors), SafeText(meta[i].genres))
  }

  /** A resolved request: the `seed_info` to report and the text to embed. */
  datatype Query = Query(info: SeedInfo, text: string)

  /** Seed mode: the seed row's cleaned description and metadata. */
  function SeedQuery(meta: seq<Catalog.Book>, i: nat): Query
    requires i < |meta|
  {
    Query(SeedInfoFor(meta, i), SafeText(meta[i].description))
  }

  function CustomQuery(text: string): Query
  {
    Query(CUSTOM_INFO, text)
  }

  /** The row whose score is overwritten with -1.0: the seed, in seed mode only. */
  function ExcludeOf(info: SeedInfo): Option<nat>
  {
    if info.mode == SeedMode then info.idx else None
  }

  /** The exceptions `recommend_split` raises: ValueError for a request with neither argument,
      IndexError for a seed outside the catalogue, LookupError from the tokenizer. */
  datatype SplitError = ValueError | IndexError | LookupError

  /** Request resolution of `recommend_split`: a description, when given, wins over a seed. */
  function ResolveSplit(meta: seq<Catalog.Book>, seedIdx: Option<int>, descQuery: Option<string>)
    : (r: Result<Query, SplitError>)
    ensures r == Failure(ValueError) <==> descQuery.None? && seedIdx.None?
    ensures r == Failure(IndexError) <==> descQuery.None? && seedIdx.Some? && !(0 <= seedIdx.value < |meta|)
    ensures r != Failure(LookupError)
    ensures r.Success? ==> (r.value.info.mode == SeedMode <==> descQuery.None?)
    ensures r.Success? && descQuery.Some? ==> r.value.text == descQuery.value && r.value.info == CUSTOM_INFO
    ensures r.Success? && descQuery.None? ==>
              && r.value.info.idx == Some(seedIdx.value as nat) && seedIdx.value < |meta|
              && r.value.text == SafeText(meta[seedIdx.value].description)
  {
    if descQuery.Some? then Success(CustomQuery(descQuery.value))
    else if seedIdx.None? then Failure(ValueError)
    else if !(0 <= seedIdx.value < |meta|) then Failure(IndexError)
    else Success(SeedQuery(meta, seedIdx.value))
  }

  /** What a successful answer to query `q` is: the query's `seed_info` and, when the query
      vector is zero, no results; otherwise a ranking of the scores with the seed's set to -1.0. */
  ghost predicate Answered(resp: Response, lib: TextLib, art: Artifact, q: Query, topK: int, sims: seq<real>)
    requires art.Valid()
  {
    match Vectors.AvgVectorForText(lib, art.model, q.text)
    case Failure(_) => false
    case Success(qv) =>
      && resp.seedInfo == q.info
      && (Vectors.IsZero(qv) ==> resp.results == [])
      && (!Vectors.IsZero(qv) ==> Ranking.Ranked(resp.results, Ranking.Adjusted(sims, ExcludeOf(q.info)), topK, art.meta))
  }

  /** The answering step shared by both entry points: embed the query text, return no results
      for a zero vector, and otherwise rank with the seed excluded softly. */
  method Answer(lib: TextLib, art: Artifact, q: Query, topK: int, sims: seq<real>)
    returns (r: Result<Response, TextError>)
    requires art.Valid() && |sims| == |art.meta|
    requires ExcludeOf(q.info).Some? ==> ExcludeOf(q.info).value < |sims|
    ensures r.Failure? <==> q.text != "" && !lib.punkt
    ensures r.Success? ==> Answered(r.value, lib, art, q, topK, sims)
  {
    var qv := Vectors.AvgVectorForText(lib, art.model, q.text);
    if qv.Failure? {
      return Failure(qv.error);
    }
    if Vectors.IsZero(qv.value) {
      return Success(Response(q.info, []));
    }
    var results := Ranking.RankRows(sims, ExcludeOf(q.info), topK, art.meta);
    return Success(Response(q.info, results));
  }

  /** `recommend_split` on a loaded artifact, with `sims` the cosine scores of the query vector
      against every row. */
  method RecommendSplit(lib: TextLib, art: Artifact, seedIdx: Option<int>, descQuery: Option<string>,
                        topK: int, sims: seq<real>)
    returns (r: Result<Response, SplitError>)
    requires art.Valid() && |sims| == |art.meta|
    ensures descQuery.None? && seedIdx.None? ==> r == Failure(ValueError)
    ensures descQuery.None? && seedIdx.Some? && !(0 <= seedIdx.value < |art.meta|) ==> r == Failure(IndexError)
    ensures descQuery.Some? && r.Success? ==> r.value.seedInfo == CUSTOM_INFO
    ensures descQuery.None? && seedIdx.Some? && r.Success? ==> r.value.seedInfo == SeedInfoFor(art.meta, seedIdx.value)
    ensures r == Failure(LookupError) <==>
              ResolveSplit(art.meta, seedIdx, descQuery).Success?
              && ResolveSplit(art.meta, seedIdx, descQuery).value.text != "" && !lib.punkt
    ensures r.Success? <==>
              ResolveSplit(art.meta, seedIdx, descQuery).Success?
              && (ResolveSplit(art.meta, seedIdx, descQuery).value.text == "" || lib.punkt)
    ensures r.Success? ==> Answered(r.value, lib, art, ResolveSplit(art.meta, seedIdx, descQuery).value, topK, sims)
  {
    var q := ResolveSplit(art.meta, seedIdx, descQuery);
    if q.Failure? {
      return Failure(q.error);
    }
    var answer := Answer(lib, art, q.value, topK, sims);
    if answer.Failure? {
      return Failure(LookupError);
    }
    return Success(answer.value);
  }

  /** A zero query vector short-circuits: empty text (for instance a seed whose description
      lowercases to "nan") and text with no in-vocabulary token both give no results. */
  lemma NoKnownTokenNoResults(resp: Response, lib: TextLib, art: Artifact, q: Query, topK: int, sims: seq<real>)
    requires art.Valid() && Answered(resp, lib, art, q, topK, sims)
    requires q.text == "" || forall t :: t in Preprocessed(lib, q.text).value ==> t !in art.model.wv
    ensures resp.results == []
  {
    var tokens := Preprocessed(lib, q.text).value;
    assert forall i :: 0 <= i < |tokens| ==> tokens[i] !in art.model.wv by {
      forall i | 0 <= i < |tokens| ensures tokens[i] !in art.model.wv {
        assert tokens[i] in tokens;
      }
    }
  }

  /** A seed whose stored description is the text "nan" (a description that was missing when
      the catalogue was cleaned) is queried with empty text and so gets no recommendations. */
  lemma NanSeedGetsNothing(resp: Response, lib: TextLib, art: Artifact, i: nat, topK: int, sims: seq<real>)
    requires art.Valid() && i < |art.meta| && art.meta[i].description == Str("nan")
    requires Answered(resp, lib, art, SeedQuery(art.meta, i), topK, sims)
    ensures resp.seedInfo == SeedInfoFor(art.meta, i)
    ensures resp.results == []
  {
    assert Lower("nan") == "nan";
    NoKnownTokenNoResults(resp, lib, art, SeedQuery(art.meta, i), topK, sims);
  }

  /** In custom mode no score is modified: every returned score is the row's similarity. */
  lemma CustomScoresUnmodified(resp: Response, lib: TextLib, art: Artifact, text: string, topK: int,
                               sims: seq<real>)
    requires art.Valid() && |sims| == |art.meta|
    requires Answered(resp, lib, art, CustomQuery(text), topK, sims)
    ensures forall j :: 0 <= j < |resp.results| ==>
              resp.results[j].idx < |sims| && resp.results[j].score == sims[resp.results[j].idx]
  {
  }
}
