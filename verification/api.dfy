/** The recommendation service: the three process-wide globals filled once from the artifact
    at start-up, the liveness report, and the recommend handler with its validation order and
    its seed-over-description precedence. Routing, CORS and response models are not modelled. */
module Api {
  import opened Outcomes
  import opened Text
  import Catalog
  import Vectors
  import Ranking
  import opened Recommend

  /** Why loading the artifact failed: no file, or a file that cannot be decoded or lacks a field. */
  datatype LoadError = NotFound | Unreadable

  /** The `/health` payload. */
  datatype HealthReport = HealthReport(ok: bool, rows: nat)

  // HTTP statuses the handler produces.
  const BAD_REQUEST := 400
  const UNPROCESSABLE := 422
  const SERVER_ERROR := 500

  /** Request resolution of the handler: a seed, when given, wins over a description and
      replaces it by the seed row's cleaned description. */
  function ResolveApi(meta: seq<Catalog.Book>, seedIdx: Option<int>, desc: Option<string>): (r: Result<Query, int>)
    ensures r.Failure? <==> (desc.None? && seedIdx.None?) || (seedIdx.Some? && !(0 <= seedIdx.value < |meta|))
    ensures r.Failure? ==> r.error == BAD_REQUEST
    ensures r.Success? ==> (r.value.info.mode == SeedMode <==> seedIdx.Some?)
    ensures r.Success? && seedIdx.Some? ==>
              && r.value.info.idx == Some(seedIdx.value as nat) && seedIdx.value < |meta|
              && r.value.text == SafeText(meta[seedIdx.value].description)
    ensures r.Success? && seedIdx.None? ==> r.value.text == desc.value && r.value.info == CUSTOM_INFO
  {
    if desc.None? && seedIdx.None? then Failure(BAD_REQUEST)
    else if seedIdx.Some? then
      if 0 <= seedIdx.value < |meta| then Success(SeedQuery(meta, seedIdx.value)) else Failure(BAD_REQUEST)
    else Success(CustomQuery(desc.value))
  }

  /** The two entry points resolve a request the same way when only one of description and
      seed is given; when both are, `recommend_split` takes the description and the handler
      takes the seed (and refuses an out-of-range one). */
  lemma EntryPointsAgree(meta: seq<Catalog.Book>, seedIdx: Option<int>, desc: Option<string>)
    ensures desc.None? || seedIdx.None? ==>
              (ResolveSplit(meta, seedIdx, desc).Success? <==> ResolveApi(meta, seedIdx, desc).Success?)
              && (ResolveSplit(meta, seedIdx, desc).Success? ==>
                    ResolveSplit(meta, seedIdx, desc).value == ResolveApi(meta, seedIdx, desc).value)
    ensures desc.Some? && seedIdx.Some? ==>
              && ResolveSplit(meta, seedIdx, desc) == Success(CustomQuery(desc.value))
              && ResolveApi(meta, seedIdx, desc) ==
                   (if 0 <= seedIdx.value < |meta| then Success(SeedQuery(meta, seedIdx.value)) else Failure(BAD_REQUEST))
  {
  }

  class Service {
    var model: Option<Vectors.WordModel>
    var vectors: Option<seq<seq<real>>>
    var meta: Option<seq<Catalog.Book>>

    /** The globals are set together from one artifact, or are all None. */
    ghost predicate Valid()
      reads this
    {
      && (model.Some? <==> vectors.Some?)
      && (model.Some? <==> meta.Some?)
      && (model.Some? ==> Artifact(model.value, vectors.value, meta.value).Valid())
    }

    /** Start-up: any failure while loading leaves all three globals None. */
    constructor (loaded: Result<Artifact, LoadError>)
      requires loaded.Success? ==> loaded.value.Valid()
      ensures Valid()
      ensures loaded.Success? ==>
                && model == Some(loaded.value.model)
                && vectors == Some(loaded.value.vectors)
                && meta == Some(loaded.value.meta)
      ensures loaded.Failure? ==> model.None? && vectors.None? && meta.None?
      ensures Health() == if loaded.Success? then HealthReport(true, |loaded.value.meta|) else HealthReport(false, 0)
    {
      if loaded.Success? {
        model, vectors, meta := Some(loaded.value.model), Some(loaded.value.vectors), Some(loaded.value.meta);
      } else {
        model, vectors, meta := None, None, None;
      }
    }

    /** `/health`: ok exactly when an artifact is loaded, with its row count, else 0 rows. */
    function Health(): (h: HealthReport)
      reads this
      ensures h.ok <==> model.Some? && vectors.Some? && meta.Some?
      ensures Valid() ==> (h.ok <==> meta.Some?)
      ensures h.rows == if meta.Some? then |meta.value| else 0
    {
      HealthReport(model.Some? && vectors.Some? && meta.Some?, if meta.Some? then |meta.value| else 0)
    }

    /** `/recommend`, with `sims` the cosine scores of the query vector against every row.
        The framework rejects `top_k < 1` before the handler runs; then a missing model,
        a request with neither argument and an out-of-range seed are refused in that order. */
    method Recommend(lib: TextLib, seedIdx: Option<int>, desc: Option<string>, topK: int, sims: seq<real>)
      returns (r: Result<Response, int>)
      requires Valid()
      requires meta.Some? ==> |sims| == |meta.value|
      ensures topK < 1 ==> r == Failure(UNPROCESSABLE)
      ensures 1 <= topK && model.None? ==> r == Failure(SERVER_ERROR)
      ensures 1 <= topK && model.Some? && desc.None? && seedIdx.None? ==> r == Failure(BAD_REQUEST)
      ensures 1 <= topK && model.Some? && seedIdx.Some? && !(0 <= seedIdx.value < |meta.value|) ==>
                r == Failure(BAD_REQUEST)
      ensures r.Failure? ==> r.error in {BAD_REQUEST, UNPROCESSABLE, SERVER_ERROR}
      ensures 1 <= topK && model.Some? && ResolveApi(meta.value, seedIdx, desc).Success?
              && ResolveApi(meta.value, seedIdx, desc).value.text != "" && !lib.punkt ==>
                r == Failure(SERVER_ERROR)
      ensures r.Success? <==>
                && 1 <= topK && model.Some? && ResolveApi(meta.value, seedIdx, desc).Success?
                && (ResolveApi(meta.value, seedIdx, desc).value.text == "" || lib.punkt)
      ensures r.Success? ==> 1 <= topK && model.Some? && ResolveApi(meta.value, seedIdx, desc).Success?
      ensures r.Success? && seedIdx.Some? ==> r.value.seedInfo == SeedInfoFor(meta.value, seedIdx.value)
      ensures r.Success? && seedIdx.None? ==> r.value.seedInfo == CUSTOM_INFO
      ensures r.Success? ==>
                Answered(r.value, lib, Artifact(model.value, vectors.value, meta.value),
                         ResolveApi(meta.value, seedIdx, desc).value, topK, sims)
      ensures r.Success? ==> |r.value.results| <= topK
    {
      if topK < 1 {
        return Failure(UNPROCESSABLE);
      }
      if model.None? {
        return Failure(SERVER_ERROR);
      }
      var art := Artifact(model.value, vectors.value, meta.value);
      var q := ResolveApi(art.meta, seedIdx, desc);
      if q.Failure? {
        return Failure(q.error);
      }
      var answer := Answer(lib, art, q.value, topK, sims);
      if answer.Failure? {
        return Failure(SERVER_ERROR);
      }
      return Success(answer.value);
    }
  }
}
