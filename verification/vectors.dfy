/** Averaged word vectors: the loop of `build_word2vec` that gives every catalogue row the mean
    embedding of its tokens, and `_avg_vector_for_text`, which does the same for a query text.
    The trained Word2Vec model is an input; training itself is not modelled. */
module Vectors {
  import opened Outcomes
  import opened Text
  import Seqs
  import Catalog

  /** The trained model as the rest of the pipeline sees it: its dimension (`vector_size`) and
      its vocabulary with one embedding per word (`model.wv`). */
  datatype WordModel = WordModel(vectorSize: nat, wv: map<string, seq<real>>)

  predicate WellFormed(m: WordModel)
  {
    forall w :: w in m.wv ==> |m.wv[w]| == m.vectorSize
  }

  predicate AllOfSize(vs: seq<seq<real>>, d: nat)
  {
    forall j :: 0 <= j < |vs| ==> |vs[j]| == d
  }

  /** `np.linalg.norm(v) == 0`. */
  predicate IsZero(v: seq<real>)
  {
    forall i :: 0 <= i < |v| ==> v[i] == 0.0
  }

  function Zeros(d: nat): (r: seq<real>)
    ensures |r| == d && IsZero(r)
  {
    seq(d, _ => 0.0)
  }

  function InVocab(m: WordModel): string -> bool { t => t in m.wv }

  function Lookup(m: WordModel): string -> seq<real> { t => if t in m.wv then m.wv[t] else [] }

  /** `[model.wv[t] for t in tokens if t in model.wv]`: the embeddings of the in-vocabulary
      tokens, in order, a repeated token contributing once per occurrence. */
  function Embeddings(m: WordModel, tokens: seq<string>): (r: seq<seq<real>>)
    ensures |r| <= |tokens|
    ensures WellFormed(m) ==> AllOfSize(r, m.vectorSize)
    ensures r == [] <==> forall i :: 0 <= i < |tokens| ==> tokens[i] !in m.wv
  {
    var known := Seqs.Filter(InVocab(m), tokens);
    Seqs.FilterSelects(InVocab(m), tokens);
    assert forall j :: 0 <= j < |known| ==> known[j] in m.wv by {
      forall j | 0 <= j < |known| ensures known[j] in m.wv { assert InVocab(m)(known[j]); }
    }
    KnownEmptyIff(m, tokens);
    Seqs.Map(Lookup(m), known)
  }

  /** Which embeddings are averaged: the j-th is the vector of the j-th in-vocabulary token,
      the tokens taken at ascending positions, and no in-vocabulary occurrence is skipped. */
  lemma EmbeddingsSelect(m: WordModel, tokens: seq<string>)
    ensures var r, ps := Embeddings(m, tokens), Seqs.Positions(InVocab(m), tokens);
      && |r| == |ps| && Seqs.StrictlyIncreasing(ps)
      && (forall j :: 0 <= j < |ps| ==> ps[j] < |tokens| && tokens[ps[j]] in m.wv && r[j] == m.wv[tokens[ps[j]]])
      && (forall i :: 0 <= i < |tokens| && tokens[i] in m.wv ==> i in ps)
  {
    var ps := Seqs.Positions(InVocab(m), tokens);
    Seqs.FilterSelects(InVocab(m), tokens);
    forall i | 0 <= i < |tokens| && tokens[i] in m.wv ensures i in ps {
      assert InVocab(m)(tokens[i]);
    }
    forall j | 0 <= j < |ps| ensures tokens[ps[j]] in m.wv {
      assert InVocab(m)(tokens[ps[j]]);
    }
  }

  lemma KnownEmptyIff(m: WordModel, tokens: seq<string>)
    ensures Seqs.Filter(InVocab(m), tokens) == [] <==> forall i :: 0 <= i < |tokens| ==> tokens[i] !in m.wv
  {
    if forall i :: 0 <= i < |tokens| ==> tokens[i] !in m.wv {
      Seqs.FilterKeepsNone(InVocab(m), tokens);
    } else {
      var i :| 0 <= i < |tokens| && tokens[i] in m.wv;
      Seqs.FilterSelects(InVocab(m), tokens);
      assert i in Seqs.Positions(InVocab(m), tokens);
    }
  }

  /** Sum of coordinate `k` over the vectors. */
  function CoordSum(vs: seq<seq<real>>, k: nat): real
    requires forall j :: 0 <= j < |vs| ==> k < |vs[j]|
  {
    if vs == [] then 0.0 else CoordSum(vs[..|vs| - 1], k) + vs[|vs| - 1][k]
  }

  function Add(u: seq<real>, v: seq<real>): (r: seq<real>)
    requires |u| == |v|
    ensures |r| == |u|
  {
    seq(|u|, i requires 0 <= i < |u| => u[i] + v[i])
  }

  /** Element-wise sum of equally sized vectors. */
  function SumVectors(vs: seq<seq<real>>, d: nat): (r: seq<real>)
    requires AllOfSize(vs, d)
    ensures |r| == d
  {
    if vs == [] then Zeros(d) else Add(SumVectors(vs[..|vs| - 1], d), vs[|vs| - 1])
  }

  lemma {:induction false} SumVectorsCoord(vs: seq<seq<real>>, d: nat)
    requires AllOfSize(vs, d)
    ensures forall k :: 0 <= k < d ==> SumVectors(vs, d)[k] == CoordSum(vs, k)
  {
    if vs != [] {
      SumVectorsCoord(vs[..|vs| - 1], d);
    }
  }

  /** `np.mean(vecs, axis=0)`: coordinate `k` is the average of the vectors' `k`-th entries. */
  function Mean(vs: seq<seq<real>>, d: nat): (r: seq<real>)
    requires AllOfSize(vs, d) && |vs| > 0
    ensures |r| == d
    ensures forall k :: 0 <= k < d ==> r[k] == CoordSum(vs, k) / (|vs| as real)
  {
    SumVectorsCoord(vs, d);
    var total := SumVectors(vs, d);
    seq(d, k requires 0 <= k < d => total[k] / (|vs| as real))
  }

  /** The vector of one token list: the zero vector when the list is empty or none of its
      tokens is in the vocabulary, and otherwise the element-wise mean of the embeddings of
      its in-vocabulary tokens. */
  function AvgVector(m: WordModel, tokens: seq<string>): (r: seq<real>)
    requires WellFormed(m)
    ensures |r| == m.vectorSize
    ensures (forall i :: 0 <= i < |tokens| ==> tokens[i] !in m.wv) ==> r == Zeros(m.vectorSize)
    ensures (exists i :: 0 <= i < |tokens| && tokens[i] in m.wv) ==>
              var vecs := Embeddings(m, tokens);
              forall k :: 0 <= k < m.vectorSize ==> r[k] == CoordSum(vecs, k) / (|vecs| as real)
  {
    if tokens == [] then Zeros(m.vectorSize)
    else
      var vecs := Embeddings(m, tokens);
      if vecs == [] then Zeros(m.vectorSize) else Mean(vecs, m.vectorSize)
  }

  /** `_avg_vector_for_text`: the averaged vector of the preprocessed text, or the tokenizer's
      failure. Empty text gives the zero vector. */
  function AvgVectorForText(lib: TextLib, m: WordModel, text: string): (r: Result<seq<real>, TextError>)
    requires WellFormed(m)
    ensures r.Failure? <==> text != "" && !lib.punkt
    ensures r.Success? ==> |r.value| == m.vectorSize
    ensures text == "" ==> r == Success(Zeros(m.vectorSize))
    ensures r.Success? ==> r.value == AvgVector(m, Preprocessed(lib, text).value)
  {
    match Preprocessed(lib, text)
    case Failure(e) => Failure(e)
    case Success(tokens) => Success(AvgVector(m, tokens))
  }

  /** The text `build_word2vec` preprocesses for a row: its description after `astype(str)`. */
  function DescriptionText(b: Catalog.Book): string { StrOf(b.description) }

  /** `[preprocess_text(t) for t in descriptions]`: one token list per row, or the first
      failure of the tokenizer. */
  function Corpus(lib: TextLib, descs: seq<string>): (r: Result<seq<seq<string>>, TextError>)
    ensures r.Success? ==> |r.value| == |descs|
    ensures r.Success? ==> forall i :: 0 <= i < |descs| ==> Preprocessed(lib, descs[i]) == Success(r.value[i])
    ensures r.Failure? <==> exists i :: 0 <= i < |descs| && Preprocessed(lib, descs[i]).Failure?
  {
    if descs == [] then Success([])
    else
      match Preprocessed(lib, descs[0])
      case Failure(e) => Failure(e)
      case Success(tokens) =>
        match Corpus(lib, descs[1..])
        case Failure(e) =>
          assert forall i :: 0 <= i < |descs[1..]| ==> descs[1..][i] == descs[i + 1];
          Failure(e)
        case Success(rest) =>
          assert forall i :: 0 <= i < |descs[1..]| ==> descs[1..][i] == descs[i + 1];
          Success([tokens] + rest)
  }

  /** The matrix `build_word2vec` is specified to produce: row `i` is the averaged vector of
      document `i`. */
  function Averaged(m: WordModel, corpus: seq<seq<string>>): (rows: seq<seq<real>>)
    requires WellFormed(m)
    ensures |rows| == |corpus| && AllOfSize(rows, m.vectorSize)
  {
    seq(|corpus|, i requires 0 <= i < |corpus| => AvgVector(m, corpus[i]))
  }

  /** The averaging loop of `build_word2vec`: a zero matrix with one row per document, whose
      rows are overwritten in place by the mean of their in-vocabulary embeddings. */
  method AverageRows(m: WordModel, corpus: seq<seq<string>>) returns (rows: seq<seq<real>>)
    requires WellFormed(m)
    ensures rows == Averaged(m, corpus)
  {
    var dim := m.vectorSize;
    var vectors := new seq<real>[|corpus|](_ => Zeros(dim));
    for i := 0 to |corpus|
      invariant forall j :: 0 <= j < i ==> vectors[j] == AvgVector(m, corpus[j])
      invariant forall j :: i <= j < |corpus| ==> vectors[j] == Zeros(dim)
    {
      var tokens := corpus[i];
      if tokens == [] {
        continue;
      }
      var vecs := Embeddings(m, tokens);
      if vecs == [] {
        continue;
      }
      vectors[i] := Mean(vecs, dim);
    }
    rows := vectors[..];
  }

  /** `build_word2vec` with the trained model given: preprocess every description, then
      average. Training is taken to have succeeded, so the only failure left is the
      tokenizer's. */
  method BuildWord2Vec(lib: TextLib, books: seq<Catalog.Book>, m: WordModel)
    returns (r: Result<seq<seq<real>>, TextError>)
    requires WellFormed(m)
    ensures r.Failure? <==> Corpus(lib, Seqs.Map(DescriptionText, books)).Failure?
    ensures r.Success? ==> r.value == Averaged(m, Corpus(lib, Seqs.Map(DescriptionText, books)).value)
    ensures r.Success? ==> |r.value| == |books| && AllOfSize(r.value, m.vectorSize)
  {
    var corpus := Corpus(lib, Seqs.Map(DescriptionText, books));
    if corpus.Failure? {
      return Failure(corpus.error);
    }
    var rows := AverageRows(m, corpus.value);
    return Success(rows);
  }

  /** A seed's query vector is its own catalogue row: `_avg_vector_for_text` on the seed's
      cleaned description equals row `i` of the built matrix, unless that description
      lowercases to "nan" (then `_safe_text` empties it). */
  lemma SeedQueryIsOwnRow(lib: TextLib, m: WordModel, books: seq<Catalog.Book>, i: nat)
    requires WellFormed(m)
    requires Corpus(lib, Seqs.Map(DescriptionText, books)).Success?
    requires i < |books| && books[i].description.Str? && Lower(books[i].description.s) != "nan"
    ensures AvgVectorForText(lib, m, SafeText(books[i].description))
            == Success(Averaged(m, Corpus(lib, Seqs.Map(DescriptionText, books)).value)[i])
  {
    var descs := Seqs.Map(DescriptionText, books);
    assert descs[i] == SafeText(books[i].description);
  }
}
