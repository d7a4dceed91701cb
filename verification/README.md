# Book recommender: a verified model of the embedding and ranking core

This project models, in Dafny, the algorithmic core of a book recommender that represents
every catalogue entry by the average of its description's word embeddings and ranks the
catalogue by cosine similarity to a query. The core has two halves.

- **The offline build** (`scripts/build_tfidf_and_save.py`):
  - text normalisation (`_safe_text`, `safe_tokenize`, `preprocess_text`);
  - catalogue cleaning (`load_data`);
  - the averaging loop of `build_word2vec`;
  - `_avg_vector_for_text`;
  - the script's own query function `recommend_split`.
- **The service** (`app/api.py`):
  - the three globals `MODEL`/`VECTORS`/`META_DF`, loaded once at start-up;
  - the `/health` report;
  - the `/recommend` handler.

Modules, one per component:

| file | module | models |
|---|---|---|
| outcomes.dfy | `Outcomes` | Option and Result, for None and for the source's exceptions and error statuses |
| seqs.dfy | `Seqs` | order-preserving filter and map, and the lemma saying which elements a filter keeps |
| text.dfy | `Text` | `_safe_text`, the `[a-zA-Z]+` fallback tokenizer, `safe_tokenize`, `preprocess_text` |
| catalog.dfy | `Catalog` | `load_data`: filling absent columns, the description filter, the 5000-row cap |
| vectors.dfy | `Vectors` | averaging of embeddings, `build_word2vec`'s loop, `_avg_vector_for_text` |
| ranking.dfy | `Ranking` | overwriting the seed's score with -1.0, `argsort()[::-1][:top_k]`, numbering from 1 |
| recommend.dfy | `Recommend` | `recommend_split`, and the answering step both entry points share |
| api.dfy | `Api` | the service globals, `health`, the `recommend` handler |

External code is passed in as values:

- NLTK's `word_tokenize`, WordNet lemmatiser and Porter stemmer, and the per-character test
  behind `str.isalpha`, are function-valued fields of `Text.TextLib`.
- Whether the tokenizer's data is installed is the flag `TextLib.punkt`. Without it,
  `safe_tokenize` falls back to the regular expression, and `preprocess_text` fails.
- The trained Word2Vec model is a `Vectors.WordModel`: a dimension plus a map from word to
  vector.
- The cosine scores of the query against every row are an input sequence of reals.
- The outcome of loading the artifact is an input to the service's constructor.
- pandas' seeded sampler is the sequence of row positions it picks.

Behaviour of the code worth knowing, each stated as a contract or lemma:

- Ties among equal scores are left in any order, because NumPy's `argsort` is not stable.
- Excluding the seed (the `# exclude self` line, scripts/build_tfidf_and_save.py:279) only
  lowers its score to -1.0. `Ranking.SeedReturnedWhenAllRequested` proves the seed is still
  returned when `top_k` covers the catalogue.
- A request may carry both a seed and a description:
  - `recommend_split` uses the description;
  - the service handler uses the seed (`Api.EntryPointsAgree`).
- `recommend_split` does not validate `top_k`. It is modelled as Python's slice bound
  (`Ranking.SliceLength`), so a negative `top_k` counts from the end.
- `load_data` converts descriptions to text before it drops missing ones, so a missing
  description becomes the text "nan" and the row stays in the catalogue
  (`Catalog.MissingDescriptionKept`). As a seed, such a row gets no recommendations, because
  `_safe_text` empties "nan" (`Recommend.NanSeedGetsNothing`).
- `preprocess_text` calls NLTK's tokenizer directly. It does not fall back to the regular
  expression when the tokenizer's data is missing; it fails.
- The service rejects `top_k < 1` with status 422. The framework's parameter validation
  (`ge=1`) does this before the handler body runs, so before the 500 for a missing model.

## Model

| member | source | states |
|---|---|---|
| `Text.SafeText` | scripts/build_tfidf_and_save.py:72-76 | the result is "" exactly for None, NaN, the empty string and any text lowercasing to "nan"; otherwise it is the input text; it never lowercases to "nan" |
| `Text.SafeTextIdempotent` | scripts/build_tfidf_and_save.py:72-76 | cleaning an already cleaned value changes nothing |
| `Text.AlphaRuns` | scripts/build_tfidf_and_save.py:124 | every token of the `[a-zA-Z]+` scan is a non-empty run of ASCII letters |
| `Text.AlphaRunsOfWord` | scripts/build_tfidf_and_save.py:124 | a whole run of letters is exactly one token (runs are maximal) |
| `Text.AlphaRunsSplit` | scripts/build_tfidf_and_save.py:124 | a non-letter separates the text: the tokens of the left part, then those of the right part, none spanning it (with `AlphaRunsOfWord`, this fixes the tokens of every string) |
| `Text.AlphaRunsOfLowered` | scripts/build_tfidf_and_save.py:124 | scanning lower-cased text yields lower-case words only |
| `Text.SafeTokenize` | scripts/build_tfidf_and_save.py:115-124 | empty text gives no tokens; the NLTK tokenizer when its data is present; otherwise exactly `AlphaRuns` of the lower-cased text, so lower-case words, maximal and in text order by `AlphaRunsOfWord` and `AlphaRunsSplit` |
| `Text.Preprocessed` | scripts/build_tfidf_and_save.py:134-152 | empty text gives []; the call fails exactly when the text is non-empty and the tokenizer data is missing; the output is no longer than the token list |
| `Text.PreprocessText` | scripts/build_tfidf_and_save.py:126-152 | the appending loop returns exactly `Preprocessed` |
| `Text.PreprocessSelects` | scripts/build_tfidf_and_save.py:137-151 | output token j is the lemmatised form of the tokenizer token at ascending position j; that token is alphabetic and at least 2 long; every such token contributes (order kept, none lost) |
| `Catalog.Project` | scripts/build_tfidf_and_save.py:159-165 | a projected row always carries its description as text (`astype(str)`) |
| `Catalog.StripEmptyIffBlank` | scripts/build_tfidf_and_save.py:167 | `s.strip() == ""` exactly when every character of `s` is whitespace |
| `Catalog.CleanedRowFacts` | scripts/build_tfidf_and_save.py:164-167 | every cleaned row has description text and is the projection of a file row |
| `Catalog.Cleaned` | scripts/build_tfidf_and_save.py:164-167 | the rows kept by the description filter: never more than the file has, each with non-blank description text |
| `Catalog.LoadData` | scripts/build_tfidf_and_save.py:155-174 | at most 5000 rows; every description is non-blank text; absent title/authors/genres columns read ""; every row comes from the cleaned table; unsampled output is the cleaned table in file order; sampled output is exactly 5000 rows, row j being cleaned row `picks[j]` for 5000 distinct picks |
| `Catalog.CleanedKeepsOrder` | scripts/build_tfidf_and_save.py:164-167 | cleaning keeps file order and drops exactly the rows with blank description |
| `Catalog.MissingDescriptionKept` | scripts/build_tfidf_and_save.py:165-167 | a row with a missing description survives cleaning, with description "nan" |
| `Catalog.NoDescriptionColumnEmpties` | scripts/build_tfidf_and_save.py:159-167 | without a description column the cleaned catalogue is empty |
| `Vectors.Embeddings` | scripts/build_tfidf_and_save.py:200 | no more embeddings than tokens, each of the model's dimension; empty exactly when no token is in the vocabulary |
| `Vectors.EmbeddingsSelect` | scripts/build_tfidf_and_save.py:200 | embedding j is the vector of the in-vocabulary token at ascending position j, and every in-vocabulary occurrence contributes one (order kept, repeats counted) |
| `Vectors.Mean` | scripts/build_tfidf_and_save.py:203 | coordinate k of the mean is the sum of the k-th coordinates divided by the number of vectors |
| `Vectors.AvgVector` | scripts/build_tfidf_and_save.py:197-203 | the row has the model's dimension; it is the zero vector when no token is in the vocabulary, and otherwise the coordinate-wise mean of the in-vocabulary embeddings |
| `Vectors.AvgVectorForText` | scripts/build_tfidf_and_save.py:225-232 | `_avg_vector_for_text` follows the same rule on the preprocessed text; empty text gives the zero vector; fails only when the tokenizer does |
| `Vectors.Corpus` | scripts/build_tfidf_and_save.py:183 | one token list per description, each the preprocessing of that description; fails exactly when some preprocessing fails |
| `Vectors.Averaged` | scripts/build_tfidf_and_save.py:193-203 | the averaged matrix has one row per document, each of the model's dimension |
| `Vectors.AverageRows` | scripts/build_tfidf_and_save.py:193-203 | the in-place loop over a zero matrix produces exactly `Averaged` |
| `Vectors.BuildWord2Vec` | scripts/build_tfidf_and_save.py:177-208 | given the trained model: one averaged row per catalogue row, or the tokenizer's failure |
| `Vectors.SeedQueryIsOwnRow` | scripts/build_tfidf_and_save.py:254-273 | a seed's query vector equals its own row of the matrix, unless its description lowercases to "nan" |
| `Ranking.ArgsortDescending` | scripts/build_tfidf_and_save.py:281 | every row index exactly once, scores non-increasing; tie order unconstrained |
| `Ranking.SliceLength` | scripts/build_tfidf_and_save.py:281 | `[:top_k]` keeps min(top_k, n) entries for non-negative `top_k`, never more than n |
| `Ranking.Adjusted` | scripts/build_tfidf_and_save.py:278-279 | in seed mode the seed's score is exactly -1.0 and every other score is unchanged |
| `Ranking.ExcludeSeed` | scripts/build_tfidf_and_save.py:278-279 | the in-place overwrite on a copy of the scores yields `Adjusted` |
| `Ranking.NumberResults` | scripts/build_tfidf_and_save.py:283-293 | entry j has rank j+1, the j-th index, that row's cleaned title/author/genre and its score |
| `Ranking.RankRows` | scripts/build_tfidf_and_save.py:277-293 | length min(top_k, n) (Python slice length in general); ranks 1..len; distinct indices in [0, n); scores non-increasing; each score is the row's adjusted score; no omitted row scores above a returned one |
| `Ranking.SeedRankedAfterHigher` | scripts/build_tfidf_and_save.py:278-281 | a returned seed scores -1.0, and every row scoring above -1.0 is returned ahead of it |
| `Ranking.SeedReturnedWhenAllRequested` | scripts/build_tfidf_and_save.py:278-281 | with `top_k >= n` the seed is still among the results (the exclusion is soft) |
| `Recommend.Answer` | scripts/build_tfidf_and_save.py:272-293 | fails exactly when the tokenizer does; otherwise returns the request's `seed_info`, no results for a zero query vector, else a ranking of the scores with the seed's set to -1.0 |
| `Recommend.ResolveSplit` | scripts/build_tfidf_and_save.py:247-270 | ValueError exactly when neither argument is given; IndexError exactly when only an out-of-range seed is; a description gives custom mode with that text, even with a seed; otherwise seed mode on that row's cleaned description |
| `Recommend.RecommendSplit` | scripts/build_tfidf_and_save.py:247-295 | neither argument raises ValueError; an out-of-range seed without description raises IndexError; a description gives custom `seed_info` even with a seed; a valid seed gives that row's `seed_info`; the tokenizer's failure (LookupError) exactly when the resolved query text is non-empty and its data is missing; success is an answer for the resolved query |
| `Recommend.NoKnownTokenNoResults` | scripts/build_tfidf_and_save.py:273-275 | empty query text, or text with no in-vocabulary token, returns no results |
| `Recommend.NanSeedGetsNothing` | scripts/build_tfidf_and_save.py:254-275 | a seed whose description is "nan" gets its `seed_info` and no results |
| `Recommend.CustomScoresUnmodified` | scripts/build_tfidf_and_save.py:278-281 | in custom mode every returned score is the row's similarity, unmodified |
| `Api.ResolveApi` | app/api.py:70-86 | 400 exactly when neither argument is given or the seed is out of range; a seed gives seed mode on that row's cleaned description, even with a description; otherwise custom mode with the given text |
| `Api.EntryPointsAgree` | app/api.py:70-86 | with only one of seed and description, both entry points resolve alike; with both, the script takes the description and the handler the seed (400 when out of range) |
| `Api.Service.constructor` | app/api.py:24-29 | a failed load leaves all three globals None and health (false, 0); a successful one sets all three and health (true, rows) |
| `Api.Service.Health` | app/api.py:56-59 | ok exactly when all three globals are present, which by the service invariant is exactly when the catalogue is; rows is its length, else 0 |
| `Api.Service.Recommend` | app/api.py:61-111 | `top_k < 1` gives 422; then a missing model 500; neither argument 400; an out-of-range seed 400 even with a description; a tokenizer failure on non-empty text gives 500 (an unhandled exception); every other request succeeds; seed `seed_info` when a seed is given, custom otherwise; at most `top_k` results; success is an answer for the resolved query |

## Left out

- Word2Vec training (`Word2Vec(...)`): stochastic floating-point library code. The trained model is an input.
- `Vectors.BuildWord2Vec`: assumes training succeeded. `Word2Vec(sentences=corpus, ...)` raises when no word reaches `min_count`, for example on an empty catalogue, and the model does not capture that failure.
- NLTK's tokenizer, lemmatiser and stemmer: foreign code, so they are function values. A lemmatiser failing for missing WordNet data is not modelled. The data download in `_ensure_nltk_data` is I/O.
- `Text.Lower`: maps only the ASCII letters A-Z. Python's `str.lower` also changes non-ASCII letters, so on text with non-ASCII capitals the model differs from the source: the text given to `word_tokenize` in `preprocess_text`, the fallback tokenizer's input, and so every corpus row and query vector built from it.
- `cosine_similarity`: floating-point, square-root-based code. The scores are an input of the same length as the catalogue.
- Floating point in general: vectors and scores are exact reals. float32 rounding and NaN scores are not modelled.
- The order of tied scores: NumPy's unstable sort. `Ranking.ArgsortDescending` states only the ordering and the permutation.
- pandas' seeded sampling: modelled only as some 5000 distinct rows in some order.
- CSV reading, `save_artifact`, `load_artifact` and the `joblib.load` inside `recommend_split`: I/O. `recommend_split` receives the loaded artifact, and the service receives the load outcome.
- Cells holding numbers or other non-text values: a cell is None, NaN or text.
- Logging and the diagnostics of `build_word2vec` (counts of empty and non-zero rows): no effect on results.
- Default arguments: `recommend_split`'s `seed_idx` defaults to `SEED_IDX` (0) and its `top_k` to 10 (scripts/build_tfidf_and_save.py:235,238), and the handler's `top_k` defaults to 10 (app/api.py:65). The model takes every argument explicitly: an omitted `seed_idx` is seed 0 in the source, and only an explicit `None` raises ValueError.
- The `__main__` driver, the unused `dedupe` parameter, and the constants `TOP_DESC`, `TOP_GENRE` and `TOP_TITLE`: not part of the computation.
- Routing, CORS middleware and response models of the service, and the whole Streamlit UI (`app/streamlit_app.py`): presentation and transport code.
