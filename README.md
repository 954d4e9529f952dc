# Article materializer and recommender of Web-News-Provenance, in Dafny

This project models the deterministic core of `SPARQLService` in
`backend/Nepr/api/services/sparql_service.py` and proves properties of it.

**The record materializer.**
- `populate_article_data` folds the rows of the two-hop query for one article URL into the nested article dictionary, one row at a time.
- Each row is handled inside `try`/`except`, so a row that raises is skipped and the next one is processed.
- The sub-entity builders `populate_person`, `populate_organization`, `populate_image_data`, `populate_audio_data` and `populate_video_data` rescan every row with the same outer object `o`. Each fills a dictionary with a fixed key set.
- Modules:
  - `Entities`: rows and the builders. The five builders are one function of the entity kind.
  - `Materializer`: the per-row step, the fold, and the loop as a method.
  - `PyText`: Python's `int()` on strings.

**The recommendation pipeline.**
- `_extract_user_preferences`, in module `Preferences`:
  - it collects the truthy word counts, the keyword tokens, and the truthy author and publisher names;
  - it takes the `int()`-truncated linear 25th and 75th percentiles (module `Quantiles`);
  - it takes `Counter.most_common` for the keywords and names (module `Counting`, over the stable sort of module `Sorting`).
- Module `Ranking` holds three parts of the ranking:
  - the text surrogate built for TF-IDF;
  - `_calculate_metadata_similarity`, in tenths;
  - the part of `_rank_articles` after the similarity computation: the history filter, the `0.7·similarity + 0.3·metadata` score, a stable descending sort, and the cut to `max_recommendations`.
- Module `Recommender` holds `_get_candidate_articles` (a strict search, then a relaxed one) and `get_recommendations` (an empty history gives `[]`).
- Module `Docs` gives the shape of the article dictionaries the pipeline reads.

The database and the TF-IDF computation are parameters:
- a `Fetch` function gives the rows `get_article_by_url` materializes for a URL. A failed request gives no rows, because `execute_sparql_query` returns `[]` (lines 852-858). `None` stands for `get_article_by_url`'s outer `except` (lines 1205-1207);
- a `Search` function gives the result of `advanced_search` for a profile;
- a `Similarity` function gives one score per candidate, or `None` when the library call raises.

Where the source loops and updates variables, the model has a method with a loop. Each method is proved equal to a specification function:
- `Entities.PopulateEntity`
- `Materializer.ApplyRow` and `Materializer.Materialize`
- `Preferences.ExtractPreferences`
- `Ranking.SurrogateTexts`, `Ranking.ScoreCandidates` and `Ranking.RankArticles`
- `Recommender.GetRecommendations`

The lemmas then state what the source promises about those functions.

Behaviour settled by the code that a reader might not expect:
- An `author` row whose second hop is `@type` but names neither `Person` nor `Organization` appends `{}` once (sparql_service.py:1114-1121). Author rows with any other second hop add nothing. The publisher branch refuses `{}` (line 1131).
- `populate_audio_data` and `populate_video_data` are called with their arguments swapped (lines 1149, 1156). `.get` on a list raises, so every audio and video row is skipped and both lists stay `[]`.
- `editor` starts as the dictionary `{}` (line 1065). At line 1164 the code tests whether a person dictionary is `in` that dictionary. That lookup raises `TypeError` (a dictionary cannot be hashed), so every editor row is skipped.
- The word-count test of the metadata score runs only when the count and both bounds are truthy (lines 301-303). A bound of 0 switches it off.
- The materialized article depends on the order of the rows, not only on their set. Every single-valued key (`headline`, `url`, `wordCount`, `thumbnail`, ...) takes the value of the last row that writes it. `keywords` follows row order, and `author`, `publisher` and `image` follow the order of first occurrence. `Materializer.RowOrderMatters` shows two `headline` rows giving different headlines in the two orders.

## Model

| member | source | states |
|---|---|---|
| Entities.PopulateEntity | backend/Nepr/api/services/sparql_service.py:860-1043 | the builder loop (all keys `None`, then one pass that overwrites the key named by each row of the same entity, `int()` for height/width) returns exactly the specified build, or the exception that `int()` raises |
| Entities.Build | backend/Nepr/api/services/sparql_service.py:860-1043 | the builder as a fold over the rows: person and organization builds never raise |
| Entities.BuildKeys | backend/Nepr/api/services/sparql_service.py:862-877 | a built dictionary has exactly its kind's fixed key set, whatever the rows |
| Entities.BuildKey | backend/Nepr/api/services/sparql_service.py:878-912 | each key holds the (converted) sub-object of the LAST row of the entity naming it and `None` when no row names it; rows of other entities and other sub-predicates are ignored |
| Entities.BuildFails | backend/Nepr/api/services/sparql_service.py:926-930 | a builder raises exactly when some row of the entity names an integer key whose sub-object `int()` rejects; person and organization builders never raise |
| Entities.KeyOfSchema | backend/Nepr/api/services/sparql_service.py:884-911 | the sub-predicate `http://schema.org/k` names exactly the key `k` |
| PyText.ParseInt | backend/Nepr/api/services/sparql_service.py:1097 | `int()` of a string: the value of an optionally signed, stripped numeral of at most 4300 digits (underscores only between digits), `None` where Python raises `ValueError`; every value returned has a decimal numeral of at most 4300 digits |
| PyText.ParseShowInt | backend/Nepr/api/services/sparql_service.py:1097 | `int()` of an integer's decimal text gives the integer back when it has at most 4300 digits, and is refused beyond that (round trip) |
| PyText.SplitJoinWords | backend/Nepr/api/services/sparql_service.py:136 | `' '.join(words).split()` gives `words` back when every word is non-empty and whitespace-free |
| PyText.SplitJoin | backend/Nepr/api/services/sparql_service.py:220 | the words of `' '.join(parts)` are the words of the parts, in order |
| Materializer.AgentOf | backend/Nepr/api/services/sparql_service.py:1114-1119 | an author/publisher dictionary that is not `{}` is a person dictionary (type `Person`) or an organization dictionary (type `Organization`), with that kind's key set |
| Materializer.Step | backend/Nepr/api/services/sparql_service.py:1073-1167 | the body of the `try` for one row: it only appends to `keywords`, `author`, `publisher` and `image`, and never changes `audio`, `video`, `editor` or `@context` |
| Materializer.StepRaises | backend/Nepr/api/services/sparql_service.py:1071-1169 | a row raises exactly when it is a `wordCount` row whose literal `int()` rejects, an `image`/`thumbnail` row whose image build raises, or an `audio`, `video` or `editor` row, independently of what was built before |
| Materializer.SkipIsRemoval | backend/Nepr/api/services/sparql_service.py:1168-1169 | a row that raises leaves the result as if it were absent from the loop (the rescans still see it) |
| Materializer.RowOrderMatters | backend/Nepr/api/services/sparql_service.py:1086-1105 | row order matters: two `headline` rows give the later row's object, so swapping them changes the result |
| Materializer.FoldAppend | backend/Nepr/api/services/sparql_service.py:1070-1071 | processing `xs + ys` is processing `xs`, then `ys` from that dictionary |
| Materializer.FoldKeywords | backend/Nepr/api/services/sparql_service.py:1106-1108 | `keywords` gains the object of every `keywords` row, in row order, duplicates kept, and nothing else |
| Materializer.FoldScalar | backend/Nepr/api/services/sparql_service.py:1086-1105 | each scalar key holds the object of the last row naming it |
| Materializer.FoldUrl | backend/Nepr/api/services/sparql_service.py:1109-1110 | `url` is the object of the last `url` row, or the requested URL |
| Materializer.FoldWordCount | backend/Nepr/api/services/sparql_service.py:1096-1097 | `wordCount` is `int()` of the last `wordCount` row whose literal parses; unparsable rows are skipped |
| Materializer.FoldThumbnail | backend/Nepr/api/services/sparql_service.py:1140-1145 | `thumbnail` is the image dictionary built for the last `thumbnail` row whose build does not raise |
| Materializer.FoldUntouched | backend/Nepr/api/services/sparql_service.py:1146-1165 | `audio`, `video`, `editor` and `@context` are never changed |
| Materializer.FoldAuthor | backend/Nepr/api/services/sparql_service.py:1111-1121 | `author` stays duplicate-free and holds exactly the dictionaries built by `@type` author rows |
| Materializer.FoldPublisher | backend/Nepr/api/services/sparql_service.py:1122-1132 | `publisher` stays duplicate-free, never holds `{}`, and holds exactly the non-empty dictionaries built by `@type` publisher rows |
| Materializer.FoldImage | backend/Nepr/api/services/sparql_service.py:1133-1139 | `image` stays duplicate-free and holds exactly the dictionaries built without raising by `image` rows |
| Materializer.MaterializedCollections | backend/Nepr/api/services/sparql_service.py:1045-1170 | the list-valued keys of the result: keywords in row order; author, publisher, image each once per distinct built dictionary; audio, video and editor empty |
| Materializer.MaterializedScalars | backend/Nepr/api/services/sparql_service.py:1045-1170 | the single-valued keys of the result: last write wins, initial value (`None`, `[]`, the URL) when no row writes them |
| Materializer.AuthorProvenance | backend/Nepr/api/services/sparql_service.py:1111-1121 | a non-empty author dictionary comes from an `@type` author row of that type; `{}` is an author exactly when some `@type` author row names neither type |
| Materializer.ApplyRow | backend/Nepr/api/services/sparql_service.py:1073-1167 | the `try` body for one row, calling the builders, yields the specified step (new dictionary or exception) |
| Materializer.Materialize | backend/Nepr/api/services/sparql_service.py:1045-1170 | the loop over all rows with its `except` branch returns the materialized article |
| Docs.AgentNames | backend/Nepr/api/services/sparql_service.py:109-114 | every name an article contributes is truthy |
| Docs.NamesOf | backend/Nepr/api/services/sparql_service.py:111 | the names taken from a list of dictionaries are exactly the truthy `name`s of its dictionaries |
| Counting.FirstIndex | backend/Nepr/api/services/sparql_service.py:135 | the position returned is the first occurrence |
| Counting.DistinctOrder | backend/Nepr/api/services/sparql_service.py:135 | the counter's keys are the distinct elements, each once, in order of first appearance |
| Counting.RankedMembers | backend/Nepr/api/services/sparql_service.py:135-136 | `most_common()` lists every distinct element exactly once |
| Counting.RankedOrder | backend/Nepr/api/services/sparql_service.py:135-136 | `most_common()` is in strictly decreasing rank: by count, ties by first appearance |
| Counting.MostCommon | backend/Nepr/api/services/sparql_service.py:135-136 | `most_common(n)` is the first `n` of the full ranking, or all of it when it is shorter |
| Counting.MostCommonSpec | backend/Nepr/api/services/sparql_service.py:135-136 | `most_common(n)` has `min(n, #distinct)` distinct elements of the input in rank order, and every element left out ranks after every element kept |
| Counting.MostCommonLeftOut | backend/Nepr/api/services/sparql_service.py:136 | every element that `most_common(n)` leaves out ranks after every kept element |
| Counting.MostFrequent | backend/Nepr/api/services/sparql_service.py:138-144 | `most_common(1)[0][0]` occurs at least as often as any element, and first among the equally frequent |
| Sorting.SortDescending | backend/Nepr/api/services/sparql_service.py:263-267 | `sorted(..., reverse=True)` is in non-increasing key order |
| Sorting.SortPermutes | backend/Nepr/api/services/sparql_service.py:263-267 | sorting is a permutation |
| Sorting.SortStable | backend/Nepr/api/services/sparql_service.py:263-267 | for each key value, the elements with that key keep their input order |
| Sorting.SortTiesOrdered | backend/Nepr/api/services/sparql_service.py:263-267 | any order relation respected by equal-key elements of the input is respected in the output |
| Sorting.SortNoDup | backend/Nepr/api/services/sparql_service.py:263-267 | sorting a duplicate-free list gives a duplicate-free list |
| Sorting.SortDescIdentity | backend/Nepr/api/services/sparql_service.py:263-267 | a list already in non-increasing order is its own sort |
| Seqs.SliceTo | backend/Nepr/api/services/sparql_service.py:269 | `s[:k]` is a prefix of `s` of length `min(k, len s)`, or `max(len s + k, 0)` for negative `k` |
| Seqs.LastHit | backend/Nepr/api/services/sparql_service.py:883-911 | the index returned satisfies the test and no later one does; -1 when none does |
| Seqs.Hits | backend/Nepr/api/services/sparql_service.py:42-45 | the positions a filtering loop keeps: in increasing order, each satisfying the test, and none that satisfies it missed |
| Quantiles.SortAscending | backend/Nepr/api/services/sparql_service.py:126-127 | the sort percentile interpolates on is ascending |
| Quantiles.SortedIsIdentity | backend/Nepr/api/services/sparql_service.py:126-127 | an ascending list is its own sort |
| Quantiles.Percentile | backend/Nepr/api/services/sparql_service.py:126-127 | `int(np.percentile(...))` in quarters: the 0th percentile is the smallest count and the 100th the largest |
| Quantiles.TruncQuarter | backend/Nepr/api/services/sparql_service.py:126-127 | `int(x / 4)` truncates toward zero: the result is within one of `x / 4` on the side of zero |
| Quantiles.Min | backend/Nepr/api/services/sparql_service.py:88-91 | the reference minimum of the collected word counts, an element no larger than any other, that `Preferences.WordCountBounds` bounds the lower quartile with |
| Quantiles.Max | backend/Nepr/api/services/sparql_service.py:88-91 | the reference maximum of the collected word counts, an element no smaller than any other, that `Preferences.WordCountBounds` bounds the upper quartile with |
| Quantiles.PercentileBounds | backend/Nepr/api/services/sparql_service.py:126-127 | every truncated percentile lies between the smallest and the largest count |
| Quantiles.PercentileMonotone | backend/Nepr/api/services/sparql_service.py:126-127 | a higher percentile is never smaller, so `wordcount_min <= wordcount_max` |
| Quantiles.QuartilesExample | backend/Nepr/api/services/sparql_service.py:126-127 | `[100, 200, 300, 400]` gives 175 and 325 |
| Quantiles.TruncationExample | backend/Nepr/api/services/sparql_service.py:126 | truncation is toward zero: the 25th percentile of `[-5, -2]` is -4, not -5 |
| Preferences.ExtractPreferences | backend/Nepr/api/services/sparql_service.py:67-146 | the collecting loop and the summary steps return the specified profile |
| Preferences.Profiled | backend/Nepr/api/services/sparql_service.py:67-146 | the preferences dictionary: the two word-count bounds are set together, and no articles leave every preference unset |
| Preferences.WordCountsMembers | backend/Nepr/api/services/sparql_service.py:88-91 | `word_counts` holds exactly the truthy word counts of the articles |
| Preferences.WordCountBounds | backend/Nepr/api/services/sparql_service.py:88-127 | both bounds are set together, exactly when some article has a truthy word count, and then `min(counts) <= wordcount_min <= wordcount_max <= max(counts)` |
| Preferences.KeywordPreference | backend/Nepr/api/services/sparql_service.py:101-136 | the keyword preference is unset exactly when no token was collected; for whitespace-free tokens its words are `most_common(10)` of the tokens |
| Preferences.AuthorPreference | backend/Nepr/api/services/sparql_service.py:108-140 | `author_name` is unset exactly when no name was collected; otherwise a truthy collected name, most frequent, first among ties |
| Preferences.PublisherPreference | backend/Nepr/api/services/sparql_service.py:116-144 | the same for `publisher` |
| Preferences.AgentPoolTruthy | backend/Nepr/api/services/sparql_service.py:108-122 | only truthy names are collected |
| Ranking.SurrogateWords | backend/Nepr/api/services/sparql_service.py:209-220 | the surrogate's words are the headline's, then the abstract's, then every keyword's: no word lost or invented |
| Ranking.SplitAllAppend | backend/Nepr/api/services/sparql_service.py:215-219 | the words of two lists of parts are the words of each, in order |
| Ranking.SurrogatesAt | backend/Nepr/api/services/sparql_service.py:209-233 | the i-th text is the surrogate of the i-th article |
| Ranking.SurrogateTexts | backend/Nepr/api/services/sparql_service.py:206-233 | the loop fills the texts, one per article in order, each with the words above |
| Ranking.MetadataScore | backend/Nepr/api/services/sparql_service.py:275-307 | `_calculate_metadata_similarity` in tenths: at most 1.0, and 0 exactly when neither name nor the word count matches |
| Ranking.MetadataScoreDecodes | backend/Nepr/api/services/sparql_service.py:275-307 | the score is one of 0, 0.3, 0.4, 0.6, 0.7, 1.0 and tells which tests passed (word count iff 0.4/0.7/1.0; both names iff 0.6/1.0; neither iff 0/0.4) |
| Ranking.DefaultProfileScoresZero | backend/Nepr/api/services/sparql_service.py:280-305 | a profile with nothing collected scores every article 0 |
| Ranking.FinalScoreBounds | backend/Nepr/api/services/sparql_service.py:254-258 | a similarity in [0, 1] gives a final score in [0, 1] |
| Ranking.ScoresImage | backend/Nepr/api/services/sparql_service.py:245-260 | `scored_articles` is the candidates outside the history, in candidate order: as many entries as such candidates, the j-th scoring the j-th of them with its own similarity |
| Ranking.ScoresMembers | backend/Nepr/api/services/sparql_service.py:245-260 | `scored_articles` holds exactly one entry per candidate outside the history, in candidate order, with that candidate's own similarity; every entry comes from such a candidate, and every such candidate has its entry |
| Ranking.ScoreCandidates | backend/Nepr/api/services/sparql_service.py:245-260 | the scoring loop returns the specified scored list |
| Ranking.RankArticles | backend/Nepr/api/services/sparql_service.py:183-273 | the whole ranking, with the similarity as an input, returns the specified list |
| Ranking.RankedFromCandidates | backend/Nepr/api/services/sparql_service.py:246-260 | every recommendation is a candidate outside the history, scored `0.7·similarity + 0.3·metadata` |
| Ranking.CutOrder | backend/Nepr/api/services/sparql_service.py:263-269 | a sorted-then-cut list is in non-increasing score, and per score a prefix of the input's entries with that score |
| Ranking.CutBest | backend/Nepr/api/services/sparql_service.py:263-269 | a sorted-then-cut list is a sub-bag of the input of the slice's length, and nothing cut off scores higher than anything kept |
| Ranking.RankedOrder | backend/Nepr/api/services/sparql_service.py:262-267 | the recommendations are in non-increasing final score, equal scores in candidate order |
| Ranking.RankedCut | backend/Nepr/api/services/sparql_service.py:262-269 | at most `max_recommendations` entries (slice semantics for negative values), all when there are fewer, and every cut-off candidate scores no higher than any recommendation |
| Ranking.RankedEmpty | backend/Nepr/api/services/sparql_service.py:195-196 | no candidates, a similarity step that raises, or `max_recommendations = 0` gives `[]` |
| Recommender.Candidates | backend/Nepr/api/services/sparql_service.py:148-181 | the strict results when there are any, else the relaxed ones; empty exactly when both are; with no author and no publisher the relaxed search is never needed |
| Recommender.Viewed | backend/Nepr/api/services/sparql_service.py:41-48 | `viewed_articles`: no more articles than URLs in the history |
| Recommender.ViewedImage | backend/Nepr/api/services/sparql_service.py:41-45 | `viewed_articles` is the history in order: one article per URL for which `get_article_by_url` did not return `None`, the j-th materialized from the j-th such URL, and nothing else |
| Recommender.ViewedEmpty | backend/Nepr/api/services/sparql_service.py:41-48 | there are no viewed articles exactly when `get_article_by_url` returned `None` for every URL of the history; a URL whose request failed still gives a viewed article, built from no rows |
| Recommender.GetRecommendations | backend/Nepr/api/services/sparql_service.py:26-65 | the pipeline (fetch and materialize, preferences, candidates, ranking) returns the specified list |
| Recommender.RecommendationsSpec | backend/Nepr/api/services/sparql_service.py:41-65 | a history for which `get_article_by_url` returned `None` at every URL gives `[]`; otherwise no recommendation is in the history, scores do not increase, and there are at most `max_recommendations` |

## Left out

- Preferences.ExtractPreferences: always returns a profile. In the source, `min`/`max` over `dates_published` (lines 130-131) raise `TypeError` when dates with an offset (`...Z`, read as `+00:00`) are mixed with dates without one, and that exception leaves `get_recommendations`. Publication dates are left out of the model, as described below.
- Recommender.GetRecommendations: always returns a list. In the source, `execute_search_sparql_query` (lines 816-823) has no `try`, so a failed search request raises out of `_get_candidate_articles` and `get_recommendations`. `Search` is a total function here.
- Network access is not modelled:
  - `execute_sparql_query`, `execute_search_sparql_query`, insert and delete, and the SPARQL text of every query.
  - the query inside `get_article_by_url` is the `Fetch` parameter. A failed request is an empty row list, since `execute_sparql_query` returns `[]` (lines 852-858). `None` is the outer `except` at lines 1205-1207.
  - `advanced_search` and the five `search_*` functions are the `Search` parameter. It gets the profile without the date bounds.
- TF-IDF: the character n-gram vectorizer, the cosine similarity and the averaging (lines 199-242) are the `Similarity` parameter. The `except` at lines 271-273 is its `None` result.
- Publication dates (lines 94-99, 129-131): `datetime.fromisoformat` is a foreign call, so `datePublished_min`/`_max` are not in the profile.
- `create_graph`, `user_service.py`, logging and `print` are left out: I/O and persistence, with no logic in the core.
- Floating point: all scores are exact reals (the metadata score in tenths), and numpy's interpolation is computed exactly in quarters. For the scores, Python's floats differ only by rounding in the last bits, so two candidates whose exact scores tie may be ordered differently by the source.
- Preferences.ExtractPreferences: exact for word counts of any size, while `int(np.percentile(...))` (lines 126-127) is not. Above 2^53 numpy's interpolation rounds through `float`, so the source's bounds can differ from the exact ones, and the word-count test at lines 301-303 can then reject a count that the model accepts. From about 2^1024 on, the conversion to `float` raises `OverflowError`, which leaves `_extract_user_preferences` and `get_recommendations`; the model still returns a profile.
- `thumbnail` starts as `[]` (line 1060), and the model writes this initial value as `None`. Both are falsy, and neither is a dictionary that an author, publisher or image entry could equal.
- Every row binds `?p` and `?o`: the query's triple pattern is not optional. Only `?subP` and `?subO` may be unbound.
- `int()` accepts ASCII digits only. Python also accepts other Unicode decimal digits. The digit limit is CPython's default of 4300 (`PyText.MAX_STR_DIGITS`). A program can change that limit with `sys.set_int_max_str_digits`, and older interpreters have no limit.
- The `if "<key>" not in article_data` guards inside the materializer are not modelled: every key is present from the start, so they never fire.
- `populate_audio_data` and `populate_video_data` are modelled (entity kinds `Audio` and `Video`), but the materializer never reaches them, as described above.
- The article dictionary keeps only the keys the code reads or writes. Candidates from the search keep only the keys `_rank_articles` reads (`url`, `headline`, `abstract`, `keywords`, `wordCount`, `author`, `publisher`).
- `sorted` is modelled as an insertion sort, not Timsort. The model proves it is ordered, stable (`Sorting.SortStable`) and a permutation. It does not prove that those properties determine the result uniquely.
- Preferences.KeywordPreference: stated only when every keyword token is free of whitespace. A materialized keyword literal may contain spaces, and then the joined string splits into more words than `most_common(10)` returned.
- Recommender.RecommendationsSpec: states order, history exclusion and length for the whole pipeline. Stability and the best-first cut are stated once, in `Ranking.RankedOrder` and `Ranking.RankedCut`.
