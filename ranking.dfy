/**
 * `_rank_articles` and `_calculate_metadata_similarity`. Each article is
 * turned into a text surrogate; the character n-gram TF-IDF similarity of
 * every candidate to the viewed articles is an input here (`Similarity`).
 * Candidates whose URL is in the user's history are dropped, the rest are
 * scored `0.7 * similarity + 0.3 * metadata`, sorted by that score, highest
 * first, with a stable sort, and cut to `max_recommendations`.
 */
module Ranking {
  import opened Wrappers
  import opened PyText
  import opened Seqs
  import opened Entities
  import opened Docs
  import opened Preferences
  import opened Sorting

  /* ---------------------------------------------------- text surrogate */

  /** The strings joined into an article's text: its truthy headline, its truthy abstract, its keyword tokens. */
  function SurrogateParts(d: Doc): seq<string> {
    (if TruthyText(d.headline) then [d.headline.value] else [])
    + (if TruthyText(d.abstractText) then [d.abstractText.value] else [])
    + KeywordTokens(d.keywords)
  }

  /** `' '.join(text)`: the text the TF-IDF vectorizer sees for one article. */
  function Surrogate(d: Doc): string {
    Join(SurrogateParts(d))
  }

  /** The whitespace-separated words of an optional string. */
  function Words(s: Option<string>): seq<string> {
    if s.Some? then Split(s.value) else []
  }

  lemma {:induction false} SplitAllAppend(a: seq<string>, b: seq<string>)
    ensures SplitAll(a + b) == SplitAll(a) + SplitAll(b)
  {
    if a == [] {
      assert a + b == b;
    } else {
      assert (a + b)[0] == a[0] && (a + b)[1..] == a[1..] + b;
      SplitAllAppend(a[1..], b);
    }
  }

  /**
   * No word is lost or invented by the surrogate: its words are those of the
   * headline, then of the abstract, then of every keyword.
   */
  lemma {:induction false} SurrogateWords(d: Doc)
    ensures Split(Surrogate(d)) == Words(d.headline) + Words(d.abstractText) + SplitAll(KeywordTokens(d.keywords))
  {
    var h := if TruthyText(d.headline) then [d.headline.value] else [];
    var a := if TruthyText(d.abstractText) then [d.abstractText.value] else [];
    var k := KeywordTokens(d.keywords);
    SplitJoin(SurrogateParts(d));
    SplitAllAppend(h + a, k);
    SplitAllAppend(h, a);
    assert SplitAll(h) == Words(d.headline) by {
      if h != [] {
        assert SplitAll(h[1..]) == [];
      }
    }
    assert SplitAll(a) == Words(d.abstractText) by {
      if a != [] {
        assert SplitAll(a[1..]) == [];
      }
    }
  }

  /** The surrogates of `docs`, in order. */
  function Surrogates(docs: seq<Doc>): (texts: seq<string>)
    ensures |texts| == |docs|
  {
    if docs == [] then [] else Surrogates(docs[..|docs| - 1]) + [Surrogate(docs[|docs| - 1])]
  }

  lemma {:induction false} SurrogatesAt(docs: seq<Doc>)
    ensures forall i :: 0 <= i < |docs| ==> Surrogates(docs)[i] == Surrogate(docs[i])
  {
    if docs != [] {
      var init := docs[..|docs| - 1];
      SurrogatesAt(init);
      forall i | 0 <= i < |init| ensures Surrogates(docs)[i] == Surrogate(docs[i]) {
        assert docs[i] == init[i];
      }
    }
  }

  /** The loop filling `viewed_texts` (or `candidate_texts`). */
  method SurrogateTexts(docs: seq<Doc>) returns (texts: seq<string>)
    ensures texts == Surrogates(docs)
    ensures forall i :: 0 <= i < |docs| ==> Split(texts[i]) == Words(docs[i].headline) + Words(docs[i].abstractText) + SplitAll(KeywordTokens(docs[i].keywords))
  {
    texts := [];
    for i := 0 to |docs|
      invariant texts == Surrogates(docs[..i])
    {
      assert docs[..i + 1][..i] == docs[..i] && docs[..i + 1][i] == docs[i];
      texts := texts + [Surrogate(docs[i])];
    }
    assert docs[..|docs|] == docs;
    SurrogatesAt(docs);
    forall i | 0 <= i < |docs| ensures Split(texts[i]) == Words(docs[i].headline) + Words(docs[i].abstractText) + SplitAll(KeywordTokens(docs[i].keywords)) {
      SurrogateWords(docs[i]);
    }
  }

  /* -------------------------------------------------- metadata score */

  /** Python truthiness of `article.get('author')`. */
  predicate AgentsTruthy(a: Agents) {
    match a
    case Missing => false
    case AgentList(items) => items != []
    case AgentDict(item) => item != map[]
    case AgentText(text) => text != ""
  }

  /** The author (or publisher) test: some listed name, or the single dictionary's name, equals the preferred one. */
  predicate AgentMatch(a: Agents, pref: Option<Value>) {
    && AgentsTruthy(a) && pref.Some? && Truthy(pref.value)
    && match a
       case AgentList(items) => exists d :: d in items && NameOf(d) == pref.value
       case AgentDict(item) => NameOf(item) == pref.value
       case _ => false
  }

  /** The word-count test: count and both bounds truthy, and the count within the bounds. */
  predicate WordCountMatch(d: Doc, p: Profile) {
    && TruthyInt(d.wordCount) && TruthyInt(p.wordcountMin) && TruthyInt(p.wordcountMax)
    && p.wordcountMin.value <= d.wordCount.value <= p.wordcountMax.value
  }

  /**
   * `_calculate_metadata_similarity(article, preferences)`, in tenths: 3 + 3 + 4.
   * It never exceeds 1.0, and it is 0 exactly when no test passes.
   */
  function MetadataScore(d: Doc, p: Profile): (score: nat)
    ensures score <= 10
    ensures score == 0 <==> !AgentMatch(d.author, p.authorName) && !AgentMatch(d.publisher, p.publisher) && !WordCountMatch(d, p)
  {
    (if AgentMatch(d.author, p.authorName) then 3 else 0)
    + (if AgentMatch(d.publisher, p.publisher) then 3 else 0)
    + (if WordCountMatch(d, p) then 4 else 0)
  }

  /**
   * The score is one of 0, 0.3, 0.4, 0.6, 0.7 and 1.0, and it tells which
   * tests passed: the word-count test exactly when it is 0.4, 0.7 or 1.0,
   * and the number of name tests passed is its remaining tenths over 3.
   */
  lemma {:induction false} MetadataScoreDecodes(d: Doc, p: Profile)
    ensures var s := MetadataScore(d, p);
            && s in {0, 3, 4, 6, 7, 10}
            && (WordCountMatch(d, p) <==> s in {4, 7, 10})
            && (AgentMatch(d.author, p.authorName) && AgentMatch(d.publisher, p.publisher) <==> s in {6, 10})
            && (!AgentMatch(d.author, p.authorName) && !AgentMatch(d.publisher, p.publisher) <==> s in {0, 4})
  {
  }

  /** A profile with nothing collected matches no article. */
  lemma {:induction false} DefaultProfileScoresZero(d: Doc)
    ensures MetadataScore(d, DEFAULT) == 0
  {
  }

  /* ---------------------------------------------------------- ranking */

  /** `article_copy`: the candidate with its similarity score and its final score. */
  datatype Scored = Scored(doc: Doc, similarity: real, final: real)

  /** `0.7 * similarity + 0.3 * metadata`, with the metadata score in tenths. */
  function FinalScore(similarity: real, metadata: nat): real {
    7.0 / 10.0 * similarity + 3.0 / 10.0 * (metadata as real / 10.0)
  }

  /** A cosine similarity in [0, 1] gives a final score in [0, 1]. */
  lemma {:induction false} FinalScoreBounds(similarity: real, d: Doc, p: Profile)
    requires 0.0 <= similarity <= 1.0
    ensures 0.0 <= FinalScore(similarity, MetadataScore(d, p)) <= 1.0
  {
    MetadataScoreDecodes(d, p);
  }

  /** `article.get('url') not in user_history`: a missing URL is never in the history. */
  predicate Kept(d: Doc, history: seq<string>) {
    d.url.None? || d.url.value !in history
  }

  function ScoreOf(d: Doc, similarity: real, p: Profile): Scored {
    Scored(d, similarity, FinalScore(similarity, MetadataScore(d, p)))
  }

  /** `scored_articles` after the candidates `cands`, whose similarities are `sims`. */
  function Scores(cands: seq<Doc>, sims: seq<real>, p: Profile, history: seq<string>): (r: seq<Scored>)
    requires |sims| == |cands|
    ensures |r| <= |cands|
  {
    if cands == [] then []
    else
      var n := |cands| - 1;
      Scores(cands[..n], sims[..n], p, history) + (if Kept(cands[n], history) then [ScoreOf(cands[n], sims[n], p)] else [])
  }

  /** The test of the scoring loop as a predicate on candidates. */
  function KeptIn(history: seq<string>): Doc -> bool {
    d => Kept(d, history)
  }

  /**
   * `scored_articles` is the image of the candidates outside the history, in
   * candidate order: its j-th entry scores the j-th such candidate with that
   * candidate's own similarity.
   */
  lemma {:induction false} ScoresImage(cands: seq<Doc>, sims: seq<real>, p: Profile, history: seq<string>)
    requires |sims| == |cands|
    ensures var ix, r := Hits(cands, KeptIn(history)), Scores(cands, sims, p, history);
            && |r| == |ix|
            && forall j :: 0 <= j < |ix| ==> r[j] == ScoreOf(cands[ix[j]], sims[ix[j]], p)
  {
    if cands != [] {
      var n := |cands| - 1;
      var pre, sPre := cands[..n], sims[..n];
      ScoresImage(pre, sPre, p, history);
      var ixPre := Hits(pre, KeptIn(history));
      assert Hits(cands, KeptIn(history)) == ixPre + (if Kept(cands[n], history) then [n] else []);
      forall j | 0 <= j < |ixPre| ensures cands[ixPre[j]] == pre[ixPre[j]] && sims[ixPre[j]] == sPre[ixPre[j]] {
      }
    }
  }

  /**
   * `scored_articles` holds exactly one entry per candidate outside the
   * history, in candidate order, scored with that candidate's own
   * similarity, and nothing else.
   */
  lemma {:induction false} ScoresMembers(cands: seq<Doc>, sims: seq<real>, p: Profile, history: seq<string>)
    requires |sims| == |cands|
    ensures var ix, r := Hits(cands, KeptIn(history)), Scores(cands, sims, p, history);
            && |r| == |ix|
            && forall j :: 0 <= j < |ix| ==> r[j] == ScoreOf(cands[ix[j]], sims[ix[j]], p)
    ensures forall x :: x in Scores(cands, sims, p, history) ==>
              exists i :: 0 <= i < |cands| && Kept(cands[i], history) && x == ScoreOf(cands[i], sims[i], p)
    ensures forall i :: 0 <= i < |cands| && Kept(cands[i], history) ==> ScoreOf(cands[i], sims[i], p) in Scores(cands, sims, p, history)
  {
    var ix, r := Hits(cands, KeptIn(history)), Scores(cands, sims, p, history);
    ScoresImage(cands, sims, p, history);
    forall x | x in r
      ensures exists i :: 0 <= i < |cands| && Kept(cands[i], history) && x == ScoreOf(cands[i], sims[i], p)
    {
      var j :| 0 <= j < |r| && r[j] == x;
      assert KeptIn(history)(cands[ix[j]]);
    }
    forall i | 0 <= i < |cands| && Kept(cands[i], history) ensures ScoreOf(cands[i], sims[i], p) in r {
      assert KeptIn(history)(cands[i]);
      var j :| 0 <= j < |ix| && ix[j] == i;
      assert r[j] == ScoreOf(cands[i], sims[i], p);
    }
  }

  /** The loop of `_rank_articles` that fills `scored_articles`. */
  method ScoreCandidates(cands: seq<Doc>, sims: seq<real>, p: Profile, history: seq<string>) returns (scored: seq<Scored>)
    requires |sims| == |cands|
    ensures scored == Scores(cands, sims, p, history)
  {
    scored := [];
    for i := 0 to |cands|
      invariant scored == Scores(cands[..i], sims[..i], p, history)
    {
      assert cands[..i + 1][..i] == cands[..i] && sims[..i + 1][..i] == sims[..i];
      var article := cands[i];
      if article.url.None? || article.url.value !in history {
        var metadata := MetadataScore(article, p);
        scored := scored + [Scored(article, sims[i], 7.0 / 10.0 * sims[i] + 3.0 / 10.0 * (metadata as real / 10.0))];
      }
    }
    assert cands[..|cands|] == cands && sims[..|sims|] == sims;
  }

  /** The similarity step: the texts of the viewed articles and of the candidates in, one score per candidate out, or `None` when it raises. */
  type Similarity = (seq<string>, seq<string>) -> Option<seq<real>>

  ghost predicate OneScorePerCandidate(similarity: Similarity) {
    forall viewed, cands :: similarity(viewed, cands).Some? ==> |similarity(viewed, cands).value| == |cands|
  }

  function FinalKey(x: Scored): real {
    x.final
  }

  /** What `_rank_articles` returns. */
  function Ranked(viewed: seq<Doc>, cands: seq<Doc>, p: Profile, history: seq<string>, k: int, similarity: Similarity): seq<Scored>
    requires OneScorePerCandidate(similarity)
  {
    if cands == [] then []
    else
      match similarity(Surrogates(viewed), Surrogates(cands))
      case None => []
      case Some(sims) => SliceTo(SortDesc(Scores(cands, sims, p, history), FinalKey), k)
  }

  /** `_rank_articles` as the source runs it. */
  method RankArticles(viewed: seq<Doc>, cands: seq<Doc>, p: Profile, history: seq<string>, k: int, similarity: Similarity)
    returns (ranked: seq<Scored>)
    requires OneScorePerCandidate(similarity)
    ensures ranked == Ranked(viewed, cands, p, history, k, similarity)
  {
    if cands == [] {
      return [];
    }
    var viewedTexts := SurrogateTexts(viewed);
    var candidateTexts := SurrogateTexts(cands);
    var sims := similarity(viewedTexts, candidateTexts);
    if sims.None? {
      return [];
    }
    var scored := ScoreCandidates(cands, sims.value, p, history);
    ranked := SliceTo(SortDesc(scored, FinalKey), k);
  }

  /* ----------------------------------------------------- rank lemmas */

  /** No recommendation is an article of the history, and each is a scored candidate. */
  lemma {:induction false} RankedFromCandidates(viewed: seq<Doc>, cands: seq<Doc>, p: Profile, history: seq<string>, k: int, similarity: Similarity)
    requires OneScorePerCandidate(similarity)
    ensures forall x :: x in Ranked(viewed, cands, p, history, k, similarity) ==>
              && Kept(x.doc, history) && x.doc in cands
              && x.final == FinalScore(x.similarity, MetadataScore(x.doc, p))
  {
    var out := Ranked(viewed, cands, p, history, k, similarity);
    if cands != [] && similarity(Surrogates(viewed), Surrogates(cands)).Some? {
      var sims := similarity(Surrogates(viewed), Surrogates(cands)).value;
      var scored := Scores(cands, sims, p, history);
      var sorted := SortDesc(scored, FinalKey);
      ScoresMembers(cands, sims, p, history);
      SortPermutes(scored, FinalKey);
      forall x | x in out ensures Kept(x.doc, history) && x.doc in cands && x.final == FinalScore(x.similarity, MetadataScore(x.doc, p)) {
        assert x in sorted;
        assert x in multiset(scored);
        assert x in scored;
        var i :| 0 <= i < |cands| && Kept(cands[i], history) && x == ScoreOf(cands[i], sims[i], p);
      }
    }
  }

  /** Sorting then cutting: the result is ordered and, score by score, a prefix of the input. */
  lemma {:induction false} CutOrder(scored: seq<Scored>, k: int)
    ensures var out := SliceTo(SortDesc(scored, FinalKey), k);
            && Descending(out, FinalKey)
            && forall v :: WithKey(out, FinalKey, v) <= WithKey(scored, FinalKey, v)
  {
    var sorted := SortDesc(scored, FinalKey);
    var out := SliceTo(sorted, k);
    SortDescending(scored, FinalKey);
    forall v ensures WithKey(out, FinalKey, v) <= WithKey(scored, FinalKey, v) {
      SortStable(scored, FinalKey, v);
      assert sorted == out + sorted[|out|..];
      WithKeyAppend(out, sorted[|out|..], FinalKey, v);
    }
  }

  /**
   * `out` is `scored` cut to `k` entries (Python's slice `[:k]`) keeping the
   * best: a sub-bag of `scored` of the slice's length, and every entry of
   * `scored` left out scores no higher than any entry of `out`.
   */
  predicate BestCut(out: seq<Scored>, scored: seq<Scored>, k: int) {
    && multiset(out) <= multiset(scored)
    && (k >= 0 ==> |out| == if k < |scored| then k else |scored|)
    && (k < 0 ==> |out| == if |scored| + k > 0 then |scored| + k else 0)
    && forall x, i :: x in scored && multiset(out)[x] < multiset(scored)[x] && 0 <= i < |out| ==> out[i].final >= x.final
  }

  /** Sorting then cutting keeps the best: whatever is cut off scores no higher than anything kept. */
  lemma {:induction false} CutBest(scored: seq<Scored>, k: int)
    ensures BestCut(SliceTo(SortDesc(scored, FinalKey), k), scored, k)
  {
    var sorted := SortDesc(scored, FinalKey);
    var out := SliceTo(sorted, k);
    SortDescending(scored, FinalKey);
    var rest := sorted[|out|..];
    SortPermutes(scored, FinalKey);
    assert sorted == out + rest;
    assert multiset(sorted) == multiset(out) + multiset(rest);
    forall x, i | multiset(out)[x] < multiset(scored)[x] && 0 <= i < |out| ensures out[i].final >= x.final {
      assert x in multiset(rest);
      var j :| 0 <= j < |rest| && rest[j] == x;
      assert sorted[|out| + j] == x && sorted[i] == out[i];
    }
  }

  /**
   * The recommendations are in non-increasing final score; equal scores keep
   * the candidates' order: for every score, the recommendations with that
   * score are the first ones, in order, among the scored candidates with it.
   */
  lemma {:induction false} RankedOrder(viewed: seq<Doc>, cands: seq<Doc>, p: Profile, history: seq<string>, k: int, similarity: Similarity)
    requires OneScorePerCandidate(similarity)
    requires cands != [] && similarity(Surrogates(viewed), Surrogates(cands)).Some?
    ensures var out := Ranked(viewed, cands, p, history, k, similarity);
            var scored := Scores(cands, similarity(Surrogates(viewed), Surrogates(cands)).value, p, history);
            && Descending(out, FinalKey)
            && forall v :: WithKey(out, FinalKey, v) <= WithKey(scored, FinalKey, v)
  {
    var scored := Scores(cands, similarity(Surrogates(viewed), Surrogates(cands)).value, p, history);
    assert Ranked(viewed, cands, p, history, k, similarity) == SliceTo(SortDesc(scored, FinalKey), k);
    CutOrder(scored, k);
  }

  /**
   * The cut keeps the best: `max_recommendations` entries at most (Python's
   * slice when it is negative), all of them when there are fewer, and every
   * scored candidate cut off scores no higher than any recommendation.
   */
  lemma {:induction false} RankedCut(viewed: seq<Doc>, cands: seq<Doc>, p: Profile, history: seq<string>, k: int, similarity: Similarity)
    requires OneScorePerCandidate(similarity)
    requires cands != [] && similarity(Surrogates(viewed), Surrogates(cands)).Some?
    ensures BestCut(Ranked(viewed, cands, p, history, k, similarity),
                    Scores(cands, similarity(Surrogates(viewed), Surrogates(cands)).value, p, history), k)
  {
    var scored := Scores(cands, similarity(Surrogates(viewed), Surrogates(cands)).value, p, history);
    assert Ranked(viewed, cands, p, history, k, similarity) == SliceTo(SortDesc(scored, FinalKey), k);
    CutBest(scored, k);
  }

  /** Nothing to rank, or a similarity step that raises, gives no recommendations. */
  lemma {:induction false} RankedEmpty(viewed: seq<Doc>, cands: seq<Doc>, p: Profile, history: seq<string>, k: int, similarity: Similarity)
    requires OneScorePerCandidate(similarity)
    requires cands == [] || similarity(Surrogates(viewed), Surrogates(cands)).None? || k == 0
    ensures Ranked(viewed, cands, p, history, k, similarity) == []
  {
  }
}
