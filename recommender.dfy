/**
 * `get_recommendations` and `_get_candidate_articles`: fetch and
 * materialize every article of the user's history, stop with `[]` when
 * `get_article_by_url` gave `None` for all of them, extract the preferences,
 * search for candidates (strict first, then without the author and publisher
 * constraints), and rank them.
 * The SPARQL store is reached only through the `Fetch` and `Search` inputs.
 */
module Recommender {
  import opened Wrappers
  import opened Seqs
  import opened Entities
  import opened Materializer
  import opened Docs
  import opened Preferences
  import opened Ranking

  /**
   * The rows `get_article_by_url` materializes for a URL. A failed request is
   * `Some([])`, since `execute_sparql_query` returns `[]` then; `None` is
   * `get_article_by_url`'s outer `except`, the only way it returns `None`.
   */
  type Fetch = string -> Option<seq<Row>>

  /** `advanced_search` run with the given preferences as its criteria. */
  type Search = Profile -> seq<Doc>

  /** The preferences with the author and publisher constraints removed. */
  function Relaxed(p: Profile): Profile {
    p.(authorName := None, publisher := None)
  }

  /**
   * `_get_candidate_articles`: the strict search's results, or those of the
   * relaxed search when the strict one finds nothing.
   */
  function Candidates(p: Profile, search: Search): (found: seq<Doc>)
    ensures found == [] <==> search(p) == [] && search(Relaxed(p)) == []
    ensures search(p) != [] ==> found == search(p)
    ensures p.authorName.None? && p.publisher.None? ==> found == search(p)
  {
    var strict := search(p);
    if strict == [] then search(Relaxed(p)) else strict
  }

  /**
   * `viewed_articles` after the URLs `urls`: the materialized article of every
   * URL for which `get_article_by_url` did not return `None`, in history order.
   * A materialized article is never `{}`, so it always passes `if results`.
   */
  function Viewed(urls: seq<string>, fetch: Fetch): (docs: seq<Doc>)
    ensures |docs| <= |urls|
  {
    if urls == [] then []
    else
      var n := |urls| - 1;
      Viewed(urls[..n], fetch)
      + match fetch(urls[n]) case Some(rows) => [FromArticle(Materialized(rows, urls[n]))] case None => []
  }

  /** What `get_recommendations(user_history, max_recommendations)` returns. */
  function Recommendations(history: seq<string>, k: int, fetch: Fetch, search: Search, similarity: Similarity): seq<Scored>
    requires OneScorePerCandidate(similarity)
  {
    var viewed := Viewed(history, fetch);
    if viewed == [] then []
    else
      var p := Profiled(viewed);
      Ranked(viewed, Candidates(p, search), p, history, k, similarity)
  }

  /** The test `if results` of the history loop, as a predicate on URLs. */
  function FetchedBy(fetch: Fetch): string -> bool {
    u => fetch(u).Some?
  }

  /** The article `get_article_by_url(u)` contributes, when it does not return `None`. */
  function Visited(u: string, fetch: Fetch): Doc
    requires fetch(u).Some?
  {
    FromArticle(Materialized(fetch(u).value, u))
  }

  lemma {:induction false} ViewedSnoc(urls: seq<string>, fetch: Fetch)
    requires urls != []
    ensures var n := |urls| - 1;
            Viewed(urls, fetch) == Viewed(urls[..n], fetch) + (if fetch(urls[n]).Some? then [Visited(urls[n], fetch)] else [])
  {
  }

  /**
   * `viewed_articles` is the image of the history in order: its j-th article
   * is materialized from the j-th URL for which `get_article_by_url` did not
   * return `None`, so each such URL gives exactly one article.
   */
  lemma {:induction false} ViewedImage(urls: seq<string>, fetch: Fetch)
    ensures var ix, docs := Hits(urls, FetchedBy(fetch)), Viewed(urls, fetch);
            && |docs| == |ix|
            && forall j :: 0 <= j < |ix| ==> fetch(urls[ix[j]]).Some? && docs[j] == Visited(urls[ix[j]], fetch)
  {
    if urls != [] {
      var n := |urls| - 1;
      var pre := urls[..n];
      ViewedImage(pre, fetch);
      ViewedSnoc(urls, fetch);
      var ixPre := Hits(pre, FetchedBy(fetch));
      assert Hits(urls, FetchedBy(fetch)) == ixPre + (if fetch(urls[n]).Some? then [n] else []);
      forall j | 0 <= j < |ixPre| ensures urls[ixPre[j]] == pre[ixPre[j]] {
      }
    }
  }

  /** `get_recommendations` as the source runs it. */
  method GetRecommendations(history: seq<string>, k: int, fetch: Fetch, search: Search, similarity: Similarity)
    returns (recommended: seq<Scored>)
    requires OneScorePerCandidate(similarity)
    ensures recommended == Recommendations(history, k, fetch, search, similarity)
  {
    var viewed: seq<Doc> := [];
    for i := 0 to |history|
      invariant viewed == Viewed(history[..i], fetch)
    {
      assert history[..i + 1][..i] == history[..i];
      var url := history[i];
      var rows := fetch(url);
      if rows.Some? {
        var article := Materialize(rows.value, url);
        viewed := viewed + [FromArticle(article)];
      }
    }
    assert history[..|history|] == history;
    if viewed == [] {
      return [];
    }
    var preferences := ExtractPreferences(viewed);
    var candidates := Candidates(preferences, search);
    recommended := RankArticles(viewed, candidates, preferences, history, k, similarity);
  }

  /**
   * Every URL for which `get_article_by_url` does not return `None` gives a
   * viewed article, even one whose request failed: there are none exactly
   * when it returned `None` for every URL.
   */
  lemma {:induction false} ViewedEmpty(urls: seq<string>, fetch: Fetch)
    ensures Viewed(urls, fetch) == [] <==> forall i :: 0 <= i < |urls| ==> fetch(urls[i]).None?
  {
    if urls != [] {
      var n := |urls| - 1;
      ViewedEmpty(urls[..n], fetch);
      assert forall i :: 0 <= i < n ==> urls[..n][i] == urls[i];
    }
  }

  /**
   * An empty history, or one for each of whose URLs `get_article_by_url`
   * returned `None`, gets no recommendations; otherwise every recommendation lies outside the
   * history, the list is in non-increasing final score and it is no longer
   * than `max_recommendations`.
   */
  lemma {:induction false} RecommendationsSpec(history: seq<string>, k: int, fetch: Fetch, search: Search, similarity: Similarity)
    requires OneScorePerCandidate(similarity)
    ensures var out := Recommendations(history, k, fetch, search, similarity);
            && ((forall i :: 0 <= i < |history| ==> fetch(history[i]).None?) ==> out == [])
            && (forall x :: x in out ==> x.doc.url.None? || x.doc.url.value !in history)
            && (forall i, j :: 0 <= i < j < |out| ==> out[i].final >= out[j].final)
            && (k >= 0 ==> |out| <= k)
  {
    ViewedEmpty(history, fetch);
    var viewed := Viewed(history, fetch);
    if viewed != [] {
      var p := Profiled(viewed);
      var cands := Candidates(p, search);
      RankedFromCandidates(viewed, cands, p, history, k, similarity);
      if cands != [] && similarity(Surrogates(viewed), Surrogates(cands)).Some? {
        RankedOrder(viewed, cands, p, history, k, similarity);
        RankedCut(viewed, cands, p, history, k, similarity);
      }
    }
  }
}
