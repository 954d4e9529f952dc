/**
 * `_extract_user_preferences`: one pass over the viewed articles collects
 * their truthy word counts, their keyword tokens and the truthy names of
 * their authors and publishers; the preferences are then the quartiles of
 * the word counts, the ten most common keywords joined by spaces, and the
 * most common author and publisher name.
 */
module Preferences {
  import opened Wrappers
  import opened PyText
  import opened Entities
  import opened Docs
  import opened Counting
  import opened Quantiles

  /**
   * The preferences dictionary, without its two publication-date bounds.
   * `keywords` is `None` while it still holds its initial `[]`.
   */
  datatype Profile = Profile(
    keywords: Option<string>,
    wordcountMin: Option<int>,
    wordcountMax: Option<int>,
    authorName: Option<Value>,
    publisher: Option<Value>)

  /** The preferences before anything is collected. */
  const DEFAULT := Profile(None, None, None, None, None)

  /** `word_counts` after the articles `docs`. */
  function WordCounts(docs: seq<Doc>): seq<int> {
    if docs == [] then []
    else
      var d := docs[|docs| - 1];
      WordCounts(docs[..|docs| - 1]) + (if TruthyInt(d.wordCount) then [d.wordCount.value] else [])
  }

  /** `keywords` after the articles `docs`. */
  function KeywordPool(docs: seq<Doc>): seq<string> {
    if docs == [] then [] else KeywordPool(docs[..|docs| - 1]) + KeywordTokens(docs[|docs| - 1].keywords)
  }

  /** `authors` after the articles `docs`. */
  function AuthorPool(docs: seq<Doc>): seq<Value> {
    if docs == [] then [] else AuthorPool(docs[..|docs| - 1]) + AgentNames(docs[|docs| - 1].author)
  }

  /** `publishers` after the articles `docs`. */
  function PublisherPool(docs: seq<Doc>): seq<Value> {
    if docs == [] then [] else PublisherPool(docs[..|docs| - 1]) + AgentNames(docs[|docs| - 1].publisher)
  }

  /** `Counter(xs).most_common(1)[0][0]`, for a non-empty `xs`. */
  function Top<T(==)>(xs: seq<T>): T
    requires |xs| > 0
  {
    MostFrequent(xs);
    MostCommon(xs, 1)[0]
  }

  /**
   * What `_extract_user_preferences(docs)` returns. The two word-count bounds
   * are set together, and no articles leave every preference unset.
   */
  function Profiled(docs: seq<Doc>): (p: Profile)
    ensures p.wordcountMin.Some? <==> p.wordcountMax.Some?
    ensures docs == [] ==> p == DEFAULT
  {
    var counts, words := WordCounts(docs), KeywordPool(docs);
    var authors, publishers := AuthorPool(docs), PublisherPool(docs);
    Profile(
      if words == [] then None else Some(Join(MostCommon(words, 10))),
      if counts == [] then None else Some(Percentile(counts, 1)),
      if counts == [] then None else Some(Percentile(counts, 3)),
      if authors == [] then None else Some(Top(authors)),
      if publishers == [] then None else Some(Top(publishers)))
  }

  /** `_extract_user_preferences` as the source runs it: collect in one loop, then summarise. */
  method ExtractPreferences(viewed: seq<Doc>) returns (p: Profile)
    ensures p == Profiled(viewed)
  {
    var counts: seq<int> := [];
    var words: seq<string> := [];
    var authors: seq<Value> := [];
    var publishers: seq<Value> := [];
    for i := 0 to |viewed|
      invariant counts == WordCounts(viewed[..i]) && words == KeywordPool(viewed[..i])
      invariant authors == AuthorPool(viewed[..i]) && publishers == PublisherPool(viewed[..i])
    {
      var article := viewed[i];
      PoolsStep(viewed, i);
      if article.wordCount.Some? && article.wordCount.value != 0 {
        counts := counts + [article.wordCount.value];
      }
      match article.keywords {
        case KeywordList(list) => words := words + list;
        case KeywordText(text) => words := words + Split(text);
        case NoKeywords =>
      }
      authors := authors + AgentNames(article.author);
      publishers := publishers + AgentNames(article.publisher);
    }
    assert viewed[..|viewed|] == viewed;
    p := DEFAULT;
    if counts != [] {
      p := p.(wordcountMin := Some(Percentile(counts, 1)), wordcountMax := Some(Percentile(counts, 3)));
    }
    if words != [] {
      p := p.(keywords := Some(Join(MostCommon(words, 10))));
    }
    if authors != [] {
      p := p.(authorName := Some(Top(authors)));
    }
    if publishers != [] {
      p := p.(publisher := Some(Top(publishers)));
    }
  }

  /** What one more article adds to each collected list. */
  lemma {:induction false} PoolsStep(docs: seq<Doc>, i: nat)
    requires i < |docs|
    ensures var d, pre, next := docs[i], docs[..i], docs[..i + 1];
            && WordCounts(next) == WordCounts(pre) + (if TruthyInt(d.wordCount) then [d.wordCount.value] else [])
            && KeywordPool(next) == KeywordPool(pre) + KeywordTokens(d.keywords)
            && AuthorPool(next) == AuthorPool(pre) + AgentNames(d.author)
            && PublisherPool(next) == PublisherPool(pre) + AgentNames(d.publisher)
  {
    assert docs[..i + 1][..i] == docs[..i];
  }

  /* ------------------------------------------------------------ lemmas */

  /** `word_counts` holds exactly the truthy word counts, article by article. */
  lemma {:induction false} WordCountsMembers(docs: seq<Doc>)
    ensures forall n :: n in WordCounts(docs) <==> exists i :: 0 <= i < |docs| && docs[i].wordCount == Some(n) && n != 0
  {
    if docs != [] {
      var init := docs[..|docs| - 1];
      WordCountsMembers(init);
      forall n ensures n in WordCounts(docs) <==> exists i :: 0 <= i < |docs| && docs[i].wordCount == Some(n) && n != 0 {
        if exists i :: 0 <= i < |docs| && docs[i].wordCount == Some(n) && n != 0 {
          var i :| 0 <= i < |docs| && docs[i].wordCount == Some(n) && n != 0;
          if i < |init| {
            assert init[i] == docs[i];
          }
        }
        if n in WordCounts(init) {
          var i :| 0 <= i < |init| && init[i].wordCount == Some(n) && n != 0;
          assert docs[i] == init[i];
        }
      }
    }
  }

  /**
   * The word-count bounds are set exactly when some article has a truthy
   * word count; they are then the lower and upper quartile, so they lie
   * between the smallest and the largest count and the lower one never
   * exceeds the upper one.
   */
  lemma {:induction false} WordCountBounds(docs: seq<Doc>)
    ensures var p := Profiled(docs);
            && p.wordcountMin.Some? == p.wordcountMax.Some?
            && (p.wordcountMin.Some? <==> exists i :: 0 <= i < |docs| && TruthyInt(docs[i].wordCount))
            && (p.wordcountMin.Some? ==>
                  && Min(WordCounts(docs)) <= p.wordcountMin.value <= p.wordcountMax.value <= Max(WordCounts(docs)))
  {
    var counts := WordCounts(docs);
    WordCountsMembers(docs);
    if exists i :: 0 <= i < |docs| && TruthyInt(docs[i].wordCount) {
      var i :| 0 <= i < |docs| && TruthyInt(docs[i].wordCount);
      assert docs[i].wordCount.value in counts;
    }
    if counts != [] {
      assert counts[0] in counts;
      PercentileBounds(counts, 1);
      PercentileBounds(counts, 3);
      PercentileMonotone(counts, 1, 3);
    }
  }

  /**
   * The keyword preference is set exactly when some keyword token was
   * collected. When every token is a single word, splitting it again gives
   * back `most_common(10)`: at most ten distinct tokens in rank order, and
   * every token left out ranks after every token kept.
   */
  lemma {:induction false} KeywordPreference(docs: seq<Doc>)
    requires forall i :: 0 <= i < |KeywordPool(docs)| ==> IsWord(KeywordPool(docs)[i])
    ensures var p, words := Profiled(docs), KeywordPool(docs);
            && (p.keywords.None? <==> words == [])
            && (p.keywords.Some? ==> Split(p.keywords.value) == MostCommon(words, 10))
  {
    var words := KeywordPool(docs);
    var top := MostCommon(words, 10);
    MostCommonSpec(words, 10);
    forall i | 0 <= i < |top| ensures IsWord(top[i]) {
      assert top[i] in top;
      var k :| 0 <= k < |words| && words[k] == top[i];
    }
    SplitJoinWords(top);
  }

  /**
   * `author_name` is set exactly when some author name was collected; it is
   * then a truthy collected name that occurs at least as often as any other
   * and, among the equally frequent, appeared first.
   */
  lemma {:induction false} AuthorPreference(docs: seq<Doc>)
    ensures var p, names := Profiled(docs), AuthorPool(docs);
            && (p.authorName.None? <==> names == [])
            && (p.authorName.Some? ==>
                  var v := p.authorName.value;
                  && v in names && Truthy(v)
                  && forall w :: w in names ==> Count(names, w) < Count(names, v)
                                                || (Count(names, w) == Count(names, v) && FirstIndex(names, v) <= FirstIndex(names, w)))
  {
    var names := AuthorPool(docs);
    AgentPoolTruthy(docs);
    if names != [] {
      MostFrequent(names);
    }
  }

  /** The same for `publisher`. */
  lemma {:induction false} PublisherPreference(docs: seq<Doc>)
    ensures var p, names := Profiled(docs), PublisherPool(docs);
            && (p.publisher.None? <==> names == [])
            && (p.publisher.Some? ==>
                  var v := p.publisher.value;
                  && v in names && Truthy(v)
                  && forall w :: w in names ==> Count(names, w) < Count(names, v)
                                                || (Count(names, w) == Count(names, v) && FirstIndex(names, v) <= FirstIndex(names, w)))
  {
    var names := PublisherPool(docs);
    AgentPoolTruthy(docs);
    if names != [] {
      MostFrequent(names);
    }
  }

  /** Only truthy names are collected. */
  lemma {:induction false} AgentPoolTruthy(docs: seq<Doc>)
    ensures forall v :: v in AuthorPool(docs) ==> Truthy(v)
    ensures forall v :: v in PublisherPool(docs) ==> Truthy(v)
  {
    if docs != [] {
      AgentPoolTruthy(docs[..|docs| - 1]);
    }
  }
}
