/**
 * The article dictionaries the recommender reads. A viewed article is a
 * dictionary built by the materializer; a candidate is a search result,
 * whose `author` is a plain string and whose `keywords` are the search
 * words. The recommender only asks for a handful of keys and branches on the
 * type of what it finds, so a `Doc` keeps exactly those keys, each with the
 * shapes it can have.
 */
module Docs {
  import opened Wrappers
  import opened PyText
  import opened Entities
  import opened Materializer

  /** `article.get('author')` or `article.get('publisher')`. */
  datatype Agents =
    | Missing                      // key absent or None
    | AgentList(items: seq<Entity>)
    | AgentDict(item: Entity)
    | AgentText(text: string)      // a search result's name string

  /** `article.get('keywords')`. */
  datatype Keywords =
    | NoKeywords
    | KeywordList(list: seq<string>)
    | KeywordText(text: string)

  datatype Doc = Doc(
    url: Option<string>,
    headline: Option<string>,
    abstractText: Option<string>,  // the `abstract` key
    keywords: Keywords,
    wordCount: Option<int>,
    author: Agents,
    publisher: Agents)

  /** Python truthiness of a stored value: `None`, `''` and `0` are false. */
  predicate Truthy(v: Value) {
    match v
    case Null => false
    case Text(s) => s != ""
    case Number(n) => n != 0
  }

  predicate TruthyText(s: Option<string>) {
    s.Some? && s.value != ""
  }

  predicate TruthyInt(n: Option<int>) {
    n.Some? && n.value != 0
  }

  /** `d.get('name')`. */
  function NameOf(d: Entity): Value {
    if "name" in d then d["name"] else Null
  }

  /** A materialized article as the recommender sees it. */
  function FromArticle(a: Article): Doc {
    Doc(Some(a.url), Get(a.fields, "headline"), Get(a.fields, "abstract"),
        KeywordList(a.keywords), a.wordCount, AgentList(a.author), AgentList(a.publisher))
  }

  /**
   * The names one article contributes to the author (or publisher) tally:
   * every truthy `name` of a list of dictionaries, or the truthy `name` of
   * a single dictionary; anything else contributes nothing.
   */
  function AgentNames(a: Agents): (names: seq<Value>)
    ensures forall i :: 0 <= i < |names| ==> Truthy(names[i])
  {
    match a
    case AgentList(items) => NamesOf(items)
    case AgentDict(item) => if Truthy(NameOf(item)) then [NameOf(item)] else []
    case _ => []
  }

  /** `[d['name'] for d in items if d.get('name')]`. */
  function NamesOf(items: seq<Entity>): (names: seq<Value>)
    ensures forall i :: 0 <= i < |names| ==> Truthy(names[i])
    ensures forall v :: v in names <==> exists d :: d in items && Truthy(NameOf(d)) && NameOf(d) == v
  {
    if items == [] then []
    else
      var last := items[|items| - 1];
      assert forall d :: d in items <==> d in items[..|items| - 1] || d == last;
      NamesOf(items[..|items| - 1]) + (if Truthy(NameOf(last)) then [NameOf(last)] else [])
  }

  /** The keyword tokens one article contributes: a list as it is, a string split on whitespace. */
  function KeywordTokens(k: Keywords): seq<string> {
    match k
    case KeywordList(list) => list
    case KeywordText(text) => Split(text)
    case NoKeywords => []
  }
}
