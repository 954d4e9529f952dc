/**
 * `populate_article_data`: folds the rows of the two-hop query for one
 * article URL, one at a time, into the nested article dictionary. Each row is
 * processed inside `try`/`except`, so a row that raises contributes nothing
 * and the loop goes on with the next one.
 */
module Materializer {
  import opened Wrappers
  import opened PyText
  import opened Seqs
  import opened Entities

  /** The article keys that take a row's object as a plain string, last write wins. */
  const SCALARS: set<string> :=
    {"@type", "headline", "datePublished", "dateModified", "articleBody",
     "inLanguage", "thumbnailUrl", "articleSection", "abstract", "dateCreated"}

  /**
   * The article dictionary. `fields` holds the keys of `SCALARS` that have
   * been set (a key absent from it is `None`); `thumbnail` is `None` while it
   * still holds its initial `[]`; `editor` is the dictionary `{}` it starts as.
   */
  datatype Article = Article(
    context: string,
    url: string,
    fields: map<string, string>,
    wordCount: Option<int>,
    keywords: seq<string>,
    author: seq<Entity>,
    publisher: seq<Entity>,
    image: seq<Entity>,
    thumbnail: Option<Entity>,
    audio: seq<Entity>,
    video: seq<Entity>,
    editor: map<string, Value>)

  /** The dictionary before the first row: the requested URL, every scalar `None`, every list empty. */
  function Initial(url: string): Article {
    Article("http://schema.org", url, map[], None, [], [], [], [], None, [], [], map[])
  }

  function Get(m: map<string, string>, k: string): Option<string> {
    if k in m then Some(m[k]) else None
  }

  /** Row `r`'s predicate is `http://schema.org/<name>`. */
  predicate Writes(r: Row, name: string) {
    KeyOf(Some(r.p)) == Some(name)
  }

  /** Row `r`'s second hop is `@type`: only such author and publisher rows add an entry. */
  predicate Typed(r: Row) {
    r.subP == Some(SCHEMA + "@type")
  }

  /**
   * The author or publisher dictionary built for a `Typed` row `r`: a person
   * or an organization when the type is one of those, and `{}` otherwise.
   */
  function AgentOf(r: Row, all: seq<Row>): (d: Entity)
    ensures d != map[] ==> || (r.subO == Some("Person") && d.Keys == Keys(Person))
                           || (r.subO == Some("Organization") && d.Keys == Keys(Organization))
  {
    if r.subO == Some("Person") then
      BuildKeys(Person, r.o, all);
      Populate(Person, r, all).value
    else if r.subO == Some("Organization") then
      BuildKeys(Organization, r.o, all);
      Populate(Organization, r, all).value
    else map[]
  }

  /**
   * The body of the `try` block for one row: the updated dictionary, or the
   * exception it raises. A row only ever appends to the list-valued keys, and
   * never changes `audio`, `video`, `editor` or `@context`.
   */
  function Step(a: Article, r: Row, all: seq<Row>): (res: Result<Article, Raised>)
    ensures res.Ok? ==> && a.keywords <= res.value.keywords && a.author <= res.value.author
                        && a.publisher <= res.value.publisher && a.image <= res.value.image
    ensures res.Ok? ==> && res.value.audio == a.audio && res.value.video == a.video
                        && res.value.editor == a.editor && res.value.context == a.context
  {
    match KeyOf(Some(r.p))
    case None => Ok(a)
    case Some(name) =>
      if name in SCALARS then Ok(a.(fields := a.fields[name := r.o]))
      else if name == "wordCount" then
        match ParseInt(r.o)
        case Some(n) => Ok(a.(wordCount := Some(n)))
        case None => Fail(ValueError)
      else if name == "keywords" then Ok(a.(keywords := a.keywords + [r.o]))
      else if name == "url" then Ok(a.(url := r.o))
      else if name == "author" then
        var d := AgentOf(r, all);
        Ok(if !Typed(r) || d in a.author then a else a.(author := a.author + [d]))
      else if name == "publisher" then
        var d := AgentOf(r, all);
        Ok(if !Typed(r) || d in a.publisher || d == map[] then a else a.(publisher := a.publisher + [d]))
      else if name == "image" then
        match Populate(Image, r, all)
        case Fail(e) => Fail(e)
        case Ok(d) => Ok(if d in a.image then a else a.(image := a.image + [d]))
      else if name == "thumbnail" then
        match Populate(Image, r, all)
        case Fail(e) => Fail(e)
        case Ok(d) => Ok(if d != map[] then a.(thumbnail := Some(d)) else a)
      // The audio and video builders are called as populate_*_data(results, result):
      // their first parameter is then the row list, and `list.get` does not exist.
      else if name == "audio" || name == "video" then Fail(AttributeError)
      // `editor_data not in article_data["editor"]` looks a dictionary up among the
      // keys of the dictionary `{}`, and a dictionary cannot be hashed.
      else if name == "editor" then Fail(TypeError)
      else Ok(a)
  }

  /** The rows whose processing raises, whatever was materialized before them. */
  predicate Raises(r: Row, all: seq<Row>) {
    || (Writes(r, "wordCount") && ParseInt(r.o).None?)
    || ((Writes(r, "image") || Writes(r, "thumbnail")) && Populate(Image, r, all).Fail?)
    || Writes(r, "audio") || Writes(r, "video") || Writes(r, "editor")
  }

  /** The dictionary after row `r`: the `except` branch keeps the dictionary as it was. */
  function Next(a: Article, r: Row, all: seq<Row>): Article {
    match Step(a, r, all)
    case Ok(b) => b
    case Fail(_) => a
  }

  /** The dictionary after the rows `rs` were processed in order; builders rescan all rows `all`. */
  function Fold(a: Article, rs: seq<Row>, all: seq<Row>): Article {
    if rs == [] then a else Next(Fold(a, rs[..|rs| - 1], all), rs[|rs| - 1], all)
  }

  /** `populate_article_data(results, url)`. */
  function Materialized(rows: seq<Row>, url: string): Article {
    Fold(Initial(url), rows, rows)
  }

  /** The objects of the `keywords` rows, in row order, repeats kept. */
  function KeywordObjects(rs: seq<Row>): (ks: seq<string>)
    ensures |ks| <= |rs|
  {
    if rs == [] then []
    else KeywordObjects(rs[..|rs| - 1]) + (if Writes(rs[|rs| - 1], "keywords") then [rs[|rs| - 1].o] else [])
  }

  /* ------------------------------------------------------- fold lemmas */

  /** Whether a row raises depends on the row and the rows it rescans, never on the dictionary built so far. */
  lemma {:induction false} StepRaises(a: Article, r: Row, all: seq<Row>)
    ensures Step(a, r, all).Fail? <==> Raises(r, all)
  {
    var key := KeyOf(Some(r.p));
    if key.Some? {
      var name := key.value;
      assert Writes(r, name);
      if name in SCALARS || name in {"keywords", "url", "author", "publisher"} {
        assert Step(a, r, all).Ok?;
        assert !Writes(r, "wordCount") && !Writes(r, "image") && !Writes(r, "thumbnail");
        assert !Writes(r, "audio") && !Writes(r, "video") && !Writes(r, "editor");
      }
    }
  }

  /** One row's effect on `wordCount`. */
  lemma {:induction false} NextWordCount(b: Article, r: Row, all: seq<Row>)
    ensures Next(b, r, all).wordCount ==
            if Writes(r, "wordCount") && ParseInt(r.o).Some? then ParseInt(r.o) else b.wordCount
  {
    if Writes(r, "wordCount") {
      assert "wordCount" !in SCALARS;
    }
  }

  /** One row's effect on `url`. */
  lemma {:induction false} NextUrl(b: Article, r: Row, all: seq<Row>)
    ensures Next(b, r, all).url == if Writes(r, "url") then r.o else b.url
  {
    if Writes(r, "url") {
      assert "url" !in SCALARS;
    }
  }

  /** One row's effect on `keywords`. */
  lemma {:induction false} NextKeywords(b: Article, r: Row, all: seq<Row>)
    ensures Next(b, r, all).keywords == b.keywords + if Writes(r, "keywords") then [r.o] else []
  {
    if Writes(r, "keywords") {
      assert "keywords" !in SCALARS;
    }
  }

  /** One row's effect on the scalar keys. */
  lemma {:induction false} NextScalar(b: Article, r: Row, all: seq<Row>, name: string)
    ensures Get(Next(b, r, all).fields, name) ==
            if name in SCALARS && Writes(r, name) then Some(r.o) else Get(b.fields, name)
  {
  }

  /** One row's effect on `author`. */
  lemma {:induction false} NextAuthor(b: Article, r: Row, all: seq<Row>)
    ensures Next(b, r, all).author ==
            if Writes(r, "author") && Typed(r) && AgentOf(r, all) !in b.author then b.author + [AgentOf(r, all)] else b.author
  {
    if Writes(r, "author") {
      assert "author" !in SCALARS;
    }
  }

  /** One row's effect on `publisher`. */
  lemma {:induction false} NextPublisher(b: Article, r: Row, all: seq<Row>)
    ensures Next(b, r, all).publisher ==
            var d := AgentOf(r, all);
            if Writes(r, "publisher") && Typed(r) && d !in b.publisher && d != map[] then b.publisher + [d] else b.publisher
  {
    if Writes(r, "publisher") {
      assert "publisher" !in SCALARS;
    }
  }

  /** One row's effect on `image`. */
  lemma {:induction false} NextImage(b: Article, r: Row, all: seq<Row>)
    ensures Next(b, r, all).image ==
            var d := Populate(Image, r, all);
            if Writes(r, "image") && d.Ok? && d.value !in b.image then b.image + [d.value] else b.image
  {
    if Writes(r, "image") {
      assert "image" !in SCALARS;
    }
  }

  /** One row's effect on `thumbnail`: a non-empty image dictionary replaces it. */
  lemma {:induction false} NextThumbnail(b: Article, r: Row, all: seq<Row>)
    ensures Next(b, r, all).thumbnail ==
            var d := Populate(Image, r, all);
            if Writes(r, "thumbnail") && d.Ok? && d.value != map[] then Some(d.value) else b.thumbnail
  {
    if Writes(r, "thumbnail") {
      assert "thumbnail" !in SCALARS;
    }
  }

  /** Processing `xs` and then `ys` is processing `xs + ys`. */
  lemma {:induction false} FoldAppend(a: Article, xs: seq<Row>, ys: seq<Row>, all: seq<Row>)
    ensures Fold(a, xs + ys, all) == Fold(Fold(a, xs, all), ys, all)
    decreases |ys|
  {
    if ys == [] {
      assert xs + ys == xs;
    } else {
      assert (xs + ys)[..|xs + ys| - 1] == xs + ys[..|ys| - 1];
      FoldAppend(a, xs, ys[..|ys| - 1], all);
    }
  }

  /**
   * A row that raises is skipped without aborting: the result is the one
   * obtained from the other rows alone (the rescans still see every row).
   */
  lemma {:induction false} SkipIsRemoval(a: Article, rs: seq<Row>, all: seq<Row>, i: nat)
    requires i < |rs| && Raises(rs[i], all)
    ensures Fold(a, rs, all) == Fold(a, rs[..i] + rs[i + 1..], all)
  {
    assert rs == rs[..i] + [rs[i]] + rs[i + 1..];
    FoldAppend(a, rs[..i] + [rs[i]], rs[i + 1..], all);
    FoldAppend(a, rs[..i], [rs[i]], all);
    assert Fold(Fold(a, rs[..i], all), [rs[i]], all) == Fold(a, rs[..i], all) by {
      StepRaises(Fold(a, rs[..i], all), rs[i], all);
    }
    FoldAppend(a, rs[..i], rs[i + 1..], all);
  }

  /** `keywords` gains the object of every `keywords` row, in row order, and nothing else. */
  lemma {:induction false} FoldKeywords(a: Article, rs: seq<Row>, all: seq<Row>)
    ensures Fold(a, rs, all).keywords == a.keywords + KeywordObjects(rs)
  {
    if rs != [] {
      FoldKeywords(a, rs[..|rs| - 1], all);
      NextKeywords(Fold(a, rs[..|rs| - 1], all), rs[|rs| - 1], all);
    }
  }

  /** Each scalar key holds the object of the last row naming it; other keys are never set. */
  lemma {:induction false} FoldScalar(a: Article, rs: seq<Row>, all: seq<Row>, name: string)
    ensures Get(Fold(a, rs, all).fields, name) ==
            var i := LastHit(rs, r => Writes(r, name));
            if name in SCALARS && i >= 0 then Some(rs[i].o) else Get(a.fields, name)
  {
    if rs != [] {
      FoldScalar(a, rs[..|rs| - 1], all, name);
      NextScalar(Fold(a, rs[..|rs| - 1], all), rs[|rs| - 1], all, name);
    }
  }

  /**
   * The result depends on the order of the rows: of two `headline` rows the
   * later one wins, so swapping them changes the headline.
   */
  lemma {:induction false} RowOrderMatters(url: string)
    ensures var r1, r2 := Row(SCHEMA + "headline", "A", None, None), Row(SCHEMA + "headline", "B", None, None);
            && Get(Materialized([r1, r2], url).fields, "headline") == Some("B")
            && Get(Materialized([r2, r1], url).fields, "headline") == Some("A")
  {
    var r1, r2 := Row(SCHEMA + "headline", "A", None, None), Row(SCHEMA + "headline", "B", None, None);
    KeyOfSchema("headline");
    assert Writes(r1, "headline") && Writes(r2, "headline");
    FoldScalar(Initial(url), [r1, r2], [r1, r2], "headline");
    FoldScalar(Initial(url), [r2, r1], [r2, r1], "headline");
    assert LastHit([r1, r2], r => Writes(r, "headline")) == 1;
    assert LastHit([r2, r1], r => Writes(r, "headline")) == 1;
  }

  /** `url` is the object of the last `url` row, or the requested URL when there is none. */
  lemma {:induction false} FoldUrl(a: Article, rs: seq<Row>, all: seq<Row>)
    ensures Fold(a, rs, all).url ==
            var i := LastHit(rs, r => Writes(r, "url"));
            if i >= 0 then rs[i].o else a.url
  {
    if rs != [] {
      FoldUrl(a, rs[..|rs| - 1], all);
      NextUrl(Fold(a, rs[..|rs| - 1], all), rs[|rs| - 1], all);
    }
  }

  /** `wordCount` is `int()` of the last `wordCount` row whose literal parses; rows that do not parse are skipped. */
  lemma {:induction false} FoldWordCount(a: Article, rs: seq<Row>, all: seq<Row>)
    ensures Fold(a, rs, all).wordCount ==
            var i := LastHit(rs, r => Writes(r, "wordCount") && ParseInt(r.o).Some?);
            if i >= 0 then ParseInt(rs[i].o) else a.wordCount
  {
    if rs != [] {
      FoldWordCount(a, rs[..|rs| - 1], all);
      NextWordCount(Fold(a, rs[..|rs| - 1], all), rs[|rs| - 1], all);
    }
  }

  /** `thumbnail` is the image dictionary built for the last `thumbnail` row whose build does not raise. */
  lemma {:induction false} FoldThumbnail(a: Article, rs: seq<Row>, all: seq<Row>)
    ensures Fold(a, rs, all).thumbnail ==
            var i := LastHit(rs, r => Writes(r, "thumbnail") && Populate(Image, r, all).Ok?);
            if i >= 0 then Some(Populate(Image, rs[i], all).value) else a.thumbnail
  {
    if rs != [] {
      FoldThumbnail(a, rs[..|rs| - 1], all);
      var r := rs[|rs| - 1];
      NextThumbnail(Fold(a, rs[..|rs| - 1], all), r, all);
      if Writes(r, "thumbnail") && Populate(Image, r, all).Ok? {
        BuildKeys(Image, r.o, all);
        assert "height" in Populate(Image, r, all).value;
      }
    }
  }

  /** No row touches `audio`, `video`, `editor` or `@context`. */
  lemma {:induction false} FoldUntouched(a: Article, rs: seq<Row>, all: seq<Row>)
    ensures var b := Fold(a, rs, all);
            b.audio == a.audio && b.video == a.video && b.editor == a.editor && b.context == a.context
  {
    if rs != [] {
      FoldUntouched(a, rs[..|rs| - 1], all);
    }
  }

  /** Some row of `rs` with predicate `name` builds the agent dictionary `x`. */
  predicate AgentFrom(rs: seq<Row>, all: seq<Row>, name: string, x: Entity) {
    exists i :: 0 <= i < |rs| && Writes(rs[i], name) && Typed(rs[i]) && AgentOf(rs[i], all) == x
  }

  /** Some `image` row of `rs` builds the image dictionary `x` without raising. */
  predicate ImageFrom(rs: seq<Row>, all: seq<Row>, x: Entity) {
    exists i :: 0 <= i < |rs| && Writes(rs[i], "image") && Populate(Image, rs[i], all) == Ok(x)
  }

  lemma {:induction false} AgentFromSnoc(rs: seq<Row>, all: seq<Row>, name: string, x: Entity)
    requires rs != []
    ensures AgentFrom(rs, all, name, x) <==>
            AgentFrom(rs[..|rs| - 1], all, name, x) || (Writes(rs[|rs| - 1], name) && Typed(rs[|rs| - 1]) && AgentOf(rs[|rs| - 1], all) == x)
  {
    var init := rs[..|rs| - 1];
    if AgentFrom(init, all, name, x) {
      var i :| 0 <= i < |init| && Writes(init[i], name) && Typed(init[i]) && AgentOf(init[i], all) == x;
      assert rs[i] == init[i];
    }
    if AgentFrom(rs, all, name, x) {
      var i :| 0 <= i < |rs| && Writes(rs[i], name) && Typed(rs[i]) && AgentOf(rs[i], all) == x;
      if i < |init| {
        assert init[i] == rs[i];
      }
    }
  }

  lemma {:induction false} ImageFromSnoc(rs: seq<Row>, all: seq<Row>, x: Entity)
    requires rs != []
    ensures ImageFrom(rs, all, x) <==>
            ImageFrom(rs[..|rs| - 1], all, x) || (Writes(rs[|rs| - 1], "image") && Populate(Image, rs[|rs| - 1], all) == Ok(x))
  {
    var init := rs[..|rs| - 1];
    if ImageFrom(init, all, x) {
      var i :| 0 <= i < |init| && Writes(init[i], "image") && Populate(Image, init[i], all) == Ok(x);
      assert rs[i] == init[i];
    }
    if ImageFrom(rs, all, x) {
      var i :| 0 <= i < |rs| && Writes(rs[i], "image") && Populate(Image, rs[i], all) == Ok(x);
      if i < |init| {
        assert init[i] == rs[i];
      }
    }
  }

  /** `author` gains the dictionary of each `author` row unless an equal one is already there. */
  lemma {:induction false} FoldAuthor(a: Article, rs: seq<Row>, all: seq<Row>)
    requires NoDup(a.author)
    ensures NoDup(Fold(a, rs, all).author)
    ensures forall x :: x in Fold(a, rs, all).author <==> x in a.author || AgentFrom(rs, all, "author", x)
  {
    if rs != [] {
      var init := rs[..|rs| - 1];
      FoldAuthor(a, init, all);
      NextAuthor(Fold(a, init, all), rs[|rs| - 1], all);
      forall x ensures x in Fold(a, rs, all).author <==> x in a.author || AgentFrom(rs, all, "author", x) {
        AgentFromSnoc(rs, all, "author", x);
      }
    }
  }

  /** `publisher` gains the dictionary of each `publisher` row unless it is `{}` or an equal one is already there. */
  lemma {:induction false} FoldPublisher(a: Article, rs: seq<Row>, all: seq<Row>)
    requires NoDup(a.publisher) && map[] !in a.publisher
    ensures NoDup(Fold(a, rs, all).publisher) && map[] !in Fold(a, rs, all).publisher
    ensures forall x :: x in Fold(a, rs, all).publisher <==>
              x in a.publisher || (x != map[] && AgentFrom(rs, all, "publisher", x))
  {
    if rs != [] {
      var init := rs[..|rs| - 1];
      FoldPublisher(a, init, all);
      NextPublisher(Fold(a, init, all), rs[|rs| - 1], all);
      forall x ensures x in Fold(a, rs, all).publisher <==>
                 x in a.publisher || (x != map[] && AgentFrom(rs, all, "publisher", x))
      {
        AgentFromSnoc(rs, all, "publisher", x);
      }
    }
  }

  /** `image` gains the dictionary of each `image` row whose build does not raise, unless an equal one is already there. */
  lemma {:induction false} FoldImage(a: Article, rs: seq<Row>, all: seq<Row>)
    requires NoDup(a.image)
    ensures NoDup(Fold(a, rs, all).image)
    ensures forall x :: x in Fold(a, rs, all).image <==> x in a.image || ImageFrom(rs, all, x)
  {
    if rs != [] {
      var init := rs[..|rs| - 1];
      FoldImage(a, init, all);
      NextImage(Fold(a, init, all), rs[|rs| - 1], all);
      forall x ensures x in Fold(a, rs, all).image <==> x in a.image || ImageFrom(rs, all, x) {
        ImageFromSnoc(rs, all, x);
      }
    }
  }

  /* ------------------------------------------- the materialized article */

  /**
   * The list-valued keys of `populate_article_data(rows, url)`: `keywords` is
   * the `keywords` objects in row order; `author`, `publisher` and `image`
   * hold exactly the dictionaries their rows build, each once (`publisher`
   * never `{}`); `audio`, `video` and `editor` stay empty.
   */
  lemma {:induction false} MaterializedCollections(rows: seq<Row>, url: string)
    ensures var m := Materialized(rows, url);
            && m.keywords == KeywordObjects(rows)
            && NoDup(m.author) && NoDup(m.publisher) && NoDup(m.image) && map[] !in m.publisher
            && (forall x :: x in m.author <==> AgentFrom(rows, rows, "author", x))
            && (forall x :: x in m.publisher <==> x != map[] && AgentFrom(rows, rows, "publisher", x))
            && (forall x :: x in m.image <==> ImageFrom(rows, rows, x))
            && m.audio == [] && m.video == [] && m.editor == map[]
  {
    var a := Initial(url);
    FoldKeywords(a, rows, rows);
    FoldAuthor(a, rows, rows);
    FoldPublisher(a, rows, rows);
    FoldImage(a, rows, rows);
    FoldUntouched(a, rows, rows);
  }

  /**
   * The single-valued keys of `populate_article_data(rows, url)`: each is set
   * by the last row that sets it without raising, and keeps its initial value
   * (`None`, `[]` for `thumbnail`, the requested URL for `url`) when no row does.
   */
  lemma {:induction false} MaterializedScalars(rows: seq<Row>, url: string)
    ensures var m := Materialized(rows, url);
            && (forall name :: Get(m.fields, name) ==
                  var i := LastHit(rows, r => Writes(r, name));
                  if name in SCALARS && i >= 0 then Some(rows[i].o) else None)
            && m.url == (var i := LastHit(rows, r => Writes(r, "url")); if i >= 0 then rows[i].o else url)
            && m.wordCount == (var i := LastHit(rows, r => Writes(r, "wordCount") && ParseInt(r.o).Some?);
                               if i >= 0 then ParseInt(rows[i].o) else None)
            && m.thumbnail == (var i := LastHit(rows, r => Writes(r, "thumbnail") && Populate(Image, r, rows).Ok?);
                               if i >= 0 then Some(Populate(Image, rows[i], rows).value) else None)
  {
    var a := Initial(url);
    forall name ensures Get(Materialized(rows, url).fields, name) ==
                  var i := LastHit(rows, r => Writes(r, name));
                  if name in SCALARS && i >= 0 then Some(rows[i].o) else None
    {
      FoldScalar(a, rows, rows, name);
    }
    FoldUrl(a, rows, rows);
    FoldWordCount(a, rows, rows);
    FoldThumbnail(a, rows, rows);
  }

  /**
   * Where the author dictionaries come from: a person or organization
   * dictionary only from an `author` row whose second hop is `@type` with
   * that value, and `{}` exactly when some `author` row has a second hop
   * `@type` naming neither; rows with another second hop add nothing.
   */
  lemma {:induction false} AuthorProvenance(rows: seq<Row>, url: string)
    ensures var m := Materialized(rows, url);
            && (forall x :: x in m.author && x != map[] ==>
                  exists i :: 0 <= i < |rows| && Writes(rows[i], "author") && Typed(rows[i])
                              && (|| (rows[i].subO == Some("Person") && x == Populate(Person, rows[i], rows).value)
                                  || (rows[i].subO == Some("Organization") && x == Populate(Organization, rows[i], rows).value)))
            && (map[] in m.author <==>
                  exists i :: 0 <= i < |rows| && Writes(rows[i], "author") && Typed(rows[i])
                              && rows[i].subO != Some("Person") && rows[i].subO != Some("Organization"))
  {
    MaterializedCollections(rows, url);
    var m := Materialized(rows, url);
    forall x | x in m.author && x != map[]
      ensures exists i :: 0 <= i < |rows| && Writes(rows[i], "author") && Typed(rows[i])
                          && (|| (rows[i].subO == Some("Person") && x == Populate(Person, rows[i], rows).value)
                              || (rows[i].subO == Some("Organization") && x == Populate(Organization, rows[i], rows).value))
    {
      assert AgentFrom(rows, rows, "author", x);
    }
    if map[] in m.author {
      assert AgentFrom(rows, rows, "author", map[]);
      var i :| 0 <= i < |rows| && Writes(rows[i], "author") && Typed(rows[i]) && AgentOf(rows[i], rows) == map[];
      BuildKeys(Person, rows[i].o, rows);
      BuildKeys(Organization, rows[i].o, rows);
      assert rows[i].subO != Some("Person") && rows[i].subO != Some("Organization");
    }
    if exists i :: 0 <= i < |rows| && Writes(rows[i], "author") && Typed(rows[i])
                   && rows[i].subO != Some("Person") && rows[i].subO != Some("Organization") {
      var i :| 0 <= i < |rows| && Writes(rows[i], "author") && Typed(rows[i])
               && rows[i].subO != Some("Person") && rows[i].subO != Some("Organization");
      assert AgentOf(rows[i], rows) == map[];
      assert AgentFrom(rows, rows, "author", map[]);
    }
  }

  /* ------------------------------------------------------------ the loop */

  /** One row as the source processes it, calling the builders. */
  method ApplyRow(a: Article, r: Row, all: seq<Row>) returns (outcome: Result<Article, Raised>)
    ensures outcome == Step(a, r, all)
  {
    var key := KeyOf(Some(r.p));
    if key.None? {
      return Ok(a);
    }
    var name := key.value;
    if name in SCALARS {
      outcome := Ok(a.(fields := a.fields[name := r.o]));
    } else if name == "wordCount" {
      var n := ParseInt(r.o);
      outcome := if n.Some? then Ok(a.(wordCount := n)) else Fail(ValueError);
    } else if name == "keywords" {
      outcome := Ok(a.(keywords := a.keywords + [r.o]));
    } else if name == "url" {
      outcome := Ok(a.(url := r.o));
    } else if name == "author" || name == "publisher" {
      outcome := Ok(a);
      if r.subP == Some(SCHEMA + "@type") {
        var d: Entity := map[];
        if r.subO == Some("Person") {
          var built := PopulateEntity(Person, r, all);
          d := built.value;
        } else if r.subO == Some("Organization") {
          var built := PopulateEntity(Organization, r, all);
          d := built.value;
        }
        if name == "author" {
          if d !in a.author {
            outcome := Ok(a.(author := a.author + [d]));
          }
        } else if d !in a.publisher && d != map[] {
          outcome := Ok(a.(publisher := a.publisher + [d]));
        }
      }
    } else if name == "image" || name == "thumbnail" {
      var built := PopulateEntity(Image, r, all);
      if built.Fail? {
        outcome := Fail(built.error);
      } else if name == "image" {
        outcome := Ok(if built.value in a.image then a else a.(image := a.image + [built.value]));
      } else {
        outcome := Ok(if built.value != map[] then a.(thumbnail := Some(built.value)) else a);
      }
    } else if name == "audio" || name == "video" {
      outcome := Fail(AttributeError);
    } else if name == "editor" {
      outcome := Fail(TypeError);
    } else {
      outcome := Ok(a);
    }
  }

  /** `populate_article_data`: every row is tried in turn; one that raises is skipped. */
  method Materialize(rows: seq<Row>, url: string) returns (article: Article)
    ensures article == Materialized(rows, url)
  {
    article := Initial(url);
    for i := 0 to |rows|
      invariant article == Fold(Initial(url), rows[..i], rows)
    {
      assert rows[..i + 1][..i] == rows[..i];
      var outcome := ApplyRow(article, rows[i], rows);
      if outcome.Ok? {
        article := outcome.value;
      }
    }
    assert rows[..|rows|] == rows;
  }
}
