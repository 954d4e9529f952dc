/**
 * Query rows and the sub-entity builders (`populate_person`,
 * `populate_organization`, `populate_image_data`, `populate_audio_data`,
 * `populate_video_data`).
 *
 * A builder starts from a dictionary whose keys are all set to `None`, then
 * walks every row whose outer object `o` is the object of the row it was
 * called for and, for each such row whose sub-predicate is
 * `http://schema.org/<key>` for one of its keys, stores the sub-object under
 * that key. The five builders differ only in their key sets and in which keys
 * go through `int()`, so they are one function of the entity `Kind` here.
 */
module Entities {
  import opened Wrappers
  import opened PyText
  import opened Seqs

  const SCHEMA := "http://schema.org/"

  /**
   * One binding of `SELECT ?p ?o ?subP ?subO WHERE { <url> ?p ?o . OPTIONAL { ?o ?subP ?subO } }`.
   * `p` and `o` are always bound; the second hop may be missing.
   */
  datatype Row = Row(p: string, o: string, subP: Option<string>, subO: Option<string>)

  /** A value stored in a built dictionary: Python `None`, a `str` or an `int`. */
  datatype Value = Null | Text(s: string) | Number(n: int)

  /** A built dictionary. Python compares dictionaries key by key, as maps are compared; `{}` is `map[]`. */
  type Entity = map<string, Value>

  datatype Kind = Person | Organization | Image | Audio | Video

  /** The exceptions a row can raise while it is processed. */
  datatype Raised =
    | ValueError      // int() of a malformed literal
    | TypeError       // int(None), or a dictionary used as a key
    | AttributeError  // `.get` called on a list

  /** The fixed key set of each builder's dictionary. */
  function Keys(kind: Kind): set<string> {
    match kind
    case Person =>
      {"name", "@type", "jobTitle", "address", "affiliation", "birthDate", "birthPlace",
       "deathDate", "deathPlace", "email", "familyName", "gender", "givenName", "nationality"}
    case Organization => {"name", "@type", "address", "affiliation", "email"}
    case Image => {"height", "width", "url", "@type"}
    case Audio | Video =>
      {"caption", "transcript", "@type", "contentUrl", "duration", "embedUrl", "height", "uploadDate", "width"}
  }

  /** The keys whose sub-object goes through `int()`. */
  predicate IsIntKey(kind: Kind, key: string) {
    (kind == Image || kind == Audio || kind == Video) && (key == "height" || key == "width")
  }

  /** The local name `k` of an IRI `http://schema.org/k`; the builders' `if`/`elif` chains compare against exactly these IRIs. */
  function KeyOf(iri: Option<string>): (k: Option<string>)
    ensures k.Some? ==> iri == Some(SCHEMA + k.value)
  {
    if iri.Some? && SCHEMA <= iri.value then
      var k := iri.value[|SCHEMA|..];
      assert iri.value == SCHEMA + k;
      Some(k)
    else None
  }

  lemma {:induction false} KeyOfSchema(k: string)
    ensures KeyOf(Some(SCHEMA + k)) == Some(k)
  {
    assert (SCHEMA + k)[|SCHEMA|..] == k;
  }

  /** The value a builder stores for `key`: the sub-object itself, or `int(sub-object)` for height and width. */
  function Convert(kind: Kind, key: string, subO: Option<string>): Result<Value, Raised> {
    if IsIntKey(kind, key) then
      match subO
      case None => Fail(TypeError)
      case Some(s) =>
        match ParseInt(s)
        case Some(n) => Ok(Number(n))
        case None => Fail(ValueError)
    else
      Ok(match subO case Some(s) => Text(s) case None => Null)
  }

  /** The dictionary a builder starts from: every key present and `None`. */
  function Blank(kind: Kind): (d: Entity)
    ensures d.Keys == Keys(kind)
  {
    map key | key in Keys(kind) :: Null
  }

  /** Row `r` belongs to the entity `subject` and its sub-predicate names `key`. */
  predicate Names(r: Row, subject: string, key: string) {
    r.o == subject && KeyOf(r.subP) == Some(key)
  }

  /** Row `r` belongs to `subject`, names a key of `kind`, and converting its sub-object raises. */
  predicate Rejects(kind: Kind, subject: string, r: Row) {
    && r.o == subject
    && KeyOf(r.subP).Some?
    && KeyOf(r.subP).value in Keys(kind)
    && Convert(kind, KeyOf(r.subP).value, r.subO).Fail?
  }

  /** One pass of the builder's loop over a row that belongs to the entity. */
  function Assign(kind: Kind, d: Entity, r: Row): Result<Entity, Raised> {
    var key := KeyOf(r.subP);
    if key.Some? && key.value in Keys(kind) then
      match Convert(kind, key.value, r.subO)
      case Ok(v) => Ok(d[key.value := v])
      case Fail(e) => Fail(e)
    else Ok(d)
  }

  /** The builder run over the rows `rows`, in order, for the entity whose IRI is `subject`. */
  function Build(kind: Kind, subject: string, rows: seq<Row>): (r: Result<Entity, Raised>)
    ensures kind == Person || kind == Organization ==> r.Ok?
  {
    if rows == [] then Ok(Blank(kind))
    else
      match Build(kind, subject, rows[..|rows| - 1])
      case Fail(e) => Fail(e)
      case Ok(d) =>
        var r := rows[|rows| - 1];
        if r.o == subject then Assign(kind, d, r) else Ok(d)
  }

  /** `populate_<kind>(row, rows)`: `Fail` when the builder raises. */
  function Populate(kind: Kind, row: Row, rows: seq<Row>): Result<Entity, Raised> {
    Build(kind, row.o, rows)
  }

  /** Once the builder has raised, the rows after that one do not matter. */
  lemma {:induction false} BuildFailSticks(kind: Kind, subject: string, rows: seq<Row>, i: nat)
    requires i <= |rows| && Build(kind, subject, rows[..i]).Fail?
    ensures Build(kind, subject, rows) == Build(kind, subject, rows[..i])
    decreases |rows| - i
  {
    if i == |rows| {
      assert rows[..i] == rows;
    } else {
      assert rows[..i + 1][..i] == rows[..i];
      BuildFailSticks(kind, subject, rows, i + 1);
    }
  }

  /** A builder raises exactly when some row of the entity names a key whose value `int()` rejects. */
  lemma {:induction false} BuildFails(kind: Kind, subject: string, rows: seq<Row>)
    ensures Build(kind, subject, rows).Fail? <==> exists i :: 0 <= i < |rows| && Rejects(kind, subject, rows[i])
  {
    if rows != [] {
      var init := rows[..|rows| - 1];
      BuildFails(kind, subject, init);
      if Build(kind, subject, init).Fail? {
        var i :| 0 <= i < |init| && Rejects(kind, subject, init[i]);
        assert rows[i] == init[i];
      } else if Build(kind, subject, rows).Fail? {
        assert Rejects(kind, subject, rows[|rows| - 1]);
      } else {
        forall i | 0 <= i < |rows| ensures !Rejects(kind, subject, rows[i]) {
          if i < |init| {
            assert rows[i] == init[i];
          }
        }
      }
    }
  }

  /** A built dictionary has exactly the fixed key set of its kind. */
  lemma {:induction false} BuildKeys(kind: Kind, subject: string, rows: seq<Row>)
    requires Build(kind, subject, rows).Ok?
    ensures Build(kind, subject, rows).value.Keys == Keys(kind)
  {
    if rows != [] {
      BuildKeys(kind, subject, rows[..|rows| - 1]);
    }
  }

  /**
   * Each key of a built dictionary holds the (converted) sub-object of the
   * LAST row of the entity naming it, and `None` when no row names it; rows
   * naming other keys, and rows of other entities, leave it alone.
   */
  lemma {:induction false} BuildKey(kind: Kind, subject: string, rows: seq<Row>, key: string)
    requires key in Keys(kind) && Build(kind, subject, rows).Ok?
    ensures var d := Build(kind, subject, rows).value;
            var i := LastHit(rows, r => Names(r, subject, key));
            && key in d
            && (i < 0 ==> d[key] == Null)
            && (i >= 0 ==> Convert(kind, key, rows[i].subO) == Ok(d[key]))
  {
    BuildKeys(kind, subject, rows);
    if rows != [] {
      BuildKey(kind, subject, rows[..|rows| - 1], key);
    }
  }

  /**
   * `populate_<kind>` as the source runs it: the dictionary is initialised
   * with every key set to `None`, then overwritten key by key in one pass over
   * the rows; a failing `int()` raises out of the builder.
   */
  method PopulateEntity(kind: Kind, row: Row, rows: seq<Row>) returns (r: Result<Entity, Raised>)
    ensures r == Populate(kind, row, rows)
  {
    var subject := row.o;
    var data := Blank(kind);
    for i := 0 to |rows|
      invariant Build(kind, subject, rows[..i]) == Ok(data)
    {
      assert rows[..i + 1][..i] == rows[..i];
      var sub := rows[i];
      if sub.o == subject {
        var key := KeyOf(sub.subP);
        if key.Some? && key.value in Keys(kind) {
          var v := Convert(kind, key.value, sub.subO);
          if v.Fail? {
            BuildFailSticks(kind, subject, rows, i + 1);
            return Fail(v.error);
          }
          data := data[key.value := v.value];
        }
      }
    }
    assert rows[..|rows|] == rows;
    r := Ok(data);
  }
}
