/**
 * The catalog store and `saveMovieData`: get-or-create every category and tag
 * named by a scraped record, then create the movie row connected to them.
 *
 * The relational store is represented by a map from slug to movie row and by
 * two name tables; the uniqueness of slugs and names, which the store enforces
 * with constraints, is an explicit check here.
 */
module Catalog {
  import opened Wrappers
  import opened Scrape

  // ---------------------------------------------------------------------------
  // name tables (categories, tags)

  /** A table of rows with unique names: each name's row id, and the id the
      next new row receives. */
  datatype Table = Table(rows: map<string, nat>, next: nat) {
    /** Every id was handed out before `next`, and no two names share one. */
    predicate Valid()
    {
      && (forall n :: n in rows ==> rows[n] < next)
      && (forall a, b :: a in rows && b in rows && a != b ==> rows[a] != rows[b])
    }
  }

  /** `upsert({ where: { name }, update: {}, create: { name } })`: the existing
      row, left as it is, or a new row. */
  function GetOrCreate(t: Table, name: string): (Table, nat)
  {
    if name in t.rows then (t, t.rows[name])
    else (Table(t.rows[name := t.next], t.next + 1), t.next)
  }

  /** One upsert per name, in list order, collecting the rows' ids. */
  function GetOrCreateAll(t: Table, names: seq<string>): (Table, seq<nat>)
  {
    if names == [] then (t, [])
    else
      var (t1, ids) := GetOrCreateAll(t, names[..|names| - 1]);
      var (t2, id) := GetOrCreate(t1, names[|names| - 1]);
      (t2, ids + [id])
  }

  /** After the upserts the names with a row are the old ones and the listed ones. */
  lemma {:induction false} GetOrCreateAllKeys(t: Table, names: seq<string>)
    ensures GetOrCreateAll(t, names).0.rows.Keys == t.rows.Keys + (set n | n in names)
    decreases |names|
  {
    if names != [] {
      var pre := names[..|names| - 1];
      var last := names[|names| - 1];
      GetOrCreateAllKeys(t, pre);
      assert names == pre + [last];
      assert (set n | n in names) == (set n | n in pre) + {last};
    }
  }

  /** Rows that already existed keep their ids, and new rows get ids not handed out before. */
  lemma {:induction false} GetOrCreateAllKeeps(t: Table, names: seq<string>)
    ensures var r := GetOrCreateAll(t, names).0;
      && t.next <= r.next
      && (forall n :: n in t.rows ==> n in r.rows && r.rows[n] == t.rows[n])
      && (forall n :: n in r.rows && n !in t.rows ==> t.next <= r.rows[n] < r.next)
    decreases |names|
  {
    if names != [] {
      GetOrCreateAllKeeps(t, names[..|names| - 1]);
    }
  }

  /** The i-th id is the id of the i-th name's row. */
  lemma {:induction false} GetOrCreateAllIds(t: Table, names: seq<string>)
    ensures var (r, ids) := GetOrCreateAll(t, names);
      && |ids| == |names|
      && (forall j :: 0 <= j < |names| ==> names[j] in r.rows && ids[j] == r.rows[names[j]])
    decreases |names|
  {
    if names != [] {
      GetOrCreateAllIds(t, names[..|names| - 1]);
    }
  }

  /** The upserts keep the table valid. */
  lemma {:induction false} GetOrCreateAllValid(t: Table, names: seq<string>)
    requires t.Valid()
    ensures GetOrCreateAll(t, names).0.Valid()
    decreases |names|
  {
    if names != [] {
      GetOrCreateAllValid(t, names[..|names| - 1]);
    }
  }

  /** Upserting names that all exist changes nothing. */
  lemma {:induction false} GetOrCreateAllExisting(t: Table, names: seq<string>)
    requires forall j :: 0 <= j < |names| ==> names[j] in t.rows
    ensures GetOrCreateAll(t, names).0 == t
    decreases |names|
  {
    if names != [] {
      GetOrCreateAllExisting(t, names[..|names| - 1]);
    }
  }

  // ---------------------------------------------------------------------------
  // the store

  /** A stored movie: the record's scalar fields and the ids of the category
      and tag rows it is connected to. */
  datatype MovieRow = MovieRow(
    slug: string,
    title: string,
    description: string,
    imageUrl: Option<string>,
    author: Option<string>,
    publishedDate: Option<string>,
    modifiedDate: string,
    views: Option<nat>,
    videoUrls: seq<Option<string>>,
    downloadUrls: map<string, seq<Option<string>>>,
    director: string,
    duration: string,
    categoryIds: set<nat>,
    tagIds: set<nat>)

  /** The catalog: movies by slug, and the category and tag tables. */
  datatype Store = Store(movies: map<string, MovieRow>, categories: Table, tags: Table) {
    /** Both tables are valid, each movie is filed under its own slug, and
        every connection points at an existing category or tag row. */
    predicate Valid()
    {
      && categories.Valid()
      && tags.Valid()
      && forall k :: k in movies ==>
           && movies[k].slug == k
           && movies[k].categoryIds <= categories.rows.Values
           && movies[k].tagIds <= tags.rows.Values
    }
  }

  /** Why `saveMovieData` throws: the slug is taken (the store's P2002), or the
      store refused to create a row without a slug. */
  datatype SaveError = DuplicateSlug(title: string) | CreateRejected

  datatype SaveResult = Saved | Failed(error: SaveError)

  /** The message `saveMovieData` throws for a taken slug. */
  function DuplicateMessage(title: string): string
  {
    "Duplicate slug found for \"" + title + "\""
  }

  function Elements(ids: seq<nat>): set<nat>
  {
    set id | id in ids
  }

  /** The `prisma.movie.create` data for a record. */
  function RowOf(d: MovieData, slug: string, categoryIds: seq<nat>, tagIds: seq<nat>): MovieRow
  {
    MovieRow(slug, d.title, d.description, d.imageUrl, d.author, d.publishedDate,
             d.modifiedDate, d.views, d.videoUrls, d.downloadUrls, d.director, d.duration,
             Elements(categoryIds), Elements(tagIds))
  }

  /** The store after the upserts, before the create. */
  function Upserted(s: Store, d: MovieData): Store
  {
    s.(categories := GetOrCreateAll(s.categories, d.genre).0,
       tags := GetOrCreateAll(s.tags, d.tag).0)
  }

  /** `saveMovieData(movieData)`: the category upserts, then the tag upserts,
      then the create. The upserts are done before the create can fail, so
      their rows remain when it does. */
  function Save(s: Store, d: MovieData): (Store, SaveResult)
  {
    var categoryIds := GetOrCreateAll(s.categories, d.genre).1;
    var tagIds := GetOrCreateAll(s.tags, d.tag).1;
    var upserted := Upserted(s, d);
    match d.slug
    case None => (upserted, Failed(CreateRejected))
    case Some(slug) =>
      if slug in s.movies then (upserted, Failed(DuplicateSlug(d.title)))
      else (upserted.(movies := s.movies[slug := RowOf(d, slug, categoryIds, tagIds)]), Saved)
  }

  /** Whatever the outcome, every genre and tag name has a row afterwards, the
      rows that existed are unchanged, and no other name was added. */
  lemma SaveNames(s: Store, d: MovieData)
    ensures var r := Save(s, d).0;
      && r.categories.rows.Keys == s.categories.rows.Keys + (set g | g in d.genre)
      && r.tags.rows.Keys == s.tags.rows.Keys + (set t | t in d.tag)
      && (forall n :: n in s.categories.rows ==> r.categories.rows[n] == s.categories.rows[n])
      && (forall n :: n in s.tags.rows ==> r.tags.rows[n] == s.tags.rows[n])
  {
    GetOrCreateAllKeys(s.categories, d.genre);
    GetOrCreateAllKeys(s.tags, d.tag);
    GetOrCreateAllKeeps(s.categories, d.genre);
    GetOrCreateAllKeeps(s.tags, d.tag);
  }

  /** The create succeeds exactly when the record has a slug that is not yet
      stored. A failure leaves the movies as they were; a duplicate reports the
      title. */
  lemma SaveOutcome(s: Store, d: MovieData)
    ensures var (r, result) := Save(s, d);
      && (result == Saved <==> d.slug.Some? && d.slug.value !in s.movies)
      && (d.slug.Some? && d.slug.value in s.movies ==> result == Failed(DuplicateSlug(d.title)))
      && (result.Failed? ==> r.movies == s.movies)
  {
  }

  /** A successful save adds exactly one movie, under the record's slug and
      with the record's fields, and leaves every other movie as it was. */
  lemma SaveAdds(s: Store, d: MovieData)
    requires d.slug.Some? && d.slug.value !in s.movies
    ensures var r := Save(s, d).0; var slug := d.slug.value;
      && r.movies.Keys == s.movies.Keys + {slug}
      && (forall k :: k in s.movies ==> r.movies[k] == s.movies[k])
      && r.movies[slug].slug == slug && r.movies[slug].title == d.title
      && r.movies[slug].description == d.description && r.movies[slug].imageUrl == d.imageUrl
      && r.movies[slug].author == d.author && r.movies[slug].publishedDate == d.publishedDate
      && r.movies[slug].modifiedDate == d.modifiedDate && r.movies[slug].views == d.views
      && r.movies[slug].videoUrls == d.videoUrls && r.movies[slug].downloadUrls == d.downloadUrls
      && r.movies[slug].director == d.director && r.movies[slug].duration == d.duration
  {
  }

  /** The new movie is connected to exactly the rows of its genres and tags. */
  lemma SaveConnects(s: Store, d: MovieData)
    requires s.Valid()
    requires d.slug.Some? && d.slug.value !in s.movies
    ensures var r := Save(s, d).0; var row := r.movies[d.slug.value];
      && (forall n :: n in r.categories.rows ==> (r.categories.rows[n] in row.categoryIds <==> n in d.genre))
      && (forall n :: n in r.tags.rows ==> (r.tags.rows[n] in row.tagIds <==> n in d.tag))
  {
    var cats := GetOrCreateAll(s.categories, d.genre);
    var tgs := GetOrCreateAll(s.tags, d.tag);
    GetOrCreateAllIds(s.categories, d.genre);
    GetOrCreateAllIds(s.tags, d.tag);
    GetOrCreateAllValid(s.categories, d.genre);
    GetOrCreateAllValid(s.tags, d.tag);
    var r := Save(s, d).0;
    var row := r.movies[d.slug.value];
    assert r.categories == cats.0 && row.categoryIds == Elements(cats.1);
    assert r.tags == tgs.0 && row.tagIds == Elements(tgs.1);
    ConnectedExactly(cats.0, d.genre, cats.1);
    ConnectedExactly(tgs.0, d.tag, tgs.1);
  }

  /** In a valid table, the ids of a list of names identify exactly those names. */
  lemma ConnectedExactly(t: Table, names: seq<string>, ids: seq<nat>)
    requires t.Valid()
    requires |ids| == |names|
    requires forall j :: 0 <= j < |names| ==> names[j] in t.rows && ids[j] == t.rows[names[j]]
    ensures forall n :: n in t.rows ==> (t.rows[n] in Elements(ids) <==> n in names)
  {
    forall n | n in t.rows
      ensures t.rows[n] in Elements(ids) <==> n in names
    {
      if t.rows[n] in Elements(ids) {
        var j :| 0 <= j < |ids| && ids[j] == t.rows[n];
        assert names[j] == n;
      }
      if n in names {
        var j :| 0 <= j < |names| && names[j] == n;
        assert ids[j] in Elements(ids);
      }
    }
  }

  /** A table that keeps every existing row keeps every existing id. */
  lemma ValuesKept(t: Table, r: Table)
    requires forall n :: n in t.rows ==> n in r.rows && r.rows[n] == t.rows[n]
    ensures t.rows.Values <= r.rows.Values
  {
    forall id | id in t.rows.Values ensures id in r.rows.Values {
      var n :| n in t.rows && t.rows[n] == id;
      assert r.rows[n] == id;
    }
  }

  /** The ids of rows of a table are ids of that table. */
  lemma IdsInTable(t: Table, names: seq<string>, ids: seq<nat>)
    requires |ids| == |names|
    requires forall j :: 0 <= j < |names| ==> names[j] in t.rows && ids[j] == t.rows[names[j]]
    ensures Elements(ids) <= t.rows.Values
  {
    forall id | id in Elements(ids) ensures id in t.rows.Values {
      var j :| 0 <= j < |ids| && ids[j] == id;
      assert t.rows[names[j]] == id;
    }
  }

  /** A table's upserts keep every id a movie may point at. */
  lemma UpsertsKeepIds(t: Table, names: seq<string>)
    requires t.Valid()
    ensures GetOrCreateAll(t, names).0.Valid()
    ensures t.rows.Values <= GetOrCreateAll(t, names).0.rows.Values
    ensures Elements(GetOrCreateAll(t, names).1) <= GetOrCreateAll(t, names).0.rows.Values
  {
    var (r, ids) := GetOrCreateAll(t, names);
    GetOrCreateAllKeeps(t, names);
    GetOrCreateAllIds(t, names);
    GetOrCreateAllValid(t, names);
    ValuesKept(t, r);
    IdsInTable(r, names, ids);
  }

  /** Saving keeps the store valid. */
  lemma SavePreservesValid(s: Store, d: MovieData)
    requires s.Valid()
    ensures Save(s, d).0.Valid()
  {
    UpsertsKeepIds(s.categories, d.genre);
    UpsertsKeepIds(s.tags, d.tag);
    var u := Upserted(s, d);
    assert u.Valid() by {
      forall k | k in u.movies
        ensures u.movies[k].categoryIds <= u.categories.rows.Values
        ensures u.movies[k].tagIds <= u.tags.rows.Values
      {
        assert u.movies[k] == s.movies[k];
      }
    }
    assert Save(s, d).0.categories == u.categories && Save(s, d).0.tags == u.tags;
  }

  /** Saving a record whose names all exist and whose slug is taken changes nothing. */
  lemma SaveDuplicateUnchanged(s: Store, d: MovieData)
    requires d.slug.Some? && d.slug.value in s.movies
    requires forall j :: 0 <= j < |d.genre| ==> d.genre[j] in s.categories.rows
    requires forall j :: 0 <= j < |d.tag| ==> d.tag[j] in s.tags.rows
    ensures Save(s, d) == (s, Failed(DuplicateSlug(d.title)))
  {
    GetOrCreateAllExisting(s.categories, d.genre);
    GetOrCreateAllExisting(s.tags, d.tag);
  }

  // ---------------------------------------------------------------------------
  // the stateful store

  /** A name table of the store (`prisma.category` or `prisma.tag`). */
  class NameTable {
    var rows: map<string, nat>
    var next: nat

    function Value(): Table
      reads this
    {
      Table(rows, next)
    }

    constructor ()
      ensures Value() == Table(map[], 0)
    {
      rows, next := map[], 0;
    }

    /** One `upsert` with `update: {}`. */
    method Upsert(name: string) returns (id: nat)
      modifies this
      ensures (Value(), id) == GetOrCreate(old(Value()), name)
    {
      if name in rows {
        id := rows[name];
      } else {
        id := next;
        rows := rows[name := next];
        next := next + 1;
      }
    }
  }

  /** `Promise.all(names.map(name => upsert(name)))`, one upsert after another. */
  method UpsertAll(table: NameTable, names: seq<string>) returns (ids: seq<nat>)
    modifies table
    ensures (table.Value(), ids) == GetOrCreateAll(old(table.Value()), names)
  {
    ids := [];
    for i := 0 to |names|
      invariant (table.Value(), ids) == GetOrCreateAll(old(table.Value()), names[..i])
    {
      assert names[..i + 1][..i] == names[..i];
      var id := table.Upsert(names[i]);
      ids := ids + [id];
    }
    assert names[..|names|] == names;
  }

  /** The catalog store the route writes to. */
  class CatalogStore {
    var movies: map<string, MovieRow>
    const categories: NameTable
    const tags: NameTable

    function State(): Store
      reads this, categories, tags
    {
      Store(movies, categories.Value(), tags.Value())
    }

    ghost predicate Valid()
      reads this, categories, tags
    {
      categories != tags && State().Valid()
    }

    constructor ()
      ensures Valid() && fresh(categories) && fresh(tags)
      ensures State() == Store(map[], Table(map[], 0), Table(map[], 0))
    {
      movies := map[];
      categories := new NameTable();
      tags := new NameTable();
    }

    /** `prisma.movie.findUnique({ where: { slug } })` finds a row. */
    method IsStored(slug: string) returns (found: bool)
      ensures found <==> slug in movies
    {
      found := slug in movies;
    }

    /** `saveMovieData(movieData)`. */
    method SaveMovieData(d: MovieData) returns (result: SaveResult)
      requires Valid()
      modifies this, categories, tags
      ensures Valid()
      ensures (State(), result) == Save(old(State()), d)
    {
      SavePreservesValid(State(), d);
      var categoryIds := UpsertAll(categories, d.genre);
      var tagIds := UpsertAll(tags, d.tag);
      if d.slug.None? {
        return Failed(CreateRejected);
      }
      var slug := d.slug.value;
      if slug in movies {
        return Failed(DuplicateSlug(d.title));
      }
      movies := movies[slug := RowOf(d, slug, categoryIds, tagIds)];
      result := Saved;
    }
  }
}
