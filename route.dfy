/**
 * The `POST` handler of the single-movie scrape route: check the request,
 * refuse a slug that is already stored, scrape the page, save the record.
 *
 * The page the fetch would return and the clock reading are inputs.
 */
module MovieRoute {
  import opened Wrappers
  import opened Scrape
  import opened Catalog

  /** The request body: `None` for a missing or `null` url; `Unreadable` when
      `request.json()` throws. */
  datatype RequestBody = Unreadable | Json(url: Option<string>)

  /** Where an exception the handler catches was raised by a library rather
      than by the route: reading the body, `findUnique` with an `undefined`
      slug, or `create` without a slug. The response carries that library's
      message. */
  datatype Thrower = RequestJson | SlugLookup | MovieCreate

  /** The JSON sent back: `{ message }`, `{ error }` with the route's own text,
      or `{ error }` with a library's message. */
  datatype Reply = Message(message: string) | Error(error: string) | LibraryError(thrower: Thrower)

  datatype Response = Response(status: nat, reply: Reply)

  const UrlRequired := "URL is required"
  const AlreadyScraped := "Movie already scraped"
  const ScrapeFailed := "Failed to scrape data"
  const SavedMessage := "Movie data saved successfully"

  /** `POST(request)`: the response and the store afterwards. `fetched` is what
      `axios.get(url)` produces (`None` when it throws). */
  function Post(s: Store, body: RequestBody, fetched: Option<Page>, now: string): (Response, Store)
  {
    match body
    case Unreadable => (Response(500, LibraryError(RequestJson)), s)
    case Json(url) =>
      if !Truthy(url) then (Response(400, Error(UrlRequired)), s)
      else
        match SlugOf(url.value)
        case None => (Response(500, LibraryError(SlugLookup)), s)
        case Some(slug) =>
          if slug in s.movies then (Response(400, Error(AlreadyScraped)), s)
          else SaveScraped(s, Extract(fetched, now))
  }

  /** The rest of the handler once the URL's slug is known to be new: answer
      the extraction's failure, or save the record and answer the outcome. */
  function SaveScraped(s: Store, scraped: Option<MovieData>): (Response, Store)
  {
    match scraped
    case None => (Response(500, Error(ScrapeFailed)), s)
    case Some(d) =>
      var (saved, result) := Save(s, d);
      (SaveResponse(result), saved)
  }

  /** The response `POST` gives for the outcome of `saveMovieData`. */
  function SaveResponse(result: SaveResult): Response
  {
    match result
    case Saved => Response(201, Message(SavedMessage))
    case Failed(DuplicateSlug(title)) => Response(500, Error(DuplicateMessage(title)))
    case Failed(CreateRejected) => Response(500, LibraryError(MovieCreate))
  }

  /** The status is 201, 400 or 500; 201 carries a message and the others an error. */
  lemma PostStatus(s: Store, body: RequestBody, fetched: Option<Page>, now: string)
    ensures var resp := Post(s, body, fetched, now).0;
      && (resp.status == 201 || resp.status == 400 || resp.status == 500)
      && (resp.status == 201 <==> resp.reply.Message?)
  {
    if body.Json? && Truthy(body.url) && SlugOf(body.url.value).Some? && SlugOf(body.url.value).value !in s.movies {
      var scraped := Extract(fetched, now);
      assert Post(s, body, fetched, now) == SaveScraped(s, scraped);
      if scraped.Some? {
        var result := Save(s, scraped.value).1;
        assert SaveScraped(s, scraped).0 == SaveResponse(result);
      }
    }
  }

  /** A missing or empty URL is refused with 400 and the store is untouched. */
  lemma PostMissingUrl(s: Store, url: Option<string>, fetched: Option<Page>, now: string)
    requires !Truthy(url)
    ensures Post(s, Json(url), fetched, now) == (Response(400, Error(UrlRequired)), s)
  {
  }

  /** A URL whose slug is already stored is refused with 400 and the store is untouched. */
  lemma PostAlreadyScraped(s: Store, url: string, fetched: Option<Page>, now: string)
    requires url != ""
    requires SlugOf(url).Some? && SlugOf(url).value in s.movies
    ensures Post(s, Json(Some(url)), fetched, now) == (Response(400, Error(AlreadyScraped)), s)
  {
  }

  /** A failed extraction answers 500 and leaves the store untouched. */
  lemma PostScrapeFailed(s: Store, url: string, fetched: Option<Page>, now: string)
    requires url != ""
    requires SlugOf(url).Some? && SlugOf(url).value !in s.movies
    requires fetched.None? || fetched.value.canonicalHref.None?
    ensures Post(s, Json(Some(url)), fetched, now) == (Response(500, Error(ScrapeFailed)), s)
  {
  }

  /** 201 is answered exactly when the URL is given, its slug is new, the page
      yields a record, and the record's own slug is new; the store then holds
      the record under its slug. */
  lemma PostCreated(s: Store, body: RequestBody, fetched: Option<Page>, now: string)
    ensures var (resp, after) := Post(s, body, fetched, now);
      resp.status == 201 <==>
        && body.Json? && Truthy(body.url)
        && SlugOf(body.url.value).Some? && SlugOf(body.url.value).value !in s.movies
        && Extract(fetched, now).Some?
        && Extract(fetched, now).value.slug.Some?
        && Extract(fetched, now).value.slug.value !in s.movies
    ensures var (resp, after) := Post(s, body, fetched, now);
      resp.status == 201 ==>
        && Extract(fetched, now).value.slug.value in after.movies
        && after.movies.Keys == s.movies.Keys + {Extract(fetched, now).value.slug.value}
  {
    if body.Json? && Truthy(body.url) && SlugOf(body.url.value).Some? && SlugOf(body.url.value).value !in s.movies
       && Extract(fetched, now).Some?
    {
      SaveOutcome(s, Extract(fetched, now).value);
    }
  }

  /** Only a request that gets as far as extracting a record changes the store. */
  lemma PostChangesOnlyAfterExtraction(s: Store, body: RequestBody, fetched: Option<Page>, now: string)
    ensures Post(s, body, fetched, now).1 != s ==>
              && body.Json? && Truthy(body.url)
              && SlugOf(body.url.value).Some? && SlugOf(body.url.value).value !in s.movies
              && Extract(fetched, now).Some?
  {
  }

  /** A stored movie is never changed or removed, and at most one is added. */
  lemma PostOnlyAdds(s: Store, body: RequestBody, fetched: Option<Page>, now: string)
    ensures var after := Post(s, body, fetched, now).1;
      && s.movies.Keys <= after.movies.Keys
      && (forall k :: k in s.movies ==> after.movies[k] == s.movies[k])
      && |after.movies.Keys - s.movies.Keys| <= 1
  {
    PostChangesOnlyAfterExtraction(s, body, fetched, now);
    var after := Post(s, body, fetched, now).1;
    if after != s {
      var d := Extract(fetched, now).value;
      assert after == Save(s, d).0;
      SaveOutcome(s, d);
      if d.slug.Some? && d.slug.value !in s.movies {
        SaveAdds(s, d);
        assert after.movies.Keys - s.movies.Keys == {d.slug.value};
      }
    }
  }

  /** The handler keeps the store valid. */
  lemma PostPreservesValid(s: Store, body: RequestBody, fetched: Option<Page>, now: string)
    requires s.Valid()
    ensures Post(s, body, fetched, now).1.Valid()
  {
    if Extract(fetched, now).Some? {
      SavePreservesValid(s, Extract(fetched, now).value);
    }
  }

  /** Posting a URL a second time after it was saved changes nothing: it is
      refused with 400 when the URL's slug is the page's canonical slug, and
      with the duplicate-slug 500 when the two differ. */
  lemma PostTwice(s: Store, url: string, fetched: Option<Page>, now: string)
    requires Post(s, Json(Some(url)), fetched, now).0.status == 201
    ensures var after := Post(s, Json(Some(url)), fetched, now).1;
      var (again, final) := Post(after, Json(Some(url)), fetched, now);
      var d := Extract(fetched, now).value;
      && final == after
      && (SlugOf(url) == d.slug ==> again == Response(400, Error(AlreadyScraped)))
      && (SlugOf(url) != d.slug ==> again == Response(500, Error(DuplicateMessage(d.title))))
  {
    PostCreated(s, Json(Some(url)), fetched, now);
    var d := Extract(fetched, now).value;
    var after := Post(s, Json(Some(url)), fetched, now).1;
    assert after == Save(s, d).0;
    SaveNames(s, d);
    if SlugOf(url) != d.slug {
      var key := SlugOf(url).value;
      assert key !in after.movies;
      forall j | 0 <= j < |d.genre| ensures d.genre[j] in after.categories.rows {
        assert d.genre[j] in (set g | g in d.genre);
      }
      forall j | 0 <= j < |d.tag| ensures d.tag[j] in after.tags.rows {
        assert d.tag[j] in (set t | t in d.tag);
      }
      SaveDuplicateUnchanged(after, d);
    }
  }

  /** When the URL's slug is the page's canonical slug, a second request for
      that URL is refused with 400 before anything is fetched, whatever the
      page and the clock are then. */
  lemma PostAgainSameSlug(s: Store, url: string, fetched: Option<Page>, now: string,
                          refetched: Option<Page>, later: string)
    requires Post(s, Json(Some(url)), fetched, now).0.status == 201
    requires SlugOf(url) == Extract(fetched, now).value.slug
    ensures var after := Post(s, Json(Some(url)), fetched, now).1;
      Post(after, Json(Some(url)), refetched, later) == (Response(400, Error(AlreadyScraped)), after)
  {
    PostCreated(s, Json(Some(url)), fetched, now);
  }

  /** `POST(request)` against the store. */
  method HandlePost(store: CatalogStore, body: RequestBody, fetched: Option<Page>, now: string)
    returns (response: Response)
    requires store.Valid()
    modifies store, store.categories, store.tags
    ensures store.Valid()
    ensures (response, store.State()) == Post(old(store.State()), body, fetched, now)
  {
    if body.Unreadable? {
      return Response(500, LibraryError(RequestJson));
    }
    var url := body.url;
    if !Truthy(url) {
      return Response(400, Error(UrlRequired));
    }
    var slug := SlugOf(url.value);
    if slug.None? {
      return Response(500, LibraryError(SlugLookup));
    }
    var found := store.IsStored(slug.value);
    if found {
      return Response(400, Error(AlreadyScraped));
    }
    var movieData := ScrapeMovieData(fetched, now);
    if movieData.None? {
      return Response(500, Error(ScrapeFailed));
    }
    var result := store.SaveMovieData(movieData.value);
    response := SaveResponse(result);
  }
}
