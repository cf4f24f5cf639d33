/**
 * The movie handlers over a collection whose records the handlers insert,
 * replace and remove. Each method answers as the handler does: a failure
 * with its status, or the response payload.
 */
module MovieControllers {
  import opened Common
  import opened JsValues
  import opened Ordering
  import opened ObjectIds
  import opened MovieSchema
  import opened MovieQuery
  import opened MovieNotify
  import opened MovieStore

  /** The payload of a delete: the message and the removed record's id. */
  datatype Deleted = Deleted(message: string, movieId: Id)

  /** The dashboard's `stats` object. */
  datatype DashboardStats = DashboardStats(totalMovies: nat, publishedMovies: nat, draftMovies: nat, blockedMovies: nat)

  /** A slug an update may store: absent, or a string of the slug format no other record holds. */
  predicate UpdateSlugAccepted(docs: seq<Movie>, id: string, b: MovieBody) {
    !Truthy(b.slug) || (b.slug.Str? && IsSlug(b.slug.s) && IsObjectId(id) && !SlugHeldByOther(docs, b.slug.s, CanonicalId(id)))
  }

  class MovieCollection {
    /** The stored records in insertion order. */
    var docs: seq<Movie>

    ghost predicate Valid()
      reads this
    {
      DistinctIds(docs) && CanonicalIds(docs)
    }

    constructor()
      ensures Valid() && docs == []
    {
      docs := [];
    }

    /**
     * `handleCreateMovie`. The guards run in order: a missing required field
     * and a slug of the wrong format are 400, a slug already stored is 409;
     * a value the record cannot take (a non-string text field, a NaN number)
     * or an id already in use is 500. `newId` is the id the store assigns.
     */
    method Create(b: MovieBody, newId: Id, now: int) returns (r: Result<Movie>)
      requires Valid()
      requires IsCanonicalId(newId)
      modifies this
      ensures Valid()
      ensures !RequiredPresent(b) ==> r == Err(BadRequest)
      ensures RequiredPresent(b) && !IsSlug(ToString(b.slug)) ==> r == Err(BadRequest)
      ensures RequiredPresent(b) && IsSlug(ToString(b.slug)) && HasSlug(old(docs), ToString(b.slug)) ==> r == Err(Conflict)
      ensures RequiredPresent(b) && IsSlug(ToString(b.slug)) && !HasSlug(old(docs), ToString(b.slug)) && r.Err? ==> r == Err(ServerError)
      ensures r.Ok? <==> RequiredPresent(b) && IsSlug(ToString(b.slug)) && !HasSlug(old(docs), ToString(b.slug))
                         && NewMovie(b, newId, now).Ok? && IndexOf(old(docs), newId).None?
      ensures r.Err? ==> docs == old(docs)
      ensures r.Ok? ==> r.value == NewMovie(b, newId, now).value && docs == old(docs) + [r.value]
      ensures r.Ok? ==> b.slug.Str? && r.value.slug == b.slug.s
      ensures r.Ok? ==> && b.title.Str? && r.value.title == Trim(b.title.s)
                        && b.description.Str? && r.value.description == Trim(b.description.s)
                        && b.poster.Str? && r.value.poster == Trim(b.poster.s)
                        && b.redirectUrl.Str? && r.value.redirectUrl == Trim(b.redirectUrl.s)
      ensures r.Ok? ==> && OptionalNumber(b.releaseDate) == Ok(r.value.releaseDate)
                        && OptionalNumber(b.releaseYear) == Ok(r.value.releaseYear)
                        && OptionalNumber(b.duration) == Ok(r.value.duration)
                        && RatingOf(b.rating) == Ok(r.value.rating)
                        && StatusOf(b.status) == Ok(r.value.status)
                        && r.value.isTrending == Truthy(b.isTrending)
                        && r.value.language == NormalizeList(b.language)
                        && r.value.quality == NormalizeList(b.quality)
      ensures SlugsUnique(old(docs)) ==> SlugsUnique(docs)
    {
      if !RequiredPresent(b) {
        return Err(BadRequest);
      }
      var slug := ToString(b.slug);
      if !IsSlug(slug) {
        return Err(BadRequest);
      }
      if HasSlug(docs, slug) {
        return Err(Conflict);
      }
      var created := NewMovie(b, newId, now);
      if created.Err? {
        return Err(ServerError);
      }
      if IndexOf(docs, newId).Some? {
        return Err(ServerError);
      }
      var m := created.value;
      NewMovieSlug(b, newId, now);
      NewMovieTrimmed(b, newId, now);
      NewMovieValues(b, newId, now);
      NewMovieDefaults(b, newId, now);
      AppendKeepsIds(docs, m);
      docs := docs + [m];
      return Ok(m);
    }

    /**
     * `handleUpdateMovie`. A slug in the body is checked for format and for
     * another record holding it before the record is looked up, so a taken
     * slug is 409 even for an id that does not exist. A malformed id is a
     * cast error of the store (500); an unknown one is 404.
     */
    method Update(id: string, b: MovieBody, now: int) returns (r: Result<Movie>)
      requires Valid()
      modifies this
      ensures Valid()
      ensures id == "" ==> r == Err(BadRequest)
      ensures id != "" && PatchTrimThrows(b) ==> r == Err(ServerError)
      ensures id != "" && !PatchTrimThrows(b) && Truthy(b.slug) && !IsSlug(ToString(b.slug)) ==> r == Err(BadRequest)
      ensures (id != "" && !PatchTrimThrows(b) && Truthy(b.slug) && IsSlug(ToString(b.slug)) && IsObjectId(id)
               && SlugHeldByOther(old(docs), ToString(b.slug), CanonicalId(id))) ==> r == Err(Conflict)
      ensures r == Err(NotFound) <==>
                id != "" && !PatchTrimThrows(b) && UpdateSlugAccepted(old(docs), id, b) && IsObjectId(id)
                && PatchCasts(PatchOf(b)) && IndexOf(old(docs), CanonicalId(id)).None?
      ensures r.Ok? <==>
                id != "" && !PatchTrimThrows(b) && UpdateSlugAccepted(old(docs), id, b) && IsObjectId(id)
                && PatchCasts(PatchOf(b)) && IndexOf(old(docs), CanonicalId(id)).Some?
      ensures r.Err? ==> docs == old(docs)
      ensures r.Ok? ==>
                var k := IndexOf(old(docs), CanonicalId(id)).value;
                && r.value == ApplyPatch(old(docs)[k], PatchOf(b), now)
                && docs == old(docs)[k := r.value]
      ensures SlugsUnique(old(docs)) ==> SlugsUnique(docs)
    {
      if id == "" {
        return Err(BadRequest);
      }
      if PatchTrimThrows(b) {
        return Err(ServerError);
      }
      var patch := PatchOf(b);
      if Truthy(b.slug) {
        var slug := ToString(b.slug);
        if !IsSlug(slug) {
          return Err(BadRequest);
        }
        if !IsObjectId(id) {
          return Err(ServerError);
        }
        if SlugHeldByOther(docs, slug, CanonicalId(id)) {
          return Err(Conflict);
        }
        if !b.slug.Str? {
          return Err(ServerError);
        }
        SlugNormalisationIsIdentity(b.slug.s);
      }
      if !IsObjectId(id) {
        return Err(ServerError);
      }
      if !PatchCasts(patch) {
        return Err(ServerError);
      }
      var found := IndexOf(docs, CanonicalId(id));
      if found.None? {
        return Err(NotFound);
      }
      var k := found.value;
      var updated := ApplyPatch(docs[k], patch, now);
      ReplaceKeepsIds(docs, k, updated);
      UpdateKeepsSlugsUnique(docs, k, b, now, id);
      docs := docs[k := updated];
      return Ok(updated);
    }

    /**
     * `handleDeleteMovie`: the id comes from the body. A falsy id is 400, one
     * the store cannot cast 500, one that selects no record 404; otherwise
     * the first selected record is removed. An array id is read as `$in`.
     */
    method Delete(id: JsValue) returns (r: Result<Deleted>)
      requires Valid()
      modifies this
      ensures Valid()
      ensures !Truthy(id) ==> r == Err(BadRequest)
      ensures Truthy(id) && DeleteIds(id).None? ==> r == Err(ServerError)
      ensures r == Err(NotFound) <==>
                Truthy(id) && DeleteIds(id).Some? && IndexOfAny(old(docs), DeleteIds(id).value).None?
      ensures r.Ok? <==> Truthy(id) && DeleteIds(id).Some? && IndexOfAny(old(docs), DeleteIds(id).value).Some?
      ensures r.Err? ==> docs == old(docs)
      ensures r.Ok? ==>
                var k := IndexOfAny(old(docs), DeleteIds(id).value).value;
                && docs == RemoveAt(old(docs), k)
                && r.value == Deleted(old(docs)[k].title + " deleted successfully", old(docs)[k].id)
                && forall m :: m in docs <==> m in old(docs) && m.id != old(docs)[k].id
      ensures id.Str? && IsObjectId(id.s) ==>
                (r.Ok? <==> IndexOf(old(docs), CanonicalId(id.s)).Some?)
                && (r.Ok? ==> r.value.movieId == CanonicalId(id.s))
      ensures SlugsUnique(old(docs)) ==> SlugsUnique(docs)
    {
      if !Truthy(id) {
        return Err(BadRequest);
      }
      var ids := DeleteIds(id);
      if ids.None? {
        return Err(ServerError);
      }
      if id.Str? {
        IndexOfAnySingle(docs, CanonicalId(id.s));
      }
      var found := IndexOfAny(docs, ids.value);
      if found.None? {
        return Err(NotFound);
      }
      var k := found.value;
      var gone := docs[k];
      RemoveAtKeepsOthers(docs, k);
      RemoveAtKeepsIds(docs, k);
      if SlugsUnique(docs) {
        RemoveAtKeepsSlugsUnique(docs, k);
      }
      docs := RemoveAt(docs, k);
      return Ok(Deleted(gone.title + " deleted successfully", gone.id));
    }

    /** `handleGetMovieById`: an empty or malformed id is 400, an unknown one 404. */
    method GetById(id: string) returns (r: Result<Movie>)
      requires Valid()
      ensures !IsObjectId(id) ==> r == Err(BadRequest)
      ensures IsObjectId(id) ==> (r.Ok? <==> IndexOf(docs, CanonicalId(id)).Some?)
      ensures IsObjectId(id) && r.Err? ==> r == Err(NotFound)
      ensures r.Ok? ==> r.value in docs && r.value.id == CanonicalId(id)
    {
      if id == "" {
        return Err(BadRequest);
      }
      if !IsObjectId(id) {
        return Err(BadRequest);
      }
      var found := IndexOf(docs, CanonicalId(id));
      if found.None? {
        return Err(NotFound);
      }
      return Ok(docs[found.value]);
    }

    /**
     * `handleGetAllMovie`: the handler assembles the `match` and the sort
     * stage from the query, and the store runs match, sort, skip and limit.
     */
    method ListMovies(q: Query) returns (r: Result<MoviePage>)
      ensures r == Listing(docs, q)
    {
      var page := PageOf(q);
      var limit := LimitOf(q);
      var mt, stage := BuildMatch(q);
      if limit <= 0 {
        return Err(ServerError);
      }
      var skip := SkipOf(page, limit);
      FilterCongruence(docs, m => Matches(mt, m), QueryFilter(q));
      var movies := Window(SortDesc(Filter(docs, m => Matches(mt, m)), KeyOf(stage)), skip, limit);
      return Ok(MoviePage(page, limit, |movies|, |movies| == limit, movies));
    }

    /**
     * `handleAdminDashboard`: the status counts start at 0 and each group of
     * the `statusCounts` facet overwrites its own; the total is the number of
     * records and the recent list the five newest, projected.
     */
    method AdminDashboard() returns (stats: DashboardStats, recent: seq<RecentMovie>)
      ensures stats.totalMovies == |docs|
      ensures stats.publishedMovies == CountStatus(docs, "published")
      ensures stats.draftMovies == CountStatus(docs, "draft")
      ensures stats.blockedMovies == CountStatus(docs, "blocked")
      ensures recent == RecentMovies(docs)
    {
      var groups := StatusGroups(docs);
      stats := DashboardStats(|docs|, 0, 0, 0);
      for i := 0 to |groups|
        invariant stats.totalMovies == |docs|
        invariant stats.publishedMovies == GroupCountSoFar(groups, i, "published")
        invariant stats.draftMovies == GroupCountSoFar(groups, i, "draft")
        invariant stats.blockedMovies == GroupCountSoFar(groups, i, "blocked")
      {
        var item := groups[i];
        if item.status == "published" {
          stats := stats.(publishedMovies := item.count);
        }
        if item.status == "draft" {
          stats := stats.(draftMovies := item.count);
        }
        if item.status == "blocked" {
          stats := stats.(blockedMovies := item.count);
        }
      }
      GroupCountOfAll(docs, "published");
      GroupCountOfAll(docs, "draft");
      GroupCountOfAll(docs, "blocked");
      recent := RecentMovies(docs);
    }

    /**
     * `handleNotification`: the entries for the newest published records, one
     * relative time each, with `total` and `unreadCount` both the entry count.
     * `yearOf` stands for the calendar year of a creation time.
     */
    method Notifications(now: int, yearOf: int -> int) returns (feed: FeedResponse)
      ensures feed.data == Feed(docs, now, yearOf)
      ensures feed.total == feed.unreadCount == |feed.data| <= 10
    {
      var src := FeedSource(docs);
      ghost var expected := Feed(docs, now, yearOf);
      var data: seq<Notification> := [];
      for i := 0 to |src|
        invariant data == expected[..i]
      {
        var m := src[i];
        var time := GetTimeAgo(now, m.createdAt);
        data := data + [FormatNotification(m, yearOf(m.createdAt), time)];
      }
      assert data == expected;
      FeedSourceMeaning(docs);
      return FeedResponse(|data|, |data|, data);
    }
  }

  /** The count the last group with status `s` among the first `i` carries, or 0 when there is none. */
  function GroupCountSoFar(groups: seq<StatusGroup>, i: nat, s: string): nat
    requires i <= |groups|
  {
    if i == 0 then 0
    else if groups[i - 1].status == s then groups[i - 1].count
    else GroupCountSoFar(groups, i - 1, s)
  }

  /** Over all the groups, that is the number of records with status `s`, 0 included. */
  lemma GroupCountOfAll(docs: seq<Movie>, s: string)
    ensures GroupCountSoFar(StatusGroups(docs), |StatusGroups(docs)|, s) == CountStatus(docs, s)
  {
    var g := StatusGroups(docs);
    GroupCountSoFarIs(g, |g|, s, CountStatus(docs, s));
  }

  lemma {:induction false} GroupCountSoFarIs(groups: seq<StatusGroup>, i: nat, s: string, c: nat)
    requires i <= |groups|
    requires forall j :: 0 <= j < |groups| && groups[j].status == s ==> groups[j].count == c
    requires c != 0 ==> exists j :: 0 <= j < i && groups[j].status == s
    ensures GroupCountSoFar(groups, i, s) == c
  {
    if i > 0 && groups[i - 1].status != s {
      GroupCountSoFarIs(groups, i - 1, s, c);
    }
  }

  /** An update that passed the slug check keeps slugs unique. */
  lemma UpdateKeepsSlugsUnique(docs: seq<Movie>, k: nat, b: MovieBody, now: int, id: string)
    requires k < |docs| && DistinctIds(docs) && IsObjectId(id) && docs[k].id == CanonicalId(id)
    requires PatchCasts(PatchOf(b))
    requires UpdateSlugAccepted(docs, id, b)
    ensures SlugsUnique(docs) ==> SlugsUnique(docs[k := ApplyPatch(docs[k], PatchOf(b), now)])
  {
    var updated := ApplyPatch(docs[k], PatchOf(b), now);
    PatchSlug(docs[k], b, now);
    if SlugsUnique(docs) && Truthy(b.slug) {
      forall j | 0 <= j < |docs| && j != k
        ensures docs[j].slug != updated.slug
      {
        assert docs[j].id != CanonicalId(id);
      }
    }
  }
}
