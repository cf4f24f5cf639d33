/**
 * What the movie handlers compute from the stored records, as functions of the
 * collection: lookups by id and slug, removal, the listing page, the dashboard
 * figures and the notification feed's source records.
 */
module MovieStore {
  import opened Common
  import opened JsValues
  import opened Ordering
  import opened ObjectIds
  import opened MovieSchema
  import opened MovieQuery
  import opened MovieNotify

  // ---------------------------------------------------------------- the collection

  predicate DistinctIds(docs: seq<Movie>) {
    forall i, j :: 0 <= i < j < |docs| ==> docs[i].id != docs[j].id
  }

  predicate CanonicalIds(docs: seq<Movie>) {
    forall k :: 0 <= k < |docs| ==> IsCanonicalId(docs[k].id)
  }

  /** What the unique index on `slug` would keep; the handlers' own checks preserve it. */
  predicate SlugsUnique(docs: seq<Movie>) {
    forall i, j :: 0 <= i < j < |docs| ==> docs[i].slug != docs[j].slug
  }

  /** The position of the record with `id`, if any. */
  function IndexOf(docs: seq<Movie>, id: Id): (r: Option<nat>)
    ensures r.Some? ==> r.value < |docs| && docs[r.value].id == id
    ensures r.None? <==> forall k :: 0 <= k < |docs| ==> docs[k].id != id
  {
    if docs == [] then None
    else if docs[0].id == id then Some(0)
    else match IndexOf(docs[1..], id)
      case None =>
        assert forall k :: 1 <= k < |docs| ==> docs[k] == docs[1..][k - 1];
        None
      case Some(k) => Some(k + 1)
  }

  /** A record whose id is one of `ids`; the model picks the first in insertion order. */
  function IndexOfAny(docs: seq<Movie>, ids: set<Id>): (r: Option<nat>)
    ensures r.Some? ==> r.value < |docs| && docs[r.value].id in ids
    ensures r.Some? ==> forall j :: 0 <= j < r.value ==> docs[j].id !in ids
    ensures r.None? <==> forall k :: 0 <= k < |docs| ==> docs[k].id !in ids
  {
    if docs == [] then None
    else if docs[0].id in ids then Some(0)
    else match IndexOfAny(docs[1..], ids)
      case None =>
        assert forall k :: 1 <= k < |docs| ==> docs[k] == docs[1..][k - 1];
        None
      case Some(k) =>
        assert forall j :: 1 <= j < k + 1 ==> docs[j] == docs[1..][j - 1];
        Some(k + 1)
  }

  /** Looking for any of one id is looking for that id. */
  lemma {:induction false} IndexOfAnySingle(docs: seq<Movie>, id: Id)
    ensures IndexOfAny(docs, {id}) == IndexOf(docs, id)
  {
    if docs != [] && docs[0].id != id {
      IndexOfAnySingle(docs[1..], id);
    }
  }

  /** A value the store can cast to an id inside `$in`: an ObjectId string, or `null`, which matches no record. */
  predicate IdElementCastable(v: JsValue) {
    v.Null? || v.Undefined? || (v.Str? && IsObjectId(v.s))
  }

  /**
   * The ids `findByIdAndDelete(id)` selects, or `None` when the store cannot
   * cast `id`: a string must be an ObjectId, and an array is read as `$in`
   * over its castable elements. Any other value is a cast error.
   */
  function DeleteIds(id: JsValue): (r: Option<set<Id>>)
    ensures id.Str? ==> (r.Some? <==> IsObjectId(id.s))
    ensures id.Str? && IsObjectId(id.s) ==> r == Some({CanonicalId(id.s)})
    ensures !id.Str? && !id.Arr? ==> r.None?
    ensures id.Arr? ==> (r.Some? <==> forall k :: 0 <= k < |id.items| ==> IdElementCastable(id.items[k]))
    ensures id.Arr? && r.Some? ==>
              forall k :: 0 <= k < |id.items| && id.items[k].Str? ==> CanonicalId(id.items[k].s) in r.value
    ensures id.Arr? && r.Some? ==>
              forall x :: x in r.value ==> exists k :: 0 <= k < |id.items| && id.items[k].Str? && IsObjectId(id.items[k].s) && x == CanonicalId(id.items[k].s)
  {
    match id
    case Str(s) => if IsObjectId(s) then Some({CanonicalId(s)}) else None
    case Arr(items) =>
      if forall k :: 0 <= k < |items| ==> IdElementCastable(items[k]) then
        Some(set k | 0 <= k < |items| && items[k].Str? && IsObjectId(items[k].s) :: CanonicalId(items[k].s))
      else None
    case _ => None
  }

  /** A one-element array id selects what its element selects. */
  lemma DeleteIdsOfSingleton(v: JsValue)
    requires v.Str?
    ensures DeleteIds(Arr([v])) == DeleteIds(v)
  {
    var items := [v];
    if IsObjectId(v.s) {
      assert IdElementCastable(items[0]);
      var ids := DeleteIds(Arr(items)).value;
      assert CanonicalId(v.s) in ids;
      forall x | x in ids
        ensures x == CanonicalId(v.s)
      {
        var k :| 0 <= k < |items| && items[k].Str? && IsObjectId(items[k].s) && x == CanonicalId(items[k].s);
        assert k == 0;
      }
      assert ids == {CanonicalId(v.s)};
    } else {
      assert !IdElementCastable(items[0]);
    }
  }

  /** Replacing a record by one with the same id keeps the ids distinct and canonical. */
  lemma ReplaceKeepsIds(docs: seq<Movie>, k: nat, u: Movie)
    requires k < |docs| && DistinctIds(docs) && CanonicalIds(docs) && u.id == docs[k].id
    ensures DistinctIds(docs[k := u]) && CanonicalIds(docs[k := u])
  {
    var r := docs[k := u];
    assert forall j :: 0 <= j < |r| ==> r[j].id == docs[j].id;
  }

  /** Appending a record with a new canonical id keeps the ids distinct and canonical, and a new slug keeps the slugs unique. */
  lemma AppendKeepsIds(docs: seq<Movie>, m: Movie)
    requires DistinctIds(docs) && CanonicalIds(docs) && IsCanonicalId(m.id)
    requires IndexOf(docs, m.id).None?
    ensures DistinctIds(docs + [m]) && CanonicalIds(docs + [m])
    ensures SlugsUnique(docs) && !HasSlug(docs, m.slug) ==> SlugsUnique(docs + [m])
  {
    var r := docs + [m];
    assert forall j :: 0 <= j < |docs| ==> r[j] == docs[j];
    assert r[|docs|] == m;
  }

  /** `findOne({ slug })`. */
  predicate HasSlug(docs: seq<Movie>, slug: string) {
    exists k | 0 <= k < |docs| :: docs[k].slug == slug
  }

  /** `findOne({ slug, _id: { $ne: id } })`. */
  predicate SlugHeldByOther(docs: seq<Movie>, slug: string, id: Id) {
    exists k | 0 <= k < |docs| :: docs[k].slug == slug && docs[k].id != id
  }

  /** Removing one record of a collection with distinct ids keeps exactly the records with other ids. */
  lemma RemoveAtKeepsOthers(docs: seq<Movie>, k: nat)
    requires k < |docs| && DistinctIds(docs)
    ensures forall m :: m in RemoveAt(docs, k) <==> m in docs && m.id != docs[k].id
  {
    var r := RemoveAt(docs, k);
    RemoveAtIndices(docs, k);
    forall m | m in docs && m.id != docs[k].id
      ensures m in r
    {
      var j :| 0 <= j < |docs| && docs[j] == m;
      if j < k {
        assert r[j] == m;
      } else {
        assert r[j - 1] == m;
      }
    }
    forall m | m in r
      ensures m in docs && m.id != docs[k].id
    {
      var j :| 0 <= j < |r| && r[j] == m;
      var i := if j < k then j else j + 1;
      assert docs[i] == m && i != k;
    }
  }

  lemma RemoveAtKeepsIds(docs: seq<Movie>, k: nat)
    requires k < |docs| && DistinctIds(docs) && CanonicalIds(docs)
    ensures DistinctIds(RemoveAt(docs, k)) && CanonicalIds(RemoveAt(docs, k))
  {
    RemoveAtIndices(docs, k);
    var r := RemoveAt(docs, k);
    forall i, j | 0 <= i < j < |r|
      ensures r[i].id != r[j].id
    {
      var i' := if i < k then i else i + 1;
      var j' := if j < k then j else j + 1;
      assert r[i] == docs[i'] && r[j] == docs[j'] && i' < j';
    }
  }

  lemma RemoveAtKeepsSlugsUnique(docs: seq<Movie>, k: nat)
    requires k < |docs| && SlugsUnique(docs)
    ensures SlugsUnique(RemoveAt(docs, k))
  {
    RemoveAtIndices(docs, k);
    var r := RemoveAt(docs, k);
    forall i, j | 0 <= i < j < |r|
      ensures r[i].slug != r[j].slug
    {
      var i' := if i < k then i else i + 1;
      var j' := if j < k then j else j + 1;
      assert r[i] == docs[i'] && r[j] == docs[j'] && i' < j';
    }
  }

  // ---------------------------------------------------------------- listing

  function QueryFilter(q: Query): Movie -> bool {
    m => SatisfiesQuery(q, m)
  }

  function StageOf(q: Query): SortStage {
    if q.isTrending == Some("true") then ByTrendingThenNewest else ByNewest
  }

  /** `(page - 1) * limit`. */
  function SkipOf(page: int, limit: int): (skip: nat)
    requires page >= 1 && limit >= 1
    ensures skip == (page - 1) * limit
  {
    (page - 1) * limit
  }

  /** The listing response body: page, limit, count, hasMore and the movies. */
  datatype MoviePage = MoviePage(page: int, limit: int, count: int, hasMore: bool, movies: seq<Movie>)

  /**
   * The listing for a query: the admitted records in sort order, from index
   * `(page - 1) * limit`, at most `limit` of them. The store refuses a
   * `$limit` that is not positive.
   */
  function Listing(docs: seq<Movie>, q: Query): Result<MoviePage> {
    var page := PageOf(q);
    var limit := LimitOf(q);
    if limit <= 0 then Err(ServerError)
    else
      var movies := Window(SortDesc(Filter(docs, QueryFilter(q)), KeyOf(StageOf(q))), SkipOf(page, limit), limit);
      Ok(MoviePage(page, limit, |movies|, |movies| == limit, movies))
  }

  /**
   * A listing fails only for a limit that is not positive; otherwise its page
   * is at least 1, it holds at most `limit` records, `hasMore` says the page
   * is full, and every record is stored, satisfies every filter of the query
   * and is no older than the ones after it.
   */
  lemma ListingMeaning(docs: seq<Movie>, q: Query)
    ensures Listing(docs, q).Err? <==> LimitOf(q) <= 0
    ensures Listing(docs, q).Ok? ==>
              var p := Listing(docs, q).value;
              && p.page == PageOf(q) >= 1 && 1 <= p.limit == LimitOf(q) <= 50
              && p.count == |p.movies| <= p.limit
              && (p.hasMore <==> p.count == p.limit)
              && (forall k :: 0 <= k < |p.movies| ==> p.movies[k] in docs && SatisfiesQuery(q, p.movies[k]))
              && NewestFirst(p.movies)
    ensures Listing(docs, q).Ok? ==>
              var p := Listing(docs, q).value;
              && (p.page - 1) * p.limit >= 0
              && IsPage(p.movies, SortDesc(Filter(docs, QueryFilter(q)), KeyOf(StageOf(q))), (p.page - 1) * p.limit, p.limit)
  {
    if LimitOf(q) > 0 {
      var p := Listing(docs, q).value;
      var sorted := SortDesc(Filter(docs, QueryFilter(q)), KeyOf(StageOf(q)));
      ListingIsPage(docs, q);
      WindowMembers(docs, q, sorted, SkipOf(p.page, p.limit), p.limit);
      WindowDescending(sorted, KeyOf(StageOf(q)), SkipOf(p.page, p.limit), p.limit);
      StageOrdersNewestFirst(q, p.movies);
    }
  }

  /** A listing with a positive limit is the page of the sorted admitted records at `(page - 1) * limit`. */
  lemma ListingIsPage(docs: seq<Movie>, q: Query)
    requires LimitOf(q) > 0
    ensures Listing(docs, q).Ok?
    ensures var p := Listing(docs, q).value;
            && (p.page - 1) * p.limit >= 0
            && IsPage(p.movies, SortDesc(Filter(docs, QueryFilter(q)), KeyOf(StageOf(q))), (p.page - 1) * p.limit, p.limit)
  {
    var p := Listing(docs, q).value;
    var sorted := SortDesc(Filter(docs, QueryFilter(q)), KeyOf(StageOf(q)));
    WindowIsPage(sorted, SkipOf(p.page, p.limit), p.limit);
  }

  /**
   * `page` is the part of `sorted` that starts at index `skip`: as many
   * records as remain there, up to `limit`, each at its own position.
   */
  predicate IsPage(page: seq<Movie>, sorted: seq<Movie>, skip: int, limit: int) {
    && |page| == (if skip >= |sorted| then 0 else if skip + limit <= |sorted| then limit else |sorted| - skip)
    && forall k :: 0 <= k < |page| ==> 0 <= skip + k < |sorted| && page[k] == sorted[skip + k]
  }

  /** The window of the sorted records that a listing returns is exactly that page. */
  lemma WindowIsPage(sorted: seq<Movie>, skip: nat, limit: nat)
    ensures IsPage(Window(sorted, skip, limit), sorted, skip, limit)
  {
  }

  /** Every record of a page of the sorted admitted records is stored and admitted. */
  lemma WindowMembers(docs: seq<Movie>, q: Query, sorted: seq<Movie>, skip: nat, limit: nat)
    requires sorted == SortDesc(Filter(docs, QueryFilter(q)), KeyOf(StageOf(q)))
    ensures forall k :: 0 <= k < |Window(sorted, skip, limit)| ==>
              Window(sorted, skip, limit)[k] in docs && SatisfiesQuery(q, Window(sorted, skip, limit)[k])
  {
    var w := Window(sorted, skip, limit);
    var admitted := Filter(docs, QueryFilter(q));
    forall k | 0 <= k < |w|
      ensures w[k] in docs && SatisfiesQuery(q, w[k])
    {
      assert w[k] == sorted[skip + k];
      assert w[k] in multiset(sorted);
      assert w[k] in multiset(admitted);
      var j :| 0 <= j < |admitted| && admitted[j] == w[k];
    }
  }

  /** Every record passes a predicate that holds of all of them. */
  lemma {:induction false} FilterAll(s: seq<Movie>, p: Movie -> bool)
    requires forall k :: 0 <= k < |s| ==> p(s[k])
    ensures Filter(s, p) == s
  {
    if s != [] {
      assert forall k :: 0 <= k < |s[1..]| ==> s[1..][k] == s[k + 1];
      FilterAll(s[1..], p);
    }
  }

  /** With no parameters the listing is the ten newest records, newest first. */
  lemma ListingWithoutParameters(docs: seq<Movie>)
    ensures Listing(docs, Query(None, None, None, None, None, None, None, None, None)).Ok?
    ensures Listing(docs, Query(None, None, None, None, None, None, None, None, None)).value.movies
            == Take(SortDesc(docs, NewestKey), 10)
  {
    var q := Query(None, None, None, None, None, None, None, None, None);
    forall k | 0 <= k < |docs|
      ensures QueryFilter(q)(docs[k])
    {
      NoFilterAdmitsAll(q, docs[k]);
    }
    FilterAll(docs, QueryFilter(q));
  }

  // ---------------------------------------------------------------- dashboard

  /** The number of records with status `s`. */
  function CountStatus(docs: seq<Movie>, s: string): (r: nat)
    ensures r <= |docs|
    ensures r == 0 <==> forall k :: 0 <= k < |docs| ==> docs[k].status != s
  {
    if docs == [] then 0
    else
      assert forall k :: 1 <= k < |docs| ==> docs[k] == docs[1..][k - 1];
      (if docs[0].status == s then 1 else 0) + CountStatus(docs[1..], s)
  }

  /** The distinct statuses that occur, one `$group` key each. */
  function DistinctStatuses(docs: seq<Movie>): (r: seq<string>)
    ensures forall i, j :: 0 <= i < j < |r| ==> r[i] != r[j]
    ensures forall k :: 0 <= k < |docs| ==> docs[k].status in r
    ensures forall i :: 0 <= i < |r| ==> CountStatus(docs, r[i]) > 0
  {
    if docs == [] then []
    else
      var rest := DistinctStatuses(docs[1..]);
      assert forall k :: 1 <= k < |docs| ==> docs[k] == docs[1..][k - 1];
      if docs[0].status in rest then rest else [docs[0].status] + rest
  }

  datatype StatusGroup = StatusGroup(status: string, count: nat)

  /** The `statusCounts` facet: one group per status, with how many records carry it. */
  function StatusGroups(docs: seq<Movie>): (g: seq<StatusGroup>)
    ensures forall i :: 0 <= i < |g| ==> g[i].count == CountStatus(docs, g[i].status)
    ensures forall s :: CountStatus(docs, s) > 0 ==> exists i :: 0 <= i < |g| && g[i].status == s
  {
    var ds := DistinctStatuses(docs);
    var g := seq(|ds|, i requires 0 <= i < |ds| => StatusGroup(ds[i], CountStatus(docs, ds[i])));
    forall s | CountStatus(docs, s) > 0
      ensures exists i :: 0 <= i < |g| && g[i].status == s
    {
      var k :| 0 <= k < |docs| && docs[k].status == s;
      var i :| 0 <= i < |ds| && ds[i] == s;
      assert g[i].status == s;
    }
    g
  }

  /** When every record's status is in the enum, the three status counts add up to the total. */
  lemma {:induction false} StatusCountsSum(docs: seq<Movie>)
    requires forall k :: 0 <= k < |docs| ==> docs[k].status in StatusValues
    ensures CountStatus(docs, "published") + CountStatus(docs, "draft") + CountStatus(docs, "blocked") == |docs|
  {
    if docs != [] {
      assert forall k :: 0 <= k < |docs[1..]| ==> docs[1..][k] == docs[k + 1];
      StatusCountsSum(docs[1..]);
    }
  }

  /** A record as the `recentMovies` facet projects it. */
  datatype RecentMovie = RecentMovie(
    id: Id, title: string, slug: string, poster: string, status: string,
    rating: int, isTrending: bool, createdAt: int)

  function Project(m: Movie): (p: RecentMovie)
    ensures p.id == m.id && p.title == m.title && p.slug == m.slug && p.createdAt == m.createdAt
  {
    RecentMovie(m.id, m.title, m.slug, m.poster, m.status, m.rating, m.isTrending, m.createdAt)
  }

  /** `$sort: { createdAt: -1 }` then `$limit: 5`. */
  function NewestFive(docs: seq<Movie>): seq<Movie> {
    Take(SortDesc(docs, NewestKey), 5)
  }

  /** The `recentMovies` facet: the newest five records, projected. */
  function RecentMovies(docs: seq<Movie>): (r: seq<RecentMovie>)
    ensures |r| == |NewestFive(docs)|
    ensures forall k :: 0 <= k < |r| ==> r[k] == Project(NewestFive(docs)[k])
  {
    var top := NewestFive(docs);
    seq(|top|, k requires 0 <= k < |top| => Project(top[k]))
  }

  /**
   * The recent list holds the projections of five stored records (all of
   * them when fewer), newest first, none older than a record left out.
   */
  lemma RecentMoviesMeaning(docs: seq<Movie>)
    ensures var r := RecentMovies(docs);
            && |r| == (if |docs| < 5 then |docs| else 5)
            && (forall k :: 0 <= k < |r| ==> exists m :: m in docs && r[k] == Project(m))
            && (forall i, j :: 0 <= i < j < |r| ==> r[i].createdAt >= r[j].createdAt)
            && forall k, j :: 0 <= k < |r| && 0 <= j < |docs| && docs[j] !in multiset(NewestFive(docs)) ==>
                 r[k].createdAt >= docs[j].createdAt
  {
    RecentAreNewest(docs);
    RecentProjectsStored(docs);
    RecentProjectsDominate(docs);
    RecentProjectsOrdered(docs);
  }

  lemma RecentProjectsOrdered(docs: seq<Movie>)
    requires NewestFirst(NewestFive(docs))
    ensures forall i, j :: 0 <= i < j < |RecentMovies(docs)| ==> RecentMovies(docs)[i].createdAt >= RecentMovies(docs)[j].createdAt
  {
    var top := NewestFive(docs);
    var r := RecentMovies(docs);
    forall i, j | 0 <= i < j < |r|
      ensures r[i].createdAt >= r[j].createdAt
    {
      assert r[i].createdAt == top[i].createdAt && r[j].createdAt == top[j].createdAt;
    }
  }

  lemma RecentProjectsStored(docs: seq<Movie>)
    requires multiset(NewestFive(docs)) <= multiset(docs)
    ensures forall k :: 0 <= k < |RecentMovies(docs)| ==> exists m :: m in docs && RecentMovies(docs)[k] == Project(m)
  {
    var top := NewestFive(docs);
    var r := RecentMovies(docs);
    forall k | 0 <= k < |r|
      ensures exists m :: m in docs && r[k] == Project(m)
    {
      assert top[k] in multiset(top);
      assert top[k] in docs;
    }
  }

  lemma RecentProjectsDominate(docs: seq<Movie>)
    requires var top := NewestFive(docs);
             forall i, x :: 0 <= i < |top| && x in multiset(docs) - multiset(top) ==> top[i].createdAt >= x.createdAt
    ensures forall k, j :: 0 <= k < |RecentMovies(docs)| && 0 <= j < |docs| && docs[j] !in multiset(NewestFive(docs)) ==>
              RecentMovies(docs)[k].createdAt >= docs[j].createdAt
  {
    var top := NewestFive(docs);
    forall k, j | 0 <= k < |top| && 0 <= j < |docs| && docs[j] !in multiset(top)
      ensures RecentMovies(docs)[k].createdAt >= docs[j].createdAt
    {
      assert docs[j] in multiset(docs) - multiset(top);
    }
  }

  /**
   * The recent list holds the five newest records (all of them when fewer),
   * newest first: none of the records left out is newer than one kept.
   */
  lemma RecentAreNewest(docs: seq<Movie>)
    ensures var top := NewestFive(docs);
            && |top| == (if |docs| < 5 then |docs| else 5)
            && multiset(top) <= multiset(docs)
            && NewestFirst(top)
            && forall i, x :: 0 <= i < |top| && x in multiset(docs) - multiset(top) ==> top[i].createdAt >= x.createdAt
  {
    var top := NewestFive(docs);
    TakeKeepsLargest(docs, NewestKey, 5);
    NewestKeyOrder(top);
    forall i, x | 0 <= i < |top| && x in multiset(docs) - multiset(top)
      ensures top[i].createdAt >= x.createdAt
    {
      assert AtLeast(NewestKey(top[i]), NewestKey(x));
    }
  }

  // ---------------------------------------------------------------- notification feed

  predicate IsPublished(m: Movie) {
    m.status == "published"
  }

  /** `$match: { status: "published" }`, `$sort: { createdAt: -1 }`, `$limit: 10`. */
  function FeedSource(docs: seq<Movie>): seq<Movie> {
    Take(SortDesc(Filter(docs, IsPublished), NewestKey), 10)
  }

  /**
   * The feed holds at most ten stored records, all published, newest first,
   * and no published record left out is newer than one kept.
   */
  lemma FeedSourceMeaning(docs: seq<Movie>)
    ensures var src := FeedSource(docs);
            && |src| <= 10
            && (forall k :: 0 <= k < |src| ==> src[k] in docs && IsPublished(src[k]))
            && NewestFirst(src)
            && forall i, k :: (0 <= i < |src| && 0 <= k < |docs| && IsPublished(docs[k]) && docs[k] !in multiset(src))
                 ==> src[i].createdAt >= docs[k].createdAt
  {
    var published := Filter(docs, IsPublished);
    var src := FeedSource(docs);
    TakeKeepsLargest(published, NewestKey, 10);
    NewestKeyOrder(src);
    forall k | 0 <= k < |src|
      ensures src[k] in docs && IsPublished(src[k])
    {
      assert src[k] in multiset(published);
    }
    forall i, k | 0 <= i < |src| && 0 <= k < |docs| && IsPublished(docs[k]) && docs[k] !in multiset(src)
      ensures src[i].createdAt >= docs[k].createdAt
    {
      assert docs[k] in published;
      assert docs[k] in multiset(published) - multiset(src);
      assert AtLeast(NewestKey(src[i]), NewestKey(docs[k]));
    }
  }

  /** The feed entries for the source records at a given time, with `yearOf` the calendar year of a timestamp. */
  function Feed(docs: seq<Movie>, now: int, yearOf: int -> int): (r: seq<Notification>)
    ensures |r| == |FeedSource(docs)|
    ensures forall k :: 0 <= k < |r| ==>
              var m := FeedSource(docs)[k];
              r[k] == FormatNotification(m, yearOf(m.createdAt), TimeAgoText(ElapsedSeconds(now, m.createdAt)))
  {
    var src := FeedSource(docs);
    seq(|src|, k requires 0 <= k < |src| =>
      FormatNotification(src[k], yearOf(src[k].createdAt), TimeAgoText(ElapsedSeconds(now, src[k].createdAt))))
  }

  /** Each entry is unseen, names its movie, and is typed "trending" exactly for a trending movie. */
  lemma FeedEntries(docs: seq<Movie>, now: int, yearOf: int -> int)
    ensures var r := Feed(docs, now, yearOf);
            var src := FeedSource(docs);
            && |r| <= 10
            && forall k :: 0 <= k < |r| ==>
                 && !r[k].isSeen && r[k].id == src[k].id && r[k].link == src[k].redirectUrl
                 && (KindText(r[k].kind) == "trending" <==> src[k].isTrending)
  {
    FeedSourceMeaning(docs);
  }

  /** The response of the feed: the entries with their count twice over. */
  datatype FeedResponse = FeedResponse(total: nat, unreadCount: nat, data: seq<Notification>)
}
