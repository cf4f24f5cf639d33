/**
 * The listing handler's reading of the query string: page and limit clamping,
 * the `$match` filter it assembles from optional parameters and the sort stage
 * it picks.
 */
module MovieQuery {
  import opened Common
  import opened JsValues
  import opened Ordering
  import opened ObjectIds
  import opened MovieSchema

  /** The query parameters the listing reads; `None` is an absent parameter. */
  datatype Query = Query(
    page: Option<string>,
    limit: Option<string>,
    isTrending: Option<string>,
    status: Option<string>,
    language: Option<string>,
    quality: Option<string>,
    minRating: Option<string>,
    search: Option<string>,
    year: Option<string>)

  // ---------------------------------------------------------------- pagination

  /** `Math.max(parseInt(page) || 1, 1)`. */
  function PageOf(q: Query): (r: int)
    ensures r >= 1
    ensures ParseParam(q.page).Int? && ParseParam(q.page).i >= 1 ==> r == ParseParam(q.page).i
    ensures !(ParseParam(q.page).Int? && ParseParam(q.page).i >= 1) ==> r == 1
  {
    var n := ParseParam(q.page);
    var v := if NumTruthy(n) then n.i else 1;
    if v > 1 then v else 1
  }

  /** `Math.min(parseInt(limit) || 10, 50)`: there is no lower clamp. */
  function LimitOf(q: Query): (r: int)
    ensures r <= 50
    ensures !NumTruthy(ParseParam(q.limit)) ==> r == 10
    ensures NumTruthy(ParseParam(q.limit)) && ParseParam(q.limit).i <= 50 ==> r == ParseParam(q.limit).i
    ensures NumTruthy(ParseParam(q.limit)) && ParseParam(q.limit).i > 50 ==> r == 50
  {
    var n := ParseParam(q.limit);
    var v := if NumTruthy(n) then n.i else 10;
    if v < 50 then v else 50
  }

  /** An absent page and limit give the first ten records. */
  lemma DefaultPagination(q: Query)
    requires q.page.None? && q.limit.None?
    ensures PageOf(q) == 1 && LimitOf(q) == 10 && (PageOf(q) - 1) * LimitOf(q) == 0
  {
  }

  /** A negative limit passes through unclamped. */
  lemma NegativeLimitUnclamped(q: Query, n: nat)
    requires n > 0 && q.limit == Some("-" + NatToString(n))
    ensures LimitOf(q) == -(n as int)
  {
    ParseIntOfIntToString(-(n as int));
    assert IntToString(-(n as int)) == "-" + NatToString(n);
  }

  // ---------------------------------------------------------------- filter

  /**
   * The `match` object: a field is `Some` when the handler sets it. The two
   * numeric conditions hold the number `Number(param)` produced, NaN included.
   */
  datatype Match = Match(
    status: Option<string>,
    isTrending: Option<bool>,
    language: Option<string>,
    quality: Option<string>,
    minRating: Option<JsNum>,
    year: Option<JsNum>,
    search: Option<string>)

  const EmptyMatch := Match(None, None, None, None, None, None, None)

  /** How the store evaluates a `match` on one record; a comparison with NaN matches nothing. */
  predicate Matches(mt: Match, m: Movie) {
    && (mt.status.Some? ==> m.status == mt.status.value)
    && (mt.isTrending.Some? ==> m.isTrending == mt.isTrending.value)
    && (mt.language.Some? ==> mt.language.value in m.language)
    && (mt.quality.Some? ==> mt.quality.value in m.quality)
    && (mt.minRating.Some? ==> mt.minRating.value.Int? && m.rating >= mt.minRating.value.i)
    && (mt.year.Some? ==> mt.year.value.Int? && m.releaseYear == Some(mt.year.value.i))
    && (mt.search.Some? ==> ContainsIgnoreCase(m.title, mt.search.value))
  }

  /**
   * What the listing promises of each record it returns, read off the query
   * directly: an absent, empty or unrecognised parameter constrains nothing,
   * and a non-numeric `minRating` or `year` admits no record.
   */
  predicate SatisfiesQuery(q: Query, m: Movie) {
    && (q.status.Some? && q.status.value in StatusValues ==> m.status == q.status.value)
    && (q.isTrending == Some("true") ==> m.isTrending)
    && (q.isTrending == Some("false") ==> !m.isTrending)
    && (ParamTruthy(q.language) ==> q.language.value in m.language)
    && (ParamTruthy(q.quality) ==> q.quality.value in m.quality)
    && (ParamTruthy(q.minRating) ==>
          var n := NumberParam(q.minRating.value); n.Int? && m.rating >= n.i)
    && (ParamTruthy(q.year) ==>
          var n := NumberParam(q.year.value); n.Int? && m.releaseYear == Some(n.i))
    && (ParamTruthy(q.search) ==> ContainsIgnoreCase(m.title, q.search.value))
  }

  /** The `match` the handler assembles for a query. */
  function MatchOf(q: Query): Match {
    Match(
      status := if ParamTruthy(q.status) && q.status.value in StatusValues then q.status else None,
      isTrending := if q.isTrending == Some("true") then Some(true)
                    else if q.isTrending == Some("false") then Some(false) else None,
      language := if ParamTruthy(q.language) then q.language else None,
      quality := if ParamTruthy(q.quality) then q.quality else None,
      minRating := if ParamTruthy(q.minRating) then Some(NumberParam(q.minRating.value)) else None,
      year := if ParamTruthy(q.year) then Some(NumberParam(q.year.value)) else None,
      search := if ParamTruthy(q.search) then q.search else None)
  }

  /** The assembled `match` admits exactly the records the query describes. */
  lemma MatchOfMeaning(q: Query, m: Movie)
    ensures Matches(MatchOf(q), m) <==> SatisfiesQuery(q, m)
  {
  }

  /** A query without filter parameters admits every record. */
  lemma NoFilterAdmitsAll(q: Query, m: Movie)
    requires q.isTrending.None? && q.status.None? && q.language.None? && q.quality.None?
    requires q.minRating.None? && q.search.None? && q.year.None?
    ensures SatisfiesQuery(q, m)
  {
  }

  /** The two sort stages the listing uses. */
  datatype SortStage = ByNewest | ByTrendingThenNewest

  function NewestKey(m: Movie): Key {
    Key(m.createdAt, 0)
  }

  function TrendingKey(m: Movie): Key {
    Key(if m.isTrending then 1 else 0, m.createdAt)
  }

  function KeyOf(stage: SortStage): Movie -> Key {
    match stage
    case ByNewest => NewestKey
    case ByTrendingThenNewest => TrendingKey
  }

  /**
   * The handler's construction of `match` and `sortStage`, one parameter at a
   * time; the result admits exactly the records the query describes.
   */
  method BuildMatch(q: Query) returns (mt: Match, stage: SortStage)
    ensures mt == MatchOf(q)
    ensures forall m :: Matches(mt, m) <==> SatisfiesQuery(q, m)
    ensures stage == if q.isTrending == Some("true") then ByTrendingThenNewest else ByNewest
  {
    mt := EmptyMatch;
    if ParamTruthy(q.status) && q.status.value in StatusValues {
      mt := mt.(status := q.status);
    }
    if q.isTrending == Some("true") {
      mt := mt.(isTrending := Some(true));
    }
    if q.isTrending == Some("false") {
      mt := mt.(isTrending := Some(false));
    }
    if ParamTruthy(q.language) {
      mt := mt.(language := q.language);
    }
    if ParamTruthy(q.quality) {
      mt := mt.(quality := q.quality);
    }
    if ParamTruthy(q.minRating) {
      mt := mt.(minRating := Some(NumberParam(q.minRating.value)));
    }
    if ParamTruthy(q.year) {
      mt := mt.(year := Some(NumberParam(q.year.value)));
    }
    if ParamTruthy(q.search) {
      mt := mt.(search := q.search);
    }
    forall m | true
      ensures Matches(mt, m) <==> SatisfiesQuery(q, m)
    {
      MatchOfMeaning(q, m);
    }
    stage := ByNewest;
    if q.isTrending == Some("true") {
      stage := ByTrendingThenNewest;
    }
  }

  // ---------------------------------------------------------------- order

  ghost predicate NewestFirst(s: seq<Movie>) {
    forall i, j :: 0 <= i < j < |s| ==> s[i].createdAt >= s[j].createdAt
  }

  lemma NewestKeyOrder(s: seq<Movie>)
    requires Descending(s, NewestKey)
    ensures NewestFirst(s)
  {
    forall i, j | 0 <= i < j < |s|
      ensures s[i].createdAt >= s[j].createdAt
    {
      assert AtLeast(NewestKey(s[i]), NewestKey(s[j]));
    }
  }

  /** Among trending records, the trending-first order is the newest-first order. */
  lemma TrendingKeyOrder(s: seq<Movie>)
    requires forall k :: 0 <= k < |s| ==> s[k].isTrending
    requires Descending(s, TrendingKey)
    ensures NewestFirst(s)
  {
    forall i, j | 0 <= i < j < |s|
      ensures s[i].createdAt >= s[j].createdAt
    {
      assert AtLeast(TrendingKey(s[i]), TrendingKey(s[j]));
    }
  }

  /** Whatever the stage, the records the query admits come newest first. */
  lemma StageOrdersNewestFirst(q: Query, s: seq<Movie>)
    requires forall k :: 0 <= k < |s| ==> SatisfiesQuery(q, s[k])
    requires Descending(s, KeyOf(if q.isTrending == Some("true") then ByTrendingThenNewest else ByNewest))
    ensures NewestFirst(s)
  {
    if q.isTrending == Some("true") {
      TrendingKeyOrder(s);
    } else {
      NewestKeyOrder(s);
    }
  }

  /** Filtering by two predicates that agree everywhere gives the same records. */
  lemma {:induction false} FilterCongruence(s: seq<Movie>, p: Movie -> bool, p': Movie -> bool)
    requires forall m :: p(m) == p'(m)
    ensures Filter(s, p) == Filter(s, p')
  {
    if s != [] {
      FilterCongruence(s[1..], p, p');
    }
  }
}
