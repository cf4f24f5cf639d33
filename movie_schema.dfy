/**
 * The movie record (the Movie schema) and the pure helpers of the create and
 * update handlers: the slug rule, the two `normalizeArray` helpers, the
 * defaulting and coercion of a create body, and the `$set` patch an update
 * body produces.
 */
module MovieSchema {
  import opened Common
  import opened JsValues
  import opened ObjectIds

  datatype Movie = Movie(
    id: Id,
    title: string,
    slug: string,
    description: string,
    releaseDate: Option<int>,
    releaseYear: Option<int>,
    duration: Option<int>,
    language: seq<string>,
    poster: string,
    quality: seq<string>,
    redirectUrl: string,
    rating: int,
    status: string,
    isTrending: bool,
    createdAt: int,   // milliseconds since the epoch
    updatedAt: int)

  /** The `status` enum of the schema. */
  const StatusValues: seq<string> := ["draft", "published", "blocked"]

  /** The fields a create or update request body may carry. */
  datatype MovieBody = MovieBody(
    title: JsValue,
    slug: JsValue,
    description: JsValue,
    releaseDate: JsValue,
    releaseYear: JsValue,
    duration: JsValue,
    language: JsValue,
    redirectUrl: JsValue,
    poster: JsValue,
    quality: JsValue,
    rating: JsValue,
    status: JsValue,
    isTrending: JsValue)

  // ---------------------------------------------------------------- slug

  predicate IsSlugChar(c: char) {
    ('a' <= c <= 'z') || ('0' <= c <= '9') || c == '-'
  }

  /** `/^[a-z0-9-]+$/.test(s)`. */
  predicate IsSlug(s: string) {
    |s| > 0 && forall k :: 0 <= k < |s| ==> IsSlugChar(s[k])
  }

  /** The regex runs before `trim().toLowerCase()`, so for an accepted slug that normalisation changes nothing. */
  lemma SlugNormalisationIsIdentity(s: string)
    requires IsSlug(s)
    ensures Lower(Trim(s)) == s
  {
    assert !IsSpace(s[0]) && !IsSpace(s[|s| - 1]);
    TrimOfTrimmed(s);
  }

  // ---------------------------------------------------------------- normalizeArray

  /** The create handler's `normalizeArray`: an array becomes its trimmed string forms, a string a one-element list, anything else `[]`. */
  function NormalizeList(v: JsValue): (r: seq<string>)
    ensures v.Arr? ==> |r| == |v.items| && forall k :: 0 <= k < |r| ==> r[k] == Trim(ToString(v.items[k]))
    ensures v.Str? ==> r == [Trim(v.s)]
    ensures !v.Arr? && !v.Str? ==> r == []
  {
    match v
    case Arr(items) => seq(|items|, k requires 0 <= k < |items| => Trim(ToString(items[k])))
    case Str(s) => [Trim(s)]
    case _ => []
  }

  /** The update handler's `normalizeArray`: the same, except that anything else is `undefined` (`None`). */
  function NormalizeListOrUndefined(v: JsValue): (r: Option<seq<string>>)
    ensures r.None? <==> !v.Arr? && !v.Str?
  {
    if v.Arr? || v.Str? then Some(NormalizeList(v)) else None
  }

  /** The two helpers agree wherever the update one gives a list. */
  lemma NormalizeHelpersAgree(v: JsValue)
    ensures NormalizeListOrUndefined(v).Some? ==> NormalizeListOrUndefined(v).value == NormalizeList(v)
    ensures NormalizeListOrUndefined(v).None? ==> NormalizeList(v) == []
  {
  }

  /** A list of strings as a request value. */
  function StringList(xs: seq<string>): JsValue {
    Arr(seq(|xs|, k requires 0 <= k < |xs| => Str(xs[k])))
  }

  /** Every normalised element is trimmed. */
  lemma NormalizedElementsTrimmed(v: JsValue)
    ensures forall k :: 0 <= k < |NormalizeList(v)| ==> IsTrimmed(NormalizeList(v)[k])
  {
    var r := NormalizeList(v);
    forall k | 0 <= k < |r|
      ensures IsTrimmed(r[k])
    {
      if v.Arr? {
        TrimSpec(ToString(v.items[k]));
      } else {
        TrimSpec(v.s);
      }
    }
  }

  lemma {:induction false} NormalizeTrimmedList(xs: seq<string>)
    requires forall k :: 0 <= k < |xs| ==> IsTrimmed(xs[k])
    ensures NormalizeList(StringList(xs)) == xs
  {
    var items := StringList(xs).items;
    var again := NormalizeList(StringList(xs));
    assert |again| == |xs|;
    forall k | 0 <= k < |xs|
      ensures again[k] == xs[k]
    {
      assert items[k] == Str(xs[k]);
      TrimOfTrimmed(xs[k]);
    }
  }

  /** Normalising a normalised list gives it back. */
  lemma {:induction false} NormalizeListIdempotent(v: JsValue)
    ensures NormalizeList(StringList(NormalizeList(v))) == NormalizeList(v)
  {
    NormalizedElementsTrimmed(v);
    NormalizeTrimmedList(NormalizeList(v));
  }

  // ---------------------------------------------------------------- create

  /** The required-field guard: title, slug, description, poster and redirectUrl must all be truthy. */
  predicate RequiredPresent(b: MovieBody) {
    Truthy(b.title) && Truthy(b.slug) && Truthy(b.description) && Truthy(b.poster) && Truthy(b.redirectUrl)
  }

  /** Calling `.trim()` on these fields throws unless each is a string. */
  predicate RequiredAreStrings(b: MovieBody) {
    b.title.Str? && b.slug.Str? && b.description.Str? && b.poster.Str? && b.redirectUrl.Str?
  }

  /** `v ? Number(v) : undefined` as the store casts it: NaN is refused. */
  function OptionalNumber(v: JsValue): (r: Result<Option<int>>)
    ensures !Truthy(v) ==> r == Ok(None)
    ensures r.Err? <==> Truthy(v) && ToNumber(v).NaN?
    ensures Truthy(v) && ToNumber(v).Int? ==> r == Ok(Some(ToNumber(v).i))
    ensures v.Num? && v.n != 0 ==> r == Ok(Some(v.n))
  {
    if !Truthy(v) then Ok(None)
    else match ToNumber(v)
      case NaN => Err(ServerError)
      case Int(n) => Ok(Some(n))
  }

  /** `rating ? Number(rating) : 0` as the store casts it. */
  function RatingOf(v: JsValue): (r: Result<int>)
    ensures !Truthy(v) ==> r == Ok(0)
    ensures r.Err? <==> Truthy(v) && ToNumber(v).NaN?
    ensures Truthy(v) && ToNumber(v).Int? ==> r == Ok(ToNumber(v).i)
    ensures v.Num? ==> r == Ok(v.n)
  {
    if !Truthy(v) then Ok(0)
    else match ToNumber(v)
      case NaN => Err(ServerError)
      case Int(n) => Ok(n)
  }

  /** A number sent as its decimal text is stored as that number. */
  lemma OptionalNumberOfPrinted(n: int)
    ensures OptionalNumber(Str(IntToString(n))) == Ok(Some(n))
  {
    NumberOfIntToString(n);
  }

  /** A rating sent as its decimal text is stored as that number, "0" included. */
  lemma RatingOfPrinted(n: int)
    ensures RatingOf(Str(IntToString(n))) == Ok(n)
  {
    NumberOfIntToString(n);
  }

  /** `status || "draft"` as the store casts it to a string. */
  function StatusOf(v: JsValue): (r: Result<string>)
    ensures !Truthy(v) ==> r == Ok("draft")
    ensures v.Str? && Truthy(v) ==> r == Ok(v.s)
  {
    if !Truthy(v) then Ok("draft")
    else match CastString(v)
      case None => Err(ServerError)
      case Some(s) => Ok(s)
  }

  /**
   * The document `MovieModel.create` stores for a body that passed the guards:
   * a `.trim()` on a non-string field or a value the store cannot cast is a
   * server error.
   */
  function NewMovie(b: MovieBody, id: Id, now: int): Result<Movie> {
    if !RequiredAreStrings(b) then Err(ServerError)
    else
      var releaseDate := OptionalNumber(b.releaseDate);
      var releaseYear := OptionalNumber(b.releaseYear);
      var duration := OptionalNumber(b.duration);
      var rating := RatingOf(b.rating);
      var status := StatusOf(b.status);
      if releaseDate.Err? || releaseYear.Err? || duration.Err? || rating.Err? || status.Err? then Err(ServerError)
      else Ok(Movie(
        id := id,
        title := Trim(b.title.s),
        slug := Lower(Trim(b.slug.s)),
        description := Trim(b.description.s),
        releaseDate := releaseDate.value,
        releaseYear := releaseYear.value,
        duration := duration.value,
        language := NormalizeList(b.language),
        poster := Trim(b.poster.s),
        quality := NormalizeList(b.quality),
        redirectUrl := Trim(b.redirectUrl.s),
        rating := rating.value,
        status := status.value,
        isTrending := Truthy(b.isTrending),
        createdAt := now,
        updatedAt := now))
  }

  /** A stored new record keeps the accepted slug exactly, with the id and timestamps of the insertion. */
  lemma NewMovieSlug(b: MovieBody, id: Id, now: int)
    requires IsSlug(ToString(b.slug))
    requires NewMovie(b, id, now).Ok?
    ensures var m := NewMovie(b, id, now).value;
            && b.slug.Str? && m.slug == b.slug.s
            && m.id == id && m.createdAt == now && m.updatedAt == now
  {
    assert RequiredAreStrings(b);
    assert ToString(b.slug) == b.slug.s;
    SlugNormalisationIsIdentity(b.slug.s);
  }

  /**
   * The text fields of a stored new record are the body's strings trimmed,
   * so they carry no surrounding white space.
   */
  lemma NewMovieTrimmed(b: MovieBody, id: Id, now: int)
    requires NewMovie(b, id, now).Ok?
    ensures var m := NewMovie(b, id, now).value;
            && b.title.Str? && m.title == Trim(b.title.s)
            && b.description.Str? && m.description == Trim(b.description.s)
            && b.poster.Str? && m.poster == Trim(b.poster.s)
            && b.redirectUrl.Str? && m.redirectUrl == Trim(b.redirectUrl.s)
    ensures var m := NewMovie(b, id, now).value;
            IsTrimmed(m.title) && IsTrimmed(m.description) && IsTrimmed(m.poster) && IsTrimmed(m.redirectUrl)
  {
    TrimSpec(b.title.s);
    TrimSpec(b.description.s);
    TrimSpec(b.poster.s);
    TrimSpec(b.redirectUrl.s);
  }

  /** Defaults of a new record: a falsy rating is 0, a falsy status "draft", falsy numbers unset, and `isTrending` the body's truthiness. */
  lemma NewMovieDefaults(b: MovieBody, id: Id, now: int)
    requires NewMovie(b, id, now).Ok?
    ensures var m := NewMovie(b, id, now).value;
            && (!Truthy(b.rating) ==> m.rating == 0)
            && (!Truthy(b.status) ==> m.status == "draft")
            && m.isTrending == Truthy(b.isTrending)
            && (!Truthy(b.releaseDate) ==> m.releaseDate.None?)
            && (!Truthy(b.releaseYear) ==> m.releaseYear.None?)
            && (!Truthy(b.duration) ==> m.duration.None?)
            && m.language == NormalizeList(b.language) && m.quality == NormalizeList(b.quality)
  {
  }

  /**
   * The numbers and the status of a stored new record are the body's values
   * as the store casts them: `Number(v)` for a truthy number field, the
   * rating's `Number` or 0, the status's string form or "draft".
   */
  lemma NewMovieValues(b: MovieBody, id: Id, now: int)
    requires NewMovie(b, id, now).Ok?
    ensures var m := NewMovie(b, id, now).value;
            && OptionalNumber(b.releaseDate) == Ok(m.releaseDate)
            && OptionalNumber(b.releaseYear) == Ok(m.releaseYear)
            && OptionalNumber(b.duration) == Ok(m.duration)
            && RatingOf(b.rating) == Ok(m.rating)
            && StatusOf(b.status) == Ok(m.status)
    ensures var m := NewMovie(b, id, now).value;
            && (Truthy(b.releaseDate) ==> m.releaseDate == Some(ToNumber(b.releaseDate).i))
            && (Truthy(b.releaseYear) ==> m.releaseYear == Some(ToNumber(b.releaseYear).i))
            && (Truthy(b.duration) ==> m.duration == Some(ToNumber(b.duration).i))
            && (Truthy(b.rating) ==> m.rating == ToNumber(b.rating).i)
            && (Truthy(b.status) ==> m.status == ToString(b.status))
  {
  }

  /** `Boolean(isTrending)`: the string "false" is truthy, so it stores `true`. */
  lemma FalseStringIsTrending(b: MovieBody, id: Id, now: int)
    requires b.isTrending == Str("false")
    requires NewMovie(b, id, now).Ok?
    ensures NewMovie(b, id, now).value.isTrending
  {
  }

  // ---------------------------------------------------------------- update

  /**
   * The `updateData` object of an update: a key is `Some` when the handler
   * sets it. Numbers and the status are held as the handler computed them;
   * the store casts them when it applies the update. `language` and `quality`
   * may be set to `undefined` (`Some(None)`), which the store drops.
   */
  datatype MoviePatch = MoviePatch(
    title: Option<string>,
    description: Option<string>,
    poster: Option<string>,
    redirectUrl: Option<string>,
    releaseDate: Option<JsNum>,
    releaseYear: Option<JsNum>,
    duration: Option<JsNum>,
    language: Option<Option<seq<string>>>,
    quality: Option<Option<seq<string>>>,
    rating: Option<JsNum>,
    status: Option<JsValue>,
    isTrending: Option<bool>,
    slug: Option<string>)

  /** A truthy title, description, poster or redirectUrl that is not a string makes `.trim()` throw. */
  predicate PatchTrimThrows(b: MovieBody) {
    (Truthy(b.title) && !b.title.Str?) || (Truthy(b.description) && !b.description.Str?)
    || (Truthy(b.poster) && !b.poster.Str?) || (Truthy(b.redirectUrl) && !b.redirectUrl.Str?)
  }

  /** A key holding a string is set when the value is truthy. */
  function TruthyString(v: JsValue): Option<string> {
    if Truthy(v) && v.Str? then Some(Trim(v.s)) else None
  }

  /** A key holding a number is set whenever the value is not `undefined`, so `0` and `null` update too. */
  function DefinedNumber(v: JsValue): (r: Option<JsNum>)
    ensures r.None? <==> v.Undefined?
    ensures v.Num? ==> r == Some(Int(v.n))
    ensures v.Null? ==> r == Some(Int(0))
    ensures v.Str? ==> r == Some(StringToNumber(v.s))
    ensures v.Obj? ==> r == Some(NaN)
  {
    if v.Undefined? then None else Some(ToNumber(v))
  }

  /** The `updateData` the update handler builds from a body, its slug aside when that is not a string. */
  function PatchOf(b: MovieBody): MoviePatch {
    MoviePatch(
      title := TruthyString(b.title),
      description := TruthyString(b.description),
      poster := TruthyString(b.poster),
      redirectUrl := TruthyString(b.redirectUrl),
      releaseDate := DefinedNumber(b.releaseDate),
      releaseYear := DefinedNumber(b.releaseYear),
      duration := DefinedNumber(b.duration),
      language := if b.language.Undefined? then None else Some(NormalizeListOrUndefined(b.language)),
      quality := if b.quality.Undefined? then None else Some(NormalizeListOrUndefined(b.quality)),
      rating := DefinedNumber(b.rating),
      status := if Truthy(b.status) then Some(b.status) else None,
      isTrending := if b.isTrending.Undefined? then None else Some(Truthy(b.isTrending)),
      slug := if Truthy(b.slug) && b.slug.Str? then Some(Lower(Trim(b.slug.s))) else None)
  }

  predicate NumberCasts(n: Option<JsNum>) {
    n.None? || n.value.Int?
  }

  /** Whether the store can cast every value of the patch: no NaN, and a status it can read as a string. */
  predicate PatchCasts(p: MoviePatch) {
    && NumberCasts(p.releaseDate) && NumberCasts(p.releaseYear) && NumberCasts(p.duration) && NumberCasts(p.rating)
    && (p.status.None? || CastString(p.status.value).Some?)
  }

  function SetNumber(n: Option<JsNum>, old_: Option<int>): Option<int>
    requires NumberCasts(n)
  {
    if n.Some? then Some(n.value.i) else old_
  }

  function SetList(l: Option<Option<seq<string>>>, old_: seq<string>): seq<string> {
    if l.Some? && l.value.Some? then l.value.value else old_
  }

  /** `$set` of the patch on a stored record; timestamps set `updatedAt`. */
  function ApplyPatch(m: Movie, p: MoviePatch, now: int): (u: Movie)
    requires PatchCasts(p)
    ensures u.id == m.id && u.createdAt == m.createdAt && u.updatedAt == now
  {
    m.(
      title := p.title.GetOr(m.title),
      description := p.description.GetOr(m.description),
      poster := p.poster.GetOr(m.poster),
      redirectUrl := p.redirectUrl.GetOr(m.redirectUrl),
      releaseDate := SetNumber(p.releaseDate, m.releaseDate),
      releaseYear := SetNumber(p.releaseYear, m.releaseYear),
      duration := SetNumber(p.duration, m.duration),
      language := SetList(p.language, m.language),
      quality := SetList(p.quality, m.quality),
      rating := if p.rating.Some? then p.rating.value.i else m.rating,
      status := if p.status.Some? then CastString(p.status.value).value else m.status,
      isTrending := p.isTrending.GetOr(m.isTrending),
      slug := p.slug.GetOr(m.slug),
      updatedAt := now)
  }

  /** An update keeps the id and stores the accepted slug, or keeps the old one when the body has none. */
  lemma PatchSlug(m: Movie, b: MovieBody, now: int)
    requires PatchCasts(PatchOf(b))
    requires Truthy(b.slug) ==> b.slug.Str? && IsSlug(b.slug.s)
    ensures ApplyPatch(m, PatchOf(b), now).id == m.id
    ensures ApplyPatch(m, PatchOf(b), now).slug == if Truthy(b.slug) then b.slug.s else m.slug
  {
    if Truthy(b.slug) {
      SlugNormalisationIsIdentity(b.slug.s);
    }
  }

  /**
   * An update changes only what the body supplies: numeric fields and
   * `isTrending` whenever they are not `undefined` (so `0` updates), the
   * text fields, the status and the slug only when truthy; the id and the
   * creation time never change.
   */
  lemma PatchChangesOnlySupplied(m: Movie, b: MovieBody, now: int)
    requires PatchCasts(PatchOf(b))
    ensures var u := ApplyPatch(m, PatchOf(b), now);
            && u.id == m.id && u.createdAt == m.createdAt && u.updatedAt == now
            && (!Truthy(b.title) ==> u.title == m.title)
            && (!Truthy(b.description) ==> u.description == m.description)
            && (!Truthy(b.poster) ==> u.poster == m.poster)
            && (!Truthy(b.redirectUrl) ==> u.redirectUrl == m.redirectUrl)
            && (!Truthy(b.status) ==> u.status == m.status)
            && (!Truthy(b.slug) ==> u.slug == m.slug)
            && (b.releaseDate.Undefined? ==> u.releaseDate == m.releaseDate)
            && (b.releaseYear.Undefined? ==> u.releaseYear == m.releaseYear)
            && (b.duration.Undefined? ==> u.duration == m.duration)
            && (b.rating.Undefined? ==> u.rating == m.rating)
            && (b.isTrending.Undefined? ==> u.isTrending == m.isTrending)
            && (!b.language.Arr? && !b.language.Str? ==> u.language == m.language)
            && (!b.quality.Arr? && !b.quality.Str? ==> u.quality == m.quality)
  {
  }

  /**
   * Supplied values do land: a defined number is stored as `Number(v)` (so
   * `0` sets 0 and `null` sets 0), a truthy text field trimmed, a list
   * normalised, a truthy status as its string form, a truthy string slug
   * trimmed and lowered, and any defined `isTrending` as its truthiness.
   */
  lemma PatchAppliesSupplied(m: Movie, b: MovieBody, now: int)
    requires PatchCasts(PatchOf(b))
    ensures var u := ApplyPatch(m, PatchOf(b), now);
            && (!b.releaseDate.Undefined? ==> ToNumber(b.releaseDate).Int? && u.releaseDate == Some(ToNumber(b.releaseDate).i))
            && (!b.releaseYear.Undefined? ==> ToNumber(b.releaseYear).Int? && u.releaseYear == Some(ToNumber(b.releaseYear).i))
            && (!b.duration.Undefined? ==> ToNumber(b.duration).Int? && u.duration == Some(ToNumber(b.duration).i))
            && (!b.rating.Undefined? ==> ToNumber(b.rating).Int? && u.rating == ToNumber(b.rating).i)
            && (b.rating == Num(0) ==> u.rating == 0)
            && (b.duration == Null ==> u.duration == Some(0))
            && (!b.isTrending.Undefined? ==> u.isTrending == Truthy(b.isTrending))
            && (Truthy(b.title) && b.title.Str? ==> u.title == Trim(b.title.s))
            && (Truthy(b.description) && b.description.Str? ==> u.description == Trim(b.description.s))
            && (Truthy(b.poster) && b.poster.Str? ==> u.poster == Trim(b.poster.s))
            && (Truthy(b.redirectUrl) && b.redirectUrl.Str? ==> u.redirectUrl == Trim(b.redirectUrl.s))
            && (b.language.Arr? || b.language.Str? ==> u.language == NormalizeList(b.language))
            && (b.quality.Arr? || b.quality.Str? ==> u.quality == NormalizeList(b.quality))
            && (Truthy(b.status) ==> u.status == ToString(b.status))
            && (Truthy(b.slug) && b.slug.Str? ==> u.slug == Lower(Trim(b.slug.s)))
  {
  }

  /** A patch is refused by the store's cast only for a NaN number or an array or object status. */
  lemma PatchCastFailures(b: MovieBody)
    ensures !PatchCasts(PatchOf(b)) <==>
              || (!b.releaseDate.Undefined? && ToNumber(b.releaseDate).NaN?)
              || (!b.releaseYear.Undefined? && ToNumber(b.releaseYear).NaN?)
              || (!b.duration.Undefined? && ToNumber(b.duration).NaN?)
              || (!b.rating.Undefined? && ToNumber(b.rating).NaN?)
              || (Truthy(b.status) && (b.status.Arr? || b.status.Obj?))
  {
  }
}
