# Movie catalogue and site-setting handlers

This project is a Dafny model of the two store-backed controllers of a small movie-catalogue backend. It proves properties of that model.

**The movie catalogue** (`controllers/movie/movieControllers.js`) has these handlers:

- list with pagination, filters and sort;
- create;
- partial update;
- delete;
- fetch by id;
- the admin dashboard figures;
- the notification feed, with its `getTimeAgo` relative-time helper.

**The site-setting manager** (`controllers/setting/settingControllers.js`) has these handlers:

- create;
- get the active setting;
- activate;
- list;
- update;
- delete.

Its key invariant is that at most one setting is active.

Each collection is a class holding a `seq` of records in insertion order: `MovieControllers.MovieCollection` and `SiteSettings.SettingCollection`. Each handler is a method. It answers with `Ok(payload)` or `Err(failure)`, where `failure` is 400, 404, 409 or 500. Its `ensures` state the whole new state of the collection.

The store's query stages are pure functions in `Ordering`:

- `$match` is a filter that keeps natural order;
- `$sort` is a stable descending insertion sort on a two-part key;
- `$skip`/`$limit` is a window.

The handler-level results are pure functions in `MovieStore` (`Listing`, `CountStatus`, `RecentMovies`, `FeedSource`, `Feed`). The lemmas about those functions state what the handlers promise. The methods are proved equal to them.

JavaScript values in a request body are the `JsValue` datatype: `undefined`, `null`, booleans, integers, strings, arrays and objects. This keeps the source's two notions of "supplied" apart: truthiness and `!== undefined`. `String(v)`, `Number(v)`, `parseInt`, `trim` and `toLowerCase` are written out in `JsValues`.

Module layout:

- `common.dfy`: `Option`, `Result` and the failures.
- `js_values.dfy`: truthiness, trim, number parsing and printing, `join`, lower-casing, substring search, and the store's cast to a string.
- `object_ids.dfy`: ObjectId strings and the canonical lower-case form the store keeps.
- `ordering.dfy`: filter, sort, window and take.
- `movie_schema.dfy`: the movie record, the slug rule, both `normalizeArray` helpers, the create document and the update patch.
- `movie_query.dfy`: page/limit, the `match` object, the sort stage.
- `movie_notify.dfy`: `getTimeAgo` and the notification entry.
- `movie_store.dfy`: lookups, removal, the listing, the dashboard figures and the feed, as functions of the collection.
- `movie_controllers.dfy`: the movie handlers.
- `site_settings.dfy`: the settings record, activation, removal and the settings handlers.

## Model

| member | source | states |
|---|---|---|
| JsValues.TrimSpec | controllers/movie/movieControllers.js:61 | `trim` leaves no white space at either end, and the input is white space, then the result, then white space |
| JsValues.TrimIdempotent | controllers/movie/movieControllers.js:61-69 | trimming twice is trimming once |
| JsValues.NumberOfIntToString | controllers/movie/movieControllers.js:64-66 | `Number(String(n))` is `n` |
| JsValues.ParseParam | controllers/movie/movieControllers.js:95-96 | an absent query parameter parses to NaN |
| JsValues.ParseIntOfIntToString | controllers/movie/movieControllers.js:95-96 | `parseInt(String(n))` is `n`, negative numbers included |
| JsValues.ParseIntIgnoresSuffix | controllers/movie/movieControllers.js:95-96 | `parseInt` reads the leading decimal digits and ignores what follows them ("12abc" is 12), except for a `0` followed by `x` or `X`, which selects base 16 |
| JsValues.ParseIntReadsHex | controllers/movie/movieControllers.js:95-96 | after a `0x` or `0X` prefix `parseInt` reads hexadecimal digits up to the first other character ("0x1fz" is 31) |
| JsValues.ParseIntHexExample | controllers/movie/movieControllers.js:95-96 | `parseInt("0x14")` is 20, so `?limit=0x14` asks for 20 records |
| JsValues.ParseIntSignedHexExample | controllers/movie/movieControllers.js:95-96 | white space and a sign may precede the prefix: `parseInt(" -0X1f")` is -31 |
| JsValues.ParseIntBarePrefixExample | controllers/movie/movieControllers.js:95-96 | a prefix with no digit after it is NaN |
| JsValues.Lower | controllers/movie/movieControllers.js:62 | `toLowerCase` keeps the length, leaves no upper-case ASCII letter, maps each one to its lower-case partner and keeps every other character |
| JsValues.LowerIdempotent | controllers/movie/movieControllers.js:62 | lowering twice is lowering once |
| JsValues.IsInfix | controllers/movie/movieControllers.js:138-140 | true exactly when the pattern occurs somewhere in the text as a contiguous piece |
| JsValues.JoinEmpty | controllers/movie/movieControllers.js:515-525 | a join with a non-empty separator is empty iff the list is empty or holds one empty string |
| JsValues.CastString | model/movieSchema.js:51-55 | the store's cast to a string path succeeds exactly for strings, numbers and booleans; what it stores is `String(v)`, and for a number `Number` reads it back as that number |
| ObjectIds.CanonicalId | controllers/movie/movieControllers.js:355 | a valid ObjectId string denotes a canonical lower-case id, and a canonical id denotes itself |
| MovieSchema.SlugNormalisationIsIdentity | controllers/movie/movieControllers.js:62 | for any slug the regex of line 35 accepts, `trim().toLowerCase()` returns it unchanged |
| MovieSchema.NormalizeList | controllers/movie/movieControllers.js:53-57 | an array gives, element by element, the trimmed `String` form of each element; a string gives the one-element list of its trimmed form; anything else `[]` |
| MovieSchema.NormalizedElementsTrimmed | controllers/movie/movieControllers.js:53-57 | every element the helper produces is trimmed |
| MovieSchema.NormalizeListIdempotent | controllers/movie/movieControllers.js:53-57 | normalising an already normalised list gives it back |
| MovieSchema.NormalizeListOrUndefined | controllers/movie/movieControllers.js:254-258 | the update helper gives `undefined` exactly for a value that is neither an array nor a string |
| MovieSchema.NormalizeHelpersAgree | controllers/movie/movieControllers.js:254-258 | the update helper agrees with the create helper wherever it gives a list; where it gives `undefined`, the create helper gives `[]` |
| MovieSchema.OptionalNumber | controllers/movie/movieControllers.js:64-66 | a falsy value leaves the field unset; the store refuses the value exactly when it is truthy and `Number` of it is NaN; otherwise a truthy value is stored as `Number` of it, a non-zero number as itself |
| MovieSchema.OptionalNumberOfPrinted | controllers/movie/movieControllers.js:64-66 | a number sent as its decimal text (`"0"` included, which is truthy) is stored as that number |
| MovieSchema.RatingOf | controllers/movie/movieControllers.js:71 | a falsy rating is 0; the store refuses it exactly when it is truthy and NaN; otherwise it is `Number` of the value, and a number is stored as itself |
| MovieSchema.RatingOfPrinted | controllers/movie/movieControllers.js:71 | a rating sent as its decimal text is stored as that number |
| MovieSchema.StatusOf | controllers/movie/movieControllers.js:72 | a falsy status is "draft", and a truthy string is kept |
| MovieSchema.NewMovieSlug | controllers/movie/movieControllers.js:60-74 | a created record stores the input slug exactly, with the assigned id and both timestamps equal to the insertion time |
| MovieSchema.NewMovieTrimmed | controllers/movie/movieControllers.js:61-69 | title, description, poster and redirectUrl of a created record are the body's strings trimmed, so they carry no edge white space |
| MovieSchema.NewMovieValues | controllers/movie/movieControllers.js:60-74 | releaseDate, releaseYear, duration, rating and status of a created record are the body's values as cast: `Number(v)` for a truthy number, the rating's `Number`, the status's string form |
| MovieSchema.NewMovieDefaults | controllers/movie/movieControllers.js:64-73 | rating is 0 and status "draft" when falsy; falsy numbers stay unset; isTrending is the input's truthiness; language and quality are normalised |
| MovieSchema.FalseStringIsTrending | controllers/movie/movieControllers.js:73 | the string "false" stores `isTrending = true` |
| MovieSchema.DefinedNumber | controllers/movie/movieControllers.js:268-270 | a numeric key is set exactly when the body value is not `undefined`, to `Number` of it: a number as itself, `null` as 0, a string by its decimal reading, an object as NaN |
| MovieSchema.ApplyPatch | controllers/movie/movieControllers.js:309-313 | an update keeps the id and creation time and stamps `updatedAt` |
| MovieSchema.PatchSlug | controllers/movie/movieControllers.js:284-306 | an accepted slug is stored exactly; without a slug the old one stays |
| MovieSchema.PatchChangesOnlySupplied | controllers/movie/movieControllers.js:261-281 | a field changes only when supplied: numbers and isTrending when not `undefined`, text fields, status and slug when truthy, lists when an array or a string |
| MovieSchema.PatchAppliesSupplied | controllers/movie/movieControllers.js:261-281 | when the store accepts the patch, every supplied value lands: each defined number key as `Number` of it (so `0` and `null` give 0), a defined isTrending as its truthiness, a truthy string title, description, poster or redirectUrl trimmed, a language or quality list normalised, a truthy status as its string form, a truthy string slug trimmed and lower-cased |
| MovieSchema.PatchCastFailures | controllers/movie/movieControllers.js:268-279 | the store refuses a patch exactly for a NaN number or an array or object status |
| MovieQuery.PageOf | controllers/movie/movieControllers.js:95 | the page is at least 1: the parsed value when it is at least 1, else 1 |
| MovieQuery.LimitOf | controllers/movie/movieControllers.js:96 | the limit is at most 50; it is 10 when absent, 0 or non-numeric; values up to 50 pass through, negative ones included |
| MovieQuery.DefaultPagination | controllers/movie/movieControllers.js:95-97 | no page and no limit give page 1, limit 10, skip 0 |
| MovieQuery.NegativeLimitUnclamped | controllers/movie/movieControllers.js:96 | `limit=-n` gives the limit `-n` |
| MovieQuery.MatchOfMeaning | controllers/movie/movieControllers.js:115-140 | the assembled `match` admits a record exactly when it satisfies every filter the query applies |
| MovieQuery.NoFilterAdmitsAll | controllers/movie/movieControllers.js:115-140 | with no filter parameter every record is admitted |
| MovieQuery.BuildMatch | controllers/movie/movieControllers.js:115-149 | the `match` built field by field admits exactly the records the query describes; the sort stage is trending-first iff `isTrending` is "true" |
| MovieQuery.NewestKeyOrder | controllers/movie/movieControllers.js:145 | a list sorted by `{createdAt: -1}` is newest first |
| MovieQuery.TrendingKeyOrder | controllers/movie/movieControllers.js:147-149 | among trending records the trending-first order is newest first |
| MovieQuery.StageOrdersNewestFirst | controllers/movie/movieControllers.js:145-149 | whatever stage is chosen, the records the query admits come out newest first |
| Ordering.Filter | controllers/movie/movieControllers.js:155 | `$match` keeps exactly the input records that satisfy the predicate |
| Ordering.FilterPartition | controllers/movie/movieControllers.js:155 | the admitted and the refused records together are the input, as a multiset, so no copy of an admitted record is lost |
| Ordering.FilterAppend | controllers/movie/movieControllers.js:155 | filtering a concatenation filters each part in turn, so `$match` keeps the natural order |
| Ordering.Insert | controllers/movie/movieControllers.js:156 | inserting into a sorted list keeps it sorted and adds exactly that record |
| Ordering.SortDesc | controllers/movie/movieControllers.js:156 | `$sort` gives a descending permutation of its input |
| Ordering.Window | controllers/movie/movieControllers.js:157-158 | `$skip`/`$limit` gives at most `limit` records, starting at the skip, with the exact length |
| Ordering.WindowDescending | controllers/movie/movieControllers.js:156-158 | a page of a sorted list is sorted |
| Ordering.TakeKeepsLargest | controllers/movie/movieControllers.js:425-426 | the first `n` of a sort form a sorted sub-multiset, and each has a key at least that of every record left out |
| MovieStore.IndexOf | controllers/movie/movieControllers.js:363-369 | the lookup by id finds the record with that id, or reports that none has it |
| MovieStore.IndexOfAny | controllers/movie/movieControllers.js:198 | finds a record whose id is in the set, the first in insertion order, or reports that none is |
| MovieStore.IndexOfAnySingle | controllers/movie/movieControllers.js:198 | looking for any of one id is the lookup by that id |
| MovieStore.DeleteIds | controllers/movie/movieControllers.js:198 | a string id selects its ObjectId and casts only when it is one; an array selects its ObjectId strings as `$in` and casts only when each element is an ObjectId string or `null`; any other value is a cast error |
| MovieStore.DeleteIdsOfSingleton | controllers/movie/movieControllers.js:198 | a one-element array id selects what its string element selects |
| MovieStore.AppendKeepsIds | controllers/movie/movieControllers.js:44-74 | inserting a record with a new id keeps ids distinct and canonical; a slug nobody holds keeps slugs unique |
| MovieStore.ReplaceKeepsIds | controllers/movie/movieControllers.js:309-313 | replacing a record by one with the same id keeps ids distinct and canonical |
| MovieStore.RemoveAtKeepsOthers | controllers/movie/movieControllers.js:198 | deleting one record keeps exactly the records with other ids |
| MovieStore.RemoveAtKeepsIds | controllers/movie/movieControllers.js:198 | deleting keeps ids distinct and canonical |
| MovieStore.RemoveAtKeepsSlugsUnique | controllers/movie/movieControllers.js:198 | deleting keeps slugs unique |
| MovieStore.SkipOf | controllers/movie/movieControllers.js:97 | the skip is `(page - 1) * limit` and is never negative |
| MovieStore.ListingMeaning | controllers/movie/movieControllers.js:154-170 | the listing fails only for a limit at most 0; otherwise page ≥ 1 and 1 ≤ limit ≤ 50, count is at most limit, `hasMore` iff count == limit, and every movie is stored, satisfies every filter and is newest first; the skip `(page - 1) * limit` is not negative and the movies are exactly the sorted admitted records from that index on, each at its position, as many as remain up to limit (`IsPage`) |
| MovieStore.ListingIsPage | controllers/movie/movieControllers.js:154-170 | with a positive limit the listing succeeds and its movies are the page of the sorted admitted records at `(page - 1) * limit` |
| MovieStore.WindowIsPage | controllers/movie/movieControllers.js:157-158 | the `$skip`/`$limit` window of a sequence is its page at that skip: exact length, each record at `skip + k` |
| MovieStore.ListingWithoutParameters | controllers/movie/movieControllers.js:113-158 | with no parameters the listing is the ten newest records, newest first |
| MovieStore.CountStatus | controllers/movie/movieControllers.js:405-412 | a status count is at most the record count, and is 0 iff no record has that status |
| MovieStore.DistinctStatuses | controllers/movie/movieControllers.js:405-412 | one `$group` key per status present, with no repeats |
| MovieStore.StatusGroups | controllers/movie/movieControllers.js:405-412 | each group carries the number of records with its status, and every present status has a group |
| MovieStore.StatusCountsSum | controllers/movie/movieControllers.js:448-459 | when every status is in the schema's enum, published + draft + blocked is the total |
| MovieStore.RecentMoviesMeaning | controllers/movie/movieControllers.js:424-438 | the recent list holds min(5, total) projections of stored records, newest first, none older than a record left out |
| MovieStore.RecentAreNewest | controllers/movie/movieControllers.js:424-438 | the recent list has min(5, total) stored records, newest first; no record left out is newer than one kept |
| MovieStore.FeedSourceMeaning | controllers/movie/movieControllers.js:485-511 | the feed source has at most ten stored published records, newest first; no published record left out is newer than one kept |
| MovieStore.FeedEntries | controllers/movie/movieControllers.js:514-531 | each entry is unseen, carries its movie's id and link, and has `type` "trending" iff the movie is trending |
| MovieNotify.ElapsedSeconds | controllers/movie/movieControllers.js:549 | the elapsed seconds are the floor of the millisecond difference divided by 1000 |
| MovieNotify.GetTimeAgo | controllers/movie/movieControllers.js:548-567 | the loop with early return gives the relative-time text of the elapsed seconds |
| MovieNotify.TimeAgoAt | controllers/movie/movieControllers.js:559-564 | the first unit that fits at least once is the one named |
| MovieNotify.JustNowExactly | controllers/movie/movieControllers.js:559-566 | "Just now" iff fewer than 60 seconds elapsed, negative differences included |
| MovieNotify.TimeAgoUnit | controllers/movie/movieControllers.js:551-564 | from 60 seconds up, the text names the largest unit that fits, with its count |
| MovieNotify.AgoPlural | controllers/movie/movieControllers.js:562 | the unit takes an "s" iff the count is more than one |
| MovieNotify.TimeAgoExamples | controllers/movie/movieControllers.js:551-564 | 3661 s is "1 hour ago", 172800 s "2 days ago", 31536000 s "1 year ago" |
| MovieNotify.JustNowExamples | controllers/movie/movieControllers.js:566 | 45 s and -5 s are "Just now" |
| MovieNotify.Subtitle | controllers/movie/movieControllers.js:523-525 | the fallback exactly when the quality list is `[]` or `[""]`; otherwise the text starts with the download prefix, and for one quality it is the prefix followed by that quality |
| MovieNotify.FormatNotification | controllers/movie/movieControllers.js:518-531 | an entry carries id, link, creation time and relative time; it is unseen; it is trending iff the movie is |
| MovieNotify.NotificationText | controllers/movie/movieControllers.js:515-525 | the title starts with the movie title; the fallback subtitle appears iff the quality list is empty or holds one empty string |
| MovieControllers.MovieCollection.Create | controllers/movie/movieControllers.js:7-88 | the guards in order (missing field 400, bad slug 400, taken slug 409, cast or id clash 500); on success exactly the new document is appended, with the input slug, the body's trimmed text fields, its cast numbers and status, its truthiness as isTrending and its normalised lists; failures change nothing; unique slugs stay unique |
| MovieControllers.MovieCollection.Update | controllers/movie/movieControllers.js:226-334 | the guards in the source's order, with a taken slug giving 409 before the record is looked up; on success only that record changes, to the patched one; unique slugs stay unique |
| MovieControllers.MovieCollection.Delete | controllers/movie/movieControllers.js:185-219 | a falsy id is 400, one the store cannot cast 500, one that selects no record 404; otherwise the first selected record is removed, with the message naming its title; an array id is read as `$in`; for a string id, success iff a record has that id; failures change nothing |
| MovieControllers.MovieCollection.GetById | controllers/movie/movieControllers.js:342-389 | an empty or invalid id is 400, an unknown one 404; otherwise the stored record with that id |
| MovieControllers.MovieCollection.ListMovies | controllers/movie/movieControllers.js:90-178 | the handler's pipeline gives `Listing` of the collection |
| MovieControllers.MovieCollection.AdminDashboard | controllers/movie/movieControllers.js:397-473 | the `forEach` over the groups leaves each status count equal to the number of records with that status (0 when absent); the total is the record count; the recent list is `RecentMovies` |
| MovieControllers.MovieCollection.Notifications | controllers/movie/movieControllers.js:476-547 | the mapping loop gives `Feed`; total == unreadCount == the entry count ≤ 10 |
| MovieControllers.GroupCountOfAll | controllers/movie/movieControllers.js:455-459 | after every group, the count kept for a status is the number of records with it |
| MovieControllers.GroupCountSoFarIs | controllers/movie/movieControllers.js:455-459 | the last assignment for a status is the group's count, or 0 when no group has it |
| MovieControllers.UpdateKeepsSlugsUnique | controllers/movie/movieControllers.js:284-313 | an update that passed the slug check keeps slugs unique |
| SiteSettings.IndexOf | controllers/setting/settingControllers.js:71 | `findById` finds the record with that id, or reports that none has it |
| SiteSettings.FirstActive | controllers/setting/settingControllers.js:49 | `findOne({isActive: true})` finds an active record, or reports that none is active |
| SiteSettings.FirstActiveIsTheActive | controllers/setting/settingControllers.js:49-57 | under the invariant, the record found is the only active one |
| SiteSettings.LastUpdatedBy | controllers/setting/settingControllers.js:31 | the email when truthy, else "admin"; never empty |
| SiteSettings.NewSetting | controllers/setting/settingControllers.js:23-32 | a new setting is inactive, with the given id, `lastUpdatedBy` and timestamps; every supplied text field is stored trimmed except `avatarUrl`, stored as given; an absent subtitle or avatar is "", an absent heading, name or domain stays unset |
| SiteSettings.AppendInactive | controllers/setting/settingControllers.js:23-32 | adding an inactive record keeps the active ids and the invariant |
| SiteSettings.UpdateTouchesOnlySupplied | controllers/setting/settingControllers.js:147-159 | an update never changes isActive, id or creation time; it keeps every field left `undefined`, stores each supplied one trimmed (the avatar as given) and resets `lastUpdatedBy`; when no field differs from the stored record the record is returned as stored, `updatedAt` included, and otherwise `updatedAt` is the save's time |
| SiteSettings.UpdateWithNothingNewKeepsRecord | controllers/setting/settingControllers.js:147-159 | a body defining no field, sent by the user who last updated, leaves the record exactly as stored, so the save stamps nothing |
| SiteSettings.UpdateWithChangeStamps | controllers/setting/settingControllers.js:147-159 | a new title, a new avatar or a different updater changes the record and gets the save's time in `updatedAt` |
| SiteSettings.ReplaceKeepsActive | controllers/setting/settingControllers.js:147-159 | saving a record with the same id and activity keeps the active ids and the invariant |
| SiteSettings.DeactivateAll | controllers/setting/settingControllers.js:79-82 | `updateMany` leaves no record active and changes nothing else |
| SiteSettings.ActivatedMeaning | controllers/setting/settingControllers.js:79-86 | after activation the target is the one active record, no record is added or removed, and no field other than isActive and updatedAt changes |
| SiteSettings.ActivatingActiveLeavesNone | controllers/setting/settingControllers.js:79-86 | as written, activating the setting that is already active leaves no active setting |
| SiteSettings.AsWrittenAgreesOnInactive | controllers/setting/settingControllers.js:79-86 | for a target that was not active, the code as written does what is intended |
| SiteSettings.RemoveKeepsOthers | controllers/setting/settingControllers.js:200 | deleting one record keeps exactly the records with other ids |
| SiteSettings.RemoveInactiveKeepsActive | controllers/setting/settingControllers.js:192-200 | deleting an inactive record keeps the active ids and the invariant |
| SiteSettings.CreatedKeyOrder | controllers/setting/settingControllers.js:104-106 | a list sorted by `{createdAt: -1}` is latest first |
| SiteSettings.SettingCollection.Create | controllers/setting/settingControllers.js:4-45 | a falsy title is 400, a white-space title 500 (the `required` rule after the trim), each changing nothing; otherwise exactly one inactive record with `lastUpdatedBy` set is appended; the active ids, the invariant and non-empty titles are kept |
| SiteSettings.SettingCollection.GetActive | controllers/setting/settingControllers.js:47-64 | an active stored record iff one exists, else 404; under the invariant it is the only one |
| SiteSettings.SettingCollection.Activate | controllers/setting/settingControllers.js:66-100 | an invalid id is 500, an unknown one 404 and changes nothing; otherwise the active ids become exactly {id}, with the same records and contents |
| SiteSettings.SettingCollection.ListAll | controllers/setting/settingControllers.js:102-122 | every record, latest first, as a permutation of the collection, with count equal to its length |
| SiteSettings.SettingCollection.Update | controllers/setting/settingControllers.js:124-176 | an invalid id is 500, an unknown one 404, a supplied title that trims to "" 500, each changing nothing; otherwise only that record changes, by the supplied fields, with isActive untouched and `updatedAt` stamped only when a field changed |
| SiteSettings.SettingCollection.Delete | controllers/setting/settingControllers.js:178-215 | invalid 500, unknown 404, active 400, each keeping the record; otherwise exactly that record is removed, and the active ids and the invariant are kept |

## Left out

- Authentication, `req.admin` and the Express wiring and database connection are not modelled. They are I/O plumbing around the handlers.
- `SiteSettings.LastUpdatedBy`: the actor's email is a parameter. The admin middleware sets `req.admin`, not `req.user`, so in practice the handlers always store "admin".
- Clock and calendar are parameters:
  - `now` stands for `Date.now()`;
  - `yearOf` stands for `new Date(createdAt).getFullYear()`, so time zones are not modelled.
- The catch-all 500 branches are modelled only for the failures named in the contracts: a thrown `trim`, a store cast error, a refused `$limit`, an id clash. Database outages are not modelled.
- `MovieControllers.MovieCollection.Create`: the schema's validators are not modelled:
  - required fields;
  - the `status` and `quality` enums;
  - the rating's `min`/`max`;
  - the unique index on `slug`.

  So an out-of-enum status or an out-of-range rating is stored rather than refused. The handlers' own slug checks are modelled, and unique slugs are a preserved invariant.
- `SiteSettings.SettingCollection.Create` and `SiteSettings.SettingCollection.Update`: the body's fields are modelled as strings or `undefined` only. A number, boolean, `null`, array or object field, which the schema would cast or refuse, is not representable.
- Numbers are integers, so fractional ratings are not representable. `Number` reads decimal integer literals only: its hexadecimal, binary, octal, fractional, exponent and `Infinity` forms are NaN in the model. `parseInt` reads a decimal integer prefix, or a hexadecimal one after `0x` or `0X`; on a fractional form it stops at the point, as JavaScript does.
- `JsValues.ContainsIgnoreCase`: the title search is a case-insensitive substring match on ASCII letters. Regular-expression metacharacters, and the 500 an invalid pattern causes, are not modelled.
- `JsValues.Lower` lowers ASCII letters only.
- `JsValues.IsSpace` covers the white space `trim` removes. It has no Unicode categories beyond those listed.
- `ObjectIds.IsObjectId`: `ObjectId.isValid` also accepts any 12-character string. The model accepts only 24 hexadecimal digits.
- `MovieControllers.MovieCollection.Delete`: a number, boolean or object id is a cast error (500), and so is an array element of those kinds. An object carrying query operators, which the store would evaluate as a filter, is not modelled; nor is a nested-array element, which the store would read through its string form.
- `MovieControllers.MovieCollection.Create` and `MovieControllers.MovieCollection.Update` look the slug up by `String(slug)`. The store reads a one-element array query as `$in`, and a flat array slug agrees with this. A nested-array slug, which the store would refuse with a cast error, is not distinguished.
- Query parameters are single strings or absent. Repeated parameters, which arrive as arrays, are not modelled.
- Sort ties: `$sort` is modelled as a stable sort that keeps insertion order among equal keys. The store leaves that order unspecified.
- `MovieStore.IndexOfAny`: which of several records an unsorted `findOneAndDelete` removes is not specified by the store (an `_id` `$in` query is usually answered from the `_id` index). The model takes the first in insertion order, so `MovieCollection.Delete` with an array of several ids promises that choice where the store promises only some matching record.
- `MovieStore.SkipOf` is unbounded. The skip overflowing the store's 64-bit limit is not modelled.
- The store is a sequence in insertion order, not a map from id to record. The natural order is what `findOne({isActive: true})` and the stable sort depend on. Ids are kept distinct as an invariant.
- Save change-tracking: `save()` writes only the paths that changed in memory, and the schema's timestamps (model/siteSettings.js:56) stamp `updatedAt` only when some path changed. The settings update and activation model this by comparing the record before and after the assignments. The movie update uses `findByIdAndUpdate`, whose `$set` always stamps `updatedAt`, so its model stamps on every successful update.
- `SiteSettings.SettingCollection.Activate` follows the intended behaviour, not the code as written, for a target that is already active. See Findings.
- The race between `updateMany` and `save` in activation is not modelled. The model is sequential.
- Response envelopes (`success`, `message` and the JSON shape) are not modelled. Only status codes, payloads and the delete message are.

Behaviour of the code worth noting:

- `limit` has no lower clamp: it can be negative (0 becomes 10 through `|| 10`), and the store then refuses the pipeline;
- the notification title joins languages with " + " and the subtitle joins qualities with " / ";
- the subtitle fallback also applies when the quality list holds a single empty string.

## Findings

| source | as written | input that shows it | evidently intended | confidence | as-written member | corrected member |
|---|---|---|---|---|---|---|
| controllers/setting/settingControllers.js:79-86 | `updateMany` deactivates every active setting. Then `setting.isActive = true; save()` runs on the copy loaded before it, where `isActive` was already `true`. The path is not marked modified, so `save` writes nothing and the setting stays inactive. | activate the id of the setting that is currently active | afterwards the target is the only active setting, as for any other target | medium, not executed | SiteSettings.ActivatedAsWritten, SiteSettings.ActivatingActiveLeavesNone | SiteSettings.Activated, SiteSettings.ActivatedMeaning |
