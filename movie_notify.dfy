/**
 * The notification feed's display helpers: `getTimeAgo` and the mapping of a
 * published movie to a notification entry.
 */
module MovieNotify {
  import opened Common
  import opened JsValues
  import opened ObjectIds
  import opened MovieSchema

  // ---------------------------------------------------------------- getTimeAgo

  datatype Interval = Interval(name: string, seconds: nat)

  /** The units tried in order, each with its length in seconds. */
  const Intervals: seq<Interval> := [
    Interval("year", 31536000),
    Interval("month", 2592000),
    Interval("day", 86400),
    Interval("hour", 3600),
    Interval("minute", 60)
  ]

  /** `Math.floor((now - createdAt) / 1000)`, both in milliseconds. */
  function ElapsedSeconds(now: int, createdAt: int): (s: int)
    ensures s * 1000 <= now - createdAt < s * 1000 + 1000
  {
    (now - createdAt) / 1000
  }

  /** `${count} ${label}${count > 1 ? "s" : ""} ago`. */
  function Ago(count: nat, unit: string): string {
    NatToString(count) + " " + unit + (if count > 1 then "s" else "") + " ago"
  }

  /** The relative time for `s` elapsed seconds, unit by unit from the largest. */
  function TimeAgoText(s: int): string {
    if s >= 31536000 then Ago(s / 31536000, "year")
    else if s >= 2592000 then Ago(s / 2592000, "month")
    else if s >= 86400 then Ago(s / 86400, "day")
    else if s >= 3600 then Ago(s / 3600, "hour")
    else if s >= 60 then Ago(s / 60, "minute")
    else "Just now"
  }

  /**
   * `getTimeAgo`: the loop over `Intervals` returns at the first unit that
   * fits at least once, and "Just now" when none does.
   */
  method GetTimeAgo(now: int, createdAt: int) returns (text: string)
    ensures text == TimeAgoText(ElapsedSeconds(now, createdAt))
  {
    var seconds := ElapsedSeconds(now, createdAt);
    for i := 0 to |Intervals|
      invariant forall j :: 0 <= j < i ==> seconds < Intervals[j].seconds
    {
      var interval := Intervals[i];
      var count := seconds / interval.seconds;
      if count >= 1 {
        TimeAgoAt(seconds, i);
        return Ago(count, interval.name);
      }
    }
    assert seconds < Intervals[4].seconds;
    return "Just now";
  }

  /** The unit at index `i` is the one chosen when it is the first that fits. */
  lemma TimeAgoAt(s: int, i: int)
    requires 0 <= i < |Intervals|
    requires s >= Intervals[i].seconds
    requires forall j :: 0 <= j < i ==> s < Intervals[j].seconds
    ensures TimeAgoText(s) == Ago(s / Intervals[i].seconds, Intervals[i].name)
  {
    if i > 0 { assert s < Intervals[0].seconds; }
    if i > 1 { assert s < Intervals[1].seconds; }
    if i > 2 { assert s < Intervals[2].seconds; }
    if i > 3 { assert s < Intervals[3].seconds; }
  }

  /** Fewer than sixty seconds, a negative difference included, is "Just now", and only then. */
  lemma JustNowExactly(s: int)
    ensures TimeAgoText(s) == "Just now" <==> s < 60
  {
    if s >= 60 {
      var t := TimeAgoText(s);
      assert t[|t| - 4..] == " ago";
    }
  }

  /** Above a minute the text names the largest unit that fits, with its count, pluralised iff the count exceeds one. */
  lemma TimeAgoUnit(s: int)
    requires s >= 60
    ensures exists k :: 0 <= k < |Intervals|
              && s >= Intervals[k].seconds
              && (forall j :: 0 <= j < k ==> s < Intervals[j].seconds)
              && TimeAgoText(s) == Ago(s / Intervals[k].seconds, Intervals[k].name)
  {
    if s >= 31536000 {
      assert TimeAgoText(s) == Ago(s / Intervals[0].seconds, Intervals[0].name);
    } else if s >= 2592000 {
      assert TimeAgoText(s) == Ago(s / Intervals[1].seconds, Intervals[1].name);
    } else if s >= 86400 {
      assert TimeAgoText(s) == Ago(s / Intervals[2].seconds, Intervals[2].name);
    } else if s >= 3600 {
      assert TimeAgoText(s) == Ago(s / Intervals[3].seconds, Intervals[3].name);
    } else {
      assert TimeAgoText(s) == Ago(s / Intervals[4].seconds, Intervals[4].name);
    }
  }

  /** A label is pluralised exactly when the count is more than one. */
  lemma AgoPlural(count: nat, unit: string)
    ensures var t := Ago(count, unit);
            var n := |NatToString(count)| + 1 + |unit|;
            && t[..n] == NatToString(count) + " " + unit
            && (count > 1 <==> |t| == n + 5 && t[n..] == "s ago")
            && (count <= 1 <==> |t| == n + 4 && t[n..] == " ago")
  {
  }

  lemma TimeAgoExamples()
    ensures TimeAgoText(3661) == "1 hour ago"
    ensures TimeAgoText(172800) == "2 days ago"
    ensures TimeAgoText(31536000) == "1 year ago"
  {
    assert NatToString(1) == "1";
    assert NatToString(2) == "2";
  }

  lemma JustNowExamples()
    ensures TimeAgoText(45) == "Just now"
    ensures TimeAgoText(-5) == "Just now"
  {
  }

  // ---------------------------------------------------------------- notification entries

  datatype NotificationKind = Trending | Plain

  /** The `type` field of an entry. */
  function KindText(k: NotificationKind): string {
    match k
    case Trending => "trending"
    case Plain => "movie"
  }

  datatype Notification = Notification(
    id: Id,
    title: string,
    subtitle: string,
    link: string,
    time: string,
    isSeen: bool,
    kind: NotificationKind,
    createdAt: int)

  const NoQualitySubtitle := "Now available for download"

  const QualityPrefix := "Download now available in "

  /**
   * The subtitle: the fallback exactly when no quality is listed, or only an
   * empty one; otherwise the qualities joined with " / " after a fixed prefix.
   */
  function Subtitle(quality: seq<string>): (r: string)
    ensures r == NoQualitySubtitle <==> |quality| == 0 || (|quality| == 1 && quality[0] == "")
    ensures r != NoQualitySubtitle ==> |r| > |QualityPrefix| && r[..|QualityPrefix|] == QualityPrefix
    ensures |quality| == 1 && quality[0] != "" ==> r == QualityPrefix + quality[0]
  {
    var qualities := Join(quality, " / ");
    JoinEmpty(quality, " / ");
    if qualities != "" then
      var r := QualityPrefix + qualities;
      assert r[0] == 'D' && NoQualitySubtitle[0] == 'N';
      r
    else NoQualitySubtitle
  }

  /**
   * One entry of the feed for a movie: `year` is the calendar year of its
   * creation time and `timeAgo` the relative time, both computed by the caller.
   */
  function FormatNotification(m: Movie, year: int, timeAgo: string): (n: Notification)
    ensures n.id == m.id && n.link == m.redirectUrl && n.createdAt == m.createdAt && n.time == timeAgo
    ensures !n.isSeen
    ensures n.kind == Trending <==> m.isTrending
    ensures n.subtitle == Subtitle(m.quality)
  {
    Notification(
      id := m.id,
      title := m.title + " (" + IntToString(year) + ") " + Join(m.language, " + "),
      subtitle := Subtitle(m.quality),
      link := m.redirectUrl,
      time := timeAgo,
      isSeen := false,
      kind := if m.isTrending then Trending else Plain,
      createdAt := m.createdAt)
  }

  /** An entry begins with the movie's title and falls back to the plain subtitle exactly when no quality is listed (or only an empty one). */
  lemma NotificationText(m: Movie, year: int, timeAgo: string)
    ensures var n := FormatNotification(m, year, timeAgo);
            && n.title[..|m.title|] == m.title
            && (n.subtitle == NoQualitySubtitle <==> |m.quality| == 0 || (|m.quality| == 1 && m.quality[0] == ""))
  {
    var n := FormatNotification(m, year, timeAgo);
  }
}
