/**
 * The site-setting handlers: a collection of settings records of which at
 * most one is active. Create inserts an inactive record, activate
 * deactivates every record and then activates its target, update never
 * touches `isActive`, and delete refuses the active record.
 */
module SiteSettings {
  import opened Common
  import opened JsValues
  import opened Ordering
  import opened ObjectIds

  datatype SiteSetting = SiteSetting(
    id: Id,
    siteTitle: string,
    siteSubtitle: string,
    siteHeading: Option<string>,
    avatarUrl: string,
    rememberWebsiteName: Option<string>,
    currentDomain: Option<string>,
    isActive: bool,
    lastUpdatedBy: string,
    createdAt: int,
    updatedAt: int)

  /** The fields a create or update body may carry; `None` is `undefined`. */
  datatype SettingBody = SettingBody(
    siteTitle: Option<string>,
    siteSubtitle: Option<string>,
    siteHeading: Option<string>,
    avatarUrl: Option<string>,
    rememberWebsiteName: Option<string>,
    currentDomain: Option<string>)

  // ---------------------------------------------------------------- the collection

  predicate DistinctIds(docs: seq<SiteSetting>) {
    forall i, j :: 0 <= i < j < |docs| ==> docs[i].id != docs[j].id
  }

  predicate CanonicalIds(docs: seq<SiteSetting>) {
    forall k :: 0 <= k < |docs| ==> IsCanonicalId(docs[k].id)
  }

  /** What the schema's `required` rule on `siteTitle` keeps: every stored title is non-empty. */
  predicate TitlesPresent(docs: seq<SiteSetting>) {
    forall k :: 0 <= k < |docs| ==> docs[k].siteTitle != ""
  }

  /** The key invariant: no two records are active. */
  predicate AtMostOneActive(docs: seq<SiteSetting>) {
    forall i, j :: 0 <= i < j < |docs| && docs[i].isActive ==> !docs[j].isActive
  }

  /** The ids of the active records. */
  function ActiveIds(docs: seq<SiteSetting>): set<Id> {
    set k | 0 <= k < |docs| && docs[k].isActive :: docs[k].id
  }

  /** Two versions of a record that differ at most in `isActive` and `updatedAt`. */
  predicate SameContent(a: SiteSetting, b: SiteSetting) {
    a.(isActive := false, updatedAt := 0) == b.(isActive := false, updatedAt := 0)
  }

  function IndexOf(docs: seq<SiteSetting>, id: Id): (r: Option<nat>)
    ensures r.Some? ==> r.value < |docs| && docs[r.value].id == id
    ensures r.None? <==> forall k :: 0 <= k < |docs| ==> docs[k].id != id
  {
    if docs == [] then None
    else if docs[0].id == id then Some(0)
    else match IndexOf(docs[1..], id)
      case None =>
        assert forall k :: 1 <= k < |docs| ==> docs[k] == docs[1..][k - 1];
        None
      case Some(k) => Some(k + 1)
  }

  /** `findOne({ isActive: true })`: the first active record in natural order. */
  function FirstActive(docs: seq<SiteSetting>): (r: Option<nat>)
    ensures r.Some? ==> r.value < |docs| && docs[r.value].isActive
    ensures r.None? <==> forall k :: 0 <= k < |docs| ==> !docs[k].isActive
  {
    if docs == [] then None
    else if docs[0].isActive then Some(0)
    else match FirstActive(docs[1..])
      case None =>
        assert forall k :: 1 <= k < |docs| ==> docs[k] == docs[1..][k - 1];
        None
      case Some(k) => Some(k + 1)
  }

  /** Under the invariant the active record, when there is one, is the only one. */
  lemma FirstActiveIsTheActive(docs: seq<SiteSetting>)
    requires AtMostOneActive(docs) && FirstActive(docs).Some?
    ensures ActiveIds(docs) == {docs[FirstActive(docs).value].id}
  {
    var k := FirstActive(docs).value;
    assert forall j :: 0 <= j < |docs| && docs[j].isActive ==> j == k;
  }

  // ---------------------------------------------------------------- create and update

  /** `req.user?.email || "admin"`. */
  function LastUpdatedBy(email: Option<string>): (r: string)
    ensures r != ""
  {
    if ParamTruthy(email) then email.value else "admin"
  }

  function TrimOpt(v: Option<string>): Option<string> {
    match v
    case None => None
    case Some(s) => Some(Trim(s))
  }

  /**
   * The record `create` stores: the schema trims every text field except
   * `avatarUrl`, defaults the subtitle and avatar to "", and the handler
   * forces `isActive` off.
   */
  function NewSetting(b: SettingBody, id: Id, email: Option<string>, now: int): (s: SiteSetting)
    requires b.siteTitle.Some?
    ensures !s.isActive && s.id == id && s.lastUpdatedBy == LastUpdatedBy(email)
    ensures s.createdAt == now && s.updatedAt == now
    ensures s.siteTitle == Trim(b.siteTitle.value) && IsTrimmed(s.siteTitle)
    ensures b.siteSubtitle.None? ==> s.siteSubtitle == ""
    ensures b.siteSubtitle.Some? ==> s.siteSubtitle == Trim(b.siteSubtitle.value)
    ensures b.avatarUrl.None? ==> s.avatarUrl == ""
    ensures b.avatarUrl.Some? ==> s.avatarUrl == b.avatarUrl.value
    ensures s.siteHeading.Some? <==> b.siteHeading.Some?
    ensures b.siteHeading.Some? ==> s.siteHeading == Some(Trim(b.siteHeading.value))
    ensures s.rememberWebsiteName.Some? <==> b.rememberWebsiteName.Some?
    ensures b.rememberWebsiteName.Some? ==> s.rememberWebsiteName == Some(Trim(b.rememberWebsiteName.value))
    ensures s.currentDomain.Some? <==> b.currentDomain.Some?
    ensures b.currentDomain.Some? ==> s.currentDomain == Some(Trim(b.currentDomain.value))
  {
    TrimSpec(b.siteTitle.value);
    SiteSetting(
      id := id,
      siteTitle := Trim(b.siteTitle.value),
      siteSubtitle := Trim(b.siteSubtitle.GetOr("")),
      siteHeading := TrimOpt(b.siteHeading),
      avatarUrl := b.avatarUrl.GetOr(""),
      rememberWebsiteName := TrimOpt(b.rememberWebsiteName),
      currentDomain := TrimOpt(b.currentDomain),
      isActive := false,
      lastUpdatedBy := LastUpdatedBy(email),
      createdAt := now,
      updatedAt := now)
  }

  /**
   * The record `update` saves: each field the body defines is assigned
   * (through the schema's trim) and `lastUpdatedBy` is reset. The save
   * stamps `updatedAt` only when some field now differs from the stored
   * one; a save with nothing modified writes nothing.
   */
  function UpdatedSetting(s: SiteSetting, b: SettingBody, email: Option<string>, now: int): SiteSetting {
    var loaded := Assigned(s, b, email);
    if loaded == s then s else loaded.(updatedAt := now)
  }

  /** The loaded record after the controller's assignments, before the save. */
  function Assigned(s: SiteSetting, b: SettingBody, email: Option<string>): SiteSetting {
    s.(
      siteTitle := if b.siteTitle.Some? then Trim(b.siteTitle.value) else s.siteTitle,
      siteSubtitle := if b.siteSubtitle.Some? then Trim(b.siteSubtitle.value) else s.siteSubtitle,
      siteHeading := if b.siteHeading.Some? then TrimOpt(b.siteHeading) else s.siteHeading,
      avatarUrl := if b.avatarUrl.Some? then b.avatarUrl.value else s.avatarUrl,
      rememberWebsiteName := if b.rememberWebsiteName.Some? then TrimOpt(b.rememberWebsiteName) else s.rememberWebsiteName,
      currentDomain := if b.currentDomain.Some? then TrimOpt(b.currentDomain) else s.currentDomain,
      lastUpdatedBy := LastUpdatedBy(email))
  }

  /**
   * An update never changes `isActive`, the id or the creation time, keeps
   * every field the body leaves undefined, stores every supplied one through
   * the schema's trim (the avatar as given), and always resets `lastUpdatedBy`.
   */
  lemma UpdateTouchesOnlySupplied(s: SiteSetting, b: SettingBody, email: Option<string>, now: int)
    ensures var u := UpdatedSetting(s, b, email, now);
            && u.isActive == s.isActive && u.id == s.id && u.createdAt == s.createdAt
            && u.lastUpdatedBy == LastUpdatedBy(email)
            && (u.(updatedAt := s.updatedAt) == s ==> u == s)
            && (u.(updatedAt := s.updatedAt) != s ==> u.updatedAt == now)
            && (b.siteTitle.None? ==> u.siteTitle == s.siteTitle)
            && (b.siteSubtitle.None? ==> u.siteSubtitle == s.siteSubtitle)
            && (b.siteHeading.None? ==> u.siteHeading == s.siteHeading)
            && (b.avatarUrl.None? ==> u.avatarUrl == s.avatarUrl)
            && (b.rememberWebsiteName.None? ==> u.rememberWebsiteName == s.rememberWebsiteName)
            && (b.currentDomain.None? ==> u.currentDomain == s.currentDomain)
            && (b.avatarUrl.Some? ==> u.avatarUrl == b.avatarUrl.value)
            && (b.siteTitle.Some? ==> u.siteTitle == Trim(b.siteTitle.value))
            && (b.siteSubtitle.Some? ==> u.siteSubtitle == Trim(b.siteSubtitle.value))
            && (b.siteHeading.Some? ==> u.siteHeading == TrimOpt(b.siteHeading))
            && (b.rememberWebsiteName.Some? ==> u.rememberWebsiteName == TrimOpt(b.rememberWebsiteName))
            && (b.currentDomain.Some? ==> u.currentDomain == TrimOpt(b.currentDomain))
  {
  }

  /** A body that defines no field, sent by the user who last updated, leaves the record exactly as stored. */
  lemma UpdateWithNothingNewKeepsRecord(s: SiteSetting, b: SettingBody, email: Option<string>, now: int)
    requires b.siteTitle.None? && b.siteSubtitle.None? && b.siteHeading.None?
    requires b.avatarUrl.None? && b.rememberWebsiteName.None? && b.currentDomain.None?
    requires s.lastUpdatedBy == LastUpdatedBy(email)
    ensures UpdatedSetting(s, b, email, now) == s
  {
  }

  /** A new value for any field, or a different updater, gets the save's time stamp. */
  lemma UpdateWithChangeStamps(s: SiteSetting, b: SettingBody, email: Option<string>, now: int)
    requires || s.lastUpdatedBy != LastUpdatedBy(email)
             || (b.siteTitle.Some? && Trim(b.siteTitle.value) != s.siteTitle)
             || (b.avatarUrl.Some? && b.avatarUrl.value != s.avatarUrl)
    ensures UpdatedSetting(s, b, email, now).updatedAt == now
    ensures UpdatedSetting(s, b, email, now) != s
  {
  }

  // ---------------------------------------------------------------- activation

  /** `updateMany({ isActive: true }, { $set: { isActive: false } })`, which also stamps the records it changes. */
  function DeactivateAll(docs: seq<SiteSetting>, now: int): (r: seq<SiteSetting>)
    ensures |r| == |docs|
    ensures forall k :: 0 <= k < |r| ==> !r[k].isActive && SameContent(r[k], docs[k])
    ensures forall k :: 0 <= k < |r| && !docs[k].isActive ==> r[k] == docs[k]
  {
    seq(|docs|, k requires 0 <= k < |docs| =>
      if docs[k].isActive then docs[k].(isActive := false, updatedAt := now) else docs[k])
  }

  /** The intended activation: every record deactivated, then the target saved active. */
  function Activated(docs: seq<SiteSetting>, k: nat, now: int): seq<SiteSetting>
    requires k < |docs|
  {
    DeactivateAll(docs, now)[k := docs[k].(isActive := true, updatedAt := now)]
  }

  /**
   * After activation the target is the one active record, nothing is added
   * or removed, and no field other than `isActive` and `updatedAt` changes.
   */
  lemma ActivatedMeaning(docs: seq<SiteSetting>, k: nat, now: int)
    requires k < |docs|
    ensures var r := Activated(docs, k, now);
            && |r| == |docs| && r[k].isActive
            && (forall j :: 0 <= j < |r| ==> (r[j].isActive <==> j == k))
            && (forall j :: 0 <= j < |r| ==> SameContent(r[j], docs[j]))
            && AtMostOneActive(r)
            && ActiveIds(r) == {docs[k].id}
  {
    var r := Activated(docs, k, now);
    assert forall j :: 0 <= j < |r| ==> (r[j].isActive <==> j == k);
    assert r[k].id == docs[k].id;
  }

  /** A change that keeps every id and title keeps the ids distinct and canonical and the titles present. */
  lemma SameIdsKeepValid(docs: seq<SiteSetting>, r: seq<SiteSetting>)
    requires |r| == |docs| && forall k :: 0 <= k < |r| ==> r[k].id == docs[k].id && r[k].siteTitle == docs[k].siteTitle
    requires DistinctIds(docs) && CanonicalIds(docs) && TitlesPresent(docs)
    ensures DistinctIds(r) && CanonicalIds(r) && TitlesPresent(r)
  {
  }

  /**
   * The activation as written: the loaded record is set active and saved,
   * but a save writes only what differs from the loaded record, so a target
   * that was already active stays deactivated by the `updateMany`.
   */
  function ActivatedAsWritten(docs: seq<SiteSetting>, k: nat, now: int): seq<SiteSetting>
    requires k < |docs|
  {
    if docs[k].isActive then DeactivateAll(docs, now)
    else Activated(docs, k, now)
  }

  /** Activating the setting that is already active leaves no active setting at all. */
  lemma ActivatingActiveLeavesNone(docs: seq<SiteSetting>, k: nat, now: int)
    requires k < |docs| && docs[k].isActive
    ensures ActiveIds(ActivatedAsWritten(docs, k, now)) == {}
    ensures ActiveIds(Activated(docs, k, now)) == {docs[k].id}
  {
    ActivatedMeaning(docs, k, now);
  }

  /** For a target that was not active, the code as written does what is intended. */
  lemma AsWrittenAgreesOnInactive(docs: seq<SiteSetting>, k: nat, now: int)
    requires k < |docs| && !docs[k].isActive
    ensures ActivatedAsWritten(docs, k, now) == Activated(docs, k, now)
  {
  }

  // ---------------------------------------------------------------- removal

  /** A record other than the removed one remains. */
  lemma RemoveAtKeepsOther(docs: seq<SiteSetting>, k: nat, j: nat)
    requires k < |docs| && j < |docs| && j != k
    ensures docs[j] in RemoveAt(docs, k)
  {
    RemoveAtIndices(docs, k);
    if j < k {
      assert RemoveAt(docs, k)[j] == docs[j];
    } else {
      assert RemoveAt(docs, k)[j - 1] == docs[j];
    }
  }

  /** A remaining record was there before and is not the removed one. */
  lemma RemoveAtKeptWasThere(docs: seq<SiteSetting>, k: nat, j: nat)
    requires k < |docs| && DistinctIds(docs) && j < |docs| - 1
    ensures RemoveAt(docs, k)[j] in docs && RemoveAt(docs, k)[j].id != docs[k].id
  {
    RemoveAtIndices(docs, k);
    var i := if j < k then j else j + 1;
    assert RemoveAt(docs, k)[j] == docs[i] && i != k;
  }

  /** Removing one record of a collection with distinct ids keeps exactly the records with other ids. */
  lemma RemoveKeepsOthers(docs: seq<SiteSetting>, k: nat)
    requires k < |docs| && DistinctIds(docs)
    ensures forall s :: s in RemoveAt(docs, k) <==> s in docs && s.id != docs[k].id
  {
    var r := RemoveAt(docs, k);
    forall s | s in docs && s.id != docs[k].id
      ensures s in r
    {
      var j :| 0 <= j < |docs| && docs[j] == s;
      RemoveAtKeepsOther(docs, k, j);
    }
    forall s | s in r
      ensures s in docs && s.id != docs[k].id
    {
      var j :| 0 <= j < |r| && r[j] == s;
      RemoveAtKeptWasThere(docs, k, j);
    }
  }

  /** Removing an inactive record keeps the active ids and the invariant. */
  lemma RemoveInactiveKeepsActive(docs: seq<SiteSetting>, k: nat)
    requires k < |docs| && !docs[k].isActive
    ensures ActiveIds(RemoveAt(docs, k)) == ActiveIds(docs)
    ensures AtMostOneActive(docs) ==> AtMostOneActive(RemoveAt(docs, k))
  {
    var r := RemoveAt(docs, k);
    RemoveAtIndices(docs, k);
    forall x | x in ActiveIds(docs)
      ensures x in ActiveIds(r)
    {
      var j :| 0 <= j < |docs| && docs[j].isActive && docs[j].id == x;
      var i := if j < k then j else j - 1;
      assert r[i] == docs[j];
    }
    forall x | x in ActiveIds(r)
      ensures x in ActiveIds(docs)
    {
      var j :| 0 <= j < |r| && r[j].isActive && r[j].id == x;
      var i := if j < k then j else j + 1;
      assert r[j] == docs[i];
    }
    if AtMostOneActive(docs) {
      forall i, j | 0 <= i < j < |r| && r[i].isActive
        ensures !r[j].isActive
      {
        var i' := if i < k then i else i + 1;
        var j' := if j < k then j else j + 1;
        assert r[i] == docs[i'] && r[j] == docs[j'] && i' < j';
      }
    }
  }

  lemma RemoveKeepsIds(docs: seq<SiteSetting>, k: nat)
    requires k < |docs| && DistinctIds(docs) && CanonicalIds(docs)
    ensures DistinctIds(RemoveAt(docs, k)) && CanonicalIds(RemoveAt(docs, k))
    ensures TitlesPresent(docs) ==> TitlesPresent(RemoveAt(docs, k))
  {
    RemoveAtIndices(docs, k);
    var r := RemoveAt(docs, k);
    forall i, j | 0 <= i < j < |r|
      ensures r[i].id != r[j].id
    {
      var i' := if i < k then i else i + 1;
      var j' := if j < k then j else j + 1;
      assert r[i] == docs[i'] && r[j] == docs[j'] && i' < j';
    }
  }

  // ---------------------------------------------------------------- listing

  function CreatedKey(s: SiteSetting): Key {
    Key(s.createdAt, 0)
  }

  ghost predicate LatestFirst(s: seq<SiteSetting>) {
    forall i, j :: 0 <= i < j < |s| ==> s[i].createdAt >= s[j].createdAt
  }

  lemma CreatedKeyOrder(s: seq<SiteSetting>)
    requires Descending(s, CreatedKey)
    ensures LatestFirst(s)
  {
    forall i, j | 0 <= i < j < |s|
      ensures s[i].createdAt >= s[j].createdAt
    {
      assert AtLeast(CreatedKey(s[i]), CreatedKey(s[j]));
    }
  }

  // ---------------------------------------------------------------- the handlers

  class SettingCollection {
    /** The stored settings in insertion order. */
    var docs: seq<SiteSetting>

    ghost predicate Valid()
      reads this
    {
      DistinctIds(docs) && CanonicalIds(docs) && TitlesPresent(docs)
    }

    constructor()
      ensures Valid() && docs == []
    {
      docs := [];
    }

    /**
     * `createSiteSetting`: a falsy title is 400; a title that is only white
     * space passes that check but is empty once the schema trims it, so the
     * `required` rule refuses it (500); otherwise one inactive record is
     * added. `newId` is the id the store assigns; an id already in use is a
     * store error (500).
     */
    method Create(b: SettingBody, newId: Id, email: Option<string>, now: int) returns (r: Result<SiteSetting>)
      requires Valid() && IsCanonicalId(newId)
      modifies this
      ensures Valid()
      ensures !ParamTruthy(b.siteTitle) ==> r == Err(BadRequest)
      ensures ParamTruthy(b.siteTitle) && Trim(b.siteTitle.value) == "" ==> r == Err(ServerError)
      ensures r.Ok? <==> ParamTruthy(b.siteTitle) && Trim(b.siteTitle.value) != "" && IndexOf(old(docs), newId).None?
      ensures r.Err? ==> docs == old(docs)
      ensures r.Ok? ==> r.value == NewSetting(b, newId, email, now) && docs == old(docs) + [r.value]
      ensures r.Ok? ==> !r.value.isActive && r.value.lastUpdatedBy == LastUpdatedBy(email)
      ensures ActiveIds(docs) == ActiveIds(old(docs))
      ensures AtMostOneActive(old(docs)) ==> AtMostOneActive(docs)
    {
      if !ParamTruthy(b.siteTitle) {
        return Err(BadRequest);
      }
      if Trim(b.siteTitle.value) == "" {
        return Err(ServerError);
      }
      if IndexOf(docs, newId).Some? {
        return Err(ServerError);
      }
      var s := NewSetting(b, newId, email, now);
      AppendInactive(docs, s);
      AppendKeepsIds(docs, s);
      docs := docs + [s];
      return Ok(s);
    }

    /** `getActiveSiteSetting`: the active record, or 404 when none is active. */
    method GetActive() returns (r: Result<SiteSetting>)
      ensures r.Ok? <==> ActiveIds(docs) != {}
      ensures r.Err? ==> r == Err(NotFound)
      ensures r.Ok? ==> r.value in docs && r.value.isActive
      ensures r.Ok? && AtMostOneActive(docs) ==> ActiveIds(docs) == {r.value.id}
    {
      var found := FirstActive(docs);
      if found.None? {
        assert forall x :: x !in ActiveIds(docs);
        return Err(NotFound);
      }
      assert docs[found.value].id in ActiveIds(docs);
      if AtMostOneActive(docs) {
        FirstActiveIsTheActive(docs);
      }
      return Ok(docs[found.value]);
    }

    /**
     * `activateSiteSetting`: a malformed id is a cast error of the store
     * (500), an unknown one 404; otherwise every record is deactivated and
     * the target saved active, so it is then the only active record.
     */
    method Activate(id: string, now: int) returns (r: Result<SiteSetting>)
      requires Valid()
      modifies this
      ensures Valid()
      ensures !IsObjectId(id) ==> r == Err(ServerError)
      ensures r == Err(NotFound) <==> IsObjectId(id) && IndexOf(old(docs), CanonicalId(id)).None?
      ensures r.Ok? <==> IsObjectId(id) && IndexOf(old(docs), CanonicalId(id)).Some?
      ensures r.Err? ==> docs == old(docs)
      ensures r.Ok? ==>
                var k := IndexOf(old(docs), CanonicalId(id)).value;
                && docs == Activated(old(docs), k, now)
                && r.value == docs[k]
                && ActiveIds(docs) == {CanonicalId(id)}
      ensures r.Ok? ==> |docs| == |old(docs)| && forall j :: 0 <= j < |docs| ==> SameContent(docs[j], old(docs)[j])
      ensures r.Ok? ==> AtMostOneActive(docs)
      ensures AtMostOneActive(old(docs)) ==> AtMostOneActive(docs)
    {
      if !IsObjectId(id) {
        return Err(ServerError);
      }
      var found := IndexOf(docs, CanonicalId(id));
      if found.None? {
        return Err(NotFound);
      }
      var k := found.value;
      var setting := docs[k];
      ActivatedMeaning(docs, k, now);
      var deactivated := DeactivateAll(docs, now);
      setting := setting.(isActive := true, updatedAt := now);
      SameIdsKeepValid(docs, deactivated[k := setting]);
      docs := deactivated[k := setting];
      return Ok(setting);
    }

    /** `getAllSiteSettings`: every record, latest first, with their count. */
    method ListAll() returns (count: nat, data: seq<SiteSetting>)
      ensures data == SortDesc(docs, CreatedKey)
      ensures count == |data| == |docs|
      ensures multiset(data) == multiset(docs)
      ensures LatestFirst(data)
    {
      data := SortDesc(docs, CreatedKey);
      CreatedKeyOrder(data);
      count := |data|;
    }

    /**
     * `updateSiteSetting`: a malformed id is 500, an unknown one 404;
     * otherwise the loaded record gets each supplied field and a fresh
     * `lastUpdatedBy`, and is saved. The save refuses a supplied title that
     * is empty once trimmed (500), by the schema's `required` rule.
     */
    method Update(id: string, b: SettingBody, email: Option<string>, now: int) returns (r: Result<SiteSetting>)
      requires Valid()
      modifies this
      ensures Valid()
      ensures !IsObjectId(id) ==> r == Err(ServerError)
      ensures r == Err(NotFound) <==> IsObjectId(id) && IndexOf(old(docs), CanonicalId(id)).None?
      ensures IsObjectId(id) && IndexOf(old(docs), CanonicalId(id)).Some? && b.siteTitle.Some? && Trim(b.siteTitle.value) == ""
              ==> r == Err(ServerError)
      ensures r.Ok? <==> IsObjectId(id) && IndexOf(old(docs), CanonicalId(id)).Some?
                         && !(b.siteTitle.Some? && Trim(b.siteTitle.value) == "")
      ensures r.Err? ==> docs == old(docs)
      ensures r.Ok? ==>
                var k := IndexOf(old(docs), CanonicalId(id)).value;
                && r.value == UpdatedSetting(old(docs)[k], b, email, now)
                && docs == old(docs)[k := r.value]
                && r.value.isActive == old(docs)[k].isActive
      ensures ActiveIds(docs) == ActiveIds(old(docs))
      ensures AtMostOneActive(old(docs)) ==> AtMostOneActive(docs)
    {
      if !IsObjectId(id) {
        return Err(ServerError);
      }
      var found := IndexOf(docs, CanonicalId(id));
      if found.None? {
        return Err(NotFound);
      }
      var k := found.value;
      var setting := docs[k];
      var siteTitle, siteSubtitle, siteHeading := setting.siteTitle, setting.siteSubtitle, setting.siteHeading;
      var avatarUrl, rememberWebsiteName, currentDomain := setting.avatarUrl, setting.rememberWebsiteName, setting.currentDomain;
      if b.siteTitle.Some? {
        siteTitle := Trim(b.siteTitle.value);
      }
      if b.siteSubtitle.Some? {
        siteSubtitle := Trim(b.siteSubtitle.value);
      }
      if b.siteHeading.Some? {
        siteHeading := TrimOpt(b.siteHeading);
      }
      if b.avatarUrl.Some? {
        avatarUrl := b.avatarUrl.value;
      }
      if b.rememberWebsiteName.Some? {
        rememberWebsiteName := TrimOpt(b.rememberWebsiteName);
      }
      if b.currentDomain.Some? {
        currentDomain := TrimOpt(b.currentDomain);
      }
      if siteTitle == "" {
        return Err(ServerError);
      }
      var loaded := setting.(
        siteTitle := siteTitle, siteSubtitle := siteSubtitle, siteHeading := siteHeading,
        avatarUrl := avatarUrl, rememberWebsiteName := rememberWebsiteName, currentDomain := currentDomain,
        lastUpdatedBy := LastUpdatedBy(email));
      assert loaded == Assigned(docs[k], b, email);
      if loaded != setting {
        setting := loaded.(updatedAt := now);
      }
      assert setting == UpdatedSetting(docs[k], b, email, now);
      ReplaceKeepsActive(docs, k, setting);
      docs := docs[k := setting];
      return Ok(setting);
    }

    /**
     * `deleteSiteSetting`: a malformed id is 500, an unknown one 404, the
     * active record 400 and kept; otherwise exactly that record is removed.
     */
    method Delete(id: string) returns (r: Result<string>)
      requires Valid()
      modifies this
      ensures Valid()
      ensures !IsObjectId(id) ==> r == Err(ServerError)
      ensures r == Err(NotFound) <==> IsObjectId(id) && IndexOf(old(docs), CanonicalId(id)).None?
      ensures r == Err(BadRequest) <==>
                IsObjectId(id) && IndexOf(old(docs), CanonicalId(id)).Some?
                && old(docs)[IndexOf(old(docs), CanonicalId(id)).value].isActive
      ensures r.Err? ==> docs == old(docs)
      ensures r.Ok? ==>
                var k := IndexOf(old(docs), CanonicalId(id)).value;
                && !old(docs)[k].isActive
                && docs == RemoveAt(old(docs), k)
                && forall s :: s in docs <==> s in old(docs) && s.id != CanonicalId(id)
      ensures ActiveIds(docs) == ActiveIds(old(docs))
      ensures AtMostOneActive(old(docs)) ==> AtMostOneActive(docs)
    {
      if !IsObjectId(id) {
        return Err(ServerError);
      }
      var found := IndexOf(docs, CanonicalId(id));
      if found.None? {
        return Err(NotFound);
      }
      var k := found.value;
      if docs[k].isActive {
        return Err(BadRequest);
      }
      RemoveKeepsOthers(docs, k);
      RemoveInactiveKeepsActive(docs, k);
      RemoveKeepsIds(docs, k);
      docs := RemoveAt(docs, k);
      return Ok("Site setting deleted successfully");
    }
  }

  /** Appending an inactive record adds no active id and keeps the invariant. */
  lemma AppendInactive(docs: seq<SiteSetting>, s: SiteSetting)
    requires !s.isActive
    ensures ActiveIds(docs + [s]) == ActiveIds(docs)
    ensures AtMostOneActive(docs) ==> AtMostOneActive(docs + [s])
  {
    var r := docs + [s];
    assert forall k :: 0 <= k < |docs| ==> r[k] == docs[k];
  }

  /** Appending a record with a fresh canonical id keeps the ids distinct and canonical, and one with a title keeps the titles present. */
  lemma AppendKeepsIds(docs: seq<SiteSetting>, s: SiteSetting)
    requires DistinctIds(docs) && CanonicalIds(docs) && IsCanonicalId(s.id)
    requires forall k :: 0 <= k < |docs| ==> docs[k].id != s.id
    ensures DistinctIds(docs + [s]) && CanonicalIds(docs + [s])
    ensures TitlesPresent(docs) && s.siteTitle != "" ==> TitlesPresent(docs + [s])
  {
    var r := docs + [s];
    assert forall k :: 0 <= k < |docs| ==> r[k] == docs[k];
    assert r[|docs|] == s;
  }

  /** Replacing a record by one with the same id and activity keeps the active ids and the invariant. */
  lemma ReplaceKeepsActive(docs: seq<SiteSetting>, k: nat, s: SiteSetting)
    requires k < |docs| && s.id == docs[k].id && s.isActive == docs[k].isActive
    ensures ActiveIds(docs[k := s]) == ActiveIds(docs)
    ensures AtMostOneActive(docs) ==> AtMostOneActive(docs[k := s])
    ensures DistinctIds(docs) ==> DistinctIds(docs[k := s])
    ensures CanonicalIds(docs) ==> CanonicalIds(docs[k := s])
    ensures TitlesPresent(docs) && s.siteTitle != "" ==> TitlesPresent(docs[k := s])
  {
    var r := docs[k := s];
    assert forall j :: 0 <= j < |r| ==> r[j].id == docs[j].id && r[j].isActive == docs[j].isActive;
  }
}
