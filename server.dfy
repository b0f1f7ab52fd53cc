/**
  The server's profile store: the validation the save endpoint performs
  before it writes, the document it writes, the default profile the fetch
  endpoint creates for an unknown user, and the store itself as a map from
  user id to document.
*/
module Server {
  import opened Text
  import Rewards
  import Handlers

  /** A JSON value as the request body parser produces it. */
  datatype Json =
    | JNull
    | JBool(b: bool)
    | JNumber(n: real)
    | JString(s: string)
    | JArray(items: seq<Json>)
    | JObject(fields: map<string, Json>)

  /** A stored document, or a request body: an object's fields. */
  type Doc = map<string, Json>

  /** `body.key`, None standing for `undefined`. */
  function Field(d: Doc, key: string): Option<Json>
  {
    if key in d then Some(d[key]) else None
  }

  /** `v.key` for a value that may be undefined: only objects have named fields. */
  function Member(v: Option<Json>, key: string): Option<Json>
  {
    if v.Some? && v.value.JObject? then Field(v.value.fields, key) else None
  }

  /** JavaScript truthiness of a possibly-undefined JSON value. */
  predicate Truthy(v: Option<Json>)
  {
    v.Some? &&
    match v.value
    case JNull => false
    case JBool(b) => b
    case JNumber(n) => n != 0.0
    case JString(s) => s != ""
    case JArray(_) => true
    case JObject(_) => true
  }

  /** `Array.isArray(v)`. */
  predicate IsArray(v: Option<Json>) { v.Some? && v.value.JArray? }

  /** `typeof v === "number"`. */
  predicate IsNumber(v: Option<Json>) { v.Some? && v.value.JNumber? }

  /** `typeof v === "object" && v !== null`: arrays pass this test too. */
  predicate IsNonNullObject(v: Option<Json>) { v.Some? && (v.value.JArray? || v.value.JObject?) }

  /** `validThemes.includes(v)`: strict equality with one of the five names. */
  predicate IsThemeName(v: Option<Json>) { v.Some? && v.value.JString? && v.value.s in Rewards.Catalogue }

  // ---------------------------------------------------------------------
  // Save validation

  datatype SaveError =
    | ArraysRequired
    | StatsNotObject
    | BadStatsFormat
    | PointsNotNumber
    | BadUnlockedTheme
    | BadCurrentTheme

  /** The message of the 400 response for each rejection. */
  function ErrorMessage(e: SaveError): string
  {
    match e
    case ArraysRequired => "Invalid data format: Arrays required"
    case StatsNotObject => "studyStats must be an object"
    case BadStatsFormat => "Invalid studyStats format"
    case PointsNotNumber => "Points must be a number"
    case BadUnlockedTheme => "Invalid theme in unlockedThemes"
    case BadCurrentTheme => "Invalid currentTheme"
  }

  /** Each rejection has its own message, so the client can tell them apart. */
  lemma ErrorMessageInjective(a: SaveError, b: SaveError)
    ensures ErrorMessage(a) == ErrorMessage(b) ==> a == b
  {
  }

  predicate ArraysOk(body: Doc)
  {
    IsArray(Field(body, "tasks")) && IsArray(Field(body, "badges")) &&
    IsArray(Field(body, "themes")) && IsArray(Field(body, "unlockedThemes"))
  }

  predicate StatsNumbers(stats: Option<Json>)
  {
    IsNumber(Member(stats, "totalHours")) && IsNumber(Member(stats, "completedTasks")) &&
    IsNumber(Member(stats, "streak"))
  }

  /** Every element of an array is one of the five theme names. */
  predicate AllThemeNames(items: seq<Json>)
  {
    forall i :: 0 <= i < |items| ==> IsThemeName(Some(items[i]))
  }

  /** Everything the save endpoint demands of a body, as one statement. */
  predicate Acceptable(body: Doc)
  {
    ArraysOk(body) &&
    Field(body, "studyStats").Some? && Field(body, "studyStats").value.JObject? &&
    StatsNumbers(Field(body, "studyStats")) &&
    IsNumber(Field(body, "points")) &&
    AllThemeNames(Field(body, "unlockedThemes").value.items) &&
    IsThemeName(Field(body, "currentTheme"))
  }

  /** The checks of the save endpoint, in their order: the first that fails is reported. */
  function ValidateSave(body: Doc): (r: Option<SaveError>)
    ensures r.None? <==> Acceptable(body)
    ensures r == Some(ArraysRequired) <==> !ArraysOk(body)
    ensures r == Some(StatsNotObject) <==> ArraysOk(body) && !IsNonNullObject(Field(body, "studyStats"))
    ensures r == Some(BadCurrentTheme) ==> Acceptable(body[ "currentTheme" := JString(Handlers.LightMode)])
  {
    var stats := Field(body, "studyStats");
    if !ArraysOk(body) then Some(ArraysRequired)
    else if !IsNonNullObject(stats) then Some(StatsNotObject)
    else if !StatsNumbers(stats) then Some(BadStatsFormat)
    else if !IsNumber(Field(body, "points")) then Some(PointsNotNumber)
    else if !AllThemeNames(Field(body, "unlockedThemes").value.items) then Some(BadUnlockedTheme)
    else if !IsThemeName(Field(body, "currentTheme")) then Some(BadCurrentTheme)
    else None
  }

  // ---------------------------------------------------------------------
  // The document a save writes

  /** `{ ...studyStats, studyHoursLog: studyStats.studyHoursLog || [] }`. */
  function MergedStats(stats: Doc): (r: Doc)
    ensures r.Keys == stats.Keys + {"studyHoursLog"}
    ensures forall k :: k in stats && k != "studyHoursLog" ==> r[k] == stats[k]
    ensures Truthy(Field(r, "studyHoursLog"))
  {
    var log := Field(stats, "studyHoursLog");
    stats["studyHoursLog" := if Truthy(log) then log.value else JArray([])]
  }

  /** The fields a save takes from the body. */
  const SavedKeys: set<string> := {"tasks", "studyStats", "points", "badges", "themes", "currentTheme", "unlockedThemes"}

  /** The update `findOneAndUpdate` applies to the stored document `doc`. */
  function Updated(doc: Doc, body: Doc): (r: Doc)
    requires Acceptable(body)
  {
    doc + map[
      "tasks" := body["tasks"],
      "studyStats" := JObject(MergedStats(body["studyStats"].fields)),
      "points" := body["points"],
      "badges" := body["badges"],
      "themes" := body["themes"],
      "currentTheme" := body["currentTheme"],
      "unlockedThemes" := body["unlockedThemes"]]
  }

  /** The document an upsert starts from: the stored one, or one holding only the user id. */
  function Base(users: map<string, Doc>, userId: string): Doc
  {
    if userId in users then users[userId] else map["userId" := JString(userId)]
  }

  /** The profile created for a user with no document; `today` is the server's ISO date. */
  function DefaultDoc(userId: string, today: string): Doc
  {
    map[
      "userId" := JString(userId),
      "tasks" := JArray([]),
      "studyStats" := JObject(map[
        "totalHours" := JNumber(0.0),
        "completedTasks" := JNumber(0.0),
        "streak" := JNumber(0.0),
        "lastActiveDate" := JString(today),
        "lastStreakUpdate" := JString(today),
        "studyHoursLog" := JArray([])]),
      "points" := JNumber(0.0),
      "badges" := JArray([]),
      "themes" := JArray(ThemeValues(Rewards.Catalogue)),
      "currentTheme" := JString(Handlers.LightMode),
      "unlockedThemes" := JArray([JString(Handlers.LightMode)]),
      "cachedSuggestions" := JObject(map[])]
  }

  /** Names as JSON strings. */
  function ThemeValues(names: seq<string>): (r: seq<Json>)
    ensures |r| == |names|
    ensures forall i :: 0 <= i < |r| ==> r[i] == JString(names[i])
  {
    if names == [] then [] else [JString(names[0])] + ThemeValues(names[1..])
  }

  // ---------------------------------------------------------------------
  // The store

  datatype SaveReply = Saved(doc: Doc) | Rejected(error: SaveError)

  /** The documents by user id, standing for the database collection. */
  class UserStore {
    var users: map<string, Doc>

    constructor ()
      ensures users == map[]
    {
      users := map[];
    }

    /** GET /api/user/:userId: the stored document, or a new default one, stored first. */
    method Fetch(userId: string, today: string) returns (doc: Doc)
      modifies this
      ensures userId in old(users) ==> doc == old(users)[userId] && users == old(users)
      ensures userId !in old(users) ==> doc == DefaultDoc(userId, today) && users == old(users)[userId := doc]
    {
      if userId in users {
        doc := users[userId];
      } else {
        doc := DefaultDoc(userId, today);
        users := users[userId := doc];
      }
    }

    /** POST /api/user/:userId: validate, then upsert the seven fields. */
    method Save(userId: string, body: Doc) returns (r: SaveReply)
      modifies this
      ensures ValidateSave(body).Some? ==> r == Rejected(ValidateSave(body).value) && users == old(users)
      ensures ValidateSave(body).None? ==>
        r == Saved(Updated(Base(old(users), userId), body)) && users == old(users)[userId := r.doc]
    {
      var error := ValidateSave(body);
      if error.Some? {
        return Rejected(error.value);
      }
      var doc := Updated(Base(users, userId), body);
      users := users[userId := doc];
      r := Saved(doc);
    }
  }

  // ---------------------------------------------------------------------
  // Properties

  /** An array passes the object test but has none of the numeric fields, so it is refused one step later. */
  lemma ArrayStatsRejected(body: Doc)
    requires ArraysOk(body) && Field(body, "studyStats").Some? && Field(body, "studyStats").value.JArray?
    ensures ValidateSave(body) == Some(BadStatsFormat)
  {
  }

  /** What a successful save writes: the six plain fields as sent and the merged stats. */
  lemma UpdatedFields(doc: Doc, body: Doc)
    requires Acceptable(body)
    ensures forall k :: k in SavedKeys && k != "studyStats" ==> Updated(doc, body)[k] == body[k]
    ensures Updated(doc, body)["studyStats"] == JObject(MergedStats(body["studyStats"].fields))
  {
  }

  /** A successful save adds the seven fields and keeps every other stored field, such as the cached suggestions. */
  lemma UpdatedKeeps(doc: Doc, body: Doc)
    requires Acceptable(body)
    ensures Updated(doc, body).Keys == doc.Keys + SavedKeys
    ensures forall k :: k in doc && k !in SavedKeys ==> Updated(doc, body)[k] == doc[k]
  {
  }

  /** A log that is present and truthy is stored as it was sent; a missing or falsy one becomes `[]`. */
  lemma MergedStatsLog(stats: Doc)
    ensures Truthy(Field(stats, "studyHoursLog")) ==> MergedStats(stats) == stats
    ensures !Truthy(Field(stats, "studyHoursLog")) ==> MergedStats(stats)["studyHoursLog"] == JArray([])
  {
    if Truthy(Field(stats, "studyHoursLog")) {
      assert MergedStats(stats).Keys == stats.Keys;
    }
  }

  /** Sending the same body twice stores the same document as sending it once. */
  lemma UpdatedIdempotent(doc: Doc, body: Doc)
    requires Acceptable(body)
    ensures Updated(Updated(doc, body), body) == Updated(doc, body)
  {
    var once := Updated(doc, body);
    assert Updated(once, body).Keys == once.Keys;
  }

  /** The default profile, sent back as it was fetched, passes every check of the save endpoint. */
  lemma DefaultAccepted(userId: string, today: string)
    ensures ValidateSave(DefaultDoc(userId, today)) == None
  {
    var d := DefaultDoc(userId, today);
    var names := ThemeValues(Rewards.Catalogue);
    assert Rewards.Catalogue[0] == Handlers.LightMode;
    assert Field(d, "unlockedThemes").value.items == [JString(Handlers.LightMode)];
    assert IsThemeName(Some(JString(Handlers.LightMode)));
  }

  /** Saving the fetched default profile back leaves it exactly as it was. */
  lemma DefaultResaveUnchanged(userId: string, today: string)
    ensures Acceptable(DefaultDoc(userId, today))
    ensures Updated(DefaultDoc(userId, today), DefaultDoc(userId, today)) == DefaultDoc(userId, today)
  {
    var d := DefaultDoc(userId, today);
    DefaultAccepted(userId, today);
    MergedStatsLog(d["studyStats"].fields);
    ResaveUnchanged(d);
  }

  /** An acceptable document whose stats already hold a truthy log is its own update. */
  lemma ResaveUnchanged(d: Doc)
    requires Acceptable(d) && MergedStats(d["studyStats"].fields) == d["studyStats"].fields
    ensures Updated(d, d) == d
  {
    UpdatedKeeps(d, d);
    UpdatedFields(d, d);
    var u := Updated(d, d);
    assert u.Keys == d.Keys;
    assert forall k :: k in u ==> u[k] == d[k];
  }
}
