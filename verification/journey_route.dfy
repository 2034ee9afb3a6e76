/** The journey routes (`app/api/admin/journey/route.ts` and
    `app/api/journey/route.ts`): the single journey row read back in
    camelCase with its defaults, and the admin `PUT` that upserts that row
    under a fixed id. Both files define the same `toCamelCase`. */
module JourneyRoute {
  import opened Wrappers
  import opened Js
  import Http
  import ApiAuth

  /** The id of the one journey row. */
  const SingletonId := "00000000-0000-0000-0000-000000000001"

  const DefaultTitle := "My Journey"

  /** The keys of the camelCase form. */
  const CamelKeys := {"title", "content", "imageUrl", "headline", "whoIAm", "whatIDo",
                      "shortTermGoals", "longTermGoals", "experience", "howIWork"}

  /** Neither `null` nor `undefined`: what `??` keeps. */
  predicate Present(v: JsVal)
  {
    !Nullish(v)
  }

  /** `a ?? fallback`: `a` unless it is `null` or `undefined`, '' and 0
      included. */
  function PresentOr(a: JsVal, fallback: JsVal): (r: JsVal)
    ensures Present(a) ==> r == a
    ensures !Present(a) ==> r == fallback
  {
    Coalesce(a, fallback)
  }

  /** `a ?? b ?? fallback`: the first of `a` and `b` that is present, '' and
      0 included, else the fallback. */
  function FirstPresent(a: JsVal, b: JsVal, fallback: JsVal): (r: JsVal)
    ensures Present(a) ==> r == a
    ensures !Present(a) && Present(b) ==> r == b
    ensures !Present(a) && !Present(b) ==> r == fallback
  {
    Coalesce(Coalesce(a, b), fallback)
  }

  /** `toCamelCase`: `null` stays `null`; a row becomes the ten camelCase
      fields, each the column's value unless that is `null` or `undefined`,
      in which case the default: 'My Journey' for the title, `null` for the
      image, '' for the rest. */
  function ToCamelCase(data: Option<Obj>): (r: Option<Obj>)
    ensures data.None? <==> r.None?
    ensures data.Some? ==> forall k :: k in r.value <==> k in CamelKeys
  {
    if data.None? then None
    else
      var d := data.value;
      Some(map[]["title" := Coalesce(Get(d, "title"), Str(DefaultTitle))]
                ["content" := Coalesce(Get(d, "content"), Str(""))]
                ["imageUrl" := Coalesce(Coalesce(Get(d, "image_url"), Get(d, "imageUrl")), Null)]
                ["headline" := Coalesce(Get(d, "headline"), Str(""))]
                ["whoIAm" := Coalesce(Get(d, "who_i_am"), Str(""))]
                ["whatIDo" := Coalesce(Get(d, "what_i_do"), Str(""))]
                ["shortTermGoals" := Coalesce(Get(d, "short_term_goals"), Str(""))]
                ["longTermGoals" := Coalesce(Get(d, "long_term_goals"), Str(""))]
                ["experience" := Coalesce(Get(d, "experience"), Str(""))]
                ["howIWork" := Coalesce(Get(d, "how_i_work"), Str(""))])
  }

  /** Every field of the camelCase form is defined, and only the image can
      be `null`. */
  lemma ToCamelCaseDefined(d: Obj)
    ensures var r := ToCamelCase(Some(d)).value;
      && (forall k :: k in r ==> r[k] != Undefined)
      && (forall k :: k in r && k != "imageUrl" ==> r[k] != Null)
  {
    var r := ToCamelCase(Some(d)).value;
    forall k | k in r
      ensures r[k] != Undefined && (k != "imageUrl" ==> r[k] != Null)
    {
      assert k in CamelKeys;
      if k == "title" {
      } else if k == "content" {
      } else if k == "imageUrl" {
      } else if k == "headline" {
      } else if k == "whoIAm" {
      } else if k == "whatIDo" {
      } else if k == "shortTermGoals" {
      } else if k == "longTermGoals" {
      } else if k == "experience" {
      } else {
        assert k == "howIWork";
      }
    }
  }

  /** A stored value, '' included, is kept and a default replaces only
      `null` or `undefined`; the image prefers `image_url` over
      `imageUrl`. */
  lemma ToCamelCaseDefaults(d: Obj)
    ensures var r := ToCamelCase(Some(d)).value;
      && (Present(Get(d, "title")) ==> Get(r, "title") == Get(d, "title"))
      && (!Present(Get(d, "title")) ==> Get(r, "title") == Str(DefaultTitle))
      && (Present(Get(d, "who_i_am")) ==> Get(r, "whoIAm") == Get(d, "who_i_am"))
      && (!Present(Get(d, "who_i_am")) ==> Get(r, "whoIAm") == Str(""))
      && (Present(Get(d, "image_url")) ==> Get(r, "imageUrl") == Get(d, "image_url"))
      && (!Present(Get(d, "image_url")) && Present(Get(d, "imageUrl")) ==> Get(r, "imageUrl") == Get(d, "imageUrl"))
      && (!Present(Get(d, "image_url")) && !Present(Get(d, "imageUrl")) ==> Get(r, "imageUrl") == Null)
      && ReadsFirstFields(r, d) && ReadsLastFields(r, d)
  {
    ReadFirstFields(d);
    ReadLastFields(d);
  }

  /** `toCamelCase` for the first five fields: each from its column, with
      the route's default; the image from `image_url`, then `imageUrl`. */
  predicate ReadsFirstFields(r: Obj, d: Obj)
  {
    && Get(r, "title") == PresentOr(Get(d, "title"), Str(DefaultTitle))
    && Get(r, "content") == PresentOr(Get(d, "content"), Str(""))
    && Get(r, "imageUrl") == FirstPresent(Get(d, "image_url"), Get(d, "imageUrl"), Null)
    && Get(r, "headline") == PresentOr(Get(d, "headline"), Str(""))
    && Get(r, "whoIAm") == PresentOr(Get(d, "who_i_am"), Str(""))
  }

  /** `toCamelCase` for the last five fields: each from its column, or ''. */
  predicate ReadsLastFields(r: Obj, d: Obj)
  {
    && Get(r, "whatIDo") == PresentOr(Get(d, "what_i_do"), Str(""))
    && Get(r, "shortTermGoals") == PresentOr(Get(d, "short_term_goals"), Str(""))
    && Get(r, "longTermGoals") == PresentOr(Get(d, "long_term_goals"), Str(""))
    && Get(r, "experience") == PresentOr(Get(d, "experience"), Str(""))
    && Get(r, "howIWork") == PresentOr(Get(d, "how_i_work"), Str(""))
  }

  lemma ReadFirstFields(d: Obj)
    ensures ReadsFirstFields(ToCamelCase(Some(d)).value, d)
  {
  }

  lemma ReadLastFields(d: Obj)
    ensures ReadsLastFields(ToCamelCase(Some(d)).value, d)
  {
  }

  /** The admin `GET`: "no row" answers `null`, any other store error is a
      500. */
  function GetAdminJourney(auth: ApiAuth.AuthResult, q: Http.Single): (r: Http.Response)
    ensures ApiAuth.Guard(auth).Some? ==> r == ApiAuth.Guard(auth).value
    ensures ApiAuth.Guard(auth).None? && Http.Thrown(q) ==> r == Http.Failure(500, "Failed to fetch journey")
    ensures ApiAuth.Guard(auth).None? && q.SingleError? && q.code == Http.NoRowCode ==> r == Http.Respond(Http.NullBody)
    ensures ApiAuth.Guard(auth).None? && q.Found? ==>
      r.status == 200 && r.body.Object? && r.body.fields == ToCamelCase(Some(q.row)).value
  {
    match ApiAuth.Guard(auth)
    case Some(denied) => denied
    case None =>
      if Http.Thrown(q) then Http.Failure(500, "Failed to fetch journey")
      else Http.Respond(Http.ObjectOrNull(ToCamelCase(Http.Data(q))))
  }

  /** The public `GET`: always 200; any error, "no row" or not, answers
      `null`. */
  function GetPublicJourney(q: Http.Single): (r: Http.Response)
    ensures r.status == 200
    ensures q.SingleError? ==> r.body == Http.NullBody
    ensures q.Found? ==> r.body == Http.Object(ToCamelCase(Some(q.row)).value)
  {
    if Http.Thrown(q) then Http.Respond(Http.NullBody)
    else Http.Respond(Http.ObjectOrNull(ToCamelCase(Http.Data(q))))
  }

  /** The row the admin `PUT` writes: each column from the camelCase key,
      else the snake_case one, else the default; `now` is the time of the
      request. */
  function JourneyData(body: Obj, now: string): (r: Obj)
    ensures Get(r, "updated_at") == Str(now)
  {
    map[]["title" := Coalesce(Get(body, "title"), Str(DefaultTitle))]
         ["content" := Coalesce(Get(body, "content"), Str(""))]
         ["image_url" := Coalesce(Coalesce(Get(body, "imageUrl"), Get(body, "image_url")), Null)]
         ["headline" := Coalesce(Get(body, "headline"), Str(""))]
         ["who_i_am" := Coalesce(Coalesce(Get(body, "whoIAm"), Get(body, "who_i_am")), Str(""))]
         ["what_i_do" := Coalesce(Coalesce(Get(body, "whatIDo"), Get(body, "what_i_do")), Str(""))]
         ["short_term_goals" := Coalesce(Coalesce(Get(body, "shortTermGoals"), Get(body, "short_term_goals")), Str(""))]
         ["long_term_goals" := Coalesce(Coalesce(Get(body, "longTermGoals"), Get(body, "long_term_goals")), Str(""))]
         ["experience" := Coalesce(Get(body, "experience"), Str(""))]
         ["how_i_work" := Coalesce(Coalesce(Get(body, "howIWork"), Get(body, "how_i_work")), Str(""))]
         ["updated_at" := Str(now)]
  }

  /** The camelCase key wins over the snake_case one, and a default is used
      only when both are `null` or `undefined`. */
  lemma JourneyDataPrefersCamel(body: Obj, now: string)
    ensures var r := JourneyData(body, now);
      && (Present(Get(body, "whoIAm")) ==> Get(r, "who_i_am") == Get(body, "whoIAm"))
      && (!Present(Get(body, "whoIAm")) && Present(Get(body, "who_i_am")) ==> Get(r, "who_i_am") == Get(body, "who_i_am"))
      && (!Present(Get(body, "whoIAm")) && !Present(Get(body, "who_i_am")) ==> Get(r, "who_i_am") == Str(""))
      && (Present(Get(body, "imageUrl")) ==> Get(r, "image_url") == Get(body, "imageUrl"))
      && (!Present(Get(body, "imageUrl")) && !Present(Get(body, "image_url")) ==> Get(r, "image_url") == Null)
      && (!Present(Get(body, "title")) ==> Get(r, "title") == Str(DefaultTitle))
      && WritesFirstColumns(r, body) && WritesLastColumns(r, body)
  {
    WriteFirstColumns(body, now);
    WriteLastColumns(body, now);
  }

  /** The `PUT`'s rule for the first five columns: the camelCase key, then
      the snake_case one where the route reads both, then the default. */
  predicate WritesFirstColumns(row: Obj, body: Obj)
  {
    && Get(row, "title") == PresentOr(Get(body, "title"), Str(DefaultTitle))
    && Get(row, "content") == PresentOr(Get(body, "content"), Str(""))
    && Get(row, "image_url") == FirstPresent(Get(body, "imageUrl"), Get(body, "image_url"), Null)
    && Get(row, "headline") == PresentOr(Get(body, "headline"), Str(""))
    && Get(row, "who_i_am") == FirstPresent(Get(body, "whoIAm"), Get(body, "who_i_am"), Str(""))
  }

  /** The same rule for the last five columns. */
  predicate WritesLastColumns(row: Obj, body: Obj)
  {
    && Get(row, "what_i_do") == FirstPresent(Get(body, "whatIDo"), Get(body, "what_i_do"), Str(""))
    && Get(row, "short_term_goals") == FirstPresent(Get(body, "shortTermGoals"), Get(body, "short_term_goals"), Str(""))
    && Get(row, "long_term_goals") == FirstPresent(Get(body, "longTermGoals"), Get(body, "long_term_goals"), Str(""))
    && Get(row, "experience") == PresentOr(Get(body, "experience"), Str(""))
    && Get(row, "how_i_work") == FirstPresent(Get(body, "howIWork"), Get(body, "how_i_work"), Str(""))
  }

  lemma WriteFirstColumns(body: Obj, now: string)
    ensures WritesFirstColumns(JourneyData(body, now), body)
  {
  }

  lemma WriteLastColumns(body: Obj, now: string)
    ensures WritesLastColumns(JourneyData(body, now), body)
  {
  }

  /** The admin `PUT`: upsert the journey row under the fixed id and answer
      it in camelCase; a store error is a 500. */
  function PutJourney(auth: ApiAuth.AuthResult, body: Obj, t: Http.Table, now: string, storeFails: bool)
    : (r: (Http.Response, Http.Table))
    ensures ApiAuth.Guard(auth).Some? ==> r == (ApiAuth.Guard(auth).value, t)
    ensures ApiAuth.Guard(auth).None? && storeFails ==> r == (Http.Failure(500, "Failed to update journey"), t)
    ensures ApiAuth.Guard(auth).None? && !storeFails ==>
      && r.1.Keys == t.Keys + {SingletonId}
      && (forall k :: k in t && k != SingletonId ==> r.1[k] == t[k])
      && r.0 == Http.Respond(Http.Object(ToCamelCase(Some(r.1[SingletonId])).value))
    ensures ApiAuth.Guard(auth).None? && !storeFails ==>
      r.1 == Http.UpsertRow(t, SingletonId, JourneyData(body, now)["id" := Str(SingletonId)])
  {
    if ApiAuth.Guard(auth).Some? then (ApiAuth.Guard(auth).value, t)
    else if storeFails then (Http.Failure(500, "Failed to update journey"), t)
    else
      var t2 := Http.UpsertRow(t, SingletonId, JourneyData(body, now)["id" := Str(SingletonId)]);
      (Http.Respond(Http.Object(ToCamelCase(Some(t2[SingletonId])).value)), t2)
  }

  /** Whatever the body holds, null image included, the stored row then
      holds each column as `JourneyData` chose it, the request time and the
      fixed id. */
  lemma {:induction false} PutStoresFields(auth: ApiAuth.AuthResult, body: Obj, t: Http.Table, now: string)
    requires ApiAuth.Guard(auth).None?
    ensures var row := PutJourney(auth, body, t, now, false).1[SingletonId];
      && WritesFirstColumns(row, body) && WritesLastColumns(row, body)
      && Get(row, "updated_at") == Str(now)
      && Get(row, "id") == Str(SingletonId)
  {
    UpsertStores(t, body, now);
  }

  /** The journey row's upsert on its own. */
  lemma UpsertStores(t: Http.Table, body: Obj, now: string)
    ensures var row := Http.UpsertRow(t, SingletonId, JourneyData(body, now)["id" := Str(SingletonId)])[SingletonId];
      && WritesFirstColumns(row, body) && WritesLastColumns(row, body)
      && Get(row, "updated_at") == Str(now)
      && Get(row, "id") == Str(SingletonId)
  {
    var d := JourneyData(body, now);
    var data := d["id" := Str(SingletonId)];
    WriteFirstColumns(body, now);
    WriteLastColumns(body, now);
    WithId(d, body);
    Http.UpsertGet(t, SingletonId, data, "id");
    Http.UpsertGet(t, SingletonId, data, "updated_at");
    UpsertFirstColumns(t, data, body);
    UpsertLastColumns(t, data, body);
  }

  /** Adding the `id` column touches none of the journey columns. */
  lemma WithId(d: Obj, body: Obj)
    requires WritesFirstColumns(d, body) && WritesLastColumns(d, body)
    ensures WritesFirstColumns(d["id" := Str(SingletonId)], body)
    ensures WritesLastColumns(d["id" := Str(SingletonId)], body)
    ensures Get(d["id" := Str(SingletonId)], "updated_at") == Get(d, "updated_at")
  {
  }

  /** Upserting a row that follows the rule for the first five columns
      leaves them so in the stored row. */
  lemma UpsertFirstColumns(t: Http.Table, data: Obj, body: Obj)
    requires WritesFirstColumns(data, body)
    ensures WritesFirstColumns(Http.UpsertRow(t, SingletonId, data)[SingletonId], body)
  {
    Http.UpsertGet(t, SingletonId, data, "title");
    Http.UpsertGet(t, SingletonId, data, "content");
    Http.UpsertGet(t, SingletonId, data, "image_url");
    Http.UpsertGet(t, SingletonId, data, "headline");
    Http.UpsertGet(t, SingletonId, data, "who_i_am");
  }

  /** The same for the last five columns. */
  lemma UpsertLastColumns(t: Http.Table, data: Obj, body: Obj)
    requires WritesLastColumns(data, body)
    ensures WritesLastColumns(Http.UpsertRow(t, SingletonId, data)[SingletonId], body)
  {
    Http.UpsertGet(t, SingletonId, data, "what_i_do");
    Http.UpsertGet(t, SingletonId, data, "short_term_goals");
    Http.UpsertGet(t, SingletonId, data, "long_term_goals");
    Http.UpsertGet(t, SingletonId, data, "experience");
    Http.UpsertGet(t, SingletonId, data, "how_i_work");
  }

  /** The ten fields of the journey, as the wire and the table name them. */
  predicate AllStrings(body: Obj)
  {
    && Get(body, "title").Str? && Get(body, "content").Str? && Get(body, "imageUrl").Str?
    && Get(body, "headline").Str? && Get(body, "whoIAm").Str? && Get(body, "whatIDo").Str?
    && Get(body, "shortTermGoals").Str? && Get(body, "longTermGoals").Str?
    && Get(body, "experience").Str? && Get(body, "howIWork").Str?
  }

  /** A row holding the journey columns as the `PUT` writes them for an
      all-string body. */
  predicate HoldsColumns(row: Obj, body: Obj)
  {
    && Get(row, "title") == Get(body, "title") && Get(row, "content") == Get(body, "content")
    && Get(row, "image_url") == Get(body, "imageUrl") && Get(row, "headline") == Get(body, "headline")
    && Get(row, "who_i_am") == Get(body, "whoIAm") && Get(row, "what_i_do") == Get(body, "whatIDo")
    && Get(row, "short_term_goals") == Get(body, "shortTermGoals")
    && Get(row, "long_term_goals") == Get(body, "longTermGoals")
    && Get(row, "experience") == Get(body, "experience") && Get(row, "how_i_work") == Get(body, "howIWork")
  }

  /** For an all-string body the written row holds each field verbatim. */
  lemma JourneyDataOfStrings(body: Obj, now: string)
    requires AllStrings(body)
    ensures HoldsColumns(JourneyData(body, now)["id" := Str(SingletonId)], body)
  {
    var row := JourneyData(body, now)["id" := Str(SingletonId)];
    assert Get(row, "title") == Get(body, "title") && Get(row, "content") == Get(body, "content");
    assert Get(row, "image_url") == Get(body, "imageUrl") && Get(row, "headline") == Get(body, "headline");
    assert Get(row, "who_i_am") == Get(body, "whoIAm") && Get(row, "what_i_do") == Get(body, "whatIDo");
    assert Get(row, "short_term_goals") == Get(body, "shortTermGoals");
    assert Get(row, "long_term_goals") == Get(body, "longTermGoals");
  }

  /** Upserting a row leaves every defined column of it in the stored
      row. */
  lemma {:induction false} UpsertHolds(t: Http.Table, id: string, data: Obj, body: Obj)
    requires HoldsColumns(data, body) && AllStrings(body)
    ensures HoldsColumns(Http.UpsertRow(t, id, data)[id], body)
  {
    var row := Http.UpsertRow(t, id, data)[id];
    forall k | Get(data, k).Str?
      ensures Get(row, k) == Get(data, k)
    {
      if id in t {
        ApplyGet(t[id], data, k);
      } else {
        SerializeGet(data, k);
      }
    }
  }

  /** The ten camelCase fields of a body, and nothing else. */
  function CamelFields(body: Obj): Obj
  {
    map[]["title" := Get(body, "title")]["content" := Get(body, "content")]["imageUrl" := Get(body, "imageUrl")]
         ["headline" := Get(body, "headline")]["whoIAm" := Get(body, "whoIAm")]["whatIDo" := Get(body, "whatIDo")]
         ["shortTermGoals" := Get(body, "shortTermGoals")]["longTermGoals" := Get(body, "longTermGoals")]
         ["experience" := Get(body, "experience")]["howIWork" := Get(body, "howIWork")]
  }

  /** Reading such a row back gives the body's ten fields. */
  lemma ReadBackColumns(row: Obj, body: Obj)
    requires HoldsColumns(row, body) && AllStrings(body)
    ensures ToCamelCase(Some(row)).value == CamelFields(body)
  {
  }

  /** Round trip: when the body's ten camelCase fields are all strings, the
      `PUT` answers exactly those ten fields, whatever the row held before. */
  lemma {:induction false} PutReadsBack(auth: ApiAuth.AuthResult, body: Obj, t: Http.Table, now: string)
    requires ApiAuth.Guard(auth).None? && AllStrings(body)
    ensures PutJourney(auth, body, t, now, false).0.body == Http.Object(CamelFields(body))
  {
    var data := JourneyData(body, now)["id" := Str(SingletonId)];
    JourneyDataOfStrings(body, now);
    UpsertHolds(t, SingletonId, data, body);
    ReadBackColumns(Http.UpsertRow(t, SingletonId, data)[SingletonId], body);
  }
}
