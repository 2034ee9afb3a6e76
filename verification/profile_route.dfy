/** The profile routes (`app/api/admin/profile/route.ts` and
    `app/api/profile/route.ts`): the single profile row read with its image
    alias, the admin `PUT` that upserts it with contact fields added only
    when the body has them, and the public reading with its defaults. */
module ProfileRoute {
  import opened Wrappers
  import opened Js
  import Http
  import ApiAuth

  /** The id used when the body names none. */
  const SingletonId := "00000000-0000-0000-0000-000000000001"

  /** The contact and social columns the `PUT` writes only when given, in
      the handler's order. */
  const ContactKeys := ["email", "phone", "location", "linkedin_url", "github_url", "twitter_url", "website_url"]

  /** The columns the `PUT` always writes. */
  const BaseFields := {"name", "title", "description", "image_url", "id"}

  /** `{ ...data, imageUrl: data.image_url || data.imageUrl }`. */
  function WithImageUrl(row: Obj): (r: Obj)
    ensures Get(r, "imageUrl") == Or(Get(row, "image_url"), Get(row, "imageUrl"))
    ensures forall k :: k != "imageUrl" ==> Get(r, k) == Get(row, k)
  {
    row["imageUrl" := Or(Get(row, "image_url"), Get(row, "imageUrl"))]
  }

  /** The admin `GET`: the row with its image alias; "no row" answers
      `null`; any other store error is a 500. */
  function GetAdminProfile(auth: ApiAuth.AuthResult, q: Http.Single): (r: Http.Response)
    ensures ApiAuth.Guard(auth).Some? ==> r == ApiAuth.Guard(auth).value
    ensures ApiAuth.Guard(auth).None? && Http.Thrown(q) ==> r == Http.Failure(500, "Failed to fetch profile")
    ensures ApiAuth.Guard(auth).None? && q.SingleError? && q.code == Http.NoRowCode ==> r == Http.Respond(Http.NullBody)
    ensures ApiAuth.Guard(auth).None? && q.Found? ==> r == Http.Respond(Http.Object(WithImageUrl(q.row)))
  {
    match ApiAuth.Guard(auth)
    case Some(denied) => denied
    case None =>
      if Http.Thrown(q) then Http.Failure(500, "Failed to fetch profile")
      else if q.Found? then Http.Respond(Http.Object(WithImageUrl(q.row)))
      else Http.Respond(Http.NullBody)
  }

  /** The row id the `PUT` upserts: the body's `id` when truthy, else the
      fixed one. */
  function ProfileKey(body: Obj): (r: JsVal)
    ensures Truthy(Get(body, "id")) ==> r == Get(body, "id")
    ensures !Truthy(Get(body, "id")) ==> r == Str(SingletonId)
  {
    Or(Get(body, "id"), Str(SingletonId))
  }

  /** The literal `profileData` starts from. */
  function BaseData(body: Obj): (r: Obj)
    ensures forall k :: k in r <==> k in BaseFields
  {
    map[]["name" := Get(body, "name")]["title" := Get(body, "title")]["description" := Get(body, "description")]
         ["image_url" := Or(Get(body, "imageUrl"), Get(body, "image_url"))]["id" := ProfileKey(body)]
  }

  /** Reading one key of the base row. */
  lemma BaseGet(body: Obj, k: string)
    ensures Get(BaseData(body), k)
      == if k == "name" || k == "title" || k == "description" then Get(body, k)
         else if k == "image_url" then Or(Get(body, "imageUrl"), Get(body, "image_url"))
         else if k == "id" then ProfileKey(body)
         else Undefined
  {
  }

  /** One `if (body.k !== undefined) profileData.k = body.k`. */
  function Include(data: Obj, body: Obj, k: string): (r: Obj)
    ensures Get(body, k) != Undefined ==> r == data[k := Get(body, k)]
    ensures Get(body, k) == Undefined ==> r == data
  {
    if Get(body, k) != Undefined then data[k := Get(body, k)] else data
  }

  /** The data after one conditional assignment per key, in order. */
  function IncludeAll(data: Obj, body: Obj, keys: seq<string>): Obj
  {
    if keys == [] then data
    else Include(IncludeAll(data, body, keys[..|keys| - 1]), body, keys[|keys| - 1])
  }

  /** `profileData` after the seven conditional assignments. */
  function ProfileData(body: Obj): Obj
  {
    IncludeAll(BaseData(body), body, ContactKeys)
  }

  /** A key the assignments visit holds the body's value when the body
      defines it; every other read is the data's. */
  lemma {:induction false} IncludeAllGet(data: Obj, body: Obj, keys: seq<string>, k: string)
    ensures Get(IncludeAll(data, body, keys), k)
            == if k in keys && Get(body, k) != Undefined then Get(body, k) else Get(data, k)
  {
    if keys != [] {
      var init := keys[..|keys| - 1];
      assert keys == init + [keys[|keys| - 1]];
      IncludeAllGet(data, body, init, k);
    }
  }

  /** The assignments add no key but the ones they visit. */
  lemma {:induction false} IncludeAllKeys(data: Obj, body: Obj, keys: seq<string>)
    ensures forall k :: k in IncludeAll(data, body, keys) ==> k in data || k in keys
  {
    if keys != [] {
      var init := keys[..|keys| - 1];
      assert keys == init + [keys[|keys| - 1]];
      IncludeAllKeys(data, body, init);
    }
  }

  /** The base literal has none of the contact columns. */
  lemma BaseHasNoContact(body: Obj)
    ensures forall k :: k in ContactKeys ==> k !in BaseData(body)
  {
  }

  /** A contact field reads in the data as it reads in the body (so it is
      absent exactly when the body leaves it undefined); the data has no
      keys but the base ones and those, and the image and the id are the
      body's. */
  lemma {:induction false} ProfileDataFields(body: Obj)
    ensures var d := ProfileData(body);
      && (forall k :: k in ContactKeys ==> Get(d, k) == Get(body, k))
      && (forall k :: k in d ==> k in BaseFields || k in ContactKeys)
      && Get(d, "image_url") == Or(Get(body, "imageUrl"), Get(body, "image_url"))
      && Get(d, "id") == ProfileKey(body)
  {
    var d := ProfileData(body);
    BaseHasNoContact(body);
    IncludeAllKeys(BaseData(body), body, ContactKeys);
    forall k | k in ContactKeys
      ensures Get(d, k) == Get(body, k)
    {
      IncludeAllGet(BaseData(body), body, ContactKeys, k);
    }
    IncludeAllGet(BaseData(body), body, ContactKeys, "image_url");
    IncludeAllGet(BaseData(body), body, ContactKeys, "id");
  }

  /** Building `profileData` as the handler does: the base literal, then
      each contact column in turn when the body defines it. */
  method BuildProfileData(body: Obj) returns (data: Obj)
    ensures data == ProfileData(body)
  {
    data := BaseData(body);
    for i := 0 to |ContactKeys|
      invariant data == IncludeAll(BaseData(body), body, ContactKeys[..i])
    {
      var k := ContactKeys[i];
      if Get(body, k) != Undefined {
        data := data[k := Get(body, k)];
      }
      assert ContactKeys[..i + 1][..i] == ContactKeys[..i];
    }
    assert ContactKeys[..|ContactKeys|] == ContactKeys;
  }

  /** The admin `PUT`: upsert `profileData` on its id and answer the row;
      a store failure (or an id the store cannot key on) is a 500 whose
      `details` is the store's message. */
  method PutProfile(auth: ApiAuth.AuthResult, body: Obj, t: Http.Table, storeFails: bool, storeMessage: string)
    returns (r: Http.Response, t2: Http.Table)
    ensures ApiAuth.Guard(auth).Some? ==> r == ApiAuth.Guard(auth).value && t2 == t
    ensures ApiAuth.Guard(auth).None? && (storeFails || !ProfileKey(body).Str?) ==>
      r == Http.FailureWithDetails(500, "Failed to update profile", storeMessage) && t2 == t
    ensures ApiAuth.Guard(auth).None? && !storeFails && ProfileKey(body).Str? ==>
      var key := ProfileKey(body).s;
      && t2 == Http.UpsertRow(t, key, ProfileData(body))
      && r == Http.Respond(Http.Object(t2[key]))
  {
    var denied := ApiAuth.Guard(auth);
    if denied.Some? {
      return denied.value, t;
    }
    var data := BuildProfileData(body);
    ProfileDataFields(body);
    var key := Get(data, "id");
    if storeFails || !key.Str? {
      return Http.FailureWithDetails(500, "Failed to update profile", storeMessage), t;
    }
    t2 := Http.UpsertRow(t, key.s, data);
    r := Http.Respond(Http.Object(t2[key.s]));
  }

  /** A contact field the body leaves out keeps its stored value. */
  lemma {:induction false} OmittedKept(t: Http.Table, body: Obj, key: string, k: string)
    requires key in t && k in ContactKeys && Get(body, k) == Undefined
    ensures Get(Http.UpsertRow(t, key, ProfileData(body))[key], k) == Get(t[key], k)
  {
    ProfileDataFields(body);
    ApplyGet(t[key], ProfileData(body), k);
  }

  /** A contact field the body gives is stored. */
  lemma {:induction false} GivenStored(t: Http.Table, body: Obj, key: string, k: string)
    requires k in ContactKeys && Get(body, k) != Undefined
    ensures Get(Http.UpsertRow(t, key, ProfileData(body))[key], k) == Get(body, k)
  {
    ProfileDataFields(body);
    ApplyGet(if key in t then t[key] else map[], ProfileData(body), k);
    SerializeGet(ProfileData(body), k);
  }

  /** The mapping has no clock in it: the same body upserted twice leaves
      the table as upserting it once. */
  lemma {:induction false} PutTwice(t: Http.Table, body: Obj, key: string)
    ensures Http.UpsertRow(Http.UpsertRow(t, key, ProfileData(body)), key, ProfileData(body))
            == Http.UpsertRow(t, key, ProfileData(body))
  {
    Http.UpsertIdempotent(t, key, ProfileData(body));
  }

  const DefaultName := "Full Stack Developer"
  const DefaultTitle := "Building Digital Solutions"
  const DefaultDescription := "Creating exceptional web experiences with modern technologies"

  /** The public reading of a row: the image alias, and the GitHub and
      LinkedIn links as `null` when falsy. */
  function PublicProfile(row: Obj): (r: Obj)
    ensures Get(r, "imageUrl") == Or(Get(row, "image_url"), Get(row, "imageUrl"))
    ensures Truthy(Get(row, "github_url")) ==> Get(r, "github_url") == Get(row, "github_url")
    ensures !Truthy(Get(row, "github_url")) ==> Get(r, "github_url") == Null
    ensures Truthy(Get(row, "linkedin_url")) ==> Get(r, "linkedin_url") == Get(row, "linkedin_url")
    ensures !Truthy(Get(row, "linkedin_url")) ==> Get(r, "linkedin_url") == Null
    ensures forall k :: k != "imageUrl" && k != "github_url" && k != "linkedin_url" ==> Get(r, k) == Get(row, k)
  {
    row["imageUrl" := Or(Get(row, "image_url"), Get(row, "imageUrl"))]
       ["github_url" := Or(Get(row, "github_url"), Null)]
       ["linkedin_url" := Or(Get(row, "linkedin_url"), Null)]
  }

  /** The profile shown when there is no row. */
  function DefaultProfile(): (r: Obj)
    ensures Get(r, "name") == Str(DefaultName) && Get(r, "imageUrl") == Null
    ensures Get(r, "github_url") == Null && Get(r, "linkedin_url") == Null
  {
    map["name" := Str(DefaultName), "title" := Str(DefaultTitle), "description" := Str(DefaultDescription),
        "imageUrl" := Null, "github_url" := Null, "linkedin_url" := Null]
  }

  /** The answer to any other error: name, title and description only. */
  function FallbackProfile(): (r: Obj)
    ensures r.Keys == {"name", "title", "description"}
    ensures Get(r, "name") == Str(DefaultName)
  {
    map["name" := Str(DefaultName), "title" := Str(DefaultTitle), "description" := Str(DefaultDescription)]
  }

  /** The public `GET`: always 200; the row as read publicly, the default
      profile when there is no row, the short fallback on any other
      error. */
  function GetPublicProfile(q: Http.Single): (r: Http.Response)
    ensures r.status == 200
    ensures q.Found? ==> r.body == Http.Object(PublicProfile(q.row))
    ensures q.SingleError? && q.code == Http.NoRowCode ==> r.body == Http.Object(DefaultProfile())
    ensures Http.Thrown(q) ==> r.body == Http.Object(FallbackProfile())
  {
    if Http.Thrown(q) then Http.Respond(Http.Object(FallbackProfile()))
    else if q.Found? then Http.Respond(Http.Object(PublicProfile(q.row)))
    else Http.Respond(Http.Object(DefaultProfile()))
  }
}
