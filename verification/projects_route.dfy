/** The project routes: the admin handlers of `app/api/admin/projects/route.ts`
    and the public listing of `app/api/projects/route.ts`, which share one
    row normaliser, and the write mapping the admin `POST` and `PUT` share.

    Rows are JavaScript objects keyed by column name; the listing is the
    store's answer to `select('*').order('created_at', { ascending: false })`,
    given as a parameter (or the store's error). */
module ProjectsRoute {
  import opened Wrappers
  import opened Js
  import Json
  import Http
  import ApiAuth

  /** The keys the read normaliser sets on every row. */
  const ReadKeys := {"technologies", "githubUrl", "liveUrl", "imageUrl", "demoVideoUrl",
                     "role", "publishedDate", "mapUrl"}

  /** The columns the write mapping produces. */
  const WriteKeys := {"title", "description", "technologies", "github_url", "live_url",
                      "image_url", "demo_video_url", "role", "published_date", "map_url", "featured"}

  /** The stored `technologies` value read back as a list: an array is kept,
      a non-empty JSON text is parsed, anything falsy is the empty list.
      `None` is the `JSON.parse` that throws. */
  function ReadTechnologies(v: JsVal): (r: Option<JsVal>)
    ensures r.Some? ==> r.value.Arr?
    ensures v.Arr? ==> r == Some(v)
    ensures !Truthy(v) ==> r == Some(Arr([]))
  {
    if v.Arr? then Some(v)
    else if !Truthy(v) then Some(Arr([]))
    else if v.Str? then
      match Json.Decode(v.s)
      case None => None
      case Some(xs) => Some(Arr(xs))
    else None
  }

  /** `snake || camel`: the column wins when it is truthy. */
  function ReadAlias(p: Obj, column: string, key: string): JsVal
  {
    Or(Get(p, column), Get(p, key))
  }

  /** The row normaliser of both GET handlers. */
  function ReadProject(p: Obj): (r: Option<Obj>)
    ensures r.Some? <==> ReadTechnologies(Get(p, "technologies")).Some?
    ensures r.Some? ==> forall k :: k in r.value <==> k in p || k in ReadKeys
    ensures r.Some? ==> forall k :: k !in ReadKeys ==> Get(r.value, k) == Get(p, k)
    ensures r.Some? ==> Get(r.value, "technologies") == ReadTechnologies(Get(p, "technologies")).value
    ensures r.Some? ==> Get(r.value, "githubUrl") == ReadAlias(p, "github_url", "githubUrl")
    ensures r.Some? ==> Get(r.value, "liveUrl") == ReadAlias(p, "live_url", "liveUrl")
    ensures r.Some? ==> Get(r.value, "imageUrl") == ReadAlias(p, "image_url", "imageUrl")
    ensures r.Some? ==> Get(r.value, "demoVideoUrl") == ReadAlias(p, "demo_video_url", "demoVideoUrl")
    ensures r.Some? ==> Truthy(Get(r.value, "role")) || Get(r.value, "role") == Str("")
    ensures r.Some? ==> Truthy(Get(r.value, "publishedDate")) || Get(r.value, "publishedDate") == Str("")
    ensures r.Some? ==> Truthy(Get(r.value, "mapUrl")) || Get(r.value, "mapUrl") == Str("")
  {
    match ReadTechnologies(Get(p, "technologies"))
    case None => None
    case Some(tech) =>
      Some(p["technologies" := tech]
            ["githubUrl" := ReadAlias(p, "github_url", "githubUrl")]
            ["liveUrl" := ReadAlias(p, "live_url", "liveUrl")]
            ["imageUrl" := ReadAlias(p, "image_url", "imageUrl")]
            ["demoVideoUrl" := ReadAlias(p, "demo_video_url", "demoVideoUrl")]
            ["role" := Or(Get(p, "role"), Str(""))]
            ["publishedDate" := Or(ReadAlias(p, "published_date", "publishedDate"), Str(""))]
            ["mapUrl" := Or(ReadAlias(p, "map_url", "mapUrl"), Str(""))])
  }

  /** The three text fields with a '' default: `role` is kept when truthy;
      `publishedDate` and `mapUrl` take the snake_case column first, then
      the camelCase key, then ''. */
  lemma ReadDefaults(p: Obj)
    requires ReadProject(p).Some?
    ensures var r := ReadProject(p).value;
      && (Truthy(Get(p, "role")) ==> Get(r, "role") == Get(p, "role"))
      && (!Truthy(Get(p, "role")) ==> Get(r, "role") == Str(""))
      && (Truthy(Get(p, "published_date")) ==> Get(r, "publishedDate") == Get(p, "published_date"))
      && (!Truthy(Get(p, "published_date")) && Truthy(Get(p, "publishedDate")) ==>
            Get(r, "publishedDate") == Get(p, "publishedDate"))
      && (!Truthy(Get(p, "published_date")) && !Truthy(Get(p, "publishedDate")) ==>
            Get(r, "publishedDate") == Str(""))
      && (Truthy(Get(p, "map_url")) ==> Get(r, "mapUrl") == Get(p, "map_url"))
      && (!Truthy(Get(p, "map_url")) && Truthy(Get(p, "mapUrl")) ==> Get(r, "mapUrl") == Get(p, "mapUrl"))
      && (!Truthy(Get(p, "map_url")) && !Truthy(Get(p, "mapUrl")) ==> Get(r, "mapUrl") == Str(""))
  {
  }

  /** `(data || []).map(normalise)`: every row in the store's order, or a
      throw from the first row whose technologies do not parse. */
  function ReadAll(rows: seq<Obj>): (r: Option<seq<Obj>>)
    ensures r.Some? <==> forall i :: 0 <= i < |rows| ==> ReadProject(rows[i]).Some?
    ensures r.Some? ==> |r.value| == |rows|
    ensures r.Some? ==> forall i :: 0 <= i < |rows| ==> r.value[i] == ReadProject(rows[i]).value
  {
    if rows == [] then Some([])
    else
      match ReadProject(rows[0])
      case None => None
      case Some(p) =>
        match ReadAll(rows[1..])
        case None => None
        case Some(ps) => Some([p] + ps)
  }

  /** A listing newest first: `created_at` never increases along it. */
  predicate NewestFirst(rows: seq<Obj>, before: (JsVal, JsVal) -> bool)
  {
    forall i, j :: 0 <= i < j < |rows| ==> !before(Get(rows[i], "created_at"), Get(rows[j], "created_at"))
  }

  /** The public `GET`: a store error or a row that does not parse gives a
      500 and no partial data; otherwise every row is normalised in the
      store's order, which is therefore still newest first. */
  function GetPublicProjects(q: Http.Query): (r: Http.Response)
    ensures q.StoreError? ==> r == Http.Failure(500, "Failed to fetch projects")
    ensures q.Rows? && ReadAll(q.rows).None? ==> r == Http.Failure(500, "Failed to fetch projects")
    ensures q.Rows? && ReadAll(q.rows).Some? ==> r.status == 200 && r.body == Http.List(ReadAll(q.rows).value)
  {
    match q
    case StoreError(_) => Http.Failure(500, "Failed to fetch projects")
    case Rows(rows) =>
      match ReadAll(rows)
      case None => Http.Failure(500, "Failed to fetch projects")
      case Some(ps) => Http.Respond(Http.List(ps))
  }

  /** Normalising keeps `created_at`, so a newest-first listing stays
      newest first. */
  lemma ReadAllKeepsOrder(rows: seq<Obj>, before: (JsVal, JsVal) -> bool)
    requires NewestFirst(rows, before)
    requires ReadAll(rows).Some?
    ensures NewestFirst(ReadAll(rows).value, before)
  {
    var ps := ReadAll(rows).value;
    forall i | 0 <= i < |rows|
      ensures Get(ps[i], "created_at") == Get(rows[i], "created_at")
    {
      CreatedAtKept(rows[i]);
    }
  }

  /** The normaliser never touches `created_at`. */
  lemma CreatedAtKept(p: Obj)
    requires ReadProject(p).Some?
    ensures Get(ReadProject(p).value, "created_at") == Get(p, "created_at")
  {
    assert "created_at" !in ReadKeys;
  }

  /** The admin `GET`: the guard first, then the same listing. */
  function GetAdminProjects(auth: ApiAuth.AuthResult, q: Http.Query): (r: Http.Response)
    ensures ApiAuth.Guard(auth).Some? ==> r == ApiAuth.Guard(auth).value
    ensures ApiAuth.Guard(auth).None? ==> r == GetPublicProjects(q)
  {
    match ApiAuth.Guard(auth)
    case Some(denied) => denied
    case None => GetPublicProjects(q)
  }

  /** `camel || snake`: the request key wins when it is truthy. */
  function WriteAlias(b: Obj, key: string, column: string): JsVal
  {
    Or(Get(b, key), Get(b, column))
  }

  /** The row `POST` inserts and `PUT` writes, from the request body: always
      the same eleven columns, some of which may be `undefined`. */
  function WriteProject(b: Obj): (r: Obj)
    ensures forall k :: k in r <==> k in WriteKeys
  {
    var tech := Get(b, "technologies");
    map[]["title" := Get(b, "title")]
         ["description" := Get(b, "description")]
         ["technologies" := if tech.Arr? then Str(Json.Encode(tech.items)) else tech]
         ["github_url" := WriteAlias(b, "githubUrl", "github_url")]
         ["live_url" := WriteAlias(b, "liveUrl", "live_url")]
         ["image_url" := WriteAlias(b, "imageUrl", "image_url")]
         ["demo_video_url" := WriteAlias(b, "demoVideoUrl", "demo_video_url")]
         ["role" := Or(Get(b, "role"), Null)]
         ["published_date" := Or(WriteAlias(b, "publishedDate", "published_date"), Null)]
         ["map_url" := Or(WriteAlias(b, "mapUrl", "map_url"), Null)]
         ["featured" := Or(Get(b, "featured"), Bool(false))]
  }

  /** Title and description are copied; a technologies array is stored as
      its JSON text, anything else as it came. */
  lemma WriteContent(b: Obj)
    ensures var r := WriteProject(b);
      && Get(r, "title") == Get(b, "title") && Get(r, "description") == Get(b, "description")
      && (Get(b, "technologies").Arr? ==> Get(r, "technologies") == Str(Json.Encode(Get(b, "technologies").items)))
      && (!Get(b, "technologies").Arr? ==> Get(r, "technologies") == Get(b, "technologies"))
  {
  }

  /** Each URL column takes the camelCase key when it is truthy and the
      snake_case key otherwise. */
  lemma WriteLinks(b: Obj)
    ensures var r := WriteProject(b);
      && (Truthy(Get(b, "githubUrl")) ==> Get(r, "github_url") == Get(b, "githubUrl"))
      && (!Truthy(Get(b, "githubUrl")) ==> Get(r, "github_url") == Get(b, "github_url"))
      && (Truthy(Get(b, "liveUrl")) ==> Get(r, "live_url") == Get(b, "liveUrl"))
      && (!Truthy(Get(b, "liveUrl")) ==> Get(r, "live_url") == Get(b, "live_url"))
      && (Truthy(Get(b, "imageUrl")) ==> Get(r, "image_url") == Get(b, "imageUrl"))
      && (!Truthy(Get(b, "imageUrl")) ==> Get(r, "image_url") == Get(b, "image_url"))
      && (Truthy(Get(b, "demoVideoUrl")) ==> Get(r, "demo_video_url") == Get(b, "demoVideoUrl"))
      && (!Truthy(Get(b, "demoVideoUrl")) ==> Get(r, "demo_video_url") == Get(b, "demo_video_url"))
  {
  }

  /** Role, published date and map URL take the first truthy spelling and
      are `null` when there is none; `featured` defaults to `false`. */
  lemma WriteDefaults(b: Obj)
    ensures var r := WriteProject(b);
      && (Truthy(Get(b, "role")) ==> Get(r, "role") == Get(b, "role"))
      && (!Truthy(Get(b, "role")) ==> Get(r, "role") == Null)
      && (Truthy(Get(b, "publishedDate")) ==> Get(r, "published_date") == Get(b, "publishedDate"))
      && (!Truthy(Get(b, "publishedDate")) && Truthy(Get(b, "published_date")) ==>
            Get(r, "published_date") == Get(b, "published_date"))
      && (!Truthy(Get(b, "publishedDate")) && !Truthy(Get(b, "published_date")) ==> Get(r, "published_date") == Null)
      && (Truthy(Get(b, "mapUrl")) ==> Get(r, "map_url") == Get(b, "mapUrl"))
      && (!Truthy(Get(b, "mapUrl")) && Truthy(Get(b, "map_url")) ==> Get(r, "map_url") == Get(b, "map_url"))
      && (!Truthy(Get(b, "mapUrl")) && !Truthy(Get(b, "map_url")) ==> Get(r, "map_url") == Null)
      && (Truthy(Get(b, "featured")) ==> Get(r, "featured") == Get(b, "featured"))
      && (!Truthy(Get(b, "featured")) ==> Get(r, "featured") == Bool(false))
  {
  }

  /** A list of technologies written by `POST`/`PUT` and read back by
      either `GET` is the same list, in the same order. */
  lemma TechnologiesRoundTrip(b: Obj, stored: Obj)
    requires Get(b, "technologies").Arr?
    requires Get(stored, "technologies") == Get(Serialize(WriteProject(b)), "technologies")
    ensures ReadProject(stored).Some?
    ensures Get(ReadProject(stored).value, "technologies") == Get(b, "technologies")
  {
    var xs := Get(b, "technologies").items;
    var w := WriteProject(b);
    WriteContent(b);
    assert Get(Serialize(w), "technologies") == Str(Json.Encode(xs));
    Json.EncodeDecode(xs);
    assert Json.Encode(xs) != "" by {
      assert Json.Encode(xs)[0] == '[';
    }
    assert ReadTechnologies(Get(stored, "technologies")) == Some(Arr(xs));
  }

  /** Reading back what was written: a truthy value the body sent under a
      URL key, role, published date or map URL is what the row reads as. */
  lemma WriteReadFields(b: Obj)
    requires Get(b, "technologies").Arr?
    ensures ReadProject(Serialize(WriteProject(b))).Some?
    ensures var p := ReadProject(Serialize(WriteProject(b))).value;
      && (Truthy(Get(b, "githubUrl")) ==> Get(p, "githubUrl") == Get(b, "githubUrl"))
      && (Truthy(Get(b, "liveUrl")) ==> Get(p, "liveUrl") == Get(b, "liveUrl"))
      && (Truthy(Get(b, "imageUrl")) ==> Get(p, "imageUrl") == Get(b, "imageUrl"))
      && (Truthy(Get(b, "demoVideoUrl")) ==> Get(p, "demoVideoUrl") == Get(b, "demoVideoUrl"))
      && (Truthy(Get(b, "role")) ==> Get(p, "role") == Get(b, "role"))
      && (!Truthy(Get(b, "role")) ==> Get(p, "role") == Str(""))
      && (Truthy(Get(b, "publishedDate")) ==> Get(p, "publishedDate") == Get(b, "publishedDate"))
      && (Truthy(Get(b, "mapUrl")) ==> Get(p, "mapUrl") == Get(b, "mapUrl"))
  {
    var w := WriteProject(b);
    var s := Serialize(w);
    TechnologiesRoundTrip(b, s);
    WriteLinks(b);
    WriteDefaults(b);
    SerializeGet(w, "github_url");
    SerializeGet(w, "live_url");
    SerializeGet(w, "image_url");
    SerializeGet(w, "demo_video_url");
    SerializeGet(w, "role");
    SerializeGet(w, "published_date");
    SerializeGet(w, "map_url");
  }

  /** The admin `POST`: insert the mapped row under the id the store
      generates; a store error is a 500 carrying its message. */
  function PostProject(auth: ApiAuth.AuthResult, b: Obj, t: Http.Table, newId: string, failure: Option<string>)
    : (r: (Http.Response, Http.Table))
    requires newId !in t
    ensures ApiAuth.Guard(auth).Some? ==> r == (ApiAuth.Guard(auth).value, t)
    ensures ApiAuth.Guard(auth).None? && failure.Some? ==>
      r == (Http.FailureWithDetails(500, "Failed to create project", failure.value), t)
    ensures ApiAuth.Guard(auth).None? && failure.None? ==>
      r.1 == t[newId := Serialize(WriteProject(b))["id" := Str(newId)]]
      && r.0 == Http.Respond(Http.Object(r.1[newId]))
  {
    if ApiAuth.Guard(auth).Some? then (ApiAuth.Guard(auth).value, t)
    else if failure.Some? then (Http.FailureWithDetails(500, "Failed to create project", failure.value), t)
    else
      var row := Serialize(WriteProject(b))["id" := Str(newId)];
      (Http.Respond(Http.Object(row)), t[newId := row])
  }

  /** The admin `PUT`: the body's `id` picks the row and is not itself
      written; a missing row (or a missing id) is a 500. */
  function PutProject(auth: ApiAuth.AuthResult, b: Obj, t: Http.Table): (r: (Http.Response, Http.Table))
    ensures ApiAuth.Guard(auth).Some? ==> r == (ApiAuth.Guard(auth).value, t)
    ensures ApiAuth.Guard(auth).None? && !(Get(b, "id").Str? && Get(b, "id").s in t) ==>
      r == (Http.Failure(500, "Failed to update project"), t)
    ensures ApiAuth.Guard(auth).None? && Get(b, "id").Str? && Get(b, "id").s in t ==>
      var id := Get(b, "id").s;
      && r.1.Keys == t.Keys
      && r.1[id] == Apply(t[id], WriteProject(b - {"id"}))
      && (forall k :: k in t && k != id ==> r.1[k] == t[k])
      && r.0 == Http.Respond(Http.Object(r.1[id]))
  {
    if ApiAuth.Guard(auth).Some? then (ApiAuth.Guard(auth).value, t)
    else if !Get(b, "id").Str? then (Http.Failure(500, "Failed to update project"), t)
    else
      match Http.UpdateRow(t, Get(b, "id").s, WriteProject(b - {"id"}))
      case None => (Http.Failure(500, "Failed to update project"), t)
      case Some(t2) => (Http.Respond(Http.Object(t2[Get(b, "id").s])), t2)
  }

  /** A `PUT` never rewrites the row's own id. */
  lemma PutKeepsId(b: Obj)
    ensures "id" !in WriteProject(b - {"id"})
  {
  }

  /** The admin `DELETE`: behind the sign-in guard, the shared delete by
      id, whose store errors this route answers with "Failed to delete project". */
  function DeleteProject(auth: ApiAuth.AuthResult, id: Option<string>, storeError: bool, t: Http.Table): (r: (Http.Response, Http.Table))
    ensures ApiAuth.Guard(auth).Some? ==> r == (ApiAuth.Guard(auth).value, t)
    ensures ApiAuth.Guard(auth).None? && (id.None? || id == Some("")) ==> r == (Http.Failure(400, "ID is required"), t)
    ensures ApiAuth.Guard(auth).None? && id.Some? && id.value != "" && storeError ==>
      r == (Http.Failure(500, "Failed to delete project"), t)
    ensures ApiAuth.Guard(auth).None? && id.Some? && id.value != "" && !storeError ==>
      r.0 == Http.Success && r.1 == Http.DeleteRow(t, id.value)
  {
    if ApiAuth.Guard(auth).Some? then (ApiAuth.Guard(auth).value, t)
    else Http.DeleteById(id, storeError, t, "Failed to delete project")
  }
}
