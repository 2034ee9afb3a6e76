/** The skill routes: the admin handlers of `app/api/admin/skills/route.ts`
    and the public listing of `app/api/skills/route.ts`. Rows are objects
    keyed by column name; the listing is the store's answer to
    `select('*')` ordered by `category_order`, `skill_order` and `name`,
    given as a parameter. */
module SkillsRoute {
  import opened Wrappers
  import opened Js
  import Http
  import ApiAuth
  import SkillList
  import SkillsManager

  /** A listed row: the row itself plus `imageUrl = image_url || imageUrl`. */
  function ReadSkill(row: Obj): (r: Obj)
    ensures forall k :: k in r <==> k in row || k == "imageUrl"
    ensures forall k :: k != "imageUrl" ==> Get(r, k) == Get(row, k)
    ensures Truthy(Get(row, "image_url")) ==> Get(r, "imageUrl") == Get(row, "image_url")
    ensures !Truthy(Get(row, "image_url")) ==> Get(r, "imageUrl") == Get(row, "imageUrl")
  {
    row["imageUrl" := Or(Get(row, "image_url"), Get(row, "imageUrl"))]
  }

  function ReadAll(rows: seq<Obj>): (r: seq<Obj>)
    ensures |r| == |rows|
    ensures forall i :: 0 <= i < |rows| ==> r[i] == ReadSkill(rows[i])
  {
    seq(|rows|, i requires 0 <= i < |rows| => ReadSkill(rows[i]))
  }

  /** The admin `GET`: the guard, then every row in the store's order; a
      store error is a 500. */
  function GetAdminSkills(auth: ApiAuth.AuthResult, q: Http.Query): (r: Http.Response)
    ensures ApiAuth.Guard(auth).Some? ==> r == ApiAuth.Guard(auth).value
    ensures ApiAuth.Guard(auth).None? && q.StoreError? ==> r == Http.Failure(500, "Failed to fetch skills")
    ensures ApiAuth.Guard(auth).None? && q.Rows? ==> r.status == 200 && r.body == Http.List(ReadAll(q.rows))
  {
    match ApiAuth.Guard(auth)
    case Some(denied) => denied
    case None =>
      match q
      case StoreError(_) => Http.Failure(500, "Failed to fetch skills")
      case Rows(rows) => Http.Respond(Http.List(ReadAll(rows)))
  }

  /** The public `GET`: the same listing, and an empty list (still 200) on
      a store error. */
  function GetPublicSkills(q: Http.Query): (r: Http.Response)
    ensures r.status == 200
    ensures q.StoreError? ==> r.body == Http.List([])
    ensures q.Rows? ==> r.body == Http.List(ReadAll(q.rows))
  {
    match q
    case StoreError(_) => Http.Respond(Http.List([]))
    case Rows(rows) => Http.Respond(Http.List(ReadAll(rows)))
  }

  /** The listing ascends by `category_order` as the screens read it (a
      missing or null order as 0). */
  predicate CategoryOrdered(rows: seq<Obj>)
  {
    forall i, j :: 0 <= i < j < |rows| ==>
      SkillList.OrderOf(Get(rows[i], "category_order")) <= SkillList.OrderOf(Get(rows[j], "category_order"))
  }

  /** The skills the admin screen holds after loading a listing. */
  function Loaded(rows: seq<Obj>): (r: seq<SkillList.Skill>)
    ensures |r| == |rows|
    ensures forall i :: 0 <= i < |rows| ==> r[i] == SkillsManager.LoadSkill(ReadSkill(rows[i]))
  {
    seq(|rows|, i requires 0 <= i < |rows| => SkillsManager.LoadSkill(ReadSkill(rows[i])))
  }

  /** Loaded from a listing in the order the query asks for, the admin
      screen displays the categories in the order they first appear, which
      is the order a category move takes its neighbour from. */
  lemma AdminListingCategories(rows: seq<Obj>)
    requires CategoryOrdered(rows)
    ensures SkillList.SortedCategories(Loaded(rows)) == SkillList.Categories(Loaded(rows))
  {
    var s := Loaded(rows);
    var key: SkillList.Skill -> int := SkillList.CategoryOrderKey;
    forall i, j | 0 <= i < j < |s|
      ensures key(s[i]) <= key(s[j])
    {
    }
    SkillList.SortedListCategories(s);
  }

  /** `x !== undefined ? x : fallback`, the order fields of `POST`. */
  function OrderField(b: Obj, key: string, column: string): (r: JsVal)
    ensures Get(b, key) != Undefined ==> r == Get(b, key)
    ensures Get(b, key) == Undefined && Truthy(Get(b, column)) ==> r == Get(b, column)
    ensures Get(b, key) == Undefined && !Truthy(Get(b, column)) ==> r == Num(0)
  {
    IfDefined(Get(b, key), Or(Get(b, column), Num(0)))
  }

  /** The row `POST` inserts. */
  function WriteSkill(b: Obj): (r: Obj)
    ensures forall k :: k in r <==> k in {"name", "category", "proficiency", "image_url", "category_order", "skill_order"}
  {
    map[]["name" := Get(b, "name")]
         ["category" := Get(b, "category")]
         ["proficiency" := Get(b, "proficiency")]
         ["image_url" := Or(Get(b, "imageUrl"), Get(b, "image_url"))]
         ["category_order" := OrderField(b, "categoryOrder", "category_order")]
         ["skill_order" := OrderField(b, "skillOrder", "skill_order")]
  }

  /** Name, category and proficiency are copied, the image prefers the
      camelCase key, and a defined order is kept even when it is 0. */
  lemma WriteSkillFields(b: Obj)
    ensures var r := WriteSkill(b);
      && Get(r, "name") == Get(b, "name") && Get(r, "category") == Get(b, "category")
      && Get(r, "proficiency") == Get(b, "proficiency")
      && (Truthy(Get(b, "imageUrl")) ==> Get(r, "image_url") == Get(b, "imageUrl"))
      && (!Truthy(Get(b, "imageUrl")) ==> Get(r, "image_url") == Get(b, "image_url"))
      && Get(r, "category_order") == OrderField(b, "categoryOrder", "category_order")
      && Get(r, "skill_order") == OrderField(b, "skillOrder", "skill_order")
      && (Get(b, "categoryOrder") == Num(0) ==> Get(r, "category_order") == Num(0))
  {
  }

  /** The admin `POST`: insert the row under the id the store generates; a
      store error is a 500. */
  function PostSkill(auth: ApiAuth.AuthResult, b: Obj, t: Http.Table, newId: string, failure: Option<string>)
    : (r: (Http.Response, Http.Table))
    requires newId !in t
    ensures ApiAuth.Guard(auth).Some? ==> r == (ApiAuth.Guard(auth).value, t)
    ensures ApiAuth.Guard(auth).None? && failure.Some? ==> r == (Http.Failure(500, "Failed to create skill"), t)
    ensures ApiAuth.Guard(auth).None? && failure.None? ==>
      r.1 == t[newId := Serialize(WriteSkill(b))["id" := Str(newId)]]
      && r.0 == Http.Respond(Http.Object(r.1[newId]))
  {
    if ApiAuth.Guard(auth).Some? then (ApiAuth.Guard(auth).value, t)
    else if failure.Some? then (Http.Failure(500, "Failed to create skill"), t)
    else
      var row := Serialize(WriteSkill(b))["id" := Str(newId)];
      (Http.Respond(Http.Object(row)), t[newId := row])
  }

  /** The `updateData` of `PUT`: the four plain columns always, and each
      order column only when one of its spellings is defined, the camelCase
      one winning. When the body gives both camelCase orders it is the row
      `POST` would insert. */
  function UpdateDataOf(rest: Obj): (r: Obj)
    ensures "name" in r && "category" in r && "proficiency" in r && "image_url" in r
    ensures Get(r, "name") == Get(rest, "name") && Get(r, "category") == Get(rest, "category")
    ensures Get(r, "proficiency") == Get(rest, "proficiency")
    ensures Get(r, "image_url") == Or(Get(rest, "imageUrl"), Get(rest, "image_url"))
    ensures "category_order" in r <==> Get(rest, "categoryOrder") != Undefined || Get(rest, "category_order") != Undefined
    ensures Get(r, "category_order") == IfDefined(Get(rest, "categoryOrder"), Get(rest, "category_order"))
    ensures "skill_order" in r <==> Get(rest, "skillOrder") != Undefined || Get(rest, "skill_order") != Undefined
    ensures Get(r, "skill_order") == IfDefined(Get(rest, "skillOrder"), Get(rest, "skill_order"))
    ensures forall k :: k in r ==> k in SkillColumns
    ensures Get(rest, "categoryOrder") != Undefined && Get(rest, "skillOrder") != Undefined ==> r == WriteSkill(rest)
  {
    var plain := map["name" := Get(rest, "name"), "category" := Get(rest, "category"),
                     "proficiency" := Get(rest, "proficiency"),
                     "image_url" := Or(Get(rest, "imageUrl"), Get(rest, "image_url"))];
    var withCategory :=
      if Get(rest, "categoryOrder") != Undefined || Get(rest, "category_order") != Undefined
      then plain["category_order" := IfDefined(Get(rest, "categoryOrder"), Get(rest, "category_order"))]
      else plain;
    if Get(rest, "skillOrder") != Undefined || Get(rest, "skill_order") != Undefined
    then withCategory["skill_order" := IfDefined(Get(rest, "skillOrder"), Get(rest, "skill_order"))]
    else withCategory
  }

  /** The columns a skill update can name. */
  const SkillColumns := {"name", "category", "proficiency", "image_url", "category_order", "skill_order"}

  /** The route builds `updateData` step by step: the plain columns, then
      each order column the body mentions. */
  method UpdateData(rest: Obj) returns (data: Obj)
    ensures data == UpdateDataOf(rest)
  {
    data := map["name" := Get(rest, "name"), "category" := Get(rest, "category"),
                "proficiency" := Get(rest, "proficiency"),
                "image_url" := Or(Get(rest, "imageUrl"), Get(rest, "image_url"))];
    if Get(rest, "categoryOrder") != Undefined || Get(rest, "category_order") != Undefined {
      data := data["category_order" := IfDefined(Get(rest, "categoryOrder"), Get(rest, "category_order"))];
    }
    if Get(rest, "skillOrder") != Undefined || Get(rest, "skill_order") != Undefined {
      data := data["skill_order" := IfDefined(Get(rest, "skillOrder"), Get(rest, "skill_order"))];
    }
  }

  /** The row an update leaves, column by column: a column the update
      holds defined takes that value, every other column keeps the row's.
      So name, category and proficiency change only when given, the image
      only when `imageUrl || image_url` is defined, and each order takes
      the camelCase spelling, else the snake_case one, else stays. */
  lemma UpdatedSkill(row: Obj, rest: Obj)
    ensures var r := Apply(row, UpdateDataOf(rest));
      && Get(r, "name") == IfDefined(Get(rest, "name"), Get(row, "name"))
      && Get(r, "category") == IfDefined(Get(rest, "category"), Get(row, "category"))
      && Get(r, "proficiency") == IfDefined(Get(rest, "proficiency"), Get(row, "proficiency"))
      && Get(r, "image_url") == IfDefined(Or(Get(rest, "imageUrl"), Get(rest, "image_url")), Get(row, "image_url"))
      && Get(r, "category_order")
         == IfDefined(IfDefined(Get(rest, "categoryOrder"), Get(rest, "category_order")), Get(row, "category_order"))
      && Get(r, "skill_order")
         == IfDefined(IfDefined(Get(rest, "skillOrder"), Get(rest, "skill_order")), Get(row, "skill_order"))
      && (forall k :: k !in SkillColumns ==> Get(r, k) == Get(row, k))
  {
    var data := UpdateDataOf(rest);
    ApplyGet(row, data, "name");
    ApplyGet(row, data, "category");
    ApplyGet(row, data, "proficiency");
    ApplyGet(row, data, "image_url");
    ApplyGet(row, data, "category_order");
    ApplyGet(row, data, "skill_order");
    forall k | k !in SkillColumns
      ensures Get(Apply(row, data), k) == Get(row, k)
    {
      ApplyGet(row, data, k);
    }
  }

  /** `UpdatedSkill` read against the whole body, `id` included: the
      row's own `id` is never rewritten. */
  lemma UpdatedFromBody(row: Obj, b: Obj)
    ensures var r := Apply(row, UpdateDataOf(b - {"id"}));
      && (Get(b, "name") != Undefined ==> Get(r, "name") == Get(b, "name"))
      && (Get(b, "name") == Undefined ==> Get(r, "name") == Get(row, "name"))
      && (Get(b, "categoryOrder") == Undefined && Get(b, "category_order") == Undefined ==>
            Get(r, "category_order") == Get(row, "category_order"))
      && (Get(b, "skillOrder") == Undefined && Get(b, "skill_order") == Undefined ==>
            Get(r, "skill_order") == Get(row, "skill_order"))
      && (Get(b, "categoryOrder") != Undefined ==> Get(r, "category_order") == Get(b, "categoryOrder"))
      && (Get(b, "skillOrder") != Undefined ==> Get(r, "skill_order") == Get(b, "skillOrder"))
      && Get(r, "id") == Get(row, "id")
  {
    var rest := b - {"id"};
    assert Get(rest, "name") == Get(b, "name");
    assert Get(rest, "categoryOrder") == Get(b, "categoryOrder") && Get(rest, "category_order") == Get(b, "category_order");
    assert Get(rest, "skillOrder") == Get(b, "skillOrder") && Get(rest, "skill_order") == Get(b, "skill_order");
    UpdatedSkill(row, rest);
    assert "id" !in SkillColumns;
  }

  /** An image emptied in the form is sent as '', which `imageUrl ||
      image_url` turns into `undefined`: the stored image stays. */
  lemma EmptiedImageKept(row: Obj, rest: Obj)
    requires Get(rest, "imageUrl") == Str("") && Get(rest, "image_url") == Undefined
    ensures Get(Apply(row, UpdateDataOf(rest)), "image_url") == Get(row, "image_url")
  {
    ApplyGet(row, UpdateDataOf(rest), "image_url");
  }

  /** The admin `PUT`: the body's `id` picks the row; the row takes the
      serialized `updateData`, so an order column the body does not mention
      keeps its value. A missing row (or id) is a 500. */
  method PutSkill(auth: ApiAuth.AuthResult, b: Obj, t: Http.Table) returns (r: Http.Response, t2: Http.Table)
    ensures ApiAuth.Guard(auth).Some? ==> r == ApiAuth.Guard(auth).value && t2 == t
    ensures ApiAuth.Guard(auth).None? && !(Get(b, "id").Str? && Get(b, "id").s in t) ==>
      r == Http.Failure(500, "Failed to update skill") && t2 == t
    ensures ApiAuth.Guard(auth).None? && Get(b, "id").Str? && Get(b, "id").s in t ==>
      var id := Get(b, "id").s;
      && t2 == t[id := Apply(t[id], UpdateDataOf(b - {"id"}))]
      && r == Http.Respond(Http.Object(t2[id]))
    ensures ApiAuth.Guard(auth).None? && Get(b, "id").Str? && Get(b, "id").s in t ==>
      var id := Get(b, "id").s;
      && t2.Keys == t.Keys
      && (forall k :: k in t && k != id ==> t2[k] == t[k])
      && (Get(b, "name") != Undefined ==> Get(t2[id], "name") == Get(b, "name"))
      && (Get(b, "name") == Undefined ==> Get(t2[id], "name") == Get(t[id], "name"))
      && (Get(b, "categoryOrder") == Undefined && Get(b, "category_order") == Undefined ==>
            Get(t2[id], "category_order") == Get(t[id], "category_order"))
      && (Get(b, "skillOrder") == Undefined && Get(b, "skill_order") == Undefined ==>
            Get(t2[id], "skill_order") == Get(t[id], "skill_order"))
      && (Get(b, "categoryOrder") != Undefined ==> Get(t2[id], "category_order") == Get(b, "categoryOrder"))
      && (Get(b, "skillOrder") != Undefined ==> Get(t2[id], "skill_order") == Get(b, "skillOrder"))
      && Get(t2[id], "id") == Get(t[id], "id")
  {
    if ApiAuth.Guard(auth).Some? {
      return ApiAuth.Guard(auth).value, t;
    }
    var data := UpdateData(b - {"id"});
    if !Get(b, "id").Str? || Get(b, "id").s !in t {
      return Http.Failure(500, "Failed to update skill"), t;
    }
    var id := Get(b, "id").s;
    var row := Apply(t[id], data);
    UpdatedFromBody(t[id], b);
    t2 := t[id := row];
    r := Http.Respond(Http.Object(t2[id]));
  }

  /** The admin `DELETE`: behind the sign-in guard, the shared delete by
      id, whose store errors this route answers with "Failed to delete skill". */
  function DeleteSkill(auth: ApiAuth.AuthResult, id: Option<string>, storeError: bool, t: Http.Table): (r: (Http.Response, Http.Table))
    ensures ApiAuth.Guard(auth).Some? ==> r == (ApiAuth.Guard(auth).value, t)
    ensures ApiAuth.Guard(auth).None? && (id.None? || id == Some("")) ==> r == (Http.Failure(400, "ID is required"), t)
    ensures ApiAuth.Guard(auth).None? && id.Some? && id.value != "" && storeError ==>
      r == (Http.Failure(500, "Failed to delete skill"), t)
    ensures ApiAuth.Guard(auth).None? && id.Some? && id.value != "" && !storeError ==>
      r.0 == Http.Success && r.1 == Http.DeleteRow(t, id.value)
  {
    if ApiAuth.Guard(auth).Some? then (ApiAuth.Guard(auth).value, t)
    else Http.DeleteById(id, storeError, t, "Failed to delete skill")
  }

  /** The `updates` of a PATCH body: an array of entries, or anything else. */
  datatype PatchBody = Updates(entries: seq<Obj>) | NotAnArray

  /** The `updateData` of one entry: `category_order` only when
      `categoryOrder` is defined, `skill_order` only when `skillOrder` is. */
  function EntryPatch(e: Obj): (r: Obj)
    ensures forall k :: k in r ==> k == "category_order" || k == "skill_order"
    ensures "category_order" in r <==> Get(e, "categoryOrder") != Undefined
    ensures "skill_order" in r <==> Get(e, "skillOrder") != Undefined
    ensures "category_order" in r ==> r["category_order"] == Get(e, "categoryOrder")
    ensures "skill_order" in r ==> r["skill_order"] == Get(e, "skillOrder")
  {
    var withCategory := if Get(e, "categoryOrder") != Undefined then map["category_order" := Get(e, "categoryOrder")] else map[];
    if Get(e, "skillOrder") != Undefined then withCategory["skill_order" := Get(e, "skillOrder")] else withCategory
  }

  /** One entry's `.update(updateData).eq('id', id)`: the row with that id,
      if there is one, takes the entry's orders; an id that matches no row
      changes nothing and is not an error. */
  function PatchRow(t: Http.Table, e: Obj): (r: Http.Table)
    ensures r.Keys == t.Keys
    ensures forall k :: k in t && Get(e, "id") != Str(k) ==> r[k] == t[k]
  {
    if Get(e, "id").Str? && Get(e, "id").s in t then
      var id := Get(e, "id").s;
      t[id := Apply(t[id], EntryPatch(e))]
    else t
  }

  /** The entries applied one after the other. */
  function PatchAll(t: Http.Table, es: seq<Obj>): (r: Http.Table)
    ensures r.Keys == t.Keys
  {
    if es == [] then t else PatchRow(PatchAll(t, es[..|es| - 1]), es[|es| - 1])
  }

  /** Applying one more entry is one more `PatchRow`. */
  lemma PatchAllStep(t: Http.Table, es: seq<Obj>, i: nat)
    requires i < |es|
    ensures PatchAll(t, es[..i + 1]) == PatchRow(PatchAll(t, es[..i]), es[i])
  {
    assert es[..i + 1][..i] == es[..i];
  }

  /** The admin `PATCH`: a body whose `updates` is not an array is a 400;
      otherwise every entry is applied and the answer is success, whatever
      the individual updates did. */
  method PatchSkills(auth: ApiAuth.AuthResult, body: PatchBody, t: Http.Table) returns (r: Http.Response, t2: Http.Table)
    ensures ApiAuth.Guard(auth).Some? ==> r == ApiAuth.Guard(auth).value && t2 == t
    ensures ApiAuth.Guard(auth).None? && body.NotAnArray? ==> r == Http.Failure(400, "Updates must be an array") && t2 == t
    ensures ApiAuth.Guard(auth).None? && body.Updates? ==> r == Http.Success && t2 == PatchAll(t, body.entries)
  {
    if ApiAuth.Guard(auth).Some? {
      return ApiAuth.Guard(auth).value, t;
    }
    if body.NotAnArray? {
      return Http.Failure(400, "Updates must be an array"), t;
    }
    var entries := body.entries;
    t2 := t;
    for i := 0 to |entries|
      invariant t2 == PatchAll(t, entries[..i])
    {
      var e := entries[i];
      var data: Obj := map[];
      if Get(e, "categoryOrder") != Undefined {
        data := data["category_order" := Get(e, "categoryOrder")];
      }
      if Get(e, "skillOrder") != Undefined {
        data := data["skill_order" := Get(e, "skillOrder")];
      }
      assert data == EntryPatch(e);
      PatchAllStep(t, entries, i);
      if Get(e, "id").Str? && Get(e, "id").s in t2 {
        var id := Get(e, "id").s;
        t2 := t2[id := Apply(t2[id], data)];
      }
    }
    assert entries[..|entries|] == entries;
    r := Http.Success;
  }

  /** Only the order columns of a row change under a PATCH, and a row no
      entry names does not change at all. */
  lemma {:induction false} PatchAllKeeps(t: Http.Table, es: seq<Obj>, id: string, column: string)
    requires id in t
    ensures column != "category_order" && column != "skill_order" ==> Get(PatchAll(t, es)[id], column) == Get(t[id], column)
    ensures (forall k :: 0 <= k < |es| ==> Get(es[k], "id") != Str(id)) ==> PatchAll(t, es)[id] == t[id]
  {
    if es != [] {
      var init := es[..|es| - 1];
      PatchAllKeeps(t, init, id, column);
      var mid := PatchAll(t, init);
      var e := es[|es| - 1];
      if Get(e, "id") == Str(id) {
        ApplyGet(mid[id], EntryPatch(e), column);
      }
      assert forall k :: 0 <= k < |init| ==> init[k] == es[k];
    }
  }

  /** With distinct ids, the row an entry names ends with the orders that
      entry defines; the order in which the entries are applied, which the
      handler leaves to `Promise.all`, does not matter. */
  lemma {:induction false} PatchAllSets(t: Http.Table, es: seq<Obj>, k: nat)
    requires k < |es| && Get(es[k], "id").Str? && Get(es[k], "id").s in t
    requires forall i, j :: 0 <= i < j < |es| ==> Get(es[i], "id") != Get(es[j], "id")
    ensures var id := Get(es[k], "id").s;
      && (Get(es[k], "categoryOrder") != Undefined ==> Get(PatchAll(t, es)[id], "category_order") == Get(es[k], "categoryOrder"))
      && (Get(es[k], "skillOrder") != Undefined ==> Get(PatchAll(t, es)[id], "skill_order") == Get(es[k], "skillOrder"))
  {
    var id := Get(es[k], "id").s;
    var init := es[..|es| - 1];
    if k == |es| - 1 {
      ApplyGet(PatchAll(t, init)[id], EntryPatch(es[k]), "category_order");
      ApplyGet(PatchAll(t, init)[id], EntryPatch(es[k]), "skill_order");
    } else {
      assert init[k] == es[k];
      PatchAllSets(t, init, k);
    }
  }

  /** The entry the admin screen sends for an update it built. */
  function Wire(u: SkillsManager.Update): (r: Obj)
    ensures Get(r, "id") == Str(u.id)
    ensures u.categoryOrder.Some? <==> Get(r, "categoryOrder") != Undefined
    ensures u.skillOrder.Some? <==> Get(r, "skillOrder") != Undefined
  {
    var base := map["id" := Str(u.id)];
    var withCategory := if u.categoryOrder.Some? then base["categoryOrder" := Num(u.categoryOrder.value)] else base;
    if u.skillOrder.Some? then withCategory["skillOrder" := Num(u.skillOrder.value)] else withCategory
  }

  /** The route applying an entry the screen sent does to the stored row
      what the screen's own model of the update does to the skill it loads
      from that row. */
  lemma WireMatchesUpdate(row: Obj, u: SkillsManager.Update)
    requires Get(row, "id") == Str(u.id)
    ensures SkillsManager.LoadSkill(ReadSkill(Apply(row, EntryPatch(Wire(u)))))
         == SkillsManager.ApplyTo(SkillsManager.LoadSkill(ReadSkill(row)), u)
  {
    var patched := Apply(row, EntryPatch(Wire(u)));
    ApplyGet(row, EntryPatch(Wire(u)), "category_order");
    ApplyGet(row, EntryPatch(Wire(u)), "skill_order");
    ApplyGet(row, EntryPatch(Wire(u)), "id");
    ApplyGet(row, EntryPatch(Wire(u)), "name");
    ApplyGet(row, EntryPatch(Wire(u)), "category");
    ApplyGet(row, EntryPatch(Wire(u)), "image_url");
    ApplyGet(row, EntryPatch(Wire(u)), "imageUrl");
  }
}
