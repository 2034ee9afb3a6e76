/** The admin project-filter routes (`app/api/admin/project-filters/route.ts`):
    the listing, the row `POST` inserts, the `updateData` of `PUT`, and
    `DELETE`. Rows are objects keyed by column name; the listing is the
    store's answer to `select('*')` ordered by `display_order` and `name`. */
module FiltersRoute {
  import opened Wrappers
  import opened Js
  import Http
  import ApiAuth

  /** The admin `GET`: the rows as the store lists them; a store error is a
      500. */
  function GetAdminFilters(auth: ApiAuth.AuthResult, q: Http.Query): (r: Http.Response)
    ensures ApiAuth.Guard(auth).Some? ==> r == ApiAuth.Guard(auth).value
    ensures ApiAuth.Guard(auth).None? && q.StoreError? ==> r == Http.Failure(500, "Failed to fetch project filters")
    ensures ApiAuth.Guard(auth).None? && q.Rows? ==> r.status == 200 && r.body == Http.List(q.rows)
  {
    match ApiAuth.Guard(auth)
    case Some(denied) => denied
    case None =>
      match q
      case StoreError(_) => Http.Failure(500, "Failed to fetch project filters")
      case Rows(rows) => Http.Respond(Http.List(rows))
  }

  /** `error.message || fallback`: the store's message when it has one. */
  function ErrorMessage(message: string, fallback: string): (r: string)
    ensures message != "" ==> r == message
    ensures message == "" ==> r == fallback
    ensures fallback != "" ==> r != ""
  {
    if message != "" then message else fallback
  }

  const FilterColumns := {"name", "display_order", "is_active"}

  /** The row `POST` inserts. */
  function WriteFilter(b: Obj): (r: Obj)
    ensures forall k :: k in r <==> k in FilterColumns
  {
    map[]["name" := Get(b, "name")]
         ["display_order" := Or(Or(Get(b, "displayOrder"), Get(b, "display_order")), Num(0))]
         ["is_active" := IfDefined(Get(b, "isActive"), Bool(true))]
  }

  /** The order is the first truthy spelling, else 0; the active flag is
      `isActive` when defined and otherwise `true`, whatever `is_active`
      says. */
  lemma WriteFilterFields(b: Obj)
    ensures var r := WriteFilter(b);
      && Get(r, "name") == Get(b, "name")
      && (Truthy(Get(b, "displayOrder")) ==> Get(r, "display_order") == Get(b, "displayOrder"))
      && (!Truthy(Get(b, "displayOrder")) && Truthy(Get(b, "display_order")) ==>
            Get(r, "display_order") == Get(b, "display_order"))
      && (!Truthy(Get(b, "displayOrder")) && !Truthy(Get(b, "display_order")) ==> Get(r, "display_order") == Num(0))
      && (Get(b, "isActive") != Undefined ==> Get(r, "is_active") == Get(b, "isActive"))
      && (Get(b, "isActive") == Undefined ==> Get(r, "is_active") == Bool(true))
  {
  }

  /** The admin `POST`: insert under the id the store generates; a store
      error is a 500 with the store's message. */
  function PostFilter(auth: ApiAuth.AuthResult, b: Obj, t: Http.Table, newId: string, failure: Option<string>)
    : (r: (Http.Response, Http.Table))
    requires newId !in t
    ensures ApiAuth.Guard(auth).Some? ==> r == (ApiAuth.Guard(auth).value, t)
    ensures ApiAuth.Guard(auth).None? && failure.Some? ==>
      r == (Http.Failure(500, ErrorMessage(failure.value, "Failed to create project filter")), t)
    ensures ApiAuth.Guard(auth).None? && failure.None? ==>
      r.1 == t[newId := Serialize(WriteFilter(b))["id" := Str(newId)]]
      && r.0 == Http.Respond(Http.Object(r.1[newId]))
  {
    if ApiAuth.Guard(auth).Some? then (ApiAuth.Guard(auth).value, t)
    else if failure.Some? then (Http.Failure(500, ErrorMessage(failure.value, "Failed to create project filter")), t)
    else
      var row := Serialize(WriteFilter(b))["id" := Str(newId)];
      (Http.Respond(Http.Object(row)), t[newId := row])
  }

  /** The `updateData` of `PUT` as written: `displayOrder || display_order`,
      so a `displayOrder` of 0 falls through to `display_order`. */
  function FilterUpdateAsWritten(rest: Obj): (r: Obj)
    ensures forall k :: k in r <==> k in FilterColumns
    ensures Get(r, "name") == Get(rest, "name")
    ensures Truthy(Get(rest, "displayOrder")) ==> Get(r, "display_order") == Get(rest, "displayOrder")
    ensures !Truthy(Get(rest, "displayOrder")) ==> Get(r, "display_order") == Get(rest, "display_order")
    ensures Get(rest, "isActive") != Undefined ==> Get(r, "is_active") == Get(rest, "isActive")
    ensures Get(rest, "isActive") == Undefined ==> Get(r, "is_active") == Get(rest, "is_active")
  {
    map[]["name" := Get(rest, "name")]
         ["display_order" := Or(Get(rest, "displayOrder"), Get(rest, "display_order"))]
         ["is_active" := IfDefined(Get(rest, "isActive"), Get(rest, "is_active"))]
  }

  /** The `updateData` of `PUT` as intended: a defined `displayOrder`,
      0 included, is the order written. */
  function FilterUpdate(rest: Obj): (r: Obj)
    ensures forall k :: k in r <==> k in FilterColumns
    ensures Get(r, "name") == Get(rest, "name")
    ensures Get(rest, "displayOrder") != Undefined ==> Get(r, "display_order") == Get(rest, "displayOrder")
    ensures Get(rest, "displayOrder") == Undefined ==> Get(r, "display_order") == Get(rest, "display_order")
    ensures Get(rest, "isActive") != Undefined ==> Get(r, "is_active") == Get(rest, "isActive")
    ensures Get(rest, "isActive") == Undefined ==> Get(r, "is_active") == Get(rest, "is_active")
  {
    map[]["name" := Get(rest, "name")]
         ["display_order" := IfDefined(Get(rest, "displayOrder"), Get(rest, "display_order"))]
         ["is_active" := IfDefined(Get(rest, "isActive"), Get(rest, "is_active"))]
  }

  /** The two agree on every body except one whose `displayOrder` is
      defined but falsy. */
  lemma UpdatesAgree(rest: Obj)
    requires Truthy(Get(rest, "displayOrder")) || Get(rest, "displayOrder") == Undefined
    ensures FilterUpdateAsWritten(rest) == FilterUpdate(rest)
  {
  }

  /** A body moving a filter to order 0 without a `display_order`: as
      written, the order is dropped from the update and the row keeps its
      old order; as intended, the row's order becomes 0. */
  lemma ZeroOrderDropped(row: Obj, rest: Obj)
    requires Get(rest, "displayOrder") == Num(0) && Get(rest, "display_order") == Undefined
    ensures Get(Apply(row, FilterUpdateAsWritten(rest)), "display_order") == Get(row, "display_order")
    ensures Get(Apply(row, FilterUpdate(rest)), "display_order") == Num(0)
  {
    ApplyGet(row, FilterUpdateAsWritten(rest), "display_order");
    ApplyGet(row, FilterUpdate(rest), "display_order");
  }

  /** A `PUT` with a given `updateData`: the body's `id` picks the row; a
      missing row (or id) is a 500 with the store's message. */
  function PutWith(auth: ApiAuth.AuthResult, b: Obj, data: Obj, t: Http.Table, storeMessage: string)
    : (r: (Http.Response, Http.Table))
    ensures ApiAuth.Guard(auth).Some? ==> r == (ApiAuth.Guard(auth).value, t)
    ensures ApiAuth.Guard(auth).None? && !(Get(b, "id").Str? && Get(b, "id").s in t) ==>
      r == (Http.Failure(500, ErrorMessage(storeMessage, "Failed to update project filter")), t)
    ensures ApiAuth.Guard(auth).None? && Get(b, "id").Str? && Get(b, "id").s in t ==>
      var id := Get(b, "id").s;
      && r.1.Keys == t.Keys
      && r.1[id] == Apply(t[id], data)
      && (forall k :: k in t && k != id ==> r.1[k] == t[k])
      && r.0 == Http.Respond(Http.Object(r.1[id]))
  {
    if ApiAuth.Guard(auth).Some? then (ApiAuth.Guard(auth).value, t)
    else if !Get(b, "id").Str? then (Http.Failure(500, ErrorMessage(storeMessage, "Failed to update project filter")), t)
    else
      match Http.UpdateRow(t, Get(b, "id").s, data)
      case None => (Http.Failure(500, ErrorMessage(storeMessage, "Failed to update project filter")), t)
      case Some(t2) => (Http.Respond(Http.Object(t2[Get(b, "id").s])), t2)
  }

  /** The row the as-written update leaves, against the whole body: the
      name and the flag (camelCase, else snake_case) when given, the order
      when `displayOrder || display_order` is defined; every other column,
      `id` included, keeps the row's. */
  lemma UpdatedFilterAsWritten(row: Obj, b: Obj)
    ensures var r := Apply(row, FilterUpdateAsWritten(b - {"id"}));
      && Get(r, "name") == IfDefined(Get(b, "name"), Get(row, "name"))
      && Get(r, "display_order") == IfDefined(Or(Get(b, "displayOrder"), Get(b, "display_order")), Get(row, "display_order"))
      && Get(r, "is_active") == IfDefined(IfDefined(Get(b, "isActive"), Get(b, "is_active")), Get(row, "is_active"))
      && (forall k :: k !in FilterColumns ==> Get(r, k) == Get(row, k))
  {
    var rest := b - {"id"};
    var data := FilterUpdateAsWritten(rest);
    assert Get(rest, "name") == Get(b, "name");
    assert Get(rest, "displayOrder") == Get(b, "displayOrder") && Get(rest, "display_order") == Get(b, "display_order");
    assert Get(rest, "isActive") == Get(b, "isActive") && Get(rest, "is_active") == Get(b, "is_active");
    ApplyGet(row, data, "name");
    ApplyGet(row, data, "display_order");
    ApplyGet(row, data, "is_active");
    forall k | k !in FilterColumns
      ensures Get(Apply(row, data), k) == Get(row, k)
    {
      ApplyGet(row, data, k);
    }
  }

  /** The same for the intended update: a defined `displayOrder`, 0
      included, is the order, else `display_order`, else the row's. */
  lemma UpdatedFilter(row: Obj, b: Obj)
    ensures var r := Apply(row, FilterUpdate(b - {"id"}));
      && Get(r, "name") == IfDefined(Get(b, "name"), Get(row, "name"))
      && Get(r, "display_order") == IfDefined(IfDefined(Get(b, "displayOrder"), Get(b, "display_order")), Get(row, "display_order"))
      && Get(r, "is_active") == IfDefined(IfDefined(Get(b, "isActive"), Get(b, "is_active")), Get(row, "is_active"))
      && (forall k :: k !in FilterColumns ==> Get(r, k) == Get(row, k))
  {
    var rest := b - {"id"};
    var data := FilterUpdate(rest);
    assert Get(rest, "name") == Get(b, "name");
    assert Get(rest, "displayOrder") == Get(b, "displayOrder") && Get(rest, "display_order") == Get(b, "display_order");
    assert Get(rest, "isActive") == Get(b, "isActive") && Get(rest, "is_active") == Get(b, "is_active");
    ApplyGet(row, data, "name");
    ApplyGet(row, data, "display_order");
    ApplyGet(row, data, "is_active");
    forall k | k !in FilterColumns
      ensures Get(Apply(row, data), k) == Get(row, k)
    {
      ApplyGet(row, data, k);
    }
  }

  /** The admin `PUT` as written: behind the sign-in guard, the update
      of `PutWith` with `displayOrder || display_order` as the order, so a
      falsy `displayOrder` falls through to `display_order` or leaves the
      row's order. */
  function PutFilterAsWritten(auth: ApiAuth.AuthResult, b: Obj, t: Http.Table, storeMessage: string)
    : (r: (Http.Response, Http.Table))
    ensures r == PutWith(auth, b, FilterUpdateAsWritten(b - {"id"}), t, storeMessage)
    ensures ApiAuth.Guard(auth).Some? ==> r == (ApiAuth.Guard(auth).value, t)
    ensures ApiAuth.Guard(auth).None? && Get(b, "id").Str? && Get(b, "id").s in t ==>
      var id := Get(b, "id").s;
      && r.1.Keys == t.Keys
      && (forall k :: k in t && k != id ==> r.1[k] == t[k])
      && var row := r.1[id];
      && Get(row, "name") == IfDefined(Get(b, "name"), Get(t[id], "name"))
      && (Truthy(Get(b, "displayOrder")) ==> Get(row, "display_order") == Get(b, "displayOrder"))
      && (!Truthy(Get(b, "displayOrder")) && Get(b, "display_order") != Undefined ==>
            Get(row, "display_order") == Get(b, "display_order"))
      && (!Truthy(Get(b, "displayOrder")) && Get(b, "display_order") == Undefined ==>
            Get(row, "display_order") == Get(t[id], "display_order"))
      && Get(row, "is_active") == IfDefined(IfDefined(Get(b, "isActive"), Get(b, "is_active")), Get(t[id], "is_active"))
      && Get(row, "id") == Get(t[id], "id")
      && r.0 == Http.Respond(Http.Object(row))
    ensures ApiAuth.Guard(auth).None? && !(Get(b, "id").Str? && Get(b, "id").s in t) ==>
      r == (Http.Failure(500, ErrorMessage(storeMessage, "Failed to update project filter")), t)
  {
    var r := PutWith(auth, b, FilterUpdateAsWritten(b - {"id"}), t, storeMessage);
    if ApiAuth.Guard(auth).None? && Get(b, "id").Str? && Get(b, "id").s in t then
      UpdatedFilterAsWritten(t[Get(b, "id").s], b);
      r
    else r
  }

  /** The admin `PUT` as intended: a defined `displayOrder`, 0 included,
      becomes the row's order. */
  function PutFilter(auth: ApiAuth.AuthResult, b: Obj, t: Http.Table, storeMessage: string)
    : (r: (Http.Response, Http.Table))
    ensures r == PutWith(auth, b, FilterUpdate(b - {"id"}), t, storeMessage)
    ensures ApiAuth.Guard(auth).Some? ==> r == (ApiAuth.Guard(auth).value, t)
    ensures ApiAuth.Guard(auth).None? && Get(b, "id").Str? && Get(b, "id").s in t ==>
      var id := Get(b, "id").s;
      && r.1.Keys == t.Keys
      && (forall k :: k in t && k != id ==> r.1[k] == t[k])
      && var row := r.1[id];
      && Get(row, "name") == (if Get(b, "name") != Undefined then Get(b, "name") else Get(t[id], "name"))
      && (Get(b, "displayOrder") != Undefined ==> Get(row, "display_order") == Get(b, "displayOrder"))
      && (Get(b, "displayOrder") == Undefined && Get(b, "display_order") != Undefined ==>
            Get(row, "display_order") == Get(b, "display_order"))
      && (Get(b, "displayOrder") == Undefined && Get(b, "display_order") == Undefined ==>
            Get(row, "display_order") == Get(t[id], "display_order"))
      && (Get(b, "isActive") != Undefined ==> Get(row, "is_active") == Get(b, "isActive"))
      && (Get(b, "isActive") == Undefined && Get(b, "is_active") != Undefined ==>
            Get(row, "is_active") == Get(b, "is_active"))
      && (Get(b, "isActive") == Undefined && Get(b, "is_active") == Undefined ==>
            Get(row, "is_active") == Get(t[id], "is_active"))
      && Get(row, "id") == Get(t[id], "id")
      && r.0 == Http.Respond(Http.Object(row))
    ensures ApiAuth.Guard(auth).None? && !(Get(b, "id").Str? && Get(b, "id").s in t) ==>
      r == (Http.Failure(500, ErrorMessage(storeMessage, "Failed to update project filter")), t)
  {
    var r := PutWith(auth, b, FilterUpdate(b - {"id"}), t, storeMessage);
    if ApiAuth.Guard(auth).None? && Get(b, "id").Str? && Get(b, "id").s in t then
      UpdatedFilter(t[Get(b, "id").s], b);
      r
    else r
  }

  /** The admin `DELETE`: behind the sign-in guard, the shared delete by
      id, whose store errors this route answers with "Failed to delete project filter". */
  function DeleteFilter(auth: ApiAuth.AuthResult, id: Option<string>, storeError: bool, t: Http.Table): (r: (Http.Response, Http.Table))
    ensures ApiAuth.Guard(auth).Some? ==> r == (ApiAuth.Guard(auth).value, t)
    ensures ApiAuth.Guard(auth).None? && (id.None? || id == Some("")) ==> r == (Http.Failure(400, "ID is required"), t)
    ensures ApiAuth.Guard(auth).None? && id.Some? && id.value != "" && storeError ==>
      r == (Http.Failure(500, "Failed to delete project filter"), t)
    ensures ApiAuth.Guard(auth).None? && id.Some? && id.value != "" && !storeError ==>
      r.0 == Http.Success && r.1 == Http.DeleteRow(t, id.value)
  {
    if ApiAuth.Guard(auth).Some? then (ApiAuth.Guard(auth).value, t)
    else Http.DeleteById(id, storeError, t, "Failed to delete project filter")
  }
}
