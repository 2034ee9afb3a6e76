/** What a route handler answers with, and the table operations the
    handlers ask of the database. A table is a map from row id to row; the
    database client itself, its network transport and its query language
    are not modelled, only the effect each call has on the table. */
module Http {
  import opened Wrappers
  import opened Js

  /** A JSON response body: an object, an array of objects, or `null`. */
  datatype Body = Object(fields: Obj) | List(items: seq<Obj>) | NullBody

  datatype Response = Response(status: int, body: Body)

  /** `NextResponse.json(body)`: status 200. */
  function Respond(body: Body): Response
  {
    Response(200, body)
  }

  /** `NextResponse.json({ error }, { status })`. */
  function Failure(status: int, error: string): Response
  {
    Response(status, Object(map["error" := Str(error)]))
  }

  /** `NextResponse.json({ error, details }, { status })`. */
  function FailureWithDetails(status: int, error: string, details: string): Response
  {
    Response(status, Object(map["error" := Str(error), "details" := Str(details)]))
  }

  /** `NextResponse.json({ success: true })`. */
  const Success := Respond(Object(map["success" := Bool(true)]))

  type Table = map<string, Obj>

  /** The store's answer to a listing query: the rows in the order the
      query asked for, or its error. */
  datatype Query = Rows(rows: seq<Obj>) | StoreError(message: string)

  /** The store's answer to `.select('*').single()` on a one-row table:
      the row, or an error with its code and message. */
  datatype Single = Found(row: Obj) | SingleError(code: string, message: string)

  /** The code `.single()` reports when the table holds no row. */
  const NoRowCode := "PGRST116"

  /** `error && error.code !== 'PGRST116'`: an error other than "no row",
      which the handlers rethrow. */
  predicate Thrown(q: Single)
  {
    q.SingleError? && q.code != NoRowCode
  }

  /** The `data` such a query yields: the row, or `null`. */
  function Data(q: Single): (r: Option<Obj>)
    ensures r.Some? <==> q.Found?
    ensures q.Found? ==> r.value == q.row
  {
    if q.Found? then Some(q.row) else None
  }

  /** `NextResponse.json(x)` of an object or `null`. */
  function ObjectOrNull(o: Option<Obj>): (r: Body)
    ensures o.Some? ==> r == Object(o.value)
    ensures o.None? ==> r == NullBody
  {
    if o.Some? then Object(o.value) else NullBody
  }

  /** `.update(patch).eq('id', id).select().single()`: the row with that id
      takes every column the serialized patch carries; with no such row the
      call fails and the table is unchanged. */
  function UpdateRow(t: Table, id: string, patch: Obj): (r: Option<Table>)
    ensures r.Some? <==> id in t
    ensures r.Some? ==> r.value.Keys == t.Keys
    ensures r.Some? ==> r.value[id] == Apply(t[id], patch)
    ensures r.Some? ==> forall k :: k in t && k != id ==> r.value[k] == t[k]
  {
    if id in t then Some(t[id := Apply(t[id], patch)]) else None
  }

  /** `.upsert(row)` on the id column: an existing row is merged with the
      serialized row, a missing one is created from it. */
  function UpsertRow(t: Table, id: string, row: Obj): (r: Table)
    ensures r.Keys == t.Keys + {id}
    ensures id in t ==> r[id] == Apply(t[id], row)
    ensures id !in t ==> r[id] == Serialize(row)
    ensures forall k :: k in t && k != id ==> r[k] == t[k]
  {
    t[id := if id in t then Apply(t[id], row) else Serialize(row)]
  }

  /** Reading a defined column of the upserted row after the upsert. */
  lemma UpsertGet(t: Table, id: string, row: Obj, k: string)
    ensures Get(row, k) != Undefined ==> Get(UpsertRow(t, id, row)[id], k) == Get(row, k)
  {
    if id in t {
      ApplyGet(t[id], row, k);
    } else {
      SerializeGet(row, k);
    }
  }

  /** Upserting the same row twice leaves the table as upserting it once. */
  lemma UpsertIdempotent(t: Table, id: string, row: Obj)
    ensures UpsertRow(UpsertRow(t, id, row), id, row) == UpsertRow(t, id, row)
  {
    var once := UpsertRow(t, id, row);
    if id in t {
      ApplyIdempotent(t[id], row);
    } else {
      assert Apply(Serialize(row), row) == Serialize(row) by {
        assert (Serialize(row) + Serialize(row)) == Serialize(row);
      }
    }
    assert UpsertRow(once, id, row)[id] == once[id];
  }

  /** `.delete().eq('id', id)`: the row with that id is gone, every other
      row is untouched. */
  function DeleteRow(t: Table, id: string): (r: Table)
    ensures r.Keys == t.Keys - {id}
    ensures forall k :: k in r ==> r[k] == t[k]
  {
    t - {id}
  }

  /** The query-string `id` every admin `DELETE` demands: missing or empty
      is refused with 400 before the table is touched. */
  function RequireId(id: Option<string>): (r: Result<string, Response>)
    ensures r.Ok? <==> id.Some? && id.value != ""
    ensures r.Ok? ==> r.value == id.value
    ensures r.Err? ==> r.error == Failure(400, "ID is required")
  {
    if id.Some? && id.value != "" then Ok(id.value) else Err(Failure(400, "ID is required"))
  }

  /** What every admin `DELETE` does once the caller is signed in: no
      `?id=` is a 400 before the table is touched; a store error is thrown
      and answered 500 with the route's `failure` text, the table as it
      was; otherwise the row with that id is gone, the others are kept, and
      the answer is `{success: true}`. */
  function DeleteById(id: Option<string>, storeError: bool, t: Table, failure: string): (r: (Response, Table))
    ensures (id.None? || id == Some("")) ==> r == (Failure(400, "ID is required"), t)
    ensures id.Some? && id.value != "" && storeError ==> r == (Failure(500, failure), t)
    ensures id.Some? && id.value != "" && !storeError ==>
      r.0 == Success && r.1.Keys == t.Keys - {id.value} && forall k :: k in r.1 ==> r.1[k] == t[k]
  {
    match RequireId(id)
    case Err(bad) => (bad, t)
    case Ok(key) => if storeError then (Failure(500, failure), t) else (Success, DeleteRow(t, key))
  }

}
