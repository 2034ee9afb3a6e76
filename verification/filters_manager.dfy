/** The admin list of project filters (`components/admin/ProjectFiltersManager.tsx`):
    moving a filter one place up or down by exchanging its order with its
    neighbour's through two `PUT`s, and the order offered to a new filter.
    The list is the store's rows in listing order; each `PUT` updates the
    row it names in place. */
module FiltersManager {
  import opened Js
  import opened Reorder
  import FiltersRoute

  /** A row of `project_filters`, typed as the component's interface. */
  datatype Filter = Filter(id: string, name: string, displayOrder: int, isActive: bool)

  /** The row as the store holds it. */
  function Row(f: Filter): (r: Obj)
    ensures r.Keys == {"id", "name", "display_order", "is_active"}
    ensures r["display_order"] == Num(f.displayOrder) && r["id"] == Str(f.id)
  {
    map["id" := Str(f.id), "name" := Str(f.name), "display_order" := Num(f.displayOrder),
        "is_active" := Bool(f.isActive)]
  }

  /** The body each of the move's `PUT`s sends: the filter resent with a
      new order. */
  function MoveBody(f: Filter, order: int): (r: Obj)
    ensures Get(r, "id") == Str(f.id) && Get(r, "displayOrder") == Num(order)
  {
    map["id" := Str(f.id), "name" := Str(f.name), "displayOrder" := Num(order), "isActive" := Bool(f.isActive)]
  }

  /** The stored filter `x` after the `PUT` that resends `f` with `order`:
      name and flag from `f`, the order given. */
  function Write(x: Filter, f: Filter, order: int): (r: Filter)
    ensures r.id == x.id && r.displayOrder == order
  {
    x.(name := f.name, displayOrder := order, isActive := f.isActive)
  }

  /** `Write` is what the intended `PUT` does to the row. */
  lemma {:induction false} WriteMatchesRoute(x: Filter, f: Filter, order: int)
    ensures Apply(Row(x), FiltersRoute.FilterUpdate(MoveBody(f, order) - {"id"})) == Row(Write(x, f, order))
  {
    MovePatch(f, order);
    MergeRow(x, f.name, order, f.isActive);
  }

  /** The columns a move's `PUT` writes through the intended route. */
  lemma MovePatch(f: Filter, order: int)
    ensures FiltersRoute.FilterUpdate(MoveBody(f, order) - {"id"})
            == map["name" := Str(f.name), "display_order" := Num(order), "is_active" := Bool(f.isActive)]
  {
    MoveRest(f, order);
  }

  /** A stored filter merged with a patch of its three columns. */
  lemma MergeRow(x: Filter, name: string, order: int, active: bool)
    ensures Apply(Row(x), map["name" := Str(name), "display_order" := Num(order), "is_active" := Bool(active)])
            == Row(x.(name := name, displayOrder := order, isActive := active))
  {
    var p := map["name" := Str(name), "display_order" := Num(order), "is_active" := Bool(active)];
    var r, w := Apply(Row(x), p), Row(x.(name := name, displayOrder := order, isActive := active));
    assert r.Keys == w.Keys;
  }

  /** A patch whose order is `undefined` leaves the stored order as it
      was. */
  lemma MergeRowKeep(x: Filter, name: string, active: bool)
    ensures Apply(Row(x), map["name" := Str(name), "display_order" := Undefined, "is_active" := Bool(active)])
            == Row(x.(name := name, isActive := active))
  {
    var p := map["name" := Str(name), "display_order" := Undefined, "is_active" := Bool(active)];
    var r, w := Apply(Row(x), p), Row(x.(name := name, isActive := active));
    assert r.Keys == w.Keys;
  }

  /** The body of a move's `PUT` once its id is taken out. */
  lemma MoveRest(f: Filter, order: int)
    ensures MoveBody(f, order) - {"id"}
            == map["name" := Str(f.name), "displayOrder" := Num(order), "isActive" := Bool(f.isActive)]
  {
  }

  /** The stored filter after the same `PUT` through the route as written:
      an order of 0 is not written, so the row keeps its old one. */
  function WriteAsWritten(x: Filter, f: Filter, order: int): (r: Filter)
    ensures r.id == x.id
    ensures order != 0 ==> r == Write(x, f, order)
    ensures order == 0 ==> r.displayOrder == x.displayOrder
  {
    x.(name := f.name, displayOrder := if order != 0 then order else x.displayOrder, isActive := f.isActive)
  }

  /** `WriteAsWritten` is what the `PUT` as written does to the row. */
  lemma {:induction false} WriteAsWrittenMatchesRoute(x: Filter, f: Filter, order: int)
    ensures Apply(Row(x), FiltersRoute.FilterUpdateAsWritten(MoveBody(f, order) - {"id"}))
            == Row(WriteAsWritten(x, f, order))
  {
    MovePatchAsWritten(f, order);
    if order != 0 {
      MergeRow(x, f.name, order, f.isActive);
    } else {
      MergeRowKeep(x, f.name, f.isActive);
    }
  }

  /** The columns a move's `PUT` writes through the route as written: a
      new order of 0 reads as `undefined`. */
  lemma MovePatchAsWritten(f: Filter, order: int)
    ensures FiltersRoute.FilterUpdateAsWritten(MoveBody(f, order) - {"id"})
            == map["name" := Str(f.name), "display_order" := (if order != 0 then Num(order) else Undefined),
                   "is_active" := Bool(f.isActive)]
  {
    MoveRest(f, order);
  }

  /** `findIndex` by id: the first position holding that id, or -1. */
  function IndexOfId(fs: seq<Filter>, id: string): (r: int)
    ensures -1 <= r < |fs|
    ensures r >= 0 ==> fs[r].id == id && forall k :: 0 <= k < r ==> fs[k].id != id
    ensures r == -1 ==> forall k :: 0 <= k < |fs| ==> fs[k].id != id
  {
    if |fs| == 0 then -1
    else if fs[0].id == id then 0
    else var i := IndexOfId(fs[1..], id); if i == -1 then -1 else i + 1
  }

  /** The position a move of `filter` exchanges with, when there is one: the
      filter must be listed and the neighbour in that direction must
      exist. */
  function Partner(fs: seq<Filter>, filter: Filter, d: Direction): (r: int)
    ensures -1 <= r < |fs|
    ensures r >= 0 ==> IndexOfId(fs, filter.id) >= 0 && r == Step(IndexOfId(fs, filter.id), d)
    ensures r == -1 ==> IndexOfId(fs, filter.id) == -1 || !(0 <= Step(IndexOfId(fs, filter.id), d) < |fs|)
  {
    var i := IndexOfId(fs, filter.id);
    if i == -1 then -1
    else var n := Step(i, d); if 0 <= n < |fs| then n else -1
  }

  /** The list after the first `PUT` of a move, which gives the moved
      filter the neighbour's order. */
  function FirstWrite(fs: seq<Filter>, filter: Filter, d: Direction): (r: seq<Filter>)
    ensures |r| == |fs|
  {
    var n := Partner(fs, filter, d);
    if n == -1 then fs
    else var i := IndexOfId(fs, filter.id); fs[i := Write(fs[i], filter, fs[n].displayOrder)]
  }

  /** `handleMoveOrder` with the intended route: no change when the filter
      is not listed or has no neighbour that way; otherwise the second `PUT`
      gives the neighbour the order the moved filter carried. */
  function Moved(fs: seq<Filter>, filter: Filter, d: Direction): (r: seq<Filter>)
    ensures |r| == |fs|
    ensures Partner(fs, filter, d) == -1 ==> r == fs
  {
    var n := Partner(fs, filter, d);
    if n == -1 then fs
    else var first := FirstWrite(fs, filter, d); first[n := Write(first[n], fs[n], filter.displayOrder)]
  }

  /** `handleMoveOrder` on a list of rows: find the filter, pick its
      neighbour, then issue both writes. The statuses of the writes are not
      looked at, so both are always issued. */
  method MoveOrder(filters: array<Filter>, filter: Filter, d: Direction)
    modifies filters
    ensures filters[..] == Moved(old(filters[..]), filter, d)
  {
    var current := 0;
    while current < filters.Length && filters[current].id != filter.id
      invariant 0 <= current <= filters.Length
      invariant forall k :: 0 <= k < current ==> filters[k].id != filter.id
    {
      current := current + 1;
    }
    ghost var before := filters[..];
    if current == filters.Length {
      assert IndexOfId(before, filter.id) == -1;
      return;
    }
    assert IndexOfId(before, filter.id) == current;
    var next := Step(current, d);
    if next < 0 || next >= filters.Length {
      return;
    }
    var target := filters[next];
    var tempOrder := filter.displayOrder;
    var newOrder := target.displayOrder;
    filters[current] := Write(filters[current], filter, newOrder);
    assert filters[..] == FirstWrite(before, filter, d);
    filters[next] := Write(filters[next], target, tempOrder);
  }

  /** Between the two writes both filters carry the neighbour's order: the
      list is in a state with a repeated order until the second write
      lands. */
  lemma {:induction false} FirstWriteTies(fs: seq<Filter>, filter: Filter, d: Direction)
    requires Partner(fs, filter, d) >= 0
    ensures var r := FirstWrite(fs, filter, d);
      r[IndexOfId(fs, filter.id)].displayOrder == r[Partner(fs, filter, d)].displayOrder
  {
  }

  /** A move of a listed filter, as displayed, exchanges its order with its
      neighbour's and leaves every other filter, and every name and flag,
      as it was; the orders are a permutation of the old ones. */
  lemma {:induction false} MoveSwaps(fs: seq<Filter>, filter: Filter, d: Direction)
    requires Partner(fs, filter, d) >= 0 && filter == fs[IndexOfId(fs, filter.id)]
    ensures var r := Moved(fs, filter, d);
      var i := IndexOfId(fs, filter.id);
      var n := Partner(fs, filter, d);
      && r[i] == fs[i].(displayOrder := fs[n].displayOrder)
      && r[n] == fs[n].(displayOrder := fs[i].displayOrder)
      && (forall k :: 0 <= k < |fs| && k != i && k != n ==> r[k] == fs[k])
      && multiset(Orders(r)) == multiset(Orders(fs))
  {
    var r := Moved(fs, filter, d);
    var i := IndexOfId(fs, filter.id);
    var n := Partner(fs, filter, d);
    var o := Orders(fs);
    assert Orders(r) == o[i := o[n]][n := o[i]];
    SwapKeepsMultiset(o, i, n);
  }

  /** The display orders of a list, in list order. */
  function Orders(fs: seq<Filter>): (r: seq<int>)
    ensures |r| == |fs| && forall k :: 0 <= k < |fs| ==> r[k] == fs[k].displayOrder
  {
    seq(|fs|, k requires 0 <= k < |fs| => fs[k].displayOrder)
  }

  /** `handleMoveOrder` through the route as written. */
  function MovedAsWritten(fs: seq<Filter>, filter: Filter, d: Direction): (r: seq<Filter>)
    ensures |r| == |fs|
    ensures filter.displayOrder != 0 && (Partner(fs, filter, d) >= 0 ==> fs[Partner(fs, filter, d)].displayOrder != 0)
            ==> r == Moved(fs, filter, d)
  {
    var n := Partner(fs, filter, d);
    if n == -1 then fs
    else
      var i := IndexOfId(fs, filter.id);
      var first := fs[i := WriteAsWritten(fs[i], filter, fs[n].displayOrder)];
      first[n := WriteAsWritten(first[n], fs[n], filter.displayOrder)]
  }

  /** With the route as written, moving a filter up onto the one holding
      order 0 leaves both at the moved filter's old order: the first write
      of 0 is lost, the second lands. */
  lemma MoveOntoZeroAsWritten()
    ensures var a := Filter("a", "Web", 0, true);
      var b := Filter("b", "Mobile", 1, true);
      && MovedAsWritten([a, b], b, Up) == [a.(displayOrder := 1), b]
      && Moved([a, b], b, Up) == [a.(displayOrder := 1), b.(displayOrder := 0)]
  {
    var a := Filter("a", "Web", 0, true);
    var b := Filter("b", "Mobile", 1, true);
    assert IndexOfId([a, b], "b") == 1;
  }

  /** The order the form offers a new filter: the number of filters. When
      the orders are 0 up to one less than that, it clashes with none. */
  function NewFilterOrder(fs: seq<Filter>): (r: int)
    ensures r >= 0
    ensures (forall k :: 0 <= k < |fs| ==> 0 <= fs[k].displayOrder < |fs|) ==>
      forall k :: 0 <= k < |fs| ==> fs[k].displayOrder != r
  {
    |fs|
  }

  /** `handleEdit`: the form is filled from the filter. */
  datatype Form = Form(name: string, displayOrder: int, isActive: bool)

  function EditForm(f: Filter): (r: Form)
    ensures r.name == f.name && r.displayOrder == f.displayOrder && r.isActive == f.isActive
  {
    Form(f.name, f.displayOrder, f.isActive)
  }
}
