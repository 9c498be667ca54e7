/** The orders the admin dashboard lists, and the pure list transforms it
    applies to them: the status filter, removal by id, the status update,
    the lookup of one order's details, and the fallbacks used when an item's
    name or picture is missing. */
module Orders {
  import opened Lists

  datatype Option<T> = None | Some(value: T)

  /** A product referenced by an order, as the listing query resolves it.
      A field the product document lacks comes back as `None`. */
  datatype Item = Item(name: Option<string>, imageUrl: Option<string>)

  /** One order document. Only `id` and `status` take part in any decision;
      the other fields are carried along and displayed. `items` is `None`
      when the document has no item array, and an entry of it is `None` when
      its reference does not resolve. */
  datatype Order = Order(
    id: string,
    name: string,
    email: string,
    address: string,
    phone: int,
    paymentMethod: string,
    total: string,
    orderDate: string,
    status: Option<string>,
    items: Option<seq<Option<Item>>>)

  /** The filter value that shows every order. */
  const AllFilter: string := "All"

  /** The values the filter buttons offer. */
  const FilterChoices: seq<string> := ["All", "pending", "dispatch", "success"]

  const UnknownProduct: string := "Unknown Product"
  const NoImageAvailable: string := "No Image Available"
  const ProductImage: string := "Product Image"

  /** JavaScript truthiness of a string that may be missing: present and non-empty. */
  predicate Truthy(s: Option<string>)
  {
    s.Some? && s.value != ""
  }

  // ---------------------------------------------------------------------
  // Identity

  function IdIs(id: string): (p: Order -> bool)
  {
    (o: Order) => o.id == id
  }

  function IdIsNot(id: string): (p: Order -> bool)
  {
    (o: Order) => o.id != id
  }

  predicate HasId(orders: seq<Order>, id: string)
  {
    exists i :: 0 <= i < |orders| && orders[i].id == id
  }

  /** No two entries share an id, as the order store guarantees. */
  predicate UniqueIds(orders: seq<Order>)
  {
    forall i, j :: 0 <= i < j < |orders| ==> orders[i].id != orders[j].id
  }

  // ---------------------------------------------------------------------
  // The status filter

  /** The order's status is present and equal to `filter`; a missing status
      equals no filter value. */
  function StatusIs(filter: string): (p: Order -> bool)
  {
    (o: Order) => o.status == Some(filter)
  }

  /** The orders listed under `filter`. */
  function FilteredOrders(orders: seq<Order>, filter: string): (r: seq<Order>)
    ensures filter == AllFilter ==> r == orders
    ensures filter != AllFilter ==> forall o :: o in r <==> o in orders && o.status == Some(filter)
  {
    if filter == AllFilter then orders
    else
      FilterMembers(orders, StatusIs(filter));
      Filter(orders, StatusIs(filter))
  }

  /** Under a filter other than "All" the listed orders keep their relative
      order, and a position of the list is shown exactly when its status
      equals the filter. */
  lemma FilteredOrdersInOrder(orders: seq<Order>, filter: string)
    requires filter != AllFilter
    ensures SelectsExactly(FilteredOrders(orders, filter), orders, StatusIs(filter))
  {
    FilterSelectsExactly(orders, StatusIs(filter));
  }

  /** An order whose status is missing or is none of the button values is
      listed only under "All"; in particular the CMS schema's own values
      ("confirmed", "delivered", "cancelled") fall out of every other bucket. */
  lemma OffVocabularyOnlyUnderAll(orders: seq<Order>, o: Order)
    requires o in orders
    requires o.status.None? || o.status.value !in FilterChoices
    ensures o in FilteredOrders(orders, AllFilter)
    ensures forall f :: f in FilterChoices && f != AllFilter ==> o !in FilteredOrders(orders, f)
  {
  }

  /** An order is listed under at most one filter besides "All". */
  lemma AtMostOneBucket(orders: seq<Order>, o: Order, f: string, g: string)
    requires f != AllFilter && g != AllFilter && f != g
    ensures !(o in FilteredOrders(orders, f) && o in FilteredOrders(orders, g))
  {
  }

  // ---------------------------------------------------------------------
  // Delete

  /** The list after the store acknowledged deleting `id`. */
  function RemoveById(orders: seq<Order>, id: string): (r: seq<Order>)
    ensures forall o :: o in r <==> o in orders && o.id != id
  {
    FilterMembers(orders, IdIsNot(id));
    Filter(orders, IdIsNot(id))
  }

  /** Every entry with another id survives a delete, in the same relative order. */
  lemma RemoveByIdInOrder(orders: seq<Order>, id: string)
    ensures SelectsExactly(RemoveById(orders, id), orders, IdIsNot(id))
  {
    FilterSelectsExactly(orders, IdIsNot(id));
  }

  /** Deleting an id that is not listed leaves the list as it was. */
  lemma RemoveAbsentId(orders: seq<Order>, id: string)
    requires !HasId(orders, id)
    ensures RemoveById(orders, id) == orders
  {
    FilterKeepsAll(orders, IdIsNot(id));
  }

  /** With unique ids, a delete removes exactly one entry when the id is
      listed and none otherwise. */
  lemma RemoveByIdLength(orders: seq<Order>, id: string)
    requires UniqueIds(orders)
    ensures |RemoveById(orders, id)| == if HasId(orders, id) then |orders| - 1 else |orders|
  {
    KeepIdIsNotLength(orders, id);
  }

  lemma {:induction false} KeepIdIsNotLength(orders: seq<Order>, id: string)
    requires UniqueIds(orders)
    ensures |Filter(orders, IdIsNot(id))| == if HasId(orders, id) then |orders| - 1 else |orders|
  {
    if orders != [] {
      var n := |orders|;
      var init, last := orders[..n - 1], orders[n - 1];
      assert UniqueIds(init);
      KeepIdIsNotLength(init, id);
      if last.id == id {
        forall i | 0 <= i < |init| ensures IdIsNot(id)(init[i]) {
          assert init[i] == orders[i];
        }
        FilterKeepsAll(init, IdIsNot(id));
        assert orders[n - 1].id == id;
      } else {
        forall i | 0 <= i < |init| ensures init[i] == orders[i] { }
      }
    }
  }

  lemma RemoveByIdKeepsUniqueIds(orders: seq<Order>, id: string)
    requires UniqueIds(orders)
    ensures UniqueIds(RemoveById(orders, id))
  {
    FilterAtPositions(orders, IdIsNot(id));
  }

  // ---------------------------------------------------------------------
  // Status change

  /** An order with id `id` gets `status`; any other order is left as it is. */
  function WithStatus(id: string, status: string): (f: Order -> Order)
  {
    (o: Order) => if o.id == id then o.(status := Some(status)) else o
  }

  /** The list after the store acknowledged setting the status of `id`. */
  function SetStatus(orders: seq<Order>, id: string, status: string): (r: seq<Order>)
    ensures |r| == |orders|
    ensures forall i :: 0 <= i < |r| ==> r[i].(status := orders[i].status) == orders[i]
    ensures forall i :: 0 <= i < |r| && orders[i].id == id ==> r[i].status == Some(status)
    ensures forall i :: 0 <= i < |r| && orders[i].id != id ==> r[i] == orders[i]
  {
    Map(orders, WithStatus(id, status))
  }

  lemma SetStatusKeepsUniqueIds(orders: seq<Order>, id: string, status: string)
    ensures UniqueIds(SetStatus(orders, id, status)) <==> UniqueIds(orders)
  {
  }

  /** Setting the status of an id that is not listed changes nothing. */
  lemma SetStatusAbsentId(orders: seq<Order>, id: string, status: string)
    requires !HasId(orders, id)
    ensures SetStatus(orders, id, status) == orders
  {
    var r := SetStatus(orders, id, status);
    forall i | 0 <= i < |orders| ensures r[i] == orders[i] {
      assert orders[i].id != id;
    }
  }

  /** Of two acknowledged status changes of one order the later one wins. */
  lemma SetStatusLastWins(orders: seq<Order>, id: string, first: string, second: string)
    ensures SetStatus(SetStatus(orders, id, first), id, second) == SetStatus(orders, id, second)
  {
  }

  /** Status changes of different orders are independent of each other's order. */
  lemma SetStatusCommutes(orders: seq<Order>, x: string, a: string, y: string, b: string)
    requires x != y
    ensures SetStatus(SetStatus(orders, x, a), y, b) == SetStatus(SetStatus(orders, y, b), x, a)
  {
  }

  /** After a status change the order is listed under its new status and
      under no other filter but "All". */
  lemma SetStatusMovesBucket(orders: seq<Order>, id: string, status: string, i: int, f: string)
    requires 0 <= i < |orders| && orders[i].id == id
    requires f != AllFilter && f != status
    ensures SetStatus(orders, id, status)[i] in FilteredOrders(SetStatus(orders, id, status), status)
    ensures SetStatus(orders, id, status)[i] !in FilteredOrders(SetStatus(orders, id, status), f)
  {
  }

  /** A status change and a delete commute, whichever acknowledgement lands
      first, for every pair of ids. */
  lemma {:induction false} StatusChangeCommutesWithDelete(orders: seq<Order>, x: string, status: string, y: string)
    ensures RemoveById(SetStatus(orders, x, status), y) == SetStatus(RemoveById(orders, y), x, status)
  {
    FilterMapCommute(orders, WithStatus(x, status), IdIsNot(y));
  }

  /** A status change racing a delete of the same order always ends with the
      order gone and the rest of the list as the delete alone leaves it. */
  lemma {:induction false} DeleteAbsorbsStatusChange(orders: seq<Order>, id: string, status: string)
    ensures RemoveById(SetStatus(orders, id, status), id) == RemoveById(orders, id)
    ensures SetStatus(RemoveById(orders, id), id, status) == RemoveById(orders, id)
  {
    StatusChangeCommutesWithDelete(orders, id, status, id);
    SetStatusAbsentId(RemoveById(orders, id), id, status);
  }

  // ---------------------------------------------------------------------
  // Detail lookup

  /** The orders the detail view shows for the selected `id`. */
  function OrdersWithId(orders: seq<Order>, id: string): (r: seq<Order>)
    ensures forall o :: o in r <==> o in orders && o.id == id
    ensures !HasId(orders, id) ==> r == []
  {
    FilterMembers(orders, IdIs(id));
    var r := Filter(orders, IdIs(id));
    assert r != [] ==> r[0] in r;
    r
  }

  /** The detail list keeps the orders with the id in their list order. */
  lemma OrdersWithIdInOrder(orders: seq<Order>, id: string)
    ensures SelectsExactly(OrdersWithId(orders, id), orders, IdIs(id))
  {
    FilterSelectsExactly(orders, IdIs(id));
  }

  /** With unique ids the detail view shows the one order with that id. */
  lemma OrdersWithIdUnique(orders: seq<Order>, o: Order)
    requires UniqueIds(orders)
    requires o in orders
    ensures OrdersWithId(orders, o.id) == [o]
  {
    FilterComplementLength(orders, IdIs(o.id), IdIsNot(o.id));
    RemoveByIdLength(orders, o.id);
    var r := OrdersWithId(orders, o.id);
    assert o in r;
  }

  // ---------------------------------------------------------------------
  // Item display

  /** What an item line shows in place of a picture. */
  datatype Picture = Image(src: string, alt: string) | Placeholder(text: string)

  datatype ItemLine = ItemLine(title: string, picture: Picture)

  /** The item's name when the item exists and its name is non-empty,
      otherwise the fallback label "Unknown Product". */
  function ItemLabel(item: Option<Item>): (r: string)
    ensures r != ""
    ensures item.Some? && Truthy(item.value.name) ==> r == item.value.name.value
    ensures !(item.Some? && Truthy(item.value.name)) ==> r == UnknownProduct
  {
    if item.Some? && Truthy(item.value.name) then item.value.name.value else UnknownProduct
  }

  /** The image of an item, or the "No Image Available" placeholder when the
      item or its image URL is missing. The alternative text falls back to
      "Product Image" when the name is missing. */
  function ItemPicture(item: Option<Item>): (r: Picture)
    ensures r.Image? <==> item.Some? && Truthy(item.value.imageUrl)
    ensures r.Image? ==> r.src == item.value.imageUrl.value && r.src != ""
    ensures r.Image? ==> r.alt != "" && (Truthy(item.value.name) ==> r.alt == item.value.name.value)
    ensures r.Image? && !Truthy(item.value.name) ==> r.alt == ProductImage
    ensures r.Placeholder? ==> r.text == NoImageAvailable
  {
    if item.Some? && Truthy(item.value.imageUrl) then
      Image(item.value.imageUrl.value,
            if Truthy(item.value.name) then item.value.name.value else ProductImage)
    else Placeholder(NoImageAvailable)
  }

  /** The item list of the detail view: line `k` shows item `k`. An order
      without an item array has no list at all (`None`): mapping over its
      missing items throws during the render, and the whole dashboard is
      replaced by the error screen. */
  function ItemLines(o: Order): (r: Option<seq<ItemLine>>)
    ensures r.None? <==> o.items.None?
    ensures r.Some? ==> |r.value| == |o.items.value|
    ensures r.Some? ==> forall k :: 0 <= k < |r.value| ==>
              r.value[k] == ItemLine(ItemLabel(o.items.value[k]), ItemPicture(o.items.value[k]))
    ensures r.Some? ==> forall k :: 0 <= k < |r.value| ==>
              r.value[k].title != "" && (r.value[k].picture.Image? || r.value[k].picture.text == NoImageAvailable)
  {
    if o.items.None? then None
    else Some(Map(o.items.value, (item: Option<Item>) => ItemLine(ItemLabel(item), ItemPicture(item))))
  }

  // ---------------------------------------------------------------------
  // An example session

  // Two orders: "1" is pending and "2" is dispatched; "1" is then marked
  // "success" and "2" is deleted.

  /** The "dispatch" bucket holds only order "2". */
  lemma ExampleFilter(one: Order, two: Order)
    requires one.id == "1" && one.status == Some("pending")
    requires two.id == "2" && two.status == Some("dispatch")
    ensures FilteredOrders([one, two], "dispatch") == [two]
  {
    assert "dispatch" != AllFilter && "pending" != "dispatch";
    assert [one][..0] == [] && [one, two][..1] == [one];
    assert Filter([one], StatusIs("dispatch")) == [];
  }

  /** Marking "1" as "success" re-labels it and leaves "2" as it was. */
  lemma ExampleStatusChange(one: Order, two: Order)
    requires one.id == "1" && two.id == "2"
    ensures SetStatus([one, two], "1", "success") == [one.(status := Some("success")), two]
  {
    assert "1" != "2";
  }

  /** Deleting "2" leaves "1" alone, which is then what the detail view of "1" shows. */
  lemma ExampleDelete(one: Order, two: Order)
    requires one.id == "1" && two.id == "2"
    ensures RemoveById([one, two], "2") == [one]
    ensures OrdersWithId([one], "1") == [one]
  {
    assert "1" != "2";
    assert [one][..0] == [] && [one, two][..1] == [one];
    assert Filter([one], IdIsNot("2")) == [one];
  }
}
