/** The admin dashboard's component state and its handlers. Every remote call
    (the listing fetch, the status patch, the delete) is reduced to its
    outcome, which the handler receives as a parameter; the delete
    confirmation dialog is reduced to the operator's answer. */
module Dashboard {
  import opened Orders

  /** The alert a handler raises, if any. */
  datatype Notice = Silent | Alert(message: string)

  const DeletedMessage: string := "Order deleted successfully!"
  const DeleteFailedMessage: string := "Something went wrong while deleting."
  const StatusFailedMessage: string := "Something went wrong while updating the status."

  function StatusUpdatedMessage(status: string): (message: string)
  {
    "Status updated to " + status
  }

  class AdminDashboard {
    var orders: seq<Order>
    var selectedOrderId: Option<string>
    var filter: string
    var showModal: bool
    var isMenuOpen: bool

    /** The ids the order store returned on the last successful fetch. */
    ghost var fetchedIds: set<string>

    /** The mirror holds no order the store did not list when it was fetched. */
    ghost predicate Valid()
      reads this
    {
      forall o :: o in orders ==> o.id in fetchedIds
    }

    constructor ()
      ensures Valid()
      ensures orders == [] && selectedOrderId == None && filter == AllFilter
      ensures !showModal && !isMenuOpen
    {
      orders := [];
      selectedOrderId := None;
      filter := AllFilter;
      showModal := false;
      isMenuOpen := false;
      fetchedIds := {};
    }

    /** The list the page renders; reading it changes no state. */
    function VisibleOrders(): (r: seq<Order>)
      reads this
      ensures filter == AllFilter ==> r == orders
      ensures filter != AllFilter ==> forall o :: o in r <==> o in orders && o.status == Some(filter)
    {
      FilteredOrders(orders, filter)
    }

    /** The modal is open and an id is selected; an empty id hides the modal too. */
    predicate ModalVisible()
      reads this
    {
      showModal && Truthy(selectedOrderId)
    }

    /** The orders the detail modal shows. */
    function DetailOrders(): (r: seq<Order>)
      reads this
      ensures !ModalVisible() ==> r == []
      ensures ModalVisible() ==> forall o :: o in r <==> o in orders && Some(o.id) == selectedOrderId
      ensures ModalVisible() && !HasId(orders, selectedOrderId.value) ==> r == []
    {
      if ModalVisible() then OrdersWithId(orders, selectedOrderId.value) else []
    }

    /** A filter button. */
    method SetFilter(status: string)
      modifies this
      ensures filter == status
      ensures orders == old(orders) && selectedOrderId == old(selectedOrderId)
      ensures showModal == old(showModal) && isMenuOpen == old(isMenuOpen)
      ensures fetchedIds == old(fetchedIds)
    {
      filter := status;
    }

    /** The callbacks of the listing fetch: `fetched` is the result set, or
        `None` when the fetch failed. */
    method Load(fetched: Option<seq<Order>>)
      requires Valid()
      modifies this
      ensures Valid()
      ensures orders == if fetched.Some? then fetched.value else old(orders)
      ensures fetchedIds == if fetched.Some? then (set o | o in fetched.value :: o.id) else old(fetchedIds)
      ensures selectedOrderId == old(selectedOrderId) && filter == old(filter)
      ensures showModal == old(showModal) && isMenuOpen == old(isMenuOpen)
    {
      if fetched.Some? {
        orders := fetched.value;
        fetchedIds := set o | o in fetched.value :: o.id;
      }
    }

    /** `confirmed` is the operator's answer to the confirmation dialog and
        `deleted` whether the store acknowledged the delete. */
    method HandleDelete(orderId: string, confirmed: bool, deleted: bool) returns (notice: Notice)
      requires Valid()
      modifies this
      ensures Valid()
      ensures orders == if confirmed && deleted then RemoveById(old(orders), orderId) else old(orders)
      ensures notice == if !confirmed then Silent
                        else if deleted then Alert(DeletedMessage)
                        else Alert(DeleteFailedMessage)
      ensures confirmed && deleted ==> !HasId(orders, orderId)
      ensures UniqueIds(old(orders)) ==> UniqueIds(orders)
      ensures UniqueIds(old(orders)) && confirmed && deleted ==>
                |orders| == if HasId(old(orders), orderId) then |old(orders)| - 1 else |old(orders)|
      ensures selectedOrderId == old(selectedOrderId) && filter == old(filter)
      ensures showModal == old(showModal) && isMenuOpen == old(isMenuOpen)
      ensures fetchedIds == old(fetchedIds)
    {
      if !confirmed {
        return Silent;
      }
      if deleted {
        if UniqueIds(orders) {
          RemoveByIdKeepsUniqueIds(orders, orderId);
          RemoveByIdLength(orders, orderId);
        }
        orders := RemoveById(orders, orderId);
        notice := Alert(DeletedMessage);
      } else {
        notice := Alert(DeleteFailedMessage);
      }
    }

    /** `patched` is whether the store acknowledged the status patch. */
    method HandleStatusChange(orderId: string, newStatus: string, patched: bool) returns (notice: Notice)
      requires Valid()
      modifies this
      ensures Valid()
      ensures orders == if patched then SetStatus(old(orders), orderId, newStatus) else old(orders)
      ensures notice == if patched then Alert(StatusUpdatedMessage(newStatus))
                        else Alert(StatusFailedMessage)
      ensures UniqueIds(orders) <==> UniqueIds(old(orders))
      ensures selectedOrderId == old(selectedOrderId) && filter == old(filter)
      ensures showModal == old(showModal) && isMenuOpen == old(isMenuOpen)
      ensures fetchedIds == old(fetchedIds)
    {
      if patched {
        SetStatusKeepsUniqueIds(orders, orderId, newStatus);
        orders := SetStatus(orders, orderId, newStatus);
        notice := Alert(StatusUpdatedMessage(newStatus));
      } else {
        notice := Alert(StatusFailedMessage);
      }
    }

    method HandleShowDetails(orderId: string)
      modifies this
      ensures selectedOrderId == Some(orderId) && showModal
      ensures orderId != "" ==> DetailOrders() == OrdersWithId(orders, orderId)
      ensures orders == old(orders) && filter == old(filter) && isMenuOpen == old(isMenuOpen)
      ensures fetchedIds == old(fetchedIds)
    {
      selectedOrderId := Some(orderId);
      showModal := true;
    }

    method HandleCloseModal()
      modifies this
      ensures !showModal && selectedOrderId == None
      ensures !ModalVisible() && DetailOrders() == []
      ensures orders == old(orders) && filter == old(filter) && isMenuOpen == old(isMenuOpen)
      ensures fetchedIds == old(fetchedIds)
    {
      showModal := false;
      selectedOrderId := None;
    }

    method ToggleMenu()
      modifies this
      ensures isMenuOpen == !old(isMenuOpen)
      ensures orders == old(orders) && selectedOrderId == old(selectedOrderId)
      ensures filter == old(filter) && showModal == old(showModal)
      ensures fetchedIds == old(fetchedIds)
    {
      isMenuOpen := !isMenuOpen;
    }
  }

  /** An example operator session: two orders are loaded, the "dispatch"
      bucket is shown, one order is re-labelled and the other deleted. */
  method Walkthrough(one: Order, two: Order)
    requires one.id == "1" && one.status == Some("pending")
    requires two.id == "2" && two.status == Some("dispatch")
  {
    var page := new AdminDashboard();
    page.Load(Some([one, two]));

    ExampleFilter(one, two);
    page.SetFilter("dispatch");
    assert page.VisibleOrders() == [two];

    var notice := page.HandleStatusChange("1", "success", true);
    assert notice == Alert(StatusUpdatedMessage("success"));
    ExampleStatusChange(one, two);
    notice := page.HandleDelete("2", true, true);
    ExampleDelete(one.(status := Some("success")), two);
    assert page.orders == [one.(status := Some("success"))];

    page.HandleShowDetails("1");
    assert page.DetailOrders() == page.orders;
  }

  /** A declined delete, a failed delete, a failed status change and a
      failed fetch all leave the list as it was. */
  method FailuresChangeNothing(page: AdminDashboard, id: string, status: string)
    requires page.Valid()
    modifies page
  {
    var before := page.orders;
    var notice := page.HandleDelete(id, false, true);
    assert notice == Silent && page.orders == before;
    notice := page.HandleDelete(id, true, false);
    assert notice == Alert(DeleteFailedMessage) && page.orders == before;
    notice := page.HandleStatusChange(id, status, false);
    assert notice == Alert(StatusFailedMessage) && page.orders == before;
    page.Load(None);
    assert page.orders == before;
  }

  /** Closing the modal hides every detail; toggling the menu twice restores it. */
  method ModalAndMenu(page: AdminDashboard, id: string)
    modifies page
  {
    page.HandleShowDetails(id);
    assert id != "" ==> page.ModalVisible();
    page.HandleCloseModal();
    assert page.DetailOrders() == [];

    var wasOpen := page.isMenuOpen;
    page.ToggleMenu();
    page.ToggleMenu();
    assert page.isMenuOpen == wasOpen;
  }
}
