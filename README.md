# Order list view-model of the admin dashboard

This project models the order list behind the admin dashboard of a small
food-ordering shop (`src/app/admin/dashboard/page.tsx`). The page keeps five
pieces of component state: the mirrored `orders`, the `selectedOrderId`, the
status `filter`, and the `showModal` and `isMenuOpen` flags. It derives the
list it renders from `orders` and `filter`. Its handlers forward deletes and
status changes to the order store and reconcile the local list only after the
store acknowledges them.

Layout:

- `lists.dfy`, module `Lists`: `Filter` and `Map`, the JavaScript array
  `filter` and `map` the page uses. `SelectsExactly(r, s, p)` is the reference
  characterisation of a filter: `r` is the subsequence of `s` at ascending
  positions, and a position is picked exactly when its element satisfies `p`.
- `orders.dfy`, module `Orders`: the `Order` and `Item` records and the pure
  list transforms. These are the status filter, removal by id, status update,
  detail lookup and item display fallbacks, with their lemmas.
- `dashboard.dfy`, module `Dashboard`: the class `AdminDashboard`. Its fields
  are the component state and its methods are the handlers. Each handler
  receives the remote outcome as a parameter. A client method, `Walkthrough`,
  plays an example session: two orders are loaded, filtered on "dispatch",
  one is re-labelled "success" and the other deleted. `FailuresChangeNothing`
  shows that a declined or failed write and a failed fetch leave the list as
  it was. `ModalAndMenu` closes the modal and toggles the menu twice, which
  restores the old value.

Modelling choices:

- `status` is `Option<string>`, an arbitrary string. The dashboard offers
  "pending", "dispatch" and "success". The store's schema lists "pending",
  "confirmed", "delivered" and "cancelled". The model does not pick one set.
  `OffVocabularyOnlyUnderAll` states what the page does with a value outside
  its buttons: such an order is listed only under "All".
- JavaScript truthiness is written out (`Truthy`): a string counts as present
  only when it is there and non-empty. This holds for an item's name and image
  URL (`item && item.name`, `item && item.imageUrl`) and for the selected id in
  `showModal && selectedOrderId`. So selecting the empty id does not open the
  modal.
- `items` is `Option<seq<Option<Item>>>`. The schema does not require the
  field, and the listing query returns `null` for a document without it; an
  entry is `None` when its reference does not resolve. `ItemLines` is `None`
  for an order without items, because `order.items.map` throws there: the
  render fails and the whole dashboard is replaced by the error screen.
- Filtering is a pure function: `VisibleOrders` only `reads this`. So
  computing the view cannot change any state, and computing it twice on the
  same state gives the same sequence.
- The ghost field `fetchedIds`, with `Valid()`, states that the mirror holds
  no order whose id the store did not return on the last successful fetch.
  Every handler keeps this invariant.

Two consequences of the code that are easy to state wrongly:

- A successful delete removes every entry with that id. The list shrinks by
  exactly one only when the ids are unique and the id is listed; when the id
  is absent nothing changes (`RemoveByIdLength`, `RemoveAbsentId`).
- A status change racing a delete of the same order does not leave "whichever
  lands last". Both handlers update through functional updaters on the latest
  list, so the two acknowledgements give the same list in either order: the
  order is gone and nothing else changes (`StatusChangeCommutesWithDelete`,
  `DeleteAbsorbsStatusChange`).

## Model

| member | source | states |
|---|---|---|
| `Lists.FilterMembers` | src/app/admin/dashboard/page.tsx:58 | an element is kept by a filter exactly when it is in the input and satisfies the predicate |
| `Lists.FilterSelectsExactly` | src/app/admin/dashboard/page.tsx:58 | a filter keeps exactly the satisfying positions, in their original relative order |
| `Lists.FilterMapCommute` | src/app/admin/dashboard/page.tsx:65-83 | a `map` that leaves the filter's test unchanged commutes with the `filter` |
| `Orders.FilteredOrders` | src/app/admin/dashboard/page.tsx:57-58 | "All" gives the whole list unchanged; under any other value an order is listed exactly when it is in the list and its status equals the value, so a missing status is never in such a bucket |
| `Orders.FilteredOrdersInOrder` | src/app/admin/dashboard/page.tsx:58 | under a filter other than "All" the listed orders are exactly the positions whose status equals the filter, in their original relative order |
| `Orders.OffVocabularyOnlyUnderAll` | src/app/admin/dashboard/page.tsx:58 | an order with no status, or a status none of the buttons offers, is listed under "All" and under no other button |
| `Orders.AtMostOneBucket` | src/app/admin/dashboard/page.tsx:58 | no order is listed under two different filters besides "All" |
| `Orders.RemoveById` | src/app/admin/dashboard/page.tsx:65 | after a delete an order remains exactly when it was listed and has another id, so no entry with the deleted id remains |
| `Orders.RemoveByIdInOrder` | src/app/admin/dashboard/page.tsx:65 | every entry with another id survives a delete, in the same relative order |
| `Orders.RemoveAbsentId` | src/app/admin/dashboard/page.tsx:65 | deleting an id that is not listed leaves the list unchanged |
| `Orders.RemoveByIdLength` | src/app/admin/dashboard/page.tsx:64-65 | with unique ids a delete shrinks the list by one when the id is listed and by nothing otherwise |
| `Orders.RemoveByIdKeepsUniqueIds` | src/app/admin/dashboard/page.tsx:65 | a delete keeps the ids unique |
| `Orders.SetStatus` | src/app/admin/dashboard/page.tsx:80-84 | length and positions are kept; every entry with the id gets the new status and keeps all other fields; entries with other ids are untouched |
| `Orders.SetStatusKeepsUniqueIds` | src/app/admin/dashboard/page.tsx:81-83 | a status change leaves the ids unique exactly when they were unique before |
| `Orders.SetStatusAbsentId` | src/app/admin/dashboard/page.tsx:81-83 | a status change of an id that is not listed leaves the list unchanged |
| `Orders.SetStatusLastWins` | src/app/admin/dashboard/page.tsx:73-84 | two status changes of one order leave the later status |
| `Orders.SetStatusCommutes` | src/app/admin/dashboard/page.tsx:73-84 | status changes of two different orders give the same list in either order |
| `Orders.SetStatusMovesBucket` | src/app/admin/dashboard/page.tsx:57-84 | after a status change the order is listed under its new status and under no other filter except "All" |
| `Orders.StatusChangeCommutesWithDelete` | src/app/admin/dashboard/page.tsx:65-84 | a status change and a delete give the same list whichever is acknowledged first |
| `Orders.DeleteAbsorbsStatusChange` | src/app/admin/dashboard/page.tsx:65-84 | a status change and a delete of the same order, in either order, leave the list as the delete alone does |
| `Orders.OrdersWithId` | src/app/admin/dashboard/page.tsx:215-216 | an order is in the detail list exactly when it is listed with the selected id; the list is empty when the id is not listed |
| `Orders.OrdersWithIdInOrder` | src/app/admin/dashboard/page.tsx:216 | the detail list keeps the orders with the selected id in list order |
| `Orders.OrdersWithIdUnique` | src/app/admin/dashboard/page.tsx:215-216 | with unique ids the detail list is exactly the one order with that id |
| `Orders.ExampleFilter` | src/app/admin/dashboard/page.tsx:57-58 | with order "1" pending and "2" dispatched, the "dispatch" bucket is exactly order "2" |
| `Orders.ExampleStatusChange` | src/app/admin/dashboard/page.tsx:80-84 | marking "1" as "success" re-labels it and leaves "2" as it was |
| `Orders.ExampleDelete` | src/app/admin/dashboard/page.tsx:65 | deleting "2" leaves "1" alone, and the detail view of "1" then shows it |
| `Orders.ItemLabel` | src/app/admin/dashboard/page.tsx:226 | an item shows its name when the item and a non-empty name are present, otherwise "Unknown Product"; the label is never empty |
| `Orders.ItemPicture` | src/app/admin/dashboard/page.tsx:227-235 | an image is shown exactly when the item and a non-empty image URL are present, with that URL; its text is the name when that is non-empty and "Product Image" otherwise; without an image the placeholder reads "No Image Available" |
| `Orders.ItemLines` | src/app/admin/dashboard/page.tsx:224-238 | an order without an item array has no item list (the render throws); otherwise there is one line per item and line `k` carries item `k`'s label and picture, each label non-empty |
| `Dashboard.AdminDashboard.constructor` | src/app/admin/dashboard/page.tsx:25-29 | the initial state is an empty list, no selection, filter "All", modal and menu closed |
| `Dashboard.AdminDashboard.VisibleOrders` | src/app/admin/dashboard/page.tsx:57-58 | the rendered list is the whole mirror under "All"; otherwise an order is rendered exactly when it is in the mirror with the filter's status |
| `Dashboard.AdminDashboard.DetailOrders` | src/app/admin/dashboard/page.tsx:202-216 | the modal shows nothing unless it is open with a non-empty selected id; then an order is shown exactly when it is in the mirror with that id, and nothing is shown if that id is not listed |
| `Dashboard.AdminDashboard.SetFilter` | src/app/admin/dashboard/page.tsx:117 | a filter button sets the filter and changes nothing else |
| `Dashboard.AdminDashboard.Load` | src/app/admin/dashboard/page.tsx:50-54 | a successful fetch replaces the list wholesale; a failed fetch leaves it as it was; the recorded fetched ids become exactly the ids of a successful result and are otherwise kept; no other state changes |
| `Dashboard.AdminDashboard.HandleDelete` | src/app/admin/dashboard/page.tsx:60-71 | the list loses the id only when the operator confirms and the store acknowledges; a decline raises no alert and a failure raises the error alert, both leaving the list unchanged; ids stay unique, and with unique ids the length drops by one exactly when the id was listed |
| `Dashboard.AdminDashboard.HandleStatusChange` | src/app/admin/dashboard/page.tsx:73-90 | an acknowledged patch applies the status update and alerts the new status; a failed one leaves the list unchanged and raises the error alert |
| `Dashboard.AdminDashboard.HandleShowDetails` | src/app/admin/dashboard/page.tsx:92-95 | selects the id and opens the modal, which then shows the orders with that id; nothing else changes |
| `Dashboard.AdminDashboard.HandleCloseModal` | src/app/admin/dashboard/page.tsx:97-100 | closes the modal and clears the selection, so no detail is shown; nothing else changes |
| `Dashboard.AdminDashboard.ToggleMenu` | src/app/admin/dashboard/page.tsx:102 | flips the menu flag and changes nothing else, so toggling twice restores it |

## Left out

- The order store calls (fetch, patch, delete) are remote I/O. Only their outcome is modelled, as a parameter of the handler.
- Two handler calls in flight at once are not modelled as an interleaving. The lemmas on commuting updates state what either order of acknowledgement gives.
- The confirmation dialog is reduced to a boolean. The alerts are returned as a `Notice` value holding the alert text. Console logging is dropped.
- Rendering is left out: markup, styling, the image component, the route guard, the capitalised button labels, the `<select>` value and date formatting.
- `phone` is carried as an opaque value, typed `int` here, and is only displayed. The page's interface declares a number and the store's schema a string; no decision depends on it.
- `HandleShowDetails`/`DetailOrders`: opening the details of an order without `items` crashes the page. The class does not model the crash or the state lost with it; only `ItemLines` records it, as `None`.
- `src/app/admin/page.tsx` is not part of this model. It only compares a fixed credential and writes a browser flag.
- `src/sanity/env.ts` is not part of this model. It is configuration plumbing.
- `src/sanity/schemaTypes/order.ts` is used only as the field list of `Order`. It has no behaviour.
