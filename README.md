# Food-delivery backend: carts, checkout, orders and menus in Dafny

This project models the three controllers at the centre of a food-delivery
REST backend.

- The **cart** handlers (`addToCart`, `removeFromCart`, `deleteCart`,
  `getCart`, `updateCartItem`). Each customer has at most one cart, and a
  cart has at most one row per menu item, under the compound key
  `cartId_menuItemId`.
- The **order** handlers. `createOrder` turns the cart into one order per
  restaurant and then empties the cart. `getMyOrders`, `getOrderById` and
  `updateOrderStatus` read orders or set an order's status.
- The **menu** handlers (`addMenuItem`, `getMenuItems`, `updateMenuItem`,
  `deleteMenuItem`). They apply defaults on create, merge fields with `??`
  on update, and check ownership of the restaurant.

The relational store becomes the class `Store.Db`. It holds one map per
table: restaurants, menu items, carts (by owner), cart items (by
`(cartId, menuItemId)`) and orders. A counter `nextId` stands in for the
database's id generator. Each handler is a method over `db: Db` that
returns `Ok(body)` or `Err(status)`, with the status codes 400, 401, 403,
404 and 500. Each handler states its new tables exactly. On every error
path the database is unchanged.

Modules:

- `Common`: ids, `Option`, `Result`, the caller, the status codes.
- `Store`: rows, the `Db` class, the listing of a cart's rows.
- `CartController`: the cart handlers and the laws of the cart-item table.
- `Checkout`: the pure part of checkout. It groups cart lines by
  restaurant, computes subtotals and copies lines into order items. Lemmas
  show that the grouping is a partition and that the group totals add up
  to the cart total.
- `OrderController`: the order handlers, including the imperative
  checkout loop, which is proved against `Checkout.CheckoutOrders`.
- `MenuController`: the menu handlers, the default and merge rules, and
  the per-restaurant menu filter.

Conventions:

- Ids are natural numbers.
- A request field that is absent, null or otherwise falsy where the
  handler tests `!field` is `None`.
- Prices are integer minor units.
- Quantities are unbounded integers. Negative quantities pass through
  `quantity || 1`.
- The clock reading stored as `createdAt` is a parameter of checkout.

## Model

| member | source | states |
|---|---|---|
| `Store.Db.FreshId` | backend/src/controllers/cartController.ts:22 | a generated id is new: it is above every cart id, every cart id of a cart-item row, every menu-item id and every order id, and no table changes |
| `Store.Db.CartEntries` | backend/src/controllers/cartController.ts:111-118 | the rows of one cart: each listed row is in the table with its quantity, no menu item is listed twice, every row of the cart is listed, and the list is empty exactly when the cart has no rows |
| `CartController.QuantityOr1` | backend/src/controllers/cartController.ts:34-41 | `quantity` or 1: an absent or zero quantity becomes 1, any other value (negative too) is kept, so the result is never 0 |
| `CartController.Added` | backend/src/controllers/cartController.ts:31-44 | an add increments an existing row by the quantity or creates the row with it: the key set gains at most the added key, that row grows by exactly the quantity, and every other row is unchanged |
| `CartController.AddsAccumulate` | backend/src/controllers/cartController.ts:26-44 | after any series of adds of one menu item, its quantity is the old quantity plus the sum of the requested quantities, each absent or zero one counting as 1, and every other row is untouched |
| `CartController.RemoveUndoesAdd` | backend/src/controllers/cartController.ts:36-72 | removing the row that an add created restores the table exactly |
| `Store.Cleared` | backend/src/controllers/cartController.ts:92 | `deleteMany` of a cart's rows: afterwards the cart has no rows, no row is added, and every other cart's row is kept with its quantity (checkout empties the cart the same way, orderController.ts:64) |
| `CartController.ClearedIdempotent` | backend/src/controllers/cartController.ts:92 | deleting a cart's rows twice is deleting them once |
| `CartController.OtherCartsUntouched` | backend/src/controllers/cartController.ts:31-92 | with distinct cart ids, an add, a remove, a quantity update or a clear on one user's cart leaves every other user's cart rows exactly as they were |
| `CartController.JoinMenu` | backend/src/controllers/cartController.ts:111-118 | each cart row joined with its menu item, in order, with no menu item where it no longer exists |
| `CartController.AddToCart` | backend/src/controllers/cartController.ts:11-51 | 401 without a caller and 400 without a menu item id, each with no change; otherwise the caller's cart is created when missing (so the caller then has exactly one), the row is incremented or created by the quantity or 1, and the response is the row |
| `CartController.RemoveFromCart` | backend/src/controllers/cartController.ts:54-79 | 401 and 400 as for add; 404 when there is no cart or no such row; otherwise exactly that row is deleted and nothing else changes |
| `CartController.DeleteCart` | backend/src/controllers/cartController.ts:83-102 | 404 without a cart; otherwise every row of the cart and then the cart itself are deleted, and other carts are kept |
| `CartController.GetCart` | backend/src/controllers/cartController.ts:106-127 | no cart reads as an empty item list, not an error; otherwise the response lists exactly the cart's rows joined with their menu items |
| `CartController.UpdateCartItem` | backend/src/controllers/cartController.ts:129-154 | a missing quantity or one below 1 is 400 before the store is read; 404 without a cart or row; otherwise the quantity is set, not added |
| `Checkout.SubtotalNonNegative` | backend/src/controllers/orderController.ts:35-38 | the `reduce` subtotal of lines with no negative amount is never negative |
| `Checkout.ItemsOfAppend` | backend/src/controllers/orderController.ts:24-29 | a group is built in cart order: a line joins the end of its restaurant's group and of no other |
| `Checkout.ItemsOfMembers` | backend/src/controllers/orderController.ts:24-29 | `ItemsOf(lines, r)`, the entry `grouped[r]`: a line is in a restaurant's group exactly when it is in the cart and its menu item belongs to that restaurant |
| `Checkout.RestaurantsListed` | backend/src/controllers/orderController.ts:24-34 | `Restaurants(lines)`, the keys of `grouped`: every line's restaurant has a group, and no restaurant has two groups |
| `Checkout.RestaurantsHaveLines` | backend/src/controllers/orderController.ts:24-34 | every group key is the restaurant of some cart line, so no group is empty |
| `Checkout.AbsentRestaurantHasNoItems` | backend/src/controllers/orderController.ts:24-29 | a restaurant without a group has no lines |
| `Checkout.ConcatAppend` | backend/src/controllers/orderController.ts:24-29 | appending a line to the cart adds it once to the concatenated groups of distinct keys when its restaurant is one of them, and not at all otherwise |
| `Checkout.SumOfGroupsAppend` | backend/src/controllers/orderController.ts:31-40 | appending a line adds its amount once to the summed group totals of distinct keys when its restaurant is one of them, and nothing otherwise |
| `Checkout.GroupsPartitionCart` | backend/src/controllers/orderController.ts:24-29 | the groups together hold exactly the cart's lines: same multiset, nothing lost or duplicated |
| `Checkout.LineInExactlyOneGroup` | backend/src/controllers/orderController.ts:24-29 | each cart line lands in the group keyed by its menu item's restaurant and in no other |
| `Checkout.GroupTotalsSumToCartTotal` | backend/src/controllers/orderController.ts:31-40 | `Subtotal`, the `reduce` at lines 35-38, summed over the groups: the group subtotals add up to the cart's total of price times quantity |
| `Checkout.OrderItemsOf` | backend/src/controllers/orderController.ts:49-54 | order items copy the menu item id, name, price and quantity of the group's lines one for one, in order |
| `Checkout.OrderItemsMatchGroup` | backend/src/controllers/orderController.ts:35-54 | the order items' total of price times quantity is the group subtotal the order stores |
| `Checkout.NewOrder` | backend/src/controllers/orderController.ts:42-56 | an order has one item per line of its group |
| `Checkout.AddressSnapshot` | backend/src/controllers/orderController.ts:47 | `address` or `{}`: a supplied (truthy) address is stored verbatim; an absent, null or empty-string address becomes the empty object |
| `Checkout.CheckoutLines` | backend/src/controllers/orderController.ts:14-26 | the cart rows joined with their menu items succeed exactly when every row's menu item exists, and then keep each row's id and quantity |
| `Checkout.JoinSucceedsIffNoMissingItem` | backend/src/controllers/orderController.ts:14-26 | for a listing of the cart, the join fails exactly when some row of the cart refers to a missing menu item |
| `Checkout.PrefixTotals` | backend/src/controllers/orderController.ts:31-40 | the totals of the first n orders add up to the summed subtotals of the first n groups |
| `Checkout.OrderRestaurants` | backend/src/controllers/orderController.ts:34-45 | the orders follow the groups one for one: as many orders as restaurants, order t for restaurant t |
| `Checkout.OneOrderPerRestaurant` | backend/src/controllers/orderController.ts:34-58 | every cart line's restaurant has an order, and no two orders share a restaurant |
| `Checkout.OrdersCarryTheirGroups` | backend/src/controllers/orderController.ts:42-56 | each order has the next consecutive new id, the caller as customer, status PENDING, and the order items of its own restaurant's group |
| `Checkout.OrderTotalsMatchItems` | backend/src/controllers/orderController.ts:35-55 | each order has items, and its total equals the sum of price times quantity over its items |
| `Checkout.OrderTotalsSumToCartTotal` | backend/src/controllers/orderController.ts:31-40 | the order totals add up to the cart total |
| `Checkout.GroupByRestaurant` | backend/src/controllers/orderController.ts:24-29 | the grouping loop fills a dictionary whose keys are exactly the cart's restaurants and whose entries are exactly each restaurant's lines in cart order |
| `Checkout.GroupStep` | backend/src/controllers/orderController.ts:25-28 | one pass of the grouping loop: a restaurant seen for the first time gets a new key at the end of the key list, and the line joins the end of its restaurant's entry |
| `OrderController.InsertedOrdersStep` | backend/src/controllers/orderController.ts:42-58 | inserting the next order at the next id keeps the old rows and adds exactly the created orders |
| `OrderController.CreatedStep` | backend/src/controllers/orderController.ts:34-60 | the next order created is the next group's order, and `grandTotal += total` keeps the running sum of created totals |
| `OrderController.CreatedAll` | backend/src/controllers/orderController.ts:34-60 | when every group has its order, the created orders are the checkout's orders |
| `OrderController.InsertOrders` | backend/src/controllers/orderController.ts:31-61 | the loop creates the checkout's orders, inserts them under fresh consecutive ids beside the old rows, and the grand total is the sum of their totals, which is the cart total |
| `OrderController.PlaceOrders` | backend/src/controllers/orderController.ts:31-64 | after grouping: the orders are inserted, the cart's rows are deleted while the cart record stays, and no other table changes |
| `OrderController.CreateOrder` | backend/src/controllers/orderController.ts:9-74 | 401 without a caller; 400 exactly when the cart is missing or empty; 500 exactly when a row refers to a missing menu item; each failure changes nothing; every other request succeeds; on success the orders, grand total, order table and emptied cart are as above |
| `OrderController.InsertNewestAdds` | backend/src/controllers/orderController.ts:82-86 | inserting an order into a listing adds exactly that order |
| `OrderController.InsertNewestBounded` | backend/src/controllers/orderController.ts:82-86 | inserting keeps every creation time below a bound that all the orders respect |
| `OrderController.InsertNewestSorted` | backend/src/controllers/orderController.ts:82-86 | inserting into a newest-first listing keeps it newest first |
| `OrderController.GetMyOrders` | backend/src/controllers/orderController.ts:77-93 | 401 without a caller; otherwise exactly the caller's orders, each once, ordered by creation time descending |
| `OrderController.GetOrderById` | backend/src/controllers/orderController.ts:96-112 | the order under the id, with no ownership check, or 404 |
| `OrderController.ForbidsStatusUpdate` | backend/src/controllers/orderController.ts:126-128 | the permission test refuses only a caller whose role is the misspelt "CUSTMORE", which is not one of the stored roles, and never the order's own restaurant id |
| `OrderController.NoRealRoleIsForbidden` | backend/src/controllers/orderController.ts:126-128 | the permission test compares against the misspelt role "CUSTMORE", so no caller with a stored role is ever refused |
| `OrderController.WithStatus` | backend/src/controllers/orderController.ts:130-133 | the update changes the status (to any string) and no other field; an undefined status leaves the order as it was |
| `OrderController.UpdateOrderStatus` | backend/src/controllers/orderController.ts:115-140 | 404 for an unknown id; 403 exactly when the "CUSTMORE" test fires; otherwise only that order's status changes |
| `MenuController.NewMenuItem` | backend/src/controllers/menuController.ts:31-39 | a created item takes name and price from the body, defaults description and image to null and availability to true, and takes its restaurant from the path |
| `MenuController.NewMenuItemIsMergedDefaults` | backend/src/controllers/menuController.ts:31-39 | creating is the update merge applied to a default item of the restaurant |
| `MenuController.Merge` | backend/src/controllers/menuController.ts:84-93 | an update never changes the item's restaurant |
| `MenuController.MergeFields` | backend/src/controllers/menuController.ts:84-93 | each supplied field replaces the old value and each null or undefined one keeps it |
| `MenuController.MergeIdentityAndIdempotent` | backend/src/controllers/menuController.ts:84-93 | an update that supplies nothing is the identity, and repeating an update changes nothing more |
| `MenuController.MergeTwice` | backend/src/controllers/menuController.ts:84-93 | two updates in a row are one update with the second body laid over the first |
| `MenuController.MenuOf` | backend/src/controllers/menuController.ts:55-57 | `findMany({ where: { restaurantId } })`: only items of the table, unchanged, each of the given restaurant |
| `MenuController.MenusPartitionItems` | backend/src/controllers/menuController.ts:55-57 | every item is on its own restaurant's menu and on no other |
| `MenuController.AddedItemOnItsMenu` | backend/src/controllers/menuController.ts:31-39 | a new item joins its restaurant's menu and no other menu changes |
| `MenuController.UpdateKeepsMenus` | backend/src/controllers/menuController.ts:84-93 | an update moves no item between menus |
| `MenuController.DeleteLeavesOthers` | backend/src/controllers/menuController.ts:118 | a delete takes exactly that item off the menus |
| `MenuController.ListedItemsBelong` | backend/src/controllers/menuController.ts:55-57 | a listing of a restaurant's menu names only that restaurant's items, one row per item |
| `MenuController.Owns` | backend/src/controllers/menuController.ts:24-26 | the ownership test (repeated at lines 80 and 114): a caller without an id owns nothing, and an owner is the restaurant's `ownerId` |
| `MenuController.AddMenuItem` | backend/src/controllers/menuController.ts:11-47 | checks in order: missing restaurant id 400, unknown restaurant 404, caller not the owner 403, missing or empty name or undefined price 400, each with no change; an owner with a name and a price always succeeds, with one item with the defaults under a fresh id |
| `MenuController.GetMenuItems` | backend/src/controllers/menuController.ts:50-64 | 400 without an id; otherwise exactly the items whose restaurant is the given id, each once |
| `MenuController.UpdateMenuItem` | backend/src/controllers/menuController.ts:67-100 | 400 without an id, 404 for an unknown item, 404 when its restaurant is gone, 403 for a non-owner, each with no change; otherwise the merged item replaces the old one and nothing else changes |
| `MenuController.DeleteMenuItem` | backend/src/controllers/menuController.ts:103-124 | the same checks as update; otherwise exactly that item is removed and all others are kept |

## Left out

- The HTTP layer is not modelled: Express request and response objects, JSON message bodies, `console.error`, and the 201 status as distinct from 200. A handler's outcome is `Ok(body)` or `Err(status)`.
- Route-level role gates (`authorize("CUSTOMER")` and the others in the route files) are not modelled. Each handler is modelled for every caller, as its own code behaves.
- JWT verification, the user lookup in the authentication middleware, password hashing, and the restaurant and user controllers are not part of this model.
- The database is not modelled as such. There is no schema, no foreign-key constraints, no cascades and no transactions. A cart row may refer to a menu item that no longer exists. Checkout then fails with 500 (the read of `item.menuItem.restaurantId` throws) and changes nothing, because the failure comes before the first insert.
- Database failures part-way through checkout are not modelled, so neither are the partial commits that the non-transactional code would leave behind. Concurrent requests are not modelled either: every handler runs alone.
- Prices are integer minor units, not JavaScript floating-point numbers (`Number(price) * quantity`), and integers are unbounded.
- Groups follow the order in which each restaurant first appears in the cart. JavaScript's key ordering for integer-like keys in `Object.entries` is not modelled; the model reads no meaning into the order of orders.
- The JSON shapes of the responses are not modelled. An order's `restaurant`, `customer` and `driver` joins are left out. `getCart` returns the cart's rows with their menu items rather than the cart record around them.
- Status `PENDING` is the initial status of an order, and `createdAt` is the `now` parameter of checkout. Both stand for database defaults; the schema is not part of this model.
- `MenuController.AddMenuItem`: a price sent as `null` passes the `price === undefined` test and would then be rejected by the database. This model has no null price: an absent price is `None` and is refused with 400.
- `CartController.AddToCart`: a quantity sent as a string (which JavaScript `+` would concatenate) is not modelled; quantities are integers.
- `CartController.GetCart`: the order of a cart's rows is not fixed. The contract says the response lists each row exactly once, in some order.
- `MenuController.GetMenuItems`: the order of the rows is not fixed. The contract says the response lists each item exactly once, in some order.
- The model follows the code as written, including these behaviours:
  - adding to the cart does not check that the menu item exists or is available;
  - checkout is not atomic;
  - an order status may be set to any string;
  - a caller whose role is CUSTOMER is not refused by `updateOrderStatus` itself, because the handler's test compares against "CUSTMORE";
  - `getOrderById` does not check who owns the order;
  - the `:id` path parameter of `PUT /cart/update/:id` is ignored by the handler.
