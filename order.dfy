/**
 * The order handlers: checkout turns the caller's cart into one order per
 * restaurant and empties the cart; the other handlers read orders or set
 * an order's status.
 */
module OrderController {
  import opened Common
  import opened Store
  import opened Checkout

  /** The checkout response: the grand total and the created orders. */
  datatype CheckoutResult = CheckoutResult(grandTotal: int, orders: seq<Order>)

  /**
   * The orders table after checkout inserted `created` with consecutive
   * ids from `firstId`: the old rows stay as they were and the new rows
   * are the created orders.
   */
  ghost predicate InsertedOrders(table: map<Id, Order>, before: map<Id, Order>, firstId: Id, created: seq<Order>) {
    && (forall k :: k in table <==> k in before || firstId <= k < firstId + |created|)
    && (forall k :: k in before ==> table[k] == before[k])
    && (forall t :: 0 <= t < |created| ==> firstId + t in table && table[firstId + t] == created[t])
  }

  /** Inserting the next created order at the next id keeps `InsertedOrders`. */
  lemma InsertedOrdersStep(table: map<Id, Order>, before: map<Id, Order>, firstId: Id, created: seq<Order>, id: Id, order: Order)
    requires InsertedOrders(table, before, firstId, created)
    requires forall k :: k in before ==> k < firstId
    requires id == firstId + |created|
    ensures InsertedOrders(table[id := order], before, firstId, created + [order])
  {
  }

  /** `created` holds the first orders of the checkout, in grouping order. */
  ghost predicate CreatedSoFar(lines: seq<Line>, firstId: Id, u: Id, snapshot: Json, now: nat, created: seq<Order>) {
    var rIds := Restaurants(lines);
    && |created| <= |rIds|
    && forall s :: 0 <= s < |created| ==>
         created[s] == NewOrder(firstId + s, u, rIds[s], ItemsOf(lines, rIds[s]), snapshot, now)
  }

  /** Appending the next group's order keeps `CreatedSoFar` and adds its total to the running sum. */
  lemma CreatedStep(lines: seq<Line>, firstId: Id, u: Id, snapshot: Json, now: nat, created: seq<Order>, order: Order)
    requires CreatedSoFar(lines, firstId, u, snapshot, now, created)
    requires |created| < |Restaurants(lines)|
    requires var rId := Restaurants(lines)[|created|];
      order == NewOrder(firstId + |created|, u, rId, ItemsOf(lines, rId), snapshot, now)
    ensures CreatedSoFar(lines, firstId, u, snapshot, now, created + [order])
    ensures SumOfTotals(created + [order]) == SumOfTotals(created) + order.total
  {
    assert (created + [order])[..|created|] == created;
  }

  /** Once every group has its order, the created orders are exactly `CheckoutOrders`. */
  lemma CreatedAll(lines: seq<Line>, firstId: Id, u: Id, snapshot: Json, now: nat, created: seq<Order>)
    requires CreatedSoFar(lines, firstId, u, snapshot, now, created)
    requires |created| == |Restaurants(lines)|
    ensures created == CheckoutOrders(lines, firstId, u, snapshot, now)
  {
  }

  /**
   * The order-creating loop of checkout: one order per restaurant group,
   * with consecutive ids from `firstId` and the group's subtotal, and the
   * running grand total.
   */
  method InsertOrders(table: map<Id, Order>, firstId: Id, u: Id, lines: seq<Line>, snapshot: Json, now: nat)
    returns (inserted: map<Id, Order>, result: CheckoutResult)
    requires forall o :: o in table ==> o < firstId && table[o].id == o
    ensures result.orders == CheckoutOrders(lines, firstId, u, snapshot, now)
    ensures result.grandTotal == SumOfTotals(result.orders)
    ensures result.grandTotal == Subtotal(lines)
    ensures InsertedOrders(inserted, table, firstId, result.orders)
    ensures forall o :: o in inserted ==> o < firstId + |result.orders| && inserted[o].id == o
  {
    var rIds, grouped := GroupByRestaurant(lines);
    var grandTotal := 0;
    var created: seq<Order> := [];
    inserted := table;
    for t := 0 to |rIds|
      invariant |created| == t
      invariant CreatedSoFar(lines, firstId, u, snapshot, now, created)
      invariant grandTotal == SumOfTotals(created)
      invariant InsertedOrders(inserted, table, firstId, created)
      invariant forall o :: o in inserted ==> o < firstId + t && inserted[o].id == o
    {
      var rId := rIds[t];
      var id := firstId + t;
      var order := NewOrder(id, u, rId, grouped[rId], snapshot, now);
      grandTotal := grandTotal + order.total;
      CreatedStep(lines, firstId, u, snapshot, now, created, order);
      InsertedOrdersStep(inserted, table, firstId, created, id, order);
      inserted := inserted[id := order];
      created := created + [order];
    }
    CreatedAll(lines, firstId, u, snapshot, now, created);
    OrderTotalsSumToCartTotal(lines, firstId, u, snapshot, now);
    result := CheckoutResult(grandTotal, created);
  }

  /**
   * Steps after validation: the orders inserted with fresh ids, then the
   * cart's rows deleted while the cart record stays.
   */
  method PlaceOrders(db: Db, u: Id, cartId: Id, lines: seq<Line>, snapshot: Json, now: nat)
    returns (result: CheckoutResult)
    requires db.Valid()
    modifies db
    ensures db.Valid()
    ensures result.orders == CheckoutOrders(lines, old(db.nextId), u, snapshot, now)
    ensures result.grandTotal == SumOfTotals(result.orders)
    ensures result.grandTotal == Subtotal(lines)
    ensures InsertedOrders(db.orders, old(db.orders), old(db.nextId), result.orders)
    ensures db.nextId == old(db.nextId) + |result.orders|
    ensures db.cartItems == Cleared(old(db.cartItems), cartId)
    ensures db.carts == old(db.carts) && db.menuItems == old(db.menuItems) && db.restaurants == old(db.restaurants)
  {
    var inserted;
    inserted, result := InsertOrders(db.orders, db.nextId, u, lines, snapshot, now);
    db.orders, db.nextId, db.cartItems := inserted, db.nextId + |result.orders|, Cleared(db.cartItems, cartId);
  }

  /**
   * `createOrder`. On success `lines` is the cart as it was read, and the
   * response, the order table and the emptied cart are stated in terms
   * of it; every failure leaves the database as it was.
   */
  method CreateOrder(db: Db, caller: Option<User>, address: Option<Json>, now: nat)
    returns (r: Result<CheckoutResult>, ghost lines: seq<Line>)
    requires db.Valid()
    modifies db
    ensures db.Valid()
    ensures r.Err? ==> unchanged(db)
    ensures caller.None? ==> r == Err(Unauthorized)
    ensures caller.Some? ==>
      (r == Err(BadRequest) <==>
         caller.value.id !in old(db.carts) || CartIsEmpty(old(db.cartItems), old(db.carts)[caller.value.id]))
    ensures caller.Some? ==>
      (r == Err(ServerError) <==>
         && caller.value.id in old(db.carts)
         && !CartIsEmpty(old(db.cartItems), old(db.carts)[caller.value.id])
         && RefersToMissingItem(old(db.cartItems), old(db.carts)[caller.value.id], old(db.menuItems)))
    ensures caller.Some? && caller.value.id in old(db.carts)
            && !CartIsEmpty(old(db.cartItems), old(db.carts)[caller.value.id])
            && !RefersToMissingItem(old(db.cartItems), old(db.carts)[caller.value.id], old(db.menuItems))
            ==> r.Ok?
    ensures r.Ok? ==>
      && caller.Some? && caller.value.id in old(db.carts)
      && var u, cartId := caller.value.id, old(db.carts)[caller.value.id];
      && ReadsCart(lines, old(db.cartItems), cartId, old(db.menuItems))
      && lines != []
      && r.value.orders == CheckoutOrders(lines, old(db.nextId), u, AddressSnapshot(address), now)
      && r.value.grandTotal == SumOfTotals(r.value.orders)
      && r.value.grandTotal == Subtotal(lines)
      && InsertedOrders(db.orders, old(db.orders), old(db.nextId), r.value.orders)
      && db.nextId == old(db.nextId) + |r.value.orders|
      && db.cartItems == Cleared(old(db.cartItems), cartId)
      && db.carts == old(db.carts)
      && db.menuItems == old(db.menuItems) && db.restaurants == old(db.restaurants)
  {
    lines := [];
    if caller.None? { return Err(Unauthorized), lines; }
    var u := caller.value.id;
    if u !in db.carts { return Err(BadRequest), lines; }
    var cartId := db.carts[u];
    var entries := db.CartEntries(cartId);
    if |entries| == 0 { return Err(BadRequest), lines; }
    JoinSucceedsIffNoMissingItem(entries, db.cartItems, cartId, db.menuItems);
    var joined := CheckoutLines(entries, db.menuItems);
    if joined.None? { return Err(ServerError), lines; }
    var cartLines := joined.value;
    lines := cartLines;
    assert ReadsCart(lines, db.cartItems, cartId, db.menuItems);
    var result := PlaceOrders(db, u, cartId, cartLines, AddressSnapshot(address), now);
    r := Ok(result);
  }

  /** Each order appears before every order created earlier. */
  ghost predicate NewestFirst(orders: seq<Order>) {
    forall i, j :: 0 <= i < j < |orders| ==> orders[i].createdAt >= orders[j].createdAt
  }

  /** `orders` with `o` inserted before the first order that is older than `o`. */
  function InsertNewest(orders: seq<Order>, o: Order): seq<Order>
    decreases |orders|
  {
    if orders == [] || o.createdAt >= orders[0].createdAt then [o] + orders
    else [orders[0]] + InsertNewest(orders[1..], o)
  }

  /** Inserting adds exactly `o` to the list. */
  lemma {:induction false} InsertNewestAdds(orders: seq<Order>, o: Order)
    ensures multiset(InsertNewest(orders, o)) == multiset(orders) + multiset{o}
    decreases |orders|
  {
    if orders != [] && o.createdAt < orders[0].createdAt {
      assert orders == [orders[0]] + orders[1..];
      InsertNewestAdds(orders[1..], o);
    }
  }

  /** An upper bound on the creation times of `orders` and `o` bounds the list after inserting. */
  lemma {:induction false} InsertNewestBounded(orders: seq<Order>, o: Order, bound: nat)
    requires forall i :: 0 <= i < |orders| ==> orders[i].createdAt <= bound
    requires o.createdAt <= bound
    ensures forall i :: 0 <= i < |InsertNewest(orders, o)| ==> InsertNewest(orders, o)[i].createdAt <= bound
    decreases |orders|
  {
    if orders != [] && o.createdAt < orders[0].createdAt {
      InsertNewestBounded(orders[1..], o, bound);
    }
  }

  /** Inserting into a newest-first list keeps it newest first. */
  lemma {:induction false} InsertNewestSorted(orders: seq<Order>, o: Order)
    requires NewestFirst(orders)
    ensures NewestFirst(InsertNewest(orders, o))
    decreases |orders|
  {
    if orders != [] && o.createdAt < orders[0].createdAt {
      var head, tail := orders[0], orders[1..];
      InsertNewestSorted(tail, o);
      InsertNewestBounded(tail, o, head.createdAt);
      var rest := InsertNewest(tail, o);
      var r := [head] + rest;
      forall i, j | 0 <= i < j < |r| ensures r[i].createdAt >= r[j].createdAt {
        assert r[j] == rest[j - 1];
        if i > 0 {
          assert r[i] == rest[i - 1];
        }
      }
    }
  }

  /** The caller's orders in the order table. */
  ghost function OrdersOf(table: map<Id, Order>, customerId: Id): set<Order> {
    set o | o in table.Values && o.customerId == customerId
  }

  /**
   * `getMyOrders`: every order of the caller exactly once, and no other
   * order, newest first (`orderBy: { createdAt: "desc" }`).
   */
  method GetMyOrders(db: Db, caller: Option<User>) returns (r: Result<seq<Order>>)
    requires db.Valid()
    ensures caller.None? ==> r == Err(Unauthorized)
    ensures caller.Some? ==>
      && r.Ok?
      && NewestFirst(r.value)
      && multiset(r.value) == multiset(OrdersOf(db.orders, caller.value.id))
  {
    if caller.None? { return Err(Unauthorized); }
    var u := caller.value.id;
    var pending := set k | k in db.orders && db.orders[k].customerId == u;
    var result: seq<Order> := [];
    ghost var listed: set<Order> := {};
    while pending != {}
      invariant forall k :: k in pending ==> k in db.orders && db.orders[k].customerId == u
      invariant forall o :: o in listed <==> o in OrdersOf(db.orders, u) && o.id !in pending
      invariant NewestFirst(result)
      invariant multiset(result) == multiset(listed)
      decreases pending
    {
      var k :| k in pending;
      var o := db.orders[k];
      assert o.id == k;
      assert o !in listed;
      InsertNewestSorted(result, o);
      InsertNewestAdds(result, o);
      result := InsertNewest(result, o);
      listed := listed + {o};
      pending := pending - {k};
      forall o' | o' in OrdersOf(db.orders, u) && o'.id !in pending ensures o' in listed {
        var k' :| k' in db.orders && db.orders[k'] == o';
      }
    }
    assert listed == OrdersOf(db.orders, u);
    r := Ok(result);
  }

  /** `getOrderById`: any order by id, with no ownership check; an unknown id is 404. */
  method GetOrderById(db: Db, id: Id) returns (r: Result<Order>)
    requires db.Valid()
    ensures id !in db.orders ==> r == Err(NotFound)
    ensures id in db.orders ==> r.Ok? && r.value == db.orders[id] && r.value.id == id
  {
    if id !in db.orders { return Err(NotFound); }
    r := Ok(db.orders[id]);
  }

  /**
   * The handler's permission test as written: it forbids only a caller
   * whose role is the string "CUSTMORE" and whose id is not the order's
   * restaurant id.
   */
  function ForbidsStatusUpdate(caller: Option<User>, order: Order): (forbids: bool)
    ensures forbids ==> caller.Some? && caller.value.role !in Roles && order.restaurantId != caller.value.id
  {
    caller.Some? && caller.value.role == "CUSTMORE" && order.restaurantId != caller.value.id
  }

  /** No stored role is "CUSTMORE", so the test never forbids a real caller. */
  lemma NoRealRoleIsForbidden(caller: Option<User>, order: Order)
    requires caller.Some? ==> caller.value.role in Roles
    ensures !ForbidsStatusUpdate(caller, order)
  {
  }

  /** The order after `update({ data: { status } })`: an undefined status leaves the row as it was. */
  function WithStatus(order: Order, status: Option<string>): (r: Order)
    ensures r.status == (if status.Some? then status.value else order.status)
    ensures r.(status := order.status) == order
  {
    if status.Some? then order.(status := status.value) else order
  }

  /** `updateOrderStatus`: 404 for an unknown id; otherwise only the order's status changes, to any value. */
  method UpdateOrderStatus(db: Db, caller: Option<User>, id: Id, status: Option<string>) returns (r: Result<Order>)
    requires db.Valid()
    modifies db
    ensures db.Valid()
    ensures r.Err? ==> unchanged(db)
    ensures id !in old(db.orders) ==> r == Err(NotFound)
    ensures id in old(db.orders) ==>
      && (r == Err(Forbidden) <==> ForbidsStatusUpdate(caller, old(db.orders)[id]))
      && (r != Err(Forbidden) ==>
            && r == Ok(WithStatus(old(db.orders)[id], status))
            && db.orders == old(db.orders)[id := r.value]
            && db.nextId == old(db.nextId) && db.carts == old(db.carts) && db.cartItems == old(db.cartItems)
            && db.menuItems == old(db.menuItems) && db.restaurants == old(db.restaurants))
  {
    if id !in db.orders { return Err(NotFound); }
    var order := db.orders[id];
    if ForbidsStatusUpdate(caller, order) { return Err(Forbidden); }
    var updated := WithStatus(order, status);
    db.orders := db.orders[id := updated];
    r := Ok(updated);
  }
}
