/**
 * The pure part of checkout: a cart's lines are partitioned by the
 * restaurant of their menu item, each part is totalled, and each line is
 * copied into an order line.
 */
module Checkout {
  import opened Common
  import opened Store

  /** A cart row joined with the menu item it refers to, as checkout reads it. */
  datatype Line = Line(menuItemId: Id, quantity: int, item: MenuItem)

  /** The restaurant a line is grouped under (`item.menuItem.restaurantId`). */
  function RestaurantOf(line: Line): Id {
    line.item.restaurantId
  }

  /** What a line costs: the menu item's current price times the quantity. */
  function Amount(line: Line): int {
    line.item.price * line.quantity
  }

  /** The sum of the lines' amounts, accumulated left to right from 0 as the `reduce` does. */
  function Subtotal(lines: seq<Line>): (total: int)
    decreases |lines|
  {
    if lines == [] then 0 else Subtotal(lines[..|lines| - 1]) + Amount(lines[|lines| - 1])
  }

  /** With no negative amount among the lines, the subtotal is never negative. */
  lemma {:induction false} SubtotalNonNegative(lines: seq<Line>)
    requires forall l :: l in lines ==> Amount(l) >= 0
    ensures Subtotal(lines) >= 0
    decreases |lines|
  {
    if lines != [] {
      var init := lines[..|lines| - 1];
      assert forall l :: l in init ==> l in lines;
      SubtotalNonNegative(init);
      assert lines[|lines| - 1] in lines;
    }
  }

  /** The group of restaurant `rId`: the lines of that restaurant, in cart order. */
  function ItemsOf(lines: seq<Line>, rId: Id): (group: seq<Line>)
    decreases |lines|
  {
    if lines == [] then []
    else
      var last := lines[|lines| - 1];
      ItemsOf(lines[..|lines| - 1], rId) + (if RestaurantOf(last) == rId then [last] else [])
  }

  /** The restaurants of the cart, each once, in order of first appearance (the keys of `grouped`). */
  function Restaurants(lines: seq<Line>): (rIds: seq<Id>)
    decreases |lines|
  {
    if lines == [] then []
    else
      var rIds := Restaurants(lines[..|lines| - 1]);
      var rId := RestaurantOf(lines[|lines| - 1]);
      if rId in rIds then rIds else rIds + [rId]
  }

  /** The group of a line's restaurant gains that line; every other group is unchanged. */
  lemma ItemsOfAppend(lines: seq<Line>, x: Line, rId: Id)
    ensures ItemsOf(lines + [x], rId) == ItemsOf(lines, rId) + (if RestaurantOf(x) == rId then [x] else [])
  {
    assert (lines + [x])[..|lines|] == lines;
  }

  /** A group holds exactly the cart's lines of its restaurant. */
  lemma {:induction false} ItemsOfMembers(lines: seq<Line>, rId: Id)
    ensures forall l :: l in ItemsOf(lines, rId) <==> l in lines && RestaurantOf(l) == rId
    decreases |lines|
  {
    if lines != [] {
      var init, last := lines[..|lines| - 1], lines[|lines| - 1];
      assert lines == init + [last];
      ItemsOfMembers(init, rId);
    }
  }

  /** The restaurant list names every line's restaurant and names none twice. */
  lemma {:induction false} RestaurantsListed(lines: seq<Line>)
    ensures forall l :: l in lines ==> RestaurantOf(l) in Restaurants(lines)
    ensures forall i, j :: 0 <= i < j < |Restaurants(lines)| ==> Restaurants(lines)[i] != Restaurants(lines)[j]
    decreases |lines|
  {
    if lines != [] {
      var init, last := lines[..|lines| - 1], lines[|lines| - 1];
      assert lines == init + [last];
      RestaurantsListed(init);
    }
  }

  /** The restaurant list names only restaurants that have a line in the cart. */
  lemma {:induction false} RestaurantsHaveLines(lines: seq<Line>)
    ensures forall r :: r in Restaurants(lines) ==> exists l :: l in lines && RestaurantOf(l) == r
    decreases |lines|
  {
    if lines != [] {
      var init, last := lines[..|lines| - 1], lines[|lines| - 1];
      assert lines == init + [last];
      RestaurantsHaveLines(init);
      forall r | r in Restaurants(lines) ensures exists l :: l in lines && RestaurantOf(l) == r {
        if r in Restaurants(init) {
          var l :| l in init && RestaurantOf(l) == r;
          assert l in lines;
        } else {
          assert RestaurantOf(last) == r;
        }
      }
    }
  }

  /** A restaurant with no line in the cart has an empty group. */
  lemma AbsentRestaurantHasNoItems(lines: seq<Line>, rId: Id)
    requires rId !in Restaurants(lines)
    ensures ItemsOf(lines, rId) == []
  {
    RestaurantsListed(lines);
    ItemsOfMembers(lines, rId);
    if ItemsOf(lines, rId) != [] {
      assert ItemsOf(lines, rId)[0] in ItemsOf(lines, rId);
    }
  }

  /** The concatenation of the groups of `rIds`, in that order. */
  function Concat(lines: seq<Line>, rIds: seq<Id>): seq<Line>
    decreases |rIds|
  {
    if rIds == [] then [] else Concat(lines, rIds[..|rIds| - 1]) + ItemsOf(lines, rIds[|rIds| - 1])
  }

  /** The sum of the group subtotals of `rIds`. */
  function SumOfGroups(lines: seq<Line>, rIds: seq<Id>): int
    decreases |rIds|
  {
    if rIds == [] then 0 else SumOfGroups(lines, rIds[..|rIds| - 1]) + Subtotal(ItemsOf(lines, rIds[|rIds| - 1]))
  }

  /** Appending a line adds it to the concatenation once when its restaurant is one of the distinct `rIds`, and never otherwise. */
  lemma {:induction false} ConcatAppend(lines: seq<Line>, x: Line, rIds: seq<Id>)
    requires forall i, j :: 0 <= i < j < |rIds| ==> rIds[i] != rIds[j]
    ensures multiset(Concat(lines + [x], rIds))
         == multiset(Concat(lines, rIds)) + (if RestaurantOf(x) in rIds then multiset{x} else multiset{})
    decreases |rIds|
  {
    if rIds != [] {
      var init, r := rIds[..|rIds| - 1], rIds[|rIds| - 1];
      assert rIds == init + [r];
      ConcatAppend(lines, x, init);
      ConcatAppendLast(lines, x, init, r);
    }
  }

  /** The step of `ConcatAppend`: one more restaurant, not yet among `init`, at the end of the list. */
  lemma ConcatAppendLast(lines: seq<Line>, x: Line, init: seq<Id>, r: Id)
    requires r !in init
    requires multiset(Concat(lines + [x], init))
          == multiset(Concat(lines, init)) + (if RestaurantOf(x) in init then multiset{x} else multiset{})
    ensures multiset(Concat(lines + [x], init + [r]))
         == multiset(Concat(lines, init + [r])) + (if RestaurantOf(x) in init + [r] then multiset{x} else multiset{})
  {
    assert (init + [r])[..|init|] == init;
    ItemsOfAppend(lines, x, r);
  }

  /** Appending a line adds its amount to the group subtotals once when its restaurant is one of the distinct `rIds`, and never otherwise. */
  lemma {:induction false} SumOfGroupsAppend(lines: seq<Line>, x: Line, rIds: seq<Id>)
    requires forall i, j :: 0 <= i < j < |rIds| ==> rIds[i] != rIds[j]
    ensures SumOfGroups(lines + [x], rIds)
         == SumOfGroups(lines, rIds) + (if RestaurantOf(x) in rIds then Amount(x) else 0)
    decreases |rIds|
  {
    if rIds != [] {
      var init, r := rIds[..|rIds| - 1], rIds[|rIds| - 1];
      assert rIds == init + [r];
      SumOfGroupsAppend(lines, x, init);
      ItemsOfAppend(lines, x, r);
      var g := ItemsOf(lines, r);
      if RestaurantOf(x) == r {
        assert RestaurantOf(x) !in init;
        assert (g + [x])[..|g|] == g;
        assert Subtotal(ItemsOf(lines + [x], r)) == Subtotal(g) + Amount(x);
      } else {
        assert ItemsOf(lines + [x], r) == g;
      }
    }
  }

  /**
   * The groups partition the cart: concatenated, they hold every line
   * exactly as often as the cart does.
   */
  lemma {:induction false} GroupsPartitionCart(lines: seq<Line>)
    ensures multiset(Concat(lines, Restaurants(lines))) == multiset(lines)
    decreases |lines|
  {
    if lines != [] {
      var init, x := lines[..|lines| - 1], lines[|lines| - 1];
      assert lines == init + [x];
      var rIds := Restaurants(init);
      GroupsPartitionCart(init);
      RestaurantsListed(init);
      ConcatAppend(init, x, rIds);
      if RestaurantOf(x) !in rIds {
        AbsentRestaurantHasNoItems(init, RestaurantOf(x));
        ItemsOfAppend(init, x, RestaurantOf(x));
        assert rIds + [RestaurantOf(x)] == Restaurants(lines);
        assert (rIds + [RestaurantOf(x)])[..|rIds|] == rIds;
      }
    }
  }

  /** A line lands in the group of its own restaurant and in no other. */
  lemma LineInExactlyOneGroup(lines: seq<Line>, i: nat, rId: Id)
    requires i < |lines|
    ensures lines[i] in ItemsOf(lines, rId) <==> RestaurantOf(lines[i]) == rId
    ensures RestaurantOf(lines[i]) in Restaurants(lines)
  {
    ItemsOfMembers(lines, rId);
    RestaurantsListed(lines);
    assert lines[i] in lines;
  }

  /** The group subtotals add up to the subtotal of the whole cart. */
  lemma {:induction false} GroupTotalsSumToCartTotal(lines: seq<Line>)
    ensures SumOfGroups(lines, Restaurants(lines)) == Subtotal(lines)
    decreases |lines|
  {
    if lines != [] {
      var init, x := lines[..|lines| - 1], lines[|lines| - 1];
      assert lines == init + [x];
      var rIds := Restaurants(init);
      GroupTotalsSumToCartTotal(init);
      RestaurantsListed(init);
      SumOfGroupsAppend(init, x, rIds);
      if RestaurantOf(x) !in rIds {
        var rx := RestaurantOf(x);
        AbsentRestaurantHasNoItems(init, rx);
        ItemsOfAppend(init, x, rx);
        assert ItemsOf(lines, rx) == [x];
        assert Subtotal([x]) == Amount(x);
        assert Restaurants(lines) == rIds + [rx];
        assert (rIds + [rx])[..|rIds|] == rIds;
        assert SumOfGroups(lines, rIds + [rx]) == SumOfGroups(lines, rIds) + Subtotal(ItemsOf(lines, rx));
      }
    }
  }

  /** The order line copied from a cart line: menu item id, name, current price and quantity. */
  function OrderItemOf(line: Line): OrderItem {
    OrderItem(line.menuItemId, line.item.name, line.item.price, line.quantity)
  }

  /**
   * The order lines of a group, one per cart line, in the same order, each
   * copying the menu item id, the name, the current price and the quantity.
   */
  function OrderItemsOf(group: seq<Line>): (items: seq<OrderItem>)
    ensures |items| == |group|
    ensures forall i :: 0 <= i < |group| ==>
      && items[i].menuItemId == group[i].menuItemId
      && items[i].name == group[i].item.name
      && items[i].price == group[i].item.price
      && items[i].quantity == group[i].quantity
  {
    seq(|group|, i requires 0 <= i < |group| => OrderItemOf(group[i]))
  }

  /** The sum of price times quantity over order lines. */
  function ItemsTotal(items: seq<OrderItem>): int
    decreases |items|
  {
    if items == [] then 0 else ItemsTotal(items[..|items| - 1]) + items[|items| - 1].price * items[|items| - 1].quantity
  }

  /** An order's copied lines add up to the group's subtotal. */
  lemma {:induction false} OrderItemsMatchGroup(group: seq<Line>)
    ensures ItemsTotal(OrderItemsOf(group)) == Subtotal(group)
    decreases |group|
  {
    if group != [] {
      var init := group[..|group| - 1];
      OrderItemsMatchGroup(init);
      assert OrderItemsOf(group)[..|group| - 1] == OrderItemsOf(init);
    }
  }

  /**
   * The order created for one group: one order line per cart line, and a
   * total that is the sum of its own lines' price times quantity.
   */
  function NewOrder(id: Id, customerId: Id, rId: Id, group: seq<Line>, address: Json, now: nat): (order: Order)
    ensures |order.items| == |group|
  {
    Order(id, customerId, rId, Subtotal(group), address, InitialStatus, now, OrderItemsOf(group))
  }

  /**
   * `address || {}`: the address snapshot an order stores. `None` stands
   * for every falsy address (absent, null, the empty string).
   */
  function AddressSnapshot(address: Option<Json>): (snapshot: Json)
    ensures address.Some? ==> snapshot == address.value
    ensures address.None? ==> snapshot == EmptyObject
  {
    if address.Some? then address.value else EmptyObject
  }

  /** The sum of the orders' totals. */
  function SumOfTotals(orders: seq<Order>): int
    decreases |orders|
  {
    if orders == [] then 0 else SumOfTotals(orders[..|orders| - 1]) + orders[|orders| - 1].total
  }

  /**
   * The cart rows joined with their menu items, as checkout reads them;
   * `None` when a row's menu item is missing, where reading its
   * `restaurantId` throws.
   */
  function CheckoutLines(entries: seq<CartEntry>, menu: map<Id, MenuItem>): (lines: Option<seq<Line>>)
    ensures lines.Some? <==> forall i :: 0 <= i < |entries| ==> entries[i].menuItemId in menu
    ensures lines.Some? ==> |lines.value| == |entries|
    ensures lines.Some? ==> forall i :: 0 <= i < |entries| ==>
      lines.value[i] == Line(entries[i].menuItemId, entries[i].quantity, menu[entries[i].menuItemId])
  {
    if forall i :: 0 <= i < |entries| ==> entries[i].menuItemId in menu then
      Some(seq(|entries|, i requires 0 <= i < |entries| && entries[i].menuItemId in menu =>
        Line(entries[i].menuItemId, entries[i].quantity, menu[entries[i].menuItemId])))
    else None
  }

  /** Some row of cart `cartId` refers to a menu item that is not in the menu table. */
  ghost predicate RefersToMissingItem(table: map<CartKey, int>, cartId: Id, menu: map<Id, MenuItem>) {
    exists k :: k in table && k.cartId == cartId && k.menuItemId !in menu
  }

  /** The join succeeds exactly when every row of the cart refers to an existing menu item. */
  lemma JoinSucceedsIffNoMissingItem(entries: seq<CartEntry>, table: map<CartKey, int>, cartId: Id, menu: map<Id, MenuItem>)
    requires ListsCart(entries, table, cartId)
    ensures CheckoutLines(entries, menu).Some? <==> !RefersToMissingItem(table, cartId, menu)
  {
    if RefersToMissingItem(table, cartId, menu) {
      var k :| k in table && k.cartId == cartId && k.menuItemId !in menu;
      var i :| 0 <= i < |entries| && entries[i].menuItemId == k.menuItemId;
    } else {
      forall i | 0 <= i < |entries| ensures entries[i].menuItemId in menu {
        assert CartKey(cartId, entries[i].menuItemId) in table;
      }
    }
  }

  /** `lines` is what checkout reads for cart `cartId`: its rows, in some order, joined with their menu items. */
  ghost predicate ReadsCart(lines: seq<Line>, table: map<CartKey, int>, cartId: Id, menu: map<Id, MenuItem>) {
    exists entries :: ListsCart(entries, table, cartId) && CheckoutLines(entries, menu) == Some(lines)
  }

  /** The orders checkout creates: one per restaurant of the cart, in grouping order, with consecutive ids from `firstId`. */
  function CheckoutOrders(lines: seq<Line>, firstId: Id, customerId: Id, address: Json, now: nat): seq<Order> {
    var rIds := Restaurants(lines);
    seq(|rIds|, t requires 0 <= t < |rIds| => NewOrder(firstId + t, customerId, rIds[t], ItemsOf(lines, rIds[t]), address, now))
  }

  /** Over a prefix of the restaurants, the created orders' totals add up to the same groups' subtotals. */
  lemma {:induction false} PrefixTotals(lines: seq<Line>, firstId: Id, customerId: Id, address: Json, now: nat, n: nat)
    requires n <= |Restaurants(lines)|
    ensures SumOfTotals(CheckoutOrders(lines, firstId, customerId, address, now)[..n])
         == SumOfGroups(lines, Restaurants(lines)[..n])
    decreases n
  {
    var orders := CheckoutOrders(lines, firstId, customerId, address, now);
    var rIds := Restaurants(lines);
    if n == 0 {
      assert orders[..n] == [] && rIds[..n] == [];
    } else {
      PrefixTotals(lines, firstId, customerId, address, now, n - 1);
      PrefixTotalsStep(orders, lines, rIds, n);
    }
  }

  /** The step of `PrefixTotals`: one more order whose total is its group's subtotal. */
  lemma PrefixTotalsStep(orders: seq<Order>, lines: seq<Line>, rIds: seq<Id>, n: nat)
    requires 0 < n <= |orders| && n <= |rIds|
    requires SumOfTotals(orders[..n - 1]) == SumOfGroups(lines, rIds[..n - 1])
    requires orders[n - 1].total == Subtotal(ItemsOf(lines, rIds[n - 1]))
    ensures SumOfTotals(orders[..n]) == SumOfGroups(lines, rIds[..n])
  {
    assert orders[..n][..n - 1] == orders[..n - 1];
    assert rIds[..n][..n - 1] == rIds[..n - 1];
  }

  /** The orders follow the restaurants one for one. */
  lemma OrderRestaurants(lines: seq<Line>, firstId: Id, customerId: Id, address: Json, now: nat)
    ensures var orders := CheckoutOrders(lines, firstId, customerId, address, now);
      && |orders| == |Restaurants(lines)|
      && forall t :: 0 <= t < |orders| ==> orders[t].restaurantId == Restaurants(lines)[t]
  {
  }

  /**
   * Checkout creates exactly one order per restaurant of the cart: every
   * line's restaurant has an order, and no restaurant has two.
   */
  lemma OneOrderPerRestaurant(lines: seq<Line>, firstId: Id, customerId: Id, address: Json, now: nat)
    ensures var orders := CheckoutOrders(lines, firstId, customerId, address, now);
      && (forall l :: l in lines ==> exists t :: 0 <= t < |orders| && orders[t].restaurantId == RestaurantOf(l))
      && (forall t, u :: 0 <= t < u < |orders| ==> orders[t].restaurantId != orders[u].restaurantId)
  {
    var orders := CheckoutOrders(lines, firstId, customerId, address, now);
    var rIds := Restaurants(lines);
    RestaurantsListed(lines);
    OrderRestaurants(lines, firstId, customerId, address, now);
    forall l | l in lines ensures exists t :: 0 <= t < |orders| && orders[t].restaurantId == RestaurantOf(l) {
      var t :| 0 <= t < |rIds| && rIds[t] == RestaurantOf(l);
      assert orders[t].restaurantId == RestaurantOf(l);
    }
  }

  /**
   * Each order checkout creates has the next consecutive id, is the
   * caller's, starts in the initial status and holds its restaurant's group.
   */
  lemma OrdersCarryTheirGroups(lines: seq<Line>, firstId: Id, customerId: Id, address: Json, now: nat)
    ensures var orders := CheckoutOrders(lines, firstId, customerId, address, now);
      forall t :: 0 <= t < |orders| ==>
        && orders[t].id == firstId + t
        && orders[t].customerId == customerId
        && orders[t].status == InitialStatus
        && orders[t].items == OrderItemsOf(ItemsOf(lines, orders[t].restaurantId))
  {
  }

  /** Every order checkout creates has at least one line, and its total is the sum of its own lines' price times quantity. */
  lemma OrderTotalsMatchItems(lines: seq<Line>, firstId: Id, customerId: Id, address: Json, now: nat)
    ensures var orders := CheckoutOrders(lines, firstId, customerId, address, now);
      forall t :: 0 <= t < |orders| ==> orders[t].items != [] && orders[t].total == ItemsTotal(orders[t].items)
  {
    var orders := CheckoutOrders(lines, firstId, customerId, address, now);
    var rIds := Restaurants(lines);
    RestaurantsHaveLines(lines);
    forall t | 0 <= t < |orders|
      ensures orders[t].items != [] && orders[t].total == ItemsTotal(orders[t].items)
    {
      var g := ItemsOf(lines, rIds[t]);
      OrderItemsMatchGroup(g);
      assert rIds[t] in rIds;
      var l :| l in lines && RestaurantOf(l) == rIds[t];
      ItemsOfMembers(lines, rIds[t]);
      assert l in g;
    }
  }

  /** The created orders' totals add up to the total of the whole cart. */
  lemma OrderTotalsSumToCartTotal(lines: seq<Line>, firstId: Id, customerId: Id, address: Json, now: nat)
    ensures SumOfTotals(CheckoutOrders(lines, firstId, customerId, address, now)) == Subtotal(lines)
  {
    var orders := CheckoutOrders(lines, firstId, customerId, address, now);
    var rIds := Restaurants(lines);
    PrefixTotals(lines, firstId, customerId, address, now, |orders|);
    assert orders[..|orders|] == orders;
    assert rIds[..|rIds|] == rIds;
    GroupTotalsSumToCartTotal(lines);
  }

  /** The groups of a cart prefix, keyed by its restaurants in order of first appearance. */
  ghost predicate GroupsOf(prefix: seq<Line>, rIds: seq<Id>, grouped: map<Id, seq<Line>>) {
    && rIds == Restaurants(prefix)
    && (forall r :: r in grouped <==> r in rIds)
    && (forall r :: r in grouped ==> grouped[r] == ItemsOf(prefix, r))
  }

  /**
   * One step of the grouping loop: creating the line's group when it is
   * missing and appending the line to it gives the groups of the longer
   * prefix.
   */
  lemma GroupStep(lines: seq<Line>, i: nat, rIds: seq<Id>, grouped: map<Id, seq<Line>>)
    requires i < |lines|
    requires GroupsOf(lines[..i], rIds, grouped)
    ensures var rId := RestaurantOf(lines[i]);
      GroupsOf(lines[..i + 1],
               if rId in grouped then rIds else rIds + [rId],
               grouped[rId := (if rId in grouped then grouped[rId] else []) + [lines[i]]])
  {
    var prefix, line := lines[..i], lines[i];
    var rId := RestaurantOf(line);
    assert lines[..i + 1] == prefix + [line];
    assert (prefix + [line])[..|prefix|] == prefix;
    if rId !in grouped {
      AbsentRestaurantHasNoItems(prefix, rId);
    }
    var grouped' := grouped[rId := (if rId in grouped then grouped[rId] else []) + [line]];
    forall r | r in grouped' ensures grouped'[r] == ItemsOf(prefix + [line], r) {
      ItemsOfAppend(prefix, line, r);
    }
  }

  /**
   * The grouping loop: one pass over the cart lines filling a dictionary
   * from restaurant id to the lines of that restaurant, its keys kept in
   * insertion order.
   */
  method GroupByRestaurant(lines: seq<Line>) returns (rIds: seq<Id>, grouped: map<Id, seq<Line>>)
    ensures rIds == Restaurants(lines)
    ensures forall r :: r in grouped <==> r in rIds
    ensures forall r :: r in grouped ==> grouped[r] == ItemsOf(lines, r)
  {
    rIds, grouped := [], map[];
    for i := 0 to |lines|
      invariant GroupsOf(lines[..i], rIds, grouped)
    {
      var line := lines[i];
      var rId := RestaurantOf(line);
      GroupStep(lines, i, rIds, grouped);
      if rId !in grouped {
        grouped := grouped[rId := []];
        rIds := rIds + [rId];
      }
      grouped := grouped[rId := grouped[rId] + [line]];
    }
    assert lines[..|lines|] == lines;
  }

}
