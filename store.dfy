/**
 * The relational store the controllers share, as in-memory tables.
 * Each table is a map keyed by the row's unique key; `include` joins
 * become lookups in the other tables.
 */
module Store {
  import opened Common

  datatype Restaurant = Restaurant(ownerId: Id)

  /** A menu item row; `None` stands for a database null. Prices are integer minor units. */
  datatype MenuItem = MenuItem(
    name: string,
    description: Option<string>,
    price: int,
    imageUrl: Option<string>,
    isAvailable: bool,
    restaurantId: Id)

  /** The compound unique key `cartId_menuItemId` of the cart-item table. */
  datatype CartKey = CartKey(cartId: Id, menuItemId: Id)

  /** A cart-item row as a handler returns it. */
  datatype CartItem = CartItem(cartId: Id, menuItemId: Id, quantity: int)

  /** A cart-item row as listed under its cart (`cart.items`). */
  datatype CartEntry = CartEntry(menuItemId: Id, quantity: int)

  /** An order line: a copy of the menu item's name and price taken at checkout. */
  datatype OrderItem = OrderItem(menuItemId: Id, name: string, price: int, quantity: int)

  datatype Order = Order(
    id: Id,
    customerId: Id,
    restaurantId: Id,
    total: int,
    addressSnapshot: Json,
    status: string,
    createdAt: nat,
    items: seq<OrderItem>)

  /** The status every new order starts in. */
  const InitialStatus: string := "PENDING"

  /**
   * `entries` lists the cart `cartId` of the cart-item table `table`:
   * every listed entry is a row of that cart with its quantity, no menu
   * item is listed twice, and every row of the cart is listed.
   */
  ghost predicate ListsCart(entries: seq<CartEntry>, table: map<CartKey, int>, cartId: Id) {
    && (forall i :: 0 <= i < |entries| ==>
          CartKey(cartId, entries[i].menuItemId) in table
          && table[CartKey(cartId, entries[i].menuItemId)] == entries[i].quantity)
    && (forall i, j :: 0 <= i < j < |entries| ==> entries[i].menuItemId != entries[j].menuItemId)
    && (forall k :: k in table && k.cartId == cartId ==>
          exists i :: 0 <= i < |entries| && entries[i].menuItemId == k.menuItemId)
  }

  /** True when the cart `cartId` has no rows in `table`. */
  ghost predicate CartIsEmpty(table: map<CartKey, int>, cartId: Id) {
    forall k :: k in table ==> k.cartId != cartId
  }

  /**
   * The cart-item table after `deleteMany({ where: { cartId } })`: that
   * cart has no rows left, and every other cart keeps its rows.
   */
  function Cleared(table: map<CartKey, int>, cartId: Id): (cleared: map<CartKey, int>)
    ensures CartIsEmpty(cleared, cartId)
    ensures cleared.Keys <= table.Keys
    ensures forall k :: k in table && k.cartId != cartId ==> k in cleared && cleared[k] == table[k]
  {
    map k | k in table && k.cartId != cartId :: table[k]
  }

  /** No two users share a cart: `cart.id` is the cart table's primary key. */
  ghost predicate CartIdsDistinct(carts: map<Id, Id>) {
    forall u, v :: u in carts && v in carts && u != v ==> carts[u] != carts[v]
  }

  /** The database: one map per table and the id generator. */
  class Db {
    var restaurants: map<Id, Restaurant>
    var menuItems: map<Id, MenuItem>
    /** The cart table, by owner: each user has at most one cart (`userId` is unique). */
    var carts: map<Id, Id>
    /** The cart-item table: the quantity under each (cart, menu item) pair. */
    var cartItems: map<CartKey, int>
    var orders: map<Id, Order>
    /** Every generated id so far is below `nextId`. */
    var nextId: nat

    /**
     * Generated ids are below `nextId`, no two users share a cart, and an
     * order row carries its own key.
     */
    ghost predicate Valid()
      reads this
    {
      && (forall u :: u in carts ==> carts[u] < nextId)
      && CartIdsDistinct(carts)
      && (forall k :: k in cartItems ==> k.cartId < nextId)
      && (forall m :: m in menuItems ==> m < nextId)
      && (forall o :: o in orders ==> o < nextId && orders[o].id == o)
    }

    constructor (restaurants: map<Id, Restaurant>)
      ensures Valid()
      ensures this.restaurants == restaurants
      ensures menuItems == map[] && carts == map[] && cartItems == map[] && orders == map[]
    {
      this.restaurants := restaurants;
      menuItems, carts, cartItems, orders := map[], map[], map[], map[];
      nextId := 0;
    }

    /** A new id, above every cart, cart-item cart, menu-item and order id. */
    method FreshId() returns (id: Id)
      requires Valid()
      modifies this
      ensures Valid()
      ensures id == old(nextId) && nextId == old(nextId) + 1
      ensures restaurants == old(restaurants) && menuItems == old(menuItems)
      ensures carts == old(carts) && cartItems == old(cartItems) && orders == old(orders)
    {
      id := nextId;
      nextId := nextId + 1;
    }

    /** The rows of cart `cartId`, in some order (`include: { items: true }`). */
    method CartEntries(cartId: Id) returns (entries: seq<CartEntry>)
      ensures ListsCart(entries, cartItems, cartId)
      ensures |entries| == 0 <==> CartIsEmpty(cartItems, cartId)
    {
      var pending := set k | k in cartItems && k.cartId == cartId;
      entries := [];
      while pending != {}
        invariant forall k :: k in pending ==> k in cartItems && k.cartId == cartId
        invariant forall i :: 0 <= i < |entries| ==>
          CartKey(cartId, entries[i].menuItemId) in cartItems
          && cartItems[CartKey(cartId, entries[i].menuItemId)] == entries[i].quantity
          && CartKey(cartId, entries[i].menuItemId) !in pending
        invariant forall i, j :: 0 <= i < j < |entries| ==> entries[i].menuItemId != entries[j].menuItemId
        invariant forall k :: k in cartItems && k.cartId == cartId && k !in pending ==>
          exists i :: 0 <= i < |entries| && entries[i].menuItemId == k.menuItemId
        decreases pending
      {
        var k :| k in pending;
        assert k == CartKey(cartId, k.menuItemId);
        ghost var before := entries;
        entries := entries + [CartEntry(k.menuItemId, cartItems[k])];
        pending := pending - {k};
        forall k' | k' in cartItems && k'.cartId == cartId && k' !in pending
          ensures exists i :: 0 <= i < |entries| && entries[i].menuItemId == k'.menuItemId
        {
          if k' == k {
            assert entries[|entries| - 1].menuItemId == k'.menuItemId;
          } else {
            var i :| 0 <= i < |before| && before[i].menuItemId == k'.menuItemId;
            assert entries[i] == before[i];
          }
        }
      }
      if |entries| > 0 {
        assert CartKey(cartId, entries[0].menuItemId) in cartItems;
      }
    }
  }
}
