/**
 * The cart handlers: each customer has at most one cart, created on the
 * first add, holding at most one row per menu item (the unique key
 * `cartId_menuItemId`).
 */
module CartController {
  import opened Common
  import opened Store

  /** `quantity || 1`: an absent or zero quantity counts as 1; every other value, negative ones too, is kept. */
  function QuantityOr1(quantity: Option<int>): (q: int)
    ensures q != 0
    ensures quantity.Some? && quantity.value != 0 ==> q == quantity.value
    ensures quantity.None? || quantity.value == 0 ==> q == 1
  {
    if quantity.Some? && quantity.value != 0 then quantity.value else 1
  }

  /** The quantity of `key` in `table`, zero when there is no such row. */
  function QuantityIn(table: map<CartKey, int>, key: CartKey): int {
    if key in table then table[key] else 0
  }

  /**
   * The cart-item table after adding `q` of a menu item: an existing row
   * is incremented, otherwise a row is created. Adding never duplicates a
   * row: the keys grow by at most `key`, the row of `key` grows by `q`,
   * and no other row changes.
   */
  function Added(table: map<CartKey, int>, key: CartKey, q: int): (added: map<CartKey, int>)
    ensures added.Keys == table.Keys + {key}
    ensures QuantityIn(added, key) == QuantityIn(table, key) + q
    ensures forall k :: k in table && k != key ==> added[k] == table[k]
  {
    if key in table then table[key := table[key] + q] else table[key := q]
  }

  /** The table after a series of `addToCart` calls for one menu item with the given request quantities. */
  function AddedAll(table: map<CartKey, int>, key: CartKey, quantities: seq<Option<int>>): map<CartKey, int>
    decreases |quantities|
  {
    if quantities == [] then table
    else Added(AddedAll(table, key, quantities[..|quantities| - 1]), key, QuantityOr1(quantities[|quantities| - 1]))
  }

  /** The sum of the quantities a series of adds contributes (`quantity || 1` each). */
  function SumOfRequests(quantities: seq<Option<int>>): int
    decreases |quantities|
  {
    if quantities == [] then 0
    else SumOfRequests(quantities[..|quantities| - 1]) + QuantityOr1(quantities[|quantities| - 1])
  }

  /**
   * Repeated adds of one menu item accumulate: the row's quantity is the
   * sum of the requested quantities (1 for each omitted one), and every
   * other row is untouched.
   */
  lemma {:induction false} AddsAccumulate(table: map<CartKey, int>, key: CartKey, quantities: seq<Option<int>>)
    ensures QuantityIn(AddedAll(table, key, quantities), key) == QuantityIn(table, key) + SumOfRequests(quantities)
    ensures forall k :: k in table && k != key ==>
      k in AddedAll(table, key, quantities) && AddedAll(table, key, quantities)[k] == table[k]
    ensures AddedAll(table, key, quantities).Keys <= table.Keys + {key}
    decreases |quantities|
  {
    if quantities != [] {
      var init := quantities[..|quantities| - 1];
      AddsAccumulate(table, key, init);
    }
  }

  /** Removing a row that an add created restores the table. */
  lemma RemoveUndoesAdd(table: map<CartKey, int>, key: CartKey, q: int)
    requires key !in table
    ensures Added(table, key, q) - {key} == table
  {
  }

  /** Clearing a cart twice is clearing it once. */
  lemma ClearedIdempotent(table: map<CartKey, int>, cartId: Id)
    ensures Cleared(Cleared(table, cartId), cartId) == Cleared(table, cartId)
  {
  }

  /** The rows of cart `cartId`. */
  function CartRows(table: map<CartKey, int>, cartId: Id): map<CartKey, int> {
    map k | k in table && k.cartId == cartId :: table[k]
  }

  /**
   * Since no two users share a cart, what one user's add, remove, update
   * or delete does to the cart-item table leaves every other user's cart
   * rows as they were.
   */
  lemma OtherCartsUntouched(table: map<CartKey, int>, carts: map<Id, Id>, u: Id, v: Id, m: Id, q: int)
    requires CartIdsDistinct(carts)
    requires u in carts && v in carts && u != v
    ensures var key, other := CartKey(carts[u], m), carts[v];
      && CartRows(Added(table, key, q), other) == CartRows(table, other)
      && CartRows(table - {key}, other) == CartRows(table, other)
      && CartRows(table[key := q], other) == CartRows(table, other)
      && CartRows(Cleared(table, carts[u]), other) == CartRows(table, other)
  {
  }

  /** A cart row joined with its menu item (`include: { menuItem: true }`); `None` where the menu item is gone. */
  datatype CartLine = CartLine(menuItemId: Id, quantity: int, menuItem: Option<MenuItem>)

  /** The cart entries joined with the menu table. */
  function JoinMenu(entries: seq<CartEntry>, menu: map<Id, MenuItem>): (lines: seq<CartLine>)
    ensures |lines| == |entries|
    ensures forall i :: 0 <= i < |entries| ==>
      lines[i].menuItemId == entries[i].menuItemId && lines[i].quantity == entries[i].quantity
      && (lines[i].menuItem.Some? <==> entries[i].menuItemId in menu)
      && (lines[i].menuItem.Some? ==> lines[i].menuItem.value == menu[entries[i].menuItemId])
  {
    seq(|entries|, i requires 0 <= i < |entries| =>
      var e := entries[i];
      CartLine(e.menuItemId, e.quantity, if e.menuItemId in menu then Some(menu[e.menuItemId]) else None))
  }

  /** `addToCart`: find or create the caller's cart, then increment or create the row for the menu item. */
  method AddToCart(db: Db, caller: Option<User>, menuItemId: Option<Id>, quantity: Option<int>) returns (r: Result<CartItem>)
    requires db.Valid()
    modifies db
    ensures db.Valid()
    ensures caller.None? ==> r == Err(Unauthorized) && unchanged(db)
    ensures caller.Some? && menuItemId.None? ==> r == Err(BadRequest) && unchanged(db)
    ensures caller.Some? && menuItemId.Some? ==>
      var u, m := caller.value.id, menuItemId.value;
      && u in db.carts
      && (u in old(db.carts) ==> db.carts == old(db.carts) && db.nextId == old(db.nextId))
      && (u !in old(db.carts) ==> db.carts == old(db.carts)[u := old(db.nextId)] && db.nextId == old(db.nextId) + 1)
      && db.cartItems == Added(old(db.cartItems), CartKey(db.carts[u], m), QuantityOr1(quantity))
      && r == Ok(CartItem(db.carts[u], m, db.cartItems[CartKey(db.carts[u], m)]))
      && (u !in old(db.carts) ==> r.value.quantity == QuantityOr1(quantity))
      && db.restaurants == old(db.restaurants) && db.menuItems == old(db.menuItems) && db.orders == old(db.orders)
  {
    if caller.None? { return Err(Unauthorized); }
    if menuItemId.None? { return Err(BadRequest); }
    var u, m := caller.value.id, menuItemId.value;
    var cartId: Id;
    if u in db.carts {
      cartId := db.carts[u];
    } else {
      cartId := db.FreshId();
      db.carts := db.carts[u := cartId];
    }
    var key := CartKey(cartId, m);
    if key in db.cartItems {
      db.cartItems := db.cartItems[key := db.cartItems[key] + QuantityOr1(quantity)];
    } else {
      db.cartItems := db.cartItems[key := QuantityOr1(quantity)];
    }
    r := Ok(CartItem(cartId, m, db.cartItems[key]));
  }

  /** `removeFromCart`: delete the caller's row for one menu item. */
  method RemoveFromCart(db: Db, caller: Option<User>, menuItemId: Option<Id>) returns (r: Result<()>)
    requires db.Valid()
    modifies db
    ensures db.Valid()
    ensures r.Err? ==> unchanged(db)
    ensures caller.None? ==> r == Err(Unauthorized)
    ensures caller.Some? && menuItemId.None? ==> r == Err(BadRequest)
    ensures caller.Some? && menuItemId.Some? ==>
      var u, m := caller.value.id, menuItemId.value;
      && (u !in old(db.carts) ==> r == Err(NotFound))
      && (u in old(db.carts) && CartKey(old(db.carts)[u], m) !in old(db.cartItems) ==> r == Err(NotFound))
      && (u in old(db.carts) && CartKey(old(db.carts)[u], m) in old(db.cartItems) ==>
            r == Ok(())
            && db.cartItems == old(db.cartItems) - {CartKey(old(db.carts)[u], m)}
            && db.carts == old(db.carts) && db.nextId == old(db.nextId)
            && db.restaurants == old(db.restaurants) && db.menuItems == old(db.menuItems) && db.orders == old(db.orders))
  {
    if caller.None? { return Err(Unauthorized); }
    if menuItemId.None? { return Err(BadRequest); }
    var u, m := caller.value.id, menuItemId.value;
    if u !in db.carts { return Err(NotFound); }
    var key := CartKey(db.carts[u], m);
    if key !in db.cartItems { return Err(NotFound); }
    db.cartItems := db.cartItems - {key};
    r := Ok(());
  }

  /** `deleteCart`: delete every row of the caller's cart, then the cart itself. */
  method DeleteCart(db: Db, caller: Option<User>) returns (r: Result<()>)
    requires db.Valid()
    modifies db
    ensures db.Valid()
    ensures r.Err? ==> unchanged(db)
    ensures caller.None? ==> r == Err(Unauthorized)
    ensures caller.Some? && caller.value.id !in old(db.carts) ==> r == Err(NotFound)
    ensures caller.Some? && caller.value.id in old(db.carts) ==>
      var u := caller.value.id;
      && r == Ok(())
      && db.cartItems == Cleared(old(db.cartItems), old(db.carts)[u])
      && db.carts == old(db.carts) - {u}
      && db.nextId == old(db.nextId)
      && db.restaurants == old(db.restaurants) && db.menuItems == old(db.menuItems) && db.orders == old(db.orders)
  {
    if caller.None? { return Err(Unauthorized); }
    var u := caller.value.id;
    if u !in db.carts { return Err(NotFound); }
    var cartId := db.carts[u];
    db.cartItems := Cleared(db.cartItems, cartId);
    db.carts := db.carts - {u};
    r := Ok(());
  }

  /** `getCart`: the caller's cart rows with their menu items; no cart reads as an empty list, not an error. */
  method GetCart(db: Db, caller: Option<User>) returns (r: Result<seq<CartLine>>)
    ensures caller.None? ==> r == Err(Unauthorized)
    ensures caller.Some? && caller.value.id !in db.carts ==> r == Ok([])
    ensures caller.Some? && caller.value.id in db.carts ==>
      r.Ok? && exists entries :: ListsCart(entries, db.cartItems, db.carts[caller.value.id])
                                 && r.value == JoinMenu(entries, db.menuItems)
  {
    if caller.None? { return Err(Unauthorized); }
    var u := caller.value.id;
    if u !in db.carts { return Ok([]); }
    var entries := db.CartEntries(db.carts[u]);
    r := Ok(JoinMenu(entries, db.menuItems));
  }

  /** `updateCartItem`: validate the quantity first, then set (not add to) the row's quantity. */
  method UpdateCartItem(db: Db, caller: Option<User>, menuItemId: Option<Id>, quantity: Option<int>) returns (r: Result<CartItem>)
    requires db.Valid()
    modifies db
    ensures db.Valid()
    ensures r.Err? ==> unchanged(db)
    ensures caller.None? ==> r == Err(Unauthorized)
    ensures caller.Some? && menuItemId.None? ==> r == Err(BadRequest)
    ensures caller.Some? && menuItemId.Some? && (quantity.None? || quantity.value < 1) ==> r == Err(BadRequest)
    ensures caller.Some? && menuItemId.Some? && quantity.Some? && quantity.value >= 1 ==>
      var u, m, q := caller.value.id, menuItemId.value, quantity.value;
      && (u !in old(db.carts) ==> r == Err(NotFound))
      && (u in old(db.carts) && CartKey(old(db.carts)[u], m) !in old(db.cartItems) ==> r == Err(NotFound))
      && (u in old(db.carts) && CartKey(old(db.carts)[u], m) in old(db.cartItems) ==>
            r == Ok(CartItem(old(db.carts)[u], m, q))
            && db.cartItems == old(db.cartItems)[CartKey(old(db.carts)[u], m) := q]
            && db.carts == old(db.carts) && db.nextId == old(db.nextId)
            && db.restaurants == old(db.restaurants) && db.menuItems == old(db.menuItems) && db.orders == old(db.orders))
  {
    if caller.None? { return Err(Unauthorized); }
    if menuItemId.None? { return Err(BadRequest); }
    if quantity.None? || quantity.value < 1 { return Err(BadRequest); }
    var u, m, q := caller.value.id, menuItemId.value, quantity.value;
    if u !in db.carts { return Err(NotFound); }
    var key := CartKey(db.carts[u], m);
    if key !in db.cartItems { return Err(NotFound); }
    db.cartItems := db.cartItems[key := q];
    r := Ok(CartItem(key.cartId, m, q));
  }
}
