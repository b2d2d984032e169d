/**
 * The menu handlers: restaurant owners add, update and delete the items
 * of their restaurants; anyone lists a restaurant's menu.
 */
module MenuController {
  import opened Common
  import opened Store

  /**
   * The request body of add and update; `None` stands for a field that is
   * undefined or null.
   */
  datatype MenuFields = MenuFields(
    name: Option<string>,
    description: Option<string>,
    price: Option<int>,
    imageUrl: Option<string>,
    isAvailable: Option<bool>)

  /** A menu-item row with its key, as a handler returns it. */
  datatype MenuRow = MenuRow(id: Id, item: MenuItem)

  /** The item `create` stores: description and image default to null, availability to true, the restaurant from the path. */
  function NewMenuItem(body: MenuFields, restaurantId: Id): (item: MenuItem)
    requires body.name.Some? && body.price.Some?
    ensures item.name == body.name.value && item.price == body.price.value
    ensures body.description.None? ==> item.description.None?
    ensures body.imageUrl.None? ==> item.imageUrl.None?
    ensures body.isAvailable.None? ==> item.isAvailable
    ensures item.restaurantId == restaurantId
  {
    MenuItem(body.name.value, body.description, body.price.value, body.imageUrl,
             body.isAvailable.GetOr(true), restaurantId)
  }

  /** The item after `update`: each field takes the supplied value, or keeps the old one; the restaurant never changes. */
  function Merge(item: MenuItem, patch: MenuFields): (merged: MenuItem)
    ensures merged.restaurantId == item.restaurantId
  {
    MenuItem(
      patch.name.GetOr(item.name),
      if patch.description.Some? then patch.description else item.description,
      patch.price.GetOr(item.price),
      if patch.imageUrl.Some? then patch.imageUrl else item.imageUrl,
      patch.isAvailable.GetOr(item.isAvailable),
      item.restaurantId)
  }

  /** The body that supplies nothing. */
  const NoFields := MenuFields(None, None, None, None, None)

  /** The fields of `second`, falling back to those of `first`. */
  function Overlay(first: MenuFields, second: MenuFields): MenuFields {
    MenuFields(
      if second.name.Some? then second.name else first.name,
      if second.description.Some? then second.description else first.description,
      if second.price.Some? then second.price else first.price,
      if second.imageUrl.Some? then second.imageUrl else first.imageUrl,
      if second.isAvailable.Some? then second.isAvailable else first.isAvailable)
  }

  /**
   * The merge field by field: a supplied field replaces the old value, an
   * omitted one keeps it.
   */
  lemma MergeFields(item: MenuItem, patch: MenuFields)
    ensures patch.name.Some? ==> Merge(item, patch).name == patch.name.value
    ensures patch.name.None? ==> Merge(item, patch).name == item.name
    ensures patch.description.Some? ==> Merge(item, patch).description == patch.description
    ensures patch.description.None? ==> Merge(item, patch).description == item.description
    ensures patch.price.Some? ==> Merge(item, patch).price == patch.price.value
    ensures patch.price.None? ==> Merge(item, patch).price == item.price
    ensures patch.imageUrl.Some? ==> Merge(item, patch).imageUrl == patch.imageUrl
    ensures patch.imageUrl.None? ==> Merge(item, patch).imageUrl == item.imageUrl
    ensures patch.isAvailable.Some? ==> Merge(item, patch).isAvailable == patch.isAvailable.value
    ensures patch.isAvailable.None? ==> Merge(item, patch).isAvailable == item.isAvailable
  {
  }

  /** An update that supplies nothing leaves the item as it was; repeating an update changes nothing more. */
  lemma MergeIdentityAndIdempotent(item: MenuItem, patch: MenuFields)
    ensures Merge(item, NoFields) == item
    ensures Merge(Merge(item, patch), patch) == Merge(item, patch)
  {
  }

  /** Two updates in a row are one update with the second body laid over the first. */
  lemma MergeTwice(item: MenuItem, first: MenuFields, second: MenuFields)
    ensures Merge(Merge(item, first), second) == Merge(item, Overlay(first, second))
  {
  }

  /**
   * Creating is merging the body onto the default item of the restaurant
   * (no description or image, available).
   */
  lemma NewMenuItemIsMergedDefaults(body: MenuFields, restaurantId: Id)
    requires body.name.Some? && body.price.Some?
    ensures NewMenuItem(body, restaurantId) == Merge(MenuItem("", None, 0, None, true, restaurantId), body)
  {
  }

  /** The menu of restaurant `restaurantId` (`findMany({ where: { restaurantId } })`). */
  function MenuOf(menu: map<Id, MenuItem>, restaurantId: Id): (items: map<Id, MenuItem>)
    ensures items.Keys <= menu.Keys
    ensures forall k :: k in items ==> items[k] == menu[k] && items[k].restaurantId == restaurantId
  {
    map k | k in menu && menu[k].restaurantId == restaurantId :: menu[k]
  }

  /** Every item is on the menu of its own restaurant and of no other. */
  lemma MenusPartitionItems(menu: map<Id, MenuItem>, k: Id, r: Id)
    requires k in menu
    ensures k in MenuOf(menu, menu[k].restaurantId) && MenuOf(menu, menu[k].restaurantId)[k] == menu[k]
    ensures r != menu[k].restaurantId ==> k !in MenuOf(menu, r)
  {
  }

  /** A new item joins the menu of its restaurant only. */
  lemma AddedItemOnItsMenu(menu: map<Id, MenuItem>, id: Id, item: MenuItem, r: Id)
    requires id !in menu
    ensures r == item.restaurantId ==> MenuOf(menu[id := item], r) == MenuOf(menu, r)[id := item]
    ensures r != item.restaurantId ==> MenuOf(menu[id := item], r) == MenuOf(menu, r)
  {
  }

  /** An update keeps every item on the same menu: no menu gains or loses an item. */
  lemma UpdateKeepsMenus(menu: map<Id, MenuItem>, id: Id, patch: MenuFields, r: Id)
    requires id in menu
    ensures MenuOf(menu[id := Merge(menu[id], patch)], r).Keys == MenuOf(menu, r).Keys
  {
  }

  /** A delete takes the item off its menu and no other item off any menu. */
  lemma DeleteLeavesOthers(menu: map<Id, MenuItem>, id: Id, r: Id)
    ensures MenuOf(menu - {id}, r) == MenuOf(menu, r) - {id}
  {
  }

  /** `restaurant.ownerId !== req.user?.id` is false: there is a caller and it owns the restaurant. */
  function Owns(caller: Option<User>, restaurant: Restaurant): (owns: bool)
    ensures caller.None? ==> !owns
    ensures owns ==> caller.value.id == restaurant.ownerId
  {
    caller.Some? && caller.value.id == restaurant.ownerId
  }

  /** `rows` lists `menu` exactly: each row is an entry of it, no key twice, and every key is listed. */
  ghost predicate ListsMenu(rows: seq<MenuRow>, menu: map<Id, MenuItem>) {
    && (forall i :: 0 <= i < |rows| ==> rows[i].id in menu && menu[rows[i].id] == rows[i].item)
    && (forall i, j :: 0 <= i < j < |rows| ==> rows[i].id != rows[j].id)
    && (forall k :: k in menu ==> exists i :: 0 <= i < |rows| && rows[i].id == k)
  }

  /** A listing of a restaurant's menu names only that restaurant's items. */
  lemma ListedItemsBelong(rows: seq<MenuRow>, menu: map<Id, MenuItem>, restaurantId: Id)
    requires ListsMenu(rows, MenuOf(menu, restaurantId))
    ensures forall i :: 0 <= i < |rows| ==> rows[i].item.restaurantId == restaurantId && rows[i].id in menu
    ensures |rows| == |MenuOf(menu, restaurantId).Keys|
  {
    var keys := set i | 0 <= i < |rows| :: rows[i].id;
    assert keys == MenuOf(menu, restaurantId).Keys by {
      forall k | k in MenuOf(menu, restaurantId) ensures k in keys {
        var i :| 0 <= i < |rows| && rows[i].id == k;
      }
    }
    DistinctIdsCount(rows);
  }

  /** Rows with distinct ids have as many ids as rows. */
  lemma {:induction false} DistinctIdsCount(rows: seq<MenuRow>)
    requires forall i, j :: 0 <= i < j < |rows| ==> rows[i].id != rows[j].id
    ensures |set i | 0 <= i < |rows| :: rows[i].id| == |rows|
    decreases |rows|
  {
    if rows != [] {
      var init := rows[..|rows| - 1];
      DistinctIdsCount(init);
      var last := rows[|rows| - 1].id;
      var ids := set i | 0 <= i < |init| :: init[i].id;
      assert (set i | 0 <= i < |rows| :: rows[i].id) == ids + {last} by {
        forall k | k in ids ensures k in (set i | 0 <= i < |rows| :: rows[i].id) {
          var i :| 0 <= i < |init| && init[i].id == k;
          assert rows[i].id == k;
        }
      }
      assert last !in ids;
    }
  }

  /**
   * `addMenuItem`: the checks run in this order (missing restaurant id,
   * unknown restaurant, caller not the owner, missing or empty name,
   * undefined price); only when all pass is one item created, under a
   * fresh id.
   */
  method AddMenuItem(db: Db, caller: Option<User>, restaurantId: Option<Id>, body: MenuFields) returns (r: Result<MenuRow>)
    requires db.Valid()
    modifies db
    ensures db.Valid()
    ensures r.Err? ==> unchanged(db)
    ensures restaurantId.None? ==> r == Err(BadRequest)
    ensures restaurantId.Some? ==>
      var rId := restaurantId.value;
      && (rId !in old(db.restaurants) ==> r == Err(NotFound))
      && (rId in old(db.restaurants) && !Owns(caller, old(db.restaurants)[rId]) ==> r == Err(Forbidden))
      && (rId in old(db.restaurants) && Owns(caller, old(db.restaurants)[rId]) ==>
            && ((body.name.None? || body.name.value == "" || body.price.None?) <==> r == Err(BadRequest))
            && (body.name.Some? && body.name.value != "" && body.price.Some? ==> r.Ok?)
            && (r.Ok? ==>
                  && body.name.Some? && body.price.Some?
                  && r.value == MenuRow(old(db.nextId), NewMenuItem(body, rId))
                  && r.value.id !in old(db.menuItems)
                  && db.menuItems == old(db.menuItems)[r.value.id := r.value.item]
                  && db.nextId == old(db.nextId) + 1
                  && db.restaurants == old(db.restaurants) && db.carts == old(db.carts)
                  && db.cartItems == old(db.cartItems) && db.orders == old(db.orders)))
  {
    if restaurantId.None? { return Err(BadRequest); }
    var rId := restaurantId.value;
    if rId !in db.restaurants { return Err(NotFound); }
    if !Owns(caller, db.restaurants[rId]) { return Err(Forbidden); }
    if body.name.None? || body.name.value == "" { return Err(BadRequest); }
    if body.price.None? { return Err(BadRequest); }
    var item := NewMenuItem(body, rId);
    var id := db.FreshId();
    db.menuItems := db.menuItems[id := item];
    r := Ok(MenuRow(id, item));
  }

  /** `getMenuItems`: exactly the items of the given restaurant, in no particular order. */
  method GetMenuItems(db: Db, restaurantId: Option<Id>) returns (r: Result<seq<MenuRow>>)
    ensures restaurantId.None? ==> r == Err(BadRequest)
    ensures restaurantId.Some? ==> r.Ok? && ListsMenu(r.value, MenuOf(db.menuItems, restaurantId.value))
  {
    if restaurantId.None? { return Err(BadRequest); }
    var rId := restaurantId.value;
    var menu := MenuOf(db.menuItems, rId);
    var pending := menu.Keys;
    var rows: seq<MenuRow> := [];
    while pending != {}
      invariant pending <= menu.Keys
      invariant forall i :: 0 <= i < |rows| ==>
        rows[i].id in menu && menu[rows[i].id] == rows[i].item && rows[i].id !in pending
      invariant forall i, j :: 0 <= i < j < |rows| ==> rows[i].id != rows[j].id
      invariant forall k :: k in menu && k !in pending ==> exists i :: 0 <= i < |rows| && rows[i].id == k
      decreases pending
    {
      var k :| k in pending;
      ghost var before := rows;
      rows := rows + [MenuRow(k, menu[k])];
      pending := pending - {k};
      forall k' | k' in menu && k' !in pending
        ensures exists i :: 0 <= i < |rows| && rows[i].id == k'
      {
        if k' == k {
          assert rows[|rows| - 1].id == k';
        } else {
          var i :| 0 <= i < |before| && before[i].id == k';
          assert rows[i] == before[i];
        }
      }
    }
    r := Ok(rows);
  }

  /**
   * `updateMenuItem`: unknown item 404, item whose restaurant is gone 404,
   * caller not the owner 403; otherwise the item is merged with the body
   * and nothing else changes.
   */
  method UpdateMenuItem(db: Db, caller: Option<User>, id: Option<Id>, body: MenuFields) returns (r: Result<MenuRow>)
    requires db.Valid()
    modifies db
    ensures db.Valid()
    ensures r.Err? ==> unchanged(db)
    ensures id.None? ==> r == Err(BadRequest)
    ensures id.Some? ==>
      var m := id.value;
      && (m !in old(db.menuItems) ==> r == Err(NotFound))
      && (m in old(db.menuItems) ==>
            var rId := old(db.menuItems)[m].restaurantId;
            && (rId !in old(db.restaurants) ==> r == Err(NotFound))
            && (rId in old(db.restaurants) && !Owns(caller, old(db.restaurants)[rId]) ==> r == Err(Forbidden))
            && (rId in old(db.restaurants) && Owns(caller, old(db.restaurants)[rId]) ==>
                  && r == Ok(MenuRow(m, Merge(old(db.menuItems)[m], body)))
                  && db.menuItems == old(db.menuItems)[m := r.value.item]
                  && db.nextId == old(db.nextId)
                  && db.restaurants == old(db.restaurants) && db.carts == old(db.carts)
                  && db.cartItems == old(db.cartItems) && db.orders == old(db.orders)))
  {
    if id.None? { return Err(BadRequest); }
    var m := id.value;
    if m !in db.menuItems { return Err(NotFound); }
    var item := db.menuItems[m];
    if item.restaurantId !in db.restaurants { return Err(NotFound); }
    if !Owns(caller, db.restaurants[item.restaurantId]) { return Err(Forbidden); }
    var updated := Merge(item, body);
    db.menuItems := db.menuItems[m := updated];
    r := Ok(MenuRow(m, updated));
  }

  /**
   * `deleteMenuItem`: the same checks as update; otherwise exactly that
   * item is removed.
   */
  method DeleteMenuItem(db: Db, caller: Option<User>, id: Option<Id>) returns (r: Result<()>)
    requires db.Valid()
    modifies db
    ensures db.Valid()
    ensures r.Err? ==> unchanged(db)
    ensures id.None? ==> r == Err(BadRequest)
    ensures id.Some? ==>
      var m := id.value;
      && (m !in old(db.menuItems) ==> r == Err(NotFound))
      && (m in old(db.menuItems) ==>
            var rId := old(db.menuItems)[m].restaurantId;
            && (rId !in old(db.restaurants) ==> r == Err(NotFound))
            && (rId in old(db.restaurants) && !Owns(caller, old(db.restaurants)[rId]) ==> r == Err(Forbidden))
            && (rId in old(db.restaurants) && Owns(caller, old(db.restaurants)[rId]) ==>
                  && r == Ok(())
                  && db.menuItems == old(db.menuItems) - {m}
                  && db.nextId == old(db.nextId)
                  && db.restaurants == old(db.restaurants) && db.carts == old(db.carts)
                  && db.cartItems == old(db.cartItems) && db.orders == old(db.orders)))
  {
    if id.None? { return Err(BadRequest); }
    var m := id.value;
    if m !in db.menuItems { return Err(NotFound); }
    var rId := db.menuItems[m].restaurantId;
    if rId !in db.restaurants { return Err(NotFound); }
    if !Owns(caller, db.restaurants[rId]) { return Err(Forbidden); }
    db.menuItems := db.menuItems - {m};
    r := Ok(());
  }
}
