/**
 * The inventory controller: the requester's stock records, and get, create, update and delete by
 * id. Only the listing is scoped to the requester; the other handlers check no ownership.
 */
module InventoryController {
  import opened Wrappers
  import opened Seqs
  import opened Store
  import opened Http
  import opened InventoryModel

  /** An inventory row with its product joined in as `productDetails`. */
  datatype InventoryView = InventoryView(inventory: Inventory, productDetails: Option<Product>)

  /** The JSON bodies the handlers send. */
  datatype InventoryReply =
    | Rows(rows: seq<InventoryView>)
    | Row(row: InventoryView)
    | Stored(stored: Inventory)
    | Message(message: string)

  /** The `LEFT OUTER JOIN products` of one inventory row. */
  function ViewOf(db: Db, v: Inventory): (r: InventoryView)
    ensures r.inventory == v
    ensures r.productDetails.Some? <==> v.productId in ProductIds(db)
    ensures r.productDetails.Some? ==> r.productDetails.value in db.products && r.productDetails.value.id == v.productId
  {
    match FindProduct(db, v.productId)
    case None => InventoryView(v, None)
    case Some(p) => InventoryView(v, Some(p))
  }

  /** Whether the product an inventory row stocks is sold by `uid`. */
  predicate OwnedBy(db: Db, v: Inventory, uid: Id) {
    match FindProduct(db, v.productId)
    case None => false
    case Some(p) => p.seller == uid
  }

  /**
   * `getAllInventories`: the inner join with products restricted to `seller = uid`, as a bare
   * array. The query has no ORDER BY; the model lists the rows in table order.
   */
  function GetAllInventories(db: Db, uid: Id): (r: Response<InventoryReply>)
    ensures r.status == OK && r.body.Rows?
    ensures |r.body.rows| <= |db.inventories|
    ensures forall i :: 0 <= i < |r.body.rows| ==>
      && r.body.rows[i].inventory in db.inventories
      && r.body.rows[i].productDetails.Some? && r.body.rows[i].productDetails.value.seller == uid
      && r.body.rows[i].productDetails.value.id == r.body.rows[i].inventory.productId
  {
    var own := Filter(db.inventories, (v: Inventory) => OwnedBy(db, v, uid));
    Response(OK, Rows(Map(own, (v: Inventory) => ViewOf(db, v))))
  }

  /** A record is listed for `uid` exactly when its product is sold by `uid`. */
  lemma ListedIffOwned(db: Db, uid: Id, v: Inventory)
    requires v in db.inventories
    ensures (exists i :: 0 <= i < |GetAllInventories(db, uid).body.rows| && GetAllInventories(db, uid).body.rows[i].inventory == v)
            <==> OwnedBy(db, v, uid)
  {
    var own := Filter(db.inventories, (w: Inventory) => OwnedBy(db, w, uid));
    var rows := GetAllInventories(db, uid).body.rows;
    var k :| 0 <= k < |db.inventories| && db.inventories[k] == v;
    if OwnedBy(db, v, uid) {
      var j :| 0 <= j < |own| && own[j] == v;
      assert rows[j].inventory == v;
    }
  }

  /** Two different requesters never see the same record. */
  lemma TenantsDisjoint(db: Db, uid1: Id, uid2: Id, i: nat, j: nat)
    requires uid1 != uid2
    requires i < |GetAllInventories(db, uid1).body.rows| && j < |GetAllInventories(db, uid2).body.rows|
    ensures GetAllInventories(db, uid1).body.rows[i].inventory != GetAllInventories(db, uid2).body.rows[j].inventory
  {
  }

  /** `getInventoryById`, with no ownership check. */
  function GetInventoryById(db: Db, id: Id): (r: Response<InventoryReply>)
    ensures id !in InventoryIds(db) <==> r == Response(NOT_FOUND, Message("Inventory not found"))
    ensures id in InventoryIds(db) ==> r.status == OK
    ensures r.status == OK ==>
      && r.body.Row? && r.body.row.inventory.id == id && r.body.row.inventory in db.inventories
      && r.body.row == ViewOf(db, r.body.row.inventory)
  {
    match FindInventory(db, id)
    case None => Response(NOT_FOUND, Message("Inventory not found"))
    case Some(v) => Response(OK, Row(ViewOf(db, v)))
  }

  /**
   * `createInventory`: 400 when no product has the body's `productId` (which includes a missing
   * or null one); otherwise `Inventory.create`, answering 201 with the stored row or 500 with
   * nothing stored. Who sells the product is not checked.
   */
  function CreateInventoryHandler(db: Db, b: InventoryBody, newId: Id, now: int): (r: (Response<InventoryReply>, Db))
    ensures !(b.productId.Val? && b.productId.value in ProductIds(db)) <==>
              r == (Response(BAD_REQUEST, Message("Invalid productId")), db)
    ensures r.0.status == CREATED <==> Insertable(db, b, newId)
    ensures r.0.status == CREATED ==>
      && r.0.body == Stored(CreateInventory(db, b, newId, now).value)
      && r.1 == InsertInventory(db, r.0.body.stored)
    ensures r.0.status != CREATED ==> r.1 == db
    ensures r.0.status in {CREATED, BAD_REQUEST, SERVER_ERROR}
  {
    if !(b.productId.Val? && b.productId.value in ProductIds(db)) then
      (Response(BAD_REQUEST, Message("Invalid productId")), db)
    else
      match CreateInventory(db, b, newId, now)
      case Err(_) => (Response(SERVER_ERROR, Message("Failed to create inventory")), db)
      case Ok(v) =>
        assert |InsertInventory(db, v).inventories| == |db.inventories| + 1;
        (Response(CREATED, Stored(v)), InsertInventory(db, v))
  }

  lemma CreateInventoryHandlerValid(db: Db, b: InventoryBody, newId: Id, now: int)
    requires Valid(db)
    ensures Valid(CreateInventoryHandler(db, b, newId, now).1)
  {
    if CreateInventory(db, b, newId, now).Ok? {
      CreateInventoryValid(db, b, newId, now);
    }
  }

  /**
   * `updateInventory`: 404 for an unknown id; otherwise the provided counts are written and the
   * row saved, answering 200 with it, or 500 with nothing changed.
   */
  function UpdateInventory(db: Db, id: Id, b: InventoryPatch, now: int): (r: (Response<InventoryReply>, Db))
    ensures id !in InventoryIds(db) ==> r == (Response(NOT_FOUND, Message("Inventory not found")), db)
    ensures id in InventoryIds(db) && !PatchAcceptable(b) ==>
              r == (Response(SERVER_ERROR, Message("Failed to update inventory")), db)
    ensures r.0.status == OK <==> id in InventoryIds(db) && PatchAcceptable(b)
    ensures r.0.status == OK ==>
      var i := Find(db.inventories, InventoryKey, id).value;
      && r.0.body == Stored(PatchInventory(db.inventories[i], b, now).value)
      && r.1 == ReplaceInventory(db, i, r.0.body.stored)
  {
    match Find(db.inventories, InventoryKey, id)
    case None => (Response(NOT_FOUND, Message("Inventory not found")), db)
    case Some(i) =>
      match PatchInventory(db.inventories[i], b, now)
      case Err(_) => (Response(SERVER_ERROR, Message("Failed to update inventory")), db)
      case Ok(w) => (Response(OK, Stored(w)), ReplaceInventory(db, i, w))
  }

  /**
   * A successful update changes only the provided counts of that one record: its key and product
   * stay, and every other record and table is as it was.
   */
  lemma UpdateChangesOnlyCounts(db: Db, id: Id, b: InventoryPatch, now: int)
    requires UpdateInventory(db, id, b, now).0.status == OK
    ensures var r := UpdateInventory(db, id, b, now).1;
      var i := Find(db.inventories, InventoryKey, id).value;
      && r.users == db.users && r.products == db.products && |r.inventories| == |db.inventories|
      && r.inventories[i].id == id && r.inventories[i].productId == db.inventories[i].productId
      && r.inventories[i].quantity == (if b.quantity.Val? then b.quantity.value else db.inventories[i].quantity)
      && r.inventories[i].restockValue ==
           (if b.restockValue.Val? then b.restockValue.value else db.inventories[i].restockValue)
      && (forall j :: 0 <= j < |db.inventories| && j != i ==> r.inventories[j] == db.inventories[j])
  {
  }

  lemma UpdateInventoryValid(db: Db, id: Id, b: InventoryPatch, now: int)
    requires Valid(db)
    ensures Valid(UpdateInventory(db, id, b, now).1)
  {
    var f := Find(db.inventories, InventoryKey, id);
    if f.Some? {
      var c := PatchInventory(db.inventories[f.value], b, now);
      if c.Ok? {
        ReplaceInventoryValid(db, f.value, c.value);
      }
    }
  }

  /** `deleteInventory`: 404 for an unknown id; otherwise exactly that record goes, with 200. */
  function DeleteInventoryHandler(db: Db, id: Id): (r: (Response<InventoryReply>, Db))
    ensures id !in InventoryIds(db) <==> r == (Response(NOT_FOUND, Message("Inventory not found")), db)
    ensures id in InventoryIds(db) ==>
              r == (Response(OK, Message("Inventory deleted successfully")), DeleteInventory(db, id))
  {
    if id !in InventoryIds(db) then (Response(NOT_FOUND, Message("Inventory not found")), db)
    else
      assert id !in InventoryIds(DeleteInventory(db, id));
      (Response(OK, Message("Inventory deleted successfully")), DeleteInventory(db, id))
  }

  /** Deleting removes exactly one record and keeps every other one. */
  lemma DeleteRemovesExactlyOne(db: Db, id: Id)
    requires Valid(db) && id in InventoryIds(db)
    ensures var r := DeleteInventoryHandler(db, id).1;
      && |r.inventories| == |db.inventories| - 1
      && (forall v :: v in db.inventories && v.id != id ==> v in r.inventories)
      && r.users == db.users && r.products == db.products
  {
    FilterOutKey(db.inventories, (v: Inventory) => v.id != id, InventoryKey, id);
  }

  lemma DeleteInventoryHandlerValid(db: Db, id: Id)
    requires Valid(db)
    ensures Valid(DeleteInventoryHandler(db, id).1)
  {
    DeleteInventoryValid(db, id);
  }
}
