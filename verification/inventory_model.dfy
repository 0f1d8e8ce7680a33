/**
 * The `Inventory` model: a stock record for one product, with a generated UUID key, defaults for
 * the omitted counts, lower bounds on both counts, and at most one record per product.
 */
module InventoryModel {
  import opened Wrappers
  import opened Seqs
  import opened Store

  datatype InventoryError =
    | NotNull(column: string)
    | BelowMinimum(column: string)
    | UniqueViolation(column: string)
    | ProductNotFound

  /** The values handed to `Inventory.create`; an absent count takes the column default. */
  datatype InventoryBody = InventoryBody(productId: Field<Id>, quantity: Field<int>, restockValue: Field<int>)

  /** The product ids that already have an inventory record. */
  function StockedProducts(db: Db): set<Id> {
    KeySet(db.inventories, InventoryProductKey)
  }

  /** Everything `Inventory.create` checks, in terms of the body and the store. */
  predicate Insertable(db: Db, b: InventoryBody, newId: Id) {
    && b.productId.Val? && !b.quantity.Null? && !b.restockValue.Null?
    && b.quantity.Or(DEFAULT_QUANTITY) >= 0
    && b.restockValue.Or(DEFAULT_RESTOCK_VALUE) >= 1
    && newId !in InventoryIds(db)
    && b.productId.value !in StockedProducts(db)
    && b.productId.value in ProductIds(db)
  }

  /**
   * `Inventory.create(body)` with the UUID `newId` at time `now`: the not-null and minimum
   * validations, then the insert's primary-key, unique-`productId` and foreign-key checks.
   */
  function CreateInventory(db: Db, b: InventoryBody, newId: Id, now: int): (r: Result<Inventory, InventoryError>)
    ensures r.Ok? <==> Insertable(db, b, newId)
    ensures r.Ok? ==>
      && r.value == Inventory(newId, b.productId.value, b.quantity.Or(DEFAULT_QUANTITY),
                              b.restockValue.Or(DEFAULT_RESTOCK_VALUE), now, now)
      && InventoryRowOk(r.value)
    ensures b.productId.Val? && b.productId.value in StockedProducts(db) ==> r.Err?
  {
    if !b.productId.Val? then Err(NotNull("productId"))
    else if b.quantity.Null? then Err(NotNull("quantity"))
    else if b.restockValue.Null? then Err(NotNull("restockValue"))
    else
      var v := Inventory(newId, b.productId.value, b.quantity.Or(DEFAULT_QUANTITY),
                         b.restockValue.Or(DEFAULT_RESTOCK_VALUE), now, now);
      if v.quantity < 0 then Err(BelowMinimum("quantity"))
      else if v.restockValue < 1 then Err(BelowMinimum("restockValue"))
      else if newId in InventoryIds(db) then Err(UniqueViolation("id"))
      else if v.productId in StockedProducts(db) then Err(UniqueViolation("productId"))
      else if v.productId !in ProductIds(db) then Err(ProductNotFound)
      else Ok(v)
  }

  lemma CreateInventoryValid(db: Db, b: InventoryBody, newId: Id, now: int)
    requires Valid(db)
    requires CreateInventory(db, b, newId, now).Ok?
    ensures Valid(InsertInventory(db, CreateInventory(db, b, newId, now).value))
  {
    InsertInventoryValid(db, CreateInventory(db, b, newId, now).value);
  }

  /** A product that has a record cannot get a second one: the next create for it fails. */
  lemma OneInventoryPerProduct(db: Db, b: InventoryBody, newId: Id, now: int, b2: InventoryBody, newId2: Id, now2: int)
    requires CreateInventory(db, b, newId, now).Ok?
    requires b2.productId == b.productId
    ensures CreateInventory(InsertInventory(db, CreateInventory(db, b, newId, now).value), b2, newId2, now2).Err?
  {
    var v := CreateInventory(db, b, newId, now).value;
    var db2 := InsertInventory(db, v);
    KeySetAppend(db.inventories, v, InventoryProductKey);
    assert v.productId in StockedProducts(db2);
  }

  /** The counts `updateInventory` may send; each is written only when it is not undefined. */
  datatype InventoryPatch = InventoryPatch(quantity: Field<int>, restockValue: Field<int>)

  predicate PatchAcceptable(b: InventoryPatch) {
    && !b.quantity.Null? && !b.restockValue.Null?
    && (b.quantity.Val? ==> b.quantity.value >= 0)
    && (b.restockValue.Val? ==> b.restockValue.value >= 1)
  }

  /**
   * Assigning the provided counts and `inventory.save()` at time `now`: a null count fails the
   * not-null check, a count below its minimum fails validation, and a save that changes nothing
   * leaves `updatedAt` alone.
   */
  function PatchInventory(v: Inventory, b: InventoryPatch, now: int): (r: Result<Inventory, InventoryError>)
    ensures r.Ok? <==> PatchAcceptable(b)
    ensures r.Ok? ==>
      && r.value.id == v.id && r.value.productId == v.productId && r.value.createdAt == v.createdAt
      && r.value.quantity == (if b.quantity.Val? then b.quantity.value else v.quantity)
      && r.value.restockValue == (if b.restockValue.Val? then b.restockValue.value else v.restockValue)
      && (r.value.updatedAt == v.updatedAt || r.value.updatedAt == now)
    ensures r.Ok? && InventoryRowOk(v) ==> InventoryRowOk(r.value)
  {
    if b.quantity.Null? then Err(NotNull("quantity"))
    else if b.restockValue.Null? then Err(NotNull("restockValue"))
    else
      var w := v.(quantity := b.quantity.Or(v.quantity),
                  restockValue := b.restockValue.Or(v.restockValue));
      if b.quantity.Val? && b.quantity.value < 0 then Err(BelowMinimum("quantity"))
      else if b.restockValue.Val? && b.restockValue.value < 1 then Err(BelowMinimum("restockValue"))
      else Ok(if w == v then v else w.(updatedAt := now))
  }
}
