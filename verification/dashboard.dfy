/**
 * The dashboard's four counters, computed from the seller's product page and the inventory list
 * fetched together.
 */
module Dashboard {
  import opened Wrappers
  import opened Seqs
  import opened ClientData
  import LowStockAlerts
  import Store
  import ProductController

  datatype Stats = Stats(totalProducts: nat, totalInventory: nat, lowStockItems: nat, outOfStockItems: nat)

  /** The counters before the first load finishes. */
  const INITIAL_STATS := Stats(0, 0, 0, 0)

  /** The dashboard's "low stock" test, which leaves out the empty records. */
  predicate IsLowStock(it: Item) { it.quantity <= it.restockValue && it.quantity > 0 }

  /** `inventoryResponse.data.inventories || inventoryResponse.data`, kept only when it is an array. */
  function InventoryOf(d: Json<Item>): seq<Item> { ArrayOrEmpty(PropOr(d)) }

  /** The counters shared by both versions of `loadStats`, from the inventory list. */
  function InventoryStats(totalProducts: nat, inventory: seq<Item>): (r: Stats)
    ensures r.totalProducts == totalProducts && r.totalInventory == |inventory|
    ensures r.lowStockItems == |Filter(inventory, IsLowStock)|
    ensures r.outOfStockItems == |Filter(inventory, LowStockAlerts.IsOutOfStock)|
    ensures r.lowStockItems + r.outOfStockItems <= r.totalInventory
  {
    var low := Filter(inventory, IsLowStock);
    var out := Filter(inventory, LowStockAlerts.IsOutOfStock);
    FilterDisjointCount(inventory, IsLowStock, LowStockAlerts.IsOutOfStock);
    FilterMonotone(inventory, (it: Item) => IsLowStock(it) || LowStockAlerts.IsOutOfStock(it), _ => true);
    FilterKeepsAll(inventory, _ => true);
    Stats(totalProducts, |inventory|, |low|, |out|)
  }

  /**
   * `loadStats` as written: "Total Products" is the length of the list in the `getMine` response.
   * When either request fails the counters keep their previous values.
   */
  function LoadStatsAsWritten<P>(prev: Stats, products: Result<Json<P>, string>, inventory: Result<Json<Item>, string>): (r: Stats)
    ensures products.Err? || inventory.Err? ==> r == prev
    ensures products.Ok? && inventory.Ok? ==> r.totalProducts == |ProductsOf(products.value)|
  {
    if products.Err? || inventory.Err? then prev
    else InventoryStats(|ProductsOf(products.value)|, InventoryOf(inventory.value))
  }

  /**
   * The number of products a response describes: the `total` of a page object, and the length of
   * the list otherwise.
   */
  function ProductCount<P>(d: Json<P>): (n: nat)
    ensures d.JObject? && d.total.Some? && d.total.value >= 0 ==> n == d.total.value
    ensures !(d.JObject? && d.total.Some? && d.total.value >= 0) ==> n == |ProductsOf(d)|
  {
    if d.JObject? && d.total.Some? && d.total.value >= 0 then d.total.value else |ProductsOf(d)|
  }

  /** `loadStats` with "Total Products" read from the page's `total`. */
  function LoadStats<P>(prev: Stats, products: Result<Json<P>, string>, inventory: Result<Json<Item>, string>): (r: Stats)
    ensures products.Err? || inventory.Err? ==> r == prev
    ensures products.Ok? && inventory.Ok? ==>
      r == LoadStatsAsWritten(prev, products, inventory).(totalProducts := ProductCount(products.value))
  {
    if products.Err? || inventory.Err? then prev
    else InventoryStats(ProductCount(products.value), InventoryOf(inventory.value))
  }

  /** The body `getMyProducts` sends, as the browser sees it: `{ products, total, limit, offset }`. */
  function PageBody(r: ProductController.ProductReply): Json<ProductController.ProductView> {
    if r.Page? then JObject(Some(JArray(r.products)), Some(r.total)) else JScalar(true)
  }

  /** `productAPI.getMine()` sends no query string, so the backend's defaults apply. */
  const NO_QUERY := ProductController.ListQuery(None, None, None)

  /** How many products the seller `uid` owns. */
  function OwnedCount(db: Store.Db, uid: Store.Id): nat {
    |Filter(db.products, (p: Store.Product) => p.seller == uid)|
  }

  /**
   * As written, "Total Products" is the size of the first page: it never exceeds the backend's
   * default page size of 10, so a seller with more than 10 products sees 10.
   */
  lemma TotalProductsCappedAtPage(db: Store.Db, uid: Store.Id, prev: Stats, inventory: Json<Item>)
    ensures var page := Ok(PageBody(ProductController.GetMyProducts(db, uid, NO_QUERY).body));
      var s := LoadStatsAsWritten(prev, page, Ok(inventory));
      && s.totalProducts == (if OwnedCount(db, uid) < ProductController.DEFAULT_LIMIT then OwnedCount(db, uid) else ProductController.DEFAULT_LIMIT)
      && (OwnedCount(db, uid) > ProductController.DEFAULT_LIMIT ==> s.totalProducts < OwnedCount(db, uid))
  {
    var body := ProductController.GetMyProducts(db, uid, NO_QUERY).body;
    assert ProductsOf(PageBody(body)) == body.products;
  }

  /** With the page's `total`, "Total Products" is the number of products the seller owns. */
  lemma TotalProductsCountsAll(db: Store.Db, uid: Store.Id, prev: Stats, inventory: Json<Item>)
    ensures var page := Ok(PageBody(ProductController.GetMyProducts(db, uid, NO_QUERY).body));
      LoadStats(prev, page, Ok(inventory)).totalProducts == OwnedCount(db, uid)
  {
  }

  /**
   * The dashboard agrees with the alerts page: when quantities and thresholds are non-negative,
   * its low-stock and out-of-stock counters add up to the number of alerts.
   */
  lemma {:induction false} CountersMatchAlerts(inventory: seq<Item>)
    requires forall i :: 0 <= i < |inventory| ==> inventory[i].quantity >= 0 && inventory[i].restockValue >= 0
    ensures |Filter(inventory, IsLowStock)| + |Filter(inventory, LowStockAlerts.IsOutOfStock)| ==
      |Filter(inventory, LowStockAlerts.IsAlert)|
    decreases |inventory|
  {
    if |inventory| > 0 {
      CountersMatchAlerts(inventory[1..]);
    }
  }

  /**
   * With non-negative thresholds the dashboard's out-of-stock counter is the alerts page's
   * "Out of Stock" card.
   */
  lemma OutOfStockMatchesAlertsCard(inventory: seq<Item>)
    requires forall i :: 0 <= i < |inventory| ==> inventory[i].restockValue >= 0
    ensures |Filter(inventory, LowStockAlerts.IsOutOfStock)| ==
      LowStockAlerts.Summarize(Filter(inventory, LowStockAlerts.IsAlert)).outOfStock
  {
    FilterSubsumed(inventory, LowStockAlerts.IsAlert, LowStockAlerts.IsOutOfStock);
  }
}
