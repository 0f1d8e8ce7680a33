/**
 * The persistent state behind the backend: the `users`, `products` and `inventories` tables, each
 * held in insertion (rowid) order, with the constraints the Sequelize models and migrations declare.
 */
module Store {
  import opened Wrappers
  import opened Seqs

  type Id = string

  /** A row of `users`; `password` holds the bcrypt hash, never the plaintext. */
  datatype User = User(
    id: Id, firstName: string, lastName: string, username: string, email: string,
    password: string, createdAt: int, updatedAt: int)

  /** The attributes `protect` loads into `req.user`: every column but `password`. */
  datatype PublicUser = PublicUser(
    id: Id, firstName: string, lastName: string, username: string, email: string,
    createdAt: int, updatedAt: int)

  function Public(u: User): (p: PublicUser)
    ensures p.id == u.id && p.username == u.username && p.email == u.email
    ensures p.firstName == u.firstName && p.lastName == u.lastName
    ensures p.createdAt == u.createdAt && p.updatedAt == u.updatedAt
  {
    PublicUser(u.id, u.firstName, u.lastName, u.username, u.email, u.createdAt, u.updatedAt)
  }

  /**
   * `PRODUCT_CATEGORIES`, the values declared for the `category` ENUM column. The declaration is
   * not enforced on SQLite: the column is stored as text, so a row may carry any category string.
   */
  datatype Category = Electronics | Books | Clothing | Home | Sports

  function CategoryName(c: Category): string {
    match c
    case Electronics => "Electronics"
    case Books => "Books"
    case Clothing => "Clothing"
    case Home => "Home"
    case Sports => "Sports"
  }

  /** Which declared category a string names, by exact (case-sensitive) comparison. */
  function ParseCategory(s: string): (r: Option<Category>)
    ensures r.Some? ==> CategoryName(r.value) == s
  {
    if s == "Electronics" then Some(Electronics)
    else if s == "Books" then Some(Books)
    else if s == "Clothing" then Some(Clothing)
    else if s == "Home" then Some(Home)
    else if s == "Sports" then Some(Sports)
    else None
  }

  lemma ParseCategoryName(c: Category)
    ensures ParseCategory(CategoryName(c)) == Some(c)
  {
  }

  /** `price` is DECIMAL(10, 2) with `validate: { min: 100.00 }`; the model counts cents. */
  const MIN_PRICE_CENTS: int := 10000

  /** A row of `products`; `price` is in cents and `seller` references `users.id`. */
  datatype Product = Product(
    id: Id, name: string, description: string, category: string, price: int,
    seller: Id, createdAt: int, updatedAt: int)

  const DEFAULT_QUANTITY: int := 0
  const DEFAULT_RESTOCK_VALUE: int := 10

  /** A row of `inventories`; `productId` references `products.id`. */
  datatype Inventory = Inventory(
    id: Id, productId: Id, quantity: int, restockValue: int, createdAt: int, updatedAt: int)

  datatype Db = Db(users: seq<User>, products: seq<Product>, inventories: seq<Inventory>)

  function UserKey(u: User): Id { u.id }
  function UsernameKey(u: User): string { u.username }
  function EmailKey(u: User): string { u.email }
  function ProductKey(p: Product): Id { p.id }
  function InventoryKey(v: Inventory): Id { v.id }
  function InventoryProductKey(v: Inventory): Id { v.productId }

  function UserIds(db: Db): set<Id> { KeySet(db.users, UserKey) }
  function ProductIds(db: Db): set<Id> { KeySet(db.products, ProductKey) }
  function InventoryIds(db: Db): set<Id> { KeySet(db.inventories, InventoryKey) }

  /**
   * Column constraints of one user row: non-empty username and email. (The password rule applies to
   * the plaintext before it is hashed, so the stored hash carries no constraint of its own.)
   */
  predicate UserRowOk(u: User) {
    u.username != "" && u.email != ""
  }

  predicate ProductRowOk(p: Product) {
    p.price >= MIN_PRICE_CENTS
  }

  /** `quantity` at least 0 and `restockValue` at least 1. */
  predicate InventoryRowOk(v: Inventory) {
    v.quantity >= 0 && v.restockValue >= 1
  }

  /** Primary key, unique username and email indexes, non-empty columns. */
  ghost predicate UsersOk(users: seq<User>) {
    && Distinct(users, UserKey)
    && Distinct(users, UsernameKey)
    && Distinct(users, EmailKey)
    && (forall i :: 0 <= i < |users| ==> UserRowOk(users[i]))
  }

  /** Primary key, the price bound, and the `seller` foreign key into `sellers`. */
  ghost predicate ProductsOk(products: seq<Product>, sellers: set<Id>) {
    && Distinct(products, ProductKey)
    && (forall i :: 0 <= i < |products| ==> ProductRowOk(products[i]))
    && (forall i :: 0 <= i < |products| ==> products[i].seller in sellers)
  }

  /** Primary key, the unique `productId` index, the bounds, and the `productId` foreign key. */
  ghost predicate InventoriesOk(inventories: seq<Inventory>, productIds: set<Id>) {
    && Distinct(inventories, InventoryKey)
    && Distinct(inventories, InventoryProductKey)
    && (forall i :: 0 <= i < |inventories| ==> InventoryRowOk(inventories[i]))
    && (forall i :: 0 <= i < |inventories| ==> inventories[i].productId in productIds)
  }

  /** Every constraint the models and migrations declare on the three tables. */
  ghost predicate Valid(db: Db) {
    && UsersOk(db.users)
    && ProductsOk(db.products, UserIds(db))
    && InventoriesOk(db.inventories, ProductIds(db))
  }

  /** `User.findByPk(id)`. */
  function FindUser(db: Db, id: Id): (r: Option<User>)
    ensures r.Some? <==> id in UserIds(db)
    ensures r.Some? ==> r.value in db.users && r.value.id == id
  {
    match Find(db.users, UserKey, id)
    case Some(i) => Some(db.users[i])
    case None => None
  }

  /** `User.findOne({ where: { username } })`. */
  function FindUserByUsername(db: Db, username: string): (r: Option<User>)
    ensures r.Some? <==> username in KeySet(db.users, UsernameKey)
    ensures r.Some? ==> r.value in db.users && r.value.username == username
  {
    match Find(db.users, UsernameKey, username)
    case Some(i) => Some(db.users[i])
    case None => None
  }

  /** `Product.findByPk(id)`. */
  function FindProduct(db: Db, id: Id): (r: Option<Product>)
    ensures r.Some? <==> id in ProductIds(db)
    ensures r.Some? ==> r.value in db.products && r.value.id == id
  {
    match Find(db.products, ProductKey, id)
    case Some(i) => Some(db.products[i])
    case None => None
  }

  /** `Inventory.findByPk(id)`. */
  function FindInventory(db: Db, id: Id): (r: Option<Inventory>)
    ensures r.Some? <==> id in InventoryIds(db)
    ensures r.Some? ==> r.value in db.inventories && r.value.id == id
  {
    match Find(db.inventories, InventoryKey, id)
    case Some(i) => Some(db.inventories[i])
    case None => None
  }

  /** `INSERT INTO products`: the row goes after every existing one. */
  function InsertProduct(db: Db, p: Product): (r: Db)
    ensures r.users == db.users && r.inventories == db.inventories
    ensures ProductIds(r) == ProductIds(db) + {p.id}
  {
    KeySetAppend(db.products, p, ProductKey);
    db.(products := db.products + [p])
  }

  /** An insert that passes the primary-key, price and foreign-key checks keeps every constraint. */
  lemma InsertProductValid(db: Db, p: Product)
    requires Valid(db)
    requires p.id !in ProductIds(db) && p.seller in UserIds(db) && ProductRowOk(p)
    ensures Valid(InsertProduct(db, p))
  {
    var r := InsertProduct(db, p);
    AppendDistinct(db.products, p, ProductKey);
    assert forall i :: 0 <= i < |db.inventories| ==> db.inventories[i].productId in ProductIds(r);
    forall i | 0 <= i < |r.products| ensures ProductRowOk(r.products[i]) && r.products[i].seller in UserIds(r) {
      if i < |db.products| { assert r.products[i] == db.products[i]; }
    }
  }

  /** `INSERT INTO inventories`: the row goes after every existing one. */
  function InsertInventory(db: Db, v: Inventory): (r: Db)
    ensures r.users == db.users && r.products == db.products
    ensures InventoryIds(r) == InventoryIds(db) + {v.id}
  {
    KeySetAppend(db.inventories, v, InventoryKey);
    db.(inventories := db.inventories + [v])
  }

  /** An insert that passes both unique checks, the bounds and the foreign key keeps every constraint. */
  lemma InsertInventoryValid(db: Db, v: Inventory)
    requires Valid(db)
    requires v.id !in InventoryIds(db) && v.productId !in KeySet(db.inventories, InventoryProductKey)
    requires v.productId in ProductIds(db) && InventoryRowOk(v)
    ensures Valid(InsertInventory(db, v))
  {
    var r := InsertInventory(db, v);
    AppendDistinct(db.inventories, v, InventoryKey);
    AppendDistinct(db.inventories, v, InventoryProductKey);
    forall i | 0 <= i < |r.inventories|
      ensures InventoryRowOk(r.inventories[i]) && r.inventories[i].productId in ProductIds(r)
    {
      if i < |db.inventories| { assert r.inventories[i] == db.inventories[i]; }
    }
  }

  /** `UPDATE products` of the row at index `i`, which keeps its primary key. */
  function ReplaceProduct(db: Db, i: nat, p: Product): (r: Db)
    requires i < |db.products|
    ensures r.users == db.users && r.inventories == db.inventories
    ensures |r.products| == |db.products| && r.products[i] == p
    ensures forall j :: 0 <= j < |db.products| && j != i ==> r.products[j] == db.products[j]
  {
    db.(products := db.products[i := p])
  }

  /** An update that keeps the key, the price bound and the seller foreign key keeps every constraint. */
  lemma ReplaceProductValid(db: Db, i: nat, p: Product)
    requires Valid(db) && i < |db.products|
    requires p.id == db.products[i].id && ProductRowOk(p) && p.seller in UserIds(db)
    ensures Valid(ReplaceProduct(db, i, p))
  {
    ReplaceKeys(db.products, i, p, ProductKey);
  }

  /** `UPDATE inventories` of the row at index `i`, which keeps its key and its product. */
  function ReplaceInventory(db: Db, i: nat, v: Inventory): (r: Db)
    requires i < |db.inventories|
    ensures r.users == db.users && r.products == db.products
    ensures |r.inventories| == |db.inventories| && r.inventories[i] == v
    ensures forall j :: 0 <= j < |db.inventories| && j != i ==> r.inventories[j] == db.inventories[j]
  {
    db.(inventories := db.inventories[i := v])
  }

  /** An update that keeps the key, the product and the bounds keeps every constraint. */
  lemma ReplaceInventoryValid(db: Db, i: nat, v: Inventory)
    requires Valid(db) && i < |db.inventories|
    requires v.id == db.inventories[i].id && v.productId == db.inventories[i].productId && InventoryRowOk(v)
    ensures Valid(ReplaceInventory(db, i, v))
  {
    ReplaceKeys(db.inventories, i, v, InventoryKey);
    ReplaceKeys(db.inventories, i, v, InventoryProductKey);
  }

  /** `DELETE FROM inventories WHERE id = id`: only that row goes. */
  function DeleteInventory(db: Db, id: Id): (r: Db)
    ensures r.users == db.users && r.products == db.products
    ensures r.inventories == Filter(db.inventories, (v: Inventory) => v.id != id)
    ensures id !in InventoryIds(r)
  {
    FilterKeySet(db.inventories, (v: Inventory) => v.id != id, InventoryKey);
    db.(inventories := Filter(db.inventories, (v: Inventory) => v.id != id))
  }

  lemma DeleteInventoryValid(db: Db, id: Id)
    requires Valid(db)
    ensures Valid(DeleteInventory(db, id))
  {
    InventoriesShrink(db.inventories, (v: Inventory) => v.id != id, ProductIds(db), ProductIds(db));
  }

  /**
   * `DELETE FROM products WHERE id = pid` under `ON DELETE CASCADE`: the product and the inventory
   * referencing it go, nothing else changes.
   */
  function DeleteProductCascade(db: Db, pid: Id): (r: Db)
    ensures r.users == db.users
    ensures r.products == Filter(db.products, (p: Product) => p.id != pid)
    ensures r.inventories == Filter(db.inventories, (v: Inventory) => v.productId != pid)
    ensures pid !in ProductIds(r)
  {
    var r := Db(db.users, Filter(db.products, (p: Product) => p.id != pid),
                Filter(db.inventories, (v: Inventory) => v.productId != pid));
    FilterKeySet(db.products, (p: Product) => p.id != pid, ProductKey);
    r
  }

  lemma DeleteProductCascadeValid(db: Db, pid: Id)
    requires Valid(db)
    ensures Valid(DeleteProductCascade(db, pid))
  {
    var r := DeleteProductCascade(db, pid);
    var keep := (p: Product) => p.id != pid;
    var keepInv := (v: Inventory) => v.productId != pid;
    FilterDistinct(db.products, keep, ProductKey);
    FilterKeySet(db.products, keep, ProductKey);
    InventoriesShrink(db.inventories, keepInv, ProductIds(db), ProductIds(r));
  }

  /** Dropping inventories whose product is gone keeps the inventory constraints. */
  lemma InventoriesShrink(vs: seq<Inventory>, keep: Inventory -> bool, before: set<Id>, after: set<Id>)
    requires InventoriesOk(vs, before)
    requires forall i :: 0 <= i < |vs| && keep(vs[i]) ==> vs[i].productId in after
    ensures InventoriesOk(Filter(vs, keep), after)
  {
    FilterDistinct(vs, keep, InventoryKey);
    FilterDistinct(vs, keep, InventoryProductKey);
    var r := Filter(vs, keep);
    forall i | 0 <= i < |r| ensures r[i].productId in after && InventoryRowOk(r[i]) {
      var j :| 0 <= j < |vs| && vs[j] == r[i];
    }
  }

  /** Dropping products whose seller is gone keeps the product constraints. */
  lemma ProductsShrink(ps: seq<Product>, keep: Product -> bool, before: set<Id>, after: set<Id>)
    requires ProductsOk(ps, before)
    requires forall i :: 0 <= i < |ps| && keep(ps[i]) ==> ps[i].seller in after
    ensures ProductsOk(Filter(ps, keep), after)
  {
    FilterDistinct(ps, keep, ProductKey);
    var r := Filter(ps, keep);
    forall i | 0 <= i < |r| ensures r[i].seller in after && ProductRowOk(r[i]) {
      var j :| 0 <= j < |ps| && ps[j] == r[i];
    }
  }

  /** Dropping users keeps the user constraints. */
  lemma UsersShrink(us: seq<User>, keep: User -> bool)
    requires UsersOk(us)
    ensures UsersOk(Filter(us, keep))
  {
    FilterDistinct(us, keep, UserKey);
    FilterDistinct(us, keep, UsernameKey);
    FilterDistinct(us, keep, EmailKey);
  }

  /**
   * `DELETE FROM users WHERE id = uid` under both `ON DELETE CASCADE` foreign keys: the user, every
   * product they sell and those products' inventories go; nothing else changes.
   */
  function DeleteUserCascade(db: Db, uid: Id): (r: Db)
    ensures r.users == Filter(db.users, (u: User) => u.id != uid)
    ensures r.products == Filter(db.products, (p: Product) => p.seller != uid)
    ensures uid !in UserIds(r)
    ensures forall i :: 0 <= i < |r.products| ==> r.products[i].seller != uid
    ensures r.inventories == Filter(db.inventories, (v: Inventory) => v.productId !in SoldBy(db, uid))
    ensures forall i, j ::
              0 <= i < |r.inventories| && 0 <= j < |db.products| && db.products[j].id == r.inventories[i].productId
              ==> db.products[j].seller != uid
    ensures forall i :: 0 <= i < |db.inventories| ==>
              (db.inventories[i] in r.inventories <==> db.inventories[i].productId !in SoldBy(db, uid))
  {
    var r := Db(Filter(db.users, (u: User) => u.id != uid),
                Filter(db.products, (p: Product) => p.seller != uid),
                Filter(db.inventories, (v: Inventory) => v.productId !in SoldBy(db, uid)));
    FilterKeySet(db.users, (u: User) => u.id != uid, UserKey);
    r
  }

  /** Ids of the products `uid` sells. */
  function SoldBy(db: Db, uid: Id): set<Id> {
    set i | 0 <= i < |db.products| && db.products[i].seller == uid :: db.products[i].id
  }

  lemma DeleteUserCascadeValid(db: Db, uid: Id)
    requires Valid(db)
    ensures Valid(DeleteUserCascade(db, uid))
  {
    var r := DeleteUserCascade(db, uid);
    var keepU := (u: User) => u.id != uid;
    var keepP := (p: Product) => p.seller != uid;
    var keepI := (v: Inventory) => v.productId !in SoldBy(db, uid);
    UsersShrink(db.users, keepU);
    SellersSurvive(db, uid);
    ProductsShrink(db.products, keepP, UserIds(db), UserIds(r));
    ProductsSurvive(db, uid);
    InventoriesShrink(db.inventories, keepI, ProductIds(db), ProductIds(r));
  }

  lemma SellersSurvive(db: Db, uid: Id)
    requires forall i :: 0 <= i < |db.products| ==> db.products[i].seller in UserIds(db)
    ensures forall i :: 0 <= i < |db.products| && db.products[i].seller != uid ==>
              db.products[i].seller in UserIds(DeleteUserCascade(db, uid))
  {
    var keepU := (u: User) => u.id != uid;
    FilterKeySet(db.users, keepU, UserKey);
    forall i | 0 <= i < |db.products| && db.products[i].seller != uid
      ensures db.products[i].seller in UserIds(DeleteUserCascade(db, uid))
    {
      var j :| 0 <= j < |db.users| && db.users[j].id == db.products[i].seller;
      assert keepU(db.users[j]);
    }
  }

  lemma ProductsSurvive(db: Db, uid: Id)
    requires forall i :: 0 <= i < |db.inventories| ==> db.inventories[i].productId in ProductIds(db)
    ensures forall i :: 0 <= i < |db.inventories| && db.inventories[i].productId !in SoldBy(db, uid) ==>
              db.inventories[i].productId in ProductIds(DeleteUserCascade(db, uid))
  {
    var keepP := (p: Product) => p.seller != uid;
    FilterKeySet(db.products, keepP, ProductKey);
    forall i | 0 <= i < |db.inventories| && db.inventories[i].productId !in SoldBy(db, uid)
      ensures db.inventories[i].productId in ProductIds(DeleteUserCascade(db, uid))
    {
      var k :| 0 <= k < |db.products| && db.products[k].id == db.inventories[i].productId;
      assert keepP(db.products[k]);
    }
  }
}
