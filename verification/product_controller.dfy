/**
 * The product controller: listing with a seller filter and a limit/offset window, the requester's
 * own products newest first, and get, create, update and delete by id. Each handler is a
 * transition from a store and a request to a response and the next store.
 */
module ProductController {
  import opened Wrappers
  import opened Text
  import opened Seqs
  import opened Store
  import opened Http
  import opened ProductModel

  const DEFAULT_LIMIT: nat := 10
  const DEFAULT_OFFSET: nat := 0

  /** The seller attributes the `sellerDetails` include selects. */
  datatype SellerDetails = SellerDetails(id: Id, firstName: string, lastName: string, username: string, email: string)

  /** A product row as sent to the client, with its seller joined in (`None` when no user matches). */
  datatype ProductView = ProductView(product: Product, sellerDetails: Option<SellerDetails>)

  /** The JSON bodies the handlers send. */
  datatype ProductReply =
    | Page(products: seq<ProductView>, total: nat, limit: nat, offset: nat)
    | One(view: ProductView)
    | Created(created: Product)
    | Message(message: string)
    | NoBody

  /** The query string of the two listing routes; an absent `limit` or `offset` takes its default. */
  datatype ListQuery = ListQuery(seller: Option<string>, limit: Option<nat>, offset: Option<nat>)

  function DetailsOf(u: User): SellerDetails {
    SellerDetails(u.id, u.firstName, u.lastName, u.username, u.email)
  }

  /** The `LEFT OUTER JOIN users` of one product. */
  function ViewOf(db: Db, p: Product): (r: ProductView)
    ensures r.product == p
    ensures r.sellerDetails.Some? <==> p.seller in UserIds(db)
    ensures r.sellerDetails.Some? ==> r.sellerDetails.value.id == p.seller
  {
    match FindUser(db, p.seller)
    case None => ProductView(p, None)
    case Some(u) => ProductView(p, Some(DetailsOf(u)))
  }

  /**
   * The `%filter%` LIKE on the seller column. The filter is pasted into the pattern unescaped, so
   * a `%` or `_` in it is a wildcard too.
   */
  predicate SellerLike(p: Product, filter: string) {
    Like(p.seller, "%" + filter + "%")
  }

  /** A filter without `%` and `_` finds the sellers whose id contains it, ignoring case. */
  lemma PlainFilterIsSubstring(p: Product, filter: string)
    requires NoWildcards(filter)
    ensures SellerLike(p, filter) <==> Contains(Lower(p.seller), Lower(filter))
  {
    LikeContains(p.seller, filter);
  }

  /**
   * `?seller=%` lists every product and `?seller=_` every product with a non-empty seller id,
   * although no seller id contains either character.
   */
  lemma WildcardFilterMatchesAll(db: Db, q: ListQuery)
    requires q.seller == Some("%") || q.seller == Some("_")
    ensures forall i :: 0 <= i < |db.products| && db.products[i].seller != "" ==>
              db.products[i] in Matching(db, q)
  {
    forall i | 0 <= i < |db.products| && db.products[i].seller != ""
      ensures SellerLike(db.products[i], q.seller.value)
    {
      var s := db.products[i].seller;
      LikeAnyRun(s);
      LikeAnyRun(s[1..]);
      assert "%" + "%" + "%" == "%%%" && "%" + "_" + "%" == "%_%";
      assert "%%%"[1..] == "%%" && "%%"[1..] == "%";
      assert "%_%"[1..] == "_%" && "_%"[1..] == "%";
      assert Like(s, "%%");
      assert Like(s, "_%");
    }
  }

  /** Whether the seller filter applies at all: a missing or empty `seller` is falsy. */
  predicate Filtering(q: ListQuery) {
    q.seller.Some? && q.seller.value != ""
  }

  /** The rows `getAllProducts` counts: every product, or those whose seller is like the filter. */
  function Matching(db: Db, q: ListQuery): (r: seq<Product>)
    ensures !Filtering(q) ==> r == db.products
    ensures Filtering(q) ==> forall i :: 0 <= i < |db.products| ==>
              (db.products[i] in r <==> SellerLike(db.products[i], q.seller.value))
  {
    if Filtering(q) then Filter(db.products, (p: Product) => SellerLike(p, q.seller.value)) else db.products
  }

  /** `getAllProducts`: the window of matching products, the match count, and the numbers used. */
  function GetAllProducts(db: Db, q: ListQuery): (r: Response<ProductReply>)
    ensures r.status == OK && r.body.Page?
    ensures r.body.limit == q.limit.GetOr(DEFAULT_LIMIT) && r.body.offset == q.offset.GetOr(DEFAULT_OFFSET)
    ensures r.body.total == |Matching(db, q)|
    ensures |r.body.products| <= r.body.limit
    ensures |r.body.products| > 0 ==> r.body.offset + |r.body.products| <= r.body.total
    ensures r.body.offset < r.body.total ==>
      |r.body.products| == if r.body.total - r.body.offset < r.body.limit then r.body.total - r.body.offset else r.body.limit
    ensures forall i :: 0 <= i < |r.body.products| ==>
              r.body.products[i] == ViewOf(db, Matching(db, q)[r.body.offset + i])
  {
    Response(OK, PageOf(db, Matching(db, q), q.limit.GetOr(DEFAULT_LIMIT), q.offset.GetOr(DEFAULT_OFFSET)))
  }

  /** The page body of the two listing routes: the window of `rows`, joined, with the count of `rows`. */
  function PageOf(db: Db, rows: seq<Product>, limit: nat, offset: nat): (r: ProductReply)
    ensures r.Page? && r.total == |rows| && r.limit == limit && r.offset == offset
    ensures |r.products| <= limit
    ensures |r.products| > 0 ==> offset + |r.products| <= |rows|
    ensures offset < |rows| ==>
      |r.products| == if |rows| - offset < limit then |rows| - offset else limit
    ensures forall i :: 0 <= i < |r.products| ==> r.products[i] == ViewOf(db, rows[offset + i])
  {
    Page(Map(Window(rows, offset, limit), p => ViewOf(db, p)), |rows|, limit, offset)
  }

  /** Every product on a filtered page has a seller like the filter. */
  lemma PageMatchesFilter(db: Db, q: ListQuery, i: nat)
    requires Filtering(q)
    requires i < |GetAllProducts(db, q).body.products|
    ensures SellerLike(GetAllProducts(db, q).body.products[i].product, q.seller.value)
  {
    var rows := Matching(db, q);
    var r := GetAllProducts(db, q).body;
    assert r.products[i].product == rows[r.offset + i];
  }

  /** Searching by one's own seller id finds every product one sells. */
  lemma OwnIdFindsOwnProducts(db: Db, q: ListQuery, uid: Id, j: nat)
    requires q.seller == Some(uid) && uid != ""
    requires j < |db.products| && db.products[j].seller == uid
    ensures db.products[j] in Matching(db, q)
  {
    var pat := "%" + uid + "%";
    assert pat[1..] == uid + "%";
    LikeSelfPrefix(uid);
  }

  /** Order by `createdAt`, newest first. */
  ghost predicate NewestFirst(s: seq<Product>) {
    forall i, j :: 0 <= i < j < |s| ==> s[i].createdAt >= s[j].createdAt
  }

  /** Inserting `p` into a newest-first sequence before the first row not newer than it. */
  function InsertNewest(p: Product, s: seq<Product>): (r: seq<Product>)
    requires NewestFirst(s)
    ensures NewestFirst(r)
    ensures multiset(r) == multiset(s) + multiset{p}
    ensures |r| == |s| + 1
    decreases |s|
  {
    if |s| == 0 || s[0].createdAt <= p.createdAt then
      [p] + s
    else
      var rest := InsertNewest(p, s[1..]);
      InsertBehindHead(p, s, rest);
      [s[0]] + rest
  }

  /** Putting the head of `s` back in front of `p` inserted into the tail keeps the order. */
  lemma InsertBehindHead(p: Product, s: seq<Product>, rest: seq<Product>)
    requires |s| > 0 && s[0].createdAt > p.createdAt && NewestFirst(s)
    requires NewestFirst(rest) && multiset(rest) == multiset(s[1..]) + multiset{p}
    ensures NewestFirst([s[0]] + rest)
    ensures multiset([s[0]] + rest) == multiset(s) + multiset{p}
  {
    assert s == [s[0]] + s[1..];
    forall k | 0 <= k < |rest| ensures s[0].createdAt >= rest[k].createdAt {
      assert rest[k] in multiset(rest);
      if rest[k] != p {
        assert rest[k] in multiset(s[1..]);
        var m :| 0 <= m < |s[1..]| && s[1..][m] == rest[k];
        assert s[m + 1] == rest[k];
      }
    }
    var r := [s[0]] + rest;
    forall i, j | 0 <= i < j < |r| ensures r[i].createdAt >= r[j].createdAt {
      if i > 0 {
        assert r[i] == rest[i - 1] && r[j] == rest[j - 1];
      } else {
        assert r[j] == rest[j - 1];
      }
    }
  }

  /** `ORDER BY createdAt DESC`. */
  function SortNewest(s: seq<Product>): (r: seq<Product>)
    ensures NewestFirst(r)
    ensures multiset(r) == multiset(s)
    decreases |s|
  {
    if |s| == 0 then []
    else
      assert s == [s[0]] + s[1..];
      InsertNewest(s[0], SortNewest(s[1..]))
  }

  /** The requester's products, newest first. */
  function Mine(db: Db, uid: Id): (r: seq<Product>)
    ensures NewestFirst(r)
    ensures multiset(r) == multiset(Filter(db.products, (p: Product) => p.seller == uid))
    ensures |r| == |Filter(db.products, (p: Product) => p.seller == uid)|
  {
    var r := SortNewest(Filter(db.products, (p: Product) => p.seller == uid));
    assert |r| == |multiset(r)|;
    r
  }

  /** `getMyProducts`: the window of the requester's products, newest first, and their count. */
  function GetMyProducts(db: Db, uid: Id, q: ListQuery): (r: Response<ProductReply>)
    ensures r.status == OK && r.body.Page?
    ensures r.body.limit == q.limit.GetOr(DEFAULT_LIMIT) && r.body.offset == q.offset.GetOr(DEFAULT_OFFSET)
    ensures r.body.total == |Filter(db.products, (p: Product) => p.seller == uid)|
    ensures |r.body.products| <= r.body.limit
    ensures |r.body.products| > 0 ==> r.body.offset + |r.body.products| <= r.body.total
    ensures r.body.offset < r.body.total ==>
      |r.body.products| == if r.body.total - r.body.offset < r.body.limit then r.body.total - r.body.offset else r.body.limit
    ensures forall i :: 0 <= i < |r.body.products| ==> r.body.products[i] == ViewOf(db, Mine(db, uid)[r.body.offset + i])
  {
    Response(OK, PageOf(db, Mine(db, uid), q.limit.GetOr(DEFAULT_LIMIT), q.offset.GetOr(DEFAULT_OFFSET)))
  }

  /** The page `getMyProducts` lists is newest first. */
  lemma MyProductsNewestFirst(db: Db, uid: Id, q: ListQuery)
    ensures var page := GetMyProducts(db, uid, q).body.products;
      forall i, j :: 0 <= i < j < |page| ==> page[i].product.createdAt >= page[j].product.createdAt
  {
    PageKeepsOrder(db, Mine(db, uid), q.limit.GetOr(DEFAULT_LIMIT), q.offset.GetOr(DEFAULT_OFFSET));
  }

  /** A page of newest-first rows is newest first. */
  lemma PageKeepsOrder(db: Db, rows: seq<Product>, limit: nat, offset: nat)
    requires NewestFirst(rows)
    ensures var page := PageOf(db, rows, limit, offset).products;
      forall i, j :: 0 <= i < j < |page| ==> page[i].product.createdAt >= page[j].product.createdAt
  {
    var page := PageOf(db, rows, limit, offset).products;
    forall i, j | 0 <= i < j < |page| ensures page[i].product.createdAt >= page[j].product.createdAt {
      assert page[i].product == rows[offset + i] && page[j].product == rows[offset + j];
    }
  }

  /** Every product `getMyProducts` lists is sold by the requester. */
  lemma MyProductsAreMine(db: Db, uid: Id, q: ListQuery)
    ensures var page := GetMyProducts(db, uid, q).body.products;
      forall i :: 0 <= i < |page| ==> page[i].product.seller == uid
  {
    var rows := Mine(db, uid);
    var mine := Filter(db.products, (p: Product) => p.seller == uid);
    forall p | p in rows ensures p.seller == uid {
      assert p in multiset(rows);
      assert p in multiset(mine);
    }
    PageFromRows(db, rows, q.limit.GetOr(DEFAULT_LIMIT), q.offset.GetOr(DEFAULT_OFFSET));
  }

  /** Every product on a page is one of the rows it was cut from. */
  lemma PageFromRows(db: Db, rows: seq<Product>, limit: nat, offset: nat)
    ensures var page := PageOf(db, rows, limit, offset).products;
      forall i :: 0 <= i < |page| ==> page[i].product in rows
  {
    var page := PageOf(db, rows, limit, offset).products;
    forall i | 0 <= i < |page| ensures page[i].product in rows {
      assert offset + i < |rows| && page[i].product == rows[offset + i];
    }
  }

  /** `getProductById`. */
  function GetProductById(db: Db, id: Id): (r: Response<ProductReply>)
    ensures id !in ProductIds(db) <==> r == Response(NOT_FOUND, Message("Product not found"))
    ensures id in ProductIds(db) ==> r.status == OK
    ensures r.status == OK ==>
      && r.body.One? && r.body.view.product.id == id && r.body.view.product in db.products
      && r.body.view == ViewOf(db, r.body.view.product)
  {
    match FindProduct(db, id)
    case None => Response(NOT_FOUND, Message("Product not found"))
    case Some(p) => Response(OK, One(ViewOf(db, p)))
  }

  /** The body `createProduct` hands to the model, with `seller` forced to the requester. */
  function WithSeller(b: ProductBody, uid: Id): ProductBody {
    b.(seller := Val(uid))
  }

  /** `createProduct`: 201 with the stored row, or 400 with nothing stored. */
  function CreateProductHandler(db: Db, uid: Id, b: ProductBody, now: int, date: UtcDate, random: seq<byte>)
    : (r: (Response<ProductReply>, Db))
    requires |random| == 4
    ensures r.0.status == CREATED || r.0 == Response(BAD_REQUEST, Message("Error creating product"))
    ensures r.0.status == CREATED <==> CreateProduct(db, WithSeller(b, uid), now, date, random).Ok?
    ensures r.0.status == BAD_REQUEST <==> r.1 == db
    ensures r.0.status == CREATED ==>
      && r.0.body == Created(CreateProduct(db, WithSeller(b, uid), now, date, random).value)
      && r.0.body.created.seller == uid
      && r.0.body.created.id !in ProductIds(db)
      && r.1 == InsertProduct(db, r.0.body.created)
  {
    match CreateProduct(db, WithSeller(b, uid), now, date, random)
    case Err(_) => (Response(BAD_REQUEST, Message("Error creating product")), db)
    case Ok(p) =>
      assert |InsertProduct(db, p).products| == |db.products| + 1;
      (Response(CREATED, Created(p)), InsertProduct(db, p))
  }

  /** Whatever seller the body names, the row is stored under the requester. */
  lemma CreateIgnoresBodySeller(db: Db, uid: Id, b: ProductBody, s: Field<Id>, now: int, date: UtcDate, random: seq<byte>)
    requires |random| == 4
    ensures CreateProductHandler(db, uid, b.(seller := s), now, date, random) == CreateProductHandler(db, uid, b, now, date, random)
  {
    assert WithSeller(b.(seller := s), uid) == WithSeller(b, uid);
  }

  lemma CreateProductHandlerValid(db: Db, uid: Id, b: ProductBody, now: int, date: UtcDate, random: seq<byte>)
    requires |random| == 4 && Valid(db)
    ensures Valid(CreateProductHandler(db, uid, b, now, date, random).1)
  {
    var c := CreateProduct(db, WithSeller(b, uid), now, date, random);
    if c.Ok? {
      CreateProductValid(db, WithSeller(b, uid), now, date, random);
    }
  }

  /**
   * `updateProduct`: 404 for an unknown id; otherwise `product.update(body)`, answering 200 with the
   * updated row, or 500 with nothing changed when a validation or the foreign key fails. The seller
   * details sent are those loaded before the update. No ownership check is made.
   */
  function UpdateProduct(db: Db, id: Id, b: ProductBody, now: int): (r: (Response<ProductReply>, Db))
    ensures id !in ProductIds(db) ==> r == (Response(NOT_FOUND, Message("Product not found")), db)
    ensures r.0.status != OK ==> r.1 == db
    ensures id in ProductIds(db) && !PatchAcceptable(db, b) <==>
              r == (Response(SERVER_ERROR, Message("Error updating product")), db)
    ensures id in ProductIds(db) && PatchAcceptable(db, b) ==> r.0.status == OK
    ensures r.0.status == OK ==>
      && id in ProductIds(db) && PatchAcceptable(db, b)
      && r.0.body.One? && r.0.body.view.product.id == id
      && var i := Find(db.products, ProductKey, id).value;
         r.1 == ReplaceProduct(db, i, r.0.body.view.product)
         && r.0.body.view.product == PatchProduct(db, db.products[i], b, now).value
  {
    match Find(db.products, ProductKey, id)
    case None => (Response(NOT_FOUND, Message("Product not found")), db)
    case Some(i) =>
      var p := db.products[i];
      var stale := ViewOf(db, p).sellerDetails;
      match PatchProduct(db, p, b, now)
      case Err(_) => (Response(SERVER_ERROR, Message("Error updating product")), db)
      case Ok(q) => (Response(OK, One(ProductView(q, stale))), ReplaceProduct(db, i, q))
  }

  /** An update touches that one product: every other row of every table is as it was. */
  lemma UpdateTouchesOneProduct(db: Db, id: Id, b: ProductBody, now: int, j: nat)
    requires j < |db.products| && db.products[j].id != id
    ensures var r := UpdateProduct(db, id, b, now).1;
      && r.users == db.users && r.inventories == db.inventories
      && |r.products| == |db.products| && r.products[j] == db.products[j]
  {
  }

  lemma UpdateProductValid(db: Db, id: Id, b: ProductBody, now: int)
    requires Valid(db)
    ensures Valid(UpdateProduct(db, id, b, now).1)
  {
    var f := Find(db.products, ProductKey, id);
    if f.Some? {
      var i := f.value;
      var c := PatchProduct(db, db.products[i], b, now);
      if c.Ok? {
        ReplaceProductValid(db, i, c.value);
      }
    }
  }

  /** `deleteProduct`: 404 for an unknown id; otherwise the row and, by cascade, its inventory go. */
  function DeleteProduct(db: Db, id: Id): (r: (Response<ProductReply>, Db))
    ensures id !in ProductIds(db) <==> r == (Response(NOT_FOUND, Message("Product not found")), db)
    ensures id in ProductIds(db) ==> r == (Response(NO_CONTENT, NoBody), DeleteProductCascade(db, id))
  {
    if id !in ProductIds(db) then (Response(NOT_FOUND, Message("Product not found")), db)
    else
      assert id !in ProductIds(DeleteProductCascade(db, id));
      (Response(NO_CONTENT, NoBody), DeleteProductCascade(db, id))
  }

  /** Deleting removes exactly the one product: every other product stays, in order. */
  lemma DeleteRemovesExactlyOne(db: Db, id: Id)
    requires Valid(db) && id in ProductIds(db)
    ensures var r := DeleteProduct(db, id).1;
      && |r.products| == |db.products| - 1
      && (forall p :: p in db.products && p.id != id ==> p in r.products)
      && id !in ProductIds(r)
  {
    FilterOutKey(db.products, (p: Product) => p.id != id, ProductKey, id);
  }

  lemma DeleteProductValid(db: Db, id: Id)
    requires Valid(db)
    ensures Valid(DeleteProduct(db, id).1)
  {
    DeleteProductCascadeValid(db, id);
  }
}
