/**
 * What the React components receive from the API and the small pieces of logic they share: the
 * shape of a response body, the inventory and product records as the browser sees them, the
 * truthiness fallbacks of the product getters, and the case-insensitive search.
 */
module ClientData {
  import opened Wrappers
  import opened Text

  /** A product as a JSON object in the browser. */
  datatype ProductInfo = ProductInfo(id: string, name: string, description: string, category: string, price: int)

  /**
   * An inventory record as a JSON object: `productDetails` is the backend's join alias, `Product`
   * the default alias the components also try.
   */
  datatype Item = Item(
    id: string, productId: string, quantity: int, restockValue: int,
    productDetails: Option<ProductInfo>, product: Option<ProductInfo>)

  /**
   * A response body as far as the components look at it: an array, an object whose one
   * interesting property (`products`, `inventories`) is `prop` and whose `total` is `total`, or
   * some other value, truthy or not.
   */
  datatype Json<T> =
    | JArray(items: seq<T>)
    | JObject(prop: Option<Json<T>>, total: Option<int>)
    | JScalar(truthy: bool)

  predicate Truthy<T>(v: Json<T>) { !(v.JScalar? && !v.truthy) }

  /** `data.prop || data`. */
  function PropOr<T>(v: Json<T>): (r: Json<T>)
    ensures v.JArray? || v.JScalar? ==> r == v
    ensures v.JObject? && v.prop.Some? && Truthy(v.prop.value) ==> r == v.prop.value
    ensures v.JObject? && !(v.prop.Some? && Truthy(v.prop.value)) ==> r == v
  {
    if v.JObject? && v.prop.Some? && Truthy(v.prop.value) then v.prop.value else v
  }

  /** `Array.isArray(v) ? v : []`. */
  function ArrayOrEmpty<T>(v: Json<T>): (r: seq<T>)
    ensures v.JArray? ==> r == v.items
    ensures !v.JArray? ==> r == []
  {
    if v.JArray? then v.items else []
  }

  /**
   * `Array.isArray(d) ? d : (d && Array.isArray(d.products) ? d.products : [])`: the list of
   * products in a bare array or in a page object.
   */
  function ProductsOf<T>(d: Json<T>): (r: seq<T>)
    ensures d.JArray? ==> r == d.items
    ensures d.JObject? && d.prop.Some? && d.prop.value.JArray? ==> r == d.prop.value.items
    ensures !d.JArray? && !(d.JObject? && d.prop.Some? && d.prop.value.JArray?) ==> r == []
  {
    if d.JArray? then d.items
    else if d.JObject? && d.prop.Some? && d.prop.value.JArray? then d.prop.value.items
    else []
  }

  /** `item.productDetails || item.Product`. */
  function DetailsOrProduct(it: Item): Option<ProductInfo> {
    if it.productDetails.Some? then it.productDetails else it.product
  }

  /** `item.productDetails?.name || item.Product?.name || 'Unknown Product'`. */
  function ProductName(it: Item): (r: string)
    ensures r != ""
    ensures r == "Unknown Product" ||
            (it.productDetails.Some? && r == it.productDetails.value.name) ||
            (it.product.Some? && r == it.product.value.name)
    ensures it.productDetails.Some? && it.productDetails.value.name != "" ==> r == it.productDetails.value.name
    ensures (it.productDetails.None? || it.productDetails.value.name == "") && it.product.Some? && it.product.value.name != "" ==>
      r == it.product.value.name
  {
    if it.productDetails.Some? && it.productDetails.value.name != "" then it.productDetails.value.name
    else if it.product.Some? && it.product.value.name != "" then it.product.value.name
    else "Unknown Product"
  }

  /** `item.productDetails?.category || item.Product?.category || 'Unknown'`. */
  function ProductCategory(it: Item): (r: string)
    ensures r != ""
    ensures it.productDetails.Some? && it.productDetails.value.category != "" ==> r == it.productDetails.value.category
    ensures (it.productDetails.None? || it.productDetails.value.category == "") && it.product.Some? && it.product.value.category != "" ==>
      r == it.product.value.category
    ensures ((it.productDetails.None? || it.productDetails.value.category == "")
             && (it.product.None? || it.product.value.category == "")) ==> r == "Unknown"
  {
    if it.productDetails.Some? && it.productDetails.value.category != "" then it.productDetails.value.category
    else if it.product.Some? && it.product.value.category != "" then it.product.value.category
    else "Unknown"
  }

  /** `item.productDetails?.price || item.Product?.price || 0`: a price of 0 counts as missing. */
  function ProductPrice(it: Item): (r: int)
    ensures it.productDetails.Some? && it.productDetails.value.price != 0 ==> r == it.productDetails.value.price
    ensures (it.productDetails.None? || it.productDetails.value.price == 0) && it.product.Some? ==> r == it.product.value.price
    ensures it.productDetails.None? && it.product.None? ==> r == 0
  {
    if it.productDetails.Some? && it.productDetails.value.price != 0 then it.productDetails.value.price
    else if it.product.Some? && it.product.value.price != 0 then it.product.value.price
    else 0
  }

  /** The search predicate: the lower-cased term occurs in the lower-cased name or category. */
  predicate MatchesTerm(name: string, category: string, term: string) {
    Contains(Lower(name), Lower(term)) || Contains(Lower(category), Lower(term))
  }

  /** The empty search term is found in every name, so it keeps everything. */
  lemma EmptyTermMatches(name: string, category: string)
    ensures MatchesTerm(name, category, "")
  {
    ContainsEmpty(Lower(name));
  }

  /** A product always matches a search for its own name, in any letter case. */
  lemma OwnNameMatches(name: string, category: string, term: string)
    requires Lower(term) == Lower(name)
    ensures MatchesTerm(name, category, term)
  {
    ContainsSelf(Lower(name));
  }

  /** The search ignores the letter case of the term. */
  lemma TermCaseIgnored(name: string, category: string, term: string)
    ensures MatchesTerm(name, category, Lower(term)) == MatchesTerm(name, category, term)
  {
    LowerIdempotent(term);
  }

  /**
   * The value of a form input: text the user typed, or a number an edit copied from a record
   * (React keeps it as a number until the user types into the field).
   */
  datatype FormValue = Typed(text: string) | Copied(number: int)

  /** `parseInt(v)`; a number is first rendered in decimal, so a copied number reads back unchanged. */
  function ParseFormInt(v: FormValue): (r: Option<int>)
    ensures v.Copied? ==> r == Some(v.number)
    ensures v.Typed? ==> r == ParseInt(v.text)
  {
    match v
    case Typed(s) => ParseInt(s)
    case Copied(n) => ParseIntOfIntToString(n); ParseInt(IntToString(n))
  }
}
