/**
 * The products page: loading the seller's products, the search box, and the add/edit form with
 * the call its submit makes.
 */
module ProductsPage {
  import opened Wrappers
  import opened Seqs
  import opened Text
  import opened ClientData
  import ApiClient

  /** The page state that loading touches. */
  datatype Listing = Listing(products: seq<ProductInfo>, error: string)

  const LOAD_FAILED := "Failed to load products"

  /**
   * `loadProducts`: a bare array is kept, else the `products` array of a page object, else
   * nothing; a failed request empties the list and sets the error.
   */
  function LoadProducts(response: Result<Json<ProductInfo>, string>): (r: Listing)
    ensures response.Err? ==> r == Listing([], LOAD_FAILED)
    ensures response.Ok? ==> r.error == "" && r.products == ProductsOf(response.value)
  {
    match response
    case Err(_) => Listing([], LOAD_FAILED)
    case Ok(data) => Listing(ProductsOf(data), "")
  }

  /** A page object from `getMine` yields exactly its list, whatever its `total` says. */
  lemma PageObjectYieldsItsList(items: seq<ProductInfo>, total: Option<int>)
    ensures LoadProducts(Ok(JObject(Some(JArray(items)), total))).products == items
    ensures LoadProducts(Ok(JArray(items))).products == items
    ensures LoadProducts(Ok(JObject(None, total))).products == []
  {
  }

  /** A product is shown when its name or category contains the term, ignoring case. */
  predicate Shown(p: ProductInfo, term: string) { MatchesTerm(p.name, p.category, term) }

  /** `filteredProducts`: the products whose name or category contains the term, ignoring case. */
  function FilteredProducts(products: seq<ProductInfo>, term: string): (r: seq<ProductInfo>)
    ensures forall i :: 0 <= i < |r| ==> r[i] in products && MatchesTerm(r[i].name, r[i].category, term)
    ensures forall i :: 0 <= i < |products| ==> (products[i] in r <==> MatchesTerm(products[i].name, products[i].category, term))
  {
    Filter(products, p => Shown(p, term))
  }

  /** The empty search shows every product, in order. */
  lemma EmptySearchShowsAll(products: seq<ProductInfo>)
    ensures FilteredProducts(products, "") == products
  {
    forall i | 0 <= i < |products| ensures MatchesTerm(products[i].name, products[i].category, "") {
      EmptyTermMatches(products[i].name, products[i].category);
    }
    FilterKeepsAll(products, p => Shown(p, ""));
  }

  /** Searching for `Abc` and for `abc` shows the same products. */
  lemma SearchIgnoresCase(products: seq<ProductInfo>, term: string)
    ensures FilteredProducts(products, Lower(term)) == FilteredProducts(products, term)
  {
    forall p: ProductInfo ensures MatchesTerm(p.name, p.category, Lower(term)) == MatchesTerm(p.name, p.category, term) {
      TermCaseIgnored(p.name, p.category, term);
    }
    FilterExt(products, p => Shown(p, Lower(term)), p => Shown(p, term));
  }

  /** The add/edit form. */
  datatype Form = Form(name: string, description: string, category: string, price: FormValue)

  const EMPTY_FORM := Form("", "", "", Typed(""))

  /** The form, the product being edited (if any) and whether the form is shown. */
  datatype Editor = Editor(form: Form, editing: Option<ProductInfo>, showForm: bool)

  /** `resetForm`: four empty fields, nothing being edited, the form hidden. */
  const RESET := Editor(EMPTY_FORM, None, false)

  /**
   * `handleEdit`: the four editable attributes of the product, copied into a shown form; the
   * price stays the number the product carries, not text typed by the user.
   */
  function HandleEdit(p: ProductInfo): (r: Editor)
    ensures r.editing == Some(p) && r.showForm
    ensures r.form.name == p.name && r.form.description == p.description && r.form.category == p.category
    ensures r.form.price == Copied(p.price)
  {
    Editor(Form(p.name, p.description, p.category, Copied(p.price)), Some(p), true)
  }

  /** What `handleSubmit` sends: the form, to `update` for the edited product or to `create`. */
  datatype Submission = Submission(call: ApiClient.Call, body: Form)

  function Submit(e: Editor): (r: Submission)
    ensures r.body == e.form
    ensures e.editing.Some? ==> r.call == ApiClient.Update(e.editing.value.id)
    ensures e.editing.None? ==> r.call == ApiClient.Create
  {
    match e.editing
    case Some(p) => Submission(ApiClient.Update(p.id), e.form)
    case None => Submission(ApiClient.Create, e.form)
  }

  /** Saving an edit form nobody touched sends the product's own attributes back to its URL. */
  lemma UntouchedEditWritesBack(p: ProductInfo)
    ensures var s := Submit(HandleEdit(p));
      && s.call == ApiClient.Update(p.id)
      && s.body.name == p.name && s.body.description == p.description && s.body.category == p.category
      && s.body.price == Copied(p.price)
  {
  }

  /** After a reset, a submit creates a product from four empty text fields, sent as they are. */
  lemma ResetThenSubmitCreates()
    ensures Submit(RESET) == Submission(ApiClient.Create, Form("", "", "", Typed("")))
  {
  }
}
