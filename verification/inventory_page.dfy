/**
 * The inventory page: the range filters it sends to the server, the search it applies in the
 * browser, the low-stock highlight, and the add/edit form with what its submit sends.
 */
module InventoryPage {
  import opened Wrappers
  import opened Seqs
  import opened Text
  import opened ClientData
  import LowStockAlerts
  import InventoryModel
  import ApiClient

  /** The filter inputs; all start empty. */
  datatype Filters = Filters(search: string, quantityMin: string, quantityMax: string, restockMin: string, restockMax: string)

  /** The four filters `loadInventory` forwards as query parameters. */
  datatype RangeFilter = QuantityMin | QuantityMax | RestockMin | RestockMax

  function FilterText(f: Filters, k: RangeFilter): string {
    match k
    case QuantityMin => f.quantityMin
    case QuantityMax => f.quantityMax
    case RestockMin => f.restockMin
    case RestockMax => f.restockMax
  }

  /** The query-parameter name of each range filter. */
  function ParamName(k: RangeFilter): string {
    match k
    case QuantityMin => "quantityMin"
    case QuantityMax => "quantityMax"
    case RestockMin => "restockMin"
    case RestockMax => "restockMax"
  }

  /** A parameter is added only when its filter text is truthy, that is non-empty. */
  function AddIfSet(params: map<RangeFilter, string>, f: Filters, k: RangeFilter): map<RangeFilter, string> {
    if FilterText(f, k) != "" then params[k := FilterText(f, k)] else params
  }

  /** The `params` object `loadInventory` passes to `inventoryAPI.getAll`. */
  function QueryParams(f: Filters): (r: map<RangeFilter, string>)
    ensures forall k :: k in r <==> FilterText(f, k) != ""
    ensures forall k :: k in r ==> r[k] == FilterText(f, k)
  {
    var p := AddIfSet(map[], f, QuantityMin);
    var p := AddIfSet(p, f, QuantityMax);
    var p := AddIfSet(p, f, RestockMin);
    AddIfSet(p, f, RestockMax)
  }

  /** The search box is applied in the browser only: changing it does not change the request. */
  lemma SearchStaysLocal(f: Filters, search: string)
    ensures QueryParams(f.(search := search)) == QueryParams(f)
  {
    var g := f.(search := search);
    assert forall k :: FilterText(g, k) == FilterText(f, k);
  }

  /**
   * The search of `filteredInventory`: an empty search keeps the record; otherwise it needs a
   * joined product whose name or category contains the search, ignoring case.
   */
  predicate SearchMatches(it: Item, search: string) {
    search == "" ||
    (DetailsOrProduct(it).Some? &&
     MatchesTerm(DetailsOrProduct(it).value.name, DetailsOrProduct(it).value.category, search))
  }

  /** `filteredInventory`: the records the table shows, in the order the server sent them. */
  function FilteredInventory(items: seq<Item>, search: string): (r: seq<Item>)
    ensures search == "" ==> r == items
    ensures forall i :: 0 <= i < |r| ==> r[i] in items && SearchMatches(r[i], search)
    ensures forall i :: 0 <= i < |items| ==> (items[i] in r <==> SearchMatches(items[i], search))
  {
    if search == "" then FilterKeepsAll(items, it => SearchMatches(it, search)); Filter(items, it => SearchMatches(it, search))
    else Filter(items, it => SearchMatches(it, search))
  }

  /** A record without a joined product only survives the empty search. */
  lemma UnjoinedNeedsEmptySearch(items: seq<Item>, search: string, i: nat)
    requires i < |items| && DetailsOrProduct(items[i]).None?
    ensures items[i] in FilteredInventory(items, search) <==> search == ""
  {
  }

  /** Searching for `Abc` and for `abc` shows the same records. */
  lemma SearchIgnoresCase(items: seq<Item>, search: string)
    ensures FilteredInventory(items, Lower(search)) == FilteredInventory(items, search)
  {
    forall it: Item ensures SearchMatches(it, Lower(search)) == SearchMatches(it, search) {
      if DetailsOrProduct(it).Some? {
        TermCaseIgnored(DetailsOrProduct(it).value.name, DetailsOrProduct(it).value.category, search);
      }
    }
    FilterExt(items, it => SearchMatches(it, Lower(search)), it => SearchMatches(it, search));
  }

  /** `isLowStock`: the rows the table highlights. */
  predicate IsLowStock(it: Item) { it.quantity <= it.restockValue }

  /** The highlighted rows are exactly the records the alerts page lists, in the same order. */
  lemma HighlightedRowsAreAlerts(items: seq<Item>)
    ensures Filter(items, IsLowStock) == Filter(items, LowStockAlerts.IsAlert)
  {
    FilterExt(items, IsLowStock, LowStockAlerts.IsAlert);
  }

  /** The add/edit form. */
  datatype Form = Form(productId: string, quantity: FormValue, restockValue: FormValue)

  const EMPTY_FORM := Form("", Typed(""), Typed(""))

  /** The form, the record being edited (if any) and whether the form is shown. */
  datatype Editor = Editor(form: Form, editing: Option<Item>, showForm: bool)

  /** `resetForm`: three empty fields, nothing being edited, the form hidden. */
  const RESET := Editor(EMPTY_FORM, None, false)

  /** `item.productId || item.Product?.id || item.productDetails?.id || ''`. */
  function EditProductId(it: Item): (r: string)
    ensures it.productId != "" ==> r == it.productId
    ensures it.productId == "" && it.product.Some? && it.product.value.id != "" ==> r == it.product.value.id
    ensures r == "" <==>
      (it.productId == "" && (it.product.None? || it.product.value.id == "") &&
       (it.productDetails.None? || it.productDetails.value.id == ""))
  {
    if it.productId != "" then it.productId
    else if it.product.Some? && it.product.value.id != "" then it.product.value.id
    else if it.productDetails.Some? then it.productDetails.value.id
    else ""
  }

  /** `handleEdit`: the form takes the record's product id and numbers, and is shown. */
  function HandleEdit(it: Item): (r: Editor)
    ensures r.editing == Some(it) && r.showForm
    ensures r.form.productId == EditProductId(it)
    ensures ParseFormInt(r.form.quantity) == Some(it.quantity)
    ensures ParseFormInt(r.form.restockValue) == Some(it.restockValue)
  {
    Editor(Form(EditProductId(it), Copied(it.quantity), Copied(it.restockValue)), Some(it), true)
  }

  /** A number as JSON: `NaN` is serialised as `null`. */
  function NumberField(v: FormValue): (f: Field<int>)
    ensures !f.Absent?
    ensures f.Val? <==> ParseFormInt(v).Some?
    ensures f.Val? ==> f.value == ParseFormInt(v).value
  {
    match ParseFormInt(v)
    case Some(n) => Val(n)
    case None => Null
  }

  /** What `handleSubmit` sends: an update of the edited record, or a new record. */
  datatype Submission =
    | UpdateItem(id: string, patch: InventoryModel.InventoryPatch)
    | CreateItem(body: InventoryModel.InventoryBody)

  /**
   * `handleSubmit`: the form with `quantity` and `restockValue` run through `parseInt`. When a
   * record is being edited it goes to `update` (whose handler reads only the two numbers),
   * otherwise to `create`.
   */
  function Submit(e: Editor): (r: Submission)
    ensures r.UpdateItem? <==> e.editing.Some?
    ensures r.UpdateItem? ==> r.id == e.editing.value.id
    ensures r.UpdateItem? ==>
      r.patch == InventoryModel.InventoryPatch(NumberField(e.form.quantity), NumberField(e.form.restockValue))
    ensures r.CreateItem? ==>
      r.body == InventoryModel.InventoryBody(Val(e.form.productId), NumberField(e.form.quantity), NumberField(e.form.restockValue))
  {
    var quantity := NumberField(e.form.quantity);
    var restockValue := NumberField(e.form.restockValue);
    match e.editing
    case Some(it) => UpdateItem(it.id, InventoryModel.InventoryPatch(quantity, restockValue))
    case None => CreateItem(InventoryModel.InventoryBody(Val(e.form.productId), quantity, restockValue))
  }

  /** The API call a submission makes. */
  function SubmitCall(s: Submission): (c: ApiClient.Call)
    ensures s.UpdateItem? ==> c == ApiClient.Update(s.id)
    ensures s.CreateItem? ==> c == ApiClient.Create
  {
    match s
    case UpdateItem(id, _) => ApiClient.Update(id)
    case CreateItem(_) => ApiClient.Create
  }

  /** Saving an edit form nobody touched writes the record's own numbers back. */
  lemma UntouchedEditWritesBack(it: Item)
    ensures Submit(HandleEdit(it)) ==
      UpdateItem(it.id, InventoryModel.InventoryPatch(Val(it.quantity), Val(it.restockValue)))
  {
  }

  /** After a reset, a submit creates a record, and empty number fields are sent as `null`. */
  lemma ResetThenSubmitCreates()
    ensures Submit(RESET) == CreateItem(InventoryModel.InventoryBody(Val(""), Null, Null))
  {
    ParseIntBlank("");
  }
}
