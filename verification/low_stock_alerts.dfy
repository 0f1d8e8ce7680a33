/**
 * The low-stock alerts page: the records at or below their restock threshold, each with an
 * urgency, a status and a recommended action, and the four summary cards above the table.
 */
module LowStockAlerts {
  import opened Wrappers
  import opened Seqs
  import opened ClientData

  /** An item needs attention when its quantity has reached its restock value. */
  predicate IsAlert(it: Item) { it.quantity <= it.restockValue }

  /** What the page keeps between renders. */
  datatype Page = Page(alerts: seq<Item>, error: string)

  const LOAD_FAILED := "Failed to load alerts"

  /**
   * `loadAlerts`: on a response, `data.inventories || data` filtered down to the alerts when it is
   * an array and `[]` otherwise, with the error cleared; on a failed request the previous alerts
   * stay and the error is set.
   */
  function LoadAlerts(prev: Page, response: Result<Json<Item>, string>): (r: Page)
    ensures response.Err? ==> r.alerts == prev.alerts && r.error == LOAD_FAILED
    ensures response.Ok? ==> r.error == ""
    ensures response.Ok? && !PropOr(response.value).JArray? ==> r.alerts == []
    ensures response.Ok? && PropOr(response.value).JArray? ==>
      var all := PropOr(response.value).items;
      && (forall i :: 0 <= i < |r.alerts| ==> r.alerts[i] in all && IsAlert(r.alerts[i]))
      && (forall i :: 0 <= i < |all| ==> (all[i] in r.alerts <==> IsAlert(all[i])))
      && (forall x :: multiset(r.alerts)[x] == if IsAlert(x) then multiset(all)[x] else 0)
      && r.alerts == Filter(all, IsAlert)
  {
    match response
    case Err(_) => prev.(error := LOAD_FAILED)
    case Ok(data) =>
      var all := ArrayOrEmpty(PropOr(data));
      FilterMultiset(all, IsAlert);
      Page(Filter(all, IsAlert), "")
  }

  datatype Urgency = Critical | High | Medium

  /** `quantity <= restockValue * 0.5`, exactly, over the integers. */
  predicate AtMostHalf(it: Item) { 2 * it.quantity <= it.restockValue }

  /** `getUrgencyLevel`: the badge of a row. */
  function UrgencyLevel(it: Item): (u: Urgency)
    ensures u == Critical <==> it.quantity == 0
    ensures u == High <==> it.quantity != 0 && AtMostHalf(it)
    ensures u == Medium <==> it.quantity != 0 && !AtMostHalf(it)
  {
    if it.quantity == 0 then Critical
    else if AtMostHalf(it) then High
    else Medium
  }

  function UrgencyName(u: Urgency): string {
    match u
    case Critical => "Critical"
    case High => "High"
    case Medium => "Medium"
  }

  function UrgencyColor(u: Urgency): string {
    match u
    case Critical => "#dc3545"
    case High => "#fd7e14"
    case Medium => "#ffc107"
  }

  datatype Status = OutOfStock | LowStock | BelowThreshold

  function StatusText(s: Status): string {
    match s
    case OutOfStock => "Out of Stock"
    case LowStock => "Low Stock"
    case BelowThreshold => "Below Threshold"
  }

  /** `getStockStatus`: the status column. */
  function StockStatus(it: Item): (r: Status)
    ensures r == OutOfStock <==> it.quantity == 0
    ensures r == BelowThreshold <==> it.quantity != 0 && !IsAlert(it)
    ensures r == LowStock <==> it.quantity != 0 && IsAlert(it)
  {
    if it.quantity == 0 then OutOfStock
    else if IsAlert(it) then LowStock
    else BelowThreshold
  }

  /** No row of the page is ever labelled "Below Threshold": every row is an alert. */
  lemma AlertsNeverBelowThreshold(prev: Page, response: Result<Json<Item>, string>)
    requires forall i :: 0 <= i < |prev.alerts| ==> IsAlert(prev.alerts[i])
    ensures var p := LoadAlerts(prev, response);
      forall i :: 0 <= i < |p.alerts| ==> StockStatus(p.alerts[i]) != BelowThreshold
  {
  }

  datatype ActionNeeded = ImmediateRestock | UrgentRestock | PlanRestock

  function ActionText(a: ActionNeeded): string {
    match a
    case ImmediateRestock => "Immediate restock required!"
    case UrgentRestock => "Urgent restock needed"
    case PlanRestock => "Plan restock soon"
  }

  /** The "Action Needed" column, which repeats the urgency tests inline. */
  function Action(it: Item): ActionNeeded {
    if it.quantity == 0 then ImmediateRestock
    else if AtMostHalf(it) then UrgentRestock
    else PlanRestock
  }

  /** The action each urgency badge calls for. */
  function ActionFor(u: Urgency): ActionNeeded {
    match u
    case Critical => ImmediateRestock
    case High => UrgentRestock
    case Medium => PlanRestock
  }

  /** The action column and the urgency badge always tell the same story. */
  lemma ActionAgreesWithUrgency(it: Item)
    ensures Action(it) == ActionFor(UrgencyLevel(it))
    ensures Action(it) == ImmediateRestock <==> UrgencyLevel(it) == Critical
    ensures Action(it) == UrgentRestock <==> UrgencyLevel(it) == High
  {
  }

  predicate IsOutOfStock(it: Item) { it.quantity == 0 }
  predicate IsCriticalLow(it: Item) { it.quantity > 0 && AtMostHalf(it) }
  predicate IsLow(it: Item) { !AtMostHalf(it) && it.quantity <= it.restockValue }

  /** The four summary cards. */
  datatype Summary = Summary(outOfStock: nat, criticalLow: nat, low: nat, total: nat)

  function Summarize(alerts: seq<Item>): Summary {
    Summary(
      |Filter(alerts, IsOutOfStock)|, |Filter(alerts, IsCriticalLow)|, |Filter(alerts, IsLow)|,
      |alerts|)
  }

  /**
   * For alerts with non-negative quantities the first three cards partition the list: every
   * alert is counted by exactly one of them, so they add up to the "Total Alerts" card.
   */
  lemma {:induction false} SummaryPartitions(alerts: seq<Item>)
    requires forall i :: 0 <= i < |alerts| ==> IsAlert(alerts[i]) && alerts[i].quantity >= 0
    ensures var s := Summarize(alerts); s.outOfStock + s.criticalLow + s.low == s.total
    decreases |alerts|
  {
    if |alerts| > 0 {
      SummaryPartitions(alerts[1..]);
    }
  }

  /**
   * The "Out of Stock" card counts the Critical badges, and for non-negative quantities the
   * "Critical Low" card counts the High badges and the "Low Stock" card the Medium ones.
   */
  lemma SummaryMatchesUrgency(alerts: seq<Item>)
    requires forall i :: 0 <= i < |alerts| ==> IsAlert(alerts[i]) && alerts[i].quantity >= 0
    ensures Summarize(alerts).outOfStock == |Filter(alerts, (it: Item) => UrgencyLevel(it) == Critical)|
    ensures Summarize(alerts).criticalLow == |Filter(alerts, (it: Item) => UrgencyLevel(it) == High)|
    ensures Summarize(alerts).low == |Filter(alerts, (it: Item) => UrgencyLevel(it) == Medium)|
  {
    FilterExt(alerts, IsOutOfStock, (it: Item) => UrgencyLevel(it) == Critical);
    FilterExt(alerts, IsCriticalLow, (it: Item) => UrgencyLevel(it) == High);
    FilterExt(alerts, IsLow, (it: Item) => UrgencyLevel(it) == Medium);
  }
}
