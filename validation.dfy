/**
 * The checks `InventoryAllocator.__init__` makes in strict mode, in the order it makes
 * them, reporting the first that fails. Python's type tests (`str`, `int`,
 * `dict`, `list`) are carried by the types here; what is left are the emptiness checks,
 * the key-presence checks and the range checks on amounts and stock.
 */
module Validation {
  import opened Wrappers
  import opened Inventory

  datatype ValidationError =
    | EmptyOrder                      // the order dict is empty
    | NonPositiveAmount(item: string) // an order amount is not > 0
    | NoWarehouses                    // the warehouse list is empty
    | MissingKey(index: nat)          // a warehouse lacks `name` or `inventory`
    | NegativeStock(index: nat)       // a warehouse lists a stock below 0

  /** Every stock value the warehouse lists is at least 0. */
  predicate NonNegativeStock(w: Warehouse)
    requires w.inventory.Some?
  {
    forall item :: item in w.inventory.value ==> w.inventory.value[item] >= 0
  }

  predicate GoodWarehouse(w: Warehouse) {
    HasKeys(w) && NonNegativeStock(w)
  }

  /** The inputs strict mode accepts, stated all at once. */
  predicate Valid(orders: Order, ws: Warehouses) {
    && |orders| > 0
    && (forall k :: 0 <= k < |orders| ==> orders[k].1 > 0)
    && |ws| > 0
    && (forall i :: 0 <= i < |ws| ==> GoodWarehouse(ws[i]))
  }

  /** Position of the first order item from the `j`-th on whose amount is not positive. */
  function FirstNonPositive(orders: Order, j: nat): (r: Option<nat>)
    requires j <= |orders|
    ensures r.Some? ==> j <= r.value < |orders| && orders[r.value].1 <= 0
    ensures r.Some? ==> forall k :: j <= k < r.value ==> orders[k].1 > 0
    ensures r.None? <==> forall k :: j <= k < |orders| ==> orders[k].1 > 0
    decreases |orders| - j
  {
    if j == |orders| then None
    else if orders[j].1 <= 0 then Some(j)
    else FirstNonPositive(orders, j + 1)
  }

  /** The first warehouse from the `i`-th on that fails its checks, and which check it fails. */
  function FirstBadWarehouse(ws: Warehouses, i: nat): (r: Option<ValidationError>)
    requires i <= |ws|
    ensures r.Some? ==> r.value.MissingKey? || r.value.NegativeStock?
    ensures r.Some? && r.value.MissingKey? ==> i <= r.value.index < |ws| && !HasKeys(ws[r.value.index])
    ensures r.Some? && r.value.NegativeStock? ==>
      i <= r.value.index < |ws| && HasKeys(ws[r.value.index]) && !NonNegativeStock(ws[r.value.index])
    ensures r.Some? ==> forall k :: i <= k < r.value.index ==> GoodWarehouse(ws[k])
    ensures r.None? <==> forall k :: i <= k < |ws| ==> GoodWarehouse(ws[k])
    decreases |ws| - i
  {
    if i == |ws| then None
    else if !HasKeys(ws[i]) then Some(MissingKey(i))
    else if !NonNegativeStock(ws[i]) then Some(NegativeStock(i))
    else FirstBadWarehouse(ws, i + 1)
  }

  /**
   * The strict checks of the constructor: `None` when they all pass, otherwise the
   * first one that fails. The order is checked before the warehouse list, and the
   * order items and the warehouses in their own order.
   */
  function FirstViolation(orders: Order, ws: Warehouses): (r: Option<ValidationError>)
    ensures r.None? <==> Valid(orders, ws)
    ensures r == Some(EmptyOrder) <==> |orders| == 0
    ensures r.Some? && r.value.NonPositiveAmount? ==>
      exists k :: 0 <= k < |orders| && orders[k] == (r.value.item, orders[k].1) && orders[k].1 <= 0 &&
        forall k' :: 0 <= k' < k ==> orders[k'].1 > 0
    ensures r == Some(NoWarehouses) <==>
      |orders| > 0 && (forall k :: 0 <= k < |orders| ==> orders[k].1 > 0) && |ws| == 0
    ensures r.Some? && (r.value.MissingKey? || r.value.NegativeStock?) ==>
      && |orders| > 0 && (forall k :: 0 <= k < |orders| ==> orders[k].1 > 0)
      && r.value.index < |ws|
      && (forall i :: 0 <= i < r.value.index ==> GoodWarehouse(ws[i]))
      && (r.value.MissingKey? ==> !HasKeys(ws[r.value.index]))
      && (r.value.NegativeStock? ==> HasKeys(ws[r.value.index]) && !NonNegativeStock(ws[r.value.index]))
  {
    if |orders| == 0 then Some(EmptyOrder)
    else match FirstNonPositive(orders, 0)
      case Some(k) => Some(NonPositiveAmount(orders[k].0))
      case None =>
        if |ws| == 0 then Some(NoWarehouses)
        else FirstBadWarehouse(ws, 0)
  }
}
