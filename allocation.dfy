/**
 * What `getCheapestShipment` computes, as functions: the scan of the warehouse list for
 * one order item, and the pass over the order items that either keeps the plan or
 * throws it away.
 */
module Allocation {
  import opened Wrappers
  import opened Inventory

  /** Reading `name` or `inventory` of the list element at `index` raised a KeyError. */
  datatype LookupError = KeyError(index: nat)

  /**
   * One warehouse of the scan for `item`, with `need` still to be found: a warehouse
   * with a positive stock of the item gives the smaller of that stock and the need,
   * recorded under its name.
   */
  function Visit(item: string, need: int, w: Warehouse, plan: Shipment): (int, Shipment)
    requires HasKeys(w)
  {
    var stock := Stock(w, item);
    if stock <= 0 then (need, plan)
    else if stock >= need then (0, Record(plan, w.name.value, item, need))
    else (need - stock, Record(plan, w.name.value, item, stock))
  }

  /**
   * The scan for `item` from warehouse `i` on, with `need` still to be found and `plan`
   * built so far: the amount still missing and the plan when the scan ends. The scan
   * stops once the need is 0; reaching a warehouse without `name` or `inventory` fails.
   */
  function ScanFrom(item: string, need: int, ws: Warehouses, i: nat, plan: Shipment): Result<(int, Shipment), LookupError>
    requires i <= |ws|
    decreases |ws| - i
  {
    if i == |ws| then Ok((need, plan))
    else if !HasKeys(ws[i]) then Err(KeyError(i))
    else
      var (need', plan') := Visit(item, need, ws[i], plan);
      if need' == 0 then Ok((0, plan')) else ScanFrom(item, need', ws, i + 1, plan')
  }

  /**
   * The pass over the order items from the `j`-th on: an item still short after its
   * scan makes the whole result the empty plan.
   */
  function AllocateFrom(orders: Order, ws: Warehouses, j: nat, plan: Shipment): Result<Shipment, LookupError>
    requires j <= |orders|
    decreases |orders| - j
  {
    if j == |orders| then Ok(plan)
    else
      match ScanFrom(orders[j].0, orders[j].1, ws, 0, plan)
      case Err(e) => Err(e)
      case Ok((need, plan')) => if need != 0 then Ok([]) else AllocateFrom(orders, ws, j + 1, plan')
  }

  /** `getCheapestShipment()`: the plan, `[]` when the order cannot be filled completely. */
  function CheapestShipment(orders: Order, ws: Warehouses): Result<Shipment, LookupError> {
    AllocateFrom(orders, ws, 0, [])
  }
}
