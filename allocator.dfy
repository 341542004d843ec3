/** The `InventoryAllocator` object: construction with optional strict checks, and the greedy pass. */
module Allocator {
  import opened Wrappers
  import opened Inventory
  import opened Validation
  import opened Allocation

  class InventoryAllocator {
    var orders: Order
    var warehouses: Warehouses

    /** Stores the inputs unchanged. */
    constructor (orders: Order, warehouses: Warehouses)
      ensures this.orders == orders && this.warehouses == warehouses
    {
      this.orders := orders;
      this.warehouses := warehouses;
    }

    /**
     * `InventoryAllocator(orders, warehouses, strict)`: in strict mode the first failing
     * check is raised and no allocator exists; otherwise the inputs are stored as given.
     */
    static method Create(orders: Order, warehouses: Warehouses, strict: bool) returns (r: Result<InventoryAllocator, ValidationError>)
      ensures strict && FirstViolation(orders, warehouses).Some? ==> r == Err(FirstViolation(orders, warehouses).value)
      ensures !strict || FirstViolation(orders, warehouses).None? ==>
        r.Ok? && fresh(r.value) && r.value.orders == orders && r.value.warehouses == warehouses
    {
      if strict {
        var violation := FirstViolation(orders, warehouses);
        if violation.Some? {
          return Err(violation.value);
        }
      }
      var allocator := new InventoryAllocator(orders, warehouses);
      return Ok(allocator);
    }

    /**
     * `getCheapestShipment()`: for each order item in turn, draw from the warehouses
     * cheapest first; the first item left short discards everything and gives `[]`.
     * Only reads the two fields.
     */
    method GetCheapestShipment() returns (r: Result<Shipment, LookupError>)
      ensures r == CheapestShipment(orders, warehouses)
    {
      var orders, warehouses := this.orders, this.warehouses;
      var plan: Shipment := [];
      var j := 0;
      while j < |orders|
        invariant 0 <= j <= |orders|
        invariant AllocateFrom(orders, warehouses, j, plan) == CheapestShipment(orders, warehouses)
      {
        var item, amount := orders[j].0, orders[j].1;
        ghost var start := plan;
        var need := amount;
        var i := 0;
        while i < |warehouses|
          invariant 0 <= i <= |warehouses|
          invariant ScanFrom(item, need, warehouses, i, plan) == ScanFrom(item, amount, warehouses, 0, start)
        {
          ghost var need0, plan0 := need, plan;
          var warehouse := warehouses[i];
          if warehouse.name.None? || warehouse.inventory.None? {
            return Err(KeyError(i));
          }
          var name, inventory := warehouse.name.value, warehouse.inventory.value;
          assert Stock(warehouse, item) == if item in inventory then inventory[item] else 0;
          if item in inventory && inventory[item] > 0 {
            if inventory[item] >= need {
              plan := Record(plan, name, item, need);
              need := 0;
            } else {
              plan := Record(plan, name, item, inventory[item]);
              need := need - inventory[item];
            }
          }
          assert Visit(item, need0, warehouse, plan0) == (need, plan);
          assert ScanFrom(item, need0, warehouses, i, plan0) ==
            if need == 0 then Ok((0, plan)) else ScanFrom(item, need, warehouses, i + 1, plan);
          if need == 0 {
            break;
          }
          i := i + 1;
        }
        assert ScanFrom(item, amount, warehouses, 0, start) == Ok((need, plan));
        if need != 0 {
          return Ok([]);
        }
        assert AllocateFrom(orders, warehouses, j, start) == AllocateFrom(orders, warehouses, j + 1, plan);
        j := j + 1;
      }
      return Ok(plan);
    }
  }
}
