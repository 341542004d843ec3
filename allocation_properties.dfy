/**
 * Properties of `getCheapestShipment` as a whole: when it raises, when it gives the
 * empty plan, that a plan it gives fills the order exactly, from stock that exists,
 * cheapest warehouses first.
 */
module AllocationProperties {
  import opened Wrappers
  import opened OrderedDict
  import opened Inventory
  import opened ShipmentShape
  import opened Allocation
  import opened ScanProperties
  import opened Validation

  /** The whole warehouse list holds less of the `k`-th order item than is ordered. */
  predicate Short(orders: Order, ws: Warehouses, k: nat)
    requires k < |orders|
  {
    AvailableIn(ws, 0, |ws|, orders[k].0) < orders[k].1
  }

  lemma {:induction false} AllocateKeyError(orders: Order, ws: Warehouses, j: nat, plan: Shipment)
    requires j <= |orders|
    ensures AllocateFrom(orders, ws, j, plan).Err? ==>
      AllocateFrom(orders, ws, j, plan).error.index < |ws| && !HasKeys(ws[AllocateFrom(orders, ws, j, plan).error.index])
    ensures (forall k :: 0 <= k < |ws| ==> HasKeys(ws[k])) ==> AllocateFrom(orders, ws, j, plan).Ok?
    decreases |orders| - j
  {
    if j < |orders| {
      ScanKeyError(orders[j].0, orders[j].1, ws, 0, plan);
      var s := ScanFrom(orders[j].0, orders[j].1, ws, 0, plan);
      if s.Ok? && s.value.0 == 0 {
        AllocateKeyError(orders, ws, j + 1, s.value.1);
      }
    }
  }

  lemma {:induction false} AllocateShort(orders: Order, ws: Warehouses, j: nat, plan: Shipment, k: nat)
    requires j <= k < |orders| && Short(orders, ws, k)
    ensures AllocateFrom(orders, ws, j, plan).Ok? ==> AllocateFrom(orders, ws, j, plan).value == []
    decreases |orders| - j
  {
    var s := ScanFrom(orders[j].0, orders[j].1, ws, 0, plan);
    if j == k && s.Ok? {
      ScanRemaining(orders[j].0, orders[j].1, ws, 0, plan);
    } else if s.Ok? && s.value.0 == 0 {
      AllocateShort(orders, ws, j + 1, s.value.1, k);
    }
  }

  lemma {:induction false} AllocateFeasible(orders: Order, ws: Warehouses, j: nat, plan: Shipment)
    requires j <= |orders| && (j < |orders| || plan != [])
    requires forall i :: 0 <= i < |ws| ==> HasKeys(ws[i])
    requires forall k :: j <= k < |orders| ==> 0 < orders[k].1 <= AvailableIn(ws, 0, |ws|, orders[k].0)
    ensures AllocateFrom(orders, ws, j, plan).Ok? && AllocateFrom(orders, ws, j, plan).value != []
    decreases |orders| - j
  {
    if j < |orders| {
      ScanKeyError(orders[j].0, orders[j].1, ws, 0, plan);
      ScanRemaining(orders[j].0, orders[j].1, ws, 0, plan);
      AllocateFeasible(orders, ws, j + 1, ScanFrom(orders[j].0, orders[j].1, ws, 0, plan).value.1);
    }
  }

  lemma {:induction false} AllocateKeeps(orders: Order, ws: Warehouses, j: nat, plan: Shipment)
    requires j <= |orders| && AllocateFrom(orders, ws, j, plan).Ok?
    ensures var p := AllocateFrom(orders, ws, j, plan).value;
      && (Sourced(plan, ws) ==> Sourced(p, ws))
      && (WellShaped(plan) ==> WellShaped(p))
      && ((forall k :: j <= k < |orders| ==> orders[k].1 > 0) && PositiveAmounts(plan) ==> PositiveAmounts(p))
      && (p != [] ==> |plan| <= |p| && forall t :: 0 <= t < |plan| ==> p[t].0 == plan[t].0)
    decreases |orders| - j
  {
    if j < |orders| {
      var s := ScanFrom(orders[j].0, orders[j].1, ws, 0, plan);
      ScanShape(orders[j].0, orders[j].1, ws, 0, plan);
      ScanBacking(orders[j].0, orders[j].1, ws, 0, plan);
      if s.value.0 == 0 {
        AllocateKeeps(orders, ws, j + 1, s.value.1);
      }
    }
  }

  lemma {:induction false} AllocateOnlyOrdered(orders: Order, ws: Warehouses, j: nat, plan: Shipment, y: string)
    requires j <= |orders| && AllocateFrom(orders, ws, j, plan).Ok?
    requires Untouched(plan, y) && forall k :: j <= k < |orders| ==> orders[k].0 != y
    ensures Untouched(AllocateFrom(orders, ws, j, plan).value, y)
    decreases |orders| - j
  {
    if j < |orders| {
      var s := ScanFrom(orders[j].0, orders[j].1, ws, 0, plan);
      ScanFrame(orders[j].0, orders[j].1, ws, 0, plan);
      if s.value.0 == 0 {
        AllocateOnlyOrdered(orders, ws, j + 1, s.value.1, y);
      }
    }
  }

  lemma {:induction false} AllocateMeetsDemand(orders: Order, ws: Warehouses, j: nat, plan: Shipment)
    requires j <= |orders| && DistinctNames(ws)
    requires forall k :: j <= k < |orders| ==> Untouched(plan, orders[k].0)
    requires AllocateFrom(orders, ws, j, plan).Ok? && AllocateFrom(orders, ws, j, plan).value != []
    ensures forall k :: j <= k < |orders| ==>
      TotalDrawn(AllocateFrom(orders, ws, j, plan).value, orders[k].0) == orders[k].1
    ensures forall k :: 0 <= k < j ==>
      TotalDrawn(AllocateFrom(orders, ws, j, plan).value, orders[k].0) == TotalDrawn(plan, orders[k].0)
    decreases |orders| - j
  {
    if j < |orders| {
      var item, amount := orders[j].0, orders[j].1;
      UntouchedDrawsNothing(plan, item);
      var s := ScanFrom(item, amount, ws, 0, plan);
      ScanConserves(item, amount, ws, 0, plan);
      ScanFrame(item, amount, ws, 0, plan);
      assert forall k :: j < k < |orders| ==> orders[k].0 != item;
      AllocateMeetsDemand(orders, ws, j + 1, s.value.1);
    }
  }

  lemma {:induction false} AllocateGreedy(orders: Order, ws: Warehouses, j: nat, plan: Shipment)
    requires j <= |orders| && DistinctNames(ws)
    requires forall k :: j <= k < |orders| ==> orders[k].1 > 0 && Untouched(plan, orders[k].0)
    requires AllocateFrom(orders, ws, j, plan).Ok? && AllocateFrom(orders, ws, j, plan).value != []
    ensures forall k, i :: j <= k < |orders| && 0 <= i < |ws| && ws[i].name.Some? ==>
      Drawn(AllocateFrom(orders, ws, j, plan).value, ws[i].name.value, orders[k].0)
        == GreedyTake(orders[k].1, ws, 0, i, orders[k].0)
    ensures forall k, n :: 0 <= k < j ==>
      Drawn(AllocateFrom(orders, ws, j, plan).value, n, orders[k].0) == Drawn(plan, n, orders[k].0)
    decreases |orders| - j
  {
    if j < |orders| {
      var item, amount := orders[j].0, orders[j].1;
      UntouchedDrawsNothing(plan, item);
      var s := ScanFrom(item, amount, ws, 0, plan);
      ScanGreedy(item, amount, ws, 0, plan);
      ScanFrame(item, amount, ws, 0, plan);
      var plan1 := s.value.1;
      var p := AllocateFrom(orders, ws, j, plan).value;
      assert s.value.0 == 0 && p == AllocateFrom(orders, ws, j + 1, plan1).value;
      forall k | j < k < |orders| ensures orders[k].1 > 0 && Untouched(plan1, orders[k].0) {
        assert orders[k].0 != item;
      }
      AllocateGreedy(orders, ws, j + 1, plan1);
      forall k, n | 0 <= k < j ensures Drawn(p, n, orders[k].0) == Drawn(plan, n, orders[k].0) {
        assert orders[k].0 != item;
      }
    }
  }

  /**
   * The warehouse names in the order the greedy rule first uses them, taking the order
   * items one after the other from the `j`-th on, after the names in `seen`.
   */
  function FirstUseOrder(orders: Order, ws: Warehouses, j: nat, seen: seq<string>): seq<string>
    requires j <= |orders|
    decreases |orders| - j
  {
    if j == |orders| then seen
    else FirstUseOrder(orders, ws, j + 1, AddAll(seen, GreedySuppliers(orders[j].1, ws, 0, 0, orders[j].0)))
  }

  lemma {:induction false} AllocateOrder(orders: Order, ws: Warehouses, j: nat, plan: Shipment)
    requires j <= |orders| && forall k :: j <= k < |orders| ==> orders[k].1 > 0
    requires AllocateFrom(orders, ws, j, plan).Ok? && AllocateFrom(orders, ws, j, plan).value != []
    ensures Names(AllocateFrom(orders, ws, j, plan).value) == FirstUseOrder(orders, ws, j, Names(plan))
    decreases |orders| - j
  {
    if j < |orders| {
      var s := ScanFrom(orders[j].0, orders[j].1, ws, 0, plan);
      ScanOrder(orders[j].0, orders[j].1, ws, 0, plan);
      AllocateOrder(orders, ws, j + 1, s.value.1);
    }
  }

  /**
   * The order items, from the `j`-th on, that the greedy rule draws from warehouse `i`,
   * in the order's own order.
   */
  function SuppliedItems(orders: Order, ws: Warehouses, j: nat, i: nat): seq<string>
    requires j <= |orders| && i < |ws|
    decreases |orders| - j
  {
    if j == |orders| then []
    else if GreedyTake(orders[j].1, ws, 0, i, orders[j].0) > 0 then [orders[j].0] + SuppliedItems(orders, ws, j + 1, i)
    else SuppliedItems(orders, ws, j + 1, i)
  }

  /** An item no entry mentions is not in the entry of any warehouse. */
  lemma UntouchedEntries(plan: Shipment, item: string)
    requires Untouched(plan, item)
    ensures forall n :: Get(EntryOf(plan, n), item).None?
  {
    forall n ensures Get(EntryOf(plan, n), item).None? {
      GetSpec(plan, n);
    }
  }

  /** The scan for the `j`-th order item leaves the later, different items untouched. */
  lemma LaterItemsUntouched(orders: Order, ws: Warehouses, j: nat, plan: Shipment)
    requires j < |orders|
    requires forall k :: j <= k < |orders| ==> orders[k].1 > 0 && Untouched(plan, orders[k].0)
    requires ScanFrom(orders[j].0, orders[j].1, ws, 0, plan).Ok?
    ensures forall k :: j < k < |orders| ==> Untouched(ScanFrom(orders[j].0, orders[j].1, ws, 0, plan).value.1, orders[k].0)
  {
    ScanFrame(orders[j].0, orders[j].1, ws, 0, plan);
    forall k | j < k < |orders| ensures orders[k].0 != orders[j].0 {
      assert orders[k] != orders[j];
    }
  }

  /** One order item's share for warehouse `i` comes before the later items' shares. */
  lemma ItemsStep(orders: Order, ws: Warehouses, j: nat, i: nat, before: seq<string>, mid: seq<string>, after: seq<string>)
    requires j < |orders| && i < |ws|
    requires mid == before + (if GreedyTake(orders[j].1, ws, 0, i, orders[j].0) > 0 then [orders[j].0] else [])
    requires after == mid + SuppliedItems(orders, ws, j + 1, i)
    ensures after == before + SuppliedItems(orders, ws, j, i)
  {
  }

  /**
   * From the `j`-th order item on, a non-empty result appends to each warehouse's item
   * names the remaining items it gets a positive greedy share of, in the order's order.
   */
  lemma {:induction false} AllocateItems(orders: Order, ws: Warehouses, j: nat, plan: Shipment)
    requires j <= |orders| && DistinctNames(ws)
    requires forall k :: j <= k < |orders| ==> orders[k].1 > 0 && Untouched(plan, orders[k].0)
    requires AllocateFrom(orders, ws, j, plan).Ok? && AllocateFrom(orders, ws, j, plan).value != []
    ensures forall i :: 0 <= i < |ws| && ws[i].name.Some? ==>
      ItemsOf(AllocateFrom(orders, ws, j, plan).value, ws[i].name.value)
        == ItemsOf(plan, ws[i].name.value) + SuppliedItems(orders, ws, j, i)
    decreases |orders| - j
  {
    if j < |orders| {
      var item, amount := orders[j].0, orders[j].1;
      var s := ScanFrom(item, amount, ws, 0, plan);
      var plan1 := s.value.1;
      var p := AllocateFrom(orders, ws, j, plan).value;
      assert s.value.0 == 0 && p == AllocateFrom(orders, ws, j + 1, plan1).value;
      forall i | 0 <= i < |ws| && ws[i].name.Some?
        ensures ItemsOf(plan1, ws[i].name.value)
          == ItemsOf(plan, ws[i].name.value) + (if GreedyTake(amount, ws, 0, i, item) > 0 then [item] else [])
      {
        UntouchedEntries(plan, item);
        ScanItems(item, amount, ws, 0, plan, i);
      }
      LaterItemsUntouched(orders, ws, j, plan);
      AllocateItems(orders, ws, j + 1, plan1);
      forall i | 0 <= i < |ws| && ws[i].name.Some?
        ensures ItemsOf(p, ws[i].name.value) == ItemsOf(plan, ws[i].name.value) + SuppliedItems(orders, ws, j, i)
      {
        ItemsStep(orders, ws, j, i, ItemsOf(plan, ws[i].name.value), ItemsOf(plan1, ws[i].name.value), ItemsOf(p, ws[i].name.value));
      }
    }
  }

  // ---- The allocator's promises, for the whole order

  /**
   * `getCheapestShipment` raises only on reaching a list element without `name` or
   * `inventory`, and never raises when every element has both.
   */
  lemma RaisesOnlyOnMissingKey(orders: Order, ws: Warehouses)
    ensures CheapestShipment(orders, ws).Err? ==>
      CheapestShipment(orders, ws).error.index < |ws| && !HasKeys(ws[CheapestShipment(orders, ws).error.index])
    ensures (forall i :: 0 <= i < |ws| ==> HasKeys(ws[i])) ==> CheapestShipment(orders, ws).Ok?
  {
    AllocateKeyError(orders, ws, 0, []);
  }

  /** A non-empty plan draws, over all its entries, exactly the ordered amount of every item. */
  lemma FilledOrderMeetsDemand(orders: Order, ws: Warehouses)
    requires DistinctNames(ws)
    requires CheapestShipment(orders, ws).Ok? && CheapestShipment(orders, ws).value != []
    ensures forall k :: 0 <= k < |orders| ==> TotalDrawn(CheapestShipment(orders, ws).value, orders[k].0) == orders[k].1
  {
    AllocateMeetsDemand(orders, ws, 0, []);
  }

  /**
   * Every plan is a dict of non-empty dicts with each warehouse once, every amount in
   * it is backed by a positive stock of a warehouse of that name, and it mentions only
   * ordered items; with positive order amounts every amount is positive.
   */
  lemma ShipmentIsWellShaped(orders: Order, ws: Warehouses)
    requires CheapestShipment(orders, ws).Ok?
    ensures WellShaped(CheapestShipment(orders, ws).value)
    ensures Sourced(CheapestShipment(orders, ws).value, ws)
    ensures (forall k :: 0 <= k < |orders| ==> orders[k].1 > 0) ==> PositiveAmounts(CheapestShipment(orders, ws).value)
    ensures forall y :: (forall k :: 0 <= k < |orders| ==> orders[k].0 != y) ==> Untouched(CheapestShipment(orders, ws).value, y)
  {
    AllocateKeeps(orders, ws, 0, []);
    forall y | forall k :: 0 <= k < |orders| ==> orders[k].0 != y
      ensures Untouched(CheapestShipment(orders, ws).value, y)
    {
      AllocateOnlyOrdered(orders, ws, 0, [], y);
    }
  }

  /**
   * With distinct names, an amount drawn from a warehouse is at most its stock of the
   * item, and a warehouse with no positive stock of an item never supplies it.
   */
  lemma DrawnWithinStock(orders: Order, ws: Warehouses)
    requires DistinctNames(ws) && CheapestShipment(orders, ws).Ok?
    ensures forall e, d, i :: e in CheapestShipment(orders, ws).value && d in e.1 && 0 <= i < |ws| && ws[i].name == Some(e.0) ==>
      0 < Stock(ws[i], d.0) && d.1 <= Stock(ws[i], d.0)
    ensures forall e, i, item ::
      e in CheapestShipment(orders, ws).value && 0 <= i < |ws| && ws[i].name == Some(e.0) && Stock(ws[i], item) <= 0
      ==> Get(e.1, item).None?
  {
    var p := CheapestShipment(orders, ws).value;
    ShipmentIsWellShaped(orders, ws);
    forall e, d, i | e in p && d in e.1 && 0 <= i < |ws| && ws[i].name == Some(e.0)
      ensures 0 < Stock(ws[i], d.0) && d.1 <= Stock(ws[i], d.0)
    {
      assert SuppliedBy(ws, e.0, d.0, d.1);
    }
    forall e, i, item | e in p && 0 <= i < |ws| && ws[i].name == Some(e.0) && Stock(ws[i], item) <= 0
      ensures Get(e.1, item).None?
    {
      GetSpec(e.1, item);
    }
  }

  /**
   * All or nothing: when the whole list holds less of some ordered item than is
   * ordered, the plan is empty (or the call raised), however much of the other items
   * was already allocated.
   */
  lemma ShortItemEmptiesShipment(orders: Order, ws: Warehouses, k: nat)
    requires k < |orders| && Short(orders, ws, k)
    ensures CheapestShipment(orders, ws).Ok? ==> CheapestShipment(orders, ws).value == []
  {
    AllocateShort(orders, ws, 0, [], k);
  }

  /** With positive amounts and enough stock of every item, the plan is not empty. */
  lemma EnoughStockFillsOrder(orders: Order, ws: Warehouses)
    requires |orders| > 0 && forall i :: 0 <= i < |ws| ==> HasKeys(ws[i])
    requires forall k :: 0 <= k < |orders| ==> 0 < orders[k].1 <= AvailableIn(ws, 0, |ws|, orders[k].0)
    ensures CheapestShipment(orders, ws).Ok? && CheapestShipment(orders, ws).value != []
  {
    AllocateFeasible(orders, ws, 0, []);
  }

  /**
   * For a non-empty order with positive amounts and complete warehouses, the plan is
   * empty exactly when some item is short.
   */
  lemma EmptyShipmentIffShort(orders: Order, ws: Warehouses)
    requires |orders| > 0 && forall i :: 0 <= i < |ws| ==> HasKeys(ws[i])
    requires forall k :: 0 <= k < |orders| ==> orders[k].1 > 0
    ensures CheapestShipment(orders, ws).Ok?
    ensures CheapestShipment(orders, ws).value == [] <==> exists k :: 0 <= k < |orders| && Short(orders, ws, k)
  {
    RaisesOnlyOnMissingKey(orders, ws);
    if k :| 0 <= k < |orders| && Short(orders, ws, k) {
      ShortItemEmptiesShipment(orders, ws, k);
    } else {
      forall k | 0 <= k < |orders| ensures orders[k].1 <= AvailableIn(ws, 0, |ws|, orders[k].0) {
        assert !Short(orders, ws, k);
      }
      EnoughStockFillsOrder(orders, ws);
    }
  }

  /**
   * Cheapest first: with positive amounts and distinct names, a non-empty plan draws
   * from each warehouse exactly its greedy amount of each item.
   */
  lemma GreedyCheapestFirst(orders: Order, ws: Warehouses)
    requires DistinctNames(ws) && forall k :: 0 <= k < |orders| ==> orders[k].1 > 0
    requires CheapestShipment(orders, ws).Ok? && CheapestShipment(orders, ws).value != []
    ensures forall k, i :: 0 <= k < |orders| && 0 <= i < |ws| && ws[i].name.Some? ==>
      Drawn(CheapestShipment(orders, ws).value, ws[i].name.value, orders[k].0) == GreedyTake(orders[k].1, ws, 0, i, orders[k].0)
  {
    AllocateGreedy(orders, ws, 0, []);
  }

  /**
   * A warehouse that supplies an item only does so after every cheaper warehouse has
   * given all of its stock of that item.
   */
  lemma CheaperWarehousesEmptiedFirst(orders: Order, ws: Warehouses, k: nat, i: nat, i': nat)
    requires DistinctNames(ws) && forall k :: 0 <= k < |orders| ==> orders[k].1 > 0
    requires CheapestShipment(orders, ws).Ok? && CheapestShipment(orders, ws).value != []
    requires k < |orders| && i < i' < |ws| && ws[i].name.Some? && ws[i'].name.Some?
    requires Drawn(CheapestShipment(orders, ws).value, ws[i'].name.value, orders[k].0) > 0
    ensures Drawn(CheapestShipment(orders, ws).value, ws[i].name.value, orders[k].0) == Available(ws[i], orders[k].0)
  {
    GreedyCheapestFirst(orders, ws);
    AvailableInSplit(ws, 0, i, i', orders[k].0);
    AvailableInSplit(ws, i, i + 1, i', orders[k].0);
  }

  /** Once the cheaper warehouses hold enough of an item, no further warehouse supplies it. */
  lemma NothingDrawnOnceCovered(orders: Order, ws: Warehouses, k: nat, i: nat)
    requires DistinctNames(ws) && forall k :: 0 <= k < |orders| ==> orders[k].1 > 0
    requires CheapestShipment(orders, ws).Ok? && CheapestShipment(orders, ws).value != []
    requires k < |orders| && i < |ws| && ws[i].name.Some?
    requires AvailableIn(ws, 0, i, orders[k].0) >= orders[k].1
    ensures Drawn(CheapestShipment(orders, ws).value, ws[i].name.value, orders[k].0) == 0
  {
    GreedyCheapestFirst(orders, ws);
  }

  /** Inputs that pass the strict checks never make `getCheapestShipment` raise. */
  lemma ValidInputNeverRaises(orders: Order, ws: Warehouses)
    requires FirstViolation(orders, ws).None?
    ensures CheapestShipment(orders, ws).Ok?
    ensures CheapestShipment(orders, ws).value == [] <==> exists k :: 0 <= k < |orders| && Short(orders, ws, k)
  {
    EmptyShipmentIffShort(orders, ws);
  }

  /**
   * The entries of a non-empty plan come in the order in which the warehouses were
   * first drawn from, item by item and cheapest first, which need not be the order of
   * the warehouse list.
   */
  lemma EntriesInFirstUseOrder(orders: Order, ws: Warehouses)
    requires forall k :: 0 <= k < |orders| ==> orders[k].1 > 0
    requires CheapestShipment(orders, ws).Ok? && CheapestShipment(orders, ws).value != []
    ensures Names(CheapestShipment(orders, ws).value) == FirstUseOrder(orders, ws, 0, [])
  {
    assert Names([]) == [];
    AllocateOrder(orders, ws, 0, []);
  }

  /**
   * Inside each entry of a non-empty plan, the items come in the order's own order:
   * exactly the ordered items that warehouse gives a positive greedy share of. With
   * the entry order and the amounts above, this fixes the plan completely.
   */
  lemma EntryItemsInOrderOrder(orders: Order, ws: Warehouses)
    requires DistinctNames(ws) && forall k :: 0 <= k < |orders| ==> orders[k].1 > 0
    requires CheapestShipment(orders, ws).Ok? && CheapestShipment(orders, ws).value != []
    ensures forall i :: 0 <= i < |ws| && ws[i].name.Some? ==>
      ItemsOf(CheapestShipment(orders, ws).value, ws[i].name.value) == SuppliedItems(orders, ws, 0, i)
  {
    AllocateItems(orders, ws, 0, []);
    forall n ensures ItemsOf([], n) == [] {
    }
  }
}
