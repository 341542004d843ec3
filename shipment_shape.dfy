/**
 * What every plan the allocator builds looks like: one entry per warehouse, no empty
 * entry, and every amount backed by the stock of a warehouse of that name.
 */
module ShipmentShape {
  import opened Wrappers
  import opened OrderedDict
  import opened Inventory

  /** No entry of the plan names `item` yet. */
  predicate Untouched(plan: Shipment, item: string) {
    forall e :: e in plan ==> Get(e.1, item).None?
  }

  /** Some warehouse called `name` lists a positive stock of `item` of at least `q`. */
  ghost predicate SuppliedBy(ws: Warehouses, name: string, item: string, q: int) {
    exists k :: 0 <= k < |ws| && ws[k].name == Some(name) && 0 < Stock(ws[k], item) && q <= Stock(ws[k], item)
  }

  /** Every amount in the plan is backed by a warehouse of the entry's name. */
  ghost predicate Sourced(plan: Shipment, ws: Warehouses) {
    forall e, d :: e in plan && d in e.1 ==> SuppliedBy(ws, e.0, d.0, d.1)
  }

  predicate PositiveAmounts(plan: Shipment) {
    forall e, d :: e in plan && d in e.1 ==> d.1 > 0
  }

  /**
   * The plan is a dict of dicts, as `warehouse_orders` is: each warehouse name once,
   * each item once per entry, and no entry without items.
   */
  predicate WellShaped(plan: Shipment) {
    && DistinctKeys(plan)
    && forall e :: e in plan ==> e.1 != [] && DistinctKeys(e.1)
  }

  lemma {:induction false} UntouchedDrawsNothing(plan: Shipment, item: string)
    requires Untouched(plan, item)
    ensures TotalDrawn(plan, item) == 0
    ensures forall n :: Drawn(plan, n, item) == 0
  {
    forall n ensures Drawn(plan, n, item) == 0 {
      GetSpec(plan, n);
    }
    if plan != [] {
      assert forall e :: e in plan[1..] ==> e in plan;
      UntouchedDrawsNothing(plan[1..], item);
    }
  }

  /**
   * Recording adds one entry or replaces the warehouse's entry, and that entry holds
   * the new amount and what the warehouse's entry held before.
   */
  lemma RecordPairs(plan: Shipment, name: string, item: string, q: int)
    ensures forall e :: e in Record(plan, name, item, q) ==> e == (name, Put(EntryOf(plan, name), item, q)) || e in plan
    ensures forall d :: d in Put(EntryOf(plan, name), item, q) ==> d == (item, q) || d in EntryOf(plan, name)
    ensures EntryOf(plan, name) != [] ==> (name, EntryOf(plan, name)) in plan
  {
    PutShape(plan, name, Put(EntryOf(plan, name), item, q));
    PutShape(EntryOf(plan, name), item, q);
    GetSpec(plan, name);
  }

  /** Recording an amount of `item` mentions no other item. */
  lemma RecordKeepsUntouched(plan: Shipment, name: string, item: string, q: int)
    ensures forall y :: y != item && Untouched(plan, y) ==> Untouched(Record(plan, name, item, q), y)
  {
    RecordPairs(plan, name, item, q);
    var old_items := EntryOf(plan, name);
    forall y | y != item && Untouched(plan, y) ensures Untouched(Record(plan, name, item, q), y) {
      PutGet(old_items, item, q);
      GetSpec(old_items, y);
    }
  }

  /** Recording an amount backed by stock, or a positive one, keeps the plan so. */
  lemma RecordKeepsBacking(plan: Shipment, ws: Warehouses, name: string, item: string, q: int)
    ensures Sourced(plan, ws) && SuppliedBy(ws, name, item, q) ==> Sourced(Record(plan, name, item, q), ws)
    ensures PositiveAmounts(plan) && q > 0 ==> PositiveAmounts(Record(plan, name, item, q))
  {
    RecordPairs(plan, name, item, q);
  }

  /** Recording keeps the plan a dict of non-empty dicts. */
  lemma RecordKeepsWellShaped(plan: Shipment, name: string, item: string, q: int)
    requires WellShaped(plan)
    ensures WellShaped(Record(plan, name, item, q))
  {
    RecordPairs(plan, name, item, q);
    var old_items := EntryOf(plan, name);
    PutShape(old_items, item, q);
    PutKeepsKeysDistinct(plan, name, Put(old_items, item, q));
    if old_items != [] {
      PutKeepsKeysDistinct(old_items, item, q);
    }
  }
}
