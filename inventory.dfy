/**
 * The allocator's inputs and output: an order, the cost-ordered warehouse list and the
 * shipment being built, with the quantities the properties speak about.
 */
module Inventory {
  import opened Wrappers
  import opened OrderedDict

  /** The order: item name to requested amount, in the dict's insertion order. */
  type Order = o: Dict<string, int> | DistinctKeys(o) witness []

  /**
   * One element of the warehouse list as the caller passed it. Either of the keys
   * `name` and `inventory` may be missing. The inventory is a `map`: the allocation
   * only looks items up in it, and strict validation visits every stock, in an order
   * that decides only which item it would report.
   */
  datatype Warehouse = Warehouse(name: Option<string>, inventory: Option<map<string, int>>)

  /** The list is cheapest first; this is the caller's promise and is never checked. */
  type Warehouses = seq<Warehouse>

  /** The plan: warehouse name to (item name to amount drawn), in first-use order. */
  type Shipment = Dict<string, Dict<string, int>>

  predicate HasKeys(w: Warehouse) {
    w.name.Some? && w.inventory.Some?
  }

  /** No two warehouses of the list carry the same name. */
  predicate DistinctNames(ws: Warehouses) {
    forall i, j :: 0 <= i < |ws| && 0 <= j < |ws| && i != j && ws[i].name.Some? ==> ws[i].name != ws[j].name
  }

  /** The warehouse's recorded quantity of `item`, 0 when it does not list the item. */
  function Stock(w: Warehouse, item: string): int {
    if w.inventory.Some? && item in w.inventory.value then w.inventory.value[item] else 0
  }

  /** What the allocator may draw from `w`: only a positive stock counts. */
  function Available(w: Warehouse, item: string): nat {
    if Stock(w, item) > 0 then Stock(w, item) else 0
  }

  /** Total stock of `item` in the warehouses `ws[lo..hi]`. */
  function AvailableIn(ws: Warehouses, lo: nat, hi: nat, item: string): nat
    requires lo <= hi <= |ws|
    decreases hi - lo
  {
    if lo == hi then 0 else Available(ws[lo], item) + AvailableIn(ws, lo + 1, hi, item)
  }

  /** Amount of `item` the plan draws from the warehouse called `name`. */
  function Drawn(plan: Shipment, name: string, item: string): int {
    match Get(plan, name)
    case None => 0
    case Some(items) => match Get(items, item) { case None => 0 case Some(q) => q }
  }

  /** Amount of `item` the plan draws, summed over all its entries. */
  function TotalDrawn(plan: Shipment, item: string): int {
    if plan == [] then 0
    else (match Get(plan[0].1, item) { case None => 0 case Some(q) => q }) + TotalDrawn(plan[1..], item)
  }

  /**
   * `warehouse_orders[name][item] = q`, creating the warehouse's entry first when the
   * plan has none yet.
   */
  function Record(plan: Shipment, name: string, item: string, q: int): Shipment {
    Put(plan, name, Put(EntryOf(plan, name), item, q))
  }

  /** The items recorded so far under `name`, none when it has no entry. */
  function EntryOf(plan: Shipment, name: string): Dict<string, int> {
    match Get(plan, name) { case None => [] case Some(items) => items }
  }

  /** The item names of the entry of `name`, in order; none when it has no entry. */
  function ItemsOf(plan: Shipment, name: string): seq<string> {
    var items := EntryOf(plan, name);
    seq(|items|, t requires 0 <= t < |items| => items[t].0)
  }

  /**
   * Recording an item the warehouse's entry does not hold yet puts it after the items
   * already there; every other warehouse's entry stays as it was.
   */
  lemma RecordItems(plan: Shipment, name: string, item: string, q: int)
    ensures Get(EntryOf(plan, name), item).None? ==> ItemsOf(Record(plan, name, item, q), name) == ItemsOf(plan, name) + [item]
    ensures forall n :: n != name ==> EntryOf(Record(plan, name, item, q), n) == EntryOf(plan, n)
  {
    var old_items := EntryOf(plan, name);
    PutGet(plan, name, Put(old_items, item, q));
    if Get(old_items, item).None? {
      PutShape(old_items, item, q);
      assert EntryOf(Record(plan, name, item, q), name) == Put(old_items, item, q);
    }
  }

  /** Recording changes what is drawn for that warehouse and item and for nothing else. */
  lemma RecordDrawn(plan: Shipment, name: string, item: string, q: int)
    ensures Drawn(Record(plan, name, item, q), name, item) == q
    ensures forall n, y :: n != name || y != item ==> Drawn(Record(plan, name, item, q), n, y) == Drawn(plan, n, y)
  {
    PutGet(plan, name, Put(EntryOf(plan, name), item, q));
    PutGet(EntryOf(plan, name), item, q);
  }

  /**
   * Recording never moves an entry: a warehouse seen before keeps its place, and a
   * warehouse drawn from for the first time gets a new entry at the end.
   */
  lemma RecordShape(plan: Shipment, name: string, item: string, q: int)
    ensures |Record(plan, name, item, q)| == if Get(plan, name).Some? then |plan| else |plan| + 1
    ensures forall i :: 0 <= i < |plan| ==> Record(plan, name, item, q)[i].0 == plan[i].0
    ensures Get(plan, name).None? ==> Record(plan, name, item, q)[|plan|] == (name, [(item, q)])
  {
    PutShape(plan, name, Put(EntryOf(plan, name), item, q));
  }

  /** Recording `q` for `item` at `name` replaces that entry's old amount in the item's total. */
  lemma {:induction false} RecordTotals(plan: Shipment, name: string, item: string, q: int)
    ensures TotalDrawn(Record(plan, name, item, q), item) == TotalDrawn(plan, item) - Drawn(plan, name, item) + q
    ensures forall y :: y != item ==> TotalDrawn(Record(plan, name, item, q), y) == TotalDrawn(plan, y)
  {
    if plan != [] && plan[0].0 != name {
      RecordTotals(plan[1..], name, item, q);
      assert Record(plan, name, item, q) == [plan[0]] + Record(plan[1..], name, item, q);
    } else if plan != [] {
      PutGet(plan[0].1, item, q);
      var r := Record(plan, name, item, q);
      assert r == [(name, Put(plan[0].1, item, q))] + plan[1..];
      assert r[1..] == plan[1..];
      forall y | y != item ensures TotalDrawn(r, y) == TotalDrawn(plan, y) {
        assert Get(r[0].1, y) == Get(plan[0].1, y);
      }
    } else {
      PutGet([], item, q);
    }
  }
}
