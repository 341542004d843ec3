# Inventory allocator, modelled in Dafny

This project models the `InventoryAllocator` class of the inventory-allocator exercise.
It has two parts:

- **Construction.** The allocator takes an order (item name to amount) and a warehouse list that is sorted cheapest first. Each warehouse carries a `name` and an `inventory` of item name to stock. In strict mode the constructor first checks its inputs and raises on the first check that fails. In every other case it stores the inputs unchanged.
- **`getCheapestShipment`.** For each ordered item, in the order's own order, it walks the warehouse list cheapest first. From every warehouse with a positive stock of the item it takes the smaller of that stock and the amount still needed. Each take is recorded in a per-warehouse entry, which is created on the first take from that warehouse. The walk stops as soon as the item is covered. If some item is still short when the list runs out, the call returns `[]` and discards everything already allocated. Otherwise it returns one entry per warehouse, in the order the warehouses were first drawn from.

Layout:

| file | module | contents |
|---|---|---|
| `wrappers.dfy` | `Wrappers` | `Option`, `Result` |
| `ordered_dict.dfy` | `OrderedDict` | Python dicts as insertion-ordered key/value sequences: `d.get(k)`, `d[k] = v` |
| `inventory.dfy` | `Inventory` | orders, warehouses, the plan; stock, amounts drawn, recording one take |
| `validation.dfy` | `Validation` | the strict checks of the constructor, in their order |
| `allocation.dfy` | `Allocation` | `getCheapestShipment` as functions: one warehouse visit, the scan for one item, the pass over the order |
| `shipment_shape.dfy` | `ShipmentShape` | what a plan looks like: well shaped, backed by stock, positive |
| `scan_properties.dfy` | `ScanProperties` | what the scan for one item does, including the greedy rule in closed form |
| `allocation_properties.dfy` | `AllocationProperties` | the allocator's promises for the whole order |
| `allocator.dfy` | `Allocator` | the `InventoryAllocator` class: constructor, strict `Create`, and the imperative `GetCheapestShipment` with its nested loops |
| `scenarios.dfy` | `Scenarios` | the exercise's own examples, worked out on concrete inputs |

Modelling choices:

- Python's `int` is unbounded, and so is Dafny's `int`.
- A Python dict that the allocator builds or iterates is a sequence of pairs in insertion order (`OrderedDict.Dict`). Assigning to a key that is already present replaces its value where it stands, and assigning to a new key appends it.
- A warehouse inventory is a `map`. `getCheapestShipment` only looks items up in it (lines 69-82). Strict validation iterates it (line 51), but only to check each stock, so only which item is reported first depends on the order (see "## Left out").
- The missing-key `KeyError` of `warehouse['name']` or `warehouse['inventory']` is `Err(KeyError(i))`. Here `i` is the list position of the warehouse the scan had reached.
- A strict-mode `AssertionError` is `Err(e)`, where `e` says which check failed first.
- The returned list of one-entry dicts `[{name: items}, ...]` is the sequence of pairs `[(name, items), ...]`.
- `GetCheapestShipment` takes no precondition. An amount of 0 or less is allowed in non-strict mode, and two warehouses with the same name are allowed in both modes, since strict mode never compares names (lines 44-53). Both are modelled as the code behaves: it records a 0 or negative take, or merges the entries under one key. Properties that only hold without such inputs state that in their `requires`.
- `GetCheapestShipment` has no `modifies` clause. Dafny therefore guarantees that it changes neither field nor anything else on the heap. Its result is proved equal to `Allocation.CheapestShipment`, and every property below is stated about that function.
- `if not warehouse_orders.get(name)` resets an entry that is absent or empty. Entries are never empty (`ShipmentShape.WellShaped`), and even resetting an empty entry would produce the same plan. `Inventory.Record` therefore reuses whatever the entry holds.

## Model

| member | source | states |
|---|---|---|
| OrderedDict.GetSpec | inventory-allocator/InventoryAllocator.py:73 | `d.get(k)` finds a value exactly when some pair has key `k`, and the value it finds belongs to such a pair |
| OrderedDict.GetDistinct | inventory-allocator/InventoryAllocator.py:73 | in a dict with distinct keys, looking up a pair's key gives that pair's value |
| OrderedDict.PutGet | inventory-allocator/InventoryAllocator.py:74-81 | after `d[k] = v`, `k` reads `v` and every other key reads what it read before |
| OrderedDict.PutShape | inventory-allocator/InventoryAllocator.py:74-81 | `d[k] = v` keeps every key at its position, appends a new key at the end, and adds no pair but `(k, v)` |
| OrderedDict.PutKeepsKeysDistinct | inventory-allocator/InventoryAllocator.py:74-81 | assignment never makes a key occur twice |
| Inventory.RecordDrawn | inventory-allocator/InventoryAllocator.py:73-81 | recording `q` for a warehouse and item makes the plan draw `q` there, and leaves every other (warehouse, item) pair as it was |
| Inventory.RecordShape | inventory-allocator/InventoryAllocator.py:73-74 | recording never moves an entry; a warehouse drawn from for the first time gets a new entry `(name, [(item, q)])` at the end |
| Inventory.RecordTotals | inventory-allocator/InventoryAllocator.py:78-81 | recording replaces the old amount in the item's total over all entries and leaves every other item's total unchanged |
| Inventory.RecordItems | inventory-allocator/InventoryAllocator.py:73-81 | recording an item that the warehouse's entry does not hold yet puts it after the items already there; every other warehouse's entry stays as it was |
| ShipmentShape.UntouchedDrawsNothing | inventory-allocator/InventoryAllocator.py:62 | an item no entry mentions is drawn nowhere, and its total is 0 |
| ShipmentShape.RecordKeepsUntouched | inventory-allocator/InventoryAllocator.py:73-81 | recording an amount of one item leaves every item no entry mentions still unmentioned |
| ShipmentShape.RecordKeepsBacking | inventory-allocator/InventoryAllocator.py:73-81 | recording an amount that a warehouse of that name holds keeps every amount stock-backed; recording a positive amount keeps all amounts positive |
| ShipmentShape.RecordKeepsWellShaped | inventory-allocator/InventoryAllocator.py:73-81 | recording keeps the plan a dict of non-empty dicts, each warehouse and each item in an entry once |
| ScanProperties.ScanKeyError | inventory-allocator/InventoryAllocator.py:67-69 | the scan fails only at a warehouse lacking `name` or `inventory`, and never fails when none does |
| ScanProperties.ScanRemaining | inventory-allocator/InventoryAllocator.py:67-86 | what stays missing after the scan is the need minus the whole list's stock, floored at 0; once something is taken the plan is not empty |
| ScanProperties.ScanFrame | inventory-allocator/InventoryAllocator.py:67-86 | the scan for one item leaves every other item's amounts, totals and absence from the plan as they were |
| ScanProperties.ScanShape | inventory-allocator/InventoryAllocator.py:67-86 | the scan keeps the plan well shaped, never shortens it and moves no entry |
| ScanProperties.ScanBacking | inventory-allocator/InventoryAllocator.py:71-82 | the scan keeps every amount backed by a warehouse's positive stock, and positive when the need is |
| ScanProperties.ScanConserves | inventory-allocator/InventoryAllocator.py:76-82 | when names are distinct, the total drawn for the item plus what stays missing equals the need |
| ScanProperties.ScanGreedy | inventory-allocator/InventoryAllocator.py:67-86 | when names are distinct, each warehouse gives exactly its greedy share: all its stock while the cheaper ones fall short, then the remainder, then nothing |
| ScanProperties.RecordNames | inventory-allocator/InventoryAllocator.py:73-74 | recording adds the warehouse's name to the entry names unless it is there already |
| ScanProperties.GreedySuppliersShift | inventory-allocator/InventoryAllocator.py:82 | seen from the next warehouse, the greedy suppliers are those for the need less what the current warehouse holds |
| ScanProperties.ScanOrder | inventory-allocator/InventoryAllocator.py:67-86 | the scan adds to the entry names the warehouses with a positive greedy share (`GreedyTake`), in list order, each unless it has an entry already |
| ScanProperties.VisitItems | inventory-allocator/InventoryAllocator.py:71-82 | visiting a warehouse adds the item at the end of its entry exactly when the greedy rule takes some there, and changes no other entry |
| ScanProperties.ScanItems | inventory-allocator/InventoryAllocator.py:67-86 | with distinct names, the scan appends the item to a warehouse's entry exactly when that warehouse gets a positive greedy share, and otherwise leaves the entry's item names alone |
| Validation.FirstNonPositive | inventory-allocator/InventoryAllocator.py:36-39 | finds the first order item whose amount is not positive, or reports that every amount is positive |
| Validation.FirstBadWarehouse | inventory-allocator/InventoryAllocator.py:44-53 | finds the first warehouse lacking a key or listing a negative stock, with all earlier ones passing, or reports that all pass |
| Validation.FirstViolation | inventory-allocator/InventoryAllocator.py:31-53 | no violation exactly when the inputs are valid; otherwise the first failing check in the source's order: empty order, then a non-positive amount, then an empty list, then the first bad warehouse |
| AllocationProperties.AllocateKeyError | inventory-allocator/InventoryAllocator.py:64-69 | the pass over the order fails only at a warehouse lacking a key, and never fails when none does |
| AllocationProperties.AllocateShort | inventory-allocator/InventoryAllocator.py:88-90 | an item the whole list cannot cover makes the result `[]` |
| AllocationProperties.AllocateFeasible | inventory-allocator/InventoryAllocator.py:64-92 | with every warehouse having both keys and positive amounts that the stock covers, the result is a non-empty plan |
| AllocationProperties.AllocateKeeps | inventory-allocator/InventoryAllocator.py:62-92 | the pass keeps the plan well shaped, stock-backed and positive, and moves no entry |
| AllocationProperties.AllocateOnlyOrdered | inventory-allocator/InventoryAllocator.py:64-92 | an item that is not ordered from here on and is not yet in the plan never enters it |
| AllocationProperties.AllocateMeetsDemand | inventory-allocator/InventoryAllocator.py:64-92 | with distinct names, a non-empty result draws exactly the ordered amount of each remaining item and leaves earlier items' totals alone |
| AllocationProperties.AllocateGreedy | inventory-allocator/InventoryAllocator.py:64-86 | with distinct names and positive amounts, a non-empty result draws the greedy share of each remaining item from each warehouse |
| AllocationProperties.AllocateOrder | inventory-allocator/InventoryAllocator.py:64-92 | with positive amounts, the entry names of a non-empty result are those of the plan so far, extended in first-use order |
| AllocationProperties.AllocateItems | inventory-allocator/InventoryAllocator.py:64-92 | with positive amounts and distinct names, a non-empty result extends each warehouse's item names by the remaining ordered items it gets a positive greedy share of, in the order's own order |
| AllocationProperties.RaisesOnlyOnMissingKey | inventory-allocator/InventoryAllocator.py:67-69 | `getCheapestShipment` raises only on reaching a warehouse lacking `name` or `inventory`, and never raises when every warehouse has both |
| AllocationProperties.FilledOrderMeetsDemand | inventory-allocator/InventoryAllocator.py:64-92 | when names are distinct, a non-empty plan draws in total exactly the ordered amount of every item |
| AllocationProperties.ShipmentIsWellShaped | inventory-allocator/InventoryAllocator.py:62-92 | every plan names each warehouse once and has no empty entry; every amount is backed by the stock of a warehouse of that name; no entry mentions an item that was not ordered; with positive amounts, every amount is positive |
| AllocationProperties.DrawnWithinStock | inventory-allocator/InventoryAllocator.py:71-82 | when names are distinct, a warehouse's amount of an item is at most its stock, which is positive; a warehouse without positive stock of an item never supplies it |
| AllocationProperties.ShortItemEmptiesShipment | inventory-allocator/InventoryAllocator.py:88-90 | if the whole list holds less of some item than ordered, the plan is `[]`, however much of the other items was already allocated |
| AllocationProperties.EnoughStockFillsOrder | inventory-allocator/InventoryAllocator.py:64-92 | with positive amounts, complete warehouses and enough total stock of every item, the call succeeds with a non-empty plan |
| AllocationProperties.EmptyShipmentIffShort | inventory-allocator/InventoryAllocator.py:64-92 | for a non-empty order with positive amounts and complete warehouses, the plan is `[]` exactly when some item is short |
| AllocationProperties.GreedyCheapestFirst | inventory-allocator/InventoryAllocator.py:67-86 | with positive amounts and distinct names, every warehouse gives exactly its greedy share of every item |
| AllocationProperties.CheaperWarehousesEmptiedFirst | inventory-allocator/InventoryAllocator.py:67-86 | with distinct names and positive amounts, if a warehouse supplies an item to a non-empty plan, every cheaper warehouse gave all its stock of that item |
| AllocationProperties.NothingDrawnOnceCovered | inventory-allocator/InventoryAllocator.py:77-86 | with distinct names and positive amounts, once the cheaper warehouses hold enough of an item, no later warehouse supplies it to a non-empty plan |
| AllocationProperties.EntriesInFirstUseOrder | inventory-allocator/InventoryAllocator.py:62-92 | with positive amounts, the entries of a non-empty plan come in the order warehouses first get a positive greedy share, item by item and cheapest first, which need not be list order |
| AllocationProperties.EntryItemsInOrderOrder | inventory-allocator/InventoryAllocator.py:62-92 | with positive amounts and distinct names, the items inside each entry of a non-empty plan are exactly the ordered items that warehouse gets a positive greedy share of, in the order's own order |
| AllocationProperties.ValidInputNeverRaises | inventory-allocator/InventoryAllocator.py:31-92 | inputs that pass the strict checks never make `getCheapestShipment` raise, and its plan is `[]` exactly when some item is short |
| Allocator.InventoryAllocator.constructor | inventory-allocator/InventoryAllocator.py:55-56 | the fields hold the inputs unchanged |
| Allocator.InventoryAllocator.Create | inventory-allocator/InventoryAllocator.py:31-56 | in strict mode the first failed check is raised and no allocator is made; otherwise a new allocator stores the inputs unchanged |
| Allocator.InventoryAllocator.GetCheapestShipment | inventory-allocator/InventoryAllocator.py:58-92 | the nested loops return exactly `CheapestShipment(orders, warehouses)`, including the `KeyError` and the `[]` early exits; no `modifies` clause, so nothing changes |
| Scenarios.OneWarehouseExact | inventory-allocator/test_InventoryAllocator.py:140-152 | 5 apples ordered, 5 in stock at `owd`: the plan is `[owd: apple 5]` |
| Scenarios.OneWarehousePerItem | inventory-allocator/test_InventoryAllocator.py:154-166 | one warehouse per item gives the plan `[abc: apple 5, 123: banana 5, youandme: orange 5]`, in list order |
| Scenarios.BigOrderBananas | inventory-allocator/test_InventoryAllocator.py:168-198 | in the three-item example, the 90 bananas come 2 from `abc`, 4 from `123` and 84 from `youandme` |
| Scenarios.BigOrderOranges | inventory-allocator/test_InventoryAllocator.py:168-198 | in the three-item example, the 100 oranges come 3 from `abc`, 2 from `123` and 95 from `youandme` |
| Scenarios.BigOrderSplitsAcrossWarehouses | inventory-allocator/test_InventoryAllocator.py:168-198 | the three-item order is split as the exercise expects, with `youandme` first because it is first drawn from |
| Scenarios.ShortFirstItemEmptiesPlan | inventory-allocator/test_InventoryAllocator.py:200-226 | too few apples overall gives `[]`, although bananas and oranges could be filled |
| Scenarios.OneShortOfTheOrder | inventory-allocator/test_InventoryAllocator.py:228-241 | 799 apples in stock for an order of 800 gives `[]` |
| Scenarios.StrictRefusesEmptyOrder | inventory-allocator/test_InventoryAllocator.py:61-69 | strict mode refuses an empty order |
| Scenarios.StrictRefusesMissingInventory | inventory-allocator/test_InventoryAllocator.py:101-109 | strict mode refuses a warehouse without `inventory` |
| Scenarios.StrictRefusesNegativeStock | inventory-allocator/test_InventoryAllocator.py:131-138 | strict mode refuses a stock of -500 |

## Left out

- The runtime type tests of strict mode (`type(...) is dict/str/int/list`, lines 33, 37, 39, 41, 47, 49, 52, 53) are enforced by the Dafny types. An order is a sequence of string/int pairs, and a warehouse has an optional string name and an optional string-to-int inventory.
- A non-strict call with ill-typed inputs, such as a list as the order or a string as the warehouse list, cannot be expressed in the typed model. Such inputs are stored as given, which is what the constructor does with well-typed inputs too.
- Assertion messages are not modelled, and neither are the Python exception classes. An `AssertionError` becomes `Err(ValidationError)` and a `KeyError` becomes `Err(KeyError(index))`.
- Validation.FirstViolation: for a negative stock it reports the warehouse, not the item. Which item Python reports first depends on the inventory dict's iteration order, and a `map` does not carry that order.
- The warehouse list being sorted cheapest first is the caller's promise, and the source does not check it. The model takes list order as cost order, as the source does.
- Aliasing is not modelled. Python stores references to the caller's dict and list, so a caller that mutates them after construction changes what a later `getCheapestShipment` sees. The model stores values.
- AllocationProperties.FilledOrderMeetsDemand requires distinct warehouse names. With duplicate names, the source merges the takes into one entry, and a later take of the same item overwrites an earlier one (lines 73-81). The plan is still computed faithfully, but the sum no longer holds.
- AllocationProperties.DrawnWithinStock requires distinct warehouse names, for the same reason. Without them, `ShipmentIsWellShaped` still shows that every amount is backed by some warehouse of that name.
- AllocationProperties.EntryItemsInOrderOrder requires distinct warehouse names and positive amounts, for the same reasons as `GreedyCheapestFirst`: with duplicate names one entry collects the items of several warehouses, and a take of 0 or less still adds the item to the entry.
- AllocationProperties.CheaperWarehousesEmptiedFirst and AllocationProperties.NothingDrawnOnceCovered require distinct warehouse names and positive amounts. With two warehouses of the same name, the later one's take overwrites the cheaper one's amount, so the plan no longer shows the cheaper warehouse's stock.
- AllocationProperties.GreedyCheapestFirst requires distinct warehouse names and positive amounts. With a non-positive amount the source records a take of 0 or less, which is not the greedy share.
- Strict mode checks with `assert` statements (lines 33-53). Under `python -O` they are removed and strict mode checks nothing. The model takes the assertions as enabled.
