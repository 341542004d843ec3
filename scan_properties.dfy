/**
 * Properties of the scan of the warehouse list for one order item: when it fails,
 * how much it leaves missing, what it adds to the plan, and that it follows the
 * greedy cheapest-first rule exactly.
 */
module ScanProperties {
  import opened Wrappers
  import opened OrderedDict
  import opened Inventory
  import opened ShipmentShape
  import opened Allocation

  function Min(a: int, b: int): int { if a <= b then a else b }

  function Max(a: int, b: int): int { if a >= b then a else b }

  /**
   * The greedy rule in closed form: when the scan starts at warehouse `i` with `need`
   * to find, warehouse `k` gives all its stock while the cheaper ones have not covered
   * the need, the rest of the need when they almost have, and nothing after.
   */
  function GreedyTake(need: int, ws: Warehouses, i: nat, k: nat, item: string): int
    requires i <= k < |ws|
  {
    Min(Available(ws[k], item), Max(0, need - AvailableIn(ws, i, k, item)))
  }

  /** Total stock over `ws[lo..hi]` is the stock over `ws[lo..mid]` plus that over `ws[mid..hi]`. */
  lemma {:induction false} AvailableInSplit(ws: Warehouses, lo: nat, mid: nat, hi: nat, item: string)
    requires lo <= mid <= hi <= |ws|
    ensures AvailableIn(ws, lo, hi, item) == AvailableIn(ws, lo, mid, item) + AvailableIn(ws, mid, hi, item)
    decreases mid - lo
  {
    if lo < mid {
      AvailableInSplit(ws, lo + 1, mid, hi, item);
    }
  }

  /** One visit takes the smaller of the warehouse's positive stock and the need, or nothing. */
  lemma VisitTakes(item: string, need: int, w: Warehouse, plan: Shipment)
    requires HasKeys(w)
    ensures Available(w, item) == 0 ==> Visit(item, need, w, plan) == (need, plan)
    ensures Available(w, item) > 0 ==>
      var take := Min(Available(w, item), need);
      Visit(item, need, w, plan) == (need - take, Record(plan, w.name.value, item, take))
  {
  }

  /** The scan fails only on a warehouse without `name` or `inventory`, and always succeeds when there is none. */
  lemma {:induction false} ScanKeyError(item: string, need: int, ws: Warehouses, i: nat, plan: Shipment)
    requires i <= |ws|
    ensures ScanFrom(item, need, ws, i, plan).Err? ==>
      i <= ScanFrom(item, need, ws, i, plan).error.index < |ws| && !HasKeys(ws[ScanFrom(item, need, ws, i, plan).error.index])
    ensures (forall k :: i <= k < |ws| ==> HasKeys(ws[k])) ==> ScanFrom(item, need, ws, i, plan).Ok?
    decreases |ws| - i
  {
    if i < |ws| && HasKeys(ws[i]) {
      var (need', plan') := Visit(item, need, ws[i], plan);
      if need' != 0 {
        ScanKeyError(item, need', ws, i + 1, plan');
      }
    }
  }

  /**
   * With a positive need, what the scan leaves missing is the part of the need that
   * the stock of the whole remaining list cannot cover; once something was taken the
   * plan is not empty.
   */
  lemma {:induction false} ScanRemaining(item: string, need: int, ws: Warehouses, i: nat, plan: Shipment)
    requires i <= |ws| && need > 0 && ScanFrom(item, need, ws, i, plan).Ok?
    ensures ScanFrom(item, need, ws, i, plan).value.0 == Max(0, need - AvailableIn(ws, i, |ws|, item))
    ensures ScanFrom(item, need, ws, i, plan).value.0 < need || plan != [] ==> ScanFrom(item, need, ws, i, plan).value.1 != []
    decreases |ws| - i
  {
    if i < |ws| {
      VisitTakes(item, need, ws[i], plan);
      var (need', plan') := Visit(item, need, ws[i], plan);
      if Available(ws[i], item) > 0 {
        RecordShape(plan, ws[i].name.value, item, Min(Available(ws[i], item), need));
        GetSpec(plan, ws[i].name.value);
      }
      if need' != 0 {
        ScanRemaining(item, need', ws, i + 1, plan');
      }
    }
  }

  /** The scan changes nothing recorded for any other item. */
  lemma {:induction false} ScanFrame(item: string, need: int, ws: Warehouses, i: nat, plan: Shipment)
    requires i <= |ws| && ScanFrom(item, need, ws, i, plan).Ok?
    ensures var plan' := ScanFrom(item, need, ws, i, plan).value.1;
      && (forall n, y :: y != item ==> Drawn(plan', n, y) == Drawn(plan, n, y))
      && (forall y :: y != item ==> TotalDrawn(plan', y) == TotalDrawn(plan, y))
      && (forall y :: y != item && Untouched(plan, y) ==> Untouched(plan', y))
    decreases |ws| - i
  {
    if i < |ws| {
      VisitTakes(item, need, ws[i], plan);
      var (need', plan1) := Visit(item, need, ws[i], plan);
      if Available(ws[i], item) > 0 {
        var name, take := ws[i].name.value, Min(Available(ws[i], item), need);
        RecordDrawn(plan, name, item, take);
        RecordTotals(plan, name, item, take);
        RecordKeepsUntouched(plan, name, item, take);
      }
      if need' != 0 {
        ScanFrame(item, need', ws, i + 1, plan1);
      }
    }
  }

  /** The scan keeps the plan well shaped and never moves an entry. */
  lemma {:induction false} ScanShape(item: string, need: int, ws: Warehouses, i: nat, plan: Shipment)
    requires i <= |ws| && ScanFrom(item, need, ws, i, plan).Ok?
    ensures var plan' := ScanFrom(item, need, ws, i, plan).value.1;
      && (WellShaped(plan) ==> WellShaped(plan'))
      && |plan| <= |plan'| && (forall t :: 0 <= t < |plan| ==> plan'[t].0 == plan[t].0)
    decreases |ws| - i
  {
    if i < |ws| {
      VisitTakes(item, need, ws[i], plan);
      var (need', plan1) := Visit(item, need, ws[i], plan);
      if Available(ws[i], item) > 0 {
        var name, take := ws[i].name.value, Min(Available(ws[i], item), need);
        RecordShape(plan, name, item, take);
        if WellShaped(plan) {
          RecordKeepsWellShaped(plan, name, item, take);
        }
      }
      if need' != 0 {
        ScanShape(item, need', ws, i + 1, plan1);
      }
    }
  }

  /** The scan keeps the plan backed by stock, and positive when the need is. */
  lemma {:induction false} ScanBacking(item: string, need: int, ws: Warehouses, i: nat, plan: Shipment)
    requires i <= |ws| && ScanFrom(item, need, ws, i, plan).Ok?
    ensures Sourced(plan, ws) ==> Sourced(ScanFrom(item, need, ws, i, plan).value.1, ws)
    ensures need > 0 && PositiveAmounts(plan) ==> PositiveAmounts(ScanFrom(item, need, ws, i, plan).value.1)
    decreases |ws| - i
  {
    if i < |ws| {
      VisitTakes(item, need, ws[i], plan);
      var (need', plan1) := Visit(item, need, ws[i], plan);
      if Available(ws[i], item) > 0 {
        var name, take := ws[i].name.value, Min(Available(ws[i], item), need);
        RecordKeepsBacking(plan, ws, name, item, take);
        assert SuppliedBy(ws, name, item, take) by {
          assert ws[i].name == Some(name) && 0 < Stock(ws[i], item) && take <= Stock(ws[i], item);
        }
      }
      if need' != 0 {
        ScanBacking(item, need', ws, i + 1, plan1);
      }
    }
  }

  /**
   * The amounts the scan draws for `item` add up to what it stops needing, as long as
   * the warehouses still ahead have drawn nothing for the item and names are distinct.
   */
  lemma {:induction false} ScanConserves(item: string, need: int, ws: Warehouses, i: nat, plan: Shipment)
    requires i <= |ws| && DistinctNames(ws) && ScanFrom(item, need, ws, i, plan).Ok?
    requires forall k :: i <= k < |ws| && ws[k].name.Some? ==> Drawn(plan, ws[k].name.value, item) == 0
    ensures TotalDrawn(ScanFrom(item, need, ws, i, plan).value.1, item) + ScanFrom(item, need, ws, i, plan).value.0
         == TotalDrawn(plan, item) + need
    decreases |ws| - i
  {
    if i < |ws| {
      VisitTakes(item, need, ws[i], plan);
      var (need', plan1) := Visit(item, need, ws[i], plan);
      if Available(ws[i], item) > 0 {
        var name, take := ws[i].name.value, Min(Available(ws[i], item), need);
        RecordDrawn(plan, name, item, take);
        RecordTotals(plan, name, item, take);
      }
      if need' != 0 {
        ScanConserves(item, need', ws, i + 1, plan1);
      }
    }
  }

  /**
   * With a positive need and distinct names, every warehouse from `i` on draws exactly
   * its greedy amount of the item, and the warehouses before `i` are left as they were.
   */
  lemma {:induction false} ScanGreedy(item: string, need: int, ws: Warehouses, i: nat, plan: Shipment)
    requires i <= |ws| && need > 0 && DistinctNames(ws) && ScanFrom(item, need, ws, i, plan).Ok?
    requires forall k :: i <= k < |ws| && ws[k].name.Some? ==> Drawn(plan, ws[k].name.value, item) == 0
    ensures forall k :: i <= k < |ws| && ws[k].name.Some? ==>
      Drawn(ScanFrom(item, need, ws, i, plan).value.1, ws[k].name.value, item) == GreedyTake(need, ws, i, k, item)
    ensures forall k :: 0 <= k < i && ws[k].name.Some? ==>
      Drawn(ScanFrom(item, need, ws, i, plan).value.1, ws[k].name.value, item) == Drawn(plan, ws[k].name.value, item)
    decreases |ws| - i
  {
    if i < |ws| {
      var plan' := ScanFrom(item, need, ws, i, plan).value.1;
      VisitTakes(item, need, ws[i], plan);
      var (need1, plan1) := Visit(item, need, ws[i], plan);
      var name := ws[i].name.value;
      if Available(ws[i], item) > 0 {
        RecordDrawn(plan, name, item, Min(Available(ws[i], item), need));
      }
      assert forall k :: 0 <= k < |ws| && k != i && ws[k].name.Some? ==>
        Drawn(plan1, ws[k].name.value, item) == Drawn(plan, ws[k].name.value, item);
      if need1 != 0 {
        ScanGreedy(item, need1, ws, i + 1, plan1);
      } else {
        forall k | i < k < |ws| && ws[k].name.Some?
          ensures Drawn(plan', ws[k].name.value, item) == GreedyTake(need, ws, i, k, item)
        {
          assert AvailableIn(ws, i, k, item) >= Available(ws[i], item) >= need;
        }
      }
    }
  }

  /**
   * With a positive need and distinct names, the scan puts `item` after the items
   * already in the entry of warehouse `k` when `k` gets a positive greedy share, and
   * leaves the entry's item names alone otherwise, as long as that entry does not hold
   * the item yet.
   */
  lemma {:induction false} ScanItems(item: string, need: int, ws: Warehouses, i: nat, plan: Shipment, k: nat)
    requires i <= |ws| && need > 0 && DistinctNames(ws) && ScanFrom(item, need, ws, i, plan).Ok?
    requires k < |ws| && ws[k].name.Some?
    requires i <= k ==> Get(EntryOf(plan, ws[k].name.value), item).None?
    ensures ItemsOf(ScanFrom(item, need, ws, i, plan).value.1, ws[k].name.value)
      == ItemsOf(plan, ws[k].name.value) + (if i <= k && GreedyTake(need, ws, i, k, item) > 0 then [item] else [])
    decreases |ws| - i
  {
    if i < |ws| {
      var (need1, plan1) := Visit(item, need, ws[i], plan);
      var r := ScanFrom(item, need, ws, i, plan).value.1;
      VisitItems(item, need, ws, i, plan);
      if k != i {
        assert ws[k].name != ws[i].name;
      }
      if need1 != 0 {
        assert r == ScanFrom(item, need1, ws, i + 1, plan1).value.1;
        ScanItems(item, need1, ws, i + 1, plan1, k);
        if k > i {
          assert GreedyTake(need1, ws, i + 1, k, item) == GreedyTake(need, ws, i, k, item);
        }
      } else {
        assert r == plan1;
        if k > i {
          assert AvailableIn(ws, i, k, item) >= Available(ws[i], item) >= need;
        }
      }
    }
  }

  /**
   * Visiting warehouse `i` adds the item at the end of its entry exactly when the
   * greedy rule takes some of it there, and leaves every other entry alone.
   */
  lemma VisitItems(item: string, need: int, ws: Warehouses, i: nat, plan: Shipment)
    requires i < |ws| && HasKeys(ws[i]) && need > 0
    ensures Get(EntryOf(plan, ws[i].name.value), item).None? ==>
      ItemsOf(Visit(item, need, ws[i], plan).1, ws[i].name.value)
      == ItemsOf(plan, ws[i].name.value) + (if GreedyTake(need, ws, i, i, item) > 0 then [item] else [])
    ensures forall n :: n != ws[i].name.value ==> EntryOf(Visit(item, need, ws[i], plan).1, n) == EntryOf(plan, n)
  {
    VisitTakes(item, need, ws[i], plan);
    RecordItems(plan, ws[i].name.value, item, Min(Available(ws[i], item), need));
  }

  // ---- Order of the entries

  /** The warehouse names of the plan's entries, in order. */
  function Names(plan: Shipment): seq<string> {
    seq(|plan|, t requires 0 <= t < |plan| => plan[t].0)
  }

  /** `ks` with `n` added at the end unless it is there already. */
  function AddNew(ks: seq<string>, n: string): seq<string> {
    if n in ks then ks else ks + [n]
  }

  /** `ks` with the names `ns` added one after the other by `AddNew`. */
  function AddAll(ks: seq<string>, ns: seq<string>): seq<string>
    decreases |ns|
  {
    if ns == [] then ks else AddAll(AddNew(ks, ns[0]), ns[1..])
  }

  /**
   * The names of the warehouses from `k` on that the greedy rule, started at `i` with
   * `need` to find, draws a positive amount of `item` from, in list order.
   */
  function GreedySuppliers(need: int, ws: Warehouses, i: nat, k: nat, item: string): seq<string>
    requires i <= k <= |ws|
    decreases |ws| - k
  {
    if k == |ws| then []
    else if ws[k].name.Some? && GreedyTake(need, ws, i, k, item) > 0 then [ws[k].name.value] + GreedySuppliers(need, ws, i, k + 1, item)
    else GreedySuppliers(need, ws, i, k + 1, item)
  }

  /** A need that is already covered draws on no warehouse. */
  lemma {:induction false} NoSuppliersWhenCovered(need: int, ws: Warehouses, i: nat, k: nat, item: string)
    requires i <= k <= |ws| && need <= 0
    ensures GreedySuppliers(need, ws, i, k, item) == []
    decreases |ws| - k
  {
    if k < |ws| {
      NoSuppliersWhenCovered(need, ws, i, k + 1, item);
    }
  }

  /**
   * Seen from the next warehouse, the greedy rule goes on with the need less what
   * warehouse `i` holds.
   */
  lemma {:induction false} GreedySuppliersShift(need: int, ws: Warehouses, i: nat, k: nat, item: string)
    requires i < k <= |ws|
    ensures GreedySuppliers(need, ws, i, k, item) == GreedySuppliers(need - Available(ws[i], item), ws, i + 1, k, item)
    decreases |ws| - k
  {
    if k < |ws| {
      assert GreedyTake(need, ws, i, k, item) == GreedyTake(need - Available(ws[i], item), ws, i + 1, k, item);
      GreedySuppliersShift(need, ws, i, k + 1, item);
    }
  }

  /** A warehouse drawn from for the first time gets the next entry; one seen before keeps its place. */
  lemma RecordNames(plan: Shipment, name: string, item: string, q: int)
    ensures Names(Record(plan, name, item, q)) == AddNew(Names(plan), name)
  {
    RecordShape(plan, name, item, q);
    GetSpec(plan, name);
    var r := Record(plan, name, item, q);
    if Get(plan, name).Some? {
      var t :| 0 <= t < |plan| && plan[t] == (name, Get(plan, name).value);
      assert Names(plan)[t] == name;
    } else {
      assert name !in Names(plan);
      assert Names(r) == Names(plan) + [name];
    }
  }

  /**
   * With a positive need, the scan adds to the entry names the warehouses that the
   * greedy rule draws on, cheapest first, each unless it has an entry already.
   */
  lemma {:induction false} ScanOrder(item: string, need: int, ws: Warehouses, i: nat, plan: Shipment)
    requires i <= |ws| && need > 0 && ScanFrom(item, need, ws, i, plan).Ok?
    ensures Names(ScanFrom(item, need, ws, i, plan).value.1) == AddAll(Names(plan), GreedySuppliers(need, ws, i, i, item))
    decreases |ws| - i
  {
    if i < |ws| {
      VisitTakes(item, need, ws[i], plan);
      var (need1, plan1) := Visit(item, need, ws[i], plan);
      var rest := need - Available(ws[i], item);
      GreedySuppliersShift(need, ws, i, i + 1, item);
      if rest <= 0 {
        NoSuppliersWhenCovered(rest, ws, i + 1, i + 1, item);
      }
      if Available(ws[i], item) > 0 {
        RecordNames(plan, ws[i].name.value, item, Min(Available(ws[i], item), need));
        assert GreedySuppliers(need, ws, i, i, item) == [ws[i].name.value] + GreedySuppliers(rest, ws, i + 1, i + 1, item);
      }
      if need1 != 0 {
        ScanOrder(item, need1, ws, i + 1, plan1);
      }
    }
  }
}
