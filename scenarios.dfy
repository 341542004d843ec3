/**
 * The allocator's documented examples, worked out on concrete orders and warehouse lists.
 */
module Scenarios {
  import opened Wrappers
  import opened OrderedDict
  import opened Inventory
  import opened Allocation
  import opened Validation

  /** One warehouse holding exactly the order ships it all from there. */
  lemma OneWarehouseExact()
    ensures CheapestShipment([("apple", 5)], [Warehouse(Some("owd"), Some(map["apple" := 5]))])
         == Ok([("owd", [("apple", 5)])])
  {
  }

  /** One warehouse per item: each item comes from the only warehouse holding it, in list order. */
  lemma OneWarehousePerItem()
    ensures CheapestShipment(
        [("apple", 5), ("banana", 5), ("orange", 5)],
        [ Warehouse(Some("abc"), Some(map["apple" := 5])),
          Warehouse(Some("123"), Some(map["banana" := 5])),
          Warehouse(Some("youandme"), Some(map["orange" := 5])) ])
      == Ok([("abc", [("apple", 5)]), ("123", [("banana", 5)]), ("youandme", [("orange", 5)])])
  {
    var orders: Order := [("apple", 5), ("banana", 5), ("orange", 5)];
    var ws := [ Warehouse(Some("abc"), Some(map["apple" := 5])),
                Warehouse(Some("123"), Some(map["banana" := 5])),
                Warehouse(Some("youandme"), Some(map["orange" := 5])) ];
    var p1 := [("abc", [("apple", 5)])];
    var p2 := [("abc", [("apple", 5)]), ("123", [("banana", 5)])];
    var p3 := [("abc", [("apple", 5)]), ("123", [("banana", 5)]), ("youandme", [("orange", 5)])];
    assert Record([], "abc", "apple", 5) == p1;
    assert Record(p1, "123", "banana", 5) == p2;
    assert Record(p2, "youandme", "orange", 5) == p3;
    assert ScanFrom("apple", 5, ws, 0, []) == Ok((0, p1));
    assert ScanFrom("banana", 5, ws, 0, p1) == Ok((0, p2));
    assert ScanFrom("orange", 5, ws, 0, p2) == Ok((0, p3));
    assert AllocateFrom(orders, ws, 1, p1) == Ok(p3);
  }

  /** The warehouse list of the three-item example; `youandme` lists `orange` twice, and the later 1000 stands. */
  const BigOrderStock: Warehouses :=
    [ Warehouse(Some("abc"), Some(map["apple" := 0, "banana" := 2, "orange" := 3])),
      Warehouse(Some("123"), Some(map["apple" := 0, "banana" := 4, "orange" := 2])),
      Warehouse(Some("youandme"), Some(map["apple" := 100, "orange" := 1000, "banana" := 500])) ]

  /** The bananas of the three-item example: 2 + 4 from the cheap ones, the other 84 from `youandme`. */
  lemma BigOrderBananas()
    ensures ScanFrom("banana", 90, BigOrderStock, 0, [("youandme", [("apple", 8)])])
         == Ok((0, [("youandme", [("apple", 8), ("banana", 84)]), ("abc", [("banana", 2)]), ("123", [("banana", 4)])]))
  {
    var ws := BigOrderStock;
    var p1 := [("youandme", [("apple", 8)])];
    var b1 := [("youandme", [("apple", 8)]), ("abc", [("banana", 2)])];
    var b2 := [("youandme", [("apple", 8)]), ("abc", [("banana", 2)]), ("123", [("banana", 4)])];
    var p2 := [("youandme", [("apple", 8), ("banana", 84)]), ("abc", [("banana", 2)]), ("123", [("banana", 4)])];
    assert EntryOf(p1, "abc") == [] && Put([], "banana", 2) == [("banana", 2)];
    assert EntryOf(b1, "123") == [] && Put([], "banana", 4) == [("banana", 4)];
    assert EntryOf(b2, "youandme") == [("apple", 8)] && Put([("apple", 8)], "banana", 84) == [("apple", 8), ("banana", 84)];
    assert Record(p1, "abc", "banana", 2) == b1;
    assert Record(b1, "123", "banana", 4) == b2;
    assert Record(b2, "youandme", "banana", 84) == p2;
    assert ScanFrom("banana", 84, ws, 2, b2) == Ok((0, p2));
  }

  /** The oranges of the three-item example: 3 + 2 from the cheap ones, the other 95 from `youandme`. */
  lemma BigOrderOranges()
    ensures ScanFrom("orange", 100, BigOrderStock, 0,
              [("youandme", [("apple", 8), ("banana", 84)]), ("abc", [("banana", 2)]), ("123", [("banana", 4)])])
         == Ok((0, [ ("youandme", [("apple", 8), ("banana", 84), ("orange", 95)]),
                     ("abc", [("banana", 2), ("orange", 3)]), ("123", [("banana", 4), ("orange", 2)]) ]))
  {
    var ws := BigOrderStock;
    var p2 := [("youandme", [("apple", 8), ("banana", 84)]), ("abc", [("banana", 2)]), ("123", [("banana", 4)])];
    var o1 := [("youandme", [("apple", 8), ("banana", 84)]), ("abc", [("banana", 2), ("orange", 3)]), ("123", [("banana", 4)])];
    var o2 := [("youandme", [("apple", 8), ("banana", 84)]), ("abc", [("banana", 2), ("orange", 3)]), ("123", [("banana", 4), ("orange", 2)])];
    var p3 := [("youandme", [("apple", 8), ("banana", 84), ("orange", 95)]),
               ("abc", [("banana", 2), ("orange", 3)]), ("123", [("banana", 4), ("orange", 2)])];
    assert EntryOf(p2, "abc") == [("banana", 2)] && Put([("banana", 2)], "orange", 3) == [("banana", 2), ("orange", 3)];
    assert EntryOf(o1, "123") == [("banana", 4)] && Put([("banana", 4)], "orange", 2) == [("banana", 4), ("orange", 2)];
    assert EntryOf(o2, "youandme") == [("apple", 8), ("banana", 84)];
    assert Put([("apple", 8), ("banana", 84)], "orange", 95) == [("apple", 8), ("banana", 84), ("orange", 95)];
    assert Record(p2, "abc", "orange", 3) == o1;
    assert Record(o1, "123", "orange", 2) == o2;
    assert Record(o2, "youandme", "orange", 95) == p3;
    assert ScanFrom("orange", 95, ws, 2, o2) == Ok((0, p3));
  }

  /**
   * Three items spread over three warehouses: the plan lists `youandme` first, because
   * it is the only warehouse with apples, the first item ordered, although it is the
   * dearest of the three.
   */
  lemma BigOrderSplitsAcrossWarehouses()
    ensures CheapestShipment([("apple", 8), ("banana", 90), ("orange", 100)], BigOrderStock)
      == Ok([ ("youandme", [("apple", 8), ("banana", 84), ("orange", 95)]),
              ("abc", [("banana", 2), ("orange", 3)]),
              ("123", [("banana", 4), ("orange", 2)]) ])
  {
    var orders: Order := [("apple", 8), ("banana", 90), ("orange", 100)];
    var p1 := [("youandme", [("apple", 8)])];
    assert EntryOf([], "youandme") == [] && Put([], "apple", 8) == [("apple", 8)];
    assert ScanFrom("apple", 8, BigOrderStock, 0, []) == Ok((0, p1));
    BigOrderBananas();
    BigOrderOranges();
  }

  /** 799 apples in stock cannot fill an order of 800: nothing is allocated. */
  lemma OneShortOfTheOrder()
    ensures CheapestShipment([("apple", 800)], [Warehouse(Some("abc"), Some(map["apple" := 799]))]) == Ok([])
  {
  }

  /** Too few apples overall: the plan is empty, though the bananas and oranges could be filled. */
  lemma ShortFirstItemEmptiesPlan()
    ensures CheapestShipment(
        [("apple", 80), ("banana", 90), ("orange", 100)],
        [ Warehouse(Some("abc"), Some(map["apple" := 4, "banana" := 2, "orange" := 300])),
          Warehouse(Some("123"), Some(map["apple" := 8, "banana" := 90, "orange" := 2])),
          Warehouse(Some("youandme"), Some(map["apple" := 0, "orange" := 5, "banana" := 500])) ])
      == Ok([])
  {
  }

  /** Strict mode refuses an empty order before it looks at the warehouses. */
  lemma StrictRefusesEmptyOrder()
    ensures FirstViolation([], []) == Some(EmptyOrder)
  {
  }

  /** Strict mode refuses a warehouse that lists a negative stock. */
  lemma StrictRefusesNegativeStock()
    ensures FirstViolation([("apple", 5)], [Warehouse(Some("owd"), Some(map["apple" := -500]))]) == Some(NegativeStock(0))
  {
    var inventory := map["apple" := -500];
    assert "apple" in inventory && inventory["apple"] < 0;
  }

  /** Strict mode refuses a warehouse without an `inventory` key. */
  lemma StrictRefusesMissingInventory()
    ensures FirstViolation([("apple", 5)], [Warehouse(Some("owd"), None)]) == Some(MissingKey(0))
  {
  }
}
