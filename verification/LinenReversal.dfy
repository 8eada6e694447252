/**
 The reversal on any store, edited or not since the split: stock is conserved,
 and the old constraints hold again exactly when the vendors find their locations.
 */
module LinenReversal {
  import opened Wrappers
  import opened LinenTables
  import opened LinenProofs
  import opened LinenSplit

  /** The constraints of both sets of tables, as they stand between the split and its reversal. */
  predicate InForce(t: Tables) {
    && ActiveNamesUnique(t.stockLocations) && ActiveItemNamesUnique(ItemsOf(t.stockItems))
    && ActiveNamesUnique(t.linenLocations) && ActiveItemNamesUnique(t.linenItems)
    && MovementsRefer(t) && LaundryRefers(t)
  }

  // ----- a completed split leaves them in force -----

  lemma SplitKeepsNamesUnique(before: Tables, mid: Tables, places: map<int, int>, source: map<int, int>)
    requires BeforeSplit(before) && SplitDone(before, mid, places, source)
    ensures ActiveNamesUnique(mid.stockLocations) && ActiveNamesUnique(mid.linenLocations)
    ensures ActiveItemNamesUnique(ItemsOf(mid.stockItems)) && ActiveItemNamesUnique(mid.linenItems)
  {
    if LinenIds(before) != {} {
      var items := ItemsOf(before.stockItems);
      assert forall i | i in mid.linenItems :: i in items && items[i] == mid.linenItems[i];
      assert forall j | j in ItemsOf(mid.stockItems) :: j in items && items[j] == ItemsOf(mid.stockItems)[j];
      forall j, k | j in mid.linenLocations && k in mid.linenLocations && Active(mid.linenLocations[j])
        && Active(mid.linenLocations[k]) && SamePlace(mid.linenLocations[j], mid.linenLocations[k])
        ensures j == k
      {
        SourcesInvert(before, mid, places, source, j);
        SourcesInvert(before, mid, places, source, k);
        assert source[j] == source[k];
      }
    }
  }

  /** After the split the constraints are in force exactly when the laundry tables named only linen. */
  lemma SplitKeepsConstraintsIff(before: Tables, mid: Tables, places: map<int, int>, source: map<int, int>)
    requires BeforeSplit(before) && SplitDone(before, mid, places, source)
    ensures InForce(mid) <==> LaundryNamesLinen(before)
  {
    SplitKeepsNamesUnique(before, mid, places, source);
    SplitKeepsMovementReferences(before, mid, places, source);
    LaundryRefersIff(before, mid, places, source);
  }

  // ----- the reversal -----

  predicate Reversed(mid: Tables, after: Tables, back: map<int, int>, origin: map<int, int>) {
    InForce(mid) && ReverseDone(mid, after, back, origin)
  }

  /** Without linen items there are no linen movements, and nothing comes back. */
  lemma NothingMovesWithoutLinen(mid: Tables, after: Tables, back: map<int, int>, origin: map<int, int>)
    requires Reversed(mid, after, back, origin) && mid.linenItems == map[]
    ensures mid.linenMovements == [] && after.stockMovements == mid.stockMovements
  {
    MovementsNeedItems(mid);
  }

  lemma MovementsNeedItems(mid: Tables)
    requires InForce(mid)
    ensures mid.linenMovements == [] || mid.linenItems != map[]
  {
    if mid.linenMovements != [] {
      assert LinenMovementRefers(mid, mid.linenMovements[0].movement);
    }
  }

  lemma ReturnKeepsPlace(mid: Tables, after: Tables, back: map<int, int>, origin: map<int, int>, r: MovementRow)
    requires Reversed(mid, after, back, origin) && mid.linenItems != map[] && r in mid.linenMovements
    ensures
      var l, n := r.movement.location, Relocate(r.movement, back).location;
      if l.None? then n.None?
      else
        && n.Some? && l.value in mid.linenLocations && n.value in after.stockLocations
        && SamePlace(after.stockLocations[n.value], mid.linenLocations[l.value])
  {
    assert LinenMovementRefers(mid, r.movement);
    if r.movement.location.Some? {
      LinenLocationReturns(mid, after, back, origin, r.movement.location.value);
    }
  }

  lemma LinenLocationReturns(mid: Tables, after: Tables, back: map<int, int>, origin: map<int, int>, l: int)
    requires Reversed(mid, after, back, origin) && mid.linenItems != map[] && l in mid.linenLocations
    ensures l in back && back[l] in after.stockLocations
    ensures SamePlace(after.stockLocations[back[l]], mid.linenLocations[l])
  {
    assert LocationsReturned(mid.linenLocations, mid.stockLocations, after.stockLocations, back, origin);
    assert l in back;
  }

  lemma StockLocationStays(mid: Tables, after: Tables, back: map<int, int>, origin: map<int, int>, l: int)
    requires Reversed(mid, after, back, origin) && l in mid.stockLocations
    ensures l in after.stockLocations && after.stockLocations[l] == mid.stockLocations[l]
  {
  }

  lemma {:induction false} RelocatedTotal(rows: seq<MovementRow>, back: map<int, int>, counts: Movement -> bool, counts': Movement -> bool)
    requires forall r | r in rows :: counts(r.movement) == counts'(Relocate(r.movement, back))
    ensures Total(RelocateAll(Contents(rows), back), counts') == Total(Contents(rows), counts)
  {
    if rows != [] {
      var front, last := rows[..|rows| - 1], rows[|rows| - 1];
      RelocatedTotal(front, back, counts, counts');
      assert rows == front + [last] && last in rows;
      ContentsOfOneMore(front, last);
      TotalOfOneMore(Contents(front), last.movement, counts);
      assert RelocateAll(Contents(rows), back) == RelocateAll(Contents(front), back) + [Relocate(last.movement, back)];
      TotalOfOneMore(RelocateAll(Contents(front), back), Relocate(last.movement, back), counts');
    }
  }

  /** What all linen locations of a hotel and name hold. */
  function NamedLinenBalance(t: Tables, item: int, hotel: int, name: string): int {
    Total(Contents(t.linenMovements), AtPlace(t.linenLocations, item, hotel, name))
  }

  lemma ReversalKeepsTotal(mid: Tables, after: Tables, back: map<int, int>, origin: map<int, int>,
                           stock: Movement -> bool, linen: Movement -> bool, counts: Movement -> bool)
    requires Reversed(mid, after, back, origin)
    requires forall r | r in mid.stockMovements :: stock(r.movement) == counts(r.movement)
    requires mid.linenItems != map[] ==>
               forall r | r in mid.linenMovements :: linen(r.movement) == counts(Relocate(r.movement, back))
    ensures Total(Contents(after.stockMovements), counts)
         == Total(Contents(mid.stockMovements), stock) + Total(Contents(mid.linenMovements), linen)
  {
    SameTotal(mid.stockMovements, stock, counts);
    if mid.linenItems == map[] {
      NothingMovesWithoutLinen(mid, after, back, origin);
    } else {
      RelocatedTotal(mid.linenMovements, back, linen, counts);
      TotalOfConcat(Contents(mid.stockMovements), RelocateAll(Contents(mid.linenMovements), back), counts);
    }
  }

  lemma {:induction false} SameTotal(rows: seq<MovementRow>, a: Movement -> bool, b: Movement -> bool)
    requires forall r | r in rows :: a(r.movement) == b(r.movement)
    ensures Total(Contents(rows), a) == Total(Contents(rows), b)
  {
    if rows != [] {
      var front, last := rows[..|rows| - 1], rows[|rows| - 1];
      SameTotal(front, a, b);
      assert rows == front + [last] && last in rows;
      ContentsOfOneMore(front, last);
      TotalOfOneMore(Contents(front), last.movement, a);
      TotalOfOneMore(Contents(front), last.movement, b);
    }
  }

  /**
   Whatever was moved, deleted or created since the split: each item's balance by hotel and name, and without a
   location, is what the stock tables and the linen tables held together.
   */
  lemma ReversalConservesNamedBalances(mid: Tables, after: Tables, back: map<int, int>, origin: map<int, int>,
                                       item: int, hotel: int, name: string)
    requires Reversed(mid, after, back, origin)
    ensures NamedBalance(after, item, hotel, name)
         == NamedBalance(mid, item, hotel, name) + NamedLinenBalance(mid, item, hotel, name)
    ensures Balance(after.stockMovements, item, None)
         == Balance(mid.stockMovements, item, None) + Balance(mid.linenMovements, item, None)
  {
    var counts := AtPlace(after.stockLocations, item, hotel, name);
    forall r | r in mid.stockMovements
      ensures AtPlace(mid.stockLocations, item, hotel, name)(r.movement) == counts(r.movement)
    {
      assert StockMovementRefers(mid, r.movement);
      if r.movement.location.Some? {
        StockLocationStays(mid, after, back, origin, r.movement.location.value);
      }
    }
    forall r | r in mid.linenMovements && mid.linenItems != map[]
      ensures AtPlace(mid.linenLocations, item, hotel, name)(r.movement) == counts(Relocate(r.movement, back))
      ensures At(item, None)(r.movement) == At(item, None)(Relocate(r.movement, back))
    {
      ReturnKeepsPlace(mid, after, back, origin, r);
    }
    ReversalKeepsTotal(mid, after, back, origin, AtPlace(mid.stockLocations, item, hotel, name),
                       AtPlace(mid.linenLocations, item, hotel, name), counts);
    ReversalKeepsTotal(mid, after, back, origin, At(item, None), At(item, None), At(item, None));
  }

  /** A linen item that comes back has nothing in the stock movements yet: its balance is the linen one. */
  lemma ReturnedItemsKeepBalances(mid: Tables, after: Tables, back: map<int, int>, origin: map<int, int>,
                                  item: int, hotel: int, name: string)
    requires Reversed(mid, after, back, origin) && item in mid.linenItems
    ensures NamedBalance(after, item, hotel, name) == NamedLinenBalance(mid, item, hotel, name)
    ensures Balance(after.stockMovements, item, None) == Balance(mid.linenMovements, item, None)
  {
    ReversalConservesNamedBalances(mid, after, back, origin, item, hotel, name);
    forall m | m in Contents(mid.stockMovements) ensures m.item != item {
      var i :| 0 <= i < |mid.stockMovements| && mid.stockMovements[i].movement == m;
      assert StockMovementRefers(mid, mid.stockMovements[i].movement);
    }
    TotalOfNone(Contents(mid.stockMovements), AtPlace(mid.stockLocations, item, hotel, name));
    TotalOfNone(Contents(mid.stockMovements), At(item, None));
  }

  // ----- the old constraints again -----

  lemma ReversalKeepsNamesUnique(mid: Tables, after: Tables, back: map<int, int>, origin: map<int, int>)
    requires Reversed(mid, after, back, origin)
    ensures ActiveNamesUnique(after.stockLocations) && ActiveItemNamesUnique(ItemsOf(after.stockItems))
  {
    if mid.linenItems != map[] {
      ReturnedNamesUnique(mid.linenLocations, mid.stockLocations, after.stockLocations, back, origin);
      var stock, items := ItemsOf(mid.stockItems), ItemsOf(after.stockItems);
      forall i | i in items ensures if i in mid.linenItems then items[i] == mid.linenItems[i] else i in stock && items[i] == stock[i] {
      }
    }
  }

  lemma ReturnedNamesUnique(linen: map<int, Location>, stock: map<int, Location>, stock': map<int, Location>,
                            back: map<int, int>, origin: map<int, int>)
    requires LocationsReturned(linen, stock, stock', back, origin) && ActiveNamesUnique(linen) && ActiveNamesUnique(stock)
    ensures ActiveNamesUnique(stock')
  {
    forall k, l | k in stock' && l in stock' && Active(stock'[k]) && Active(stock'[l]) && SamePlace(stock'[k], stock'[l])
      ensures k == l
    {
      NamesakesCount(stock, stock'[k]);
      NamesakesCount(stock, stock'[l]);
      if k in origin && l in origin {
        assert origin[k] == origin[l];
      }
    }
  }

  lemma NamesakesCount(stock: map<int, Location>, row: Location)
    ensures forall l | l in stock && Active(stock[l]) && SamePlace(stock[l], row) :: HasActiveNamesake(stock, row)
  {
  }

  lemma ReversalKeepsMovementReferences(mid: Tables, after: Tables, back: map<int, int>, origin: map<int, int>)
    requires Reversed(mid, after, back, origin)
    ensures forall r | r in after.stockMovements :: StockMovementRefers(after, r.movement)
  {
    if mid.linenItems == map[] {
      NothingMovesWithoutLinen(mid, after, back, origin);
    }
    var n := |mid.stockMovements|;
    forall r | r in after.stockMovements ensures StockMovementRefers(after, r.movement) {
      var i :| 0 <= i < |after.stockMovements| && after.stockMovements[i] == r;
      assert Contents(after.stockMovements)[i] == r.movement;
      if i < n {
        assert Contents(mid.stockMovements)[i] == mid.stockMovements[i].movement;
        KeptMovementRefers(mid, after, back, origin, mid.stockMovements[i]);
      } else {
        assert RelocateAll(Contents(mid.linenMovements), back)[i - n] == Relocate(mid.linenMovements[i - n].movement, back);
        ReturnedMovementRefers(mid, after, back, origin, mid.linenMovements[i - n]);
      }
    }
  }

  lemma KeptMovementRefers(mid: Tables, after: Tables, back: map<int, int>, origin: map<int, int>, r: MovementRow)
    requires Reversed(mid, after, back, origin) && r in mid.stockMovements
    ensures StockMovementRefers(after, r.movement)
  {
    assert StockMovementRefers(mid, r.movement);
    if r.movement.location.Some? {
      StockLocationStays(mid, after, back, origin, r.movement.location.value);
    }
  }

  lemma ReturnedMovementRefers(mid: Tables, after: Tables, back: map<int, int>, origin: map<int, int>, r: MovementRow)
    requires Reversed(mid, after, back, origin) && mid.linenItems != map[] && r in mid.linenMovements
    ensures StockMovementRefers(after, Relocate(r.movement, back))
  {
    assert LinenMovementRefers(mid, r.movement);
    ReturnKeepsPlace(mid, after, back, origin, r);
  }

  /** The vendor's linen location id is, by chance, a stock location of its hotel. */
  predicate NamesStockLocation(t: Tables, w: Vendor) {
    && w.linenLocation.Some? && w.linenLocation.value in t.stockLocations
    && t.stockLocations[w.linenLocation.value].hotel == w.hotel
  }

  /** What a caller can look up before the reversal. */
  predicate VendorsFindTheWay(mid: Tables) {
    mid.linenItems != map[] || forall v | v in mid.vendors :: NamesStockLocation(mid, mid.vendors[v])
  }

  predicate VendorRefersBack(t: Tables, w: Vendor) {
    && w.linenLocation.None? && w.stockLocation.Some? && w.stockLocation.value in t.stockLocations
    && t.stockLocations[w.stockLocation.value].hotel == w.hotel
  }

  lemma VendorReturns(mid: Tables, after: Tables, back: map<int, int>, origin: map<int, int>, v: int)
    requires Reversed(mid, after, back, origin) && v in mid.vendors
    ensures v in after.vendors
    ensures VendorRefersBack(after, after.vendors[v]) <==> mid.linenItems != map[] || NamesStockLocation(mid, mid.vendors[v])
  {
    assert VendorRefers(mid.linenLocations, mid.vendors[v]);
    if mid.linenItems != map[] {
      LinenLocationReturns(mid, after, back, origin, mid.vendors[v].linenLocation.value);
    }
  }

  lemma LinesReturn(mid: Tables, after: Tables, back: map<int, int>, origin: map<int, int>, lines: map<int, Line>, lines': map<int, Line>)
    requires Reversed(mid, after, back, origin) && LinesReturned(lines, lines')
    requires forall p | p in lines :: LineNamesLinenItem(mid.linenItems, lines[p])
    ensures forall p | p in lines' :: LineNamesStockItem(after, lines'[p])
  {
    forall p | p in lines' ensures LineNamesStockItem(after, lines'[p]) {
      assert LineNamesLinenItem(mid.linenItems, lines[p]) && lines[p].linenItem.value in mid.linenItems;
    }
  }

  /** What the old foreign keys check when they are created again. */
  predicate LaundryRefersBack(t: Tables) {
    && (forall v | v in t.vendors :: VendorRefersBack(t, t.vendors[v]))
    && (forall p | p in t.prices :: LineNamesStockItem(t, t.prices[p]))
    && (forall p | p in t.lines :: LineNamesStockItem(t, t.lines[p]))
  }

  lemma LaundryRefersBackIff(mid: Tables, after: Tables, back: map<int, int>, origin: map<int, int>)
    requires Reversed(mid, after, back, origin)
    ensures LaundryRefersBack(after) <==> VendorsFindTheWay(mid)
  {
    LinesReturn(mid, after, back, origin, mid.prices, after.prices);
    LinesReturn(mid, after, back, origin, mid.lines, after.lines);
    forall v | v in mid.vendors
      ensures v in after.vendors
      ensures VendorRefersBack(after, after.vendors[v]) <==> mid.linenItems != map[] || NamesStockLocation(mid, mid.vendors[v])
    {
      VendorReturns(mid, after, back, origin, v);
    }
  }

  /**
   The store meets the constraints that the split started from exactly when there is a linen item, or each vendor's
   linen location id happens to be a stock location of its hotel: without linen items the id is kept and its table dropped.
   */
  lemma ReversalRestoresConstraintsIff(mid: Tables, after: Tables, back: map<int, int>, origin: map<int, int>)
    requires Reversed(mid, after, back, origin)
    ensures BeforeSplit(after) <==> VendorsFindTheWay(mid)
  {
    ReversalKeepsNamesUnique(mid, after, back, origin);
    ReversalKeepsMovementReferences(mid, after, back, origin);
    LaundryRefersBackIff(mid, after, back, origin);
    OldConstraintsAsk(after);
  }

  /** The constraints of the split's start, but for names and movements, are those of the laundry tables. */
  lemma OldConstraintsAsk(t: Tables)
    requires t.linenItems == map[] && t.linenLocations == map[] && t.linenMovements == []
    requires ActiveNamesUnique(t.stockLocations) && ActiveItemNamesUnique(ItemsOf(t.stockItems)) && MovementsRefer(t)
    ensures BeforeSplit(t) <==> LaundryRefersBack(t)
  {
    if LaundryRefersBack(t) {
      forall v | v in t.vendors ensures VendorRefersBack(t, t.vendors[v]) {
      }
    }
  }

  /** All linen items were deleted for good, a vendor was not: its linen location goes, and its id stays behind. */
  lemma VendorLosesItsLocation(depot: Location, after: Tables, back: map<int, int>, origin: map<int, int>)
    requires Active(depot)
    ensures var mid := Tables(map[], map[], [], map[], map[10 := depot], [],
                              map[1 := Vendor(depot.hotel, None, Some(10))], map[], map[]);
            && InForce(mid) && !VendorsFindTheWay(mid)
            && (ReverseDone(mid, after, back, origin) ==>
                  1 in after.vendors && after.vendors[1].stockLocation == Some(10) && 10 !in after.stockLocations)
  {
    var mid := Tables(map[], map[], [], map[], map[10 := depot], [],
                      map[1 := Vendor(depot.hotel, None, Some(10))], map[], map[]);
    assert VendorRefers(mid.linenLocations, mid.vendors[1]) && !NamesStockLocation(mid, mid.vendors[1]);
  }

  // ----- the downgrade as it runs -----

  /** The reverse data step, then the old foreign keys, on whatever store the constraints allow. */
  method Downgrade(db: Database, enforced: bool) returns (ok: bool)
    requires InForce(db.Contained())
    modifies db
    ensures ok <==>
      && (old(db.linenItems) == map[] || ItemsFit(old(db.linenItems), old(db.stockItems)))
      && (enforced ==> VendorsFindTheWay(old(db.Contained())))
    ensures ok && enforced ==> BeforeSplit(db.Contained())
    ensures ok ==> forall item, hotel, name | item in old(db.linenItems) ::
      NamedBalance(db.Contained(), item, hotel, name) == NamedLinenBalance(old(db.Contained()), item, hotel, name)
  {
    ghost var mid := db.Contained();
    ghost var origin: map<int, int>;
    var back;
    ok, back, origin := db.MigrateLinenDataBack();
    if ok {
      LaundryRefersBackIff(mid, db.Contained(), back, origin);
      ReversalRestoresConstraintsIff(mid, db.Contained(), back, origin);
      forall item, hotel, name | item in mid.linenItems
        ensures NamedBalance(db.Contained(), item, hotel, name) == NamedLinenBalance(mid, item, hotel, name)
      {
        ReturnedItemsKeepBalances(mid, db.Contained(), back, origin, item, hotel, name);
      }
      ok := !enforced || LaundryRefersBack(db.Contained());
    }
  }
}
