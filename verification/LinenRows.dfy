/**
 The split and its reversal row by row, in the columns of the tables: which row ends
 where, and what it then holds.
 */
module LinenRows {
  import opened Wrappers
  import opened LinenTables
  import opened LinenProofs

  // ----- what decides where a row goes -----

  predicate SomeLinen(t: Tables) {
    exists i | i in t.stockItems :: t.stockItems[i].linen
  }

  predicate IsLinenMovement(t: Tables, r: MovementRow) {
    r.movement.item in t.stockItems && t.stockItems[r.movement.item].linen
  }

  /** A vendor, or a movement of a linen item, names the location. */
  predicate NamedByLaundryOrLinen(t: Tables, l: int) {
    || (exists v | v in t.vendors :: t.vendors[v].stockLocation == Some(l))
    || (exists r | r in t.stockMovements :: IsLinenMovement(t, r) && r.movement.location == Some(l))
  }

  predicate NamedByOthers(t: Tables, l: int) {
    exists r | r in t.stockMovements :: !IsLinenMovement(t, r) && r.movement.location == Some(l)
  }

  lemma KindsDecide(t: Tables, r: MovementRow)
    requires BeforeSplit(t) && r in t.stockMovements
    ensures r.movement.item in LinenIds(t) <==> IsLinenMovement(t, r)
    ensures r.movement.item in t.stockItems.Keys - LinenIds(t) <==> !IsLinenMovement(t, r)
  {
    assert StockMovementRefers(t, r.movement);
  }

  lemma UsedIffNamed(t: Tables, l: int)
    requires BeforeSplit(t)
    ensures l in UsedLocations(t) <==> NamedByLaundryOrLinen(t, l)
  {
    if l in LocationsOf(Of(t.stockMovements, LinenIds(t))) {
      var r :| r in Of(t.stockMovements, LinenIds(t)) && r.movement.location == Some(l);
      OfMembers(t.stockMovements, LinenIds(t), r);
      KindsDecide(t, r);
    }
    if r :| r in t.stockMovements && IsLinenMovement(t, r) && r.movement.location == Some(l) {
      KindsDecide(t, r);
      OfMembers(t.stockMovements, LinenIds(t), r);
    }
  }

  lemma SharedIffNamedByOthers(t: Tables, l: int)
    requires BeforeSplit(t)
    ensures l in SharedLocations(t) <==> NamedByLaundryOrLinen(t, l) && NamedByOthers(t, l)
  {
    UsedIffNamed(t, l);
    var others := t.stockItems.Keys - LinenIds(t);
    if l in LocationsOf(Of(t.stockMovements, others)) {
      var r :| r in Of(t.stockMovements, others) && r.movement.location == Some(l);
      OfMembers(t.stockMovements, others, r);
      KindsDecide(t, r);
    }
    if r :| r in t.stockMovements && !IsLinenMovement(t, r) && r.movement.location == Some(l) {
      KindsDecide(t, r);
      OfMembers(t.stockMovements, others, r);
    }
  }

  // ----- the split -----

  /** Each stock item stays or moves by its kind alone, and its columns go along. */
  lemma SplitItems(before: Tables, after: Tables, places: map<int, int>, source: map<int, int>, i: int)
    requires BeforeSplit(before) && SplitDone(before, after, places, source)
    ensures i in after.linenItems <==> i in before.stockItems && before.stockItems[i].linen
    ensures i in after.stockItems <==> i in before.stockItems && !before.stockItems[i].linen
    ensures i in after.linenItems ==> after.linenItems[i] == before.stockItems[i].item
    ensures i in after.stockItems ==> after.stockItems[i] == before.stockItems[i]
  {
    assert i in LinenIds(before) <==> i in before.stockItems && before.stockItems[i].linen;
  }

  lemma SomeLinenIff(t: Tables)
    ensures SomeLinen(t) <==> LinenIds(t) != {}
  {
    if LinenIds(t) != {} {
      var i := MemberOf(LinenIds(t));
      assert t.stockItems[i].linen;
    }
    if i :| i in t.stockItems && t.stockItems[i].linen {
      assert i in LinenIds(t);
    }
  }

  /**
   Each stock location: copied exactly if a vendor or a linen movement names it, gone exactly if no other
   item's movement does too. Without linen items none is touched.
   */
  lemma SplitLocations(before: Tables, after: Tables, places: map<int, int>, source: map<int, int>, l: int)
    requires BeforeSplit(before) && SplitDone(before, after, places, source) && l in before.stockLocations
    ensures l in after.stockLocations <==>
      !SomeLinen(before) || !NamedByLaundryOrLinen(before, l) || NamedByOthers(before, l)
    ensures l in after.stockLocations ==> after.stockLocations[l] == before.stockLocations[l]
    ensures SomeLinen(before) ==> (l in places <==> NamedByLaundryOrLinen(before, l))
    ensures SomeLinen(before) && l in places ==>
      places[l] in after.linenLocations && after.linenLocations[places[l]] == before.stockLocations[l]
    ensures SomeLinen(before) && l in places && !NamedByOthers(before, l) ==> places[l] == l
  {
    SomeLinenIff(before);
    UsedIffNamed(before, l);
    SharedIffNamedByOthers(before, l);
    if SomeLinen(before) && l in places {
      PlacesInvert(before, after, places, source, l);
    }
  }

  /** Nothing else is copied, nothing is copied twice, and no stock location is new. */
  lemma SplitAddsNoLocation(before: Tables, after: Tables, places: map<int, int>, source: map<int, int>, k: int)
    requires BeforeSplit(before) && SplitDone(before, after, places, source)
    ensures k in after.stockLocations ==> k in before.stockLocations
    ensures k in after.linenLocations ==>
      && SomeLinen(before) && k in source && source[k] in before.stockLocations && NamedByLaundryOrLinen(before, source[k])
      && source[k] in places && places[source[k]] == k
  {
    SomeLinenIff(before);
    if k in after.linenLocations {
      SourcesInvert(before, after, places, source, k);
      UsedIffNamed(before, source[k]);
    }
  }

  /** The location of a moved row: none stays none, and any other is looked up. */
  function Mapped(location: Option<int>, places: map<int, int>): Option<int> {
    match location
    case None => None
    case Some(l) => if l in places then Some(places[l]) else None
  }

  /** Which movements stay, and what each of the others is copied to; no location is lost. */
  lemma SplitMovements(before: Tables, after: Tables, places: map<int, int>, source: map<int, int>, r: MovementRow)
    requires BeforeSplit(before) && SplitDone(before, after, places, source)
    ensures r in after.stockMovements <==> r in before.stockMovements && !IsLinenMovement(before, r)
    ensures r in before.stockMovements && IsLinenMovement(before, r) ==>
      && r.movement.(location := Mapped(r.movement.location, places)) in Contents(after.linenMovements)
      && (r.movement.location.Some? ==> r.movement.location.value in places)
  {
    SomeLinenIff(before);
    OfMembers(before.stockMovements, LinenIds(before), r);
    if r in before.stockMovements {
      KindsDecide(before, r);
    }
    if r in before.stockMovements && IsLinenMovement(before, r) {
      MovedLocationsAreMapped(before, after, places, source, r);
      var moved := Of(before.stockMovements, LinenIds(before));
      var i :| 0 <= i < |moved| && moved[i] == r;
      assert RelocateAll(Contents(moved), places)[i] == Relocate(r.movement, places);
    }
  }

  /** Each row of the three laundry tables, with the old column dropped. */
  lemma SplitLaundry(before: Tables, after: Tables, places: map<int, int>, source: map<int, int>)
    requires BeforeSplit(before) && SplitDone(before, after, places, source)
    ensures after.vendors.Keys == before.vendors.Keys
    ensures after.prices.Keys == before.prices.Keys && after.lines.Keys == before.lines.Keys
    ensures forall v | v in before.vendors ::
      && after.vendors[v].hotel == before.vendors[v].hotel && after.vendors[v].stockLocation == None
      && after.vendors[v].linenLocation ==
         if SomeLinen(before) then Mapped(before.vendors[v].stockLocation, places) else before.vendors[v].stockLocation
    ensures forall p | p in before.prices :: after.prices[p] == Line(before.prices[p].hotel, None, before.prices[p].stockItem)
    ensures forall p | p in before.lines :: after.lines[p] == Line(before.lines[p].hotel, None, before.lines[p].stockItem)
  {
    SomeLinenIff(before);
    forall v | v in before.vendors && SomeLinen(before) ensures before.vendors[v].stockLocation.value in places {
      assert before.vendors[v].stockLocation.value in UsedLocations(before);
    }
  }

  // ----- the reversal -----

  /** Linen items join the stock items, without sku and as linen; no row that was there changes. */
  lemma ReverseItems(mid: Tables, after: Tables, back: map<int, int>, origin: map<int, int>, i: int)
    requires ReverseDone(mid, after, back, origin)
    ensures i in after.stockItems <==> i in mid.stockItems || i in mid.linenItems
    ensures i in mid.stockItems ==> after.stockItems[i] == mid.stockItems[i]
    ensures i in mid.linenItems ==> i !in mid.stockItems && after.stockItems[i] == StockItem(mid.linenItems[i], None, true)
  {
  }

  /** An active stock location of this hotel and name. */
  predicate ActiveOfName(stock: map<int, Location>, hotel: int, name: string) {
    exists l | l in stock :: stock[l].deletedAt == None && stock[l].hotel == hotel && stock[l].name == name
  }

  /**
   Each linen location comes back as an active row of its hotel and name, or as a new row equal to it; as a row
   that was there exactly if an active one of that hotel and name was.
   */
  lemma ReverseLocations(mid: Tables, after: Tables, back: map<int, int>, origin: map<int, int>, j: int)
    requires ReverseDone(mid, after, back, origin) && mid.linenItems != map[] && j in mid.linenLocations
    ensures j in back && back[j] in after.stockLocations
    ensures
      var old_row, new_row := mid.linenLocations[j], after.stockLocations[back[j]];
      && new_row.hotel == old_row.hotel && new_row.name == old_row.name && (new_row.deletedAt == None || new_row == old_row)
      && (back[j] in mid.stockLocations <==> ActiveOfName(mid.stockLocations, old_row.hotel, old_row.name))
  {
    var stock, row := mid.stockLocations, mid.linenLocations[j];
    assert LocationsReturned(mid.linenLocations, stock, after.stockLocations, back, origin);
    assert j in back;
    NamesakeIffActiveOfName(stock, row);
    NamesakeIffActiveOfName(stock, after.stockLocations[back[j]]);
    var n := back[j];
    if n in stock {
      assert after.stockLocations[n] == stock[n];
    }
  }

  lemma NamesakeIffActiveOfName(stock: map<int, Location>, row: Location)
    ensures HasActiveNamesake(stock, row) <==> ActiveOfName(stock, row.hotel, row.name)
  {
    if l :| l in stock && stock[l].deletedAt == None && stock[l].hotel == row.hotel && stock[l].name == row.name {
      assert Active(stock[l]) && SamePlace(stock[l], row);
    }
  }

  /** No stock location goes or changes, and each new one is the row of a linen location that had no active namesake. */
  lemma ReverseAddsOnlyLinenLocations(mid: Tables, after: Tables, back: map<int, int>, origin: map<int, int>, n: int)
    requires ReverseDone(mid, after, back, origin)
    ensures n in mid.stockLocations ==> n in after.stockLocations && after.stockLocations[n] == mid.stockLocations[n]
    ensures n in after.stockLocations && n !in mid.stockLocations ==>
      && n in origin && origin[n] in mid.linenLocations && back[origin[n]] == n
      && after.stockLocations[n] == mid.linenLocations[origin[n]]
  {
  }

  /** The stock movements keep their order and are followed by the linen movements at the returned locations. */
  lemma ReverseMovements(mid: Tables, after: Tables, back: map<int, int>, origin: map<int, int>, i: nat)
    requires ReverseDone(mid, after, back, origin) && MovementsRefer(mid)
    ensures |after.stockMovements| == |mid.stockMovements| + |mid.linenMovements|
    ensures i < |mid.stockMovements| ==> after.stockMovements[i].movement == mid.stockMovements[i].movement
    ensures i < |mid.linenMovements| ==>
      var m := mid.linenMovements[i].movement;
      && after.stockMovements[|mid.stockMovements| + i].movement == m.(location := Mapped(m.location, back))
      && (m.location.Some? ==> m.location.value in back)
  {
    if mid.linenItems == map[] {
      NoMovementsWithoutItems(mid);
    } else {
      var n := |mid.stockMovements|;
      assert |Contents(after.stockMovements)| == n + |mid.linenMovements|;
      if i < n {
        assert Contents(after.stockMovements)[i] == Contents(mid.stockMovements)[i];
      }
      if i < |mid.linenMovements| {
        assert Contents(after.stockMovements)[n + i] == Relocate(mid.linenMovements[i].movement, back);
        assert LinenMovementRefers(mid, mid.linenMovements[i].movement);
      }
    }
  }

  lemma NoMovementsWithoutItems(mid: Tables)
    requires MovementsRefer(mid)
    ensures mid.linenMovements == [] || mid.linenItems != map[]
  {
    if mid.linenMovements != [] {
      assert LinenMovementRefers(mid, mid.linenMovements[0].movement);
    }
  }

  /** Each row of the three laundry tables, with the linen column dropped. */
  lemma ReverseLaundry(mid: Tables, after: Tables, back: map<int, int>, origin: map<int, int>)
    requires ReverseDone(mid, after, back, origin)
    ensures after.vendors.Keys == mid.vendors.Keys
    ensures after.prices.Keys == mid.prices.Keys && after.lines.Keys == mid.lines.Keys
    ensures forall v | v in mid.vendors ::
      var l := mid.vendors[v].linenLocation;
      && after.vendors[v].hotel == mid.vendors[v].hotel && after.vendors[v].linenLocation == None
      && after.vendors[v].stockLocation ==
         if mid.linenItems == map[] || l.None? || l.value !in back then l else Some(back[l.value])
    ensures forall p | p in mid.prices :: after.prices[p] == Line(mid.prices[p].hotel, mid.prices[p].linenItem, None)
    ensures forall p | p in mid.lines :: after.lines[p] == Line(mid.lines[p].hotel, mid.lines[p].linenItem, None)
    ensures after.linenItems == map[] && after.linenLocations == map[] && after.linenMovements == []
  {
    forall v | v in mid.vendors
      ensures
        var l := mid.vendors[v].linenLocation;
        && after.vendors[v].hotel == mid.vendors[v].hotel && after.vendors[v].linenLocation == None
        && after.vendors[v].stockLocation ==
           if mid.linenItems == map[] || l.None? || l.value !in back then l else Some(back[l.value])
    {
    }
  }

  /** Two items that are not deleted have the same hotel and name. */
  predicate NamesClash(a: Item, b: Item) {
    a.deletedAt == None && b.deletedAt == None && a.hotel == b.hotel && a.name == b.name
  }

  /** When the linen items can join the stock items: no id is taken, and no two active items share hotel and name. */
  lemma ItemsFitIff(linen: map<int, Item>, stock: map<int, StockItem>)
    ensures ItemsFit(linen, stock) <==>
      && (forall i | i in linen :: i !in stock)
      && (forall i, j | i in linen && j in linen && i != j :: !NamesClash(linen[i], linen[j]))
      && (forall i, j | i in linen && j in stock :: !NamesClash(linen[i], stock[j].item))
  {
    if forall i | i in linen :: i !in stock {
      assert forall i | i in linen.Keys :: i !in stock.Keys;
    }
    forall a, b: Item ensures NamesClash(a, b) <==> ActiveItem(a) && ActiveItem(b) && SameName(a, b) {
    }
  }

  /** There is a row of this id, and it belongs to the hotel. */
  predicate LocationOf(locations: map<int, Location>, id: Option<int>, hotel: int) {
    exists l | l in locations :: id == Some(l) && locations[l].hotel == hotel
  }

  predicate ItemOf(items: map<int, Item>, id: Option<int>, hotel: int) {
    exists i | i in items :: id == Some(i) && items[i].hotel == hotel
  }

  lemma RowOfItsId(locations: map<int, Location>, items: map<int, Item>, id: Option<int>, hotel: int)
    ensures LocationOf(locations, id, hotel) <==> id.Some? && id.value in locations && locations[id.value].hotel == hotel
    ensures ItemOf(items, id, hotel) <==> id.Some? && id.value in items && items[id.value].hotel == hotel
  {
    match id {
      case None =>
      case Some(l) =>
        assert l in locations && locations[l].hotel == hotel ==> LocationOf(locations, Some(l), hotel);
        assert l in items && items[l].hotel == hotel ==> ItemOf(items, Some(l), hotel);
    }
  }

  lemma VendorRefersIff(locations: map<int, Location>, w: Vendor)
    ensures VendorRefers(locations, w) <==> LocationOf(locations, w.linenLocation, w.hotel)
  {
    RowOfItsId(locations, map[], w.linenLocation, w.hotel);
  }

  lemma LineRefersIff(items: map<int, Item>, l: Line)
    ensures LineNamesLinenItem(items, l) <==> ItemOf(items, l.linenItem, l.hotel)
  {
    RowOfItsId(map[], items, l.linenItem, l.hotel);
  }

  /** What the foreign keys of the laundry tables to the linen tables ask, in the columns. */
  lemma LaundryRefersRows(t: Tables)
    ensures LaundryRefers(t) <==>
      && (forall v | v in t.vendors :: LocationOf(t.linenLocations, t.vendors[v].linenLocation, t.vendors[v].hotel))
      && (forall p | p in t.prices :: ItemOf(t.linenItems, t.prices[p].linenItem, t.prices[p].hotel))
      && (forall p | p in t.lines :: ItemOf(t.linenItems, t.lines[p].linenItem, t.lines[p].hotel))
  {
    forall w: Vendor ensures VendorRefers(t.linenLocations, w) <==> LocationOf(t.linenLocations, w.linenLocation, w.hotel) {
      VendorRefersIff(t.linenLocations, w);
    }
    forall l: Line ensures LineNamesLinenItem(t.linenItems, l) <==> ItemOf(t.linenItems, l.linenItem, l.hotel) {
      LineRefersIff(t.linenItems, l);
    }
  }

  /** And of the movements of both tables to items and locations of their own hotel. */
  lemma MovementsReferRows(t: Tables)
    ensures MovementsRefer(t) <==>
      && (forall r | r in t.stockMovements ::
            && ItemOf(ItemsOf(t.stockItems), Some(r.movement.item), r.movement.hotel)
            && (r.movement.location == None || LocationOf(t.stockLocations, r.movement.location, r.movement.hotel)))
      && (forall r | r in t.linenMovements ::
            && ItemOf(t.linenItems, Some(r.movement.item), r.movement.hotel)
            && (r.movement.location == None || LocationOf(t.linenLocations, r.movement.location, r.movement.hotel)))
  {
    forall m: Movement
      ensures StockMovementRefers(t, m) <==>
        ItemOf(ItemsOf(t.stockItems), Some(m.item), m.hotel) && (m.location == None || LocationOf(t.stockLocations, m.location, m.hotel))
      ensures LinenMovementRefers(t, m) <==>
        ItemOf(t.linenItems, Some(m.item), m.hotel) && (m.location == None || LocationOf(t.linenLocations, m.location, m.hotel))
    {
      RowOfItsId(t.stockLocations, ItemsOf(t.stockItems), Some(m.item), m.hotel);
      RowOfItsId(t.stockLocations, t.linenItems, m.location, m.hotel);
      RowOfItsId(t.linenLocations, t.linenItems, m.location, m.hotel);
      RowOfItsId(t.linenLocations, t.linenItems, Some(m.item), m.hotel);
    }
  }

  /** Two locations that are not deleted have the same hotel and name. */
  predicate PlacesClash(a: Location, b: Location) {
    a.deletedAt == None && b.deletedAt == None && a.hotel == b.hotel && a.name == b.name
  }

  lemma NamesUniqueRows(ls: map<int, Location>, items: map<int, Item>)
    ensures ActiveNamesUnique(ls) <==> forall k, l | k in ls && l in ls && k != l :: !PlacesClash(ls[k], ls[l])
    ensures ActiveItemNamesUnique(items) <==> forall k, l | k in items && l in items && k != l :: !NamesClash(items[k], items[l])
  {
    forall a, b: Location ensures PlacesClash(a, b) <==> Active(a) && Active(b) && SamePlace(a, b) {
    }
    forall a, b: Item ensures NamesClash(a, b) <==> ActiveItem(a) && ActiveItem(b) && SameName(a, b) {
    }
  }

  predicate VendorAtStock(t: Tables, w: Vendor) {
    w.linenLocation == None && LocationOf(t.stockLocations, w.stockLocation, w.hotel)
  }

  predicate LineOfStock(t: Tables, l: Line) {
    l.linenItem == None && ItemOf(ItemsOf(t.stockItems), l.stockItem, l.hotel)
  }

  /** What the database guarantees before the split: no linen rows, unique active names, and references of one hotel. */
  lemma BeforeSplitRows(t: Tables)
    ensures BeforeSplit(t) <==>
      && t.linenItems == map[] && t.linenLocations == map[] && t.linenMovements == []
      && ActiveNamesUnique(t.stockLocations) && ActiveItemNamesUnique(ItemsOf(t.stockItems)) && MovementsRefer(t)
      && (forall v | v in t.vendors :: VendorAtStock(t, t.vendors[v]))
      && (forall p | p in t.prices :: LineOfStock(t, t.prices[p]))
      && (forall p | p in t.lines :: LineOfStock(t, t.lines[p]))
  {
    forall w: Vendor
      ensures VendorAtStock(t, w) <==>
        && w.linenLocation.None? && w.stockLocation.Some? && w.stockLocation.value in t.stockLocations
        && t.stockLocations[w.stockLocation.value].hotel == w.hotel
    {
      RowOfItsId(t.stockLocations, map[], w.stockLocation, w.hotel);
    }
    forall l: Line ensures LineOfStock(t, l) <==> LineNamesStockItem(t, l) {
      RowOfItsId(map[], ItemsOf(t.stockItems), l.stockItem, l.hotel);
    }
  }

  predicate IsOneOf(id: Option<int>, ids: set<int>) {
    match id
    case None => false
    case Some(i) => i in ids
  }

  /** What stands in the way of a delete of stock locations and of stock items: a row that names one of them. */
  lemma DeletesAreFreeIff(movements: seq<MovementRow>, vendors: map<int, Vendor>, prices: map<int, Line>, lines: map<int, Line>, gone: set<int>)
    ensures LocationsFree(movements, vendors, gone) <==>
      && (forall r | r in movements :: !IsOneOf(r.movement.location, gone))
      && (forall v | v in vendors :: !IsOneOf(vendors[v].stockLocation, gone))
    ensures ItemsFree(movements, prices, lines, gone) <==>
      && (forall r | r in movements :: r.movement.item !in gone)
      && (forall p | p in prices :: !IsOneOf(prices[p].stockItem, gone))
      && (forall p | p in lines :: !IsOneOf(lines[p].stockItem, gone))
  {
  }

  // ----- what a balance counts -----

  /** Receipts and upward adjustments count for, issues and downward adjustments against. */
  function Effect(m: Movement): int {
    if m.movementType in [MovementType.In, Adjustment] then m.quantity else -m.quantity
  }

  /** A balance starts at nothing, and a movement of the item at the place changes it by its effect; no other does. */
  lemma BalanceOfOneMore(rows: seq<MovementRow>, r: MovementRow, item: int, location: Option<int>)
    ensures Balance([], item, location) == 0
    ensures Balance(rows + [r], item, location) == Balance(rows, item, location) +
      if r.movement.item == item && r.movement.location == location then Effect(r.movement) else 0
  {
    ContentsOfOneMore(rows, r);
    TotalOfOneMore(Contents(rows), r.movement, At(item, location));
  }

  /** And likewise by hotel and name of the place. */
  lemma NamedBalanceOfOneMore(t: Tables, rows: seq<MovementRow>, r: MovementRow, item: int, hotel: int, name: string)
    ensures NamedBalance(t.(stockMovements := []), item, hotel, name) == 0
    ensures
      var l := r.movement.location;
      NamedBalance(t.(stockMovements := rows + [r]), item, hotel, name) ==
      NamedBalance(t.(stockMovements := rows), item, hotel, name) +
        if r.movement.item == item && l.Some? && l.value in t.stockLocations
           && t.stockLocations[l.value].hotel == hotel && t.stockLocations[l.value].name == name
        then Effect(r.movement) else 0
  {
    ContentsOfOneMore(rows, r);
    TotalOfOneMore(Contents(rows), r.movement, AtPlace(t.stockLocations, item, hotel, name));
  }
}
