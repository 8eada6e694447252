/**
 The rows the linen split moves, the constraints the database keeps on them,
 and what a completed split or reversal has done, as relations on table contents.
 */
module LinenTables {
  import opened Wrappers

  // ----- rows -----

  /** The columns stock_items and linen_items have in common. */
  datatype Item = Item(hotel: int, name: string, unit: string, minQuantity: Option<int>, active: bool,
                       deletedAt: Option<int>, deletedBy: Option<int>)

  /** A stock_items row; `linen` says that its kind column is 'linen'. */
  datatype StockItem = StockItem(item: Item, sku: Option<string>, linen: bool)

  datatype Location = Location(hotel: int, name: string, deletedAt: Option<int>, deletedBy: Option<int>)

  datatype MovementType = In | Out | Adjustment | AdjustmentOut

  /** A movement without its id; quantities are in hundredths, `note` stands for the columns copied unread. */
  datatype Movement = Movement(hotel: int, item: int, location: Option<int>, movementType: MovementType,
                               quantity: int, note: string)

  datatype MovementRow = MovementRow(id: int, movement: Movement)

  /** While the migration runs a referring row has both columns; a dropped or unfilled column is None. */
  datatype Vendor = Vendor(hotel: int, stockLocation: Option<int>, linenLocation: Option<int>)
  datatype Line = Line(hotel: int, stockItem: Option<int>, linenItem: Option<int>)

  datatype Tables = Tables(
    stockItems: map<int, StockItem>, stockLocations: map<int, Location>, stockMovements: seq<MovementRow>,
    linenItems: map<int, Item>, linenLocations: map<int, Location>, linenMovements: seq<MovementRow>,
    vendors: map<int, Vendor>, prices: map<int, Line>, lines: map<int, Line>)

  // ----- the constraints in force before the split -----

  predicate SamePlace(a: Location, b: Location) {
    a.hotel == b.hotel && a.name == b.name
  }

  predicate Active(l: Location) {
    l.deletedAt.None?
  }

  /** The partial unique index on (hotel_id, name) where deleted_at is null. */
  predicate ActiveNamesUnique(ls: map<int, Location>) {
    forall k, l | k in ls && l in ls && Active(ls[k]) && Active(ls[l]) && SamePlace(ls[k], ls[l]) :: k == l
  }

  predicate ActiveItem(i: Item) {
    i.deletedAt.None?
  }

  predicate SameName(a: Item, b: Item) {
    a.hotel == b.hotel && a.name == b.name
  }

  /** The partial unique index on the items' (hotel_id, name) where deleted_at is null. */
  predicate ActiveItemNamesUnique(items: map<int, Item>) {
    forall k, l | k in items && l in items && ActiveItem(items[k]) && ActiveItem(items[l]) && SameName(items[k], items[l]) :: k == l
  }

  function ItemsOf(stock: map<int, StockItem>): map<int, Item> {
    map i | i in stock :: stock[i].item
  }

  /** Linen items can be inserted into the stock items: no id is taken, and no active name. */
  predicate ItemsFit(linen: map<int, Item>, stock: map<int, StockItem>) {
    && linen.Keys !! stock.Keys && ActiveItemNamesUnique(linen)
    && forall i, j | i in linen && j in stock && ActiveItem(linen[i]) && ActiveItem(stock[j].item) ::
      !SameName(linen[i], stock[j].item)
  }

  /** Composite foreign keys: a movement's item and location exist and belong to the movement's hotel. */
  predicate StockMovementRefers(t: Tables, m: Movement) {
    && m.item in t.stockItems && t.stockItems[m.item].item.hotel == m.hotel
    && (m.location.Some? ==>
          m.location.value in t.stockLocations && t.stockLocations[m.location.value].hotel == m.hotel)
  }

  predicate LinenMovementRefers(t: Tables, m: Movement) {
    && m.item in t.linenItems && t.linenItems[m.item].hotel == m.hotel
    && (m.location.Some? ==>
          m.location.value in t.linenLocations && t.linenLocations[m.location.value].hotel == m.hotel)
  }

  predicate MovementsRefer(t: Tables) {
    && (forall r | r in t.stockMovements :: StockMovementRefers(t, r.movement))
    && (forall r | r in t.linenMovements :: LinenMovementRefers(t, r.movement))
  }

  predicate LineNamesStockItem(t: Tables, l: Line) {
    l.linenItem.None? && l.stockItem.Some? && l.stockItem.value in t.stockItems
    && t.stockItems[l.stockItem.value].item.hotel == l.hotel
  }

  predicate BeforeSplit(t: Tables) {
    && t.linenItems == map[] && t.linenLocations == map[] && t.linenMovements == []
    && ActiveNamesUnique(t.stockLocations) && ActiveItemNamesUnique(ItemsOf(t.stockItems))
    && MovementsRefer(t)
    && (forall v | v in t.vendors ::
          && t.vendors[v].linenLocation.None? && t.vendors[v].stockLocation.Some?
          && t.vendors[v].stockLocation.value in t.stockLocations
          && t.stockLocations[t.vendors[v].stockLocation.value].hotel == t.vendors[v].hotel)
    && (forall p | p in t.prices :: LineNamesStockItem(t, t.prices[p]))
    && (forall p | p in t.lines :: LineNamesStockItem(t, t.lines[p]))
  }

  /** Every laundry row points at an existing linen row of its own hotel: what the new foreign keys check. */
  predicate LaundryRefers(t: Tables) {
    LaundryRowsRefer(t.vendors, t.prices, t.lines, t.linenItems, t.linenLocations)
  }

  predicate LaundryRowsRefer(vendors: map<int, Vendor>, prices: map<int, Line>, lines: map<int, Line>,
                             items: map<int, Item>, locations: map<int, Location>) {
    && (forall v | v in vendors :: VendorRefers(locations, vendors[v]))
    && (forall p | p in prices :: LineNamesLinenItem(items, prices[p]))
    && (forall p | p in lines :: LineNamesLinenItem(items, lines[p]))
  }

  predicate VendorRefers(locations: map<int, Location>, w: Vendor) {
    && w.linenLocation.Some? && w.linenLocation.value in locations
    && locations[w.linenLocation.value].hotel == w.hotel
  }

  predicate LineNamesLinenItem(items: map<int, Item>, l: Line) {
    l.linenItem.Some? && l.linenItem.value in items && items[l.linenItem.value].hotel == l.hotel
  }

  // ----- which rows move -----

  function LinenIds(t: Tables): set<int> {
    set i | i in t.stockItems && t.stockItems[i].linen
  }

  function LocationsOf(rows: seq<MovementRow>): set<int> {
    set r | r in rows && r.movement.location.Some? :: r.movement.location.value
  }

  function UsedLocations(t: Tables): set<int> {
    (set v | v in t.vendors && t.vendors[v].stockLocation.Some? :: t.vendors[v].stockLocation.value)
    + LocationsOf(Of(t.stockMovements, LinenIds(t)))
  }

  /** Used locations that a movement of a non-linen item uses too. */
  function SharedLocations(t: Tables): set<int> {
    UsedLocations(t) * LocationsOf(Of(t.stockMovements, t.stockItems.Keys - LinenIds(t)))
  }

  function Contents(rows: seq<MovementRow>): seq<Movement> {
    seq(|rows|, i requires 0 <= i < |rows| => rows[i].movement)
  }

  /** The rows of the given items, in table order. */
  function Of(rows: seq<MovementRow>, items: set<int>): seq<MovementRow> {
    if rows == [] then []
    else
      var front, last := rows[..|rows| - 1], rows[|rows| - 1];
      if last.movement.item in items then Of(front, items) + [last] else Of(front, items)
  }

  /** The rows of all other items. */
  function NotOf(rows: seq<MovementRow>, items: set<int>): seq<MovementRow> {
    if rows == [] then []
    else
      var front, last := rows[..|rows| - 1], rows[|rows| - 1];
      if last.movement.item in items then NotOf(front, items) else NotOf(front, items) + [last]
  }

  /** A location that is missing from the map is lost, as a dictionary lookup with default None loses it. */
  function Relocate(m: Movement, places: map<int, int>): Movement {
    m.(location := if m.location.Some? && m.location.value in places then Some(places[m.location.value]) else None)
  }

  function RelocateAll(ms: seq<Movement>, places: map<int, int>): seq<Movement> {
    seq(|ms|, i requires 0 <= i < |ms| => Relocate(ms[i], places))
  }

  function LookUp(places: map<int, int>, k: int): int {
    if k in places then places[k] else k
  }

  // ----- what stands in the way of a delete -----

  /** Nothing left refers to these stock locations. */
  predicate LocationsFree(movements: seq<MovementRow>, vendors: map<int, Vendor>, gone: set<int>) {
    && (forall r | r in movements && r.movement.location.Some? :: r.movement.location.value !in gone)
    && (forall v | v in vendors && vendors[v].stockLocation.Some? :: vendors[v].stockLocation.value !in gone)
  }

  predicate LinesFree(lines: map<int, Line>, gone: set<int>) {
    forall p | p in lines && lines[p].stockItem.Some? :: lines[p].stockItem.value !in gone
  }

  /** Nothing left refers to these stock items. */
  predicate ItemsFree(movements: seq<MovementRow>, prices: map<int, Line>, lines: map<int, Line>, gone: set<int>) {
    (forall r | r in movements :: r.movement.item !in gone) && LinesFree(prices, gone) && LinesFree(lines, gone)
  }

  // ----- what a completed run has done -----

  /** The new column is filled, the old one still there. */
  function FilledVendor(w: Vendor, places: map<int, int>): Vendor {
    w.(linenLocation := if w.stockLocation.Some? then Some(LookUp(places, w.stockLocation.value)) else None)
  }

  function FilledVendors(vendors: map<int, Vendor>, places: map<int, int>): map<int, Vendor> {
    map v | v in vendors :: FilledVendor(vendors[v], places)
  }

  function FilledLines(lines: map<int, Line>): map<int, Line> {
    map p | p in lines :: lines[p].(linenItem := lines[p].stockItem)
  }

  function FinalizedVendors(vendors: map<int, Vendor>): map<int, Vendor> {
    map v | v in vendors :: vendors[v].(stockLocation := None)
  }

  function FinalizedLines(lines: map<int, Line>): map<int, Line> {
    map p | p in lines :: lines[p].(stockItem := None)
  }

  /**
   `places` sends the used stock locations to their copies in `copied`, and
   `source` is its inverse; a location that is not shared keeps its id.
   */
  predicate LocationsCopied(used: set<int>, shared: set<int>, stock: map<int, Location>, copied: map<int, Location>,
                            places: map<int, int>, source: map<int, int>) {
    && places.Keys == used && source.Keys == copied.Keys
    && (forall l | l in places :: places[l] in source && source[places[l]] == l)
    && (forall k | k in source ::
          && source[k] in places && places[source[k]] == k && source[k] in stock
          && copied[k] == stock[source[k]])
    && (forall l | l in places && l !in shared :: places[l] == l)
  }

  function RepointedVendor(w: Vendor, places: map<int, int>): Vendor {
    Vendor(w.hotel, None, if w.stockLocation.Some? then Some(LookUp(places, w.stockLocation.value)) else None)
  }

  predicate VendorsRepointed(before: map<int, Vendor>, after: map<int, Vendor>, places: map<int, int>) {
    && after.Keys == before.Keys
    && forall v | v in before :: after[v] == RepointedVendor(before[v], places)
  }

  predicate LinesRepointed(before: map<int, Line>, after: map<int, Line>) {
    && after.Keys == before.Keys
    && forall p | p in before :: after[p] == Line(before[p].hotel, None, before[p].stockItem)
  }

  predicate SplitDone(before: Tables, after: Tables, places: map<int, int>, source: map<int, int>) {
    var linen := LinenIds(before);
    && VendorsRepointed(before.vendors, after.vendors, if linen == {} then map[] else places)
    && LinesRepointed(before.prices, after.prices)
    && LinesRepointed(before.lines, after.lines)
    && if linen == {} then
         && after.stockItems == before.stockItems && after.stockLocations == before.stockLocations
         && after.stockMovements == before.stockMovements
         && after.linenItems == map[] && after.linenLocations == map[] && after.linenMovements == []
       else
         && after.linenItems == (map i | i in linen :: before.stockItems[i].item)
         && after.stockItems == before.stockItems - linen
         && LocationsCopied(UsedLocations(before), SharedLocations(before), before.stockLocations,
                            after.linenLocations, places, source)
         && after.stockLocations == before.stockLocations - (UsedLocations(before) - SharedLocations(before))
         && Contents(after.linenMovements) == RelocateAll(Contents(Of(before.stockMovements, linen)), places)
         && after.stockMovements == NotOf(before.stockMovements, linen)
  }

  /**
   `back` sends the linen locations to stock rows. A row of `origin` was
   inserted for the linen location it names, when no active stock row had its
   hotel and name; every other linen location was matched with an active row.
   */
  predicate LocationsReturned(linen: map<int, Location>, stock: map<int, Location>, stock': map<int, Location>,
                              back: map<int, int>, origin: map<int, int>) {
    && back.Keys == linen.Keys
    && origin.Keys !! stock.Keys
    && stock'.Keys == stock.Keys + origin.Keys
    && (forall l | l in stock :: stock'[l] == stock[l])
    && (forall n | n in origin ::
          origin[n] in back && back[origin[n]] == n && stock'[n] == linen[origin[n]] && !HasActiveNamesake(stock, stock'[n]))
    && (forall j | j in back ::
          && back[j] in stock' && SamePlace(stock'[back[j]], linen[j])
          && ((back[j] in origin && origin[back[j]] == j) || Active(stock'[back[j]])))
  }

  predicate HasActiveNamesake(stock: map<int, Location>, row: Location) {
    exists l | l in stock :: Active(stock[l]) && SamePlace(stock[l], row)
  }

  function ReturnedVendor(w: Vendor, back: map<int, int>): Vendor {
    Vendor(w.hotel, if w.linenLocation.Some? then Some(LookUp(back, w.linenLocation.value)) else None, None)
  }

  predicate VendorsReturned(before: map<int, Vendor>, after: map<int, Vendor>, back: map<int, int>) {
    && after.Keys == before.Keys
    && forall v | v in before :: after[v] == ReturnedVendor(before[v], back)
  }

  predicate LinesReturned(before: map<int, Line>, after: map<int, Line>) {
    && after.Keys == before.Keys
    && forall p | p in before :: after[p] == Line(before[p].hotel, before[p].linenItem, None)
  }

  predicate ReverseDone(before: Tables, after: Tables, back: map<int, int>, origin: map<int, int>) {
    && VendorsReturned(before.vendors, after.vendors, if before.linenItems == map[] then map[] else back)
    && LinesReturned(before.prices, after.prices)
    && LinesReturned(before.lines, after.lines)
    && after.linenItems == map[] && after.linenLocations == map[] && after.linenMovements == []
    && if before.linenItems == map[] then
         && after.stockItems == before.stockItems && after.stockLocations == before.stockLocations
         && after.stockMovements == before.stockMovements
       else
         && ItemsFit(before.linenItems, before.stockItems)
         && after.stockItems == before.stockItems
                                + (map i | i in before.linenItems :: StockItem(before.linenItems[i], None, true))
         && LocationsReturned(before.linenLocations, before.stockLocations, after.stockLocations, back, origin)
         && Contents(after.stockMovements)
            == Contents(before.stockMovements) + RelocateAll(Contents(before.linenMovements), back)
  }

  // ----- basic facts -----

  lemma ContentsOfOneMore(rows: seq<MovementRow>, row: MovementRow)
    ensures Contents(rows + [row]) == Contents(rows) + [row.movement]
  {
  }

  lemma {:induction false} OfMembers(rows: seq<MovementRow>, items: set<int>, r: MovementRow)
    ensures r in Of(rows, items) <==> r in rows && r.movement.item in items
    ensures r in NotOf(rows, items) <==> r in rows && r.movement.item !in items
  {
    if rows != [] {
      OfMembers(rows[..|rows| - 1], items, r);
      assert rows == rows[..|rows| - 1] + [rows[|rows| - 1]];
    }
  }

  lemma UsedLocationsExist(t: Tables)
    requires BeforeSplit(t)
    ensures UsedLocations(t) <= t.stockLocations.Keys
  {
    forall l | l in UsedLocations(t) ensures l in t.stockLocations {
      if r :| r in Of(t.stockMovements, LinenIds(t)) && r.movement.location == Some(l) {
        OfMembers(t.stockMovements, LinenIds(t), r);
        assert StockMovementRefers(t, r.movement);
      }
    }
  }
}
