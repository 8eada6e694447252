/** A split followed at once by its reversal. */
module LinenRoundTrip {
  import opened Wrappers
  import opened LinenTables
  import opened LinenSplit
  import opened LinenProofs

  /** The tables before, between and after, with the maps the two runs built. */
  datatype Trip = Trip(before: Tables, mid: Tables, after: Tables,
                       places: map<int, int>, source: map<int, int>, back: map<int, int>, origin: map<int, int>)

  predicate Completed(t: Trip) {
    && BeforeSplit(t.before)
    && SplitDone(t.before, t.mid, t.places, t.source)
    && ReverseDone(t.mid, t.after, t.back, t.origin)
  }

  /** Where a stock location id ends up: used locations travel through the linen table. */
  function Landing(t: Trip): map<int, int> {
    map l | l in t.before.stockLocations ::
      if l in t.places then LookUp(t.back, t.places[l]) else l
  }

  // ----- without linen items -----

  /** Nothing moves: every table is back as it was. */
  lemma TripWithoutLinenIsIdentity(t: Trip)
    requires Completed(t) && LinenIds(t.before) == {}
    ensures t.after == t.before
  {
    forall v | v in t.before.vendors ensures t.after.vendors[v] == t.before.vendors[v] {
      assert t.mid.vendors[v] == RepointedVendor(t.before.vendors[v], map[]);
    }
    LinesComeBack(t.before, t.before.prices, t.mid.prices, t.after.prices);
    LinesComeBack(t.before, t.before.lines, t.mid.lines, t.after.lines);
  }

  lemma LinesComeBack(before: Tables, lines: map<int, Line>, mid: map<int, Line>, after: map<int, Line>)
    requires LinesRepointed(lines, mid) && LinesReturned(mid, after)
    requires forall p | p in lines :: LineNamesStockItem(before, lines[p])
    ensures after == lines
  {
    forall p | p in lines ensures after[p] == lines[p] {
      assert LineNamesStockItem(before, lines[p]) && p in mid;
    }
  }

  // ----- with linen items -----

  predicate CompletedWithLinen(t: Trip) {
    Completed(t) && LinenIds(t.before) != {}
  }

  lemma TripFacts(t: Trip)
    requires CompletedWithLinen(t)
    ensures Split(t.before, t.mid, t.places, t.source)
    ensures t.mid.linenItems != map[]
    ensures LocationsReturned(t.mid.linenLocations, t.mid.stockLocations, t.after.stockLocations, t.back, t.origin)
    ensures t.places.Keys == UsedLocations(t.before) <= t.before.stockLocations.Keys
  {
    var i := MemberOf(LinenIds(t.before));
    assert i in t.mid.linenItems;
    UsedLocationsExist(t.before);
  }

  lemma StockLocationStays(t: Trip, l: int)
    requires CompletedWithLinen(t) && l in t.mid.stockLocations
    ensures l in t.before.stockLocations && l in t.after.stockLocations
    ensures t.after.stockLocations[l] == t.mid.stockLocations[l] == t.before.stockLocations[l]
  {
    TripFacts(t);
  }

  /** A used location lands on a row of the same hotel and name. */
  lemma LandingKeepsPlace(t: Trip, l: int)
    requires CompletedWithLinen(t) && l in t.before.stockLocations
    requires l in t.places || l in t.mid.stockLocations
    ensures Landing(t)[l] in t.after.stockLocations
    ensures SamePlace(t.after.stockLocations[Landing(t)[l]], t.before.stockLocations[l])
  {
    TripFacts(t);
    if l in t.places {
      PlacesInvert(t.before, t.mid, t.places, t.source, l);
      assert t.places[l] in t.back;
    } else {
      assert t.mid.stockLocations[l] == t.before.stockLocations[l];
    }
  }

  /** The movements after the trip: kept rows untouched, then moved rows sent to their landing. */
  lemma TripMovements(t: Trip)
    requires CompletedWithLinen(t)
    ensures var linen, rows := LinenIds(t.before), t.before.stockMovements;
            Contents(t.after.stockMovements)
            == Contents(NotOf(rows, linen)) + RelocateAll(Contents(Of(rows, linen)), Landing(t))
  {
    TripFacts(t);
    var moved := Of(t.before.stockMovements, LinenIds(t.before));
    forall i | 0 <= i < |moved|
      ensures Relocate(Relocate(moved[i].movement, t.places), t.back) == Relocate(moved[i].movement, Landing(t))
    {
      OfMembers(t.before.stockMovements, LinenIds(t.before), moved[i]);
      MovedLocationsAreMapped(t.before, t.mid, t.places, t.source, moved[i]);
    }
    assert RelocateAll(RelocateAll(Contents(moved), t.places), t.back) == RelocateAll(Contents(moved), Landing(t));
  }

  /** A total over the table survives the trip if its test does, row by row. */
  lemma TripKeepsTotal(t: Trip, counts: Movement -> bool, counts': Movement -> bool)
    requires CompletedWithLinen(t)
    requires forall r | r in t.before.stockMovements ::
               counts(r.movement) == counts'(Landed(t, r.movement))
    ensures Total(Contents(t.after.stockMovements), counts') == Total(Contents(t.before.stockMovements), counts)
  {
    var linen, rows := LinenIds(t.before), t.before.stockMovements;
    TripMovements(t);
    TotalOfConcat(Contents(NotOf(rows, linen)), RelocateAll(Contents(Of(rows, linen)), Landing(t)), counts');
    TotalsSplit(rows, linen, Landing(t), counts, counts', counts');
  }

  /** A kept row's location was never taken away. */
  lemma KeptLocationStays(t: Trip, r: MovementRow)
    requires CompletedWithLinen(t)
    requires r in t.before.stockMovements && r.movement.item !in LinenIds(t.before) && r.movement.location.Some?
    ensures r.movement.location.value in t.mid.stockLocations
    ensures t.after.stockLocations[r.movement.location.value] == t.before.stockLocations[r.movement.location.value]
  {
    TripFacts(t);
    OfMembers(t.before.stockMovements, LinenIds(t.before), r);
    OfMembers(t.before.stockMovements, t.before.stockItems.Keys - LinenIds(t.before), r);
    assert r in t.mid.stockMovements;
    SplitKeepsMovementReferences(t.before, t.mid, t.places, t.source);
    assert StockMovementRefers(t.mid, r.movement);
    StockLocationStays(t, r.movement.location.value);
  }

  function Landed(t: Trip, m: Movement): Movement {
    if m.item in LinenIds(t.before) then Relocate(m, Landing(t)) else m
  }

  /** A movement lands at a location of the same hotel and name, or at none if it had none. */
  lemma LandedKeepsPlace(t: Trip, r: MovementRow)
    requires CompletedWithLinen(t) && r in t.before.stockMovements
    ensures Landed(t, r.movement).location.None? <==> r.movement.location.None?
    ensures r.movement.location.Some? ==>
              var l, n := r.movement.location.value, Landed(t, r.movement).location.value;
              && l in t.before.stockLocations && n in t.after.stockLocations
              && SamePlace(t.after.stockLocations[n], t.before.stockLocations[l])
  {
    assert StockMovementRefers(t.before, r.movement);
    if r.movement.location.Some? {
      TripFacts(t);
      if r.movement.item in LinenIds(t.before) {
        MovedLocationsAreMapped(t.before, t.mid, t.places, t.source, r);
        LandingKeepsPlace(t, r.movement.location.value);
      } else {
        KeptLocationStays(t, r);
      }
    }
  }

  /**
   Whatever was deleted and in whatever order rows were matched, every item has
   its old balance at every named place of every hotel, and without a place.
   */
  lemma TripRestoresNamedBalances(t: Trip, item: int, hotel: int, name: string)
    requires CompletedWithLinen(t)
    ensures NamedBalance(t.after, item, hotel, name) == NamedBalance(t.before, item, hotel, name)
    ensures Balance(t.after.stockMovements, item, None) == Balance(t.before.stockMovements, item, None)
  {
    var counts := AtPlace(t.before.stockLocations, item, hotel, name);
    var counts' := AtPlace(t.after.stockLocations, item, hotel, name);
    forall r | r in t.before.stockMovements
      ensures counts(r.movement) == counts'(Landed(t, r.movement))
      ensures At(item, None)(r.movement) == At(item, None)(Landed(t, r.movement))
    {
      LandedKeepsPlace(t, r);
    }
    TripKeepsTotal(t, counts, counts');
    TripKeepsTotal(t, At(item, None), At(item, None));
  }

  /** Items come back under their ids; only a linen item's sku is gone. Prices and remito lines are untouched. */
  lemma TripRestoresItemsAndLines(t: Trip)
    requires CompletedWithLinen(t)
    ensures t.after.stockItems
         == map i | i in t.before.stockItems ::
              if i in LinenIds(t.before) then t.before.stockItems[i].(sku := None) else t.before.stockItems[i]
    ensures t.after.prices == t.before.prices && t.after.lines == t.before.lines
  {
    TripFacts(t);
    LinesComeBack(t.before, t.before.prices, t.mid.prices, t.after.prices);
    LinesComeBack(t.before, t.before.lines, t.mid.lines, t.after.lines);
    assert t.mid.linenItems.Keys == LinenIds(t.before);
    assert t.after.stockItems.Keys == t.before.stockItems.Keys;
  }

  /** A vendor's location comes back as the landing of its old one: same hotel, same name. */
  lemma TripRestoresVendors(t: Trip, v: int)
    requires CompletedWithLinen(t) && v in t.before.vendors
    ensures v in t.after.vendors
    ensures var l := t.before.vendors[v].stockLocation.value;
            && l in t.before.stockLocations
            && t.after.vendors[v] == t.before.vendors[v].(stockLocation := Some(Landing(t)[l]))
            && Landing(t)[l] in t.after.stockLocations
            && SamePlace(t.after.stockLocations[Landing(t)[l]], t.before.stockLocations[l])
  {
    TripFacts(t);
    var l := t.before.vendors[v].stockLocation.value;
    assert l in UsedLocations(t.before);
    LandingKeepsPlace(t, l);
  }

  // ----- when the location table itself comes back -----

  /** The after table is the before table with its ids renamed one to one. */
  predicate RestoredUpTo(before: map<int, Location>, after: map<int, Location>, rename: map<int, int>) {
    && rename.Keys == before.Keys
    && rename.Values == after.Keys
    && (forall l | l in before :: rename[l] in after && after[rename[l]] == before[l])
    && (forall k, l | k in before && l in before && rename[k] == rename[l] :: k == l)
  }

  /** Every deleted location that linen uses is used by linen alone and has no active namesake. */
  predicate Recoverable(before: Tables) {
    forall l | l in UsedLocations(before) && l in before.stockLocations && !Active(before.stockLocations[l]) ::
      l !in SharedLocations(before) && !HasActiveNamesake(before.stockLocations, before.stockLocations[l])
  }

  lemma LandingOfUsed(t: Trip, l: int)
    requires CompletedWithLinen(t) && l in t.places
    ensures l in t.before.stockLocations && t.places[l] in t.back
    ensures Landing(t)[l] == t.back[t.places[l]] && t.mid.linenLocations[t.places[l]] == t.before.stockLocations[l]
    ensures Landing(t)[l] in t.after.stockLocations
    ensures SamePlace(t.after.stockLocations[Landing(t)[l]], t.before.stockLocations[l])
  {
    TripFacts(t);
    PlacesInvert(t.before, t.mid, t.places, t.source, l);
    LandingKeepsPlace(t, l);
  }

  /** A row of the after table is a row of the before table. */
  lemma RowHasSource(t: Trip, n: int) returns (k: int)
    requires CompletedWithLinen(t) && n in t.after.stockLocations
    ensures k in t.before.stockLocations && t.after.stockLocations[n] == t.before.stockLocations[k]
    ensures n in t.mid.stockLocations ==> k == n
    ensures n in t.origin ==> t.origin[n] in t.source && k == t.source[t.origin[n]] && k in t.places && t.places[k] == t.origin[n]
  {
    TripFacts(t);
    if n in t.mid.stockLocations {
      k := n;
    } else {
      SourcesInvert(t.before, t.mid, t.places, t.source, t.origin[n]);
      k := t.source[t.origin[n]];
    }
  }

  lemma UsedRowComesBack(t: Trip, l: int)
    requires CompletedWithLinen(t) && Recoverable(t.before) && l in t.places
    ensures l in t.before.stockLocations && Landing(t)[l] in t.after.stockLocations
    ensures t.after.stockLocations[Landing(t)[l]] == t.before.stockLocations[l]
    ensures Active(t.before.stockLocations[l]) || (Landing(t)[l] in t.origin && t.origin[Landing(t)[l]] == t.places[l])
  {
    TripFacts(t);
    LandingOfUsed(t, l);
    var n, j := Landing(t)[l], t.places[l];
    if !(n in t.origin && t.origin[n] == j) {
      var k := RowHasSource(t, n);
      assert Active(t.before.stockLocations[k]) && SamePlace(t.before.stockLocations[k], t.before.stockLocations[l]);
    }
  }

  lemma SharedActiveStays(t: Trip, l: int)
    requires CompletedWithLinen(t) && l in t.places && l in t.mid.stockLocations
    requires l in t.before.stockLocations && Active(t.before.stockLocations[l])
    ensures Landing(t)[l] == l
  {
    TripFacts(t);
    LandingOfUsed(t, l);
    var n := Landing(t)[l];
    assert t.mid.stockLocations[l] == t.before.stockLocations[l];
    assert HasActiveNamesake(t.mid.stockLocations, t.after.stockLocations[n]);
    var k := RowHasSource(t, n);
    assert n !in t.origin;
  }

  lemma LandingIsInjective(t: Trip, k: int, l: int)
    requires CompletedWithLinen(t) && Recoverable(t.before)
    requires k in t.before.stockLocations && l in t.before.stockLocations && Landing(t)[k] == Landing(t)[l]
    ensures k == l
  {
    TripFacts(t);
    if k in t.places { UsedRowComesBack(t, k); }
    if l in t.places { UsedRowComesBack(t, l); }
    if k in t.places && l in t.places {
      PlacesInvert(t.before, t.mid, t.places, t.source, k);
      PlacesInvert(t.before, t.mid, t.places, t.source, l);
    }
  }

  /**
   The isomorphism: if every deleted location that linen uses is used by linen
   alone and has no active namesake, the location table comes back up to
   renaming, locations that stayed in stock keep their ids, and every item has
   its old balance at every location.
   */
  lemma RecoverableTripIsRenaming(t: Trip)
    requires CompletedWithLinen(t) && Recoverable(t.before)
    ensures RestoredUpTo(t.before.stockLocations, t.after.stockLocations, Landing(t))
    ensures forall l | l in t.mid.stockLocations :: Landing(t)[l] == l
  {
    TripFacts(t);
    forall l | l in t.mid.stockLocations ensures l in t.before.stockLocations && Landing(t)[l] == l {
      if l in t.places {
        assert l in SharedLocations(t.before);
        SharedActiveStays(t, l);
      }
    }
    forall l | l in t.before.stockLocations
      ensures Landing(t)[l] in t.after.stockLocations && t.after.stockLocations[Landing(t)[l]] == t.before.stockLocations[l]
    {
      if l in t.places {
        UsedRowComesBack(t, l);
      }
    }
    forall k, l | k in t.before.stockLocations && l in t.before.stockLocations && Landing(t)[k] == Landing(t)[l]
      ensures k == l
    {
      LandingIsInjective(t, k, l);
    }
    forall n | n in t.after.stockLocations ensures n in Landing(t).Values {
      var k := RowHasSource(t, n);
      if n in t.origin {
        LandingOfUsed(t, k);
      }
      assert Landing(t)[k] == n;
    }
  }

  lemma LandedAtLanding(t: Trip, r: MovementRow, l: int)
    requires CompletedWithLinen(t) && Recoverable(t.before)
    requires r in t.before.stockMovements && l in t.before.stockLocations
    ensures Landed(t, r.movement).location == Some(Landing(t)[l]) <==> r.movement.location == Some(l)
  {
    assert StockMovementRefers(t.before, r.movement);
    if r.movement.location.Some? {
      var k := r.movement.location.value;
      RecoverableTripIsRenaming(t);
      if r.movement.item !in LinenIds(t.before) {
        KeptLocationStays(t, r);
      }
      assert Landed(t, r.movement).location == Some(Landing(t)[k]);
      if Landing(t)[k] == Landing(t)[l] {
        LandingIsInjective(t, k, l);
      }
    }
  }

  lemma RecoverableTripRestoresBalances(t: Trip, item: int, l: int)
    requires CompletedWithLinen(t) && Recoverable(t.before) && l in t.before.stockLocations
    ensures Balance(t.after.stockMovements, item, Some(Landing(t)[l])) == Balance(t.before.stockMovements, item, Some(l))
  {
    var target := Some(Landing(t)[l]);
    forall r | r in t.before.stockMovements
      ensures At(item, Some(l))(r.movement) == At(item, target)(Landed(t, r.movement))
    {
      LandedAtLanding(t, r, l);
    }
    TripKeepsTotal(t, At(item, Some(l)), At(item, target));
  }

  /**
   The condition is needed: a deleted used location that is shared, or that has
   an active namesake left in stock, never comes back.
   */
  lemma UnrecoverableTripIsNoRenaming(t: Trip, l: int)
    requires CompletedWithLinen(t) && l in t.places && l in t.before.stockLocations && !Active(t.before.stockLocations[l])
    requires l in SharedLocations(t.before) || HasActiveNamesake(t.mid.stockLocations, t.before.stockLocations[l])
    ensures !RestoredUpTo(t.before.stockLocations, t.after.stockLocations, Landing(t))
  {
    TripFacts(t);
    LandingOfUsed(t, l);
    if RestoredUpTo(t.before.stockLocations, t.after.stockLocations, Landing(t)) {
      var n := Landing(t)[l];
      assert t.after.stockLocations[n] == t.before.stockLocations[l];
      assert n in t.origin && l in SharedLocations(t.before);
      assert l in Landing(t).Values;
      var k :| k in Landing(t) && Landing(t)[k] == l;
      if k in t.places {
        LandingOfUsed(t, k);
      }
      assert false;
    }
  }

  /** A store the condition shuts out: linen (item 100) and supplies (item 200) share the deleted location 10. */
  function SharedDeletedTrip(linen: Item, soap: Item, depot: Location, sheets: Movement, bars: Movement): Trip {
    Trip(
      Tables(map[100 := StockItem(linen, None, true), 200 := StockItem(soap, None, false)], map[10 := depot],
             [MovementRow(1, sheets), MovementRow(2, bars)], map[], map[], [], map[], map[], map[]),
      Tables(map[200 := StockItem(soap, None, false)], map[10 := depot], [MovementRow(2, bars)],
             map[100 := linen], map[7 := depot], [MovementRow(1, sheets.(location := Some(7)))], map[], map[], map[]),
      Tables(map[100 := StockItem(linen, None, true), 200 := StockItem(soap, None, false)], map[10 := depot, 11 := depot],
             [MovementRow(2, bars), MovementRow(3, sheets.(location := Some(11)))], map[], map[], [], map[], map[], map[]),
      map[10 := 7], map[7 := 10], map[7 := 11], map[11 := 7])
  }

  predicate SharedDeletedStore(linen: Item, soap: Item, depot: Location, sheets: Movement, bars: Movement) {
    && linen.hotel == soap.hotel == depot.hotel == sheets.hotel == bars.hotel
    && sheets.item == 100 && bars.item == 200
    && sheets.location == bars.location == Some(10)
    && !Active(depot) && !(ActiveItem(linen) && ActiveItem(soap) && SameName(linen, soap))
  }

  lemma RowsOfPair(x: MovementRow, y: MovementRow, items: set<int>)
    ensures Of([x, y], items) == (if x.movement.item in items then [x] else []) + (if y.movement.item in items then [y] else [])
    ensures NotOf([x, y], items) == (if x.movement.item in items then [] else [x]) + (if y.movement.item in items then [] else [y])
  {
    assert [x, y][..1] == [x] && [x][..0] == [];
    assert Of([], items) == [] == NotOf([], items);
    assert Of([x], items) == if x.movement.item in items then [x] else [];
    assert NotOf([x], items) == if x.movement.item in items then [] else [x];
  }

  lemma SharedDeletedRows(linen: Item, soap: Item, depot: Location, sheets: Movement, bars: Movement)
    requires SharedDeletedStore(linen, soap, depot, sheets, bars)
    ensures var b := SharedDeletedTrip(linen, soap, depot, sheets, bars).before;
            && LinenIds(b) == {100}
            && Of(b.stockMovements, {100}) == [MovementRow(1, sheets)]
            && NotOf(b.stockMovements, {100}) == [MovementRow(2, bars)]
            && UsedLocations(b) == {10} == SharedLocations(b)
  {
    var b := SharedDeletedTrip(linen, soap, depot, sheets, bars).before;
    var x, y := MovementRow(1, sheets), MovementRow(2, bars);
    assert LinenIds(b) == {100} && b.stockItems.Keys - LinenIds(b) == {200};
    RowsOfPair(x, y, {100});
    RowsOfPair(x, y, {200});
    assert LocationsOf([x]) == {10} == LocationsOf([y]) by {
      assert x in [x] && y in [y];
    }
  }

  lemma SharedDeletedSplit(linen: Item, soap: Item, depot: Location, sheets: Movement, bars: Movement)
    requires SharedDeletedStore(linen, soap, depot, sheets, bars)
    ensures var t := SharedDeletedTrip(linen, soap, depot, sheets, bars);
            SplitDone(t.before, t.mid, t.places, t.source)
  {
    SharedDeletedRows(linen, soap, depot, sheets, bars);
  }

  lemma SharedDeletedLocationsReturn(depot: Location)
    requires !Active(depot)
    ensures LocationsReturned(map[7 := depot], map[10 := depot], map[10 := depot, 11 := depot], map[7 := 11], map[11 := 7])
  {
  }

  lemma SharedDeletedMovementsReturn(sheets: Movement, bars: Movement)
    ensures
      var moved := [MovementRow(1, sheets.(location := Some(7)))];
      Contents([MovementRow(2, bars), MovementRow(3, sheets.(location := Some(11)))])
      == Contents([MovementRow(2, bars)]) + RelocateAll(Contents(moved), map[7 := 11])
  {
  }

  lemma SharedDeletedItemsReturn(linen: Item, soap: Item)
    requires !(ActiveItem(linen) && ActiveItem(soap) && SameName(linen, soap))
    ensures
      var items, stock := map[100 := linen], map[200 := StockItem(soap, None, false)];
      && ItemsFit(items, stock)
      && map[100 := StockItem(linen, None, true), 200 := StockItem(soap, None, false)]
         == stock + (map i | i in items :: StockItem(items[i], None, true))
  {
  }

  lemma SharedDeletedReverse(linen: Item, soap: Item, depot: Location, sheets: Movement, bars: Movement)
    requires SharedDeletedStore(linen, soap, depot, sheets, bars)
    ensures var t := SharedDeletedTrip(linen, soap, depot, sheets, bars);
            ReverseDone(t.mid, t.after, t.back, t.origin)
  {
    SharedDeletedLocationsReturn(depot);
    SharedDeletedMovementsReturn(sheets, bars);
    SharedDeletedItemsReturn(linen, soap);
    assert 100 in SharedDeletedTrip(linen, soap, depot, sheets, bars).mid.linenItems;
  }

  lemma SharedDeletedStoreIsValid(linen: Item, soap: Item, depot: Location, sheets: Movement, bars: Movement)
    requires SharedDeletedStore(linen, soap, depot, sheets, bars)
    ensures BeforeSplit(SharedDeletedTrip(linen, soap, depot, sheets, bars).before)
  {
  }

  lemma SharedDeletedTripCompletes(linen: Item, soap: Item, depot: Location, sheets: Movement, bars: Movement)
    requires SharedDeletedStore(linen, soap, depot, sheets, bars)
    ensures CompletedWithLinen(SharedDeletedTrip(linen, soap, depot, sheets, bars))
  {
    SharedDeletedRows(linen, soap, depot, sheets, bars);
    SharedDeletedStoreIsValid(linen, soap, depot, sheets, bars);
    SharedDeletedSplit(linen, soap, depot, sheets, bars);
    SharedDeletedReverse(linen, soap, depot, sheets, bars);
  }

  /** The deleted row comes back twice, and the linen movements come back at the copy. */
  lemma SharedDeletedLocationIsDuplicated(linen: Item, soap: Item, depot: Location, sheets: Movement, bars: Movement)
    requires SharedDeletedStore(linen, soap, depot, sheets, bars)
    ensures var t := SharedDeletedTrip(linen, soap, depot, sheets, bars);
            && CompletedWithLinen(t) && !Recoverable(t.before)
            && t.before.stockLocations.Keys == {10} && t.after.stockLocations.Keys == {10, 11}
            && t.after.stockLocations[11] == t.after.stockLocations[10] == depot
  {
    SharedDeletedTripCompletes(linen, soap, depot, sheets, bars);
    SharedDeletedRows(linen, soap, depot, sheets, bars);
  }

  /** The split never leaves an item id or name that the reversal would collide with. */
  lemma ImmediateReversalNeverAborts(before: Tables, mid: Tables, places: map<int, int>, source: map<int, int>)
    requires BeforeSplit(before) && SplitDone(before, mid, places, source)
    ensures mid.linenItems == map[] || ItemsFit(mid.linenItems, mid.stockItems)
  {
    if LinenIds(before) != {} {
      var items := ItemsOf(before.stockItems);
      assert forall i | i in mid.linenItems :: i in items && items[i] == mid.linenItems[i];
      assert forall j | j in mid.stockItems :: j in items && items[j] == mid.stockItems[j].item && j !in mid.linenItems;
    }
  }

  /** Upgrade and downgrade on one store: the only way not to complete is the split's own. */
  method UpgradeThenDowngrade(db: Database, enforced: bool) returns (ok: bool, ghost t: Trip)
    requires BeforeSplit(db.Contained())
    modifies db
    ensures ok ==> Completed(t) && t.before == old(db.Contained()) && t.after == db.Contained()
    ensures !ok ==> SharedLocations(old(db.Contained())) != {} || (enforced && !LaundryNamesLinen(old(db.Contained())))
  {
    ghost var before := db.Contained();
    ghost var places, source, back, origin: map<int, int>;
    var split;
    split, places, source := db.MigrateLinenData(enforced);
    t := Trip(before, before, before, map[], map[], map[], map[]);
    if !split {
      return false, t;
    }
    ghost var mid := db.Contained();
    ImmediateReversalNeverAborts(before, mid, places, source);
    var returned;
    returned, back, origin := db.MigrateLinenDataBack();
    t := Trip(before, mid, db.Contained(), places, source, back, origin);
    ok := returned;
  }
}
