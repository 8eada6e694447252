/**
 What a completed split, and a split followed by its reversal, guarantee: stock
 is conserved, no reference dangles, and the round trip restores the store.
 */
module LinenProofs {
  import opened Wrappers
  import opened LinenTables

  // ----- balances -----

  function Signed(m: Movement): int {
    match m.movementType
    case In => m.quantity
    case Adjustment => m.quantity
    case Out => -m.quantity
    case AdjustmentOut => -m.quantity
  }

  function Total(ms: seq<Movement>, counts: Movement -> bool): int {
    if ms == [] then 0
    else Total(ms[..|ms| - 1], counts) + if counts(ms[|ms| - 1]) then Signed(ms[|ms| - 1]) else 0
  }

  function At(item: int, location: Option<int>): Movement -> bool {
    (m: Movement) => m.item == item && m.location == location
  }

  function AtPlace(ls: map<int, Location>, item: int, hotel: int, name: string): Movement -> bool {
    (m: Movement) =>
      && m.item == item && m.location.Some? && m.location.value in ls
      && ls[m.location.value].hotel == hotel && ls[m.location.value].name == name
  }

  /** The balance of an item at one location, or without a location. */
  function Balance(rows: seq<MovementRow>, item: int, location: Option<int>): int {
    Total(Contents(rows), At(item, location))
  }

  /** The balance of an item over the locations of a hotel that carry a name. */
  function NamedBalance(t: Tables, item: int, hotel: int, name: string): int {
    Total(Contents(t.stockMovements), AtPlace(t.stockLocations, item, hotel, name))
  }

  lemma {:induction false} TotalOfConcat(xs: seq<Movement>, ys: seq<Movement>, counts: Movement -> bool)
    ensures Total(xs + ys, counts) == Total(xs, counts) + Total(ys, counts)
  {
    if ys == [] {
      assert xs + ys == xs;
    } else {
      TotalOfConcat(xs, ys[..|ys| - 1], counts);
      assert (xs + ys)[..|xs + ys| - 1] == xs + ys[..|ys| - 1];
    }
  }

  lemma {:induction false} TotalOfNone(ms: seq<Movement>, counts: Movement -> bool)
    requires forall m | m in ms :: !counts(m)
    ensures Total(ms, counts) == 0
  {
    if ms != [] {
      TotalOfNone(ms[..|ms| - 1], counts);
    }
  }

  lemma TotalOfOneMore(ms: seq<Movement>, m: Movement, counts: Movement -> bool)
    ensures Total(ms + [m], counts) == Total(ms, counts) + if counts(m) then Signed(m) else 0
  {
    assert (ms + [m])[..|ms|] == ms;
  }

  /** Any total over the old table splits into the same total over kept rows and over moved rows. */
  lemma {:induction false} TotalsSplit(rows: seq<MovementRow>, linen: set<int>, places: map<int, int>,
                                       counts: Movement -> bool, kept: Movement -> bool, moved: Movement -> bool)
    requires forall r | r in rows ::
               counts(r.movement) == if r.movement.item in linen then moved(Relocate(r.movement, places)) else kept(r.movement)
    ensures Total(Contents(NotOf(rows, linen)), kept) + Total(RelocateAll(Contents(Of(rows, linen)), places), moved)
         == Total(Contents(rows), counts)
  {
    if rows != [] {
      var front, last := rows[..|rows| - 1], rows[|rows| - 1];
      TotalsSplit(front, linen, places, counts, kept, moved);
      assert rows == front + [last] && last in rows;
      ContentsOfOneMore(front, last);
      TotalOfOneMore(Contents(front), last.movement, counts);
      if last.movement.item in linen {
        ContentsOfOneMore(Of(front, linen), last);
        var ms := RelocateAll(Contents(Of(front, linen)), places);
        assert RelocateAll(Contents(Of(rows, linen)), places) == ms + [Relocate(last.movement, places)];
        TotalOfOneMore(ms, Relocate(last.movement, places), moved);
      } else {
        ContentsOfOneMore(NotOf(front, linen), last);
        TotalOfOneMore(Contents(NotOf(front, linen)), last.movement, kept);
      }
    }
  }

  // ----- the split conserves stock -----

  predicate Split(before: Tables, after: Tables, places: map<int, int>, source: map<int, int>) {
    BeforeSplit(before) && SplitDone(before, after, places, source) && LinenIds(before) != {}
  }

  lemma PlacesInvert(before: Tables, after: Tables, places: map<int, int>, source: map<int, int>, l: int)
    requires Split(before, after, places, source) && l in places
    ensures places[l] in source && source[places[l]] == l
    ensures l in before.stockLocations
    ensures places[l] in after.linenLocations && after.linenLocations[places[l]] == before.stockLocations[l]
  {
    SourcesInvert(before, after, places, source, places[l]);
  }

  lemma SourcesInvert(before: Tables, after: Tables, places: map<int, int>, source: map<int, int>, k: int)
    requires Split(before, after, places, source)
    ensures source.Keys == after.linenLocations.Keys
    ensures k in source ==>
              && source[k] in places && places[source[k]] == k
              && source[k] in before.stockLocations && after.linenLocations[k] == before.stockLocations[source[k]]
  {
  }

  lemma MovedLocationsAreMapped(before: Tables, after: Tables, places: map<int, int>, source: map<int, int>, r: MovementRow)
    requires Split(before, after, places, source)
    requires r in before.stockMovements && r.movement.item in LinenIds(before)
    ensures r.movement.location.Some? ==>
              var l := r.movement.location.value;
              && l in places && places[l] in source && source[places[l]] == l
              && places[l] in after.linenLocations && after.linenLocations[places[l]] == before.stockLocations[l]
  {
    OfMembers(before.stockMovements, LinenIds(before), r);
    if r.movement.location.Some? {
      assert r.movement.location.value in LocationsOf(Of(before.stockMovements, LinenIds(before)));
      PlacesInvert(before, after, places, source, r.movement.location.value);
    }
  }

  lemma SplitConservesLinen(before: Tables, after: Tables, places: map<int, int>, source: map<int, int>,
                            item: int, location: Option<int>)
    requires Split(before, after, places, source) && item in LinenIds(before)
    requires location.Some? ==> location.value in places
    ensures Balance(after.linenMovements, item, if location.Some? then Some(places[location.value]) else None)
         == Balance(before.stockMovements, item, location)
  {
    var linen, rows := LinenIds(before), before.stockMovements;
    var target := if location.Some? then Some(places[location.value]) else None;
    if location.Some? {
      PlacesInvert(before, after, places, source, location.value);
    }
    forall r | r in rows
      ensures At(item, location)(r.movement)
           == if r.movement.item in linen then At(item, target)(Relocate(r.movement, places)) else At(item, location)(r.movement)
    {
      if r.movement.item in linen {
        MovedLocationsAreMapped(before, after, places, source, r);
      }
    }
    TotalsSplit(rows, linen, places, At(item, location), At(item, location), At(item, target));
    forall m | m in Contents(NotOf(rows, linen)) ensures !At(item, location)(m) {
      var i :| 0 <= i < |NotOf(rows, linen)| && NotOf(rows, linen)[i].movement == m;
      OfMembers(rows, linen, NotOf(rows, linen)[i]);
    }
    TotalOfNone(Contents(NotOf(rows, linen)), At(item, location));
  }

  lemma SplitConservesStock(before: Tables, after: Tables, places: map<int, int>, source: map<int, int>,
                            item: int, location: Option<int>)
    requires Split(before, after, places, source) && item !in LinenIds(before)
    ensures Balance(after.stockMovements, item, location) == Balance(before.stockMovements, item, location)
  {
    var linen, rows := LinenIds(before), before.stockMovements;
    var none := (m: Movement) => false;
    TotalsSplit(rows, linen, places, At(item, location), At(item, location), none);
    TotalOfNone(RelocateAll(Contents(Of(rows, linen)), places), none);
  }

  lemma {:induction false} ContentsPartition(rows: seq<MovementRow>, items: set<int>)
    ensures multiset(Contents(rows)) == multiset(Contents(NotOf(rows, items))) + multiset(Contents(Of(rows, items)))
  {
    if rows != [] {
      var front, last := rows[..|rows| - 1], rows[|rows| - 1];
      ContentsPartition(front, items);
      assert rows == front + [last];
      ContentsOfOneMore(front, last);
      ContentsOfOneMore(Of(front, items), last);
      ContentsOfOneMore(NotOf(front, items), last);
    }
  }

  /** No movement is lost, made up or changed: undoing the renaming gives back the old table, as a multiset. */
  lemma SplitPartitionsMovements(before: Tables, after: Tables, places: map<int, int>, source: map<int, int>)
    requires Split(before, after, places, source)
    ensures multiset(Contents(before.stockMovements))
         == multiset(Contents(after.stockMovements)) + multiset(RelocateAll(Contents(after.linenMovements), source))
  {
    var linen, rows := LinenIds(before), before.stockMovements;
    var moved := Of(rows, linen);
    forall i | 0 <= i < |moved|
      ensures Relocate(Relocate(moved[i].movement, places), source) == moved[i].movement
    {
      OfMembers(rows, linen, moved[i]);
      MovedLocationsAreMapped(before, after, places, source, moved[i]);
    }
    assert RelocateAll(RelocateAll(Contents(moved), places), source) == Contents(moved);
    ContentsPartition(rows, linen);
  }

  // ----- no reference dangles -----

  /** Both movement tables still refer to existing items and locations of their hotel. */
  lemma SplitKeepsMovementReferences(before: Tables, after: Tables, places: map<int, int>, source: map<int, int>)
    requires BeforeSplit(before) && SplitDone(before, after, places, source)
    ensures MovementsRefer(after)
  {
    var linen, rows := LinenIds(before), before.stockMovements;
    if linen != {} {
      forall r | r in after.stockMovements ensures StockMovementRefers(after, r.movement) {
        OfMembers(rows, linen, r);
        if r.movement.location.Some? {
          OfMembers(rows, before.stockItems.Keys - linen, r);
        }
      }
      forall r | r in after.linenMovements ensures LinenMovementRefers(after, r.movement) {
        var i :| 0 <= i < |after.linenMovements| && after.linenMovements[i] == r;
        var old_row := Of(rows, linen)[i];
        assert Contents(after.linenMovements)[i] == Relocate(Contents(Of(rows, linen))[i], places);
        OfMembers(rows, linen, old_row);
        MovedLocationsAreMapped(before, after, places, source, old_row);
        assert StockMovementRefers(before, old_row.movement);
      }
    }
  }

  predicate NameOnlyLinen(before: Tables, lines: map<int, Line>) {
    forall p | p in lines :: lines[p].stockItem.Some? && lines[p].stockItem.value in LinenIds(before)
  }

  /** What a caller can look up before the split. */
  predicate LaundryNamesLinen(before: Tables) {
    && NameOnlyLinen(before, before.prices) && NameOnlyLinen(before, before.lines)
    && (LinenIds(before) != {} || before.vendors == map[])
  }

  /**
   The laundry tables are left without a dangling reference exactly when prices
   and remito lines name only linen items, and there is a linen item or no vendor:
   without linen items vendors keep a stock location id that has no linen row.
   */
  lemma LaundryRefersIff(before: Tables, after: Tables, places: map<int, int>, source: map<int, int>)
    requires BeforeSplit(before) && SplitDone(before, after, places, source)
    ensures LaundryRefers(after) <==> LaundryNamesLinen(before)
  {
    LinesReferIff(before, after, before.prices, after.prices);
    LinesReferIff(before, after, before.lines, after.lines);
    VendorsReferIff(before, after, places, source);
  }

  lemma VendorsReferIff(before: Tables, after: Tables, places: map<int, int>, source: map<int, int>)
    requires BeforeSplit(before) && SplitDone(before, after, places, source)
    ensures (forall v | v in after.vendors :: VendorRefers(after.linenLocations, after.vendors[v]))
       <==> LinenIds(before) != {} || before.vendors == map[]
  {
    if LinenIds(before) != {} {
      forall v | v in after.vendors ensures VendorRefers(after.linenLocations, after.vendors[v]) {
        var l := before.vendors[v].stockLocation.value;
        assert l in UsedLocations(before) && l in places;
      }
    } else if before.vendors != map[] {
      var v := MemberOf(before.vendors.Keys);
      assert v in after.vendors && !VendorRefers(after.linenLocations, after.vendors[v]);
    }
  }

  /** A hotel with a laundry vendor and no linen item: the split completes and leaves the vendor dangling. */
  lemma VendorWithoutLinenDangles(depot: Location, after: Tables, places: map<int, int>, source: map<int, int>)
    requires Active(depot)
    ensures var before := Tables(map[], map[10 := depot], [], map[], map[], [],
                                 map[1 := Vendor(depot.hotel, Some(10), None)], map[], map[]);
            && BeforeSplit(before)
            && (SplitDone(before, after, places, source) ==> !LaundryRefers(after) && after.vendors[1].linenLocation == Some(10))
  {
    var before := Tables(map[], map[10 := depot], [], map[], map[], [],
                         map[1 := Vendor(depot.hotel, Some(10), None)], map[], map[]);
    assert LinenIds(before) == {};
    if SplitDone(before, after, places, source) {
      assert after.vendors[1] == RepointedVendor(before.vendors[1], map[]);
      assert 10 !in after.linenLocations;
    }
  }

  lemma LinesReferIff(before: Tables, after: Tables, lines: map<int, Line>, lines': map<int, Line>)
    requires LinesRepointed(lines, lines') && forall p | p in lines :: LineNamesStockItem(before, lines[p])
    requires after.linenItems == map i | i in LinenIds(before) :: before.stockItems[i].item
    ensures (forall p | p in lines' :: LineNamesLinenItem(after.linenItems, lines'[p])) <==> NameOnlyLinen(before, lines)
  {
    forall p | p in lines
      ensures LineNamesLinenItem(after.linenItems, lines'[p])
         <==> lines[p].stockItem.Some? && lines[p].stockItem.value in LinenIds(before)
    {
      assert LineNamesStockItem(before, lines[p]);
    }
  }
}
