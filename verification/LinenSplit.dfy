/**
 The linen split and its reversal as they run: loops that copy rows, grow the
 location map, repoint the laundry tables and then delete.
 */
module LinenSplit {
  import opened Wrappers
  import opened LinenTables
  import opened LinenProofs

  function Ids(rows: seq<MovementRow>): set<int> {
    set r | r in rows :: r.id
  }

  /** The primary key of a movement table. */
  predicate UniqueIds(rows: seq<MovementRow>) {
    forall i, j | 0 <= i < j < |rows| :: rows[i].id != rows[j].id
  }

  class Database {
    var stockItems: map<int, StockItem>
    var stockLocations: map<int, Location>
    var stockMovements: seq<MovementRow>
    var linenItems: map<int, Item>
    var linenLocations: map<int, Location>
    var linenMovements: seq<MovementRow>
    var vendors: map<int, Vendor>
    var prices: map<int, Line>
    var lines: map<int, Line>

    function Contained(): Tables
      reads this
    {
      Tables(stockItems, stockLocations, stockMovements, linenItems, linenLocations, linenMovements,
             vendors, prices, lines)
    }

    // ----- upgrade -----

    /**
       Each used location row, in any order: a shared one gets an independent
       copy under an id the database picks, an exclusive one takes its own id
       along. Taking an id that a copy already got aborts the run.
     */
    method CopyLocations(used: set<int>, shared: set<int>)
      returns (ok: bool, places: map<int, int>, ghost source: map<int, int>)
      requires used <= stockLocations.Keys && linenLocations == map[]
      modifies this`linenLocations
      ensures ok ==> LocationsCopied(used, shared, stockLocations, linenLocations, places, source)
      ensures !ok ==> shared * used != {}
    {
      places, source := map[], map[];
      var todo := used;
      while todo != {}
        invariant todo <= used
        invariant LocationsCopied(used - todo, shared, stockLocations, linenLocations, places, source)
        decreases |todo|
      {
        var old_id := PickFrom(todo);
        assert places.Keys <= used && old_id !in places;
        todo := todo - {old_id};
        var id := old_id;
        if old_id in shared {
          id := FreeId(linenLocations.Keys);
        } else if old_id in linenLocations {
          assert source[old_id] in places && places[source[old_id]] == old_id != source[old_id];
          assert source[old_id] in shared * used;
          return false, places, source;
        }
        linenLocations := linenLocations[id := stockLocations[old_id]];
        places := places[old_id := id];
        source := source[id := old_id];
      }
      assert used - todo == used;
      ok := true;
    }

    /** Inserts the movements of the linen items with their locations looked up in the map. */
    method CopyMovements(linen: set<int>, places: map<int, int>)
      requires linenMovements == []
      modifies this`linenMovements
      ensures Contents(linenMovements) == RelocateAll(Contents(Of(stockMovements, linen)), places)
      ensures UniqueIds(linenMovements)
    {
      var rows := Of(stockMovements, linen);
      var i := 0;
      while i < |rows|
        invariant 0 <= i <= |rows|
        invariant Contents(linenMovements) == RelocateAll(Contents(rows), places)[..i] && UniqueIds(linenMovements)
      {
        var id := FreeId(Ids(linenMovements));
        ContentsOfOneMore(linenMovements, MovementRow(id, Relocate(rows[i].movement, places)));
        FreeIdIsUnique(linenMovements, MovementRow(id, Relocate(rows[i].movement, places)));
        linenMovements := linenMovements + [MovementRow(id, Relocate(rows[i].movement, places))];
        i := i + 1;
      }
    }

    /** Fills the new columns; the old ones are still there. */
    method FillLaundry(places: map<int, int>)
      modifies this`vendors, this`prices, this`lines
      ensures vendors == FilledVendors(old(vendors), places)
      ensures prices == FilledLines(old(prices)) && lines == FilledLines(old(lines))
    {
      var todo := vendors.Keys;
      while todo != {}
        invariant todo <= vendors.Keys == old(vendors).Keys && prices == old(prices) && lines == old(lines)
        invariant forall v | v in todo :: vendors[v] == old(vendors)[v]
        invariant forall v | v in vendors && v !in todo :: vendors[v] == FilledVendor(old(vendors)[v], places)
        decreases |todo|
      {
        var v := PickFrom(todo);
        todo := todo - {v};
        vendors := vendors[v := FilledVendor(vendors[v], places)];
      }
      AllFilled(old(vendors), vendors, places);
      prices, lines := FilledLines(prices), FilledLines(lines);
    }

    /** Drops the old columns and creates the new constraints, which fails if they are enforced and a row dangles. */
    method FinalizeLaundry(enforced: bool) returns (ok: bool)
      modifies this`vendors, this`prices, this`lines
      ensures vendors == FinalizedVendors(old(vendors))
      ensures prices == FinalizedLines(old(prices)) && lines == FinalizedLines(old(lines))
      ensures ok <==> enforced ==> LaundryRowsRefer(vendors, prices, lines, linenItems, linenLocations)
    {
      vendors, prices, lines := FinalizedVendors(vendors), FinalizedLines(prices), FinalizedLines(lines);
      ok := !enforced || LaundryRowsRefer(vendors, prices, lines, linenItems, linenLocations);
    }

    /** Fill, then finalize. */
    method RepointLaundry(places: map<int, int>, enforced: bool) returns (ok: bool)
      modifies this`vendors, this`prices, this`lines
      ensures VendorsRepointed(old(vendors), vendors, places)
      ensures LinesRepointed(old(prices), prices) && LinesRepointed(old(lines), lines)
      ensures ok <==> enforced ==> LaundryRefers(Contained())
    {
      FillLaundry(places);
      ok := FinalizeLaundry(enforced);
    }

    /**
       The whole data step. With `enforced` foreign keys (PostgreSQL) creating
       the new constraints fails, and the run aborts, when a laundry row dangles.
       A run that returns false is rolled back by its transaction.
     */
    method MigrateLinenData(enforced: bool) returns (ok: bool, places: map<int, int>, ghost source: map<int, int>)
      requires BeforeSplit(Contained())
      modifies this
      ensures ok ==> SplitDone(old(Contained()), Contained(), places, source)
      ensures ok ==> UniqueIds(linenMovements) && (old(UniqueIds(stockMovements)) ==> UniqueIds(stockMovements))
      ensures ok && enforced ==> LaundryRefers(Contained())
      ensures !ok ==> SharedLocations(old(Contained())) != {} || (enforced && !LaundryNamesLinen(old(Contained())))
    {
      ghost var planned := Contained();
      if UniqueIds(stockMovements) {
        FewerIdsAreUnique(stockMovements, LinenIds(Contained()));
      }
      if LinenIds(Contained()) != {} {
        UsedLocationsExist(Contained());
        ok, places, source, planned := MoveLinen(enforced);
      } else {
        places, source := map[], map[];
        ok := RepointLaundry(map[], enforced);
        planned := Contained();
      }
      if SplitDone(old(Contained()), planned, places, source) {
        LaundryRefersIff(old(Contained()), planned, places, source);
      }
    }

    /**
     Steps 1 to 5 of the migration, for a store with linen items. Once the laundry tables are finalized no delete
     meets a row that still refers to what it takes.
     */
    method MoveLinen(enforced: bool)
      returns (ok: bool, places: map<int, int>, ghost source: map<int, int>, ghost planned: Tables)
      requires BeforeSplit(Contained()) && LinenIds(Contained()) != {}
      modifies this
      ensures ok ==> SplitDone(old(Contained()), Contained(), places, source)
      ensures ok ==> UniqueIds(linenMovements)
      ensures ok && enforced ==> LaundryRefers(Contained())
      ensures ok || SharedLocations(old(Contained())) != {}
              || (enforced && SplitDone(old(Contained()), planned, places, source) && !LaundryRefers(planned))
    {
      var linen, used, shared := LinenIds(Contained()), UsedLocations(Contained()), SharedLocations(Contained());
      UsedLocationsExist(Contained());
      planned := Contained();
      ok, places, source := CopyLinen(linen, used, shared);
      if !ok {
        return;
      }
      ok := RepointLaundry(places, enforced);
      if !ok {
        planned := Contained().(stockMovements := NotOf(stockMovements, linen),
          stockLocations := stockLocations - (used - shared), stockItems := stockItems - linen);
        return;
      }
      KeptMovementsStay(old(Contained()));
      ok := DeleteMigrated(linen, used - shared, enforced);
    }

    /**
     The order before the correction of 2026-07-28: delete first, finalize after. Where keys are enforced the
     deletes fail exactly when a vendor, price or remito line of the old store names what is moved.
     */
    method MoveLinenFinalizingLast(enforced: bool)
      returns (copied: bool, deleted: bool, places: map<int, int>, ghost source: map<int, int>)
      requires BeforeSplit(Contained()) && LinenIds(Contained()) != {}
      modifies this
      ensures copied ==> (deleted <==> enforced ==> !LaundryNamesMoved(old(Contained())))
      ensures !copied ==> !deleted && SharedLocations(old(Contained())) != {}
      ensures deleted ==> SplitDone(old(Contained()), Contained(), places, source)
    {
      var linen, used, shared := LinenIds(Contained()), UsedLocations(Contained()), SharedLocations(Contained());
      UsedLocationsExist(Contained());
      deleted := false;
      copied, places, source := CopyLinen(linen, used, shared);
      if copied {
        EarlierDeletesAreFreeIff(old(Contained()), places);
        deleted := DeleteThenFinalize(linen, used - shared, places, enforced);
      }
    }

    /** The laundry tables are filled, the stock rows deleted, and only then the old columns dropped. */
    method DeleteThenFinalize(linen: set<int>, exclusive: set<int>, places: map<int, int>, enforced: bool) returns (deleted: bool)
      modifies this`vendors, this`prices, this`lines, this`stockMovements, this`stockLocations, this`stockItems
      ensures deleted <==> enforced ==>
        && LocationsFree(NotOf(old(stockMovements), linen), FilledVendors(old(vendors), places), exclusive)
        && LinesFree(FilledLines(old(prices)), linen) && LinesFree(FilledLines(old(lines)), linen)
      ensures deleted ==> VendorsRepointed(old(vendors), vendors, places)
      ensures deleted ==> LinesRepointed(old(prices), prices) && LinesRepointed(old(lines), lines)
      ensures deleted ==> stockMovements == NotOf(old(stockMovements), linen)
      ensures deleted ==> stockLocations == old(stockLocations) - exclusive && stockItems == old(stockItems) - linen
    {
      FillLaundry(places);
      deleted := DeleteMigrated(linen, exclusive, enforced);
      if deleted {
        var finalized := FinalizeLaundry(enforced);
      }
    }

    /** Steps 1 to 3: items keep their ids, then locations, then movements. */
    method CopyLinen(linen: set<int>, used: set<int>, shared: set<int>)
      returns (ok: bool, places: map<int, int>, ghost source: map<int, int>)
      requires linen <= stockItems.Keys && used <= stockLocations.Keys
      requires linenLocations == map[] && linenMovements == []
      modifies this`linenItems, this`linenLocations, this`linenMovements
      ensures ok ==>
                && linenItems == (map i | i in linen :: stockItems[i].item)
                && LocationsCopied(used, shared, stockLocations, linenLocations, places, source)
                && Contents(linenMovements) == RelocateAll(Contents(Of(stockMovements, linen)), places)
                && UniqueIds(linenMovements)
      ensures !ok ==> shared * used != {}
    {
      linenItems := map i | i in linen :: stockItems[i].item;
      ok, places, source := CopyLocations(used, shared);
      if ok {
        CopyMovements(linen, places);
      }
    }

    /**
     Step 5: movements first, then linen-exclusive locations, then the items. Where keys are enforced each delete
     fails on a row that still refers to what it takes.
     */
    method DeleteMigrated(linen: set<int>, exclusive: set<int>, enforced: bool) returns (ok: bool)
      modifies this`stockMovements, this`stockLocations, this`stockItems
      ensures ok <==> enforced ==>
        && LocationsFree(NotOf(old(stockMovements), linen), vendors, exclusive)
        && LinesFree(prices, linen) && LinesFree(lines, linen)
      ensures ok ==> stockMovements == NotOf(old(stockMovements), linen)
      ensures ok ==> stockLocations == old(stockLocations) - exclusive && stockItems == old(stockItems) - linen
    {
      stockMovements := NotOf(stockMovements, linen);
      if enforced && !LocationsFree(stockMovements, vendors, exclusive) {
        return false;
      }
      stockLocations := stockLocations - exclusive;
      OnlyOthersAreLeft(old(stockMovements), linen);
      if enforced && !ItemsFree(stockMovements, prices, lines, linen) {
        return false;
      }
      stockItems := stockItems - linen;
      ok := true;
    }

    // ----- downgrade -----

    /**
       Each linen location, in any order: reuse an active stock row of the same
       hotel and name when there is one at that moment, else insert a row.
     */
    method ReturnLocations() returns (back: map<int, int>, ghost origin: map<int, int>)
      modifies this`stockLocations
      ensures LocationsReturned(linenLocations, old(stockLocations), stockLocations, back, origin)
    {
      back, origin := map[], map[];
      var todo := linenLocations.Keys;
      ghost var stock := stockLocations;
      while todo != {}
        invariant todo <= linenLocations.Keys
        invariant LocationsReturned(linenLocations - todo, stock, stockLocations, back, origin)
        decreases |todo|
      {
        var j := PickFrom(todo);
        back, origin := ReturnLocation(j, back, todo, stock, origin);
        todo := todo - {j};
      }
      NothingLeftToDo(linenLocations, todo);
    }

    method ReturnLocation(j: int, back: map<int, int>, ghost todo: set<int>, ghost stock: map<int, Location>, ghost origin: map<int, int>)
      returns (back': map<int, int>, ghost origin': map<int, int>)
      requires j in todo && j in linenLocations
      requires LocationsReturned(linenLocations - todo, stock, stockLocations, back, origin)
      modifies this`stockLocations
      ensures LocationsReturned(linenLocations - (todo - {j}), stock, stockLocations, back', origin')
    {
      var row := linenLocations[j];
      var namesakes := set l | l in stockLocations && Active(stockLocations[l]) && SamePlace(stockLocations[l], row);
      OneLessToDo(linenLocations, todo, j);
      ghost var done := linenLocations - todo;
      if namesakes != {} {
        var id := PickFrom(namesakes);
        MatchStep(done, stock, stockLocations, back, origin, j, row, id);
        back', origin' := back[j := id], origin;
      } else {
        var id := FreeId(stockLocations.Keys);
        NoNamesake(stockLocations, row, namesakes);
        InsertStep(done, stock, stockLocations, back, origin, j, row, id);
        stockLocations := stockLocations[id := row];
        back', origin' := back[j := id], origin[id := j];
      }
    }

    method ReturnMovements(back: map<int, int>)
      modifies this`stockMovements
      ensures Contents(stockMovements)
           == Contents(old(stockMovements)) + RelocateAll(Contents(linenMovements), back)
      ensures old(UniqueIds(stockMovements)) ==> UniqueIds(stockMovements)
    {
      ghost var moved := RelocateAll(Contents(linenMovements), back);
      var i := 0;
      while i < |linenMovements|
        invariant 0 <= i <= |linenMovements|
        invariant Contents(stockMovements) == Contents(old(stockMovements)) + moved[..i]
        invariant old(UniqueIds(stockMovements)) ==> UniqueIds(stockMovements)
      {
        var id := FreeId(Ids(stockMovements));
        ContentsOfOneMore(stockMovements, MovementRow(id, Relocate(linenMovements[i].movement, back)));
        FreeIdIsUnique(stockMovements, MovementRow(id, Relocate(linenMovements[i].movement, back)));
        stockMovements := stockMovements + [MovementRow(id, Relocate(linenMovements[i].movement, back))];
        assert moved[..i + 1] == moved[..i] + [moved[i]];
        i := i + 1;
      }
    }

    method ReturnLaundry(back: map<int, int>)
      modifies this`vendors, this`prices, this`lines
      ensures VendorsReturned(old(vendors), vendors, back)
      ensures LinesReturned(old(prices), prices) && LinesReturned(old(lines), lines)
    {
      var todo := vendors.Keys;
      while todo != {}
        invariant todo <= vendors.Keys == old(vendors).Keys && prices == old(prices) && lines == old(lines)
        invariant forall v | v in todo :: vendors[v] == old(vendors)[v]
        invariant forall v | v in vendors && v !in todo :: vendors[v] == ReturnedVendor(old(vendors)[v], back)
        decreases |todo|
      {
        var v := PickFrom(todo);
        todo := todo - {v};
        vendors := vendors[v := ReturnedVendor(vendors[v], back)];
      }
      prices := map p | p in prices :: Line(prices[p].hotel, prices[p].linenItem, None);
      lines := map p | p in lines :: Line(lines[p].hotel, lines[p].linenItem, None);
    }

    /** The reverse data step and the drop of the linen tables; an item id or an active item name that is taken aborts the run. */
    method MigrateLinenDataBack() returns (ok: bool, back: map<int, int>, ghost origin: map<int, int>)
      modifies this
      ensures ok ==> ReverseDone(old(Contained()), Contained(), back, origin)
      ensures ok && old(UniqueIds(stockMovements)) ==> UniqueIds(stockMovements)
      ensures ok <==> old(linenItems) == map[] || ItemsFit(old(linenItems), old(stockItems))
    {
      back, origin := map[], map[];
      ok := true;
      if linenItems != map[] {
        if !ItemsFit(linenItems, stockItems) {
          ok := false;
          return;
        }
        stockItems := stockItems + (map i | i in linenItems :: StockItem(linenItems[i], None, true));
        back, origin := ReturnLocations();
        ReturnMovements(back);
        ReturnLaundry(back);
      } else {
        ReturnLaundry(map[]);
      }
      linenMovements := [];
      linenLocations := map[];
      linenItems := map[];
    }
  }

  // ----- facts the methods use -----

  lemma FreeIdIsUnique(rows: seq<MovementRow>, r: MovementRow)
    requires r.id !in Ids(rows)
    ensures UniqueIds(rows) ==> UniqueIds(rows + [r])
  {
    forall i | 0 <= i < |rows| ensures rows[i].id != r.id {
      assert rows[i] in rows;
    }
  }

  lemma {:induction false} FewerIdsAreUnique(rows: seq<MovementRow>, items: set<int>)
    requires UniqueIds(rows)
    ensures UniqueIds(NotOf(rows, items))
  {
    if rows != [] {
      var front, last := rows[..|rows| - 1], rows[|rows| - 1];
      FewerIdsAreUnique(front, items);
      forall r | r in NotOf(front, items) ensures r.id != last.id {
        OfMembers(front, items, r);
      }
    }
  }

  lemma AllFilled(before: map<int, Vendor>, after: map<int, Vendor>, places: map<int, int>)
    requires after.Keys == before.Keys
    requires forall v | v in after :: after[v] == FilledVendor(before[v], places)
    ensures after == FilledVendors(before, places)
  {
    var filled := FilledVendors(before, places);
    assert forall v :: v in after <==> v in filled;
    assert forall v | v in after :: after[v] == filled[v];
  }

  lemma OnlyOthersAreLeft(rows: seq<MovementRow>, linen: set<int>)
    ensures forall r | r in NotOf(rows, linen) :: r.movement.item !in linen
  {
    forall r | r in NotOf(rows, linen) ensures r.movement.item !in linen {
      OfMembers(rows, linen, r);
    }
  }

  /** The movements that stay use no location that only linen uses. */
  lemma KeptMovementsStay(t: Tables)
    requires BeforeSplit(t)
    ensures forall r | r in NotOf(t.stockMovements, LinenIds(t)) && r.movement.location.Some? ::
      r.movement.location.value !in UsedLocations(t) - SharedLocations(t)
  {
    var linen := LinenIds(t);
    forall r | r in NotOf(t.stockMovements, linen) && r.movement.location.Some?
      ensures r.movement.location.value !in UsedLocations(t) - SharedLocations(t)
    {
      OfMembers(t.stockMovements, linen, r);
      assert StockMovementRefers(t, r.movement);
      OfMembers(t.stockMovements, t.stockItems.Keys - linen, r);
    }
  }

  /** A vendor at a location that only linen uses, or a price or remito line of a linen item. */
  predicate LaundryNamesMoved(t: Tables) {
    || !LinesFree(t.prices, LinenIds(t)) || !LinesFree(t.lines, LinenIds(t))
    || NamesMoved(t.vendors, UsedLocations(t) - SharedLocations(t))
  }

  predicate NamesMoved(vendors: map<int, Vendor>, exclusive: set<int>) {
    exists v | v in vendors && vendors[v].stockLocation.Some? :: vendors[v].stockLocation.value in exclusive
  }

  lemma FilledRowsStillName(t: Tables, places: map<int, int>)
    requires BeforeSplit(t)
    ensures
      var rows, exclusive := NotOf(t.stockMovements, LinenIds(t)), UsedLocations(t) - SharedLocations(t);
      LocationsFree(rows, FilledVendors(t.vendors, places), exclusive) <==> !NamesMoved(t.vendors, exclusive)
    ensures LinesFree(FilledLines(t.prices), LinenIds(t)) <==> LinesFree(t.prices, LinenIds(t))
    ensures LinesFree(FilledLines(t.lines), LinenIds(t)) <==> LinesFree(t.lines, LinenIds(t))
  {
    KeptMovementsStay(t);
    var exclusive, filled := UsedLocations(t) - SharedLocations(t), FilledVendors(t.vendors, places);
    forall v | v in t.vendors ensures v in filled && filled[v].stockLocation == t.vendors[v].stockLocation {
    }
    FilledLinesStillName(t.prices, LinenIds(t));
    FilledLinesStillName(t.lines, LinenIds(t));
  }

  /** While the old columns are there, the deletes are free exactly if no laundry row of the old store names what moves. */
  lemma EarlierDeletesAreFreeIff(t: Tables, places: map<int, int>)
    requires BeforeSplit(t)
    ensures
      var linen, exclusive := LinenIds(t), UsedLocations(t) - SharedLocations(t);
      !LaundryNamesMoved(t) <==>
        && LocationsFree(NotOf(t.stockMovements, linen), FilledVendors(t.vendors, places), exclusive)
        && LinesFree(FilledLines(t.prices), linen) && LinesFree(FilledLines(t.lines), linen)
  {
    FilledRowsStillName(t, places);
  }

  lemma FilledLinesStillName(lines: map<int, Line>, gone: set<int>)
    ensures LinesFree(FilledLines(lines), gone) <==> LinesFree(lines, gone)
  {
    forall p | p in lines ensures p in FilledLines(lines) && FilledLines(lines)[p].stockItem == lines[p].stockItem {
    }
  }

  /** Where the laundry tables name only linen, as the split needs, the earlier order fails as soon as there is a price or a line. */
  lemma EarlierOrderFailsOnAnyPrice(t: Tables)
    requires BeforeSplit(t) && LaundryNamesLinen(t) && (t.prices != map[] || t.lines != map[])
    ensures LaundryNamesMoved(t)
  {
    if t.prices != map[] {
      var p := MemberOf(t.prices.Keys);
      assert t.prices[p].stockItem.value in LinenIds(t);
    } else {
      var p := MemberOf(t.lines.Keys);
      assert t.lines[p].stockItem.value in LinenIds(t);
    }
  }

  lemma NoNamesake(stock: map<int, Location>, row: Location, namesakes: set<int>)
    requires namesakes == (set l | l in stock && Active(stock[l]) && SamePlace(stock[l], row)) == {}
    ensures !HasActiveNamesake(stock, row)
  {
    forall l | l in stock && Active(stock[l]) ensures !SamePlace(stock[l], row) {
      assert l !in namesakes;
    }
  }

  lemma NamesakeStays(stock: map<int, Location>, stock': map<int, Location>, row: Location)
    requires forall l | l in stock :: l in stock' && stock'[l] == stock[l]
    ensures HasActiveNamesake(stock, row) ==> HasActiveNamesake(stock', row)
  {
    if HasActiveNamesake(stock, row) {
      var l :| l in stock && Active(stock[l]) && SamePlace(stock[l], row);
      assert l in stock';
    }
  }

  lemma NothingLeftToDo(linen: map<int, Location>, todo: set<int>)
    requires todo == {}
    ensures linen - todo == linen
  {
  }

  lemma OneLessToDo(linen: map<int, Location>, todo: set<int>, j: int)
    requires j in todo && j in linen
    ensures linen - (todo - {j}) == (linen - todo)[j := linen[j]]
  {
  }

  lemma MatchStep(linen: map<int, Location>, stock: map<int, Location>, stock': map<int, Location>,
                  back: map<int, int>, origin: map<int, int>, j: int, row: Location, id: int)
    requires LocationsReturned(linen, stock, stock', back, origin) && j !in linen
    requires id in stock' && Active(stock'[id]) && SamePlace(stock'[id], row)
    ensures LocationsReturned(linen[j := row], stock, stock', back[j := id], origin)
  {
  }

  lemma InsertStep(linen: map<int, Location>, stock: map<int, Location>, stock': map<int, Location>,
                   back: map<int, int>, origin: map<int, int>, j: int, row: Location, id: int)
    requires LocationsReturned(linen, stock, stock', back, origin) && j !in linen
    requires id !in stock' && !HasActiveNamesake(stock', row)
    ensures LocationsReturned(linen[j := row], stock, stock'[id := row], back[j := id], origin[id := j])
  {
    NamesakeStays(stock, stock', row);
  }
}
