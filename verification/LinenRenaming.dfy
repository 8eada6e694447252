/**
 When every reversal of a split gives the location table back up to renaming:
 the reversals that fail are built here, location by location.
 */
module LinenRenaming {
  import opened Wrappers
  import opened LinenTables
  import opened LinenSplit
  import opened LinenProofs
  import opened LinenRoundTrip

  // ----- some reversal always completes -----

  lemma {:induction false} AboveAll(s: set<int>) returns (bound: int)
    ensures forall x | x in s :: x < bound
    decreases |s|
  {
    if s == {} {
      bound := 0;
    } else {
      var x := MemberOf(s);
      bound := AboveAll(s - {x});
      assert forall y | y in s :: y == x || y in s - {x};
      bound := if bound <= x then x + 1 else bound;
    }
  }

  /** A reversal that has returned the locations of `done` can go on to the end, whatever it did so far. */
  lemma {:induction false} ReturnTheRest(linen: map<int, Location>, stock: map<int, Location>, todo: set<int>,
                                         stock': map<int, Location>, back: map<int, int>, origin: map<int, int>)
    returns (stock'': map<int, Location>, back': map<int, int>, origin': map<int, int>)
    requires LocationsReturned(linen - todo, stock, stock', back, origin)
    ensures LocationsReturned(linen, stock, stock'', back', origin')
    ensures forall j | j in back :: j in back' && back'[j] == back[j]
    decreases |todo|
  {
    if todo == {} {
      assert linen - todo == linen;
      stock'', back', origin' := stock', back, origin;
      return;
    }
    var j := MemberOf(todo);
    if j !in linen {
      assert linen - (todo - {j}) == linen - todo;
      stock'', back', origin' := ReturnTheRest(linen, stock, todo - {j}, stock', back, origin);
      return;
    }
    var n, next, origin1 := ReturnOne(linen - todo, stock, stock', back, origin, j, linen[j]);
    assert (linen - todo)[j := linen[j]] == linen - (todo - {j});
    stock'', back', origin' := ReturnTheRest(linen, stock, todo - {j}, next, back[j := n], origin1);
    forall i | i in back ensures i in back' && back'[i] == back[i] {
      assert i in back[j := n];
    }
  }

  /** One location: matched if the table at that moment has an active namesake, inserted under a free id if not. */
  lemma ReturnOne(linen: map<int, Location>, stock: map<int, Location>, stock': map<int, Location>,
                  back: map<int, int>, origin: map<int, int>, j: int, row: Location)
    returns (n: int, next: map<int, Location>, origin': map<int, int>)
    requires LocationsReturned(linen, stock, stock', back, origin) && j !in linen
    ensures LocationsReturned(linen[j := row], stock, next, back[j := n], origin')
    ensures n in next && (!HasActiveNamesake(stock', row) ==> next[n] == row)
  {
    if HasActiveNamesake(stock', row) {
      n :| n in stock' && Active(stock'[n]) && SamePlace(stock'[n], row);
      MatchStep(linen, stock, stock', back, origin, j, row, n);
      next, origin' := stock', origin;
    } else {
      n := AboveAll(stock'.Keys);
      InsertStep(linen, stock, stock', back, origin, j, row, n);
      next, origin' := stock'[n := row], origin[n := j];
    }
  }

  /** The stock movements with the returned ones behind them, under ids from `free` on. */
  function WithReturned(rows: seq<MovementRow>, moved: seq<Movement>, free: int): (all: seq<MovementRow>)
    ensures Contents(all) == Contents(rows) + moved
  {
    rows + seq(|moved|, i requires 0 <= i < |moved| => MovementRow(free + i, moved[i]))
  }

  function ReturnedLines(lines: map<int, Line>): (after: map<int, Line>)
    ensures LinesReturned(lines, after)
  {
    map p | p in lines :: Line(lines[p].hotel, lines[p].linenItem, None)
  }

  function ReturnedVendors(vendors: map<int, Vendor>, back: map<int, int>): (after: map<int, Vendor>)
    ensures VendorsReturned(vendors, after, back)
  {
    map v | v in vendors :: ReturnedVendor(vendors[v], back)
  }

  /** The tables after a reversal that returned the locations this way. */
  function AfterReturn(mid: Tables, stockLocations: map<int, Location>, back: map<int, int>, free: int): Tables {
    Tables(mid.stockItems + (map i | i in mid.linenItems :: StockItem(mid.linenItems[i], None, true)),
           stockLocations,
           WithReturned(mid.stockMovements, RelocateAll(Contents(mid.linenMovements), back), free),
           map[], map[], [],
           ReturnedVendors(mid.vendors, back), ReturnedLines(mid.prices), ReturnedLines(mid.lines))
  }

  lemma CompleteTrip(before: Tables, mid: Tables, places: map<int, int>, source: map<int, int>,
                     stockLocations: map<int, Location>, back: map<int, int>, origin: map<int, int>)
    returns (t: Trip)
    requires Split(before, mid, places, source)
    requires LocationsReturned(mid.linenLocations, mid.stockLocations, stockLocations, back, origin)
    ensures Completed(t) && t.after.stockLocations == stockLocations
    ensures t == Trip(before, mid, t.after, places, source, back, origin)
  {
    ImmediateReversalNeverAborts(before, mid, places, source);
    var i := MemberOf(LinenIds(before));
    assert i in mid.linenItems;
    var free := AboveAll(Ids(mid.stockMovements));
    t := Trip(before, mid, AfterReturn(mid, stockLocations, back, free), places, source, back, origin);
  }

  // ----- exactly when all of them are renamings -----

  ghost predicate EveryReversalRenames(before: Tables, mid: Tables, places: map<int, int>, source: map<int, int>) {
    forall after, back, origin ::
      ReverseDone(mid, after, back, origin) ==>
        RestoredUpTo(before.stockLocations, after.stockLocations,
                     Landing(Trip(before, mid, after, places, source, back, origin)))
  }

  /** Two locations that land on one row. */
  lemma MergedIsNoRenaming(t: Trip, k: int, l: int)
    requires k in t.before.stockLocations && l in t.before.stockLocations && k != l
    requires Landing(t)[k] == Landing(t)[l]
    ensures !RestoredUpTo(t.before.stockLocations, t.after.stockLocations, Landing(t))
  {
  }

  /** Two linen locations of one place come back on one row when the active one goes first. */
  lemma ActiveRowFirstTakesBoth(linen: map<int, Location>, stock: map<int, Location>, i: int, j: int)
    returns (stock': map<int, Location>, back: map<int, int>, origin: map<int, int>)
    requires i in linen && j in linen && i != j && Active(linen[i]) && SamePlace(linen[i], linen[j])
    requires !HasActiveNamesake(stock, linen[i])
    ensures LocationsReturned(linen, stock, stock', back, origin)
    ensures i in back && j in back && back[i] == back[j]
  {
    var n, stock1, origin1 := ReturnOne(map[], stock, stock, map[], map[], i, linen[i]);
    MatchStep(map[i := linen[i]], stock, stock1, map[i := n], origin1, j, linen[j], n);
    assert linen - (linen.Keys - {i, j}) == map[i := linen[i]][j := linen[j]];
    stock', back, origin := ReturnTheRest(linen, stock, linen.Keys - {i, j}, stock1, map[i := n][j := n], origin1);
    assert i in map[i := n][j := n] && j in map[i := n][j := n];
  }

  /** A location with an active namesake that only linen uses too: if that row is returned first, it takes both. */
  lemma ActiveRowFirstMerges(before: Tables, mid: Tables, places: map<int, int>, source: map<int, int>, k: int, l: int)
    returns (t: Trip)
    requires Split(before, mid, places, source)
    requires k in places && l in places && k in before.stockLocations && l in before.stockLocations && k != l
    requires Active(before.stockLocations[k]) && SamePlace(before.stockLocations[k], before.stockLocations[l])
    requires !HasActiveNamesake(mid.stockLocations, before.stockLocations[k])
    ensures Completed(t) && t == Trip(before, mid, t.after, places, source, t.back, t.origin)
    ensures !RestoredUpTo(before.stockLocations, t.after.stockLocations, Landing(t))
  {
    PlacesInvert(before, mid, places, source, k);
    PlacesInvert(before, mid, places, source, l);
    var stock', back, origin := ActiveRowFirstTakesBoth(mid.linenLocations, mid.stockLocations, places[k], places[l]);
    t := CompleteTrip(before, mid, places, source, stock', back, origin);
    MergedIsNoRenaming(t, k, l);
  }

  lemma SomeTrip(before: Tables, mid: Tables, places: map<int, int>, source: map<int, int>) returns (t: Trip)
    requires Split(before, mid, places, source)
    ensures Completed(t) && t == Trip(before, mid, t.after, places, source, t.back, t.origin)
  {
    var linen, stock := mid.linenLocations, mid.stockLocations;
    assert linen - linen.Keys == map[];
    var stock', back, origin := ReturnTheRest(linen, stock, linen.Keys, stock, map[], map[]);
    t := CompleteTrip(before, mid, places, source, stock', back, origin);
  }

  /** A namesake that the split took out of stock was used by linen alone. */
  lemma NamesakeWentWithLinen(before: Tables, mid: Tables, places: map<int, int>, source: map<int, int>, row: Location)
    returns (k: int)
    requires Split(before, mid, places, source)
    requires HasActiveNamesake(before.stockLocations, row) && !HasActiveNamesake(mid.stockLocations, row)
    ensures k in places && k in before.stockLocations
    ensures Active(before.stockLocations[k]) && SamePlace(before.stockLocations[k], row)
  {
    k :| k in before.stockLocations && Active(before.stockLocations[k]) && SamePlace(before.stockLocations[k], row);
    assert k !in places ==> k in mid.stockLocations;
  }

  lemma FailingTrip(before: Tables, mid: Tables, places: map<int, int>, source: map<int, int>) returns (t: Trip)
    requires Split(before, mid, places, source) && !Recoverable(before)
    ensures Completed(t) && t == Trip(before, mid, t.after, places, source, t.back, t.origin)
    ensures !RestoredUpTo(before.stockLocations, t.after.stockLocations, Landing(t))
  {
    var l :| l in UsedLocations(before) && l in before.stockLocations && !Active(before.stockLocations[l])
             && (l in SharedLocations(before) || HasActiveNamesake(before.stockLocations, before.stockLocations[l]));
    var row := before.stockLocations[l];
    if l in SharedLocations(before) || HasActiveNamesake(mid.stockLocations, row) {
      t := SomeTrip(before, mid, places, source);
      UnrecoverableTripIsNoRenaming(t, l);
    } else {
      var k := NamesakeWentWithLinen(before, mid, places, source, row);
      t := ActiveRowFirstMerges(before, mid, places, source, k, l);
    }
  }

  /**
   The condition is exact: whatever order a reversal takes and whichever ids it
   draws, the location table comes back up to renaming, if and only if the store was recoverable.
   */
  lemma ReversalsRenameIff(before: Tables, mid: Tables, places: map<int, int>, source: map<int, int>)
    requires Split(before, mid, places, source)
    ensures EveryReversalRenames(before, mid, places, source) <==> Recoverable(before)
  {
    if Recoverable(before) {
      forall after, back, origin | ReverseDone(mid, after, back, origin)
        ensures RestoredUpTo(before.stockLocations, after.stockLocations,
                             Landing(Trip(before, mid, after, places, source, back, origin)))
      {
        RecoverableTripIsRenaming(Trip(before, mid, after, places, source, back, origin));
      }
    } else {
      var t := FailingTrip(before, mid, places, source);
    }
  }
}
