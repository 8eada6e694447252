/**
 What the two tenant key migrations are for: references, and so cascades, that
 never leave a hotel; and what a rerun and a downgrade make of the schema.
 */
module TenantIsolation {
  import opened TenantCatalog
  import opened TenantKeys
  import opened Wrappers

  // ----- after an upgrade, and a second one -----

  lemma UpgradeInstalls(uniques: set<UniqueKey>, foreigns: set<ForeignKey>, targets: seq<Table>, references: seq<Reference>)
    ensures forall t | t in targets :: HasUnique(uniques + MissingUniques(uniques, targets), t)
    ensures forall r | r in references :: HasForeign(foreigns + MissingForeigns(foreigns, references), r)
  {
    var keys, all := uniques + MissingUniques(uniques, targets), foreigns + MissingForeigns(foreigns, references);
    forall t | t in targets ensures HasUnique(keys, t) {
      if HasUnique(uniques, t) {
        var u :| u in uniques && u.table == t && u.columns == TENANT_KEY;
        assert u in keys;
      } else {
        assert NewUnique(t) in keys;
      }
    }
    forall r | r in references ensures HasForeign(all, r) {
      if HasForeign(foreigns, r) {
        var f :| f in foreigns && ShapedAs(f, r);
        assert f in all;
      } else {
        assert NewForeign(r) in all && ShapedAs(NewForeign(r), r);
      }
    }
  }

  /** A second upgrade completes and leaves the schema alone. */
  method UpgradeAgain(db: Schema, targets: seq<Table>, references: seq<Reference>) returns (first: bool, second: bool)
    requires db.Valid()
    modifies db`uniques, db`foreigns
    ensures first ==> second
    ensures first ==> db.uniques == old(db.uniques) + MissingUniques(old(db.uniques), targets)
    ensures first ==> db.foreigns == old(db.foreigns) + MissingForeigns(old(db.foreigns), references)
  {
    first := db.Upgrade(targets, references);
    UpgradeInstalls(old(db.uniques), old(db.foreigns), targets, references);
    ghost var keys, all := db.uniques, db.foreigns;
    second := db.Upgrade(targets, references);
    if first {
      assert MissingUniques(keys, targets) == {} && MissingForeigns(all, references) == {};
    }
  }

  // ----- the two migrations together -----

  predicate DataMeets(rows: map<Key, Row>, references: seq<Reference>) {
    forall r | r in references :: Satisfied(rows, r.child, r.column, r.parent)
  }

  /** Some row of the table has the id and belongs to the hotel. */
  predicate RowOf(rows: map<Key, Row>, table: Table, id: int, hotel: int) {
    exists p | p in rows :: p.0 == table && p.1 == id && rows[p].hotel == hotel
  }

  /** The row has a parent of its own hotel, or refers to none by this column. */
  predicate ParentIsThere(rows: map<Key, Row>, k: Key, column: Column, parent: Table)
    requires k in rows
  {
    column in rows[k].refs ==> RowOf(rows, parent, rows[k].refs[column], rows[k].hotel)
  }

  lemma RowOfIff(rows: map<Key, Row>, table: Table, id: int, hotel: int)
    ensures RowOf(rows, table, id, hotel) <==> (table, id) in rows && rows[(table, id)].hotel == hotel
  {
    if p :| p in rows && p.0 == table && p.1 == id && rows[p].hotel == hotel {
      assert p == (table, id);
    }
    if (table, id) in rows && rows[(table, id)].hotel == hotel {
      var p: Key := (table, id);
      assert p in rows && p.0 == table && p.1 == id;
    }
  }

  lemma ParentIsThereIff(rows: map<Key, Row>, k: Key, column: Column, parent: Table)
    requires k in rows && column in rows[k].refs
    ensures ParentIsThere(rows, k, column, parent) <==>
      (parent, rows[k].refs[column]) in rows && rows[(parent, rows[k].refs[column])].hotel == rows[k].hotel
  {
    RowOfIff(rows, parent, rows[k].refs[column], rows[k].hotel);
  }

  lemma SatisfiedRows(rows: map<Key, Row>, child: Table, column: Column, parent: Table)
    ensures Satisfied(rows, child, column, parent) <==> AllParentsThere(rows, child, column, parent)
  {
    if Satisfied(rows, child, column, parent) {
      forall k | k in rows && k.0 == child ensures ParentIsThere(rows, k, column, parent) {
        if column in rows[k].refs {
          ParentIsThereIff(rows, k, column, parent);
        }
      }
    }
    if AllParentsThere(rows, child, column, parent) {
      forall k | k in rows && k.0 == child && column in rows[k].refs
        ensures (parent, rows[k].refs[column]) in rows && rows[(parent, rows[k].refs[column])].hotel == rows[k].hotel
      {
        ParentIsThereIff(rows, k, column, parent);
      }
    }
  }

  predicate AllParentsThere(rows: map<Key, Row>, child: Table, column: Column, parent: Table) {
    forall k | k in rows && k.0 == child :: ParentIsThere(rows, k, column, parent)
  }

  /** What the data must meet for a list of references, row by row. */
  lemma DataMeetsRows(rows: map<Key, Row>, references: seq<Reference>)
    ensures DataMeets(rows, references) <==>
      forall r | r in references :: AllParentsThere(rows, r.child, r.column, r.parent)
  {
    forall r | r in references {
      SatisfiedRows(rows, r.child, r.column, r.parent);
    }
  }

  /** What the database enforces of its own: exactly the constraints on the hotel and one more column. */
  lemma EnforcedRows(rows: map<Key, Row>, f: ForeignKey, c: Column)
    ensures f.columns == [HotelId, c] && f.parentColumns == [HotelId, Id] ==>
      (Enforced(rows, f) <==> AllParentsThere(rows, f.child, c, f.parent))
    ensures |f.columns| != 2 || f.columns[0] != HotelId || f.parentColumns != [HotelId, Id] ==> Enforced(rows, f)
  {
    SatisfiedRows(rows, f.child, c, f.parent);
  }

  /** An installed reference is met by the data, whichever constraint enforces it. */
  lemma InstalledIsMet(rows: map<Key, Row>, foreigns: set<ForeignKey>, references: seq<Reference>)
    requires forall f | f in foreigns :: Enforced(rows, f)
    requires forall r | r in references :: HasForeign(foreigns, r)
    ensures DataMeets(rows, references)
  {
    forall r | r in references ensures Satisfied(rows, r.child, r.column, r.parent) {
      var f :| f in foreigns && ShapedAs(f, r);
      assert Enforced(rows, f);
    }
  }

  lemma ParentKeysSuffice(uniques: set<UniqueKey>, foreigns: set<ForeignKey>, rows: map<Key, Row>,
                          targets: seq<Table>, references: seq<Reference>)
    requires forall f | f in foreigns :: Enforced(rows, f)
    requires forall r | r in references :: HasUnique(uniques, r.parent)
    ensures DataMeets(rows, references) <==>
      (forall r | r in references && !HasForeign(foreigns, r) :: CanCreate(rows, uniques, r))
  {
    forall r | r in references && HasForeign(foreigns, r) ensures Satisfied(rows, r.child, r.column, r.parent) {
      InstalledIsMet(rows, foreigns, [r]);
      assert r in [r];
    }
  }

  predicate ParentsListed(targets: seq<Table>, references: seq<Reference>) {
    forall r | r in references :: r.parent in targets
  }

  /** The lists are complete: a reference's parent key is made by its own migration or by the core one before it. */
  lemma ListsAreKeyed()
    ensures ParentsListed(CORE_TARGETS, CORE_REFERENCES)
    ensures ParentsListed(CORE_TARGETS + EXTENDED_TARGETS, EXTENDED_REFERENCES)
  {
    forall r | r in CORE_REFERENCES ensures r.parent in CORE_TARGETS {
      CoreParentsAreKeyed(r);
    }
    forall r | r in EXTENDED_REFERENCES ensures r.parent in CORE_TARGETS + EXTENDED_TARGETS {
      ExtendedParentsAreKeyed(r);
    }
  }

  ghost predicate AllUnique(uniques: set<UniqueKey>, targets: seq<Table>) {
    forall t | t in targets :: HasUnique(uniques, t)
  }

  ghost predicate AllForeign(foreigns: set<ForeignKey>, references: seq<Reference>) {
    forall r | r in references :: HasForeign(foreigns, r)
  }

  lemma MoreKeysKeepShape(uniques: set<UniqueKey>, moreUniques: set<UniqueKey>,
                          foreigns: set<ForeignKey>, moreForeigns: set<ForeignKey>,
                          targets: seq<Table>, references: seq<Reference>)
    requires uniques <= moreUniques && foreigns <= moreForeigns
    ensures AllUnique(uniques, targets) ==> AllUnique(moreUniques, targets)
    ensures AllForeign(foreigns, references) ==> AllForeign(moreForeigns, references)
  {
    forall t | HasUnique(uniques, t) ensures HasUnique(moreUniques, t) {
      var u :| u in uniques && u.table == t && u.columns == TENANT_KEY;
      assert u in moreUniques;
    }
    forall r | HasForeign(foreigns, r) ensures HasForeign(moreForeigns, r) {
      var f :| f in foreigns && ShapedAs(f, r);
      assert f in moreForeigns;
    }
  }

  /** A migration whose parents are keyed, some by an earlier one, completes exactly when the data meets it. */
  method UpgradeKeyed(db: Schema, earlier: seq<Table>, targets: seq<Table>, references: seq<Reference>) returns (ok: bool)
    requires db.Valid() && AllUnique(db.uniques, earlier) && ParentsListed(earlier + targets, references)
    modifies db`uniques, db`foreigns
    ensures db.Valid() && (ok <==> DataMeets(db.rows, references))
    ensures db.uniques >= old(db.uniques) && db.foreigns >= old(db.foreigns)
    ensures ok ==> AllUnique(db.uniques, targets) && AllForeign(db.foreigns, references)
    ensures ok ==> db.uniques == old(db.uniques) + MissingUniques(old(db.uniques), targets)
    ensures ok ==> db.foreigns == old(db.foreigns) + MissingForeigns(old(db.foreigns), references)
  {
    ghost var uniques, before := db.uniques, db.foreigns;
    ghost var keys := uniques + MissingUniques(uniques, targets);
    UpgradeInstalls(uniques, before, targets, references);
    MoreKeysKeepShape(uniques, keys, before, before, earlier, references);
    ParentKeysSuffice(keys, before, db.rows, targets, references);
    ok := db.Upgrade(targets, references);
  }

  /**
   Core, then extended: each finds all its parent keys, so each completes
   exactly when the data already meets its references.
   */
  method UpgradeBoth(db: Schema) returns (core: bool, extended: bool)
    requires db.Valid()
    modifies db`uniques, db`foreigns
    ensures db.Valid()
    ensures core <==> DataMeets(db.rows, CORE_REFERENCES)
    ensures core ==> (extended <==> DataMeets(db.rows, EXTENDED_REFERENCES))
    ensures core && extended ==> AllForeign(db.foreigns, CORE_REFERENCES) && AllForeign(db.foreigns, EXTENDED_REFERENCES)
    ensures core && extended ==> AllUnique(db.uniques, CORE_TARGETS) && AllUnique(db.uniques, EXTENDED_TARGETS)
  {
    ListsAreKeyed();
    core, extended := UpgradeInOrder(db, CORE_TARGETS, CORE_REFERENCES, EXTENDED_TARGETS, EXTENDED_REFERENCES);
  }

  method UpgradeInOrder(db: Schema, targets: seq<Table>, references: seq<Reference>,
                        nextTargets: seq<Table>, nextReferences: seq<Reference>) returns (first: bool, second: bool)
    requires db.Valid() && ParentsListed(targets, references) && ParentsListed(targets + nextTargets, nextReferences)
    modifies db`uniques, db`foreigns
    ensures db.Valid()
    ensures first <==> DataMeets(db.rows, references)
    ensures first ==> (second <==> DataMeets(db.rows, nextReferences))
    ensures first && second ==> AllForeign(db.foreigns, references) && AllForeign(db.foreigns, nextReferences)
    ensures first && second ==> AllUnique(db.uniques, targets) && AllUnique(db.uniques, nextTargets)
  {
    second := false;
    assert [] + targets == targets;
    first := UpgradeKeyed(db, [], targets, references);
    if first {
      ghost var uniques, foreigns := db.uniques, db.foreigns;
      second := UpgradeKeyed(db, targets, nextTargets, nextReferences);
      MoreKeysKeepShape(uniques, db.uniques, foreigns, db.foreigns, targets, references);
    }
  }

  /** On a schema without any parent key the extended migration alone cannot complete. */
  method ExtendedAloneFails(db: Schema) returns (ok: bool)
    requires db.Valid() && db.uniques == {} && db.foreigns == {}
    modifies db`uniques, db`foreigns
    ensures !ok
  {
    ok := db.Upgrade(EXTENDED_TARGETS, EXTENDED_REFERENCES);
    ExtendedAloneLacksKeys();
  }

  // ----- upgrade and downgrade -----

  /** Nothing of the migrations' own names was there, and the keys that the downgrade keeps were. */
  ghost predicate NamesWereFree(uniques: set<UniqueKey>, foreigns: set<ForeignKey>, targets: seq<Table>,
                                references: seq<Reference>, kept: set<Table>) {
    && (forall u | u in uniques :: !IsListedUnique(u, targets, kept))
    && (forall f | f in foreigns :: !IsListed(f, references))
    && (forall t | t in targets && t in kept :: HasUnique(uniques, t))
  }

  /** Exactly when dropping what is listed gives back what was there before the upgrade. */
  lemma TripRestoresSchemaIff(uniques: set<UniqueKey>, foreigns: set<ForeignKey>, targets: seq<Table>,
                              references: seq<Reference>, kept: set<Table>)
    ensures
      var uniquesAfter := UnlistedUniques(uniques + MissingUniques(uniques, targets), targets, kept);
      var foreignsAfter := Unlisted(foreigns + MissingForeigns(foreigns, references), references);
      uniquesAfter == uniques && foreignsAfter == foreigns <==>
        NamesWereFree(uniques, foreigns, targets, references, kept)
  {
    var uniquesAfter := UnlistedUniques(uniques + MissingUniques(uniques, targets), targets, kept);
    var foreignsAfter := Unlisted(foreigns + MissingForeigns(foreigns, references), references);
    if NamesWereFree(uniques, foreigns, targets, references, kept) {
      forall f | f in MissingForeigns(foreigns, references) ensures IsListed(f, references) {
        MissingIsListed(foreigns, references, f);
      }
      assert foreignsAfter == foreigns && uniquesAfter == uniques;
    } else if exists t | t in targets && t in kept :: !HasUnique(uniques, t) {
      var t :| t in targets && t in kept && !HasUnique(uniques, t);
      assert NewUnique(t) in MissingUniques(uniques, targets);
      assert NewUnique(t) in uniquesAfter && NewUnique(t) !in uniques;
    } else if exists u | u in uniques :: IsListedUnique(u, targets, kept) {
      var u :| u in uniques && IsListedUnique(u, targets, kept);
      assert u !in uniquesAfter;
    } else {
      var f :| f in foreigns && IsListed(f, references);
      assert f !in foreignsAfter;
    }
  }

  lemma MissingIsListed(foreigns: set<ForeignKey>, references: seq<Reference>, f: ForeignKey)
    requires f in MissingForeigns(foreigns, references)
    ensures IsListed(f, references)
  {
    var r :| r in references && !HasForeign(foreigns, r) && f == NewForeign(r);
    assert ShapedAs(f, r);
  }

  /** A key of a listed name that was there before the core upgrade is gone after the trip. */
  lemma EarlierKeyIsLost()
    ensures
      var before := {NewUnique(Rooms)};
      var after := before + MissingUniques(before, CORE_TARGETS);
      NewUnique(Rooms) in before && NewUnique(Rooms) !in UnlistedUniques(after, CORE_TARGETS, PREEXISTING)
  {
    CoreTargetsListed(Rooms);
  }

  /** The upgrade does not change whether the downgrade is blocked: what it adds is listed, and needs no new key of a parent in use. */
  lemma UpgradeKeepsBlocked(uniques: set<UniqueKey>, foreigns: set<ForeignKey>, targets: seq<Table>,
                            references: seq<Reference>, kept: set<Table>)
    requires Keyed(uniques, foreigns)
    ensures Blocked(uniques + MissingUniques(uniques, targets), foreigns + MissingForeigns(foreigns, references),
                    targets, references, kept)
       <==> Blocked(uniques, foreigns, targets, references, kept)
  {
    var keys, all := uniques + MissingUniques(uniques, targets), foreigns + MissingForeigns(foreigns, references);
    forall u, f | u in keys && f in all && !IsListed(f, references) && f.parent == u.table && f.parentColumns == TENANT_KEY
      ensures u in uniques && f in foreigns
    {
      if f in MissingForeigns(foreigns, references) {
        MissingIsListed(foreigns, references, f);
      }
      assert HasUnique(uniques, f.parent);
    }
    if Blocked(uniques, foreigns, targets, references, kept) {
      var u, f :| u in uniques && f in foreigns && IsListedUnique(u, targets, kept) && !IsListed(f, references)
        && f.parent == u.table && f.parentColumns == TENANT_KEY;
      assert u in keys && f in all;
    }
  }

  /**
   The trip on a schema: the downgrade completes exactly when the schema before the upgrade does not block it,
   and then the trip is the identity exactly when the names were free.
   */
  method UpgradeThenDowngrade(db: Schema, targets: seq<Table>, references: seq<Reference>, kept: set<Table>)
    returns (up: bool, down: bool)
    requires db.Valid()
    modifies db`uniques, db`foreigns
    ensures db.Valid()
    ensures up <==> forall r | r in references && !HasForeign(old(db.foreigns), r) ::
      CanCreate(db.rows, old(db.uniques) + MissingUniques(old(db.uniques), targets), r)
    ensures up ==> (down <==> !Blocked(old(db.uniques), old(db.foreigns), targets, references, kept))
    ensures up && down ==> (db.uniques == old(db.uniques) && db.foreigns == old(db.foreigns) <==>
      NamesWereFree(old(db.uniques), old(db.foreigns), targets, references, kept))
    ensures !up ==> !down && db.uniques == old(db.uniques) && db.foreigns == old(db.foreigns)
  {
    UpgradeKeepsBlocked(db.uniques, db.foreigns, targets, references, kept);
    TripRestoresSchemaIff(db.uniques, db.foreigns, targets, references, kept);
    down := false;
    up := db.Upgrade(targets, references);
    if up {
      down := db.Downgrade(targets, references, kept);
    }
  }

  /** With free names a downgrade after the upgrade is never blocked. */
  lemma FreeNamesDoNotBlock(uniques: set<UniqueKey>, foreigns: set<ForeignKey>, targets: seq<Table>,
                            references: seq<Reference>, kept: set<Table>)
    requires NamesWereFree(uniques, foreigns, targets, references, kept)
    ensures !Blocked(uniques, foreigns, targets, references, kept)
  {
  }

  /** What one migration adds leaves the other's names free when the lists are disjoint. */
  lemma OtherNamesStayFree(uniques: set<UniqueKey>, foreigns: set<ForeignKey>, targets: seq<Table>, references: seq<Reference>,
                           nextTargets: seq<Table>, nextReferences: seq<Reference>)
    requires NamesWereFree(uniques, foreigns, nextTargets, nextReferences, {})
    requires DisjointTargets(targets, nextTargets) && DisjointChildren(references, nextReferences)
    ensures NamesWereFree(uniques + MissingUniques(uniques, targets), foreigns + MissingForeigns(foreigns, references),
                          nextTargets, nextReferences, {})
  {
    forall f | f in MissingForeigns(foreigns, references) ensures !IsListed(f, nextReferences) {
      var r :| r in references && !HasForeign(foreigns, r) && f == NewForeign(r);
      forall q | q in nextReferences ensures f.name != ForeignOf(q.child, q.column) {
        assert r.child != q.child;
      }
    }
  }

  ghost predicate BothNamesFree(uniques: set<UniqueKey>, foreigns: set<ForeignKey>, targets: seq<Table>,
                                references: seq<Reference>, kept: set<Table>,
                                nextTargets: seq<Table>, nextReferences: seq<Reference>) {
    && NamesWereFree(uniques, foreigns, targets, references, kept)
    && NamesWereFree(uniques, foreigns, nextTargets, nextReferences, {})
  }

  /** The later list keys its parents with the help of the earlier one, and the two share no table and no child. */
  ghost predicate InOrder(targets: seq<Table>, references: seq<Reference>,
                          nextTargets: seq<Table>, nextReferences: seq<Reference>) {
    && ParentsListed(targets, references) && ParentsListed(targets + nextTargets, nextReferences)
    && DisjointTargets(targets, nextTargets) && DisjointChildren(references, nextReferences)
  }

  lemma RealListsAreInOrder()
    ensures InOrder(CORE_TARGETS, CORE_REFERENCES, EXTENDED_TARGETS, EXTENDED_REFERENCES)
  {
    ListsAreKeyed();
    TargetsAreDisjoint();
    ChildrenAreDisjoint();
  }

  /** Two migrations up and down again, the later one first: from free names both halves complete and nothing is left. */
  method TripInOrder(db: Schema, targets: seq<Table>, references: seq<Reference>, kept: set<Table>,
                     nextTargets: seq<Table>, nextReferences: seq<Reference>) returns (up: bool, down: bool)
    requires db.Valid()
    requires BothNamesFree(db.uniques, db.foreigns, targets, references, kept, nextTargets, nextReferences)
    requires InOrder(targets, references, nextTargets, nextReferences)
    modifies db`uniques, db`foreigns
    ensures up <==> DataMeets(db.rows, references) && DataMeets(db.rows, nextReferences)
    ensures up ==> down && db.uniques == old(db.uniques) && db.foreigns == old(db.foreigns)
    ensures !up ==> !down
  {
    ghost var uniques, foreigns := db.uniques, db.foreigns;
    ghost var keys, all := uniques + MissingUniques(uniques, targets), foreigns + MissingForeigns(foreigns, references);
    assert [] + targets == targets;
    down := false;
    up := UpgradeKeyed(db, [], targets, references);
    if up {
      OtherNamesStayFree(uniques, foreigns, targets, references, nextTargets, nextReferences);
      up := UpgradeKeyed(db, targets, nextTargets, nextReferences);
      if up {
        DowngradeIsFree(keys, all, nextTargets, nextReferences, {});
        down := db.Downgrade(nextTargets, nextReferences, {});
        DowngradeIsFree(uniques, foreigns, targets, references, kept);
        var core := db.Downgrade(targets, references, kept);
        down := down && core;
      }
    }
  }

  /** After an upgrade from free names the downgrade is not blocked and gives back the schema. */
  lemma DowngradeIsFree(uniques: set<UniqueKey>, foreigns: set<ForeignKey>, targets: seq<Table>,
                        references: seq<Reference>, kept: set<Table>)
    requires Keyed(uniques, foreigns) && NamesWereFree(uniques, foreigns, targets, references, kept)
    ensures
      var keys, all := uniques + MissingUniques(uniques, targets), foreigns + MissingForeigns(foreigns, references);
      && !Blocked(keys, all, targets, references, kept)
      && UnlistedUniques(keys, targets, kept) == uniques && Unlisted(all, references) == foreigns
  {
    FreeNamesDoNotBlock(uniques, foreigns, targets, references, kept);
    UpgradeKeepsBlocked(uniques, foreigns, targets, references, kept);
    TripRestoresSchemaIff(uniques, foreigns, targets, references, kept);
  }

  /** The two real migrations up and down again. */
  method TripOfBoth(db: Schema) returns (up: bool, down: bool)
    requires db.Valid()
    requires BothNamesFree(db.uniques, db.foreigns, CORE_TARGETS, CORE_REFERENCES, PREEXISTING,
                           EXTENDED_TARGETS, EXTENDED_REFERENCES)
    modifies db`uniques, db`foreigns
    ensures up <==> DataMeets(db.rows, CORE_REFERENCES) && DataMeets(db.rows, EXTENDED_REFERENCES)
    ensures up ==> down && db.uniques == old(db.uniques) && db.foreigns == old(db.foreigns)
    ensures !up ==> !down
  {
    RealListsAreInOrder();
    up, down := TripInOrder(db, CORE_TARGETS, CORE_REFERENCES, PREEXISTING, EXTENDED_TARGETS, EXTENDED_REFERENCES);
  }

  // ----- chains -----

  /** Row a refers to row b by a listed column. */
  predicate RefersTo(rows: map<Key, Row>, references: seq<Reference>, a: Key, b: Key) {
    a in rows && exists r | r in references ::
      a.0 == r.child && r.column in rows[a].refs && b == (r.parent, rows[a].refs[r.column])
  }

  lemma ReferenceStaysInHotel(rows: map<Key, Row>, references: seq<Reference>, a: Key, b: Key)
    requires DataMeets(rows, references) && RefersTo(rows, references, a, b)
    ensures b in rows && rows[b].hotel == rows[a].hotel
  {
    var r :| r in references && a.0 == r.child && r.column in rows[a].refs && b == (r.parent, rows[a].refs[r.column]);
    assert Satisfied(rows, r.child, r.column, r.parent);
  }

  /** Any chain of listed references from a row ends in its own hotel. */
  lemma {:induction false} ChainStaysInHotel(rows: map<Key, Row>, references: seq<Reference>, chain: seq<Key>)
    requires DataMeets(rows, references) && chain != [] && chain[0] in rows
    requires forall i | 0 <= i < |chain| - 1 :: RefersTo(rows, references, chain[i], chain[i + 1])
    ensures forall k | k in chain :: k in rows && rows[k].hotel == rows[chain[0]].hotel
  {
    if |chain| > 1 {
      ReferenceStaysInHotel(rows, references, chain[0], chain[1]);
      ChainStaysInHotel(rows, references, chain[1..]);
      assert chain == [chain[0]] + chain[1..];
    }
  }

  // ----- cascades, by the constraints that are installed and their own delete rules -----

  /** The value a row has for a column of a constraint; None is null. */
  function ValueAt(rows: map<Key, Row>, k: Key, c: Column): Option<int>
    requires k in rows
  {
    match c
    case HotelId => Some(rows[k].hotel)
    case Id => Some(k.1)
    case _ => if c in rows[k].refs then Some(rows[k].refs[c]) else None
  }

  /** Row a refers to row b by a constraint, of whatever columns. */
  predicate Follows(rows: map<Key, Row>, f: ForeignKey, a: Key, b: Key) {
    && a in rows && b in rows && a.0 == f.child && b.0 == f.parent && |f.columns| == |f.parentColumns| > 0
    && forall i | 0 <= i < |f.columns| ::
      ValueAt(rows, a, f.columns[i]).Some? && ValueAt(rows, a, f.columns[i]) == ValueAt(rows, b, f.parentColumns[i])
  }

  predicate DeletedWith(rows: map<Key, Row>, foreigns: set<ForeignKey>, a: Key, b: Key) {
    exists f | f in foreigns :: f.cascade && Follows(rows, f, a, b)
  }

  function Children(rows: map<Key, Row>, foreigns: set<ForeignKey>, gone: set<Key>): set<Key> {
    set k | k in rows && exists b | b in gone :: DeletedWith(rows, foreigns, k, b)
  }

  /** The rows that a delete takes with it. */
  function Cascade(rows: map<Key, Row>, foreigns: set<ForeignKey>, gone: set<Key>): (all: set<Key>)
    requires gone <= rows.Keys
    ensures gone <= all <= rows.Keys && Children(rows, foreigns, all) <= all
    decreases rows.Keys - gone
  {
    var next := gone + Children(rows, foreigns, gone);
    if next == gone then gone else Cascade(rows, foreigns, next)
  }

  /** It is the least set that contains the deleted rows and is closed under cascading. */
  lemma {:induction false} CascadeIsLeast(rows: map<Key, Row>, foreigns: set<ForeignKey>, gone: set<Key>, closed: set<Key>)
    requires gone <= rows.Keys && gone <= closed && Children(rows, foreigns, closed) <= closed
    ensures Cascade(rows, foreigns, gone) <= closed
    decreases rows.Keys - gone
  {
    var next := gone + Children(rows, foreigns, gone);
    assert next <= closed by {
      forall k | k in Children(rows, foreigns, gone) ensures k in closed {
        var b :| b in gone && DeletedWith(rows, foreigns, k, b);
        assert k in Children(rows, foreigns, closed);
      }
    }
    if next != gone {
      CascadeIsLeast(rows, foreigns, next, closed);
    }
  }

  /** The constraint pairs the hotel columns, or is an older single-column one on a listed column and parent. */
  predicate IsTenant(f: ForeignKey, references: seq<Reference>) {
    || (exists i | 0 <= i < |f.columns| && i < |f.parentColumns| :: f.columns[i] == f.parentColumns[i] == HotelId)
    || IsOlderSingle(f, references)
  }

  predicate IsOlderSingle(f: ForeignKey, references: seq<Reference>) {
    && |f.columns| == 1 && f.parentColumns == [Id]
    && exists r | r in references :: r.child == f.child && r.column == f.columns[0] && r.parent == f.parent && Shaped(r)
  }

  /** Every constraint that cascades is a tenant one. */
  predicate CascadesAreTenant(foreigns: set<ForeignKey>, references: seq<Reference>) {
    forall f | f in foreigns && f.cascade :: IsTenant(f, references)
  }

  lemma TenantFollowsInHotel(rows: map<Key, Row>, references: seq<Reference>, f: ForeignKey, a: Key, b: Key)
    requires DataMeets(rows, references) && IsTenant(f, references) && Follows(rows, f, a, b)
    ensures rows[a].hotel == rows[b].hotel
  {
    if IsOlderSingle(f, references) {
      var r :| r in references && r.child == f.child && r.column == f.columns[0] && r.parent == f.parent && Shaped(r);
      assert ValueAt(rows, a, f.columns[0]) == ValueAt(rows, b, f.parentColumns[0]);
      assert b == (r.parent, rows[a].refs[r.column]);
      assert RefersTo(rows, references, a, b);
      ReferenceStaysInHotel(rows, references, a, b);
    } else {
      var i :| 0 <= i < |f.columns| && i < |f.parentColumns| && f.columns[i] == f.parentColumns[i] == HotelId;
      assert ValueAt(rows, a, f.columns[i]) == ValueAt(rows, b, f.parentColumns[i]);
    }
  }

  /** Deleting a row removes rows of its own hotel only, and no cascading reference is left dangling. */
  lemma CascadeStaysInHotel(rows: map<Key, Row>, foreigns: set<ForeignKey>, references: seq<Reference>, row: Key, k: Key)
    requires DataMeets(rows, references) && row in rows
    requires CascadesAreTenant(foreigns, references)
    ensures k in Cascade(rows, foreigns, {row}) ==> rows[k].hotel == rows[row].hotel
    ensures forall a, b | a in rows.Keys - Cascade(rows, foreigns, {row}) && DeletedWith(rows, foreigns, a, b) ::
      b in rows.Keys - Cascade(rows, foreigns, {row})
  {
    var gone := Cascade(rows, foreigns, {row});
    var hotel := set k' | k' in rows && rows[k'].hotel == rows[row].hotel;
    forall k' | k' in Children(rows, foreigns, hotel) ensures k' in hotel {
      var b :| b in hotel && DeletedWith(rows, foreigns, k', b);
      var f :| f in foreigns && f.cascade && Follows(rows, f, k', b);
      TenantFollowsInHotel(rows, references, f, k', b);
    }
    CascadeIsLeast(rows, foreigns, {row}, hotel);
    forall a, b | a in rows.Keys - gone && DeletedWith(rows, foreigns, a, b) ensures b in rows.Keys - gone {
      assert b in gone ==> a in Children(rows, foreigns, gone);
    }
  }

  lemma FollowersAreDeleted(rows: map<Key, Row>, foreigns: set<ForeignKey>, f: ForeignKey, a: Key, b: Key)
    requires f in foreigns && f.cascade && Follows(rows, f, a, b)
    ensures a in Cascade(rows, foreigns, {b})
  {
    assert DeletedWith(rows, foreigns, a, b);
    var gone := Cascade(rows, foreigns, {b});
    assert b in gone && a in Children(rows, foreigns, gone);
  }

  /** A constraint that is installed with its own delete rule counts, whatever the list says of that reference. */
  lemma InstalledRuleCascades(rows: map<Key, Row>, foreigns: set<ForeignKey>, f: ForeignKey, r: Reference, a: Key, b: Key)
    requires f in foreigns && f.cascade && ShapedAs(f, r) && Shaped(r) && a in rows && b in rows && a.0 == r.child
    requires r.column in rows[a].refs && b == (r.parent, rows[a].refs[r.column]) && rows[a].hotel == rows[b].hotel
    ensures a in Cascade(rows, foreigns, {b})
  {
    FollowersAreDeleted(rows, foreigns, f, a, b);
  }

  /** The condition is needed: a cascading constraint outside the lists takes another hotel's row. */
  lemma UnlistedCascadeCrosses()
    ensures
      var rows: map<Key, Row> := map[(Rooms, 1) := Row(1, map[OtherColumn("x") := 2]), (Guests, 2) := Row(2, map[])];
      var f := ForeignKey(Chosen("old"), Rooms, [OtherColumn("x")], Guests, [Id], true);
      (Rooms, 1) in Cascade(rows, {f}, {(Guests, 2)}) && rows[(Rooms, 1)].hotel != rows[(Guests, 2)].hotel
  {
    var rows: map<Key, Row> := map[(Rooms, 1) := Row(1, map[OtherColumn("x") := 2]), (Guests, 2) := Row(2, map[])];
    var f := ForeignKey(Chosen("old"), Rooms, [OtherColumn("x")], Guests, [Id], true);
    assert ValueAt(rows, (Rooms, 1), OtherColumn("x")) == ValueAt(rows, (Guests, 2), Id);
    FollowersAreDeleted(rows, {f}, f, (Rooms, 1), (Guests, 2));
  }

  /** The promise, from the schema: once a list is installed, chains over it and cascades stay in a hotel. */
  lemma InstalledSchemaIsolates(rows: map<Key, Row>, foreigns: set<ForeignKey>, references: seq<Reference>,
                                row: Key, k: Key, chain: seq<Key>)
    requires (forall f | f in foreigns :: Enforced(rows, f)) && AllForeign(foreigns, references)
    requires CascadesAreTenant(foreigns, references)
    requires row in rows && chain != [] && chain[0] in rows
    requires forall i | 0 <= i < |chain| - 1 :: RefersTo(rows, references, chain[i], chain[i + 1])
    ensures k in chain ==> k in rows && rows[k].hotel == rows[chain[0]].hotel
    ensures k in Cascade(rows, foreigns, {row}) ==> rows[k].hotel == rows[row].hotel
  {
    InstalledIsMet(rows, foreigns, references);
    ChainStaysInHotel(rows, references, chain);
    CascadeStaysInHotel(rows, foreigns, references, row, k);
  }

  /** Two installed lists are one. */
  lemma BothListsAreInstalled(foreigns: set<ForeignKey>, a: seq<Reference>, b: seq<Reference>)
    ensures AllForeign(foreigns, a) && AllForeign(foreigns, b) <==> AllForeign(foreigns, a + b)
  {
    if AllForeign(foreigns, a + b) {
      forall r | r in a || r in b ensures HasForeign(foreigns, r) {
        assert r in a + b;
      }
    }
  }

  predicate EachCascadeIsTenant(foreigns: set<ForeignKey>, a: seq<Reference>, b: seq<Reference>) {
    forall f | f in foreigns && f.cascade :: IsTenant(f, a) || IsTenant(f, b)
  }

  lemma TenantOfEither(foreigns: set<ForeignKey>, a: seq<Reference>, b: seq<Reference>)
    requires EachCascadeIsTenant(foreigns, a, b)
    ensures CascadesAreTenant(foreigns, a + b)
  {
    forall f | f in foreigns && f.cascade ensures IsTenant(f, a + b) {
      if IsOlderSingle(f, a) || IsOlderSingle(f, b) {
        var r :| (r in a || r in b) && r.child == f.child && r.column == f.columns[0] && r.parent == f.parent && Shaped(r);
        assert r in a + b;
      }
    }
  }

  predicate OneHotel(rows: map<Key, Row>, gone: set<Key>, row: Key)
    requires row in rows
  {
    forall k | k in gone :: k in rows && rows[k].hotel == rows[row].hotel
  }

  /**
   Once both lists are installed, a delete takes rows of its own hotel only, as long as every constraint that
   cascades pairs the hotel columns or stands on a listed column and parent.
   */
  lemma DeleteStaysInHotel(rows: map<Key, Row>, foreigns: set<ForeignKey>, a: seq<Reference>, b: seq<Reference>, row: Key)
    requires (forall f | f in foreigns :: Enforced(rows, f)) && AllForeign(foreigns, a) && AllForeign(foreigns, b)
    requires row in rows
    ensures EachCascadeIsTenant(foreigns, a, b) ==>
      OneHotel(rows, Cascade(rows, foreigns, {row}), row)
  {
    if EachCascadeIsTenant(foreigns, a, b) {
      TenantOfEither(foreigns, a, b);
      BothListsAreInstalled(foreigns, a, b);
      forall k | k in Cascade(rows, foreigns, {row}) ensures rows[k].hotel == rows[row].hotel {
        InstalledSchemaIsolates(rows, foreigns, a + b, row, k, [row]);
      }
    }
  }
}
