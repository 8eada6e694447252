/**
 What the installed references let a delete take along: which rule each constraint
 gets that a migration adds, and which tables a delete then reaches.
 */
module TenantDeletes {
  import opened TenantCatalog
  import opened TenantKeys
  import opened TenantIsolation

  /** One migration: the keys and references it adds, in their columns and with the listed delete rule. */
  method UpgradeAdds(db: Schema, targets: seq<Table>, references: seq<Reference>) returns (ok: bool)
    requires db.Valid()
    modifies db`uniques, db`foreigns
    ensures db.Valid()
    ensures ok ==> KeysAdded(old(db.uniques), db.uniques, targets)
    ensures ok ==> ReferencesAdded(old(db.foreigns), db.foreigns, references)
    ensures !ok ==> db.uniques == old(db.uniques) && db.foreigns == old(db.foreigns)
  {
    MissingAreAdded(db.uniques, db.foreigns, targets, references);
    ok := db.Upgrade(targets, references);
  }

  /** Every constraint that cascades joins tables of which one takes the other. */
  predicate RulesAreKnown(foreigns: set<ForeignKey>) {
    forall f | f in foreigns && f.cascade :: Takes(f.parent, f.child)
  }

  predicate KnownRules(references: seq<Reference>) {
    forall r | r in references :: RuleIsKnown(r)
  }

  lemma AddedRulesAreKnown(before: set<ForeignKey>, after: set<ForeignKey>, references: seq<Reference>)
    requires ReferencesAdded(before, after, references) && RulesAreKnown(before) && KnownRules(references)
    ensures RulesAreKnown(after)
  {
    forall f | f in after && f !in before && f.cascade ensures Takes(f.parent, f.child) {
      var r :| r in references && IsOf(f, r);
      assert RuleIsKnown(r);
    }
  }

  lemma ListedRulesAreKnown()
    ensures KnownRules(CORE_REFERENCES) && KnownRules(EXTENDED_REFERENCES)
  {
    forall r | r in CORE_REFERENCES ensures RuleIsKnown(r) {
      CoreParentsAreKeyed(r);
    }
    forall r | r in EXTENDED_REFERENCES ensures RuleIsKnown(r) {
      ExtendedParentsAreKeyed(r);
    }
  }

  /** A delete then reaches no other tables than its own table takes. */
  lemma DeleteReaches(rows: map<Key, Row>, foreigns: set<ForeignKey>, row: Key, k: Key)
    requires RulesAreKnown(foreigns) && row in rows && k in Cascade(rows, foreigns, {row})
    ensures k == row || Takes(row.0, k.0)
  {
    var closed := set x | x in rows && (x == row || Takes(row.0, x.0));
    forall x | x in Children(rows, foreigns, closed) ensures x in closed {
      var b :| b in closed && DeletedWith(rows, foreigns, x, b);
      var f :| f in foreigns && f.cascade && Follows(rows, f, x, b);
      assert Takes(b.0, x.0);
      if b != row {
        TakesIsTransitive(row.0, b.0, x.0);
      }
    }
    CascadeIsLeast(rows, foreigns, {row}, closed);
  }

  method UpgradeTwo(db: Schema, targets: seq<Table>, references: seq<Reference>,
                    nextTargets: seq<Table>, nextReferences: seq<Reference>) returns (ok: bool)
    requires db.Valid() && RulesAreKnown(db.foreigns) && KnownRules(references) && KnownRules(nextReferences)
    modifies db`uniques, db`foreigns
    ensures RulesAreKnown(db.foreigns)
  {
    ghost var before := db.foreigns;
    ok := UpgradeAdds(db, targets, references);
    if ok {
      AddedRulesAreKnown(before, db.foreigns, references);
      before := db.foreigns;
      ok := UpgradeAdds(db, nextTargets, nextReferences);
      if ok {
        AddedRulesAreKnown(before, db.foreigns, nextReferences);
      }
    }
  }

  /**
   From a schema without foreign keys, both migrations, then a delete: a guest's delete removes guest tags and
   waitlist entries alone, no transaction goes but with its reservation, and no reservation goes with anything.
   */
  method DeleteAfterBoth(db: Schema, row: Key) returns (ok: bool, gone: set<Key>)
    requires db.Valid() && db.foreigns == {} && row in db.rows
    modifies db`uniques, db`foreigns
    ensures row in gone && gone <= db.rows.Keys && Children(db.rows, db.foreigns, gone) <= gone
    ensures forall k | k in gone && k != row :: Takes(row.0, k.0)
    ensures row.0 == Guests ==> forall k | k in gone && k != row :: k.0 == GuestTags || k.0 == WaitlistEntries
    ensures forall k | k in gone && k != row :: k.0 != Reservations && (k.0 == Transactions ==> row.0 == Reservations)
  {
    ListedRulesAreKnown();
    ok := UpgradeTwo(db, CORE_TARGETS, CORE_REFERENCES, EXTENDED_TARGETS, EXTENDED_REFERENCES);
    gone := Cascade(db.rows, db.foreigns, {row});
    forall k | k in gone && k != row ensures Takes(row.0, k.0) {
      DeleteReaches(db.rows, db.foreigns, row, k);
    }
  }
}
