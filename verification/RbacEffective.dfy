/**
 The decision that a request meets: a hotel's override if there is one, else the default of the role.
 When the downgrade allows a wide code although one of its narrow codes was denied.
 */
module RbacEffective {
  import opened Wrappers
  import opened RbacCatalog
  import opened Rbac
  import opened RbacTrip

  /** `base` is the role itself, or the built-in role that a hotel's own role stands on. No row is a denial. */
  predicate Effective(defaults: Rows<Role>, overrides: Rows<Place>, place: Place, base: Role, c: Code) {
    if (place, c) in overrides then overrides[(place, c)] else Lookup(defaults, base, c) == Some(true)
  }

  /** The narrow codes of a wide one are all allowed. */
  predicate AllNarrow(defaults: Rows<Role>, overrides: Rows<Place>, place: Place, base: Role, l: LegacyCode) {
    forall t | t in Targets(l) :: Effective(defaults, overrides, place, base, New(t))
  }

  /** What the contraction will make of the wide code's row in one table. */
  predicate ContractsToAllowed<K(==)>(rows: Rows<K>, k: K, l: LegacyCode) {
    (k, Legacy(l)) in rows && if AnyTarget(rows, k, l) then AllTargets(rows, k, l) else rows[(k, Legacy(l))]
  }

  lemma ContractedRow<K(!new)>(edited: Rows<K>, after: Rows<K>, k: K, l: LegacyCode)
    requires Contracted(edited, after, k)
    ensures (k, Legacy(l)) in after <==> (k, Legacy(l)) in edited
    ensures Lookup(after, k, Legacy(l)) == Some(true) <==> ContractsToAllowed(edited, k, l)
  {
    assert Lookup(after, k, Legacy(l)) == Downgraded(edited, k, Legacy(l));
    EveryLegacyListed(l);
    assert LEGACY[..|LEGACY|] == LEGACY;
  }

  /**
   A denial that the contraction of the deciding table does not see: a narrow code without an override where the
   override decides, and an overridden narrow code, or one without any row, where the default decides.
   */
  predicate DenialUnseen(defaults: Rows<Role>, overrides: Rows<Place>, place: Place, base: Role, l: LegacyCode, t: NewCode) {
    if (place, Legacy(l)) in overrides then
      (place, New(t)) !in overrides && Lookup(defaults, base, New(t)) != Some(true)
    else if (place, New(t)) in overrides then !overrides[(place, New(t))]
    else (base, New(t)) !in defaults
  }

  predicate DecidingRowAllows(defaults: Rows<Role>, overrides: Rows<Place>, place: Place, base: Role, l: LegacyCode) {
    if (place, Legacy(l)) in overrides then ContractsToAllowed(overrides, place, l) else ContractsToAllowed(defaults, base, l)
  }

  lemma PresentTargetIsAllowed<K>(rows: Rows<K>, k: K, l: LegacyCode, t: NewCode)
    requires ContractsToAllowed(rows, k, l) && t in Targets(l)
    ensures (k, New(t)) in rows ==> rows[(k, New(t))]
  {
    assert (k, New(t)) in rows ==> AnyTarget(rows, k, l);
  }

  /** Where the deciding row stays allowed, a narrow code is denied exactly if the contraction did not see it. */
  lemma DeniedIsUnseen(defaults: Rows<Role>, overrides: Rows<Place>, place: Place, base: Role, l: LegacyCode, t: NewCode)
    requires DecidingRowAllows(defaults, overrides, place, base, l) && t in Targets(l)
    ensures !Effective(defaults, overrides, place, base, New(t)) <==> DenialUnseen(defaults, overrides, place, base, l, t)
  {
    if (place, Legacy(l)) in overrides {
      PresentTargetIsAllowed(overrides, place, l, t);
    } else {
      PresentTargetIsAllowed(defaults, base, l, t);
    }
  }

  predicate SomeDenialUnseen(defaults: Rows<Role>, overrides: Rows<Place>, place: Place, base: Role, l: LegacyCode) {
    exists t | t in Targets(l) :: DenialUnseen(defaults, overrides, place, base, l, t)
  }

  lemma NarrowDeniedIffUnseen(defaults: Rows<Role>, overrides: Rows<Place>, place: Place, base: Role, l: LegacyCode)
    requires DecidingRowAllows(defaults, overrides, place, base, l)
    ensures !AllNarrow(defaults, overrides, place, base, l) <==> SomeDenialUnseen(defaults, overrides, place, base, l)
  {
    forall t | t in Targets(l)
      ensures !Effective(defaults, overrides, place, base, New(t)) <==> DenialUnseen(defaults, overrides, place, base, l, t)
    {
      DeniedIsUnseen(defaults, overrides, place, base, l, t);
    }
  }

  lemma DowngradeAllowsIff(defaults: Rows<Role>, overrides: Rows<Place>, defaults': Rows<Role>, overrides': Rows<Place>,
                           place: Place, base: Role, l: LegacyCode)
    requires Contracted(defaults, defaults', base) && Contracted(overrides, overrides', place)
    ensures Effective(defaults', overrides', place, base, Legacy(l)) <==> DecidingRowAllows(defaults, overrides, place, base, l)
  {
    ContractedRow(defaults, defaults', base, l);
    ContractedRow(overrides, overrides', place, l);
  }

  /**
   After any edits: the downgrade allows a wide code although one of its narrow codes was denied, exactly when the
   row that decides contracts to allowed and some denial stands where that row's contraction does not look.
   */
  lemma DowngradeBroadensIff(defaults: Rows<Role>, overrides: Rows<Place>, defaults': Rows<Role>, overrides': Rows<Place>,
                             place: Place, base: Role, l: LegacyCode)
    requires Contracted(defaults, defaults', base) && Contracted(overrides, overrides', place)
    ensures Effective(defaults', overrides', place, base, Legacy(l)) && !AllNarrow(defaults, overrides, place, base, l)
       <==> DecidingRowAllows(defaults, overrides, place, base, l) && SomeDenialUnseen(defaults, overrides, place, base, l)
  {
    DowngradeAllowsIff(defaults, overrides, defaults', overrides', place, base, l);
    if DecidingRowAllows(defaults, overrides, place, base, l) {
      NarrowDeniedIffUnseen(defaults, overrides, place, base, l);
    }
  }

  /** The two tables speak of a split together: overrides for all of it or none, and defaults for all of it. */
  predicate SplitStaysTogether(defaults: Rows<Role>, overrides: Rows<Place>, place: Place, base: Role, l: LegacyCode) {
    forall t | t in Targets(l) ::
      ((place, New(t)) in overrides <==> (place, Legacy(l)) in overrides) && (base, New(t)) in defaults
  }

  /** Then deny wins for the request, too. */
  lemma TogetherNeverBroadens(defaults: Rows<Role>, overrides: Rows<Place>, defaults': Rows<Role>, overrides': Rows<Place>,
                              place: Place, base: Role, l: LegacyCode)
    requires Contracted(defaults, defaults', base) && Contracted(overrides, overrides', place)
    requires SplitStaysTogether(defaults, overrides, place, base, l)
    ensures Effective(defaults', overrides', place, base, Legacy(l)) ==> AllNarrow(defaults, overrides, place, base, l)
  {
    DowngradeBroadensIff(defaults, overrides, defaults', overrides', place, base, l);
  }

  /** A hotel that denies stock:movement alone, where the role may operate stock: the denial goes, the default stays. */
  lemma DenialIsDeleted(defaults': Rows<Role>, overrides': Rows<Place>)
    requires Contracted(map[(Manager, Legacy(StockOperate)) := true], defaults', Manager)
    requires Contracted(map[((1, Manager), New(StockMovement)) := false], overrides', (1, Manager))
    ensures !Effective(map[(Manager, Legacy(StockOperate)) := true], map[((1, Manager), New(StockMovement)) := false],
                       (1, Manager), Manager, New(StockMovement))
    ensures Effective(defaults', overrides', (1, Manager), Manager, Legacy(StockOperate))
  {
    DowngradeAllowsIff(map[(Manager, Legacy(StockOperate)) := true], map[((1, Manager), New(StockMovement)) := false],
                       defaults', overrides', (1, Manager), Manager, StockOperate);
  }

  // ----- the trip -----

  lemma UnlistedRoleStays(before: Rows<Role>, middle: Rows<Role>, after: Rows<Role>, role: Role, l: LegacyCode)
    requires forall c :: Lookup(middle, role, c) == Lookup(before, role, c)
    requires Contracted(middle, after, role) && NoNewRows(before, role)
    ensures Lookup(after, role, Legacy(l)) == Lookup(before, role, Legacy(l))
  {
    assert forall t: NewCode :: Lookup(middle, role, New(t)) == Lookup(before, role, New(t)) == None;
    DenyWins(middle, after, role, Legacy(l));
    assert Lookup(middle, role, Legacy(l)) == Lookup(before, role, Legacy(l));
  }

  lemma DefaultIsNotBroadened(before: Rows<Role>, middle: Rows<Role>, after: Rows<Role>, role: Role, l: LegacyCode)
    requires forall c :: Lookup(middle, role, c) == ExpandDefault(before, role, c)
    requires Contracted(middle, after, role) && NoNewRows(before, role)
    ensures Lookup(after, role, Legacy(l)) == Some(true) ==> Lookup(before, role, Legacy(l)) == Some(true)
  {
    if role in ROLES {
      DefaultsAreUpgraded(before, middle, role);
      RowIsNotBroadened(before, middle, after, role, l);
    } else {
      UnlistedRoleStays(before, middle, after, role, l);
    }
  }

  lemma RowIsNotBroadened<K(!new)>(before: Rows<K>, middle: Rows<K>, after: Rows<K>, k: K, l: LegacyCode)
    requires Upgraded(before, middle, k) && Contracted(middle, after, k) && NoNewRows(before, k)
    ensures (k, Legacy(l)) in after <==> (k, Legacy(l)) in before
    ensures Lookup(after, k, Legacy(l)) == Some(true) ==> Lookup(before, k, Legacy(l)) == Some(true)
  {
    TripDecision(before, middle, after, k, l);
    if Lookup(before, k, Legacy(l)) == Some(false) {
      TripNeverBroadens(before, middle, after, k, l);
    }
  }

  /** Upgrade and downgrade, whatever the two tables say: no wide code that was denied is allowed afterwards. */
  method TripOfDecisions(db: Database)
    modifies db
    ensures forall place, base, l |
      NoNewRows(old(db.overrides), place) && NoNewRows(old(db.defaults), base)
      && !Effective(old(db.defaults), old(db.overrides), place, base, Legacy(l)) ::
      !Effective(db.defaults, db.overrides, place, base, Legacy(l))
  {
    db.Upgrade();
    ghost var overrides, defaults := db.overrides, db.defaults;
    db.Downgrade();
    forall place, base, l |
      NoNewRows(old(db.overrides), place) && NoNewRows(old(db.defaults), base)
      && !Effective(old(db.defaults), old(db.overrides), place, base, Legacy(l))
      ensures !Effective(db.defaults, db.overrides, place, base, Legacy(l))
    {
      OverridesAreUpgraded(old(db.overrides), overrides, place);
      RowIsNotBroadened(old(db.overrides), overrides, db.overrides, place, l);
      DefaultIsNotBroadened(old(db.defaults), defaults, db.defaults, base, l);
    }
  }
}
