/**
 The permission upgrade followed by the downgrade, with edits between them or
 not: who can end up with more than before, and who ends up as before.
 */
module RbacTrip {
  import opened Wrappers
  import opened RbacCatalog
  import opened Rbac

  // ----- which legacy row feeds a new code -----

  lemma NotAlsoFedBy(l: LegacyCode, m: LegacyCode, t: NewCode)
    requires t in Targets(l) && t != LaundryRead
    ensures t in Targets(m) <==> m == l
  {
    if m != l && t in Targets(m) {
      OnlyLaundryReadIsShared(l, m, t);
    }
  }

  lemma FedStep<K>(rows: Rows<K>, k: K, l: LegacyCode, t: NewCode, n: nat)
    requires n < |LEGACY| && t in Targets(l) && t != LaundryRead
    ensures Fed(rows, k, New(t), n + 1) ==
      if Fed(rows, k, New(t), n).None? && LEGACY[n] == l then Lookup(rows, k, Legacy(l)) else Fed(rows, k, New(t), n)
  {
    NotAlsoFedBy(l, LEGACY[n], t);
  }

  lemma {:induction false} FedBySoleFeeder<K>(rows: Rows<K>, k: K, l: LegacyCode, t: NewCode, n: nat)
    requires n <= |LEGACY| && t in Targets(l) && t != LaundryRead
    ensures Fed(rows, k, New(t), n) == if l in LEGACY[..n] then Lookup(rows, k, Legacy(l)) else None
  {
    if n > 0 {
      FedBySoleFeeder(rows, k, l, t, n - 1);
      FedStep(rows, k, l, t, n - 1);
      InOneMore(LEGACY, n - 1, l);
    }
  }

  lemma InOneMore<T>(s: seq<T>, n: nat, x: T)
    requires n < |s|
    ensures x in s[..n + 1] <==> x in s[..n] || x == s[n]
  {
    assert s[..n + 1] == s[..n] + [s[n]];
  }

  lemma {:induction false} LaundryReadNotFedEarly<K>(rows: Rows<K>, k: K, n: nat)
    requires n <= 12
    ensures Fed(rows, k, New(LaundryRead), n) == None
  {
    if n > 0 {
      LaundryReadNotFedEarly(rows, k, n - 1);
      EarlySplitsSkipLaundryRead(n - 1);
    }
  }

  lemma EarlySplitsSkipLaundryRead(i: nat)
    requires i < 12
    ensures LaundryRead !in Targets(LEGACY[i])
  {
    LaundryCodesReadLaundry(LEGACY[i]);
  }

  lemma LaundryCodesReadLaundry(l: LegacyCode)
    ensures LaundryRead in Targets(l) <==> l == LaundryManageVendors || l == LaundryOperateRemitos
  {
    assert LaundryRead == Targets(LaundryManageVendors)[0] == Targets(LaundryOperateRemitos)[0];
  }

  /** laundry:read has two feeders, and laundry:manage_vendors comes first. */
  lemma LaundryReadIsFedByVendorsFirst<K>(rows: Rows<K>, k: K)
    ensures Fed(rows, k, New(LaundryRead), |LEGACY|) ==
      if Lookup(rows, k, Legacy(LaundryManageVendors)).Some? then Lookup(rows, k, Legacy(LaundryManageVendors))
      else Lookup(rows, k, Legacy(LaundryOperateRemitos))
  {
    LaundryReadNotFedEarly(rows, k, 12);
    assert LEGACY[12] == LaundryManageVendors && LEGACY[13] == LaundryOperateRemitos;
    assert Fed(rows, k, New(LaundryRead), 13) == Lookup(rows, k, Legacy(LaundryManageVendors));
  }

  /** The other code that a target of l is filled from, when both rows exist. */
  predicate ReadsFromVendors<K(==)>(rows: Rows<K>, k: K, l: LegacyCode, t: NewCode) {
    l == LaundryOperateRemitos && t == LaundryRead && (k, Legacy(LaundryManageVendors)) in rows
  }

  /** The value of a target of l after the upgrade, when l has a row. */
  function Copied<K(==)>(rows: Rows<K>, k: K, l: LegacyCode, t: NewCode): bool
    requires (k, Legacy(l)) in rows
  {
    if (k, New(t)) in rows then rows[(k, New(t))]
    else if ReadsFromVendors(rows, k, l, t) then rows[(k, Legacy(LaundryManageVendors))]
    else rows[(k, Legacy(l))]
  }

  /** In closed form, the loop over the splits gives a target its own legacy decision, but for laundry:read. */
  lemma ExpandClosedForm<K>(rows: Rows<K>, k: K, l: LegacyCode, t: NewCode)
    requires t in Targets(l) && (k, Legacy(l)) in rows
    ensures Expand(rows, k, New(t), |LEGACY|) == Some(Copied(rows, k, l, t))
  {
    if t == LaundryRead {
      LaundryReadIsFedByVendorsFirst(rows, k);
      LaundryCodesReadLaundry(l);
    } else {
      FedBySoleFeeder(rows, k, l, t, |LEGACY|);
      EveryLegacyListed(l);
      assert LEGACY[..|LEGACY|] == LEGACY;
    }
  }

  // ----- one key through the upgrade, and through the downgrade -----

  /** What both copying loops do for a key: the overrides for each, the defaults for each role of the list. */
  ghost predicate Upgraded<K(!new)>(before: Rows<K>, after: Rows<K>, k: K) {
    && (forall c: Code | !c.New? :: Lookup(after, k, c) == Lookup(before, k, c))
    && (forall c: Code | Expand(before, k, c, |LEGACY|).Some? :: Lookup(after, k, c) == Expand(before, k, c, |LEGACY|))
  }

  ghost predicate Contracted<K(!new)>(before: Rows<K>, after: Rows<K>, k: K) {
    forall c :: Lookup(after, k, c) == Downgraded(before, k, c)
  }

  lemma OverridesAreUpgraded(before: Rows<Place>, after: Rows<Place>, place: Place)
    requires forall c :: Lookup(after, place, c) == Expand(before, place, c, |LEGACY|)
    ensures Upgraded(before, after, place)
  {
  }

  lemma DefaultsAreUpgraded(before: Rows<Role>, after: Rows<Role>, role: Role)
    requires role in ROLES && forall c :: Lookup(after, role, c) == ExpandDefault(before, role, c)
    ensures Upgraded(before, after, role)
  {
  }

  // ----- arbitrary edits between the two -----

  /** Whatever was edited: deny wins, new codes are gone, and no other row is touched. */
  lemma DenyWins<K(!new)>(edited: Rows<K>, after: Rows<K>, k: K, c: Code)
    requires Contracted(edited, after, k)
    ensures c.New? ==> (k, c) !in after
    ensures !c.New? ==> ((k, c) in after <==> (k, c) in edited)
    ensures c.Other? && (k, c) in edited ==> after[(k, c)] == edited[(k, c)]
    ensures c.Legacy? && (k, c) in edited && !AnyTarget(edited, k, c.legacy) ==> after[(k, c)] == edited[(k, c)]
    ensures c.Legacy? && (k, c) in edited && AnyTarget(edited, k, c.legacy) ==>
      (after[(k, c)] <==> forall t | t in Targets(c.legacy) :: Lookup(edited, k, New(t)) != Some(false))
  {
    assert Lookup(after, k, c) == Downgraded(edited, k, c);
    if c.Legacy? {
      EveryLegacyListed(c.legacy);
      assert LEGACY[..|LEGACY|] == LEGACY;
      assert forall t: NewCode :: Lookup(edited, k, New(t)) != Some(false) <==>
        ((k, New(t)) in edited ==> edited[(k, New(t))]);
    }
  }

  // ----- the trip without edits -----

  lemma HasTarget(l: LegacyCode)
    ensures |Targets(l)| > 0
  {
  }

  /** The legacy decision after the trip: the conjunction of what its targets were given. */
  lemma TripDecision<K(!new)>(before: Rows<K>, middle: Rows<K>, after: Rows<K>, k: K, l: LegacyCode)
    requires Upgraded(before, middle, k) && Contracted(middle, after, k)
    ensures (k, Legacy(l)) !in before ==> (k, Legacy(l)) !in after
    ensures (k, Legacy(l)) in before ==>
      Lookup(after, k, Legacy(l)) == Some(forall t | t in Targets(l) :: Copied(before, k, l, t))
  {
    DenyWins(middle, after, k, Legacy(l));
    assert Lookup(middle, k, Legacy(l)) == Lookup(before, k, Legacy(l));
    if (k, Legacy(l)) in before {
      forall t | t in Targets(l) ensures Lookup(middle, k, New(t)) == Some(Copied(before, k, l, t)) {
        ExpandClosedForm(before, k, l, t);
      }
      HasTarget(l);
      assert Targets(l)[0] in Targets(l) && Lookup(middle, k, New(Targets(l)[0])).Some?;
      assert AnyTarget(middle, k, l);
    }
  }

  /** Exactly when the trip turns a denied decision into an allowed one. */
  lemma TripBroadensIff<K(!new)>(before: Rows<K>, middle: Rows<K>, after: Rows<K>, k: K, l: LegacyCode)
    requires Upgraded(before, middle, k) && Contracted(middle, after, k)
    requires Lookup(before, k, Legacy(l)) == Some(false)
    ensures Lookup(after, k, Legacy(l)) == Some(true) <==>
      forall t | t in Targets(l) ::
        if (k, New(t)) in before then before[(k, New(t))]
        else ReadsFromVendors(before, k, l, t) && before[(k, Legacy(LaundryManageVendors))]
  {
    TripDecision(before, middle, after, k, l);
  }

  /** Each legacy code has a target that no other code feeds. */
  function OwnTarget(l: LegacyCode): (t: NewCode)
    ensures t in Targets(l) && t != LaundryRead
  {
    Targets(l)[|Targets(l)| - 1]
  }

  ghost predicate NoNewRows<K(!new)>(rows: Rows<K>, k: K) {
    forall t: NewCode :: (k, New(t)) !in rows
  }

  /** Without earlier rows for the new codes no denied decision is ever broadened. */
  lemma TripNeverBroadens<K(!new)>(before: Rows<K>, middle: Rows<K>, after: Rows<K>, k: K, l: LegacyCode)
    requires Upgraded(before, middle, k) && Contracted(middle, after, k) && NoNewRows(before, k)
    requires Lookup(before, k, Legacy(l)) == Some(false)
    ensures Lookup(after, k, Legacy(l)) == Some(false)
  {
    TripDecision(before, middle, after, k, l);
    assert !Copied(before, k, l, OwnTarget(l));
  }

  /** laundry:operate_remitos, cut down to laundry:manage_vendors where both have a row. */
  function WithVendors<K(==)>(rows: Rows<K>, k: K): Option<bool> {
    var remitos, vendors := Lookup(rows, k, Legacy(LaundryOperateRemitos)), Lookup(rows, k, Legacy(LaundryManageVendors));
    if remitos.Some? && vendors.Some? then Some(remitos.value && vendors.value) else remitos
  }

  /** Without earlier rows every decision comes back, but laundry:operate_remitos meets laundry:manage_vendors. */
  lemma TripRestores<K(!new)>(before: Rows<K>, middle: Rows<K>, after: Rows<K>, k: K, l: LegacyCode)
    requires Upgraded(before, middle, k) && Contracted(middle, after, k) && NoNewRows(before, k)
    ensures l != LaundryOperateRemitos ==> Lookup(after, k, Legacy(l)) == Lookup(before, k, Legacy(l))
    ensures l == LaundryOperateRemitos ==> Lookup(after, k, Legacy(l)) == WithVendors(before, k)
  {
    TripDecision(before, middle, after, k, l);
    if (k, Legacy(l)) in before {
      assert Copied(before, k, l, OwnTarget(l)) == before[(k, Legacy(l))];
      if l == LaundryOperateRemitos {
        assert LaundryRead in Targets(l);
      }
    }
  }

  /** The row that the trip does not restore: remitos allowed where vendors are denied. */
  predicate LaundryDisagrees<K(==)>(rows: Rows<K>, k: K) {
    Lookup(rows, k, Legacy(LaundryOperateRemitos)) == Some(true)
    && Lookup(rows, k, Legacy(LaundryManageVendors)) == Some(false)
  }

  /** Exactly when the trip leaves every row of a key as it was. */
  lemma TripIsIdentityIff<K(!new)>(before: Rows<K>, middle: Rows<K>, after: Rows<K>, k: K)
    requires Upgraded(before, middle, k) && Contracted(middle, after, k)
    ensures (forall c :: Lookup(after, k, c) == Lookup(before, k, c))
       <==> (NoNewRows(before, k) && !LaundryDisagrees(before, k))
  {
    if forall c :: Lookup(after, k, c) == Lookup(before, k, c) {
      forall t: NewCode ensures (k, New(t)) !in before {
        assert Lookup(after, k, New(t)) == Lookup(before, k, New(t));
        DenyWins(middle, after, k, New(t));
      }
      TripRestores(before, middle, after, k, LaundryOperateRemitos);
    }
    if NoNewRows(before, k) && !LaundryDisagrees(before, k) {
      forall c ensures Lookup(after, k, c) == Lookup(before, k, c) {
        DenyWins(middle, after, k, c);
        if c.Legacy? {
          TripRestores(before, middle, after, k, c.legacy);
        }
      }
    }
  }

  /** A denied guest:edit with an earlier allowed guest:update comes back allowed. */
  lemma EarlierRowBroadens(middle: Rows<Role>, after: Rows<Role>)
    requires Upgraded(map[(Manager, Legacy(GuestEdit)) := false, (Manager, New(GuestUpdate)) := true], middle, Manager)
    requires Contracted(middle, after, Manager)
    ensures Lookup(after, Manager, Legacy(GuestEdit)) == Some(true)
  {
    TripBroadensIff(map[(Manager, Legacy(GuestEdit)) := false, (Manager, New(GuestUpdate)) := true],
                    middle, after, Manager, GuestEdit);
  }

  /** The whole trip on the tables, from the two migrations' own contracts. */
  method UpgradeThenDowngrade(db: Database)
    modifies db
    ensures forall place, l |
      NoNewRows(old(db.overrides), place) && Lookup(old(db.overrides), place, Legacy(l)) == Some(false) ::
      Lookup(db.overrides, place, Legacy(l)) == Some(false)
    ensures forall role, l |
      role in ROLES && NoNewRows(old(db.defaults), role) && Lookup(old(db.defaults), role, Legacy(l)) == Some(false) ::
      Lookup(db.defaults, role, Legacy(l)) == Some(false)
    ensures forall place |
      NoNewRows(old(db.overrides), place) && !LaundryDisagrees(old(db.overrides), place) ::
      forall c :: Lookup(db.overrides, place, c) == Lookup(old(db.overrides), place, c)
    ensures forall role |
      role in ROLES && NoNewRows(old(db.defaults), role) && !LaundryDisagrees(old(db.defaults), role) ::
      forall c :: Lookup(db.defaults, role, c) == Lookup(old(db.defaults), role, c)
    ensures (forall c | c in old(db.catalog) :: !c.New?) ==> db.catalog == old(db.catalog)
  {
    db.Upgrade();
    ghost var overrides, defaults := db.overrides, db.defaults;
    db.Downgrade();
    forall place ensures Upgraded(old(db.overrides), overrides, place) && Contracted(overrides, db.overrides, place) {
      OverridesAreUpgraded(old(db.overrides), overrides, place);
    }
    forall place, l |
      NoNewRows(old(db.overrides), place) && Lookup(old(db.overrides), place, Legacy(l)) == Some(false)
      ensures Lookup(db.overrides, place, Legacy(l)) == Some(false)
    {
      TripNeverBroadens(old(db.overrides), overrides, db.overrides, place, l);
    }
    forall role, l |
      role in ROLES && NoNewRows(old(db.defaults), role) && Lookup(old(db.defaults), role, Legacy(l)) == Some(false)
      ensures Lookup(db.defaults, role, Legacy(l)) == Some(false)
    {
      DefaultsAreUpgraded(old(db.defaults), defaults, role);
      TripNeverBroadens(old(db.defaults), defaults, db.defaults, role, l);
    }
    forall place | NoNewRows(old(db.overrides), place) && !LaundryDisagrees(old(db.overrides), place)
      ensures forall c :: Lookup(db.overrides, place, c) == Lookup(old(db.overrides), place, c)
    {
      TripIsIdentityIff(old(db.overrides), overrides, db.overrides, place);
    }
    forall role | role in ROLES && NoNewRows(old(db.defaults), role) && !LaundryDisagrees(old(db.defaults), role)
      ensures forall c :: Lookup(db.defaults, role, c) == Lookup(old(db.defaults), role, c)
    {
      DefaultsAreUpgraded(old(db.defaults), defaults, role);
      TripIsIdentityIff(old(db.defaults), defaults, db.defaults, role);
    }
  }
}
