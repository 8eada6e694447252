/**
 The role-based access migration: one legacy decision is copied to several
 narrower codes, and the downgrade contracts them back with deny winning.
 A table of decisions maps a key (a role, or a hotel and a role) and a code.
 */
module Rbac {
  import opened Wrappers
  import opened RbacCatalog

  type Place = (int, Role)

  /** A table of decisions, one row per key and code. */
  type Rows<K(==)> = map<(K, Code), bool>

  function Lookup<K(==)>(rows: Rows<K>, k: K, c: Code): Option<bool> {
    if (k, c) in rows then Some(rows[(k, c)]) else None
  }

  // ----- what the loops amount to, decision by decision -----

  /** The first of the first n legacy codes that feeds c and has a row for k. */
  function Fed<K(==)>(rows: Rows<K>, k: K, c: Code, n: nat): Option<bool>
    requires n <= |LEGACY|
  {
    if n == 0 || !c.New? then None
    else if Fed(rows, k, c, n - 1).Some? then Fed(rows, k, c, n - 1)
    else if c.narrow in Targets(LEGACY[n - 1]) then Lookup(rows, k, Legacy(LEGACY[n - 1]))
    else None
  }

  /** A row that exists stays; a missing one is filled from the first feeder. */
  function Expand<K(==)>(rows: Rows<K>, k: K, c: Code, n: nat): Option<bool>
    requires n <= |LEGACY|
  {
    if Lookup(rows, k, c).Some? then Lookup(rows, k, c) else Fed(rows, k, c, n)
  }

  function ExpandDefault(rows: Rows<Role>, role: Role, c: Code): Option<bool> {
    if role !in ROLES then Lookup(rows, role, c)
    else if Expand(rows, role, c, |LEGACY|).None? && c.New? then Some(Agreed(role, c.narrow))
    else Expand(rows, role, c, |LEGACY|)
  }

  predicate AnyTarget<K(==)>(rows: Rows<K>, k: K, l: LegacyCode) {
    exists t | t in Targets(l) :: (k, New(t)) in rows
  }

  predicate AllTargets<K(==)>(rows: Rows<K>, k: K, l: LegacyCode) {
    forall t | t in Targets(l) && (k, New(t)) in rows :: rows[(k, New(t))]
  }

  /** Deny wins: a legacy row with target rows is allowed only if all of them are. */
  function Contract<K(==)>(rows: Rows<K>, k: K, c: Code, n: nat): Option<bool>
    requires n <= |LEGACY|
  {
    if c.Legacy? && c.legacy in LEGACY[..n] && (k, c) in rows && AnyTarget(rows, k, c.legacy)
    then Some(AllTargets(rows, k, c.legacy))
    else Lookup(rows, k, c)
  }

  function Downgraded<K(==)>(rows: Rows<K>, k: K, c: Code): Option<bool> {
    if c.New? then None else Contract(rows, k, c, |LEGACY|)
  }

  // ----- the loops -----

  method FillTargets<K(==, !new)>(rows: Rows<K>, k: K, targets: seq<NewCode>, allowed: bool)
    returns (out: Rows<K>)
    ensures forall k', c ::
      Lookup(out, k', c) ==
      if k' == k && c.New? && c.narrow in targets && Lookup(rows, k', c).None? then Some(allowed) else Lookup(rows, k', c)
  {
    out := rows;
    for j := 0 to |targets|
      invariant forall k', c ::
        Lookup(out, k', c) ==
        if k' == k && c.New? && c.narrow in targets[..j] && Lookup(rows, k', c).None? then Some(allowed)
        else Lookup(rows, k', c)
    {
      if (k, New(targets[j])) !in out {
        out := out[(k, New(targets[j])) := allowed];
      }
    }
  }

  /** The rows of one legacy code, in any order, each copied to the targets that are still missing. */
  method CopySplit<K(==, !new)>(rows: Rows<K>, l: LegacyCode) returns (out: Rows<K>)
    ensures forall k, c ::
      Lookup(out, k, c) ==
      if c.New? && c.narrow in Targets(l) && Lookup(rows, k, c).None? then Lookup(rows, k, Legacy(l)) else Lookup(rows, k, c)
  {
    out := rows;
    var selected := set kc | kc in rows.Keys && kc.1 == Legacy(l) :: kc.0;
    var pending := selected;
    while pending != {}
      invariant pending <= selected
      invariant forall k, c ::
        Lookup(out, k, c) ==
        if k !in pending && c.New? && c.narrow in Targets(l) && Lookup(rows, k, c).None? then Lookup(rows, k, Legacy(l))
        else Lookup(rows, k, c)
      decreases |pending|
    {
      var k := PickFrom(pending);
      out := FillTargets(out, k, Targets(l), rows[(k, Legacy(l))]);
      pending := pending - {k};
    }
  }

  function TargetKeys<K(==)>(rows: Rows<K>, l: LegacyCode): set<K> {
    set kc | kc in rows.Keys && kc.1.New? && kc.1.narrow in Targets(l) :: kc.0
  }

  lemma TargetKeysAre<K>(rows: Rows<K>, l: LegacyCode, k: K)
    ensures k in TargetKeys(rows, l) <==> AnyTarget(rows, k, l)
  {
    if AnyTarget(rows, k, l) {
      var t :| t in Targets(l) && (k, New(t)) in rows;
      assert (k, New(t)) in rows.Keys;
    }
  }

  /** What one split makes of the legacy row. */
  function ContractOne<K(==)>(rows: Rows<K>, k: K, c: Code, l: LegacyCode): Option<bool> {
    if c == Legacy(l) && (k, c) in rows && AnyTarget(rows, k, l) then Some(AllTargets(rows, k, l)) else Lookup(rows, k, c)
  }

  /** The groups of one split: each key with a target row updates its legacy row, if there is one. */
  method ContractSplit<K(==, !new)>(rows: Rows<K>, l: LegacyCode) returns (out: Rows<K>)
    ensures forall k, c :: Lookup(out, k, c) == ContractOne(rows, k, c, l)
  {
    out := rows;
    var groups := TargetKeys(rows, l);
    var pending := groups;
    while pending != {}
      invariant pending <= groups
      invariant forall k, c | k in pending || k !in groups :: Lookup(out, k, c) == Lookup(rows, k, c)
      invariant forall k, c | k in groups && k !in pending :: Lookup(out, k, c) == ContractOne(rows, k, c, l)
      decreases |pending|
    {
      var k := PickFrom(pending);
      TargetKeysAre(rows, l, k);
      assert Lookup(out, k, Legacy(l)) == Lookup(rows, k, Legacy(l));
      if (k, Legacy(l)) in out {
        out := out[(k, Legacy(l)) := AllTargets(rows, k, l)];
      }
      pending := pending - {k};
    }
    forall k, c ensures Lookup(out, k, c) == ContractOne(rows, k, c, l) {
      TargetKeysAre(rows, l, k);
    }
  }

  method ContractLegacyRows<K(==, !new)>(rows: Rows<K>) returns (out: Rows<K>)
    ensures forall k, c :: Lookup(out, k, c) == Contract(rows, k, c, |LEGACY|)
  {
    out := rows;
    for i := 0 to |LEGACY|
      invariant forall k, c :: Lookup(out, k, c) == Contract(rows, k, c, i)
    {
      ghost var before := out;
      out := ContractSplit(out, LEGACY[i]);
      forall k, c ensures Lookup(out, k, c) == Contract(rows, k, c, i + 1) {
        ContractStep(rows, before, k, c, i);
      }
    }
  }

  lemma ContractStep<K(!new)>(rows: Rows<K>, before: Rows<K>, k: K, c: Code, i: nat)
    requires i < |LEGACY| && forall c' :: Lookup(before, k, c') == Contract(rows, k, c', i)
    ensures Contract(rows, k, c, i + 1) == ContractOne(before, k, c, LEGACY[i])
  {
    forall t: NewCode ensures Lookup(before, k, New(t)) == Lookup(rows, k, New(t)) {
    }
    SameTargets(rows, before, k, LEGACY[i]);
    assert LEGACY[..i + 1] == LEGACY[..i] + [LEGACY[i]];
    assert Lookup(before, k, c) == Contract(rows, k, c, i);
  }

  lemma SameTargets<K>(a: Rows<K>, b: Rows<K>, k: K, l: LegacyCode)
    requires forall t: NewCode :: Lookup(a, k, New(t)) == Lookup(b, k, New(t))
    ensures AnyTarget(a, k, l) == AnyTarget(b, k, l) && AllTargets(a, k, l) == AllTargets(b, k, l)
  {
    assert forall t: NewCode :: ((k, New(t)) in a <==> (k, New(t)) in b) by {
      forall t: NewCode ensures (k, New(t)) in a <==> (k, New(t)) in b {
        assert Lookup(a, k, New(t)) == Lookup(b, k, New(t));
      }
    }
    forall t: NewCode | (k, New(t)) in a ensures a[(k, New(t))] == b[(k, New(t))] {
      assert Lookup(a, k, New(t)) == Lookup(b, k, New(t));
    }
  }

  method BackfillRole(rows: Rows<Role>, role: Role) returns (out: Rows<Role>)
    ensures forall k, c :: Lookup(out, k, c) == if k == role then Expand(rows, k, c, |LEGACY|) else Lookup(rows, k, c)
  {
    out := rows;
    for i := 0 to |LEGACY|
      invariant forall k, c :: Lookup(out, k, c) == if k == role then Expand(rows, k, c, i) else Lookup(rows, k, c)
    {
      assert Lookup(out, role, Legacy(LEGACY[i])) == Lookup(rows, role, Legacy(LEGACY[i]));
      if (role, Legacy(LEGACY[i])) in out {
        out := FillTargets(out, role, Targets(LEGACY[i]), out[(role, Legacy(LEGACY[i]))]);
      }
    }
  }

  method AddAgreed(rows: Rows<Role>, role: Role) returns (out: Rows<Role>)
    ensures forall k, c ::
      Lookup(out, k, c) ==
      if k == role && c.New? && Lookup(rows, k, c).None? then Some(Agreed(k, c.narrow)) else Lookup(rows, k, c)
  {
    out := rows;
    for j := 0 to |NEW_PERMISSIONS|
      invariant forall k, c ::
        Lookup(out, k, c) ==
        if k == role && c.New? && c.narrow in NEW_PERMISSIONS[..j] && Lookup(rows, k, c).None?
        then Some(Agreed(k, c.narrow)) else Lookup(rows, k, c)
    {
      var code := New(NEW_PERMISSIONS[j]);
      assert NEW_PERMISSIONS[..j + 1] == NEW_PERMISSIONS[..j] + [NEW_PERMISSIONS[j]];
      if (role, code) !in out {
        out := out[(role, code) := Agreed(role, NEW_PERMISSIONS[j])];
      }
    }
    AllNewListed();
  }

  function WithoutNew<K(==, !new)>(rows: Rows<K>): (out: Rows<K>)
    ensures forall k, c :: Lookup(out, k, c) == if c.New? then None else Lookup(rows, k, c)
  {
    map kc | kc in rows && !kc.1.New? :: rows[kc]
  }

  lemma OldRowsRemain<K(!new)>(rows: Rows<K>, contracted: Rows<K>)
    requires forall k, c :: Lookup(contracted, k, c) == Contract(rows, k, c, |LEGACY|)
    ensures contracted.Keys == rows.Keys
  {
    forall kc ensures kc in contracted <==> kc in rows {
      assert Lookup(contracted, kc.0, kc.1) == Contract(rows, kc.0, kc.1, |LEGACY|);
    }
  }

  // ----- the tables and the two migrations -----

  class Database {
    var catalog: set<Code>
    var defaults: Rows<Role>
    var overrides: Rows<Place>

    /** Each default's code is in the catalogue. */
    ghost predicate DefaultsListed()
      reads this
    {
      forall kc | kc in defaults :: kc.1 in catalog
    }

    /** And each override's. */
    ghost predicate OverridesListed()
      reads this
    {
      forall kc | kc in overrides :: kc.1 in catalog
    }

    method InsertPermissionRows()
      modifies this`catalog
      ensures forall c :: c in catalog <==> c in old(catalog) || c.New?
    {
      for i := 0 to |NEW_PERMISSIONS|
        invariant forall c :: c in catalog <==> c in old(catalog) || (c.New? && c.narrow in NEW_PERMISSIONS[..i])
      {
        assert NEW_PERMISSIONS[..i + 1] == NEW_PERMISSIONS[..i] + [NEW_PERMISSIONS[i]];
        catalog := catalog + {New(NEW_PERMISSIONS[i])};
      }
      AllNewListed();
    }

    method BackfillDefaults()
      modifies this`defaults
      ensures forall role, c :: Lookup(defaults, role, c) == ExpandDefault(old(defaults), role, c)
    {
      for r := 0 to |ROLES|
        invariant forall k, c ::
          Lookup(defaults, k, c) ==
          if k in ROLES[..r] then Expand(old(defaults), k, c, |LEGACY|) else Lookup(old(defaults), k, c)
      {
        assert ROLES[..r + 1] == ROLES[..r] + [ROLES[r]] && ROLES[r] !in ROLES[..r];
        ghost var before := defaults;
        defaults := BackfillRole(defaults, ROLES[r]);
        forall c ensures Expand(before, ROLES[r], c, |LEGACY|) == Expand(old(defaults), ROLES[r], c, |LEGACY|) {
          assert forall c' :: Lookup(before, ROLES[r], c') == Lookup(old(defaults), ROLES[r], c');
          SameExpansion(before, old(defaults), ROLES[r], c, |LEGACY|);
        }
      }
      ghost var copied := defaults;
      for r := 0 to |ROLES|
        invariant forall k, c ::
          Lookup(defaults, k, c) ==
          if k in ROLES[..r] && c.New? && Lookup(copied, k, c).None? then Some(Agreed(k, c.narrow)) else Lookup(copied, k, c)
      {
        assert ROLES[..r + 1] == ROLES[..r] + [ROLES[r]] && ROLES[r] !in ROLES[..r];
        defaults := AddAgreed(defaults, ROLES[r]);
      }
      assert ROLES[..|ROLES|] == ROLES;
    }

    method CopyRoleOverrides()
      modifies this`overrides
      ensures forall place, c :: Lookup(overrides, place, c) == Expand(old(overrides), place, c, |LEGACY|)
    {
      for i := 0 to |LEGACY|
        invariant forall k, c :: Lookup(overrides, k, c) == Expand(old(overrides), k, c, i)
      {
        assert forall k :: Lookup(overrides, k, Legacy(LEGACY[i])) == Lookup(old(overrides), k, Legacy(LEGACY[i]));
        overrides := CopySplit(overrides, LEGACY[i]);
      }
    }

    method Upgrade()
      modifies this
      ensures forall c :: c in catalog <==> c in old(catalog) || c.New?
      ensures forall role, c :: Lookup(defaults, role, c) == ExpandDefault(old(defaults), role, c)
      ensures forall place, c :: Lookup(overrides, place, c) == Expand(old(overrides), place, c, |LEGACY|)
      ensures (old(DefaultsListed()) ==> DefaultsListed()) && (old(OverridesListed()) ==> OverridesListed())
    {
      InsertPermissionRows();
      BackfillDefaults();
      CopyRoleOverrides();
      forall kc | kc in defaults && !kc.1.New? ensures kc in old(defaults) {
        assert Lookup(defaults, kc.0, kc.1).Some?;
      }
      forall kc | kc in overrides && !kc.1.New? ensures kc in old(overrides) {
        assert Lookup(overrides, kc.0, kc.1).Some?;
      }
    }

    method Downgrade()
      modifies this
      ensures forall c :: c in catalog <==> c in old(catalog) && !c.New?
      ensures forall role, c :: Lookup(defaults, role, c) == Downgraded(old(defaults), role, c)
      ensures forall place, c :: Lookup(overrides, place, c) == Downgraded(old(overrides), place, c)
      ensures (old(DefaultsListed()) ==> DefaultsListed()) && (old(OverridesListed()) ==> OverridesListed())
    {
      var contractedDefaults := ContractLegacyRows(defaults);
      var contractedOverrides := ContractLegacyRows(overrides);
      OldRowsRemain(overrides, contractedOverrides);
      OldRowsRemain(defaults, contractedDefaults);
      overrides := WithoutNew(contractedOverrides);
      defaults := WithoutNew(contractedDefaults);
      catalog := set c | c in catalog && !c.New?;
    }
  }

  lemma {:induction false} SameExpansion<K(!new)>(
      a: Rows<K>, b: Rows<K>, k: K, c: Code, n: nat)
    requires n <= |LEGACY| && forall c' :: Lookup(a, k, c') == Lookup(b, k, c')
    ensures Fed(a, k, c, n) == Fed(b, k, c, n) && Expand(a, k, c, n) == Expand(b, k, c, n)
  {
    if n > 0 {
      SameExpansion(a, b, k, c, n - 1);
    }
  }
}
