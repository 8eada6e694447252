/**
 The tenant key migrations: parent keys, composite references, and what they
 make of chains of references and of cascading deletes.
 */
module TenantKeys {
  import opened Wrappers
  import opened TenantCatalog

  type Key = (Table, int)

  /** A row's hotel and its references; an absent column is null. */
  datatype Row = Row(hotel: int, refs: map<Column, int>)

  /** The names that the migrations use, one a target and one a reference, and any other. */
  datatype Name = KeyOf(table: Table) | ForeignOf(child: Table, column: Column) | Chosen(text: string)

  /** A unique constraint, or only a unique index. */
  datatype UniqueKey = UniqueKey(name: Name, table: Table, columns: seq<Column>, isConstraint: bool)

  datatype ForeignKey = ForeignKey(name: Name, child: Table, columns: seq<Column>, parent: Table,
                                   parentColumns: seq<Column>, cascade: bool)

  const TENANT_KEY: seq<Column> := [HotelId, Id]

  predicate HasUnique(uniques: set<UniqueKey>, t: Table) {
    exists u | u in uniques :: u.table == t && u.columns == TENANT_KEY
  }

  /** The shape of a reference, whatever its name and delete rule. */
  predicate ShapedAs(f: ForeignKey, r: Reference) {
    f.child == r.child && f.columns == [HotelId, r.column] && f.parent == r.parent && f.parentColumns == TENANT_KEY
  }

  predicate HasForeign(foreigns: set<ForeignKey>, r: Reference) {
    exists f | f in foreigns :: ShapedAs(f, r)
  }

  function NewUnique(t: Table): UniqueKey {
    UniqueKey(KeyOf(t), t, TENANT_KEY, true)
  }

  function NewForeign(r: Reference): ForeignKey {
    ForeignKey(ForeignOf(r.child, r.column), r.child, [HotelId, r.column], r.parent, TENANT_KEY, r.cascade)
  }

  /** A row that refers by this column refers to an existing row of its own hotel. */
  predicate Satisfied(rows: map<Key, Row>, child: Table, column: Column, parent: Table) {
    forall k | k in rows && k.0 == child && column in rows[k].refs ::
      && (parent, rows[k].refs[column]) in rows
      && rows[(parent, rows[k].refs[column])].hotel == rows[k].hotel
  }

  predicate Enforced(rows: map<Key, Row>, f: ForeignKey) {
    |f.columns| == 2 && f.columns[0] == HotelId && f.parentColumns == TENANT_KEY ==>
      Satisfied(rows, f.child, f.columns[1], f.parent)
  }

  // ----- what a migration adds, in the columns of the constraints -----

  /** The constraint of a listed reference: its name, its columns, and its delete rule. */
  predicate IsOf(f: ForeignKey, r: Reference) {
    && f.name == ForeignOf(r.child, r.column) && f.child == r.child && f.parent == r.parent
    && f.columns == [HotelId, r.column] && f.parentColumns == [HotelId, Id] && f.cascade == r.cascade
  }

  predicate OnSameColumns(f: ForeignKey, r: Reference) {
    f.child == r.child && f.parent == r.parent && f.columns == [HotelId, r.column] && f.parentColumns == [HotelId, Id]
  }

  /** Each listed reference without a constraint on its columns gets its own; nothing goes, and nothing else is added. */
  ghost predicate ReferencesAdded(before: set<ForeignKey>, after: set<ForeignKey>, references: seq<Reference>) {
    && before <= after
    && (forall r | r in references :: exists f | f in after :: if f in before then OnSameColumns(f, r) else IsOf(f, r))
    && (forall f | f in after && f !in before ::
          exists r | r in references :: IsOf(f, r) && forall g | g in before :: !OnSameColumns(g, r))
  }

  /** And each listed table without a unique key or index on these columns, a named constraint. */
  ghost predicate KeysAdded(before: set<UniqueKey>, after: set<UniqueKey>, targets: seq<Table>) {
    && before <= after
    && (forall t | t in targets :: exists u | u in after :: u.table == t && u.columns == [HotelId, Id])
    && (forall u | u in after && u !in before ::
          && u.table in targets && u.name == KeyOf(u.table) && u.columns == [HotelId, Id] && u.isConstraint
          && forall w | w in before :: !(w.table == u.table && w.columns == [HotelId, Id]))
  }

  lemma MissingAreAdded(uniques: set<UniqueKey>, foreigns: set<ForeignKey>, targets: seq<Table>, references: seq<Reference>)
    ensures KeysAdded(uniques, uniques + MissingUniques(uniques, targets), targets)
    ensures ReferencesAdded(foreigns, foreigns + MissingForeigns(foreigns, references), references)
  {
    var keys, all := uniques + MissingUniques(uniques, targets), foreigns + MissingForeigns(foreigns, references);
    forall t | t in targets ensures exists u | u in keys :: u.table == t && u.columns == [HotelId, Id] {
      if HasUnique(uniques, t) {
        var u :| u in uniques && u.table == t && u.columns == TENANT_KEY;
        assert u in keys;
      } else {
        assert NewUnique(t) in keys;
      }
    }
    forall r | r in references ensures exists f | f in all :: if f in foreigns then OnSameColumns(f, r) else IsOf(f, r) {
      if HasForeign(foreigns, r) {
        var f :| f in foreigns && ShapedAs(f, r);
        assert f in all;
      } else {
        assert NewForeign(r) in all && IsOf(NewForeign(r), r) && OnSameColumns(NewForeign(r), r);
      }
    }
    forall f | f in all && f !in foreigns
      ensures exists r | r in references :: IsOf(f, r) && forall g | g in foreigns :: !OnSameColumns(g, r)
    {
      var r :| r in references && !HasForeign(foreigns, r) && f == NewForeign(r);
      assert forall g | g in foreigns :: OnSameColumns(g, r) ==> ShapedAs(g, r);
      assert IsOf(f, r);
    }
  }

  // ----- what the loops add and drop -----

  function MissingUniques(uniques: set<UniqueKey>, targets: seq<Table>): set<UniqueKey> {
    set t | t in targets && !HasUnique(uniques, t) :: NewUnique(t)
  }

  function MissingForeigns(foreigns: set<ForeignKey>, references: seq<Reference>): set<ForeignKey> {
    set r | r in references && !HasForeign(foreigns, r) :: NewForeign(r)
  }

  /** Dropped by the downgrade: the listed name on the listed shape. */
  predicate IsListed(f: ForeignKey, references: seq<Reference>) {
    exists r | r in references :: f.name == ForeignOf(r.child, r.column) && ShapedAs(f, r)
  }

  /** Dropped by the downgrade: a constraint of the listed name, whatever its columns. */
  predicate IsListedUnique(u: UniqueKey, targets: seq<Table>, kept: set<Table>) {
    u.table in targets && u.table !in kept && u.name == KeyOf(u.table) && u.isConstraint
  }

  /** A key cannot be dropped while a reference to it remains: each reference relies on a key of its parent. */
  predicate Keyed(uniques: set<UniqueKey>, foreigns: set<ForeignKey>) {
    forall f | f in foreigns && f.parentColumns == TENANT_KEY :: HasUnique(uniques, f.parent)
  }

  /** A constraint of a listed name is to be dropped, and an unlisted reference points at its table's key. */
  predicate Blocked(uniques: set<UniqueKey>, foreigns: set<ForeignKey>, targets: seq<Table>,
                    references: seq<Reference>, kept: set<Table>) {
    exists u, f | u in uniques && f in foreigns ::
      && IsListedUnique(u, targets, kept) && !IsListed(f, references)
      && f.parent == u.table && f.parentColumns == TENANT_KEY
  }

  /** A new reference needs a parent key and data that meets it. */
  predicate CanCreate(rows: map<Key, Row>, uniques: set<UniqueKey>, r: Reference) {
    HasUnique(uniques, r.parent) && Satisfied(rows, r.child, r.column, r.parent)
  }

  class Schema {
    var uniques: set<UniqueKey>
    var foreigns: set<ForeignKey>
    var rows: map<Key, Row>

    /** The database enforces its references, and each relies on a key of its parent. */
    ghost predicate Valid()
      reads this
    {
      (forall f | f in foreigns :: Enforced(rows, f)) && Keyed(uniques, foreigns)
    }

    /** One migration, in one transaction: a reference that cannot be created undoes it. */
    method Upgrade(targets: seq<Table>, references: seq<Reference>) returns (ok: bool)
      requires Valid()
      modifies this`uniques, this`foreigns
      ensures Valid()
      ensures ok <==> forall r | r in references && !HasForeign(old(foreigns), r) ::
        CanCreate(rows, old(uniques) + MissingUniques(old(uniques), targets), r)
      ensures ok ==> uniques == old(uniques) + MissingUniques(old(uniques), targets)
      ensures ok ==> foreigns == old(foreigns) + MissingForeigns(old(foreigns), references)
      ensures !ok ==> uniques == old(uniques) && foreigns == old(foreigns)
    {
      var keys, seen := uniques, foreigns;
      for i := 0 to |targets|
        invariant uniques == old(uniques) && foreigns == old(foreigns)
        invariant keys == uniques + MissingUniques(uniques, targets[..i])
      {
        AppendUnique(uniques, targets, i);
        if !HasUnique(uniques, targets[i]) {
          keys := keys + {NewUnique(targets[i])};
        }
      }
      assert targets[..|targets|] == targets;
      MoreKeysKeep(uniques, keys, foreigns);
      var added := seen;
      for i := 0 to |references|
        invariant uniques == old(uniques) && foreigns == old(foreigns)
        invariant added == seen + MissingForeigns(seen, references[..i])
        invariant (forall f | f in added :: Enforced(rows, f)) && Keyed(keys, added)
        invariant forall r | r in references[..i] && !HasForeign(seen, r) :: CanCreate(rows, keys, r)
      {
        AppendForeign(seen, references, i);
        if !HasForeign(seen, references[i]) {
          if !CanCreate(rows, keys, references[i]) {
            return false;
          }
          added := added + {NewForeign(references[i])};
        }
      }
      assert references[..|references|] == references;
      uniques, foreigns := keys, added;
      ok := true;
    }

    /**
     The reverse, last created first dropped. It completes unless a key is to be dropped that a reference outside
     the list still uses.
     */
    method Downgrade(targets: seq<Table>, references: seq<Reference>, kept: set<Table>) returns (ok: bool)
      modifies this`uniques, this`foreigns
      ensures ok <==> !Blocked(old(uniques), old(foreigns), targets, references, kept)
      ensures ok ==> foreigns == Unlisted(old(foreigns), references)
      ensures ok ==> uniques == UnlistedUniques(old(uniques), targets, kept)
      ensures !ok ==> uniques == old(uniques) && foreigns == old(foreigns)
      ensures old(Valid()) ==> Valid()
    {
      var left := foreigns;
      for i := |references| downto 0
        invariant uniques == old(uniques) && foreigns == old(foreigns)
        invariant left == Unlisted(foreigns, references[i..])
      {
        var r := references[i];
        assert references[i..] == [r] + references[i + 1..];
        left := set f | f in left && !(f.name == ForeignOf(r.child, r.column) && ShapedAs(f, r));
      }
      assert references[0..] == references;
      var keys := uniques;
      for i := |targets| downto 0
        invariant uniques == old(uniques) && foreigns == old(foreigns)
        invariant keys == UnlistedUniques(uniques, targets[i..], kept)
        invariant !Blocked(uniques, foreigns, targets[i..], references, kept)
      {
        var t := targets[i];
        PrependTarget(targets, kept, i);
        if t !in kept {
          var dropped := set u | u in keys && u.table == t && u.name == KeyOf(t) && u.isConstraint;
          if dropped != {} && exists f | f in left :: f.parent == t && f.parentColumns == TENANT_KEY {
            DropIsBlocked(uniques, foreigns, targets, references, kept, t, dropped, left);
            return false;
          }
          DropIsFree(uniques, foreigns, targets, references, kept, i, dropped, left);
          keys := keys - dropped;
        }
      }
      assert targets[0..] == targets;
      UnblockedDropKeepsKeys(uniques, foreigns, targets, references, kept);
      uniques, foreigns := keys, left;
      ok := true;
    }
  }

  function Unlisted(foreigns: set<ForeignKey>, references: seq<Reference>): set<ForeignKey> {
    set f | f in foreigns && !IsListed(f, references)
  }

  function UnlistedUniques(uniques: set<UniqueKey>, targets: seq<Table>, kept: set<Table>): set<UniqueKey> {
    set u | u in uniques && !IsListedUnique(u, targets, kept)
  }

  lemma MoreKeysKeep(uniques: set<UniqueKey>, more: set<UniqueKey>, foreigns: set<ForeignKey>)
    requires uniques <= more
    ensures Keyed(uniques, foreigns) ==> Keyed(more, foreigns)
    ensures forall t | HasUnique(uniques, t) :: HasUnique(more, t)
  {
    forall t | HasUnique(uniques, t) ensures HasUnique(more, t) {
      var u :| u in uniques && u.table == t && u.columns == TENANT_KEY;
      assert u in more;
    }
  }

  /** One more target adds only its own constraint. */
  lemma PrependTarget(targets: seq<Table>, kept: set<Table>, i: nat)
    requires i < |targets|
    ensures
      var t := targets[i];
      forall u :: IsListedUnique(u, targets[i..], kept) <==>
        IsListedUnique(u, targets[i + 1..], kept) || (t !in kept && u.table == t && u.name == KeyOf(t) && u.isConstraint)
  {
    assert targets[i..] == [targets[i]] + targets[i + 1..];
  }

  lemma DropIsBlocked(uniques: set<UniqueKey>, foreigns: set<ForeignKey>, targets: seq<Table>, references: seq<Reference>,
                      kept: set<Table>, t: Table, dropped: set<UniqueKey>, left: set<ForeignKey>)
    requires t in targets && t !in kept && left == Unlisted(foreigns, references)
    requires dropped != {} && forall u | u in dropped :: u in uniques && u.table == t && u.name == KeyOf(t) && u.isConstraint
    requires exists f | f in left :: f.parent == t && f.parentColumns == TENANT_KEY
    ensures Blocked(uniques, foreigns, targets, references, kept)
  {
    var f :| f in left && f.parent == t && f.parentColumns == TENANT_KEY;
    var u := MemberOf(dropped);
    assert u in uniques && f in foreigns && IsListedUnique(u, targets, kept);
  }

  lemma DropIsFree(uniques: set<UniqueKey>, foreigns: set<ForeignKey>, targets: seq<Table>, references: seq<Reference>,
                   kept: set<Table>, i: nat, dropped: set<UniqueKey>, left: set<ForeignKey>)
    requires i < |targets| && targets[i] !in kept && left == Unlisted(foreigns, references)
    requires forall u :: u in dropped <==>
      && u in UnlistedUniques(uniques, targets[i + 1..], kept)
      && u.table == targets[i] && u.name == KeyOf(targets[i]) && u.isConstraint
    requires dropped == {} || !exists f | f in left :: f.parent == targets[i] && f.parentColumns == TENANT_KEY
    requires !Blocked(uniques, foreigns, targets[i + 1..], references, kept)
    ensures !Blocked(uniques, foreigns, targets[i..], references, kept)
  {
    PrependTarget(targets, kept, i);
    forall u, f | u in uniques && f in foreigns && IsListedUnique(u, targets[i..], kept) && !IsListed(f, references)
      ensures !(f.parent == u.table && f.parentColumns == TENANT_KEY)
    {
      assert f in left;
      assert IsListedUnique(u, targets[i + 1..], kept) || u in dropped;
    }
  }

  /** What is dropped without being blocked leaves every remaining reference its key. */
  lemma UnblockedDropKeepsKeys(uniques: set<UniqueKey>, foreigns: set<ForeignKey>, targets: seq<Table>,
                               references: seq<Reference>, kept: set<Table>)
    requires !Blocked(uniques, foreigns, targets, references, kept)
    ensures Keyed(uniques, foreigns) ==>
      Keyed(UnlistedUniques(uniques, targets, kept), Unlisted(foreigns, references))
  {
    if Keyed(uniques, foreigns) {
      forall f | f in Unlisted(foreigns, references) && f.parentColumns == TENANT_KEY
        ensures HasUnique(UnlistedUniques(uniques, targets, kept), f.parent)
      {
        var u :| u in uniques && u.table == f.parent && u.columns == TENANT_KEY;
        assert u in UnlistedUniques(uniques, targets, kept);
      }
    }
  }

  lemma AppendUnique(uniques: set<UniqueKey>, targets: seq<Table>, i: nat)
    requires i < |targets|
    ensures MissingUniques(uniques, targets[..i + 1]) == MissingUniques(uniques, targets[..i]) +
      if HasUnique(uniques, targets[i]) then {} else {NewUnique(targets[i])}
  {
    assert targets[..i + 1] == targets[..i] + [targets[i]];
  }

  lemma AppendForeign(foreigns: set<ForeignKey>, references: seq<Reference>, i: nat)
    requires i < |references|
    ensures MissingForeigns(foreigns, references[..i + 1]) == MissingForeigns(foreigns, references[..i]) +
      if HasForeign(foreigns, references[i]) then {} else {NewForeign(references[i])}
    ensures forall r :: r in references[..i + 1] <==> r in references[..i] || r == references[i]
  {
    assert references[..i + 1] == references[..i] + [references[i]];
  }
}
