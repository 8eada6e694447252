/** The permission migration row by row: where each narrow decision comes from, and what a downgrade makes of a wide one. */
module RbacRows {
  import opened Wrappers
  import opened RbacCatalog
  import opened Rbac
  import opened RbacTrip

  /** The wide code that a narrow one is split from; laundry:read is split from two, of which this is the first. */
  function Source(c: NewCode): Option<LegacyCode> {
    match c
    case SettingsRead => Some(ConfigManage)
    case SettingsUpdate => Some(ConfigManage)
    case GuestRead => Some(GuestView)
    case GuestUpdate => Some(GuestEdit)
    case GuestTagsManage => Some(GuestTags)
    case ReservationRead => Some(ReservationCreate)
    case ReservationUpdate => Some(ReservationCreate)
    case ReservationCancel => Some(ReservationCreate)
    case ReservationMove => Some(ReservationRoomMove)
    case ReservationProhibitionOverride => Some(CheckinOverride)
    case RoomRead => Some(OldBlockCreate)
    case RoomBlockCreate => Some(OldBlockCreate)
    case RoomBlockRelease => Some(OldBlockRelease)
    case RoomStatusUpdate => Some(RoomCleaningStatus)
    case CheckoutPerform => Some(CheckinPerform)
    case StockRead => Some(StockOperate)
    case StockMovement => Some(StockOperate)
    case StockAdmin => Some(StockOperate)
    case LaundryRead => Some(LaundryManageVendors)
    case LaundryVendorManage => Some(LaundryManageVendors)
    case LaundryPriceManage => Some(LaundryManageVendors)
    case LaundryMovement => Some(LaundryOperateRemitos)
    case LaundryRemitoManage => Some(LaundryOperateRemitos)
    case _ => None
  }

  lemma TargetsAreSplitFrom(l: LegacyCode, c: NewCode)
    requires c in Targets(l)
    ensures Source(c) == Some(l) || (c == LaundryRead && l == LaundryOperateRemitos)
  {
  }

  lemma SplitsAreTargets(c: NewCode)
    ensures Source(c).Some? ==> c in Targets(Source(c).value)
  {
    if Source(c).Some? {
      var i := match c
        case SettingsUpdate => 1 case ReservationUpdate => 1 case ReservationCancel => 2 case RoomBlockCreate => 1
        case StockMovement => 1 case StockAdmin => 2 case LaundryVendorManage => 1 case LaundryPriceManage => 2
        case LaundryMovement => 1 case LaundryRemitoManage => 2 case _ => 0;
      assert c == Targets(Source(c).value)[i];
    }
  }

  lemma TargetsIff(l: LegacyCode, c: NewCode)
    ensures c in Targets(l) <==> Source(c) == Some(l) || (c == LaundryRead && l == LaundryOperateRemitos)
  {
    SplitsAreTargets(c);
    LaundryCodesReadLaundry(l);
    if c in Targets(l) {
      TargetsAreSplitFrom(l, c);
    }
  }

  /** The decision that is copied: the row of the source, and for laundry:read without one that of the remitos. */
  function Inherited<K(==)>(rows: Rows<K>, k: K, c: NewCode): Option<bool> {
    if Source(c).None? then None
    else if c == LaundryRead && (k, Legacy(LaundryManageVendors)) !in rows then Lookup(rows, k, Legacy(LaundryOperateRemitos))
    else Lookup(rows, k, Legacy(Source(c).value))
  }

  lemma {:induction false} NothingFeeds<K>(rows: Rows<K>, k: K, c: NewCode, n: nat)
    requires n <= |LEGACY| && Source(c).None?
    ensures Fed(rows, k, New(c), n) == None
  {
    if n > 0 {
      NothingFeeds(rows, k, c, n - 1);
      TargetsIff(LEGACY[n - 1], c);
    }
  }

  lemma InheritedIsFed<K>(rows: Rows<K>, k: K, c: NewCode)
    ensures Fed(rows, k, New(c), |LEGACY|) == Inherited(rows, k, c)
  {
    if Source(c).None? {
      NothingFeeds(rows, k, c, |LEGACY|);
    } else if c == LaundryRead {
      LaundryReadIsFedByVendorsFirst(rows, k);
    } else {
      var l := Source(c).value;
      TargetsIff(l, c);
      FedBySoleFeeder(rows, k, l, c, |LEGACY|);
      EveryLegacyListed(l);
      assert LEGACY[..|LEGACY|] == LEGACY;
    }
  }

  /** What each built-in role is agreed to get where nothing was decided; any other role gets nothing. */
  lemma AgreedDecisions(role: Role, c: NewCode)
    ensures role == Owner ==> Agreed(role, c)
    ensures role == CoOwner ==> (Agreed(role, c) <==> c !in [SettingsPropertyManage, SettingsSecurityManage])
    ensures role == Manager ==> (Agreed(role, c) <==>
      c !in [CheckoutForce, SettingsRead, SettingsUpdate, SettingsPropertyManage, SettingsSecurityManage])
    ensures role == Receptionist ==> (Agreed(role, c) <==>
      c in [GuestRead, GuestUpdate, GuestTagsManage, GuestProhibitionRead, ReservationRead, ReservationUpdate,
            ReservationCancel, RoomRead, RoomBlockCreate, CheckoutPerform])
    ensures role == Housekeeping ==> (Agreed(role, c) <==>
      c in [RoomRead, RoomStatusUpdate, LaundryRead, LaundryMovement, LaundryRemitoManage])
    ensures role.OtherRole? ==> !Agreed(role, c)
  {
  }

  predicate IsBuiltIn(role: Role) {
    !role.OtherRole?
  }

  lemma BuiltInRolesAreListed(role: Role)
    ensures role in ROLES <==> IsBuiltIn(role)
  {
    assert Owner == ROLES[0] && CoOwner == ROLES[1] && Manager == ROLES[2] && Receptionist == ROLES[3] && Housekeeping == ROLES[4];
  }

  /** A role's default for a narrow code after the upgrade: what was there, else what its source says, else what is agreed. */
  lemma UpgradedDefault(rows: Rows<Role>, role: Role, c: NewCode)
    ensures ExpandDefault(rows, role, New(c)) ==
      if (role, New(c)) in rows then Some(rows[(role, New(c))])
      else if !IsBuiltIn(role) then None
      else if Inherited(rows, role, c).Some? then Inherited(rows, role, c)
      else Some(Agreed(role, c))
  {
    BuiltInRolesAreListed(role);
    InheritedIsFed(rows, role, c);
  }

  /** A hotel's override of a narrow code after the upgrade: what was there, else what its source says, else none. */
  lemma UpgradedOverride<K>(rows: Rows<K>, k: K, c: NewCode)
    ensures Expand(rows, k, New(c), |LEGACY|) ==
      if (k, New(c)) in rows then Some(rows[(k, New(c))]) else Inherited(rows, k, c)
  {
    InheritedIsFed(rows, k, c);
  }

  /** No other row is added or changed. */
  lemma UpgradeLeavesOthers(defaults: Rows<Role>, overrides: Rows<Place>, role: Role, place: Place, c: Code)
    requires !c.New?
    ensures ExpandDefault(defaults, role, c) == Lookup(defaults, role, c)
    ensures Expand(overrides, place, c, |LEGACY|) == Lookup(overrides, place, c)
  {
  }
}
