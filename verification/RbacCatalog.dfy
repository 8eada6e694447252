/** The permission catalogue of the role-based access migration: old codes, new codes and what each role is agreed to get. */
module RbacCatalog {
  datatype LegacyCode =
    | ConfigManage | GuestView | GuestEdit | GuestTags | ReservationCreate | ReservationRoomMove | RoomCleaningStatus
    | OldBlockCreate | OldBlockRelease | CheckinPerform | CheckinOverride | StockOperate | LaundryManageVendors
    | LaundryOperateRemitos

  datatype NewCode =
    | GuestRead | GuestUpdate | GuestTagsManage | GuestProhibitionRead | GuestProhibitionManage
    | ReservationRead | ReservationUpdate | ReservationCancel | ReservationMove | ReservationProhibitionOverride
    | RoomRead | RoomStatusUpdate | RoomBlockCreate | RoomBlockRelease | CheckoutPerform | CheckoutForce
    | StockRead | StockMovement | StockAdmin
    | LaundryRead | LaundryMovement | LaundryVendorManage | LaundryRemitoManage | LaundryPriceManage
    | RatesRead | RatesUpdate | PromotionsRead | PromotionsManage
    | SettingsRead | SettingsUpdate | SettingsPropertyManage | SettingsSecurityManage

  /** Any code outside the two lists of the migration is Other. */
  datatype Code = Legacy(legacy: LegacyCode) | New(narrow: NewCode) | Other(name: string)

  datatype Role = Owner | CoOwner | Manager | Receptionist | Housekeeping | OtherRole(name: string)

  const ROLES: seq<Role> := [Owner, CoOwner, Manager, Receptionist, Housekeeping]

  /** The order in which the migration goes through the splits. */
  const LEGACY: seq<LegacyCode> := [
    ConfigManage, GuestView, GuestEdit, GuestTags, ReservationCreate, ReservationRoomMove, RoomCleaningStatus,
    OldBlockCreate, OldBlockRelease, CheckinPerform, CheckinOverride, StockOperate, LaundryManageVendors,
    LaundryOperateRemitos]

  const NEW_PERMISSIONS: seq<NewCode> := [
    GuestRead, GuestUpdate, GuestTagsManage, GuestProhibitionRead, GuestProhibitionManage,
    ReservationRead, ReservationUpdate, ReservationCancel, ReservationMove, ReservationProhibitionOverride,
    RoomRead, RoomStatusUpdate, RoomBlockCreate, RoomBlockRelease, CheckoutPerform, CheckoutForce,
    StockRead, StockMovement, StockAdmin,
    LaundryRead, LaundryMovement, LaundryVendorManage, LaundryRemitoManage, LaundryPriceManage,
    RatesRead, RatesUpdate, PromotionsRead, PromotionsManage,
    SettingsRead, SettingsUpdate, SettingsPropertyManage, SettingsSecurityManage]

  function Targets(l: LegacyCode): seq<NewCode> {
    match l
    case ConfigManage => [SettingsRead, SettingsUpdate]
    case GuestView => [GuestRead]
    case GuestEdit => [GuestUpdate]
    case GuestTags => [GuestTagsManage]
    case ReservationCreate => [ReservationRead, ReservationUpdate, ReservationCancel]
    case ReservationRoomMove => [ReservationMove]
    case RoomCleaningStatus => [RoomStatusUpdate]
    case OldBlockCreate => [RoomRead, RoomBlockCreate]
    case OldBlockRelease => [RoomBlockRelease]
    case CheckinPerform => [CheckoutPerform]
    case CheckinOverride => [ReservationProhibitionOverride]
    case StockOperate => [StockRead, StockMovement, StockAdmin]
    case LaundryManageVendors => [LaundryRead, LaundryVendorManage, LaundryPriceManage]
    case LaundryOperateRemitos => [LaundryRead, LaundryMovement, LaundryRemitoManage]
  }

  const MANAGER: set<NewCode> := {
    GuestRead, GuestUpdate, GuestTagsManage, GuestProhibitionRead, GuestProhibitionManage, ReservationRead,
    ReservationUpdate, ReservationCancel, ReservationMove, ReservationProhibitionOverride, RoomRead, RoomStatusUpdate,
    RoomBlockCreate, RoomBlockRelease, CheckoutPerform, StockRead, StockMovement, StockAdmin, LaundryRead,
    LaundryMovement, LaundryVendorManage, LaundryRemitoManage, LaundryPriceManage, RatesRead, RatesUpdate,
    PromotionsRead, PromotionsManage}

  const RECEPTIONIST: set<NewCode> := {
    GuestRead, GuestUpdate, GuestTagsManage, GuestProhibitionRead, ReservationRead, ReservationUpdate,
    ReservationCancel, RoomRead, RoomBlockCreate, CheckoutPerform}

  const HOUSEKEEPING: set<NewCode> := {
    RoomRead, RoomStatusUpdate, LaundryRead, LaundryMovement, LaundryRemitoManage}

  /** The agreed additions for roles whose legacy rows say nothing about a new code. */
  predicate Agreed(role: Role, c: NewCode) {
    match role
    case Owner => true
    case CoOwner => c != SettingsPropertyManage && c != SettingsSecurityManage
    case Manager => c in MANAGER
    case Receptionist => c in RECEPTIONIST
    case Housekeeping => c in HOUSEKEEPING
    case OtherRole(_) => false
  }

  // ----- facts about the two lists -----

  lemma EveryLegacyListed(l: LegacyCode)
    ensures l in LEGACY
  {
    assert l == LEGACY[match l
                       case ConfigManage => 0 case GuestView => 1 case GuestEdit => 2 case GuestTags => 3
                       case ReservationCreate => 4 case ReservationRoomMove => 5 case RoomCleaningStatus => 6
                       case OldBlockCreate => 7 case OldBlockRelease => 8 case CheckinPerform => 9
                       case CheckinOverride => 10 case StockOperate => 11 case LaundryManageVendors => 12
                       case LaundryOperateRemitos => 13];
  }

  function Position(c: NewCode): nat {
    match c
    case GuestRead => 0 case GuestUpdate => 1 case GuestTagsManage => 2 case GuestProhibitionRead => 3
    case GuestProhibitionManage => 4 case ReservationRead => 5 case ReservationUpdate => 6 case ReservationCancel => 7
    case ReservationMove => 8 case ReservationProhibitionOverride => 9 case RoomRead => 10 case RoomStatusUpdate => 11
    case RoomBlockCreate => 12 case RoomBlockRelease => 13 case CheckoutPerform => 14 case CheckoutForce => 15
    case StockRead => 16 case StockMovement => 17 case StockAdmin => 18 case LaundryRead => 19
    case LaundryMovement => 20 case LaundryVendorManage => 21 case LaundryRemitoManage => 22
    case LaundryPriceManage => 23 case RatesRead => 24 case RatesUpdate => 25 case PromotionsRead => 26
    case PromotionsManage => 27 case SettingsRead => 28 case SettingsUpdate => 29
    case SettingsPropertyManage => 30 case SettingsSecurityManage => 31
  }

  lemma EveryNewListed(c: NewCode)
    ensures c in NEW_PERMISSIONS
  {
    assert c == NEW_PERMISSIONS[Position(c)];
  }

  lemma AllNewListed()
    ensures NEW_PERMISSIONS[..|NEW_PERMISSIONS|] == NEW_PERMISSIONS
    ensures forall c: NewCode :: c in NEW_PERMISSIONS
  {
    forall c: NewCode ensures c in NEW_PERMISSIONS {
      EveryNewListed(c);
    }
  }

  /** No new code is the target of two legacy codes, but for laundry:read. */
  lemma OnlyLaundryReadIsShared(a: LegacyCode, b: LegacyCode, t: NewCode)
    requires a != b && t in Targets(a) && t in Targets(b)
    ensures t == LaundryRead && a in {LaundryManageVendors, LaundryOperateRemitos}
    ensures b in {LaundryManageVendors, LaundryOperateRemitos}
  {
  }
}
