/** The lists of the two tenant key migrations: parent keys and composite references, as the migrations name them. */
module TenantCatalog {
  datatype Table =
    | RoomCategories | Rooms | Guests | Companies | SellableProducts | RatePlans | TaxPolicies | Reservations
    | Transactions | CashSessions | CashCloseReports | StockItems | StockLocations | PaymentLinks | Payments
    | PaymentProofs | PaymentProofBlobs | ProductRoomCompatibility | RatePlanPrices | TaxRules | CashMovements
    | CashCustodyHandoffs | StockMovements | GuestTags | FactReservationDaily | FactRoomOccupancyDaily
    | AiAssistantSessions | AllocationPolicyProfiles | AllocationPolicyVersions | AllocationRuns | HotelVouchers
    | LaundryBatches | ManualOverrideReasons | OtaConnections | OtaReservationLinks | OtaSyncJobs
    | ReservationAdjustments | RoomMovementGroups | Subscriptions | AiAssistantActionRuns | AiAssistantInsights
    | AiAssistantMessages | DailyRates | LlmPolicySuggestions | OtaPropertyMappings | PricePeriods
    | SubscriptionEvents | LaundryItems | OtaRoomMappings | OtaSyncEvents | RoomBlocks | RoomStateEvents
    | OtaCancellationRules | OtaCommissionRules | OtaInventoryRules | OtaPriceRules | OtaRatePlanMappings
    | SolverMetrics | AllocationAssignments | AllocationExplanations | CompanyDocuments | OtaReservationMappings
    | PendingOperationalActions | ReservationAllocationLocks | ReservationStatusHistory | RoomMoveEvents
    | WaitlistEntries | LlmFeedbackEvents | RefundRequests | VoucherRedemptions | BillingAdjustments
    | OtherTable(name: string)

  datatype Column = HotelId | Id
    | CategoryId | PrimaryRoomCategoryId | SellableProductId | RoomCategoryId | RatePlanId | TaxPolicyId | GuestId
    | RoomId | CompanyId | ReservationId | PaymentLinkId | TransactionId | ProofId | SessionId
    | SuccessorSessionId | CloseReportId | ItemId | LocationId | ProfileId | ConnectionId | SubscriptionId
    | PolicyVersionId | BatchId | JobId | AllocationRunId | SourceReservationId | LockedRoomId | MovementGroupId
    | ToRoomId | FromRoomId | PromotedReservationId | ManualOverrideReasonId | VoucherId | OriginalTransactionId
    | ResultingReservationId | OtaReservationLinkId | ReservationAdjustmentId
    | OtherColumn(name: string)

  /** The reference of child.(hotel_id, column) to parent.(hotel_id, id). */
  datatype Reference = Reference(child: Table, column: Column, parent: Table, cascade: bool)

  const CORE_TARGETS: seq<Table> := [
    RoomCategories, Rooms, Guests, Companies, SellableProducts, RatePlans, TaxPolicies, Reservations, Transactions,
    CashSessions, CashCloseReports, StockItems, StockLocations, PaymentLinks, Payments, PaymentProofs,
    PaymentProofBlobs]

  const EXTENDED_TARGETS: seq<Table> := [
    AiAssistantSessions, AllocationPolicyProfiles, AllocationPolicyVersions, AllocationRuns, HotelVouchers,
    LaundryBatches, ManualOverrideReasons, OtaConnections, OtaReservationLinks, OtaSyncJobs, ReservationAdjustments,
    RoomMovementGroups, Subscriptions]

  /** Parent keys that earlier migrations own, which the core downgrade leaves alone. */
  const PREEXISTING: set<Table> := {Reservations, PaymentLinks, Payments}

  const CORE_1: seq<Reference> := [
    Reference(Rooms, CategoryId, RoomCategories, false),
    Reference(SellableProducts, PrimaryRoomCategoryId, RoomCategories, false),
    Reference(ProductRoomCompatibility, SellableProductId, SellableProducts, true),
    Reference(ProductRoomCompatibility, RoomCategoryId, RoomCategories, true),
    Reference(RatePlans, SellableProductId, SellableProducts, true),
    Reference(RatePlanPrices, RatePlanId, RatePlans, true),
    Reference(TaxRules, TaxPolicyId, TaxPolicies, true),
    Reference(Reservations, GuestId, Guests, false),
    Reference(Reservations, RoomId, Rooms, false)]

  const CORE_2: seq<Reference> := [
    Reference(Reservations, CategoryId, RoomCategories, false),
    Reference(Reservations, CompanyId, Companies, false),
    Reference(Reservations, SellableProductId, SellableProducts, false),
    Reference(Reservations, RatePlanId, RatePlans, false),
    Reference(Reservations, TaxPolicyId, TaxPolicies, false),
    Reference(Transactions, ReservationId, Reservations, true),
    Reference(Payments, PaymentLinkId, PaymentLinks, false),
    Reference(PaymentProofs, TransactionId, Transactions, false),
    Reference(PaymentProofBlobs, ProofId, PaymentProofs, true)]

  const CORE_3: seq<Reference> := [
    Reference(CashMovements, SessionId, CashSessions, true),
    Reference(CashMovements, ReservationId, Reservations, false),
    Reference(CashMovements, TransactionId, Transactions, false),
    Reference(CashCloseReports, SessionId, CashSessions, true),
    Reference(CashCloseReports, SuccessorSessionId, CashSessions, false),
    Reference(CashCustodyHandoffs, CloseReportId, CashCloseReports, true),
    Reference(StockMovements, ItemId, StockItems, true),
    Reference(StockMovements, LocationId, StockLocations, false),
    Reference(StockMovements, ReservationId, Reservations, false)]

  const CORE_4: seq<Reference> := [
    Reference(GuestTags, GuestId, Guests, true),
    Reference(FactReservationDaily, ReservationId, Reservations, false),
    Reference(FactReservationDaily, RoomId, Rooms, false),
    Reference(FactReservationDaily, CategoryId, RoomCategories, false),
    Reference(FactReservationDaily, CompanyId, Companies, false),
    Reference(FactRoomOccupancyDaily, RoomId, Rooms, false),
    Reference(FactRoomOccupancyDaily, CategoryId, RoomCategories, false),
    Reference(FactRoomOccupancyDaily, ReservationId, Reservations, false)]

  const CORE_REFERENCES: seq<Reference> :=
    CORE_1 + CORE_2 + CORE_3 + CORE_4

  const EXTENDED_1: seq<Reference> := [
    Reference(AiAssistantActionRuns, SessionId, AiAssistantSessions, true),
    Reference(AiAssistantInsights, SessionId, AiAssistantSessions, true),
    Reference(AiAssistantMessages, SessionId, AiAssistantSessions, true),
    Reference(AllocationPolicyVersions, ProfileId, AllocationPolicyProfiles, true),
    Reference(DailyRates, CategoryId, RoomCategories, true),
    Reference(LlmPolicySuggestions, ProfileId, AllocationPolicyProfiles, false),
    Reference(OtaPropertyMappings, ConnectionId, OtaConnections, true),
    Reference(OtaSyncJobs, ConnectionId, OtaConnections, false),
    Reference(PricePeriods, CategoryId, RoomCategories, true)]

  const EXTENDED_2: seq<Reference> := [
    Reference(SubscriptionEvents, SubscriptionId, Subscriptions, true),
    Reference(AllocationRuns, PolicyVersionId, AllocationPolicyVersions, false),
    Reference(LaundryItems, RoomId, Rooms, false),
    Reference(LaundryItems, BatchId, LaundryBatches, true),
    Reference(OtaRoomMappings, SellableProductId, SellableProducts, true),
    Reference(OtaRoomMappings, RoomCategoryId, RoomCategories, true),
    Reference(OtaRoomMappings, ConnectionId, OtaConnections, true),
    Reference(OtaSyncEvents, JobId, OtaSyncJobs, true),
    Reference(RoomBlocks, RoomId, Rooms, true)]

  const EXTENDED_3: seq<Reference> := [
    Reference(RoomStateEvents, RoomId, Rooms, false),
    Reference(OtaCancellationRules, RatePlanId, RatePlans, true),
    Reference(OtaCommissionRules, RatePlanId, RatePlans, false),
    Reference(OtaInventoryRules, RatePlanId, RatePlans, true),
    Reference(OtaPriceRules, RatePlanId, RatePlans, true),
    Reference(OtaRatePlanMappings, RatePlanId, RatePlans, true),
    Reference(OtaRatePlanMappings, ConnectionId, OtaConnections, true),
    Reference(SolverMetrics, AllocationRunId, AllocationRuns, true),
    Reference(AllocationAssignments, AllocationRunId, AllocationRuns, true)]

  const EXTENDED_4: seq<Reference> := [
    Reference(AllocationAssignments, ReservationId, Reservations, true),
    Reference(AllocationAssignments, SellableProductId, SellableProducts, false),
    Reference(AllocationAssignments, RoomId, Rooms, false),
    Reference(AllocationExplanations, ReservationId, Reservations, true),
    Reference(AllocationExplanations, AllocationRunId, AllocationRuns, true),
    Reference(CompanyDocuments, CompanyId, Companies, false),
    Reference(CompanyDocuments, ReservationId, Reservations, true),
    Reference(HotelVouchers, SourceReservationId, Reservations, false),
    Reference(HotelVouchers, GuestId, Guests, false)]

  const EXTENDED_5: seq<Reference> := [
    Reference(ManualOverrideReasons, ReservationId, Reservations, true),
    Reference(OtaReservationLinks, RatePlanId, RatePlans, false),
    Reference(OtaReservationLinks, ConnectionId, OtaConnections, false),
    Reference(OtaReservationLinks, ReservationId, Reservations, false),
    Reference(OtaReservationMappings, ReservationId, Reservations, false),
    Reference(PendingOperationalActions, ReservationId, Reservations, false),
    Reference(ReservationAllocationLocks, LockedRoomId, Rooms, false),
    Reference(ReservationAllocationLocks, ReservationId, Reservations, true),
    Reference(ReservationStatusHistory, ReservationId, Reservations, true)]

  const EXTENDED_6: seq<Reference> := [
    Reference(RoomMoveEvents, MovementGroupId, RoomMovementGroups, false),
    Reference(RoomMoveEvents, ToRoomId, Rooms, false),
    Reference(RoomMoveEvents, FromRoomId, Rooms, false),
    Reference(RoomMoveEvents, ReservationId, Reservations, true),
    Reference(WaitlistEntries, CategoryId, RoomCategories, true),
    Reference(WaitlistEntries, GuestId, Guests, true),
    Reference(WaitlistEntries, PromotedReservationId, Reservations, false),
    Reference(LlmFeedbackEvents, ReservationId, Reservations, false),
    Reference(LlmFeedbackEvents, ManualOverrideReasonId, ManualOverrideReasons, false)]

  const EXTENDED_7: seq<Reference> := [
    Reference(LlmFeedbackEvents, AllocationRunId, AllocationRuns, false),
    Reference(RefundRequests, ReservationId, Reservations, true),
    Reference(RefundRequests, VoucherId, HotelVouchers, false),
    Reference(RefundRequests, OriginalTransactionId, Transactions, false),
    Reference(ReservationAdjustments, ResultingReservationId, Reservations, false),
    Reference(ReservationAdjustments, ReservationId, Reservations, true),
    Reference(ReservationAdjustments, OtaReservationLinkId, OtaReservationLinks, false),
    Reference(VoucherRedemptions, VoucherId, HotelVouchers, true),
    Reference(VoucherRedemptions, ReservationId, Reservations, false)]

  const EXTENDED_8: seq<Reference> := [
    Reference(BillingAdjustments, ReservationAdjustmentId, ReservationAdjustments, false),
    Reference(BillingAdjustments, ReservationId, Reservations, true)]

  const EXTENDED_REFERENCES: seq<Reference> :=
    EXTENDED_1 + EXTENDED_2 + EXTENDED_3 + EXTENDED_4 + EXTENDED_5 + EXTENDED_6 + EXTENDED_7 + EXTENDED_8

  predicate IsCoreTarget(t: Table) {
    t.RoomCategories? || t.Rooms? || t.Guests? || t.Companies? || t.SellableProducts? || t.RatePlans? ||
    t.TaxPolicies? || t.Reservations? || t.Transactions? || t.CashSessions? || t.CashCloseReports? || t.StockItems? ||
    t.StockLocations? || t.PaymentLinks? || t.Payments? || t.PaymentProofs? || t.PaymentProofBlobs?
  }

  predicate IsExtendedTarget(t: Table) {
    t.AiAssistantSessions? || t.AllocationPolicyProfiles? || t.AllocationPolicyVersions? || t.AllocationRuns? ||
    t.HotelVouchers? || t.LaundryBatches? || t.ManualOverrideReasons? || t.OtaConnections? ||
    t.OtaReservationLinks? || t.OtaSyncJobs? || t.ReservationAdjustments? || t.RoomMovementGroups? || t.Subscriptions?
  }

  /** The tables that core references start from. */
  predicate IsCoreChild(t: Table) {
    t.Rooms? || t.SellableProducts? || t.ProductRoomCompatibility? || t.RatePlans? || t.RatePlanPrices? ||
    t.TaxRules? || t.Reservations? || t.Transactions? || t.Payments? || t.PaymentProofs? || t.PaymentProofBlobs? ||
    t.CashMovements? || t.CashCloseReports? || t.CashCustodyHandoffs? || t.StockMovements? || t.GuestTags? ||
    t.FactReservationDaily? || t.FactRoomOccupancyDaily?
  }

  lemma CoreTargetsListed(t: Table)
    requires IsCoreTarget(t)
    ensures t in CORE_TARGETS
  {
    assert t == CORE_TARGETS[
        match t
        case RoomCategories => 0 case Rooms => 1 case Guests => 2 case Companies => 3 case SellableProducts => 4
        case RatePlans => 5 case TaxPolicies => 6 case Reservations => 7 case Transactions => 8 case CashSessions => 9
        case CashCloseReports => 10 case StockItems => 11 case StockLocations => 12 case PaymentLinks => 13
        case Payments => 14 case PaymentProofs => 15 case PaymentProofBlobs => 16 case _ => 0];
  }

  lemma ExtendedTargetsListed(t: Table)
    requires IsExtendedTarget(t)
    ensures t in EXTENDED_TARGETS
  {
    assert t == EXTENDED_TARGETS[
        match t
        case AiAssistantSessions => 0 case AllocationPolicyProfiles => 1 case AllocationPolicyVersions => 2
        case AllocationRuns => 3 case HotelVouchers => 4 case LaundryBatches => 5 case ManualOverrideReasons => 6
        case OtaConnections => 7 case OtaReservationLinks => 8 case OtaSyncJobs => 9 case ReservationAdjustments => 10
        case RoomMovementGroups => 11 case Subscriptions => 12 case _ => 0];
  }

  /** The referring column is neither key column. */
  predicate Shaped(r: Reference) {
    r.column != HotelId && r.column != Id
  }

  /** What a delete may take along, as the delete rules of the two lists compose: the tables reached from a table. */
  predicate Takes(from: Table, to: Table) {
    match from
    case RoomCategories =>
      to.DailyRates? || to.OtaRoomMappings? || to.PricePeriods? || to.ProductRoomCompatibility? ||
      to.WaitlistEntries?
    case SellableProducts =>
      to.OtaCancellationRules? || to.OtaInventoryRules? || to.OtaPriceRules? || to.OtaRatePlanMappings? ||
      to.OtaRoomMappings? || to.ProductRoomCompatibility? || to.RatePlanPrices? || to.RatePlans?
    case RatePlans =>
      to.OtaCancellationRules? || to.OtaInventoryRules? || to.OtaPriceRules? || to.OtaRatePlanMappings? ||
      to.RatePlanPrices?
    case TaxPolicies => to.TaxRules?
    case Guests => to.GuestTags? || to.WaitlistEntries?
    case Rooms => to.RoomBlocks?
    case Reservations =>
      to.AllocationAssignments? || to.AllocationExplanations? || to.BillingAdjustments? || to.CompanyDocuments? ||
      to.ManualOverrideReasons? || to.RefundRequests? || to.ReservationAdjustments? ||
      to.ReservationAllocationLocks? || to.ReservationStatusHistory? || to.RoomMoveEvents? || to.Transactions?
    case PaymentProofs => to.PaymentProofBlobs?
    case CashSessions => to.CashCloseReports? || to.CashCustodyHandoffs? || to.CashMovements?
    case CashCloseReports => to.CashCustodyHandoffs?
    case StockItems => to.StockMovements?
    case AiAssistantSessions => to.AiAssistantActionRuns? || to.AiAssistantInsights? || to.AiAssistantMessages?
    case AllocationPolicyProfiles => to.AllocationPolicyVersions?
    case OtaConnections => to.OtaPropertyMappings? || to.OtaRatePlanMappings? || to.OtaRoomMappings?
    case Subscriptions => to.SubscriptionEvents?
    case LaundryBatches => to.LaundryItems?
    case OtaSyncJobs => to.OtaSyncEvents?
    case AllocationRuns => to.AllocationAssignments? || to.AllocationExplanations? || to.SolverMetrics?
    case HotelVouchers => to.VoucherRedemptions?
    case _ => false
  }

  /** Only two of the tables that are taken take others themselves. */
  lemma TakenAndTaking(a: Table, b: Table, c: Table)
    requires Takes(a, b) && Takes(b, c)
    ensures (a.SellableProducts? && b.RatePlans?) || (a.CashSessions? && b.CashCloseReports?)
  {
    if !b.RatePlans? && !b.CashCloseReports? {
      TakersAreNotTaken(a, b);
    }
  }

  predicate IsTaker(t: Table) {
    t.RoomCategories? || t.SellableProducts? || t.TaxPolicies? || t.Guests? || t.Rooms? || t.Reservations? ||
    t.PaymentProofs? || t.CashSessions? || t.StockItems? || t.AiAssistantSessions? || t.AllocationPolicyProfiles? ||
    t.OtaConnections? || t.Subscriptions? || t.LaundryBatches? || t.OtaSyncJobs? || t.AllocationRuns? || t.HotelVouchers?
  }

  lemma TakersAreNotTaken(a: Table, b: Table)
    requires Takes(a, b)
    ensures !IsTaker(b)
  {
  }

  lemma TakesIsTransitive(a: Table, b: Table, c: Table)
    requires Takes(a, b) && Takes(b, c)
    ensures Takes(a, c)
  {
    TakenAndTaking(a, b, c);
  }

  /** A cascading reference is among what its parent takes. */
  predicate RuleIsKnown(r: Reference) {
    r.cascade ==> Takes(r.parent, r.child)
  }

  predicate IsCoreReference(r: Reference) {
    IsCoreTarget(r.parent) && Shaped(r) && IsCoreChild(r.child) && RuleIsKnown(r)
  }

  predicate IsExtendedReference(r: Reference) {
    (IsCoreTarget(r.parent) || IsExtendedTarget(r.parent)) && Shaped(r) && !IsCoreChild(r.child) && RuleIsKnown(r)
  }

  lemma CoreIsClassified(r: Reference)
    requires r in CORE_1 || r in CORE_2 || r in CORE_3 || r in CORE_4
    ensures IsCoreReference(r)
  {
  }

  // The extended list is gone through in parts, each within reach of one check.

  lemma ExtendedPart1(r: Reference)
    requires r in EXTENDED_1
    ensures IsExtendedReference(r)
  {
  }

  lemma ExtendedPart2(r: Reference)
    requires r in EXTENDED_2
    ensures IsExtendedReference(r)
  {
  }

  lemma ExtendedPart3(r: Reference)
    requires r in EXTENDED_3
    ensures IsExtendedReference(r)
  {
  }

  lemma ExtendedPart4(r: Reference)
    requires r in EXTENDED_4
    ensures IsExtendedReference(r)
  {
  }

  lemma ExtendedPart5(r: Reference)
    requires r in EXTENDED_5
    ensures IsExtendedReference(r)
  {
  }

  lemma ExtendedPart6(r: Reference)
    requires r in EXTENDED_6
    ensures IsExtendedReference(r)
  {
  }

  lemma ExtendedPart7(r: Reference)
    requires r in EXTENDED_7 || r in EXTENDED_8
    ensures IsExtendedReference(r)
  {
  }

  /** Each core reference finds its parent key in the core list. */
  lemma CoreParentsAreKeyed(r: Reference)
    requires r in CORE_REFERENCES
    ensures r.parent in CORE_TARGETS && IsCoreReference(r)
  {
    CoreIsClassified(r);
    CoreTargetsListed(r.parent);
  }

  /** Each extended reference finds its parent key in one of the two lists. */
  lemma ExtendedParentsAreKeyed(r: Reference)
    requires r in EXTENDED_REFERENCES
    ensures r.parent in CORE_TARGETS + EXTENDED_TARGETS && IsExtendedReference(r)
  {
    if r in EXTENDED_1 { ExtendedPart1(r); }
    if r in EXTENDED_2 { ExtendedPart2(r); }
    if r in EXTENDED_3 { ExtendedPart3(r); }
    if r in EXTENDED_4 { ExtendedPart4(r); }
    if r in EXTENDED_5 { ExtendedPart5(r); }
    if r in EXTENDED_6 { ExtendedPart6(r); }
    if r in EXTENDED_7 || r in EXTENDED_8 { ExtendedPart7(r); }
    if IsCoreTarget(r.parent) { CoreTargetsListed(r.parent); } else { ExtendedTargetsListed(r.parent); }
  }

  /** The extended migration needs the core one: some of its parents have no key of their own. */
  lemma ExtendedAloneLacksKeys()
    ensures EXTENDED_1[4] in EXTENDED_REFERENCES && EXTENDED_1[4].parent !in EXTENDED_TARGETS
  {
    assert EXTENDED_1[4] in EXTENDED_1;
    assert forall t | t in EXTENDED_TARGETS :: IsExtendedTarget(t);
  }

  predicate DisjointTargets(a: seq<Table>, b: seq<Table>) {
    forall t | t in a :: t !in b
  }

  predicate DisjointChildren(a: seq<Reference>, b: seq<Reference>) {
    forall q, r | q in a && r in b :: q.child != r.child
  }

  lemma ListedCoreTarget(t: Table)
    requires t in CORE_TARGETS
    ensures IsCoreTarget(t) && !IsExtendedTarget(t)
  {
  }

  lemma ListedExtendedTarget(t: Table)
    requires t in EXTENDED_TARGETS
    ensures IsExtendedTarget(t)
  {
  }

  /** No table is keyed by both migrations. */
  lemma TargetsAreDisjoint()
    ensures DisjointTargets(CORE_TARGETS, EXTENDED_TARGETS)
  {
    forall t | t in CORE_TARGETS ensures t !in EXTENDED_TARGETS {
      ListedCoreTarget(t);
      if t in EXTENDED_TARGETS { ListedExtendedTarget(t); }
    }
  }

  predicate AllCoreChildren(a: seq<Reference>) {
    forall r | r in a :: IsCoreChild(r.child)
  }

  predicate NoCoreChildren(a: seq<Reference>) {
    forall r | r in a :: !IsCoreChild(r.child)
  }

  lemma CoreChildren()
    ensures AllCoreChildren(CORE_REFERENCES)
  {
    forall r | r in CORE_REFERENCES ensures IsCoreChild(r.child) {
      CoreParentsAreKeyed(r);
    }
  }

  lemma ExtendedChildren()
    ensures NoCoreChildren(EXTENDED_REFERENCES)
  {
    forall r | r in EXTENDED_REFERENCES ensures !IsCoreChild(r.child) {
      ExtendedParentsAreKeyed(r);
    }
  }

  lemma DifferentChildren(a: seq<Reference>, b: seq<Reference>)
    requires AllCoreChildren(a) && NoCoreChildren(b)
    ensures DisjointChildren(a, b)
  {
  }

  /** No table has references in both lists. */
  lemma ChildrenAreDisjoint()
    ensures DisjointChildren(CORE_REFERENCES, EXTENDED_REFERENCES)
  {
    CoreChildren();
    ExtendedChildren();
    DifferentChildren(CORE_REFERENCES, EXTENDED_REFERENCES);
  }
}
