# Hotel PMS: verified models of its data migrations and protocols

This project models the parts of the hotel management system where data moves,
where two programs have to agree, or where transactions run side by side, and
proves what those parts are for. Tables are maps and sequences of rows, an
object that the code updates in place is a class whose methods are proved
against relations on its old and new contents, and concurrent behaviour is a
state machine over its steps.

| files | subject |
|---|---|
| LinenTables, LinenSplit, LinenProofs, LinenRoundTrip, LinenRenaming, LinenReversal, LinenRows | the split of linen out of the general stock, and its reversal |
| OtaBackfill, OtaInterleaving | the backfill of legacy OTA credits, alone and against payments and operators |
| EvidenceCodec, EvidenceToken, EvidenceConditions, EvidenceAgreement | the provider evidence token: codec, producer, consumer |
| QaUpsert, QaRows | the idempotent, isolated upsert of the QA hotel |
| RbacCatalog, Rbac, RbacRows, RbacTrip, RbacEffective | the permission split and its deny-wins contraction |
| SessionEvents, SessionTransactions, SessionIdentities | realtime signals under savepoints, and when they are exact |
| SelfHeal, SelfHealRows | the schema self-heal at startup |
| Retention | retention purge, legal holds and the guarded downgrade |
| TenantCatalog, TenantKeys, TenantIsolation, TenantDeletes | tenant composite keys, reference chains and cascades |
| ExportQueue | the XLSX export queue and its shutdown |
| RepairRange | the scope of the analytics repair |
| Wrappers | Option, Result, the database's free choices and lower case |

The files named Rows, Conditions and Deletes state the same operations a second time, in the columns of their
tables and in literal values, without the definitions that the other files share.

`dafny verify dfyconfig.toml` checks the whole project.

## What the proofs found

Where a property that the code or its comments promise holds only under a
condition, the model keeps the code as it is; a lemma gives an input that
fails, and another says exactly when the promise is met.

- Realtime signals. The listeners promise that rolled-back writes never leak.
  The queue tags a change with the innermost transaction only, so a write in a
  savepoint that was released inside an outer one is still published when the
  outer one rolls back (`ReleasedInnerWriteLeaks`). The tag is an object's
  identity, which a later savepoint may get again, and its rollback then removes a
  write that survives (`ReusedIdentityLosesWrite`). All that is known of identities
  is that open transactions have different ones. Under every such choice the signals
  are exact if no savepoint rolls back once one that had added a key was released;
  if no key is written twice, only then (`EveryIdentityIsExactIff`). With identities
  that are never used again, and no write that repeats a pending key, it is enough
  and needed that no savepoint rolls back into which such a one was released
  (`TransactionIsExactIff`).
- OTA credits. The migration's comment takes payments to keep the cached amount
  minus the ledger fixed. The current payment code recomputes the cache, which
  erases an unconfirmed legacy excess if it commits before the backfill does
  (`RecomputingPaymentErasesExcess`); otherwise the credit does not depend on the
  schedule (`ExcessSurvivesIff`). A reservation with more refunded than paid makes
  the whole backfill abort on the table's check (`BackfillExternalOtaCredits`).
- Linen split. Without linen items the vendors keep a location id that has no
  linen row, so the new constraints cannot be created on PostgreSQL
  (`VendorWithoutLinenDangles`, `LaundryRefersIff`). The order that the code was
  corrected to never meets a foreign key, and `MoveLinenFinalizingLast` says when
  the earlier one does. A deleted location that is shared comes back twice after
  a reversal (`SharedDeletedLocationIsDuplicated`), and one with an active namesake
  can be merged with it; `ReversalsRenameIff` is the exact condition. Balances by
  hotel and location name come back in every case. An active stock item created
  since under a linen item's name makes the reversal abort (`MigrateLinenDataBack`),
  and without linen items it leaves vendors at ids of the dropped table
  (`VendorLosesItsLocation`, `ReversalRestoresConstraintsIff`).
- Permissions. An earlier row for a new code can turn a denied legacy decision
  into an allowed one (`EarlierRowBroadens`); `TripBroadensIff` is the condition. The downgrade
  contracts each table for itself, so a hotel's denial of one narrow code goes with
  its row and the role's default decides (`DenialIsDeleted`, `DowngradeBroadensIff`).
- Tenant keys. The downgrade drops by name, so it also drops a constraint of a
  listed name that was there before the upgrade (`EarlierKeyIsLost`,
  `TripRestoresSchemaIff`). The migrations recognize a reference by its columns, so
  one that was there keeps its own delete rule (`InstalledRuleCascades`).
- Export queue. A join may be released and a job put before the waiter runs, so
  the sentinel is not always put into an empty queue; the job is still attempted
  (`SentinelMayFollowALateJob`, `AttemptsAreInOrder`).
- Repair range. The overlap test also finds a stay without nights strictly
  inside the window (`ZeroNightStayOverlaps`), which the table's own check
  constraint rules out; with no hotel configured the fact queries are unfiltered.

## Model

| member | source | states |
|---|---|---|
| LinenSplit.Database.CopyLocations | alembic/versions/20260727_linen_split.py:210-262 | a completed loop leaves a location map that is a bijection between the used locations and their copies, with exclusive locations keeping their ids; it aborts only by taking an id a shared copy already got |
| LinenSplit.Database.CopyMovements | alembic/versions/20260727_linen_split.py:264-288 | the linen movements, in order, with their locations looked up in the map |
| LinenSplit.Database.RepointLaundry | alembic/versions/20260727_linen_split.py:290-413 | vendors get the mapped location, prices and remito lines the same item id, and the old columns are gone; it completes if and only if keys are not enforced or every row finds its linen row |
| LinenSplit.Database.DeleteMigrated | alembic/versions/20260727_linen_split.py:321-328 | with enforced keys each delete goes through if and only if no remaining movement, vendor, price or remito line refers to what it takes; then exactly the migrated movements, the exclusive locations and the linen items are gone |
| LinenSplit.Database.MoveLinen | alembic/versions/20260727_linen_split.py:170-328 | in the order of the code no delete ever fails: the only causes of an abort are a shared location and a dangling laundry row |
| LinenSplit.Database.MoveLinenFinalizingLast | alembic/versions/20260727_linen_split.py:308-319 | in the order before the correction the deletes fail, with enforced keys, if and only if some vendor, price or remito line of the old store names what moves |
| LinenSplit.KeptMovementsStay | alembic/versions/20260727_linen_split.py:236-262 | a movement that stays in stock uses no location that the split deletes |
| LinenSplit.EarlierOrderFailsOnAnyPrice | alembic/versions/20260727_linen_split.py:308-319 | on a store that the split can complete, one price or remito line is enough for the earlier order to fail |
| LinenSplit.Database.MigrateLinenData | alembic/versions/20260727_linen_split.py:170-348 | a run that completes has done the split; with enforced keys it also leaves no laundry row dangling; it fails only with a shared location or, enforced, with a laundry row that names no linen |
| LinenRows.SplitItems | alembic/versions/20260727_linen_split.py:182-199 | row by row: a stock item is a linen item afterwards if and only if its kind is linen, stays if and only if it is not, and keeps its columns |
| LinenRows.SplitLocations | alembic/versions/20260727_linen_split.py:210-262 | a stock location is copied exactly if a vendor or a movement of a linen item names it, and gone exactly if no other movement does too |
| LinenRows.SplitAddsNoLocation | alembic/versions/20260727_linen_split.py:210-262 | every linen location is the one copy of such a stock location, and no stock location is new |
| LinenRows.SplitMovements | alembic/versions/20260727_linen_split.py:264-324 | a movement stays exactly if its item is not linen; every other is copied with its location mapped and none lost |
| LinenRows.SplitLaundry | alembic/versions/20260727_linen_split.py:290-306 | each vendor, price and remito line afterwards, column by column |
| LinenRows.BeforeSplitRows | app/models/stock.py:50-68 | what the database guarantees before the split, in the columns |
| LinenRows.NamesUniqueRows | app/models/stock.py:58-65 | what the unique indexes on active names forbid |
| LinenRows.MovementsReferRows | alembic/versions/20260727_linen_split.py:139-165 | what the foreign keys of the movements ask: an item and a location of the movement's own hotel |
| LinenRows.LaundryRefersRows | alembic/versions/20260727_linen_split.py:351-413 | what the new foreign keys of the laundry tables ask: a linen row of their own hotel |
| LinenRows.DeletesAreFreeIff | alembic/versions/20260727_linen_split.py:308-328 | which rows stand in the way of a delete |
| LinenRows.BalanceOfOneMore | app/services/stock_service.py:50-59 | which movements a balance counts: receipts and adjustments up, issues and adjustments down, of that item at that place only |
| LinenRows.NamedBalanceOfOneMore | app/services/stock_service.py:50-59 | and by hotel and name of the place |
| LinenSplit.Database.ReturnLocations | alembic/versions/20260727_linen_split.py:564-588 | each linen location is matched with an active stock row of its hotel and name, or inserted when there is none |
| LinenSplit.Database.ReturnMovements | alembic/versions/20260727_linen_split.py:590-610 | the linen movements are appended to the stock movements at the returned locations |
| LinenSplit.Database.ReturnLaundry | alembic/versions/20260727_linen_split.py:612-636 | vendors, prices and remito lines point at stock rows again |
| LinenSplit.Database.MigrateLinenDataBack | alembic/versions/20260727_linen_split.py:527-636 | the reversal completes if and only if no linen item finds its id taken or its active name in use (the index of app/models/stock.py:58-65), and then has done the reverse of each table |
| LinenRows.ItemsFitIff | app/models/stock.py:58-65 | when the linen items can join: no id is shared, and no two items that are not deleted share hotel and name |
| LinenRows.ReverseItems | alembic/versions/20260727_linen_split.py:542-562 | linen items join the stock items under their ids, without sku and of kind linen; no stock item changes |
| LinenRows.ReverseLocations | alembic/versions/20260727_linen_split.py:564-588 | a linen location comes back as a row that was there if and only if one of its hotel and name was there and not deleted, else as a new row equal to it |
| LinenRows.ReverseAddsOnlyLinenLocations | alembic/versions/20260727_linen_split.py:564-588 | no stock location goes or changes, and each new one is the row of a linen location |
| LinenRows.ReverseMovements | alembic/versions/20260727_linen_split.py:590-610 | the stock movements keep their order, and the linen movements follow in theirs with every location mapped |
| LinenRows.ReverseLaundry | alembic/versions/20260727_linen_split.py:612-636 | each vendor, price and remito line afterwards, column by column |
| LinenTables.UsedLocationsExist | alembic/versions/20260727_linen_split.py:210-235 | every location the split collects is a stock location |
| LinenProofs.TotalsSplit | alembic/versions/20260727_linen_split.py:264-328 | any signed total over the old movements is the sum of the totals over the kept and over the relocated movements |
| LinenProofs.PlacesInvert | alembic/versions/20260727_linen_split.py:210-262 | the location map is injective and total on used locations, and a copy equals its original |
| LinenProofs.SplitConservesLinen | alembic/versions/20260727_linen_split.py:189-288 | a linen item's balance at the mapped location is its old balance there, and likewise without a location |
| LinenProofs.SplitConservesStock | alembic/versions/20260727_linen_split.py:321-328 | every other item keeps its balance at every location |
| LinenProofs.SplitPartitionsMovements | alembic/versions/20260727_linen_split.py:264-328 | as multisets, the old movements are the disjoint union of the two tables' movements, up to the renaming |
| LinenProofs.SplitKeepsMovementReferences | alembic/versions/20260727_linen_split.py:189-328 | each movement of either table still has its item and location, of its own hotel |
| LinenProofs.LaundryRefersIff | alembic/versions/20260727_linen_split.py:290-348 | vendors, prices and lines point at existing linen rows if and only if prices and lines name only linen items and there is a linen item or no vendor |
| LinenProofs.VendorWithoutLinenDangles | alembic/versions/20260727_linen_split.py:329-348 | a store with one vendor and no linen item, whose split leaves the vendor dangling |
| LinenRoundTrip.TripWithoutLinenIsIdentity | alembic/versions/20260727_linen_split.py:329-348 | with no linen items, split and reversal give the store back |
| LinenRoundTrip.TripRestoresNamedBalances | alembic/versions/20260727_linen_split.py:566-610 | split and reversal restore every item's balance for each hotel and location name |
| LinenRoundTrip.TripRestoresItemsAndLines | alembic/versions/20260727_linen_split.py:542-562 | items come back with only a linen item's sku lost, prices and remito lines come back as they were |
| LinenRoundTrip.TripRestoresVendors | alembic/versions/20260727_linen_split.py:612-620 | a vendor's location comes back as a row of the same hotel and name |
| LinenRoundTrip.RecoverableTripIsRenaming | alembic/versions/20260727_linen_split.py:572-588 | if no used location is deleted while shared or while an active namesake stays, the locations come back up to an injective renaming of ids |
| LinenRoundTrip.RecoverableTripRestoresBalances | alembic/versions/20260727_linen_split.py:572-610 | then every balance comes back location by location |
| LinenRoundTrip.UnrecoverableTripIsNoRenaming | alembic/versions/20260727_linen_split.py:572-577 | a deleted used location that is shared, or whose active namesake stays in stock, is restored by no reversal |
| LinenRenaming.ActiveRowFirstMerges | alembic/versions/20260727_linen_split.py:566-588 | if linen alone uses both a deleted location and its active namesake, a reversal that takes the active row first sends both to one row |
| LinenRenaming.ReversalsRenameIff | alembic/versions/20260727_linen_split.py:564-588 | for every split store, all completed reversals give the locations back up to an injective renaming if and only if no used deleted location is shared or has an active namesake |
| LinenRoundTrip.SharedDeletedLocationIsDuplicated | alembic/versions/20260727_linen_split.py:572-588 | a store whose one shared, deleted location is two locations after the trip |
| LinenRoundTrip.ImmediateReversalNeverAborts | alembic/versions/20260727_linen_split.py:542-562 | right after a split no item id and no active item name stands in the way of the reversal |
| LinenRoundTrip.UpgradeThenDowngrade | alembic/versions/20260727_linen_split.py:49-84 | the trip on one store: only the split's own two causes keep it from completing |
| LinenReversal.SplitKeepsConstraintsIff | alembic/versions/20260727_linen_split.py:85-348 | after a split the constraints of both sets of tables are in force if and only if prices and lines named only linen and there was a linen item or no vendor |
| LinenReversal.ReversalConservesNamedBalances | alembic/versions/20260727_linen_split.py:542-610 | on any store that meets them, edited or not since the split, an item's balance by hotel and name is what stock and linen movements held together |
| LinenReversal.ReturnedItemsKeepBalances | alembic/versions/20260727_linen_split.py:542-610 | so a returned linen item has exactly its linen balance, by hotel and name and without a location |
| LinenReversal.ReversalRestoresConstraintsIff | alembic/versions/20260727_linen_split.py:527-636 | afterwards the constraints of the split's start hold again if and only if there is a linen item or each vendor's linen location id is a stock location of its hotel |
| LinenReversal.VendorLosesItsLocation | alembic/versions/20260727_linen_split.py:621-629 | a store without linen items whose vendor ends at an id that no stock location has |
| LinenReversal.Downgrade | alembic/versions/20260727_linen_split.py:426-526 | with the old foreign keys created again the downgrade completes if and only if no id or active name is taken and the vendors find their locations |
| OtaBackfill.Backfilled | alembic/versions/20260927_ota_credit_backfill.py:118-142 | credit plus new cached amount is the larger of old cache and ledger, the credit is never negative, and only a row without excess stays eligible |
| OtaBackfill.OneMoreTransaction | alembic/versions/20260927_ota_credit_backfill.py:93-97 | which transactions count: completed ones of the reservation, refunds against it; any other changes no ledger |
| OtaBackfill.BackfilledColumns | alembic/versions/20260927_ota_credit_backfill.py:66-142 | in the columns: a reservation from a provider without any sign of an external payment gets its ledger as paid and the rest of its cache as credit; every other row and column stays |
| OtaBackfill.UncompletedBackfill | alembic/versions/20260927_ota_credit_backfill.py:93-142 | with nothing completed all that was cached becomes the credit |
| OtaBackfill.BackfillAllowedIff | alembic/versions/20260927_ota_credit_backfill.py:93-142 | the run aborts exactly if a legacy reservation has refunded more than it was paid |
| OtaBackfill.EvidenceColumns | alembic/versions/20260927_ota_credit_backfill.py:151-164 | what counts as evidence of an external payment |
| OtaBackfill.BackfillSettles | alembic/versions/20260927_ota_credit_backfill.py:66-142 | a second backfill of the same rows and ledger changes nothing |
| OtaBackfill.Reservations.BackfillExternalOtaCredits | alembic/versions/20260927_ota_credit_backfill.py:51-142 | the loop completes if and only if no eligible row has a negative ledger, which the table's check refuses; then every eligible row is backfilled from its own ledger and every other row is as it was, and otherwise all rows are |
| OtaBackfill.Reservations.Downgrade | alembic/versions/20260927_ota_credit_backfill.py:151-164 | the downgrade refuses if and only if some row carries evidence of an external payment |
| OtaBackfill.BackfillBlocksDowngrade | alembic/versions/20260927_ota_credit_backfill.py:118-164 | after the backfill a row blocks the downgrade exactly when it had evidence or more cached than its ledger |
| OtaInterleaving.StepKeepsConsistent | alembic/versions/20260927_ota_credit_backfill.py:77-120 | every step keeps the locks exclusive and every pending write derived from the committed row and ledger |
| OtaInterleaving.BackfillAlone | alembic/versions/20260927_ota_credit_backfill.py:61-142 | alone and without a negative ledger the protocol can run to its end, and leaves what the loop leaves |
| OtaInterleaving.SnapshotTakesLegacyRows | alembic/versions/20260927_ota_credit_backfill.py:61-83 | the snapshot is exactly the legacy reservations, in any order |
| OtaInterleaving.AbortFreesEverything | alembic/versions/20260927_ota_credit_backfill.py:61-142 | an abort at any point gives all rows and locks back |
| OtaInterleaving.PostedIsKept | app/services/payment_service.py:1838 | a posted transaction stays with its session until it is committed or given up |
| OtaInterleaving.PaymentCommits | app/services/payment_service.py:1838 | what a payment commits is its ledger row and either the cache plus that row or the ledger summed again |
| OtaInterleaving.PaymentColumns | app/services/financial_ledger.py:172-186 | in the columns: the cache plus the amount, minus a refund, or the ledger with a confirmed credit of an imported reservation |
| OtaInterleaving.PaymentRuns | app/services/payment_service.py:1838 | a payment alone on its row can run from lock to commit, and leaves exactly its ledger row and its cache |
| OtaInterleaving.RunRemembers | alembic/versions/20260927_ota_credit_backfill.py:77-142 | over every run of the backfill, its aborts, payments and operators, each row still carries the excess it started with or was settled or recomputed, and no amount turns negative |
| OtaInterleaving.AmountsStayNonNegative | app/models/reservation.py:450-451 | over every run no paid or external amount turns negative |
| OtaInterleaving.CreditIndependentOfSchedule | alembic/versions/20260927_ota_credit_backfill.py:77-142 | the credit is a function of the first state and of whether a payment recomputed the row, and the cache equals the ledger of everything committed |
| OtaInterleaving.ExcessSurvivesIff | app/services/financial_ledger.py:172-186 | the legacy excess becomes the credit if and only if there was none or no payment recomputed the cache first |
| OtaInterleaving.SettledRowsAreLeftAlone | alembic/versions/20260927_ota_credit_backfill.py:109-115 | a row an operator settled first is not written by the backfill |
| OtaInterleaving.RerunChangesNothing | alembic/versions/20260927_ota_credit_backfill.py:61-142 | after the backfill and any further payments a second one completes and changes no row |
| OtaInterleaving.RecomputingPaymentErasesExcess | app/services/payment_service.py:1838 | one recomputing payment on a row with an excess of 10000 cents leaves none |
| EvidenceCodec.CleanTailClosedForm | scripts/bootstrap_cloud_qa.py:324-334 | which lengths and last symbols a canonical text can have, in closed form |
| EvidenceCodec.RoundTrip | scripts/bootstrap_cloud_qa.py:320-334 | every non-empty byte string survives encoding and decoding, and the empty one is refused |
| EvidenceCodec.AcceptsExactlyCanonical | scripts/bootstrap_cloud_qa.py:324-334 | a text is accepted if and only if it is non-empty, in the alphabet and has no unused bit set (sections 5 and 3.5 of RFC 4648) |
| EvidenceCodec.AcceptedTextIsUnique | scripts/bootstrap_cloud_qa.py:332-333 | two accepted texts of the same bytes are the same text |
| EvidenceCodec.LibraryAloneIsNotInjective | scripts/bootstrap_cloud_qa.py:328-333 | without the re-encoding test two texts would decode to one byte |
| EvidenceAgreement.IsolationSurvives | scripts/bootstrap_cloud_qa.py:282-313 | the isolation fields written for an accepted contract are accepted again as the same contract, in both modes |
| EvidenceConditions.PayloadIsBuiltIff | scripts/bootstrap_cloud_qa.py:359-533 | for every manifest: a payload is built if and only if each condition holds of the manifest's own fields, in literal texts and bounds |
| EvidenceConditions.TextOfValues | scripts/bootstrap_cloud_qa.py:396-398 | what str(value or "") gives for each kind of JSON value |
| EvidenceConditions.FormatsAre | scripts/bootstrap_cloud_qa.py:100-104 | the formats of commit ids, fingerprints, nonces, actor ids and protected branches |
| Wrappers.LowerLetters | scripts/bootstrap_cloud_qa.py:464-467 | what lower case makes of each ASCII letter |
| EvidenceConditions.PayloadSays | scripts/bootstrap_cloud_qa.py:541-594 | a payload says field by field what its manifest says, and attests nothing the manifest does not |
| EvidenceConditions.PayloadSaysLease | scripts/bootstrap_cloud_qa.py:282-313 | its lease fields are the manifest's, and absent for a preview branch |
| EvidenceConditions.PayloadIsAcceptedIff | scripts/bootstrap_cloud_qa.py:635-761 | for every payload, whoever wrote it: it is accepted if and only if each condition holds of its fields and the consumer's context |
| EvidenceConditions.EvidenceSays | scripts/bootstrap_cloud_qa.py:757-774 | the evidence says what the payload says, with the role of the connection |
| EvidenceConditions.TokenIsAcceptedIff | scripts/bootstrap_cloud_qa.py:607-634 | for every text: it is accepted if and only if it is two segments around one dot, a signature that verifies and an object that is accepted |
| EvidenceAgreement.BuiltIsWellBuilt | scripts/bootstrap_cloud_qa.py:359-594 | whatever payload the builder returns meets every check that does not depend on the consumer's context |
| EvidenceAgreement.ContextDecides | scripts/bootstrap_cloud_qa.py:623-773 | such a payload is accepted if and only if nonce, bootstrap fingerprint, time window, database identity, role, SHA and service match, and the evidence is the payload's own fields |
| EvidenceAgreement.TokenCarriesPayload | scripts/bootstrap_cloud_qa.py:607-621 | verifying an issued token gives the verdict on the payload it was issued for |
| EvidenceAgreement.ProducerAndConsumerAgree | scripts/issue_qa_provider_evidence.py:64-87 | the producer's token is accepted exactly in a context that matches, with the same fields as evidence |
| EvidenceAgreement.EvidenceReportsManifest | scripts/bootstrap_cloud_qa.py:542-594 | the evidence names the manifest's own SHA, service, environment, project and fingerprint, all distinct from production's |
| EvidenceAgreement.PayloadKeepsContract | scripts/bootstrap_cloud_qa.py:535-545 | the evidence's isolation contract is the one the manifest's lease fields stand for |
| EvidenceAgreement.AcceptedManifestIsRecent | scripts/bootstrap_cloud_qa.py:405-418 | staleness, skew and lifetime add up: accepted evidence is about a manifest at most two hours old |
| EvidenceAgreement.ManifestIsBuiltIff | scripts/bootstrap_cloud_qa.py:282-594 | for well-formed inputs the producer issues if and only if the lease fields fit the mode: none for a preview branch, a strong lease on this commit and branch for the dedicated project |
| EvidenceAgreement.BothModesIssue | scripts/bootstrap_cloud_qa.py:282-594 | a payload is issued in each mode |
| QaUpsert.Store.FindOrAddHotel | scripts/bootstrap_cloud_qa.py:997-1037 | the run works on the owner's own tagged hotel or on a new one with the next id, and refuses only what no hotel could make acceptable |
| QaUpsert.Store.UpsertUser | scripts/bootstrap_cloud_qa.py:1042-1065 | a persona's account is created or updated, refused exactly when it belongs to another hotel |
| QaUpsert.Store.UpsertMembership | scripts/bootstrap_cloud_qa.py:1067-1077 | the persona's membership of the hotel is created or updated, no other one is |
| QaUpsert.UsersCompose | scripts/bootstrap_cloud_qa.py:1041-1065 | a further turn of the persona loop extends what the earlier ones did to the users |
| QaUpsert.MembershipsCompose | scripts/bootstrap_cloud_qa.py:1067-1077 | and to the memberships |
| QaUpsert.Store.UpsertQaData | scripts/bootstrap_cloud_qa.py:981-1130 | the whole new state of an accepted run, row by row; a refusal means that the database was not acceptable |
| QaUpsert.Store.BootstrapDatabase | scripts/bootstrap_cloud_qa.py:1133-1143 | a run succeeds if and only if the database it finds is acceptable, and a refusal leaves every table as it was |
| QaRows.AcceptedIff | scripts/bootstrap_cloud_qa.py:997-1055 | in the columns: accepted exactly if the only hotel of the owner's address, or the next id, is unmarked or marked with this run, and no persona's account belongs to another hotel |
| QaRows.ConsistentIff | scripts/bootstrap_cloud_qa.py:997-1055 | what the database guarantees: one account an address, memberships of existing accounts and hotels |
| QaRows.SmallConfigsAreGoodIff | scripts/bootstrap_cloud_qa.py:997 | what a configuration has to be |
| QaRows.HotelColumns | scripts/bootstrap_cloud_qa.py:1012-1037 | the hotel afterwards, column by column |
| QaRows.AccountColumns | scripts/bootstrap_cloud_qa.py:1042-1065 | a persona's account afterwards: active, verified, of its role, its old hash kept if it verifies |
| QaRows.AccountExists | scripts/bootstrap_cloud_qa.py:1042-1047 | there is such an account, and it is new exactly if the address was |
| QaRows.MembershipColumns | scripts/bootstrap_cloud_qa.py:1067-1077 | its membership of the hotel afterwards |
| QaRows.OtherMembershipsStay | scripts/bootstrap_cloud_qa.py:1067-1077 | no other membership is added, changed or removed |
| QaRows.SubscriptionAndOnboardingColumns | scripts/bootstrap_cloud_qa.py:1079-1123 | subscription and onboarding afterwards, the latter only if there was none |
| QaUpsert.EachPersonaHasOneMembership | scripts/bootstrap_cloud_qa.py:1041-1077 | afterwards each persona has one account that can log in, and its only membership is an active one of the tagged hotel |
| QaUpsert.OtherHotelsAreUntouched | scripts/bootstrap_cloud_qa.py:981-1130 | no row of another hotel and no other person's account is written, created or deleted |
| QaUpsert.RerunIsAccepted | scripts/bootstrap_cloud_qa.py:998-1006 | what a run leaves is acceptable to the same run again |
| QaUpsert.RerunChangesNothing | scripts/bootstrap_cloud_qa.py:1089-1123 | a rerun with onboarding edited in between changes nothing at all |
| QaUpsert.BootstrapTwice | scripts/bootstrap_cloud_qa.py:981-1143 | a second bootstrap creates no user and no membership and keeps the edited onboarding |
| RbacCatalog.OnlyLaundryReadIsShared | alembic/versions/20260813_rbac_user_overrides.py:56-71 | no new code has two legacy feeders but laundry:read |
| Rbac.FillTargets | alembic/versions/20260813_rbac_user_overrides.py:92-107 | missing target rows get the decision, existing ones stay |
| Rbac.CopySplit | alembic/versions/20260813_rbac_user_overrides.py:165-198 | one split's rows are copied to the targets still missing, whatever the row order |
| Rbac.ContractSplit | alembic/versions/20260813_rbac_user_overrides.py:277-298 | an existing legacy row with target rows becomes allowed only if all of them are; no other row changes |
| Rbac.ContractLegacyRows | alembic/versions/20260813_rbac_user_overrides.py:276-298 | the loop over the splits contracts every legacy row from the target rows it found |
| Rbac.AddAgreed | alembic/versions/20260813_rbac_user_overrides.py:149-161 | a role's missing new codes get the agreed decision |
| Rbac.Database.BackfillDefaults | alembic/versions/20260813_rbac_user_overrides.py:110-161 | each listed role's defaults: existing row, else first feeder, else agreed addition; other roles stay |
| Rbac.Database.CopyRoleOverrides | alembic/versions/20260813_rbac_user_overrides.py:164-198 | each hotel and role: existing row, else first feeder |
| Rbac.Database.Upgrade | alembic/versions/20260813_rbac_user_overrides.py:201-205 | catalogue, defaults and overrides after the upgrade; rows keep naming catalogued codes |
| RbacRows.UpgradedDefault | alembic/versions/20260813_rbac_user_overrides.py:56-161 | a role's default for a narrow code after the upgrade: what was there, else what the code it was split from says, else what is agreed |
| RbacRows.UpgradedOverride | alembic/versions/20260813_rbac_user_overrides.py:164-198 | a hotel's override after the upgrade: what was there, else what the code it was split from says |
| RbacRows.UpgradeLeavesOthers | alembic/versions/20260813_rbac_user_overrides.py:110-198 | no row of another code is added or changed |
| RbacRows.TargetsIff | alembic/versions/20260813_rbac_user_overrides.py:56-71 | which wide code each narrow code is split from, and that laundry:read alone has two |
| RbacRows.AgreedDecisions | alembic/versions/20260813_rbac_user_overrides.py:125-152 | what each built-in role is agreed to get |
| Rbac.Database.Downgrade | alembic/versions/20260813_rbac_user_overrides.py:301-325 | legacy rows contracted, all rows of new codes removed, rows keep naming catalogued codes |
| RbacTrip.FedBySoleFeeder | alembic/versions/20260813_rbac_user_overrides.py:110-127 | in loop order, a code with one feeder is filled from that feeder |
| RbacTrip.LaundryReadIsFedByVendorsFirst | alembic/versions/20260813_rbac_user_overrides.py:69-70 | laundry:read is filled from laundry:manage_vendors, and from laundry:operate_remitos only without it |
| RbacTrip.ExpandClosedForm | alembic/versions/20260813_rbac_user_overrides.py:110-198 | the upgrade's value of a target, without the loop |
| RbacTrip.DenyWins | alembic/versions/20260813_rbac_user_overrides.py:276-325 | after any edits a contracted legacy row is allowed if and only if no present target is denied, new codes are gone, and every other row is unchanged |
| RbacTrip.TripDecision | alembic/versions/20260813_rbac_user_overrides.py:110-325 | a legacy decision after the trip is the conjunction of what its targets were given |
| RbacTrip.TripBroadensIff | alembic/versions/20260813_rbac_user_overrides.py:110-325 | exactly when the trip turns a denied decision into an allowed one |
| RbacTrip.TripNeverBroadens | alembic/versions/20260813_rbac_user_overrides.py:302-304 | without earlier rows for the new codes no denied decision is broadened |
| RbacTrip.TripRestores | alembic/versions/20260813_rbac_user_overrides.py:56-71 | without earlier rows every decision comes back, but laundry:operate_remitos is joined with laundry:manage_vendors where both exist |
| RbacTrip.TripIsIdentityIff | alembic/versions/20260813_rbac_user_overrides.py:201-325 | all rows of a key come back if and only if it had no earlier new rows and the two laundry decisions do not disagree |
| RbacTrip.EarlierRowBroadens | alembic/versions/20260813_rbac_user_overrides.py:92-107 | a denied guest:edit with an earlier allowed guest:update comes back allowed |
| RbacTrip.UpgradeThenDowngrade | alembic/versions/20260813_rbac_user_overrides.py:201-325 | the trip on the tables: never broader, and the identity on every row of a hotel or of a listed role where the condition holds |
| RbacEffective.DowngradeAllowsIff | alembic/versions/20260813_rbac_user_overrides.py:276-325 | after any edits a wide code is effectively allowed after the downgrade exactly when its deciding row, the override or else the default, contracts to allowed |
| RbacEffective.DowngradeBroadensIff | alembic/versions/20260813_rbac_user_overrides.py:302-325 | the downgrade allows a wide code with an effectively denied narrow one if and only if the deciding row contracts to allowed and some denial stands in the other table or in a missing row |
| RbacEffective.TogetherNeverBroadens | alembic/versions/20260813_rbac_user_overrides.py:302-304 | where overrides cover all of a split or none of it and defaults all of it, an allowed wide code had every narrow code allowed |
| RbacEffective.DenialIsDeleted | alembic/versions/20260813_rbac_user_overrides.py:276-325 | a hotel denial of stock:movement alone is deleted, and the default of stock:operate allows again |
| RbacEffective.TripOfDecisions | alembic/versions/20260813_rbac_user_overrides.py:201-325 | upgrade and downgrade without earlier new rows: no wide code that was effectively denied, override else default, is allowed afterwards |
| SessionEvents.Session.AfterCommit | app/database.py:204-220 | nothing is published at a savepoint release; at the root commit the queue is published in order and emptied |
| SessionEvents.Session.AfterFlush | app/database.py:223-229 | each change is queued once, tagged with the innermost open transaction |
| SessionEvents.Session.AfterSoftRollback | app/database.py:247-258 | a savepoint's rollback removes exactly the changes of its tag, a finished root rollback all |
| SessionEvents.Session.Commit | app/database.py:204-220 | a root commit publishes the queue, and nothing is left for the next transaction |
| SessionEvents.Session.Rollback | app/database.py:232-258 | a root rollback publishes nothing and leaves nothing for the next transaction |
| SessionEvents.ForwardStepKeepsMatch | app/services/domain_events.py:697-744 | beginning, flushing and releasing keep the queue equal to the surviving writes, each once, in order |
| SessionEvents.RollbackKeepsMatchIffClean | app/services/domain_events.py:949-966 | step by step: rolling back a savepoint keeps the match exactly when its changes are the ones with its tag |
| SessionEvents.CleanRunPublishesSurvivors | app/database.py:204-258 | over a run in which every rolled-back savepoint meets that guard, the batch is the surviving writes, in order |
| SessionEvents.SurvivorsArePublished | app/database.py:204-258 | with fresh identities no surviving write is lost, guard or not |
| SessionEvents.ExactIffAllClean | app/services/domain_events.py:949-977 | over a run with fresh identities and no repeated pending change, exactness is that guard at every rollback; the intermediate step to the condition on operations |
| SessionTransactions.CleanIffUnmarked | app/services/domain_events.py:949-977 | pruning a savepoint is right if and only if no change of a savepoint released into it is in its part of the queue |
| SessionTransactions.AllCleanIffNoReleasedWriteRollsBack | app/database.py:204-258 | the guard holds at every rollback if and only if, read off the operations alone, no savepoint rolls back into which one was released that had added a key |
| SessionTransactions.TransactionIsExactIf | app/database.py:204-258 | the fresh-identity case: if no savepoint gets the identity of an open transaction or of a pending change, and no released write rolls back, exactly the surviving writes are published, in order, whatever is written twice |
| SessionTransactions.TransactionIsExactIff | app/database.py:204-258 | the fresh-identity case, with no write that repeats a pending key: the signals are exact if and only if no released write rolls back |
| SessionIdentities.TransactionIsExact | app/services/domain_events.py:949-977 | whichever identities are used again, as long as open transactions have different ones, and whatever is written twice: if no savepoint rolls back once one that had added a key was released, exactly the surviving writes are published, in order |
| SessionIdentities.ReusedIdentityLosesKey | app/services/domain_events.py:949-977 | otherwise, even where fresh identities would do, some savepoint can get the identity of the released one, and its rollback takes a surviving key out of the batch |
| SessionIdentities.SpoilingIdentities | app/services/domain_events.py:949-977 | a transaction without repeated writes that breaks the condition has a choice of identities, distinct among open transactions, under which the signals are wrong |
| SessionIdentities.EveryIdentityIsExactIff | app/services/domain_events.py:949-977 | the condition on the operations alone: it makes the signals exact under every such choice of identities, and without repeated writes nothing weaker does |
| SessionIdentities.RunTransaction | app/database.py:204-258 | played on the session, a transaction publishes its queue at the root commit, and under that condition its surviving writes |
| SessionEvents.OnlyFlushedIsPublished | app/database.py:223-229 | nothing is published that the transaction did not flush |
| SessionEvents.ReleasedInnerWriteLeaks | app/services/domain_events.py:969-977 | a write in a savepoint released inside a rolled-back one is still published |
| SessionEvents.ReusedIdentityLosesWrite | app/services/domain_events.py:969-977 | a surviving write is lost if a later savepoint gets the same identity and rolls back |
| SelfHeal.BooleanDefaultsAgree | app/database.py:338-382 | a recognised boolean default gives added and backfilled cells the same value |
| SelfHeal.BooleanSpellings | app/database.py:340-345 | a default reads alike in any case, in quotes and in space around them, and is a boolean exactly when it is one of the six spellings |
| SelfHeal.SyncTable | app/database.py:451-507 | missing columns come in nullable with the default's value or NULL, nothing that was there changes |
| SelfHeal.FillTable | app/database.py:408-436 | NULLs of the columns that the repair fills get the fill value, nothing else changes |
| SelfHeal.Database.SyncMissingColumns | app/database.py:439-507 | the first pass on each readable table of the model, and no other table |
| SelfHeal.Database.BackfillNotNullNulls | app/database.py:385-436 | the second pass on each readable table of the model, and no other table |
| SelfHeal.PassesAreAdditive | app/database.py:439-449 | no column is altered, only the model's are added, and no cell but a NULL one changes, to the model's fill value |
| SelfHeal.PassesReachGoal | app/database.py:385-436 | a NOT NULL model column with a known fill value is there without NULLs if and only if the statements it needed went through |
| SelfHeal.SecondRunChangesNothing | app/database.py:385-507 | after a run without failures a second one changes nothing, whatever its statements would do |
| SelfHeal.Database.Heal | app/database.py:561-565 | both passes in order: additive, goal reached exactly where the statements went through |
| SelfHealRows.MissingColumn | app/database.py:451-507 | a missing column is there afterwards exactly if one of its statements went through, nullable, with its default, its fill value or NULL in each row |
| SelfHealRows.PresentColumn | app/database.py:385-436 | a cell of a column that was there changes exactly if it is NULL, the model wants a value and the table takes NULL |
| SelfHealRows.OtherColumn | app/database.py:439-507 | columns that are not the model's are left alone |
| SelfHealRows.FillValues | app/database.py:351-382 | the value for NULLs: the model's scalar, nothing for a callable, else the server default read as a boolean or bare |
| SelfHealRows.RenderedDefaults | app/database.py:328-348 | the default of an added column |
| SelfHealRows.SpacesAndQuotes | app/database.py:341-342 | what is stripped from a default |
| SelfHealRows.WellFormedIff | app/database.py:385-396 | what a table is before: its columns in every row, a value in each that does not take NULL |
| SelfHealRows.SmallModelsAreGoodIff | app/database.py:398 | what a model is: distinct tables of distinct columns |
| SelfHeal.HealTwice | app/database.py:561-565 | two startups leave what the first one left |
| Retention.Forms.Purge | alembic/versions/20260926_legal_retention_holds.py:169-197 | in the columns: a record stays for 90 days, and beyond them exactly under a hold that is not released and has no end or a later one; rate-limit events of the forms stay 15 minutes |
| Retention.Forms.Downgrade | alembic/versions/20260926_legal_retention_holds.py:284-303 | refused if and only if some hold is not released and has no end or a later one; a refusal changes nothing |
| Retention.StepKeepsLocks | app/master_admin/privacy_retention.py:130-134 | hold writers, purges and a downgrade never hold conflicting table locks, and the downgrade is final |
| Retention.StepKeepsPromise | alembic/versions/20260926_legal_retention_holds.py:130-187 | every step keeps a record for each effective hold, although the purge reads its clock before its lock |
| Retention.StepKeepsKnowledge | app/master_admin/privacy_retention.py:292-362 | what a session checked under its lock still holds when it commits |
| Retention.RemovedRecordsWereFree | alembic/versions/20260926_legal_retention_holds.py:172-187 | only a purge removes a record, one that is more than 90 days old and under no effective hold |
| Retention.PurgeLeavesOnlyHeld | alembic/versions/20260926_legal_retention_holds.py:169-187 | a committed purge leaves no unheld record older than 90 days at its clock reading |
| Retention.EffectiveHoldsEndOnlyBy | app/master_admin/privacy_retention.py:320-356 | an effective hold ends by its own end or a release, never by another placement, a purge or the downgrade |
| Retention.RunIsSafe | alembic/versions/20260926_legal_retention_holds.py:130-303 | in every interleaving, in the columns: a record under a live hold stays; what a purge removes is over 90 days old and under none; a purge leaves nothing else so old; and a live hold ends by time or its own release alone |
| Retention.HoldsWereAskedFor | app/master_admin/privacy_retention.py:292-335 | every hold of a run was asked for, for that record and with that end, when the end was still to come |
| Retention.RecordsWereSubmitted | alembic/versions/20260926_legal_retention_holds.py:172-187 | a record's time is that of a submission; only a lead is submitted again |
| Retention.CommitsAreInForce | app/master_admin/privacy_retention.py:292-362 | a placed hold protects an existing record at once until its end, a released one no more |
| Retention.PlaceAlone | app/master_admin/privacy_retention.py:292-335 | undisturbed, a hold is placed as asked |
| Retention.ReleaseAlone | app/master_admin/privacy_retention.py:377-470 | undisturbed, an unreleased hold is released |
| Retention.OnlyReleaseReleases | app/master_admin/privacy_retention.py:377-470 | only a release marks a hold released, and only once |
| Retention.PurgeAlone | alembic/versions/20260926_legal_retention_holds.py:155-197 | undisturbed, the locked purge does what its one function does |
| Retention.UnguardedPurgeAlone | alembic/versions/20260926_legal_retention_holds.py:155-197 | after the downgrade it goes on without holds |
| Retention.DropAlone | alembic/versions/20260926_legal_retention_holds.py:284-303 | undisturbed, the downgrade drops the holds if none is live |
| Retention.SessionsGoInOrder | app/master_admin/privacy_retention.py:130-134 | a step takes one session one phase further, or starts or ends one |
| Retention.WritersOfOtherRowsGoOn | app/master_admin/privacy_retention.py:130-134 | writers of different records do not wait for each other |
| Retention.LeadIsRenewed | alembic/versions/20260926_legal_retention_holds.py:180-187 | a lead that no session has locked can be submitted again |
| Retention.WaitersFindTheTable | alembic/versions/20260926_legal_retention_holds.py:284-303 | after the downgrade nobody gets a lock on the hold table |
| TenantCatalog.CoreParentsAreKeyed | alembic/versions/20260724_core_tenant_composite_fks.py:23-80 | every core reference's parent has its key in the core list |
| TenantCatalog.ExtendedParentsAreKeyed | alembic/versions/20260724_extended_tenant_composite_fks.py:33-119 | every extended reference's parent has its key in one of the two lists |
| TenantCatalog.ExtendedAloneLacksKeys | alembic/versions/20260724_extended_tenant_composite_fks.py:58 | the extended list alone does not key its parents |
| TenantKeys.Schema.Upgrade | alembic/versions/20260724_core_tenant_composite_fks.py:109-130 | completes if and only if every missing reference has a parent key and data that meets it; then exactly the missing keys and references are added |
| TenantDeletes.UpgradeAdds | alembic/versions/20260724_core_tenant_composite_fks.py:114-130 | in the columns: every added reference has a listed name, columns and delete rule, none is added beside one on its columns, and likewise the keys |
| TenantIsolation.DataMeetsRows | alembic/versions/20260724_core_tenant_composite_fks.py:114-130 | what the data must meet, row by row: a parent of the own hotel for every value |
| TenantIsolation.EnforcedRows | alembic/versions/20260724_core_tenant_composite_fks.py:44-80 | which constraints the database enforces of its own, and what they ask |
| TenantKeys.Schema.Downgrade | alembic/versions/20260724_core_tenant_composite_fks.py:133-155 | completes if and only if no reference outside the list points at the key of a table whose listed constraint is to go; then exactly the references of listed name and shape and the keys of listed name are gone, and every reference left has its key |
| TenantIsolation.UpgradeInstalls | alembic/versions/20260724_core_tenant_composite_fks.py:114-130 | afterwards every listed key and reference is there, under its own name or another |
| TenantIsolation.UpgradeAgain | alembic/versions/20260724_core_tenant_composite_fks.py:109-130 | a second upgrade completes and changes nothing |
| TenantIsolation.UpgradeBoth | alembic/versions/20260724_extended_tenant_composite_fks.py:139-160 | core, then extended: each completes exactly when the data meets its references, so no parent key is ever missing |
| TenantIsolation.ExtendedAloneFails | alembic/versions/20260724_extended_tenant_composite_fks.py:28-29 | on a schema without keys the extended migration alone cannot complete |
| TenantIsolation.TripRestoresSchemaIff | alembic/versions/20260724_core_tenant_composite_fks.py:82-89 | upgrade and downgrade give the schema back if and only if no listed name was there and the kept keys were |
| TenantIsolation.UpgradeThenDowngrade | alembic/versions/20260724_core_tenant_composite_fks.py:109-155 | the downgrade after an upgrade completes exactly when the first schema does not block it, and then gives the schema back if and only if its names were free and the kept keys there |
| TenantIsolation.UpgradeKeepsBlocked | alembic/versions/20260724_core_tenant_composite_fks.py:109-155 | what an upgrade adds never blocks or unblocks its downgrade |
| TenantIsolation.TripOfBoth | alembic/versions/20260724_extended_tenant_composite_fks.py:139-183 | from free names, core and extended up and extended and core down complete exactly when the data meets both lists, and nothing of them is left |
| TenantIsolation.EarlierKeyIsLost | alembic/versions/20260724_core_tenant_composite_fks.py:151-155 | a key of a listed name that was there before is gone after the trip |
| TenantIsolation.ChainStaysInHotel | alembic/versions/20260724_core_tenant_composite_fks.py:1-9 | any chain of listed references from a row ends in its own hotel |
| TenantIsolation.CascadeIsLeast | alembic/versions/20260724_core_tenant_composite_fks.py:44-80 | the cascade of a delete, over the installed constraints and their own delete rules, is the least set closed under them |
| TenantIsolation.CascadeStaysInHotel | alembic/versions/20260724_core_tenant_composite_fks.py:44-80 | it removes rows of the deleted row's hotel only and leaves no cascading reference dangling, if every cascading constraint pairs the hotel columns or stands alone on a listed column and parent |
| TenantIsolation.InstalledSchemaIsolates | alembic/versions/20260724_extended_tenant_composite_fks.py:1-20 | both follow from the constraints being installed, under whatever name and delete rule |
| TenantIsolation.DeleteStaysInHotel | alembic/versions/20260724_extended_tenant_composite_fks.py:33-160 | once both lists are installed a delete stays in its hotel, under that condition |
| TenantDeletes.DeleteReaches | alembic/versions/20260724_core_tenant_composite_fks.py:44-80 | where the delete rules are the listed ones a delete reaches only the tables that the rules lead to |
| TenantDeletes.DeleteAfterBoth | alembic/versions/20260724_extended_tenant_composite_fks.py:50-119 | from a schema without foreign keys, after both migrations: a guest takes guest tags and waitlist entries alone, a transaction goes with its reservation only, and a reservation with nothing |
| TenantIsolation.InstalledRuleCascades | alembic/versions/20260724_core_tenant_composite_fks.py:99-106 | a constraint found in place of a listed one cascades by its own rule, which the migration does not look at |
| TenantIsolation.UnlistedCascadeCrosses | alembic/versions/20260724_core_tenant_composite_fks.py:1-9 | the condition is needed: a cascading constraint outside the lists takes a row of another hotel |
| ExportQueue.Queue.Consume | app/main.py:245-265 | the worker attempts every job up to the sentinel, in order, each once, whichever raise, and finishes each |
| ExportQueue.StepKeepsAccounts | app/main.py:245-265 | the unfinished count is queued plus in-hand, and attempts are what was taken, in order |
| ExportQueue.StepKeepsStopping | app/main.py:228-236 | there is one sentinel, put after the join, and the worker stops at it |
| ExportQueue.AttemptsAreInOrder | app/main.py:201-265 | in every run the attempts are a prefix of the jobs put before the sentinel, and all of them once the worker stopped |
| ExportQueue.JoinIsReleasedWhenEmpty | app/main.py:232 | the join is released only when everything put so far was taken and finished |
| ExportQueue.SentinelMayFollowALateJob | app/main.py:232-233 | a job put between release and sentinel is pending when the sentinel is put, and before it |
| ExportQueue.WorkerStops | app/main.py:228-265 | after the sentinel the worker alone, by its own steps and whichever jobs raise, is stopped after exactly the steps left, at most two an item and one, so the wait for it ends |
| ExportQueue.StepUsesOne | app/main.py:228-265 | after the sentinel each worker step uses up one of the steps left, and a late job adds none |
| ExportQueue.EveryDrainIsBounded | app/main.py:228-265 | in every interleaving with late jobs the worker takes at most that many steps, can go on until it has stopped, and has stopped exactly when it has taken them |
| RepairRange.IncludeRange | scripts/repair_analytics_facts.py:86-93 | widening by one span keeps the ranges covering and tight |
| RepairRange.IncludeGroups | scripts/repair_analytics_facts.py:95-115 | folding a query's minimum and maximum by hotel is folding all its rows |
| RepairRange.HotelRanges | scripts/repair_analytics_facts.py:64-120 | refused exactly for a half or backwards window or an unknown hotel; else the window for every selected hotel, or each hotel that has a date with its least range, in order |
| RepairRange.RangesAreLeast | scripts/repair_analytics_facts.py:78-120 | a hotel appears if and only if it has a night or a fact, with the least interval that covers them |
| RepairRange.RangeColumns | scripts/repair_analytics_facts.py:78-115 | a range starts and ends with a night of a reservation that is not deleted or with a fact, and covers them all |
| RepairRange.AppearsIff | scripts/repair_analytics_facts.py:78-120 | which hotels appear, in the columns |
| RepairRange.RejectedIff | scripts/repair_analytics_facts.py:64-77 | which arguments are refused |
| RepairRange.OverlapMeansNight | scripts/repair_analytics_facts.py:127-135 | the overlap test means a night in the window for stays with nights, and what it means for the others |
| RepairRange.ZeroNightStayOverlaps | scripts/repair_analytics_facts.py:127-135 | a stay without nights inside the window is found by the test |
| RepairRange.CountOverlapping | scripts/repair_analytics_facts.py:126-135 | the report counts exactly the live, uncancelled reservations with a night in the window |
| RepairRange.LeastRangeMissesNothing | scripts/repair_analytics_facts.py:95-120 | the least range contains every night of every live stay of the hotel, and each of them overlaps it |

## Left out

- LinenSplit.Database.MigrateLinenData: does not model the stock item's unit cost, the column and table DDL or row-level security; a completed reversal sets the cost to NULL like the sku.
- OtaBackfill.Reservations.BackfillExternalOtaCredits: amounts are whole cents, so the rounding of decimals is not modelled, and the role defaults that the same migration changes are left out.
- OtaInterleaving.CreditIndependentOfSchedule: transactions read what is committed (READ COMMITTED on PostgreSQL); on SQLite, without row locks, nothing is claimed. The currency test on an external credit is left out.
- EvidenceAgreement.ProducerAndConsumerAgree: signatures, hashing, JSON, URL and timestamp parsing, IDNA, the lease entropy test and the role pattern are parameters; JSON numbers are integers; lower case and digits are those of ASCII, for the actor id as for SHAs, project and branch references, hosts and roles.
- QaUpsert.Store.UpsertQaData: the plan and permission seeding that runs inside it, and the columns it never writes, are a parameter and an opaque rest; a password hash is some text that verifies.
- QaUpsert.Store.FindOrAddHotel: several hotels of one owner address make the lookup raise, which is modelled as a refusal.
- Configuration loading, the master administrator's identity, migrations run by the bootstrap and its environment handling.
- RbacEffective.DowngradeBroadensIff: is about a role at a hotel; user-level overrides, fixed decisions for single roles and the denials that other split codes fall back on are left out.
- Rbac.Database.Upgrade: the permission migration's user-level overrides table (created empty, dropped by the downgrade), its policies, and who wrote a row and when.
- SessionIdentities.EveryIdentityIsExactIff: for writes that repeat a key only the sufficient half is stated, because a key written again after its signal leaked or was lost makes the signals right again.
- SessionTransactions.TransactionIsExactIff: is about fresh identities only; TransactionIsExactIf as well.
- SessionEvents.Session.RollbackSavepoint: savepoints are taken as properly nested and the library calls the listeners in its documented order; rolling back an outer savepoint while an inner one is open is not among the operations. Delivery to Redis, the outbox and its cooldown are not part of this model.
- SelfHeal.Database.Heal: statement success, default evaluation and type rendering are answers of a server parameter; casts by the database are not modelled.
- Retention.RunIsSafe: one clock for the database and the application, as the code assumes; audit rows, authentication and the rate-limit events are outside the interleaving, and no other deleter of form records is modelled.
- TenantKeys.Schema.Downgrade: a reference counts as using every key of its columns, although the database ties it to one of them; name clashes on creation are not modelled.
- TenantIsolation.CascadeStaysInHotel: the cascading constraints of other migrations are a condition on the installed set, not enumerated; triggers are not part of this model.
- ExportQueue.Queue.Consume: cancellation of the worker or of the shutdown, and the durable job rows that the next start recovers.
- RepairRange.HotelRanges: stays belong to configured hotels, as the foreign key says; the report's other counts and the rebuild itself are left out.
- Configuration validation, routing, headers, telemetry, pool tuning and additive migrations have no property across functions and are left out.
