/**
 The backfill of legacy OTA credits, alone and against payments and operators
 that commit while it runs. Amounts are in cents.
 */
module OtaBackfill {
  import opened Wrappers

  /** A reservation is identified by its hotel and id. */
  type Key = int

  /** `imported`: a provider code or an external id is set. NULL amounts count as 0. */
  datatype Row = Row(imported: bool, paid: int, credit: int, reference: Option<string>,
                     confirmed: bool, everConfirmed: bool)

  datatype Txn = Txn(key: Key, amount: int, refund: bool, completed: bool)

  function Signed(t: Txn): int {
    if !t.completed then 0 else if t.refund then -t.amount else t.amount
  }

  /** The completed ledger of one reservation, net of refunds. */
  function Ledger(ledger: seq<Txn>, k: Key): int {
    if ledger == [] then 0
    else
      var last := ledger[|ledger| - 1];
      Ledger(ledger[..|ledger| - 1], k) + if last.key == k then Signed(last) else 0
  }

  lemma LedgerOfOneMore(ledger: seq<Txn>, t: Txn, k: Key)
    ensures Ledger(ledger + [t], k) == Ledger(ledger, k) + if t.key == k then Signed(t) else 0
  {
    assert (ledger + [t])[..|ledger|] == ledger;
  }

  /** Which transactions count: a completed one of this reservation, a refund against it; no other changes anything. */
  lemma OneMoreTransaction(ledger: seq<Txn>, t: Txn, k: Key)
    ensures t.key == k && t.completed && !t.refund ==> Ledger(ledger + [t], k) == Ledger(ledger, k) + t.amount
    ensures t.key == k && t.completed && t.refund ==> Ledger(ledger + [t], k) == Ledger(ledger, k) - t.amount
    ensures t.key != k || !t.completed ==> Ledger(ledger + [t], k) == Ledger(ledger, k)
    ensures Ledger([], k) == 0
  {
    LedgerOfOneMore(ledger, t, k);
  }

  /** Pending, failed and cancelled transactions leave the ledger empty. */
  lemma {:induction false} NothingCompletedIsNothing(ledger: seq<Txn>, k: Key)
    requires forall t | t in ledger :: t.key == k ==> !t.completed
    ensures Ledger(ledger, k) == 0
  {
    if ledger != [] {
      NothingCompletedIsNothing(ledger[..|ledger| - 1], k);
    }
  }

  // ----- one row -----

  predicate Eligible(r: Row) {
    r.imported && r.credit == 0 && r.reference.None? && !r.confirmed && !r.everConfirmed
  }

  function Positive(x: int): int {
    if x > 0 then x else 0
  }

  /** Money is conserved and the credit is never negative; only a row without excess stays eligible. */
  function Backfilled(r: Row, ledger: int): (b: Row)
    ensures b.credit >= 0 && b.paid == ledger && b.credit + b.paid == if r.paid > ledger then r.paid else ledger
    ensures Eligible(r) ==> (Eligible(b) <==> r.paid <= ledger)
    ensures b.reference == r.reference && b.confirmed == r.confirmed && b.everConfirmed == r.everConfirmed
  {
    r.(paid := ledger, credit := Positive(r.paid - ledger))
  }

  /** A second backfill of a row that is still eligible changes nothing. */
  lemma BackfillSettles(rows: map<Key, Row>, ledger: seq<Txn>, hasLedger: bool)
    ensures BackfillAll(BackfillAll(rows, ledger, hasLedger), ledger, hasLedger) == BackfillAll(rows, ledger, hasLedger)
  {
    var once := BackfillAll(rows, ledger, hasLedger);
    forall k | k in once ensures BackfillAll(once, ledger, hasLedger)[k] == once[k] {
      assert Eligible(once[k]) ==> Eligible(rows[k]);
    }
  }

  function BackfillAll(rows: map<Key, Row>, ledger: seq<Txn>, hasLedger: bool): map<Key, Row> {
    map k | k in rows ::
      if Eligible(rows[k]) then Backfilled(rows[k], if hasLedger then Ledger(ledger, k) else 0) else rows[k]
  }

  /** The table's checks on the two amounts. */
  predicate Allowed(r: Row) {
    r.paid >= 0 && r.credit >= 0
  }

  /** What the table lets the backfill write: no eligible row has more refunded than paid. */
  predicate BackfillAllowed(rows: map<Key, Row>, ledger: seq<Txn>, hasLedger: bool) {
    forall k | k in rows && Eligible(rows[k]) :: hasLedger ==> Ledger(ledger, k) >= 0
  }

  /** The columns that make a reservation a legacy one: from a provider, and without any sign of an external payment. */
  predicate Untouched(r: Row) {
    && r.imported && r.credit == 0 && r.reference == None
    && r.confirmed == false && r.everConfirmed == false
  }

  /**
   The whole backfill, in the columns: a legacy reservation gets its ledger as its paid amount and what was cached
   above it as its credit; every other reservation, and every other column, stays.
   */
  lemma BackfilledColumns(rows: map<Key, Row>, ledger: seq<Txn>, hasLedger: bool, k: Key)
    requires k in rows
    ensures k in BackfillAll(rows, ledger, hasLedger)
    ensures
      var before, after, sum := rows[k], BackfillAll(rows, ledger, hasLedger)[k], if hasLedger then Ledger(ledger, k) else 0;
      after == if Untouched(before)
               then before.(paid := sum, credit := if before.paid > sum then before.paid - sum else 0)
               else before
    ensures BackfillAll(rows, ledger, hasLedger).Keys == rows.Keys
  {
  }

  /** A legacy reservation with nothing completed: all that was cached becomes the credit. */
  lemma UncompletedBackfill(rows: map<Key, Row>, ledger: seq<Txn>, k: Key)
    requires k in rows && Untouched(rows[k]) && rows[k].paid >= 0
    requires forall t | t in ledger :: t.key == k ==> !t.completed
    ensures BackfillAll(rows, ledger, true)[k] == rows[k].(paid := 0, credit := rows[k].paid)
  {
    NothingCompletedIsNothing(ledger, k);
    BackfilledColumns(rows, ledger, true, k);
  }

  /** The run aborts exactly if a legacy reservation has refunded more than it was paid. */
  lemma BackfillAllowedIff(rows: map<Key, Row>, ledger: seq<Txn>)
    ensures BackfillAllowed(rows, ledger, false)
    ensures BackfillAllowed(rows, ledger, true) <==> !exists k | k in rows && Untouched(rows[k]) :: Ledger(ledger, k) < 0
  {
  }

  predicate Evidence(r: Row) {
    r.credit > 0 || r.reference.Some? || r.confirmed || r.everConfirmed
  }

  // ----- the migration alone, as the loop it is -----

  /** Done but for `todo`, and the table refused nothing. */
  predicate PartlyBackfilled(before: map<Key, Row>, rows: map<Key, Row>, todo: set<Key>, ledger: seq<Txn>, hasLedger: bool) {
    && rows.Keys == before.Keys && todo <= rows.Keys
    && (forall k | k in todo :: rows[k] == before[k] && Eligible(rows[k]))
    && (forall k | k in rows && k !in todo ::
          if Eligible(before[k]) then
            (hasLedger ==> Ledger(ledger, k) >= 0)
            && rows[k] == Backfilled(before[k], if hasLedger then Ledger(ledger, k) else 0)
          else rows[k] == before[k])
  }

  lemma OneMoreBackfilled(before: map<Key, Row>, rows: map<Key, Row>, todo: set<Key>, ledger: seq<Txn>, hasLedger: bool, k: Key)
    requires PartlyBackfilled(before, rows, todo, ledger, hasLedger) && k in todo && (hasLedger ==> Ledger(ledger, k) >= 0)
    ensures PartlyBackfilled(before, rows[k := Backfilled(rows[k], if hasLedger then Ledger(ledger, k) else 0)], todo - {k},
                             ledger, hasLedger)
  {
  }

  lemma AllBackfilled(before: map<Key, Row>, rows: map<Key, Row>, ledger: seq<Txn>, hasLedger: bool)
    requires PartlyBackfilled(before, rows, {}, ledger, hasLedger)
    ensures rows == BackfillAll(before, ledger, hasLedger) && BackfillAllowed(before, ledger, hasLedger)
  {
    assert forall k | k in rows :: rows[k] == BackfillAll(before, ledger, hasLedger)[k];
  }

  class Reservations {
    var rows: map<Key, Row>
    var ledger: seq<Txn>

    /**
     Rows are taken in any order; each is locked and read again before its ledger is summed. A write that the
     table refuses aborts the run, and its transaction takes back what was written.
     */
    method BackfillExternalOtaCredits(hasLedger: bool) returns (ok: bool)
      modifies this`rows
      ensures ok <==> BackfillAllowed(old(rows), ledger, hasLedger)
      ensures rows == if ok then BackfillAll(old(rows), ledger, hasLedger) else old(rows)
    {
      var before := rows;
      var todo := set k | k in rows && Eligible(rows[k]);
      while todo != {}
        invariant PartlyBackfilled(before, rows, todo, ledger, hasLedger)
        decreases |todo|
      {
        var k := PickFrom(todo);
        var locked := rows[k];
        if Eligible(locked) {
          var completed := 0;
          if hasLedger {
            completed := Ledger(ledger, k);
          }
          if completed < 0 {
            rows := before;
            return false;
          }
          OneMoreBackfilled(before, rows, todo, ledger, hasLedger, k);
          rows := rows[k := locked.(paid := completed, credit := Positive(locked.paid - completed))];
        }
        todo := todo - {k};
      }
      AllBackfilled(before, rows, ledger, hasLedger);
      ok := true;
    }

    /** The downgrade refuses as soon as one row carries evidence of an external payment. */
    method Downgrade() returns (refused: bool)
      ensures refused <==> exists k | k in rows :: Evidence(rows[k])
    {
      var found := set k | k in rows && Evidence(rows[k]);
      refused := found != {};
      if refused {
        var k := PickFrom(found);
        assert Evidence(rows[k]);
      } else {
        forall k | k in rows ensures !Evidence(rows[k]) {
          assert k !in found;
        }
      }
    }
  }

  /** What the downgrade looks for, in the columns. */
  lemma EvidenceColumns(r: Row)
    ensures Evidence(r) <==> !(r.credit <= 0 && r.reference == None && !r.confirmed && !r.everConfirmed)
  {
  }

  /** A downgrade right after a backfill is refused exactly when some row had evidence or more cached than its ledger. */
  lemma BackfillBlocksDowngrade(rows: map<Key, Row>, ledger: seq<Txn>, k: Key)
    requires k in rows
    ensures Evidence(if Eligible(rows[k]) then Backfilled(rows[k], Ledger(ledger, k)) else rows[k])
       <==> (if Eligible(rows[k]) then rows[k].paid > Ledger(ledger, k) else Evidence(rows[k]))
  {
  }
}
