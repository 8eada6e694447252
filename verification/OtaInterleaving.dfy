/**
 The backfill as one transaction among others: it snapshots its candidates,
 then locks, sums and writes one row at a time and keeps every row lock until
 it commits or aborts. Payments and operators lock the reservation first, too.
 Other transactions see only what is committed.
 */
module OtaInterleaving {
  import opened Wrappers
  import opened OtaBackfill

  datatype Holder = Migration | Session(id: int)

  /** How a session derives the row it will write. */
  datatype Kind = Incremental | Recompute | Reconcile

  /** An open session; `row` is the committed row it read under its lock. */
  datatype Work =
    | Locked(key: Key, row: Row)
    | Posted(key: Key, row: Row, txn: Txn)
    | Ready(key: Key, row: Row, txns: seq<Txn>, next: Row, kind: Kind)

  datatype Stage =
    | Waiting
    | Between(todo: seq<Key>, writes: map<Key, Row>)
    | Holding(todo: seq<Key>, writes: map<Key, Row>, key: Key, row: Row)
    | Summed(todo: seq<Key>, writes: map<Key, Row>, key: Key, row: Row, sum: int)
    | Finished

  /**
   `rows` and `ledger` are the committed contents. The last three fields record
   history: rows the backfill wrote, rows an operator settled, and rows whose
   cache a payment recomputed before the backfill committed.
   */
  datatype State = State(
    rows: map<Key, Row>, ledger: seq<Txn>, locks: map<Key, Holder>, sessions: map<int, Work>, stage: Stage,
    done: set<Key>, settled: set<Key>, recomputed: set<Key>)

  datatype Action =
    | Snapshot(order: seq<Key>) | LockRow | SumLedger | WriteRow | CommitMigration | AbortMigration
    | Open(p: int, key: Key) | Post(p: int, txn: Txn) | Cache(p: int, kind: Kind) | Settle(p: int, row: Row)
    | Commit(p: int) | Abort(p: int)

  /** A credit an operator confirmed counts as paid; an unconfirmed one does not. */
  function ConfirmedCredit(r: Row): int {
    if r.imported && r.confirmed then Positive(r.credit) else 0
  }

  /** The cache a payment leaves: the old cache plus the payment, or the ledger summed again. */
  function NextPaid(kind: Kind, r: Row, ledger: seq<Txn>, t: Txn): int {
    if kind.Recompute? then Ledger(ledger + [t], t.key) + ConfirmedCredit(r) else r.paid + Signed(t)
  }

  /** The rows the migration holds locked. */
  function Held(s: State): set<Key> {
    match s.stage
    case Waiting => {}
    case Finished => {}
    case Between(_, writes) => writes.Keys
    case Holding(_, writes, key, _) => writes.Keys + {key}
    case Summed(_, writes, key, _, _) => writes.Keys + {key}
  }

  function Elements(order: seq<Key>): set<Key> {
    set k | k in order
  }

  function Candidates(rows: map<Key, Row>): set<Key> {
    set k | k in rows && Eligible(rows[k])
  }

  /** A write that the table's checks refuse is not among the actions: its transaction can only abort. */
  predicate Enabled(s: State, a: Action) {
    match a
    case Snapshot(order) => s.stage.Waiting? && Elements(order) == Candidates(s.rows)
    case LockRow => s.stage.Between? && s.stage.todo != [] && s.stage.todo[0] !in s.locks
    case SumLedger => s.stage.Holding?
    case WriteRow => s.stage.Summed? && s.stage.sum >= 0
    case CommitMigration => s.stage.Between? && s.stage.todo == []
    case AbortMigration => !s.stage.Waiting? && !s.stage.Finished?
    case Open(p, key) => p !in s.sessions && key in s.rows && key !in s.locks
    case Post(p, txn) => p in s.sessions && s.sessions[p].Locked? && txn.key == s.sessions[p].key
    case Cache(p, kind) =>
      && p in s.sessions && s.sessions[p].Posted? && !kind.Reconcile?
      && NextPaid(kind, s.sessions[p].row, s.ledger, s.sessions[p].txn) >= 0
    case Settle(p, row) => p in s.sessions && s.sessions[p].Locked? && !Eligible(row) && Allowed(row)
    case Commit(p) => p in s.sessions && s.sessions[p].Ready?
    case Abort(p) => p in s.sessions
  }

  function Apply(s: State, a: Action): State
    requires Enabled(s, a)
  {
    match a
    case Snapshot(order) => s.(stage := Between(order, map[]))
    case LockRow =>
      var k, rest := s.stage.todo[0], s.stage.todo[1..];
      if k in s.rows && Eligible(s.rows[k])
      then s.(stage := Holding(rest, s.stage.writes, k, s.rows[k]), locks := s.locks[k := Migration])
      else s.(stage := Between(rest, s.stage.writes))
    case SumLedger =>
      s.(stage := Summed(s.stage.todo, s.stage.writes, s.stage.key, s.stage.row, Ledger(s.ledger, s.stage.key)))
    case WriteRow =>
      s.(stage := Between(s.stage.todo, s.stage.writes[s.stage.key := Backfilled(s.stage.row, s.stage.sum)]))
    case CommitMigration =>
      s.(stage := Finished, rows := s.rows + s.stage.writes, done := s.stage.writes.Keys,
         locks := s.locks - s.stage.writes.Keys)
    case AbortMigration => s.(stage := Waiting, locks := s.locks - Held(s))
    case Open(p, key) =>
      s.(sessions := s.sessions[p := Locked(key, s.rows[key])], locks := s.locks[key := Session(p)])
    case Post(p, txn) => s.(sessions := s.sessions[p := Posted(txn.key, s.sessions[p].row, txn)])
    case Cache(p, kind) =>
      var w := s.sessions[p];
      s.(sessions := s.sessions[p := Ready(w.key, w.row, [w.txn],
                                           w.row.(paid := NextPaid(kind, w.row, s.ledger, w.txn)), kind)])
    case Settle(p, row) =>
      var w := s.sessions[p];
      s.(sessions := s.sessions[p := Ready(w.key, w.row, [], row, Reconcile)])
    case Commit(p) =>
      var w := s.sessions[p];
      s.(rows := s.rows[w.key := w.next], ledger := s.ledger + w.txns,
         locks := s.locks - {w.key}, sessions := s.sessions - {p},
         settled := if w.kind.Reconcile? then s.settled + {w.key} else s.settled,
         recomputed := if w.kind.Recompute? && !s.stage.Finished? then s.recomputed + {w.key} else s.recomputed)
    case Abort(p) => s.(locks := s.locks - {s.sessions[p].key}, sessions := s.sessions - {p})
  }

  predicate Initial(s: State) {
    s.locks == map[] && s.sessions == map[] && s.stage.Waiting? && s.done == s.settled == s.recomputed == {}
    && forall k | k in s.rows :: Allowed(s.rows[k])
  }

  predicate IsRun(s: State, acts: seq<Action>)
    decreases |acts|
  {
    acts == [] || (Enabled(s, acts[0]) && IsRun(Apply(s, acts[0]), acts[1..]))
  }

  function Final(s: State, acts: seq<Action>): State
    requires IsRun(s, acts)
    decreases |acts|
  {
    if acts == [] then s else Final(Apply(s, acts[0]), acts[1..])
  }

  // ----- what every step keeps -----

  /** Whoever works on a row holds its lock, and read the row that is still committed; and no lock is left behind. */
  predicate LocksHeld(s: State) {
    && (forall k | k in Held(s) :: k in s.rows && k in s.locks && s.locks[k] == Migration)
    && (forall p | p in s.sessions ::
          var w := s.sessions[p];
          && w.key in s.rows && w.row == s.rows[w.key]
          && w.key in s.locks && s.locks[w.key] == Session(p))
    && (forall k | k in s.locks ::
          match s.locks[k]
          case Migration => k in Held(s)
          case Session(p) => p in s.sessions && s.sessions[p].key == k)
  }

  /** What a session is about to commit is derived from the committed row and ledger. */
  predicate SessionConsistent(s: State, w: Work) {
    match w
    case Locked(_, _) => true
    case Posted(key, _, txn) => txn.key == key
    case Ready(key, row, txns, next, kind) =>
      if kind.Reconcile? then txns == [] && !Eligible(next)
      else |txns| == 1 && txns[0].key == key && next == row.(paid := NextPaid(kind, row, s.ledger, txns[0]))
  }

  /** What the migration has read and written is derived from the committed row and ledger. */
  predicate StageConsistent(s: State) {
    && (s.stage.Holding? || s.stage.Summed? ==>
          s.stage.key in s.rows && s.stage.row == s.rows[s.stage.key] && Eligible(s.stage.row))
    && (s.stage.Summed? ==> s.stage.sum == Ledger(s.ledger, s.stage.key))
    && (!s.stage.Waiting? && !s.stage.Finished? ==>
          forall k | k in s.stage.writes ::
            k in s.rows && Eligible(s.rows[k]) && s.stage.writes[k] == Backfilled(s.rows[k], Ledger(s.ledger, k)))
  }

  /** No row still to be backfilled is forgotten. */
  predicate NoneForgotten(s: State) {
    !s.stage.Waiting? && !s.stage.Finished? ==>
      forall k | k in s.rows && Eligible(s.rows[k]) :: k in s.stage.todo || k in Held(s)
  }

  predicate Consistent(s: State) {
    && LocksHeld(s)
    && (forall p | p in s.sessions :: SessionConsistent(s, s.sessions[p]))
    && StageConsistent(s)
    && NoneForgotten(s)
  }

  lemma LedgerOfOthers(ledger: seq<Txn>, txns: seq<Txn>, k: Key)
    requires |txns| <= 1 && forall t | t in txns :: t.key != k
    ensures Ledger(ledger + txns, k) == Ledger(ledger, k)
  {
    if txns == [] {
      assert ledger + txns == ledger;
    } else {
      assert txns == [txns[0]] && txns[0] in txns;
      LedgerOfOneMore(ledger, txns[0], k);
    }
  }

  lemma StepKeepsLocks(s: State, a: Action)
    requires Consistent(s) && Enabled(s, a)
    ensures LocksHeld(Apply(s, a))
  {
  }

  lemma StepKeepsSessions(s: State, a: Action)
    requires Consistent(s) && Enabled(s, a)
    ensures forall p | p in Apply(s, a).sessions :: SessionConsistent(Apply(s, a), Apply(s, a).sessions[p])
  {
    var s' := Apply(s, a);
    forall p | p in s'.sessions ensures SessionConsistent(s', s'.sessions[p]) {
      if a.Commit? {
        var w := s.sessions[p];
        assert w.key != s.sessions[a.p].key;
        if w.Ready? && !w.kind.Reconcile? {
          OtherSessionsLedger(s, a.p, w.key);
          LedgerOfOneMore(s.ledger, w.txns[0], w.key);
          LedgerOfOneMore(s'.ledger, w.txns[0], w.key);
        }
      }
    }
  }

  /** A commit leaves the ledger of every reservation but its own as it was. */
  lemma OtherSessionsLedger(s: State, p: int, k: Key)
    requires Consistent(s) && Enabled(s, Commit(p)) && k != s.sessions[p].key
    ensures Ledger(Apply(s, Commit(p)).ledger, k) == Ledger(s.ledger, k)
  {
    var w := s.sessions[p];
    assert SessionConsistent(s, w);
    LedgerOfOthers(s.ledger, w.txns, k);
  }

  lemma StepKeepsStage(s: State, a: Action)
    requires Consistent(s) && Enabled(s, a)
    ensures StageConsistent(Apply(s, a))
  {
    if a.Commit? {
      forall k | k in Held(s) ensures k != s.sessions[a.p].key && Ledger(Apply(s, a).ledger, k) == Ledger(s.ledger, k) {
        OtherSessionsLedger(s, a.p, k);
      }
    }
  }

  lemma StepKeepsNoneForgotten(s: State, a: Action)
    requires Consistent(s) && Enabled(s, a)
    ensures NoneForgotten(Apply(s, a))
  {
    var s' := Apply(s, a);
    if !s'.stage.Waiting? && !s'.stage.Finished? {
      forall k | k in s'.rows && Eligible(s'.rows[k]) ensures k in s'.stage.todo || k in Held(s') {
        if a.Snapshot? {
          assert k in Candidates(s.rows) && k in Elements(a.order);
        }
        if a.LockRow? {
          assert s.stage.todo == [s.stage.todo[0]] + s.stage.todo[1..];
        }
        if a.Commit? {
          assert SessionConsistent(s, s.sessions[a.p]);
        }
      }
    }
  }

  lemma StepKeepsConsistent(s: State, a: Action)
    requires Consistent(s) && Enabled(s, a)
    ensures Consistent(Apply(s, a))
  {
    StepKeepsLocks(s, a);
    StepKeepsSessions(s, a);
    StepKeepsStage(s, a);
    StepKeepsNoneForgotten(s, a);
  }

  /** Nothing that is committed or about to be has a negative amount. */
  predicate AmountsAllowed(s: State) {
    && (forall k | k in s.rows :: Allowed(s.rows[k]))
    && (forall p | p in s.sessions && s.sessions[p].Ready? :: Allowed(s.sessions[p].next))
    && (!s.stage.Waiting? && !s.stage.Finished? ==> forall k | k in s.stage.writes :: Allowed(s.stage.writes[k]))
  }

  lemma StepKeepsAmounts(s: State, a: Action)
    requires Consistent(s) && AmountsAllowed(s) && Enabled(s, a)
    ensures AmountsAllowed(Apply(s, a))
  {
  }

  // ----- what the rows remember of the start -----

  function Gap(s: State, k: Key): int
    requires k in s.rows
  {
    s.rows[k].paid - Ledger(s.ledger, k)
  }

  /** The excess of the cache over the ledger that the backfill will find. */
  function ExpectedGap(s0: State, s: State, k: Key): int
    requires k in s0.rows
  {
    if k in s.recomputed then 0 else Gap(s0, k)
  }

  predicate RemembersBefore(s0: State, s: State, k: Key)
    requires k in s0.rows && k in s.rows
  {
    && (k in s.settled ==> !Eligible(s.rows[k]))
    && (k !in s.settled ==> (Eligible(s.rows[k]) <==> Eligible(s0.rows[k])))
    && (Eligible(s.rows[k]) ==> Gap(s, k) == ExpectedGap(s0, s, k))
  }

  predicate RemembersAfter(s0: State, s: State, k: Key)
    requires k in s0.rows && k in s.rows
  {
    if k in s.settled then !Eligible(s.rows[k])
    else Eligible(s0.rows[k]) ==>
      && k in s.done
      && s.rows[k].imported && s.rows[k].reference.None? && !s.rows[k].confirmed && !s.rows[k].everConfirmed
      && s.rows[k].credit == Positive(ExpectedGap(s0, s, k))
      && s.rows[k].paid == Ledger(s.ledger, k)
  }

  predicate Remembers(s0: State, s: State) {
    && s.rows.Keys == s0.rows.Keys
    && forall k | k in s.rows :: if s.stage.Finished? then RemembersAfter(s0, s, k) else RemembersBefore(s0, s, k)
  }

  lemma StepRemembers(s0: State, s: State, a: Action)
    requires Consistent(s) && Enabled(s, a) && Remembers(s0, s)
    ensures Remembers(s0, Apply(s, a))
  {
    var s' := Apply(s, a);
    StepRemembersKeys(s, a);
    forall k | k in s'.rows
      ensures if s'.stage.Finished? then RemembersAfter(s0, s', k) else RemembersBefore(s0, s', k)
    {
      match a {
        case Commit(p) =>
          CommitRemembers(s0, s, p, k);
        case CommitMigration =>
          MigrationRemembers(s0, s, k);
        case _ =>
      }
    }
  }

  /** What a payment commits, in terms of the row it replaces and the ledger it leaves. */
  lemma PaymentCommits(s: State, p: int)
    requires Consistent(s) && Enabled(s, Commit(p)) && !s.sessions[p].kind.Reconcile?
    ensures var w, s' := s.sessions[p], Apply(s, Commit(p));
            && w.key in s.rows
            && s'.rows == s.rows[w.key := s.rows[w.key].(paid := s'.rows[w.key].paid)]
            && if w.kind.Recompute? then s'.rows[w.key].paid == Ledger(s'.ledger, w.key) + ConfirmedCredit(s.rows[w.key])
               else s'.rows[w.key].paid - Ledger(s'.ledger, w.key) == s.rows[w.key].paid - Ledger(s.ledger, w.key)
  {
    var w := s.sessions[p];
    assert SessionConsistent(s, w);
    assert w.txns == [w.txns[0]];
    LedgerOfOneMore(s.ledger, w.txns[0], w.key);
  }

  lemma CommitRemembers(s0: State, s: State, p: int, k: Key)
    requires Consistent(s) && Enabled(s, Commit(p)) && Remembers(s0, s) && k in s.rows
    ensures var s' := Apply(s, Commit(p));
            k in s'.rows && if s'.stage.Finished? then RemembersAfter(s0, s', k) else RemembersBefore(s0, s', k)
  {
    var w := s.sessions[p];
    assert if s.stage.Finished? then RemembersAfter(s0, s, k) else RemembersBefore(s0, s, k);
    if k != w.key {
      OtherSessionsLedger(s, p, k);
    } else if w.kind.Reconcile? {
      assert SessionConsistent(s, w);
    } else {
      PaymentCommits(s, p);
    }
  }

  lemma MigrationRemembers(s0: State, s: State, k: Key)
    requires Consistent(s) && Enabled(s, CommitMigration) && Remembers(s0, s) && k in s.rows
    ensures var s' := Apply(s, CommitMigration); k in s'.rows && RemembersAfter(s0, s', k)
  {
  }

  lemma {:induction false} RunRemembers(s0: State, s: State, acts: seq<Action>)
    requires Consistent(s) && Remembers(s0, s) && AmountsAllowed(s) && IsRun(s, acts)
    ensures Consistent(Final(s, acts)) && Remembers(s0, Final(s, acts)) && AmountsAllowed(Final(s, acts))
    decreases |acts|
  {
    if acts != [] {
      StepKeepsConsistent(s, acts[0]);
      StepRemembers(s0, s, acts[0]);
      StepKeepsAmounts(s, acts[0]);
      RunRemembers(s0, Apply(s, acts[0]), acts[1..]);
    }
  }

  lemma RunKeepsFacts(s0: State, acts: seq<Action>)
    requires Initial(s0) && IsRun(s0, acts)
    ensures Consistent(Final(s0, acts)) && Remembers(s0, Final(s0, acts)) && AmountsAllowed(Final(s0, acts))
  {
    RunRemembers(s0, s0, acts);
  }

  // ----- the theorems, over every run -----

  /**
   The backfilled credit is decided by the first state, whatever ran in
   between: it is the old cache minus the old ledger, or nothing if a payment
   recomputed the cache before the backfill committed, and runs that aborted
   first leave no trace. No payment is lost: the cache equals the ledger of
   everything committed by then.
   */
  lemma CreditIndependentOfSchedule(s0: State, acts: seq<Action>, k: Key)
    requires Initial(s0) && IsRun(s0, acts) && Final(s0, acts).stage.Finished?
    requires k in s0.rows && Eligible(s0.rows[k]) && k !in Final(s0, acts).settled
    ensures var s := Final(s0, acts);
            && k in s.rows && k in s.done
            && s.rows[k].paid == Ledger(s.ledger, k) >= 0
            && s.rows[k].credit == if k in s.recomputed then 0 else Positive(Gap(s0, k))
  {
    RunKeepsFacts(s0, acts);
    assert RemembersAfter(s0, Final(s0, acts), k);
  }

  /**
   The excess of a row survives if and only if there was none, or no payment
   recomputed the row's cache before the backfill committed.
   */
  lemma ExcessSurvivesIff(s0: State, acts: seq<Action>, k: Key)
    requires Initial(s0) && IsRun(s0, acts) && Final(s0, acts).stage.Finished?
    requires k in s0.rows && Eligible(s0.rows[k]) && k !in Final(s0, acts).settled
    ensures k in Final(s0, acts).rows
    ensures Final(s0, acts).rows[k].credit == Positive(Gap(s0, k))
       <==> k !in Final(s0, acts).recomputed || Gap(s0, k) <= 0
  {
    CreditIndependentOfSchedule(s0, acts, k);
  }

  /** A row an operator settled first is not touched by the backfill's commit. */
  lemma SettledRowsAreLeftAlone(s0: State, acts: seq<Action>, k: Key)
    requires Initial(s0) && IsRun(s0, acts) && Enabled(Final(s0, acts), CommitMigration)
    requires k in s0.rows && (k in Final(s0, acts).settled || !Eligible(s0.rows[k]))
    ensures var s := Final(s0, acts);
            k in s.rows && k !in Apply(s, CommitMigration).done && Apply(s, CommitMigration).rows[k] == s.rows[k]
  {
    RunKeepsFacts(s0, acts);
    assert RemembersBefore(s0, Final(s0, acts), k);
  }

  /** After the backfill and any further payments a second backfill completes and changes no row. */
  lemma RerunChangesNothing(s0: State, acts: seq<Action>)
    requires Initial(s0) && IsRun(s0, acts) && Final(s0, acts).stage.Finished?
    ensures BackfillAllowed(Final(s0, acts).rows, Final(s0, acts).ledger, true)
    ensures BackfillAll(Final(s0, acts).rows, Final(s0, acts).ledger, true) == Final(s0, acts).rows
  {
    RunKeepsFacts(s0, acts);
    StillIneligible(s0, s0, acts);
    var s := Final(s0, acts);
    forall k | k in s.rows && Eligible(s.rows[k])
      ensures Backfilled(s.rows[k], Ledger(s.ledger, k)) == s.rows[k] && Ledger(s.ledger, k) >= 0
    {
      assert RemembersAfter(s0, s, k);
    }
  }

  /** No run makes a row eligible that was not. */
  lemma {:induction false} StillIneligible(s0: State, s: State, acts: seq<Action>)
    requires Consistent(s) && IsRun(s, acts) && s.rows.Keys == s0.rows.Keys
    requires forall k | k in s.rows && Eligible(s.rows[k]) :: Eligible(s0.rows[k])
    ensures var f := Final(s, acts);
            f.rows.Keys == s0.rows.Keys && forall k | k in f.rows && Eligible(f.rows[k]) :: Eligible(s0.rows[k])
    decreases |acts|
  {
    if acts != [] {
      var s' := Apply(s, acts[0]);
      StepKeepsConsistent(s, acts[0]);
      StepRemembersKeys(s, acts[0]);
      StillIneligible(s0, s', acts[1..]);
    }
  }

  lemma StepRemembersKeys(s: State, a: Action)
    requires Consistent(s) && Enabled(s, a)
    ensures Apply(s, a).rows.Keys == s.rows.Keys
    ensures forall k | k in s.rows && Eligible(Apply(s, a).rows[k]) :: Eligible(s.rows[k])
  {
    if a.CommitMigration? {
      forall k | k in s.stage.writes ensures k in s.rows && Eligible(s.rows[k]) {
        assert k in Held(s);
      }
    }
    if a.Commit? {
      assert SessionConsistent(s, s.sessions[a.p]);
    }
  }

  // ----- in the columns -----

  /** The backfill's snapshot is the legacy reservations, in any order. */
  lemma SnapshotTakesLegacyRows(s: State, order: seq<Key>)
    ensures Enabled(s, Snapshot(order)) <==>
      s.stage == Waiting && forall k :: k in order <==> k in s.rows && Untouched(s.rows[k])
  {
    forall k ensures k in Candidates(s.rows) <==> k in s.rows && Untouched(s.rows[k]) {
    }
    if forall k :: k in order <==> k in s.rows && Untouched(s.rows[k]) {
      assert forall k :: k in Elements(order) <==> k in Candidates(s.rows);
    }
  }

  /** What a payment commits: its transaction, and the cache plus its amount or the ledger with a confirmed credit. */
  lemma PaymentColumns(s: State, p: int)
    requires Consistent(s) && Enabled(s, Commit(p)) && !s.sessions[p].kind.Reconcile?
    ensures
      var w, s' := s.sessions[p], Apply(s, Commit(p));
      var row, t := s.rows[w.key], w.txns[0];
      && w.txns == [t] && t.key == w.key && s'.ledger == s.ledger + [t]
      && s'.rows == s.rows[w.key := row.(paid :=
           if w.kind.Recompute? then
             Ledger(s'.ledger, w.key) + (if row.imported && row.confirmed && row.credit > 0 then row.credit else 0)
           else if t.completed then (if t.refund then row.paid - t.amount else row.paid + t.amount)
           else row.paid)]
  {
    assert SessionConsistent(s, s.sessions[p]);
  }

  /** A posted transaction stays with its session until it is committed or given up. */
  lemma PostedIsKept(s: State, a: Action, p: int)
    requires Enabled(s, a) && p in s.sessions && s.sessions[p].Posted?
    ensures
      var t := Apply(s, a);
      || t.sessions == s.sessions || (p in t.sessions && t.sessions[p] == s.sessions[p])
      || (p in t.sessions && t.sessions[p].Ready? && t.sessions[p].txns == [s.sessions[p].txn])
      || (a == Abort(p) && t.ledger == s.ledger && t.rows == s.rows)
  {
  }

  /** Amounts that are not negative at first never are. */
  lemma AmountsStayNonNegative(s0: State, acts: seq<Action>, k: Key)
    requires Initial(s0) && IsRun(s0, acts) && k in Final(s0, acts).rows
    ensures Final(s0, acts).rows[k].paid >= 0 && Final(s0, acts).rows[k].credit >= 0
  {
    RunKeepsFacts(s0, acts);
  }

  // ----- the backfill alone is the loop it was written as -----

  /** Any abort gives the rows back as they are and frees all that the migration had locked. */
  lemma AbortFreesEverything(s: State)
    requires Consistent(s) && s.stage != Waiting && s.stage != Finished
    ensures Enabled(s, AbortMigration)
    ensures
      var t := Apply(s, AbortMigration);
      && t.stage == Waiting && t.rows == s.rows && t.ledger == s.ledger && t.sessions == s.sessions
      && forall k | k in t.locks :: t.locks[k] != Migration
  {
  }

  lemma RunOfOneMore(s: State, a: Action, rest: seq<Action>)
    requires Enabled(s, a) && IsRun(Apply(s, a), rest)
    ensures IsRun(s, [a] + rest) && Final(s, [a] + rest) == Final(Apply(s, a), rest)
  {
    assert ([a] + rest)[1..] == rest;
  }

  predicate NoneTwice(order: seq<Key>) {
    forall i, j | 0 <= i < j < |order| :: order[i] != order[j]
  }

  /** The migration between two rows; the rest of its list is unlocked and has no negative ledger. */
  predicate CanGoOn(s: State) {
    && s.stage.Between? && NoneTwice(s.stage.todo)
    && forall k | k in s.stage.todo ::
      k !in s.locks && k !in s.stage.writes && k in s.rows && Eligible(s.rows[k]) && Ledger(s.ledger, k) >= 0
  }

  /** The state after the migration has locked, summed and written the next row. */
  lemma OneMoreRow(s: State) returns (t: State)
    requires CanGoOn(s) && s.stage.todo != []
    ensures
      var k, rest := s.stage.todo[0], s.stage.todo[1..];
      t == s.(stage := Between(rest, s.stage.writes[k := Backfilled(s.rows[k], Ledger(s.ledger, k))]), locks := s.locks[k := Migration])
    ensures Enabled(s, LockRow) && Enabled(Apply(s, LockRow), SumLedger)
    ensures Enabled(Apply(Apply(s, LockRow), SumLedger), WriteRow)
    ensures t == Apply(Apply(Apply(s, LockRow), SumLedger), WriteRow) && CanGoOn(t)
  {
    var k, rest := s.stage.todo[0], s.stage.todo[1..];
    assert k in s.stage.todo && forall i | 0 <= i < |rest| :: rest[i] == s.stage.todo[i + 1];
    t := Apply(Apply(Apply(s, LockRow), SumLedger), WriteRow);
    forall l | l in rest ensures l in s.stage.todo && l != k {
      var i :| 0 <= i < |rest| && rest[i] == l;
      assert s.stage.todo[i + 1] == l;
    }
  }

  /** What the rows will be once the list is done. */
  function Written(s: State): map<Key, Row>
    requires s.stage.Between?
  {
    map k | k in s.rows ::
      if k in s.stage.writes then s.stage.writes[k]
      else if k in s.stage.todo then Backfilled(s.rows[k], Ledger(s.ledger, k))
      else s.rows[k]
  }

  lemma WrittenStays(s: State, t: State)
    requires CanGoOn(s) && s.stage.todo != []
    requires
      var k, rest := s.stage.todo[0], s.stage.todo[1..];
      t == s.(stage := Between(rest, s.stage.writes[k := Backfilled(s.rows[k], Ledger(s.ledger, k))]), locks := s.locks[k := Migration])
    ensures Written(t) == Written(s)
  {
    assert s.stage.todo == [s.stage.todo[0]] + s.stage.todo[1..];
    forall k | k in s.rows ensures Written(t)[k] == Written(s)[k] {
    }
  }

  lemma {:induction false} MigrationGoesOn(s: State) returns (acts: seq<Action>)
    requires CanGoOn(s) && s.stage.writes.Keys <= s.rows.Keys
    ensures IsRun(s, acts)
    ensures Final(s, acts).stage.Finished? && Final(s, acts).rows == Written(s) && Final(s, acts).ledger == s.ledger
    decreases |s.stage.todo|
  {
    if s.stage.todo == [] {
      acts := [CommitMigration] + [];
      RunOfOneMore(s, CommitMigration, []);
    } else {
      var t := OneMoreRow(s);
      WrittenStays(s, t);
      var rest := MigrationGoesOn(t);
      var s1 := Apply(s, LockRow);
      var s2 := Apply(s1, SumLedger);
      RunOfOneMore(s2, WriteRow, rest);
      RunOfOneMore(s1, SumLedger, [WriteRow] + rest);
      RunOfOneMore(s, LockRow, [SumLedger] + ([WriteRow] + rest));
      acts := [LockRow] + ([SumLedger] + ([WriteRow] + rest));
    }
  }

  lemma {:induction false} InSomeOrder(keys: set<Key>) returns (order: seq<Key>)
    ensures NoneTwice(order) && forall k :: k in order <==> k in keys
    decreases |keys|
  {
    order := [];
    if keys != {} {
      var k := MemberOf(keys);
      var rest := InSomeOrder(keys - {k});
      order := [k] + rest;
      assert k !in rest;
      forall i, j | 0 <= i < j < |order| ensures order[i] != order[j] {
        assert order[j] == rest[j - 1] && rest[j - 1] in rest;
        assert i > 0 ==> order[i] == rest[i - 1];
      }
    }
  }

  /** With nobody else at work and no negative ledger the protocol can run to its end, and does what the loop does. */
  lemma BackfillAlone(s: State) returns (acts: seq<Action>)
    requires Initial(s) && BackfillAllowed(s.rows, s.ledger, true)
    ensures IsRun(s, acts) && Final(s, acts).stage.Finished?
    ensures Final(s, acts).rows == BackfillAll(s.rows, s.ledger, true) && Final(s, acts).ledger == s.ledger
  {
    var order := InSomeOrder(Candidates(s.rows));
    assert forall k :: k in Elements(order) <==> k in Candidates(s.rows);
    var t := Apply(s, Snapshot(order));
    var rest := MigrationGoesOn(t);
    assert Written(t) == BackfillAll(s.rows, s.ledger, true);
    RunOfOneMore(s, Snapshot(order), rest);
    acts := [Snapshot(order)] + rest;
  }

  lemma RunOfFour(s: State, a: Action, b: Action, c: Action, d: Action)
    requires Enabled(s, a) && Enabled(Apply(s, a), b) && Enabled(Apply(Apply(s, a), b), c)
    requires Enabled(Apply(Apply(Apply(s, a), b), c), d)
    ensures IsRun(s, [a, b, c, d]) && Final(s, [a, b, c, d]) == Apply(Apply(Apply(Apply(s, a), b), c), d)
  {
    var s1 := Apply(s, a);
    var s2 := Apply(s1, b);
    var s3 := Apply(s2, c);
    RunOfOneMore(s3, d, []);
    RunOfOneMore(s2, c, [d]);
    RunOfOneMore(s1, b, [c, d]);
    RunOfOneMore(s, a, [b, c, d]);
    assert [d] + [] == [d] && [c] + [d] == [c, d] && [b] + [c, d] == [b, c, d] && [a] + [b, c, d] == [a, b, c, d];
  }

  /** A payment alone on its row, from the lock to the commit. */
  lemma PaymentRuns(s: State, p: int, t: Txn, kind: Kind)
    requires p !in s.sessions && t.key in s.rows && t.key !in s.locks && !kind.Reconcile?
    requires NextPaid(kind, s.rows[t.key], s.ledger, t) >= 0
    ensures
      var pay := [Open(p, t.key), Post(p, t), Cache(p, kind), Commit(p)];
      && IsRun(s, pay)
      && Final(s, pay).rows == s.rows[t.key := s.rows[t.key].(paid := NextPaid(kind, s.rows[t.key], s.ledger, t))]
      && Final(s, pay).ledger == s.ledger + [t] && Final(s, pay).settled == s.settled
  {
    RunOfFour(s, Open(p, t.key), Post(p, t), Cache(p, kind), Commit(p));
  }

  /** One payment of 300 that recomputes the cache of a row with a legacy excess of 10000: the excess is gone. */
  lemma RecomputingPaymentErasesExcess()
    ensures var s0 := State(map[1 := Row(true, 10000, 0, None, false, false)], [], map[], map[], Waiting, {}, {}, {});
            var pay := [Open(5, 1), Post(5, Txn(1, 300, false, true)), Cache(5, Recompute), Commit(5)];
            && Initial(s0) && Eligible(s0.rows[1]) && Gap(s0, 1) == 10000
            && IsRun(s0, pay) && 1 in Final(s0, pay).rows && 1 !in Final(s0, pay).settled
            && Gap(Final(s0, pay), 1) == 0
  {
    var t := Txn(1, 300, false, true);
    var s0 := State(map[1 := Row(true, 10000, 0, None, false, false)], [], map[], map[], Waiting, {}, {}, {});
    LedgerOfOneMore([], t, 1);
    PaymentRuns(s0, 5, t, Recompute);
  }
}
