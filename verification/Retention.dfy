/**
 Retention of public-form records under legal holds: the purge function, the
 guarded downgrade, and the two as steps among concurrent hold writers.
 */
module Retention {
  import opened Wrappers

  datatype Kind = Inquiry | Lead

  /** A record of one of the two forms, by its kind and id. */
  datatype Key = Key(kind: Kind, id: int)

  /** A hold without an end is one until it is released. Times are seconds. */
  datatype Hold = Hold(until: Option<int>, released: bool)

  datatype Event = Event(scope: string, createdAt: int)

  const RETENTION := 90 * 24 * 60 * 60
  const RATE_LIMIT_RETENTION := 15 * 60
  const FORM_SCOPES: set<string> := {
    "marketing_lead", "marketing_lead_global", "public_inquiry_source", "public_inquiry_email", "public_inquiry_global"}

  predicate HoldsAt(h: Hold, now: int) {
    !h.released && (h.until.None? || h.until.value > now)
  }

  predicate HeldAt(holds: map<Key, Hold>, k: Key, now: int) {
    k in holds && HoldsAt(holds[k], now)
  }

  /** The rows that the statement for one kind deletes. */
  function Expired(records: map<Key, int>, holds: map<Key, Hold>, kind: Kind, now: int): set<Key> {
    set k | k in records && k.kind == kind && records[k] < now - RETENTION && !HeldAt(holds, k, now)
  }

  function Without<T>(rows: map<Key, T>, gone: set<Key>): map<Key, T> {
    map k | k in rows && k !in gone :: rows[k]
  }

  predicate Unreleased(h: Hold) {
    h.released == false
  }

  /** The hold has no end, or one that is still to come. */
  predicate EndsAfter(h: Hold, now: int) {
    match h.until
    case None => true
    case Some(end) => now < end
  }

  predicate Protects(holds: map<Key, Hold>, k: Key, now: int) {
    k in holds && Unreleased(holds[k]) && EndsAfter(holds[k], now)
  }

  /** In the columns: a hold counts while it is unreleased and its end is to come. */
  lemma HeldColumns(holds: map<Key, Hold>, k: Key, now: int)
    ensures HeldAt(holds, k, now) <==> Protects(holds, k, now)
  {
  }

  // ----- the statements on their own -----

  class Forms {
    var records: map<Key, int>
    var holds: map<Key, Hold>
    var events: map<int, Event>
    var holdTable: bool
    var honorsHolds: bool

    /**
     One run of the purge function, with the holds left out once the downgrade has replaced it. A record stays for
     90 days, and beyond them under a hold that is not released and has no end or a later one; an event of the
     forms' rate limits stays for 15 minutes.
     */
    method Purge(now: int)
      modifies this`records, this`events
      ensures forall k | k in old(records) && old(records)[k] >= now - 7776000 :: k in records
      ensures forall k | k in old(records) && honorsHolds && Protects(holds, k, now) :: k in records
      ensures forall k | k in old(records) && old(records)[k] < now - 7776000
        && !(honorsHolds && Protects(holds, k, now)) :: k !in records
      ensures forall k | k in records :: k in old(records) && records[k] == old(records)[k]
      ensures forall i :: i in events <==>
        && i in old(events)
        && (old(events)[i].createdAt >= now - 900
            || old(events)[i].scope !in ["marketing_lead", "marketing_lead_global", "public_inquiry_source",
                                         "public_inquiry_email", "public_inquiry_global"])
      ensures forall i | i in events :: events[i] == old(events)[i]
    {
      var honored := if honorsHolds then holds else map[];
      forall k ensures HeldAt(holds, k, now) <==> Protects(holds, k, now) {
        HeldColumns(holds, k, now);
      }
      records := Without(records, Expired(records, honored, Inquiry, now));
      records := Without(records, Expired(records, honored, Lead, now));
      events := map i |
        i in events && !(events[i].scope in FORM_SCOPES && events[i].createdAt < now - RATE_LIMIT_RETENTION) :: events[i];
    }

    /** Refused while a hold is effective; else the holds are dropped and the purge ignores them. */
    method Downgrade(now: int) returns (done: bool)
      modifies this`holds, this`holdTable, this`honorsHolds
      ensures done <==> !exists k | k in old(holds) :: Protects(old(holds), k, now)
      ensures done ==> holds == map[] && !holdTable && !honorsHolds
      ensures !done ==> holds == old(holds) && holdTable == old(holdTable) && honorsHolds == old(honorsHolds)
    {
      if exists k | k in holds :: HeldAt(holds, k, now) {
        return false;
      }
      honorsHolds := false;
      holdTable, holds := false, map[];
      done := true;
    }
  }

  // ----- the protocol: sessions that lock the hold table -----

  /** Where a session stands. `asked` and `read` are clock readings taken before the lock. */
  datatype Phase =
    | Placing(key: Key, until: Option<int>, asked: int)
    | PlaceLocked(key: Key, until: Option<int>, asked: int)
    | PlaceReady(key: Key, until: Option<int>, asked: int)
    | Releasing(key: Key)
    | ReleaseLocked(key: Key)
    | PurgeWaiting(read: int, guarded: bool)
    | PurgeLocked(read: int)
    | InquiriesDeleted(read: int, doomed: set<Key>)
    | LeadsDeleted(read: int, doomed: set<Key>)
    | DropWaiting
    | DropLocked
    | DropChecked

  /** What is committed, and the open sessions. `guarded` tells which purge function is installed. */
  datatype State = State(clock: int, records: map<Key, int>, holds: map<Key, Hold>, guarded: bool,
                         sessions: map<int, Phase>)

  datatype Step =
    | Tick(seconds: nat)
    | Submit(key: Key)
    | Resubmit(key: Key)
    | AskPlace(id: int, key: Key, until: Option<int>)
    | AskRelease(id: int, key: Key)
    | LockForWrite(id: int)
    | FindTarget(id: int)
    | CommitPlace(id: int)
    | CommitRelease(id: int)
    | StartPurge(id: int)
    | LockForPurge(id: int)
    | DeleteInquiries(id: int)
    | DeleteLeads(id: int)
    | CommitPurge(id: int)
    | StartDrop(id: int)
    | LockForDrop(id: int)
    | CheckDrop(id: int)
    | CommitDrop(id: int)
    | Abort(id: int)

  /** ROW EXCLUSIVE, SHARE and ACCESS EXCLUSIVE on the hold table, each kept until the session ends. */
  predicate Writes(p: Phase) {
    p.PlaceLocked? || p.PlaceReady? || p.ReleaseLocked?
  }

  predicate Shares(p: Phase) {
    p.PurgeLocked? || p.InquiriesDeleted? || p.LeadsDeleted?
  }

  predicate Excludes(p: Phase) {
    p.DropLocked? || p.DropChecked?
  }

  predicate NoneWrites(s: State) {
    forall i | i in s.sessions :: !Writes(s.sessions[i])
  }

  predicate NoneShares(s: State) {
    forall i | i in s.sessions :: !Shares(s.sessions[i])
  }

  predicate NoneExcludes(s: State) {
    forall i | i in s.sessions :: !Excludes(s.sessions[i])
  }

  function Doomed(p: Phase): set<Key> {
    if p.InquiriesDeleted? || p.LeadsDeleted? then p.doomed else {}
  }

  /** A row is locked by a purge that has deleted it and by a writer that has found it, until they end. */
  predicate RowFree(s: State, k: Key) {
    forall i | i in s.sessions ::
      k !in Doomed(s.sessions[i]) && !(s.sessions[i].PlaceReady? && s.sessions[i].key == k)
  }

  /** A delete waits for the rows that others have locked. */
  predicate RowsFree(s: State, keys: set<Key>) {
    forall k | k in keys :: RowFree(s, k)
  }

  predicate Enabled(s: State, e: Step) {
    match e
    case Tick(_) => true
    case Submit(k) => k !in s.records
    case Resubmit(k) => k in s.records && k.kind == Lead && RowFree(s, k)
    case AskPlace(i, k, until) => i !in s.sessions && (until.None? || until.value > s.clock)
    case AskRelease(i, k) => i !in s.sessions
    case LockForWrite(i) =>
      i in s.sessions && (s.sessions[i].Placing? || s.sessions[i].Releasing?) && s.guarded && NoneShares(s) && NoneExcludes(s)
    case FindTarget(i) =>
      && i in s.sessions && s.sessions[i].PlaceLocked?
      && s.sessions[i].key in s.records && RowFree(s, s.sessions[i].key)
      && !HeldAt(s.holds, s.sessions[i].key, s.sessions[i].asked)
    case CommitPlace(i) => i in s.sessions && s.sessions[i].PlaceReady?
    case CommitRelease(i) =>
      && i in s.sessions && s.sessions[i].ReleaseLocked?
      && s.sessions[i].key in s.holds && !s.holds[s.sessions[i].key].released
    case StartPurge(i) => i !in s.sessions
    case LockForPurge(i) =>
      && i in s.sessions && s.sessions[i].PurgeWaiting?
      && (s.sessions[i].guarded ==> s.guarded && NoneWrites(s) && NoneExcludes(s))
    case DeleteInquiries(i) =>
      && i in s.sessions && s.sessions[i].PurgeLocked?
      && RowsFree(s, Expired(s.records, s.holds, Inquiry, s.sessions[i].read))
    case DeleteLeads(i) =>
      && i in s.sessions && s.sessions[i].InquiriesDeleted?
      && RowsFree(s, Expired(s.records, s.holds, Lead, s.sessions[i].read))
    case CommitPurge(i) => i in s.sessions && s.sessions[i].LeadsDeleted?
    case StartDrop(i) => i !in s.sessions
    case LockForDrop(i) =>
      i in s.sessions && s.sessions[i].DropWaiting? && s.guarded && NoneWrites(s) && NoneShares(s) && NoneExcludes(s)
    case CheckDrop(i) => i in s.sessions && s.sessions[i].DropLocked? && forall k | k in s.holds :: !HeldAt(s.holds, k, s.clock)
    case CommitDrop(i) => i in s.sessions && s.sessions[i].DropChecked?
    case Abort(i) => i in s.sessions
  }

  function Goto(s: State, id: int, p: Phase): State {
    s.(sessions := s.sessions[id := p])
  }

  function End(s: State, id: int): State {
    s.(sessions := s.sessions - {id})
  }

  function Apply(s: State, e: Step): State
    requires Enabled(s, e)
  {
    match e
    case Tick(d) => s.(clock := s.clock + d)
    case Submit(k) => s.(records := s.records[k := s.clock])
    case Resubmit(k) => s.(records := s.records[k := s.clock])
    case AskPlace(i, k, until) => Goto(s, i, Placing(k, until, s.clock))
    case AskRelease(i, k) => Goto(s, i, Releasing(k))
    case LockForWrite(i) =>
      var p := s.sessions[i];
      Goto(s, i, if p.Placing? then PlaceLocked(p.key, p.until, p.asked) else ReleaseLocked(p.key))
    case FindTarget(i) => var p := s.sessions[i]; Goto(s, i, PlaceReady(p.key, p.until, p.asked))
    case CommitPlace(i) =>
      var p := s.sessions[i];
      End(s.(holds := s.holds[p.key := Hold(p.until, false)]), i)
    case CommitRelease(i) =>
      var k := s.sessions[i].key;
      End(s.(holds := s.holds[k := s.holds[k].(released := true)]), i)
    case StartPurge(i) => Goto(s, i, PurgeWaiting(s.clock, s.guarded))
    case LockForPurge(i) => Goto(s, i, PurgeLocked(s.sessions[i].read))
    case DeleteInquiries(i) =>
      var read := s.sessions[i].read;
      Goto(s, i, InquiriesDeleted(read, Expired(s.records, s.holds, Inquiry, read)))
    case DeleteLeads(i) =>
      var p := s.sessions[i];
      Goto(s, i, LeadsDeleted(p.read, p.doomed + Expired(s.records, s.holds, Lead, p.read)))
    case CommitPurge(i) => End(s.(records := Without(s.records, s.sessions[i].doomed)), i)
    case StartDrop(i) => Goto(s, i, DropWaiting)
    case LockForDrop(i) => Goto(s, i, DropLocked)
    case CheckDrop(i) => Goto(s, i, DropChecked)
    case CommitDrop(i) => End(s.(holds := map[], guarded := false), i)
    case Abort(i) => End(s, i)
  }

  // ----- what every step keeps -----

  predicate OneExcludes(s: State) {
    forall i, j | i in s.sessions && j in s.sessions && Excludes(s.sessions[i]) && Excludes(s.sessions[j]) :: i == j
  }

  predicate OneReady(s: State) {
    forall i, j | i in s.sessions && j in s.sessions && s.sessions[i].PlaceReady? && s.sessions[j].PlaceReady?
      && s.sessions[i].key == s.sessions[j].key :: i == j
  }

  /** The lock modes in force are compatible. */
  predicate LocksAgree(s: State) {
    (NoneWrites(s) || NoneShares(s)) && (NoneExcludes(s) || (NoneWrites(s) && NoneShares(s)))
    && OneExcludes(s) && OneReady(s)
  }

  /** Of one kind, only held records past their time are spared. */
  predicate Swept(s: State, kind: Kind, read: int, doomed: set<Key>) {
    forall k | k in s.records && k.kind == kind && k !in doomed && s.records[k] < read - RETENTION ::
      HeldAt(s.holds, k, read)
  }

  /** A purge spares what was held at its own, older, clock reading; a checked session still has what it checked. */
  predicate PhaseKnows(s: State, p: Phase) {
    match p
    case Placing(_, _, asked) => asked <= s.clock
    case PlaceLocked(_, _, asked) => asked <= s.clock
    case PlaceReady(k, _, asked) => asked <= s.clock && k in s.records && !HeldAt(s.holds, k, asked)
    case PurgeWaiting(read, guarded) => read <= s.clock && (s.guarded ==> guarded)
    case PurgeLocked(read) => read <= s.clock
    case InquiriesDeleted(read, doomed) =>
      && read <= s.clock && (forall k | k in doomed :: !HeldAt(s.holds, k, read)) && Swept(s, Inquiry, read, doomed)
      && PastTime(s, read, doomed) && (forall k | k in doomed :: k.kind == Inquiry)
    case LeadsDeleted(read, doomed) =>
      && read <= s.clock && (forall k | k in doomed :: !HeldAt(s.holds, k, read))
      && Swept(s, Inquiry, read, doomed) && Swept(s, Lead, read, doomed) && PastTime(s, read, doomed)
    case DropChecked => forall k | k in s.holds :: !HeldAt(s.holds, k, s.clock)
    case _ => true
  }

  /** What is deleted is there until the commit, and its time is over. */
  predicate PastTime(s: State, read: int, doomed: set<Key>) {
    forall k | k in doomed :: k in s.records && s.records[k] < read - RETENTION
  }

  /** No row is deleted by two sessions. */
  predicate DoomedApart(s: State) {
    forall i, j | i in s.sessions && j in s.sessions && i != j :: Doomed(s.sessions[i]) !! Doomed(s.sessions[j])
  }

  predicate SessionsKnow(s: State) {
    forall i | i in s.sessions :: PhaseKnows(s, s.sessions[i])
  }

  /** The promise: a record with an effective hold exists. */
  predicate HeldRecordsExist(s: State) {
    forall k | k in s.holds && HeldAt(s.holds, k, s.clock) :: k in s.records
  }

  /** Once the downgrade is done there are no holds and nobody locks their table. */
  predicate DropIsFinal(s: State) {
    s.guarded || (s.holds == map[] && NoneWrites(s) && NoneExcludes(s))
  }

  predicate Inv(s: State) {
    LocksAgree(s) && SessionsKnow(s) && DoomedApart(s) && HeldRecordsExist(s) && DropIsFinal(s)
  }

  // ----- the proofs, one concern at a time -----

  lemma OnlyLockStepsLock(s: State, e: Step)
    requires Enabled(s, e)
    ensures NoneWrites(s) && !e.LockForWrite? ==> NoneWrites(Apply(s, e))
    ensures NoneShares(s) && !e.LockForPurge? ==> NoneShares(Apply(s, e))
    ensures NoneExcludes(s) && !e.LockForDrop? ==> NoneExcludes(Apply(s, e))
    ensures OneExcludes(s) && !e.LockForDrop? ==> OneExcludes(Apply(s, e))
  {
    var t := Apply(s, e);
    forall i | i in t.sessions
      ensures Writes(t.sessions[i]) && !e.LockForWrite? ==> i in s.sessions && Writes(s.sessions[i])
      ensures Shares(t.sessions[i]) && !e.LockForPurge? ==> i in s.sessions && Shares(s.sessions[i])
      ensures Excludes(t.sessions[i]) && !e.LockForDrop? ==> i in s.sessions && Excludes(s.sessions[i])
    {
    }
  }

  lemma StepKeepsTargetsApart(s: State, e: Step)
    requires Enabled(s, e) && OneReady(s)
    ensures OneReady(Apply(s, e))
  {
    var t := Apply(s, e);
    forall i | i in t.sessions && t.sessions[i].PlaceReady?
      ensures e == FindTarget(i) || (i in s.sessions && s.sessions[i] == t.sessions[i])
    {
    }
  }

  lemma StepKeepsLocks(s: State, e: Step)
    requires Inv(s) && Enabled(s, e)
    ensures LocksAgree(Apply(s, e)) && DropIsFinal(Apply(s, e))
  {
    OnlyLockStepsLock(s, e);
    StepKeepsTargetsApart(s, e);
    if e.LockForPurge? {
      assert PhaseKnows(s, s.sessions[e.id]);
    } else if e.CommitDrop? {
      assert Excludes(s.sessions[e.id]) && NoneExcludes(Apply(s, e));
    }
  }

  lemma LaterHoldsLess(holds: map<Key, Hold>, k: Key, earlier: int, later: int)
    requires earlier <= later && HeldAt(holds, k, later)
    ensures HeldAt(holds, k, earlier)
  {
  }

  lemma StepKeepsPromise(s: State, e: Step)
    requires Inv(s) && Enabled(s, e)
    ensures HeldRecordsExist(Apply(s, e))
  {
    var t := Apply(s, e);
    forall k | HeldAt(t.holds, k, t.clock) ensures k in t.records {
      if e.CommitPurge? {
        assert PhaseKnows(s, s.sessions[e.id]);
        if k in s.sessions[e.id].doomed {
          LaterHoldsLess(s.holds, k, s.sessions[e.id].read, s.clock);
        }
      } else if e.CommitPlace? {
        assert PhaseKnows(s, s.sessions[e.id]);
      } else if e.CommitRelease? {
        assert HeldAt(s.holds, k, s.clock);
      } else {
        LaterHoldsLess(t.holds, k, s.clock, t.clock);
      }
    }
  }

  lemma ActorKnows(s: State, e: Step, i: int)
    requires Inv(s) && Enabled(s, e)
    requires i in Apply(s, e).sessions && !(i in s.sessions && Apply(s, e).sessions[i] == s.sessions[i])
    ensures PhaseKnows(Apply(s, e), Apply(s, e).sessions[i])
  {
    if i in s.sessions {
      assert PhaseKnows(s, s.sessions[i]);
    }
  }

  /** A record that appears or is renewed is not past its time, and one that goes was locked by nobody else. */
  lemma RecordStepKeepsKnowledge(s: State, e: Step, i: int)
    requires Inv(s) && Enabled(s, e)
    requires i in Apply(s, e).sessions && i in s.sessions && Apply(s, e).sessions[i] == s.sessions[i]
    requires e.Submit? || e.Resubmit? || e.CommitPurge?
    ensures PhaseKnows(Apply(s, e), s.sessions[i])
  {
    assert PhaseKnows(s, s.sessions[i]);
  }

  /** The hold table changes only under locks that keep a purge and a checked downgrade out. */
  lemma HoldStepKeepsKnowledge(s: State, e: Step, i: int)
    requires Inv(s) && Enabled(s, e)
    requires i in Apply(s, e).sessions && i in s.sessions && Apply(s, e).sessions[i] == s.sessions[i]
    requires e.CommitPlace? || e.CommitRelease? || e.CommitDrop?
    ensures PhaseKnows(Apply(s, e), s.sessions[i])
  {
    assert PhaseKnows(s, s.sessions[i]);
  }

  /** Every other step changes the clock or the acting session alone. */
  lemma OtherStepKeepsKnowledge(s: State, e: Step, i: int)
    requires Inv(s) && Enabled(s, e)
    requires i in Apply(s, e).sessions && i in s.sessions && Apply(s, e).sessions[i] == s.sessions[i]
    requires !e.Submit? && !e.Resubmit? && !e.CommitPurge? && !e.CommitPlace? && !e.CommitRelease? && !e.CommitDrop?
    ensures PhaseKnows(Apply(s, e), s.sessions[i])
  {
    assert PhaseKnows(s, s.sessions[i]);
  }

  lemma StepKeepsKnowledge(s: State, e: Step)
    requires Inv(s) && Enabled(s, e)
    ensures SessionsKnow(Apply(s, e))
  {
    var t := Apply(s, e);
    forall i | i in t.sessions ensures PhaseKnows(t, t.sessions[i]) {
      if !(i in s.sessions && t.sessions[i] == s.sessions[i]) {
        ActorKnows(s, e, i);
      } else if e.Submit? || e.Resubmit? || e.CommitPurge? {
        RecordStepKeepsKnowledge(s, e, i);
      } else if e.CommitPlace? || e.CommitRelease? || e.CommitDrop? {
        HoldStepKeepsKnowledge(s, e, i);
      } else {
        OtherStepKeepsKnowledge(s, e, i);
      }
    }
  }

  lemma StepKeepsDoomedApart(s: State, e: Step)
    requires Inv(s) && Enabled(s, e)
    ensures DoomedApart(Apply(s, e))
  {
    var t := Apply(s, e);
    forall i | i in t.sessions
      ensures Doomed(t.sessions[i]) == {} || i in s.sessions
      ensures i in s.sessions ==> forall k | k in Doomed(t.sessions[i]) ::
        k in Doomed(s.sessions[i]) || ((e == DeleteInquiries(i) || e == DeleteLeads(i)) && RowFree(s, k))
    {
    }
  }

  lemma StepKeepsInv(s: State, e: Step)
    requires Inv(s) && Enabled(s, e)
    ensures Inv(Apply(s, e))
  {
    StepKeepsLocks(s, e);
    StepKeepsPromise(s, e);
    StepKeepsKnowledge(s, e);
    StepKeepsDoomedApart(s, e);
  }

  // ----- what a purge, a downgrade and a hold writer do to a record and its hold -----

  /** Whatever step removes a record, no hold on it was effective, and it was past its time at the purge's reading. */
  lemma RemovedRecordsWereFree(s: State, e: Step, k: Key)
    requires Inv(s) && Enabled(s, e) && k in s.records && k !in Apply(s, e).records
    ensures e.CommitPurge? && !HeldAt(s.holds, k, s.clock) && s.records[k] < s.sessions[e.id].read - RETENTION <= s.clock - RETENTION
  {
    assert PhaseKnows(s, s.sessions[e.id]);
    if HeldAt(s.holds, k, s.clock) {
      LaterHoldsLess(s.holds, k, s.sessions[e.id].read, s.clock);
    }
  }

  /** An effective hold ends by its own end or by a release, never by a new placement, a purge or the downgrade. */
  lemma EffectiveHoldsEndOnlyBy(s: State, e: Step, k: Key)
    requires Inv(s) && Enabled(s, e) && HeldAt(s.holds, k, s.clock) && !HeldAt(Apply(s, e).holds, k, Apply(s, e).clock)
    ensures e.Tick? || (e.CommitRelease? && s.sessions[e.id].key == k)
  {
    if e.CommitDrop? || e.CommitPlace? {
      assert PhaseKnows(s, s.sessions[e.id]);
    }
    if e.CommitPlace? && s.sessions[e.id].key == k {
      LaterHoldsLess(s.holds, k, s.sessions[e.id].asked, s.clock);
    }
  }

  /** When a purge commits, what is left past its time, by the purge's own reading, is held. */
  lemma PurgeLeavesOnlyHeld(s: State, e: Step, k: Key)
    requires Inv(s) && Enabled(s, e) && e.CommitPurge?
    requires k in Apply(s, e).records && Apply(s, e).records[k] < s.sessions[e.id].read - RETENTION
    ensures HeldAt(s.holds, k, s.sessions[e.id].read) && Apply(s, e).holds == s.holds
  {
    assert PhaseKnows(s, s.sessions[e.id]);
  }

  // ----- every run -----

  predicate Run(states: seq<State>, steps: seq<Step>) {
    && |states| == |steps| + 1
    && forall n | 0 <= n < |steps| :: Enabled(states[n], steps[n]) && states[n + 1] == Apply(states[n], steps[n])
  }

  /** The hold table has just been created. */
  predicate Fresh(s: State) {
    s.sessions == map[] && s.holds == map[] && s.guarded
  }

  lemma {:induction false} RunKeepsInv(states: seq<State>, steps: seq<Step>, n: nat)
    requires Run(states, steps) && Fresh(states[0]) && n <= |steps|
    ensures Inv(states[n])
  {
    if n > 0 {
      RunKeepsInv(states, steps, n - 1);
      StepKeepsInv(states[n - 1], steps[n - 1]);
    }
  }

  /**
   In every interleaving: a record under a live hold is there; only a purge removes records, each of them without
   a live hold and more than 90 days old; it leaves no other record that was so old when it read its clock; the
   downgrade drops no live hold; and a live hold stays so until its own end or its release.
   */
  lemma RunIsSafe(states: seq<State>, steps: seq<Step>, n: nat, k: Key)
    requires Run(states, steps) && Fresh(states[0]) && n < |steps|
    ensures Protects(states[n].holds, k, states[n].clock) ==> k in states[n].records
    ensures k in states[n].records && k !in states[n + 1].records ==>
      && steps[n].CommitPurge? && !Protects(states[n].holds, k, states[n].clock)
      && states[n].records[k] < states[n].clock - 7776000
    ensures steps[n].CommitPurge? && k in states[n + 1].records ==>
      var read := states[n].sessions[steps[n].id].read;
      Protects(states[n].holds, k, read) || states[n + 1].records[k] >= read - 7776000
    ensures steps[n].CommitDrop? ==> !Protects(states[n].holds, k, states[n].clock)
    ensures Protects(states[n].holds, k, states[n].clock) && !Protects(states[n + 1].holds, k, states[n + 1].clock) ==>
      steps[n].Tick? || (steps[n].CommitRelease? && states[n].sessions[steps[n].id].key == k)
  {
    RunKeepsInv(states, steps, n);
    var s, e := states[n], steps[n];
    HeldColumns(s.holds, k, s.clock);
    HeldColumns(states[n + 1].holds, k, states[n + 1].clock);
    if k in s.records && k !in Apply(s, e).records {
      RemovedRecordsWereFree(s, e, k);
    }
    if e.CommitPurge? {
      var read := s.sessions[e.id].read;
      HeldColumns(s.holds, k, read);
      if k in Apply(s, e).records && Apply(s, e).records[k] < read - RETENTION {
        PurgeLeavesOnlyHeld(s, e, k);
      }
    }
    if e.CommitDrop? {
      assert PhaseKnows(s, s.sessions[e.id]);
    }
    if HeldAt(s.holds, k, s.clock) && !HeldAt(states[n + 1].holds, k, states[n + 1].clock) {
      EffectiveHoldsEndOnlyBy(s, e, k);
    }
  }

  // ----- where holds and records come from -----

  /** One of the first n steps asked for this hold, with an end that was still to come. */
  predicate Asked(states: seq<State>, steps: seq<Step>, n: nat, k: Key, until: Option<int>)
    requires n <= |steps| && n <= |states|
  {
    exists m | 0 <= m < n ::
      steps[m].AskPlace? && steps[m].key == k && steps[m].until == until && (until == None || states[m].clock < until.value)
  }

  predicate Wants(p: Phase) {
    p.Placing? || p.PlaceLocked? || p.PlaceReady?
  }

  predicate AllWereAsked(states: seq<State>, steps: seq<Step>, n: nat, s: State)
    requires n <= |steps| && n <= |states|
  {
    && (forall k | k in s.holds :: Asked(states, steps, n, k, s.holds[k].until))
    && (forall i | i in s.sessions && Wants(s.sessions[i]) ::
          Asked(states, steps, n, s.sessions[i].key, s.sessions[i].until))
  }

  /** A writer keeps its key and its end through the waits for the table and for the row. */
  lemma RequestIsKept(s: State, e: Step, i: int)
    requires Enabled(s, e) && i in Apply(s, e).sessions && Wants(Apply(s, e).sessions[i])
    ensures
      var p := Apply(s, e).sessions[i];
      || (e == AskPlace(i, p.key, p.until) && (p.until == None || s.clock < p.until.value))
      || (i in s.sessions && Wants(s.sessions[i]) && s.sessions[i].key == p.key && s.sessions[i].until == p.until)
  {
  }

  lemma AskedAfterStep(states: seq<State>, steps: seq<Step>, n: nat, s: State)
    requires n < |steps| && n < |states| && states[n] == s && Enabled(s, steps[n]) && AllWereAsked(states, steps, n, s)
    ensures AllWereAsked(states, steps, n + 1, Apply(s, steps[n]))
  {
    var t := Apply(s, steps[n]);
    forall k, until | Asked(states, steps, n, k, until) ensures Asked(states, steps, n + 1, k, until) {
    }
    forall k | k in t.holds ensures Asked(states, steps, n + 1, k, t.holds[k].until) {
      assert k in s.holds ==> Asked(states, steps, n, k, s.holds[k].until);
    }
    forall i | i in t.sessions && Wants(t.sessions[i])
      ensures Asked(states, steps, n + 1, t.sessions[i].key, t.sessions[i].until)
    {
      RequestIsKept(s, steps[n], i);
    }
  }

  /** Every hold of a run is one that was asked for, for that record and with that end. */
  lemma {:induction false} HoldsWereAskedFor(states: seq<State>, steps: seq<Step>, n: nat)
    requires Run(states, steps) && Fresh(states[0]) && n <= |steps|
    ensures AllWereAsked(states, steps, n, states[n])
  {
    if n > 0 {
      HoldsWereAskedFor(states, steps, n - 1);
      AskedAfterStep(states, steps, n - 1, states[n - 1]);
    }
  }

  /** A hold is marked released by a release of that hold alone, and by one release only. */
  lemma OnlyReleaseReleases(s: State, e: Step, k: Key)
    requires Enabled(s, e) && k in Apply(s, e).holds && Apply(s, e).holds[k].released
    ensures
      if e.CommitRelease? && s.sessions[e.id].key == k then k in s.holds && Unreleased(s.holds[k])
      else k in s.holds && s.holds[k].released
  {
  }

  /** The record was submitted at this time; only a lead can be submitted again. */
  predicate Submitted(states: seq<State>, steps: seq<Step>, n: nat, k: Key, time: int)
    requires n <= |steps| && n <= |states|
  {
    exists m | 0 <= m < n :: (steps[m] == Submit(k) || (steps[m] == Resubmit(k) && k.kind == Lead)) && states[m].clock == time
  }

  lemma RecordAfterStep(s: State, e: Step, k: Key)
    requires Enabled(s, e) && k in Apply(s, e).records
    ensures (k in s.records && s.records[k] == Apply(s, e).records[k])
      || ((e == Submit(k) || (e == Resubmit(k) && k.kind == Lead)) && Apply(s, e).records[k] == s.clock)
  {
  }

  /** A record's time is that of the first state, or of a submission at that moment. */
  lemma {:induction false} RecordsWereSubmitted(states: seq<State>, steps: seq<Step>, n: nat, k: Key)
    requires Run(states, steps) && n <= |steps| && k in states[n].records
    ensures (k in states[0].records && states[0].records[k] == states[n].records[k])
      || Submitted(states, steps, n, k, states[n].records[k])
  {
    if n > 0 {
      RecordAfterStep(states[n - 1], steps[n - 1], k);
      if k in states[n - 1].records && states[n - 1].records[k] == states[n].records[k] {
        RecordsWereSubmitted(states, steps, n - 1, k);
      }
    }
  }

  /** What is committed is in force at once: a placed hold until its end, a release, and a submission. */
  lemma CommitsAreInForce(s: State, e: Step)
    requires Inv(s) && Enabled(s, e)
    ensures e.CommitPlace? ==>
      var p := s.sessions[e.id];
      p.key in s.records && (Protects(Apply(s, e).holds, p.key, s.clock) <==> p.until.None? || s.clock < p.until.value)
    ensures e.CommitRelease? ==> !Protects(Apply(s, e).holds, s.sessions[e.id].key, s.clock)
    ensures e.Submit? || e.Resubmit? ==> e.key in Apply(s, e).records && Apply(s, e).records[e.key] == s.clock
  {
    if e.CommitPlace? {
      assert PhaseKnows(s, s.sessions[e.id]);
    }
  }

  // ----- what each request comes to when nobody else is at work -----

  /** The steps one after another, as far as they are enabled. */
  function Play(s: State, steps: seq<Step>): Option<State>
    decreases |steps|
  {
    if steps == [] then Some(s)
    else if Enabled(s, steps[0]) then Play(Apply(s, steps[0]), steps[1..])
    else None
  }

  lemma PlayOne(s: State, e: Step, rest: seq<Step>)
    requires Enabled(s, e)
    ensures Play(s, [e] + rest) == Play(Apply(s, e), rest)
  {
    assert ([e] + rest)[1..] == rest;
  }

  lemma PlayThree(s: State, a: Step, b: Step, c: Step)
    requires Enabled(s, a) && Enabled(Apply(s, a), b) && Enabled(Apply(Apply(s, a), b), c)
    ensures Play(s, [a, b, c]) == Some(Apply(Apply(Apply(s, a), b), c))
  {
    PlayOne(Apply(Apply(s, a), b), c, []);
    PlayOne(Apply(s, a), b, [c]);
    PlayOne(s, a, [b, c]);
    assert [c] + [] == [c] && [b] + [c] == [b, c] && [a] + [b, c] == [a, b, c];
  }

  lemma PlayFour(s: State, a: Step, b: Step, c: Step, d: Step)
    requires Enabled(s, a) && Enabled(Apply(s, a), b) && Enabled(Apply(Apply(s, a), b), c)
    requires Enabled(Apply(Apply(Apply(s, a), b), c), d)
    ensures Play(s, [a, b, c, d]) == Some(Apply(Apply(Apply(Apply(s, a), b), c), d))
  {
    PlayThree(Apply(s, a), b, c, d);
    PlayOne(s, a, [b, c, d]);
    assert [a] + [b, c, d] == [a, b, c, d];
  }

  lemma PlayTwoMore(s: State, t: State, u: State, a: Step, b: Step, rest: seq<Step>)
    requires Enabled(s, a) && Enabled(Apply(s, a), b) && t == Apply(Apply(s, a), b) && Play(t, rest) == Some(u)
    ensures Play(s, [a, b] + rest) == Some(u)
  {
    PlayOne(Apply(s, a), b, rest);
    PlayOne(s, a, [b] + rest);
    assert [a] + ([b] + rest) == [a, b] + rest;
  }

  predicate Quiet(s: State) {
    s.sessions == map[] && s.guarded
  }

  /** A hold is placed on a record that is there and under no live hold, with the end that was asked for. */
  lemma PlaceAlone(s: State, k: Key, until: Option<int>)
    requires Quiet(s) && k in s.records && !Protects(s.holds, k, s.clock) && (until.None? || s.clock < until.value)
    ensures Play(s, [AskPlace(1, k, until), LockForWrite(1), FindTarget(1), CommitPlace(1)])
         == Some(s.(holds := s.holds[k := Hold(until, false)]))
  {
    HeldColumns(s.holds, k, s.clock);
    PlayFour(s, AskPlace(1, k, until), LockForWrite(1), FindTarget(1), CommitPlace(1));
  }

  /** A hold that is not released yet is released. */
  lemma ReleaseAlone(s: State, k: Key)
    requires Quiet(s) && k in s.holds && Unreleased(s.holds[k])
    ensures Play(s, [AskRelease(1, k), LockForWrite(1), CommitRelease(1)])
         == Some(s.(holds := s.holds[k := Hold(s.holds[k].until, true)]))
  {
    PlayThree(s, AskRelease(1, k), LockForWrite(1), CommitRelease(1));
  }

  /** What a purge at the present moment keeps. */
  function Kept(s: State): map<Key, int> {
    map k | k in s.records && (s.records[k] >= s.clock - 7776000 || Protects(s.holds, k, s.clock)) :: s.records[k]
  }

  lemma KeptAre(s: State)
    ensures Without(s.records, Expired(s.records, s.holds, Inquiry, s.clock) + Expired(s.records, s.holds, Lead, s.clock)) == Kept(s)
  {
    forall k ensures HeldAt(s.holds, k, s.clock) <==> Protects(s.holds, k, s.clock) {
      HeldColumns(s.holds, k, s.clock);
    }
  }

  lemma PurgeGetsItsLock(s: State) returns (t: State)
    requires Quiet(s)
    ensures Enabled(s, StartPurge(1)) && Enabled(Apply(s, StartPurge(1)), LockForPurge(1))
    ensures t == Apply(Apply(s, StartPurge(1)), LockForPurge(1))
    ensures t == s.(sessions := map[1 := PurgeLocked(s.clock)])
  {
    t := Apply(Apply(s, StartPurge(1)), LockForPurge(1));
  }

  lemma PurgeDeletes(t: State)
    requires t.sessions == map[1 := PurgeLocked(t.clock)]
    ensures Play(t, [DeleteInquiries(1), DeleteLeads(1), CommitPurge(1)]) == Some(t.(sessions := map[], records := Kept(t)))
  {
    KeptAre(t);
    PlayThree(t, DeleteInquiries(1), DeleteLeads(1), CommitPurge(1));
  }

  /** The purge does what its one function does: 90 days, and beyond them what is under a live hold. */
  lemma PurgeAlone(s: State)
    requires Quiet(s)
    ensures Play(s, [StartPurge(1), LockForPurge(1)] + [DeleteInquiries(1), DeleteLeads(1), CommitPurge(1)])
         == Some(s.(records := Kept(s)))
  {
    var t := PurgeGetsItsLock(s);
    PurgeDeletes(t);
    PlayTwoMore(s, t, t.(sessions := map[], records := Kept(t)), StartPurge(1), LockForPurge(1),
                [DeleteInquiries(1), DeleteLeads(1), CommitPurge(1)]);
    assert t.(sessions := map[], records := Kept(t)) == s.(records := Kept(s));
  }

  /** The downgrade drops the holds if none is live. */
  lemma DropAlone(s: State)
    requires Quiet(s) && forall k | k in s.holds :: !Protects(s.holds, k, s.clock)
    ensures Play(s, [StartDrop(1), LockForDrop(1)] + [CheckDrop(1), CommitDrop(1)])
         == Some(s.(holds := map[], guarded := false))
  {
    forall k ensures HeldAt(s.holds, k, s.clock) <==> Protects(s.holds, k, s.clock) {
      HeldColumns(s.holds, k, s.clock);
    }
    var t := DropGetsItsLock(s);
    DropIsChecked(t);
    PlayTwoMore(s, t, s.(holds := map[], guarded := false), StartDrop(1), LockForDrop(1), [CheckDrop(1), CommitDrop(1)]);
  }

  lemma DropIsChecked(t: State)
    requires t.sessions == map[1 := DropLocked] && forall k | k in t.holds :: !HeldAt(t.holds, k, t.clock)
    ensures Play(t, [CheckDrop(1), CommitDrop(1)]) == Some(t.(sessions := map[], holds := map[], guarded := false))
  {
    var u := Apply(Apply(t, CheckDrop(1)), CommitDrop(1));
    PlayTwoMore(t, u, u, CheckDrop(1), CommitDrop(1), []);
    assert [CheckDrop(1), CommitDrop(1)] + [] == [CheckDrop(1), CommitDrop(1)];
  }

  lemma DropGetsItsLock(s: State) returns (t: State)
    requires Quiet(s)
    ensures Enabled(s, StartDrop(1)) && Enabled(Apply(s, StartDrop(1)), LockForDrop(1))
    ensures t == Apply(Apply(s, StartDrop(1)), LockForDrop(1))
    ensures t == s.(sessions := map[1 := DropLocked])
  {
    t := Apply(Apply(s, StartDrop(1)), LockForDrop(1));
  }

  /** After the downgrade the purge goes on without the holds. */
  lemma UnguardedPurgeAlone(s: State)
    requires s.sessions == map[] && !s.guarded && s.holds == map[]
    ensures Play(s, [StartPurge(1), LockForPurge(1)] + [DeleteInquiries(1), DeleteLeads(1), CommitPurge(1)])
         == Some(s.(records := Kept(s)))
  {
    var t := s.(sessions := map[1 := PurgeLocked(s.clock)]);
    assert t == Apply(Apply(s, StartPurge(1)), LockForPurge(1));
    PurgeDeletes(t);
    PlayTwoMore(s, t, t.(sessions := map[], records := Kept(t)), StartPurge(1), LockForPurge(1),
                [DeleteInquiries(1), DeleteLeads(1), CommitPurge(1)]);
    assert t.(sessions := map[], records := Kept(t)) == s.(records := Kept(s));
  }

  // ----- sessions beside each other -----

  /** Writers of different records do not wait for each other: both can be ready at once. */
  lemma WritersOfOtherRowsGoOn(s: State, i: int, j: int)
    requires i in s.sessions && j in s.sessions && s.sessions[i].PlaceReady? && s.sessions[j].PlaceLocked?
    requires forall l | l in s.sessions :: l == i || l == j
    requires s.sessions[i].key != s.sessions[j].key && s.sessions[j].key in s.records
    requires !Protects(s.holds, s.sessions[j].key, s.sessions[j].asked)
    ensures Enabled(s, FindTarget(j)) && Enabled(s, CommitPlace(i))
  {
    HeldColumns(s.holds, s.sessions[j].key, s.sessions[j].asked);
  }

  /** A lead that no open session has to do with is renewed, and time can always pass. */
  lemma LeadIsRenewed(s: State, k: Key, seconds: nat)
    requires k in s.records && k.kind == Lead
    requires forall i | i in s.sessions :: k !in Doomed(s.sessions[i]) && !(s.sessions[i].PlaceReady? && s.sessions[i].key == k)
    ensures Enabled(s, Resubmit(k)) && Apply(s, Resubmit(k)) == s.(records := s.records[k := s.clock])
    ensures Enabled(s, Tick(seconds)) && Apply(s, Tick(seconds)) == s.(clock := s.clock + seconds)
  {
  }

  /** The phases that follow each other in one session. */
  predicate Follows(p: Phase, q: Phase) {
    || (p.Placing? && q.PlaceLocked?) || (p.PlaceLocked? && q.PlaceReady?) || (p.Releasing? && q.ReleaseLocked?)
    || (p.PurgeWaiting? && q.PurgeLocked?) || (p.PurgeLocked? && q.InquiriesDeleted?)
    || (p.InquiriesDeleted? && q.LeadsDeleted?)
    || (p.DropWaiting? && q.DropLocked?) || (p.DropLocked? && q.DropChecked?)
  }

  /** A step starts one session, takes one a phase further, ends one, or leaves all of them alone. */
  lemma SessionsGoInOrder(s: State, e: Step, i: int)
    requires Enabled(s, e)
    ensures
      var t := Apply(s, e);
      if i in s.sessions && i in t.sessions then t.sessions[i] == s.sessions[i] || Follows(s.sessions[i], t.sessions[i])
      else if i in t.sessions then
        t.sessions[i].Placing? || t.sessions[i].Releasing? || t.sessions[i].PurgeWaiting? || t.sessions[i].DropWaiting?
      else true
  {
  }

  /** Who waits for the hold table finds it there: after the downgrade only a purge that never asked for it goes on. */
  lemma WaitersFindTheTable(s: State, e: Step)
    requires Enabled(s, e) && !s.guarded
    ensures !e.LockForWrite? && !e.LockForDrop?
    ensures e.LockForPurge? ==> !s.sessions[e.id].guarded
  {
  }
}
