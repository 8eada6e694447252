/**
 Realtime signals of one SQLAlchemy session: queued at flush, pruned when a
 savepoint rolls back, published when the root transaction commits.

 The queue tags a change with the innermost transaction that was open when the
 change was queued, by its numeric identity, and pruning compares that tag only.
 */
module SessionEvents {
  /** The deduplication key of a change: hotel, domain, event type, payload. */
  type Key = int

  datatype Change = Change(key: Key, tag: int)

  /** What the listeners can see: the root transaction, the open savepoints outermost first, and the queue. */
  datatype View = View(root: int, nested: seq<int>, pending: seq<Change>)

  function Innermost(v: View): int {
    if v.nested == [] then v.root else v.nested[|v.nested| - 1]
  }

  function Keys(cs: seq<Change>): seq<Key> {
    seq(|cs|, i requires 0 <= i < |cs| => cs[i].key)
  }

  function Enqueue(cs: seq<Change>, key: Key, tag: int): seq<Change> {
    if key in Keys(cs) then cs else cs + [Change(key, tag)]
  }

  /** The entries whose tag differs from `tag`, in their order. */
  function Prune(cs: seq<Change>, tag: int): seq<Change> {
    if cs == [] then []
    else (if cs[0].tag == tag then [] else [cs[0]]) + Prune(cs[1..], tag)
  }

  // ----- the listeners, on the session they mutate -----

  class Session {
    var root: int
    var nested: seq<int>
    var pending: seq<Change>
    var published: seq<Key>

    ghost function Seen(): View
      reads this
    {
      View(root, nested, pending)
    }

    constructor (id: int)
      ensures Seen() == View(id, [], []) && published == []
    {
      root, nested, pending, published := id, [], [], [];
    }

    method AfterCommit()
      modifies this`pending, this`published
      ensures nested != [] ==> pending == old(pending) && published == old(published)
      ensures nested == [] ==> pending == [] && published == old(published) + Keys(old(pending))
    {
      if nested != [] {
        return;
      }
      var batch := pending;
      pending := [];
      var i := 0;
      while i < |batch|
        invariant 0 <= i <= |batch|
        invariant published == old(published) + Keys(batch)[..i]
        invariant pending == []
      {
        published := published + [batch[i].key];
        i := i + 1;
      }
    }

    method AfterFlush(keys: seq<Key>)
      modifies this`pending
      ensures Seen() == FlushAll(old(Seen()), keys)
    {
      var i := 0;
      while i < |keys|
        invariant 0 <= i <= |keys|
        invariant FlushAll(Seen(), keys[i..]) == FlushAll(old(Seen()), keys)
      {
        pending := Enqueue(pending, keys[i], if nested == [] then root else nested[|nested| - 1]);
        i := i + 1;
      }
    }

    method AfterRollback()
      modifies this`pending
      ensures pending == if nested == [] then [] else old(pending)
    {
      if nested != [] {
        return;
      }
      pending := [];
    }

    method AfterSoftRollback(previousNested: bool, previous: int, inTransaction: bool)
      modifies this`pending
      ensures pending ==
              if previousNested then Prune(old(pending), previous)
              else if inTransaction then old(pending) else []
    {
      if previousNested {
        var kept: seq<Change> := [];
        var i := 0;
        while i < |pending|
          invariant 0 <= i <= |pending|
          invariant pending == old(pending)
          invariant kept + Prune(pending[i..], previous) == Prune(pending, previous)
        {
          if pending[i].tag != previous {
            kept := kept + [pending[i]];
          }
          i := i + 1;
        }
        pending := kept;
      } else if !inTransaction {
        pending := [];
      }
    }

    // ----- what the library calls, in its order -----

    method BeginSavepoint(id: int)
      modifies this`nested
      ensures Seen() == Step(old(Seen()), Begin(id))
    {
      nested := nested + [id];
    }

    method ReleaseSavepoint()
      requires nested != []
      modifies this
      ensures Seen() == Step(old(Seen()), Release) && published == old(published)
    {
      AfterCommit();
      nested := nested[..|nested| - 1];
    }

    method RollbackSavepoint()
      requires nested != []
      modifies this
      ensures Seen() == Step(old(Seen()), RollbackTop) && published == old(published)
    {
      var top := nested[|nested| - 1];
      AfterRollback();
      nested := nested[..|nested| - 1];
      AfterSoftRollback(true, top, true);
    }

    /** The library releases savepoints that are still open before it commits the root. */
    method Commit(next: int)
      modifies this
      ensures Seen() == View(next, [], []) && published == old(published) + Keys(old(pending))
    {
      while nested != []
        invariant pending == old(pending) && published == old(published)
        decreases |nested|
      {
        ReleaseSavepoint();
      }
      AfterCommit();
      root := next;
    }

    method Rollback(next: int)
      modifies this
      ensures Seen() == View(next, [], []) && published == old(published)
    {
      while nested != []
        invariant published == old(published)
        decreases |nested|
      {
        RollbackSavepoint();
      }
      AfterRollback();
      AfterSoftRollback(false, root, false);
      root := next;
    }
  }

  // ----- the same steps on values -----

  /** What a transaction does between its first statement and its commit. */
  datatype Op = Begin(id: int) | Flush(key: Key) | Release | RollbackTop

  function Step(v: View, op: Op): View {
    match op
    case Begin(id) => v.(nested := v.nested + [id])
    case Flush(key) => v.(pending := Enqueue(v.pending, key, Innermost(v)))
    case Release => if v.nested == [] then v else v.(nested := v.nested[..|v.nested| - 1])
    case RollbackTop =>
      if v.nested == [] then v
      else v.(nested := v.nested[..|v.nested| - 1], pending := Prune(v.pending, Innermost(v)))
  }

  function FlushAll(v: View, keys: seq<Key>): View
    decreases |keys|
  {
    if keys == [] then v else FlushAll(Step(v, Flush(keys[0])), keys[1..])
  }

  /**
   The reference: one frame of writes for each open transaction, outermost
   first. Releasing merges a frame into its parent, rolling back drops it.
   */
  function Survive(frames: seq<seq<Key>>, op: Op): seq<seq<Key>>
    requires frames != []
  {
    var top := |frames| - 1;
    match op
    case Begin(_) => frames + [[]]
    case Flush(key) => frames[..top] + [frames[top] + [key]]
    case Release => if top == 0 then frames else frames[..top - 1] + [frames[top - 1] + frames[top]]
    case RollbackTop => if top == 0 then frames else frames[..top]
  }

  /** All writes that are not rolled back so far, in the order they were made. */
  function Flat<T>(frames: seq<seq<T>>): seq<T> {
    if frames == [] then [] else Flat(frames[..|frames| - 1]) + frames[|frames| - 1]
  }

  /** The first occurrence of each key, in order. */
  function Distinct(keys: seq<Key>): seq<Key> {
    if keys == [] then []
    else
      var front, last := keys[..|keys| - 1], keys[|keys| - 1];
      if last in front then Distinct(front) else Distinct(front) + [last]
  }

  function Queue(v: View, ops: seq<Op>): View
    decreases |ops|
  {
    if ops == [] then v else Queue(Step(v, ops[0]), ops[1..])
  }

  function Survivors(frames: seq<seq<Key>>, ops: seq<Op>): seq<seq<Key>>
    requires frames != []
    decreases |ops|
  {
    if ops == [] then frames else Survivors(Survive(frames, ops[0]), ops[1..])
  }

  // ----- small facts -----

  lemma {:induction false} FlatOfTop<T>(frames: seq<seq<T>>, top: seq<T>)
    ensures Flat(frames + [top]) == Flat(frames) + top
  {
    assert (frames + [top])[..|frames|] == frames;
  }

  lemma {:induction false} FlatMembers<T>(frames: seq<seq<T>>, k: T)
    ensures k in Flat(frames) <==> exists i | 0 <= i < |frames| :: k in frames[i]
  {
    if frames != [] {
      FlatMembers(frames[..|frames| - 1], k);
    }
  }

  lemma {:induction false} DistinctMembers(keys: seq<Key>, k: Key)
    ensures k in Distinct(keys) <==> k in keys
  {
    if keys != [] {
      DistinctMembers(keys[..|keys| - 1], k);
      assert keys == keys[..|keys| - 1] + [keys[|keys| - 1]];
    }
  }

  lemma {:induction false} DistinctHasNoRepeats(keys: seq<Key>)
    ensures forall i, j | 0 <= i < j < |Distinct(keys)| :: Distinct(keys)[i] != Distinct(keys)[j]
  {
    if keys != [] {
      var front := keys[..|keys| - 1];
      DistinctHasNoRepeats(front);
      DistinctMembers(front, keys[|keys| - 1]);
    }
  }

  lemma {:induction false} DistinctOfPrefix(x: seq<Key>, y: seq<Key>)
    ensures Distinct(x) <= Distinct(x + y)
  {
    if y == [] {
      assert x + y == x;
    } else {
      DistinctOfPrefix(x, y[..|y| - 1]);
      assert (x + y)[..|x + y| - 1] == x + y[..|y| - 1];
    }
  }

  lemma {:induction false} PruneMembers(cs: seq<Change>, tag: int, c: Change)
    ensures c in Prune(cs, tag) <==> c in cs && c.tag != tag
  {
    if cs != [] {
      PruneMembers(cs[1..], tag, c);
    }
  }

  lemma {:induction false} PruneKeepsAll(cs: seq<Change>, tag: int)
    requires forall c | c in cs :: c.tag != tag
    ensures Prune(cs, tag) == cs
  {
    if cs != [] {
      PruneKeepsAll(cs[1..], tag);
    }
  }

  lemma {:induction false} PruneSplits(xs: seq<Change>, ys: seq<Change>, tag: int)
    ensures Prune(xs + ys, tag) == Prune(xs, tag) + Prune(ys, tag)
  {
    if xs == [] {
      assert xs + ys == ys;
    } else {
      var first := if xs[0].tag == tag then [] else [xs[0]];
      PruneSplits(xs[1..], ys, tag);
      assert (xs + ys)[0] == xs[0] && (xs + ys)[1..] == xs[1..] + ys;
      assert Prune(xs + ys, tag) == first + (Prune(xs[1..], tag) + Prune(ys, tag));
    }
  }

  lemma {:induction false} PruneDropsAll(cs: seq<Change>, tag: int)
    requires forall c | c in cs :: c.tag == tag
    ensures Prune(cs, tag) == []
  {
    if cs != [] {
      PruneDropsAll(cs[1..], tag);
    }
  }

  // ----- one step -----

  /** The queue holds exactly the surviving writes, each once, in order. */
  predicate Matches(v: View, frames: seq<seq<Key>>) {
    && |frames| == |v.nested| + 1
    && Keys(v.pending) == Distinct(Flat(frames))
  }

  /**
   What pruning by tag needs of the queue: the changes queued since the
   innermost savepoint opened are exactly the changes tagged with it.
   */
  predicate Clean(v: View, frames: seq<seq<Key>>)
    requires |frames| == |v.nested| + 1 > 1
  {
    var older := |Distinct(Flat(frames[..|frames| - 1]))|;
    forall i | 0 <= i < |v.pending| :: v.pending[i].tag == Innermost(v) <==> older <= i
  }

  lemma FlatAfterFlush(frames: seq<seq<Key>>, key: Key)
    requires frames != []
    ensures Flat(Survive(frames, Flush(key))) == Flat(frames) + [key]
  {
    var top := |frames| - 1;
    assert frames == frames[..top] + [frames[top]];
    FlatOfTop(frames[..top], frames[top]);
    FlatOfTop(frames[..top], frames[top] + [key]);
    assert Flat(frames) + [key] == Flat(frames[..top]) + (frames[top] + [key]);
  }

  lemma FlatAfterRelease(frames: seq<seq<Key>>)
    requires frames != []
    ensures Flat(Survive(frames, Release)) == Flat(frames)
  {
    var top := |frames| - 1;
    if top > 0 {
      assert frames[..top] == frames[..top - 1] + [frames[top - 1]];
      assert frames == frames[..top] + [frames[top]];
      FlatOfTop(frames[..top], frames[top]);
      FlatOfTop(frames[..top - 1], frames[top - 1]);
      FlatOfTop(frames[..top - 1], frames[top - 1] + frames[top]);
      assert Flat(frames) == Flat(frames[..top - 1]) + (frames[top - 1] + frames[top]);
    }
  }

  lemma DistinctOfOneMore(keys: seq<Key>, key: Key)
    ensures Distinct(keys + [key]) == if key in Distinct(keys) then Distinct(keys) else Distinct(keys) + [key]
  {
    assert (keys + [key])[..|keys|] == keys;
    DistinctMembers(keys, key);
  }

  lemma BeginKeepsMatch(v: View, frames: seq<seq<Key>>, id: int)
    requires Matches(v, frames)
    ensures Matches(Step(v, Begin(id)), Survive(frames, Begin(id)))
  {
    FlatOfTop(frames, []);
    assert Flat(frames) + [] == Flat(frames);
  }

  lemma FlushKeepsMatch(v: View, frames: seq<seq<Key>>, key: Key)
    requires Matches(v, frames)
    ensures Matches(Step(v, Flush(key)), Survive(frames, Flush(key)))
  {
    FlatAfterFlush(frames, key);
    DistinctOfOneMore(Flat(frames), key);
  }

  lemma ReleaseKeepsMatch(v: View, frames: seq<seq<Key>>)
    requires Matches(v, frames)
    ensures Matches(Step(v, Release), Survive(frames, Release))
  {
    FlatAfterRelease(frames);
  }

  /** Any step but the rollback of a savepoint keeps the queue right. */
  lemma ForwardStepKeepsMatch(v: View, frames: seq<seq<Key>>, op: Op)
    requires Matches(v, frames)
    requires op.RollbackTop? ==> v.nested == []
    ensures Matches(Step(v, op), Survive(frames, op))
  {
    match op {
      case Begin(id) => BeginKeepsMatch(v, frames, id);
      case Flush(key) => FlushKeepsMatch(v, frames, key);
      case Release => ReleaseKeepsMatch(v, frames);
      case RollbackTop =>
    }
  }

  /** Rolling back a savepoint leaves the right queue exactly when the guard holds. */
  lemma RollbackKeepsMatchIffClean(v: View, frames: seq<seq<Key>>)
    requires Matches(v, frames) && v.nested != []
    ensures Matches(Step(v, RollbackTop), Survive(frames, RollbackTop)) <==> Clean(v, frames)
  {
    var top, tag := |frames| - 1, Innermost(v);
    var older := Distinct(Flat(frames[..top]));
    FlatOfTop(frames[..top], frames[top]);
    assert frames == frames[..top] + [frames[top]];
    DistinctOfPrefix(Flat(frames[..top]), frames[top]);
    DistinctHasNoRepeats(Flat(frames));
    var n := |older|;
    var p := v.pending;
    assert Keys(p)[..n] == older && Keys(p[..n]) == older;
    if Clean(v, frames) {
      assert p == p[..n] + p[n..];
      PruneSplits(p[..n], p[n..], tag);
      PruneKeepsAll(p[..n], tag);
      PruneDropsAll(p[n..], tag);
    }
    if Keys(Prune(p, tag)) == older {
      CleanFromKeys(p, tag, n);
    }
  }

  lemma CleanFromKeys(p: seq<Change>, tag: int, n: nat)
    requires n <= |p| && Keys(Prune(p, tag)) == Keys(p)[..n]
    requires forall i, j | 0 <= i < j < |p| :: Keys(p)[i] != Keys(p)[j]
    ensures forall i | 0 <= i < |p| :: p[i].tag == tag <==> n <= i
  {
    forall i | 0 <= i < |p| ensures p[i].tag == tag <==> n <= i {
      PruneMembers(p, tag, p[i]);
      assert Keys(p)[i] == p[i].key;
      if i < n {
        var c := Prune(p, tag)[i];
        assert c.key == Keys(Prune(p, tag))[i] == Keys(p)[i];
        PruneMembers(p, tag, c);
        var j :| 0 <= j < |p| && p[j] == c;
        assert Keys(p)[j] == c.key;
      } else if p[i] in Prune(p, tag) {
        SurvivorIsOlder(p, tag, n, p[i]);
      }
    }
  }

  lemma SurvivorIsOlder(p: seq<Change>, tag: int, n: nat, c: Change)
    requires n <= |p| && Keys(Prune(p, tag)) == Keys(p)[..n] && c in Prune(p, tag)
    ensures exists j | 0 <= j < n :: Keys(p)[j] == c.key
  {
    var j :| 0 <= j < |Prune(p, tag)| && Prune(p, tag)[j] == c;
    assert Keys(Prune(p, tag))[j] == c.key;
    assert Keys(p)[..n][j] == Keys(p)[j];
  }

  // ----- whole transactions -----

  /** The queue is as pruning needs it at every rollback along the run. */
  predicate AllClean(v: View, frames: seq<seq<Key>>, ops: seq<Op>)
    requires |frames| == |v.nested| + 1
    decreases |ops|
  {
    ops == [] ||
    (&& (ops[0].RollbackTop? && v.nested != [] ==> Clean(v, frames))
     && AllClean(Step(v, ops[0]), Survive(frames, ops[0]), ops[1..]))
  }

  /**
   Exactness: if every rolled-back savepoint meets the guard, the batch a root
   commit publishes is the surviving writes, each once and in order.
   */
  lemma {:induction false} CleanRunPublishesSurvivors(v: View, frames: seq<seq<Key>>, ops: seq<Op>)
    requires Matches(v, frames) && AllClean(v, frames, ops)
    ensures Keys(Queue(v, ops).pending) == Distinct(Flat(Survivors(frames, ops)))
    decreases |ops|
  {
    if ops != [] {
      if ops[0].RollbackTop? && v.nested != [] {
        RollbackKeepsMatchIffClean(v, frames);
      } else {
        ForwardStepKeepsMatch(v, frames, ops[0]);
      }
      CleanRunPublishesSurvivors(Step(v, ops[0]), Survive(frames, ops[0]), ops[1..]);
    }
  }

  predicate Unused(v: View, id: int) {
    && id != v.root
    && id !in v.nested
    && forall c | c in v.pending :: c.tag != id
  }

  /** A savepoint never gets the identity of a live transaction or of a pending change. */
  predicate FreshIds(v: View, ops: seq<Op>)
    decreases |ops|
  {
    ops == [] ||
    (&& (ops[0].Begin? ==> Unused(v, ops[0].id))
     && FreshIds(Step(v, ops[0]), ops[1..]))
  }

  /** Some pending change of this key will outlive the rollback of every savepoint above frame `i`. */
  predicate Covers(v: View, k: Key, i: nat)
    requires i <= |v.nested|
  {
    exists c | c in v.pending :: c.key == k && c.tag !in v.nested[i..]
  }

  predicate AllCovered(v: View, frames: seq<seq<Key>>) {
    && |frames| == |v.nested| + 1
    && forall i, k | 0 <= i < |frames| && k in frames[i] :: Covers(v, k, i)
  }

  lemma KeysMembers(cs: seq<Change>, k: Key)
    ensures k in Keys(cs) <==> exists c | c in cs :: c.key == k
  {
    if k in Keys(cs) {
      var i :| 0 <= i < |cs| && Keys(cs)[i] == k;
      assert cs[i] in cs;
    }
    if c :| c in cs && c.key == k {
      var i :| 0 <= i < |cs| && cs[i] == c;
      assert Keys(cs)[i] == k;
    }
  }

  lemma StepKeepsCover(v: View, frames: seq<seq<Key>>, op: Op)
    requires AllCovered(v, frames) && FreshIds(v, [op])
    ensures AllCovered(Step(v, op), Survive(frames, op))
  {
    var v', frames' := Step(v, op), Survive(frames, op);
    forall i, k | 0 <= i < |frames'| && k in frames'[i] ensures Covers(v', k, i) {
      CoverOfStep(v, frames, op, i, k);
    }
  }

  lemma CoverOfStep(v: View, frames: seq<seq<Key>>, op: Op, i: nat, k: Key)
    requires AllCovered(v, frames) && FreshIds(v, [op])
    requires |Survive(frames, op)| == |Step(v, op).nested| + 1
    requires i < |Survive(frames, op)| && k in Survive(frames, op)[i]
    ensures Covers(Step(v, op), k, i)
  {
    var v' := Step(v, op);
    var top := |frames| - 1;
    if op == Flush(k) && i == top {
      if k in Keys(v.pending) {
        KeysMembers(v.pending, k);
      } else {
        assert Change(k, Innermost(v)) in v'.pending;
      }
    } else {
      var from := if op.Release? && i == top - 1 && k in frames[top] then top else i;
      assert Covers(v, k, from);
      var c :| c in v.pending && c.key == k && c.tag !in v.nested[from..];
      if op.RollbackTop? && v.nested != [] {
        PruneMembers(v.pending, Innermost(v), c);
      }
      assert c in v'.pending && c.tag !in v'.nested[i..];
    }
  }

  /** No lost signal: with fresh identities every surviving write is published. */
  lemma {:induction false} SurvivorsArePublished(v: View, frames: seq<seq<Key>>, ops: seq<Op>, k: Key)
    requires AllCovered(v, frames) && FreshIds(v, ops)
    ensures k in Flat(Survivors(frames, ops)) ==> k in Keys(Queue(v, ops).pending)
    decreases |ops|
  {
    if ops == [] {
      FlatMembers(frames, k);
      if k in Flat(frames) {
        var i :| 0 <= i < |frames| && k in frames[i];
        assert Covers(v, k, i);
        KeysMembers(v.pending, k);
      }
    } else {
      assert FreshIds(v, [ops[0]]);
      StepKeepsCover(v, frames, ops[0]);
      SurvivorsArePublished(Step(v, ops[0]), Survive(frames, ops[0]), ops[1..], k);
    }
  }

  // ----- the other half: an unclean rollback shows at the commit -----

  /** No flush of the run is absorbed by a change of the same key that is still pending. */
  predicate NeverAbsorbed(v: View, ops: seq<Op>)
    decreases |ops|
  {
    ops == [] ||
    (&& (ops[0].Flush? ==> ops[0].key !in Keys(v.pending))
     && NeverAbsorbed(Step(v, ops[0]), ops[1..]))
  }

  /** A change carries the identity of an open savepoint only if that savepoint's frame, or an outer one, has its key. */
  predicate TagsPointOutward(v: View, frames: seq<seq<Key>>) {
    && |frames| == |v.nested| + 1
    && v.root !in v.nested
    && (forall i, j | 0 <= i < j < |v.nested| :: v.nested[i] != v.nested[j])
    && forall c, j | c in v.pending && 0 <= j < |v.nested| && v.nested[j] == c.tag :: c.key in Flat(frames[..j + 2])
  }

  lemma FlatOfPrefix(frames: seq<seq<Key>>, m: nat, n: nat, k: Key)
    requires m <= n <= |frames| && k in Flat(frames[..m])
    ensures k in Flat(frames[..n])
  {
    FlatMembers(frames[..m], k);
    FlatMembers(frames[..n], k);
    var i :| 0 <= i < m && k in frames[..m][i];
    assert frames[..n][i] == frames[..m][i];
  }

  lemma StepKeepsTagsOutward(v: View, frames: seq<seq<Key>>, op: Op)
    requires TagsPointOutward(v, frames) && FreshIds(v, [op])
    ensures TagsPointOutward(Step(v, op), Survive(frames, op))
  {
    var v', frames' := Step(v, op), Survive(frames, op);
    forall c, j | c in v'.pending && 0 <= j < |v'.nested| && v'.nested[j] == c.tag
      ensures c.key in Flat(frames'[..j + 2])
    {
      if op.RollbackTop? && v.nested != [] {
        PruneMembers(v.pending, Innermost(v), c);
      }
      if c in v.pending {
        OldTagStaysOutward(v, frames, op, c, j);
      } else {
        assert op == Flush(c.key) && j == |v.nested| - 1;
        assert frames'[..j + 2] == frames' && c.key in frames'[|frames| - 1];
        FlatMembers(frames', c.key);
      }
    }
  }

  lemma OldTagStaysOutward(v: View, frames: seq<seq<Key>>, op: Op, c: Change, j: nat)
    requires TagsPointOutward(v, frames) && FreshIds(v, [op]) && c in v.pending
    requires j < |Step(v, op).nested| && Step(v, op).nested[j] == c.tag
    requires |Survive(frames, op)| == |Step(v, op).nested| + 1
    ensures c.key in Flat(Survive(frames, op)[..j + 2])
  {
    assert v.nested[j] == c.tag && c.key in Flat(frames[..j + 2]);
    if j + 2 < |frames| {
      FrameBelowTopKeepsKeys(frames, op, j + 2, c.key);
    } else {
      assert frames[..j + 2] == frames;
      AllFramesKeepKeys(frames, op, j + 2, c.key);
    }
  }

  lemma AllFramesKeepKeys(frames: seq<seq<Key>>, op: Op, n: nat, k: Key)
    requires frames != [] && n == |frames| <= |Survive(frames, op)| && k in Flat(frames)
    ensures k in Flat(Survive(frames, op)[..n])
  {
    var frames' := Survive(frames, op);
    FlatMembers(frames, k);
    FlatMembers(frames'[..n], k);
    var i :| 0 <= i < n && k in frames[i];
    assert k in frames'[..n][i];
  }

  lemma FrameBelowTopKeepsKeys(frames: seq<seq<Key>>, op: Op, n: nat, k: Key)
    requires frames != [] && n < |frames| && n <= |Survive(frames, op)| && k in Flat(frames[..n])
    ensures k in Flat(Survive(frames, op)[..n])
  {
    FlatMembers(frames[..n], k);
    FlatMembers(Survive(frames, op)[..n], k);
    var i :| 0 <= i < n && k in frames[..n][i];
    assert k in Survive(frames, op)[..n][i];
  }

  /** A pending change no later step can remove, of a key that no longer survives. */
  predicate Leaked(v: View, frames: seq<seq<Key>>, c: Change) {
    c in v.pending && c.tag !in v.nested && c.key !in Flat(frames)
  }

  lemma {:induction false} LeakLasts(v: View, frames: seq<seq<Key>>, ops: seq<Op>, c: Change)
    requires Leaked(v, frames, c) && |frames| == |v.nested| + 1
    requires FreshIds(v, ops) && NeverAbsorbed(v, ops)
    ensures c.key in Keys(Queue(v, ops).pending) && c.key !in Flat(Survivors(frames, ops))
    decreases |ops|
  {
    KeysMembers(v.pending, c.key);
    if ops != [] {
      var v', frames' := Step(v, ops[0]), Survive(frames, ops[0]);
      if ops[0].RollbackTop? && v.nested != [] {
        PruneMembers(v.pending, Innermost(v), c);
      }
      FlatMembers(frames, c.key);
      FlatMembers(frames', c.key);
      assert c.key !in Flat(frames');
      LeakLasts(v', frames', ops[1..], c);
    }
  }

  lemma UncleanRollbackLeaks(v: View, frames: seq<seq<Key>>) returns (c: Change)
    requires Matches(v, frames) && v.nested != [] && !Clean(v, frames)
    requires AllCovered(v, frames) && TagsPointOutward(v, frames)
    ensures Leaked(Step(v, RollbackTop), Survive(frames, RollbackTop), c)
  {
    var top, tag := |frames| - 1, Innermost(v);
    var n := |Distinct(Flat(frames[..top]))|;
    DistinctOfPrefix(Flat(frames[..top]), frames[top]);
    FlatOfTop(frames[..top], frames[top]);
    assert frames == frames[..top] + [frames[top]];
    DistinctHasNoRepeats(Flat(frames));
    var i :| 0 <= i < |v.pending| && !(v.pending[i].tag == tag <==> n <= i);
    c := v.pending[i];
    assert Keys(v.pending)[i] == c.key;
    DistinctMembers(Flat(frames[..top]), c.key);
    if i < n {
      assert Distinct(Flat(frames[..top]))[i] == c.key;
      OlderChangeHasOtherTag(v, frames, i);
    } else {
      PruneMembers(v.pending, tag, c);
      if c.tag in v.nested[..top - 1] {
        var j :| 0 <= j < top - 1 && v.nested[j] == c.tag;
        FlatOfPrefix(frames, j + 2, top, c.key);
      }
    }
  }

  lemma OlderChangeHasOtherTag(v: View, frames: seq<seq<Key>>, i: nat)
    requires Matches(v, frames) && AllCovered(v, frames) && v.nested != []
    requires i < |v.pending| && v.pending[i].key in Flat(frames[..|frames| - 1])
    ensures v.pending[i].tag != Innermost(v)
  {
    var k := v.pending[i].key;
    FlatMembers(frames[..|frames| - 1], k);
    var f :| 0 <= f < |frames| - 1 && k in frames[..|frames| - 1][f];
    assert k in frames[f] && Covers(v, k, f);
    var c :| c in v.pending && c.key == k && c.tag !in v.nested[f..];
    var j :| 0 <= j < |v.pending| && v.pending[j] == c;
    DistinctHasNoRepeats(Flat(frames));
    assert Keys(v.pending)[i] == Keys(v.pending)[j];
    assert v.nested[f..][|v.nested| - 1 - f] == Innermost(v);
  }

  /**
   When identities are fresh and no write repeats a pending key, the batch of a
   root commit is exactly the surviving writes if and only if every savepoint
   that rolled back met the guard.
   */
  lemma {:induction false} ExactIffAllClean(v: View, frames: seq<seq<Key>>, ops: seq<Op>)
    requires Matches(v, frames) && AllCovered(v, frames) && TagsPointOutward(v, frames)
    requires FreshIds(v, ops) && NeverAbsorbed(v, ops)
    ensures Keys(Queue(v, ops).pending) == Distinct(Flat(Survivors(frames, ops))) <==> AllClean(v, frames, ops)
    decreases |ops|
  {
    if ops != [] {
      var v', frames' := Step(v, ops[0]), Survive(frames, ops[0]);
      assert FreshIds(v, [ops[0]]);
      StepKeepsCover(v, frames, ops[0]);
      StepKeepsTagsOutward(v, frames, ops[0]);
      if ops[0].RollbackTop? && v.nested != [] && !Clean(v, frames) {
        var c := UncleanRollbackLeaks(v, frames);
        LeakLasts(v', frames', ops[1..], c);
        DistinctMembers(Flat(Survivors(frames, ops)), c.key);
      } else {
        if ops[0].RollbackTop? && v.nested != [] {
          RollbackKeepsMatchIffClean(v, frames);
        } else {
          ForwardStepKeepsMatch(v, frames, ops[0]);
        }
        ExactIffAllClean(v', frames', ops[1..]);
      }
    }
  }

  /** Nothing is published that the transaction did not flush. */
  lemma {:induction false} OnlyFlushedIsPublished(v: View, ops: seq<Op>, k: Key)
    requires k in Keys(Queue(v, ops).pending)
    ensures k in Keys(v.pending) || Flush(k) in ops
    decreases |ops|
  {
    if ops != [] {
      OnlyFlushedIsPublished(Step(v, ops[0]), ops[1..], k);
      if k in Keys(Step(v, ops[0]).pending) && ops[0].RollbackTop? && v.nested != [] {
        KeysMembers(Step(v, ops[0]).pending, k);
        var c :| c in Step(v, ops[0]).pending && c.key == k;
        PruneMembers(v.pending, Innermost(v), c);
        KeysMembers(v.pending, k);
      } else if k in Keys(Step(v, ops[0]).pending) && k !in Keys(v.pending) {
        KeysMembers(Step(v, ops[0]).pending, k);
        KeysMembers(v.pending, k);
        var c :| c in Step(v, ops[0]).pending && c.key == k;
        assert c !in v.pending;
        assert ops[0] == Flush(k);
      }
    }
  }

  // ----- the two ways the guard fails -----

  /** A write inside a savepoint that was released inside a rolled-back one is still published. */
  lemma ReleasedInnerWriteLeaks()
    ensures var ops := [Begin(1), Begin(2), Flush(7), Release, RollbackTop];
            && FreshIds(View(0, [], []), ops) && NeverAbsorbed(View(0, [], []), ops)
            && Keys(Queue(View(0, [], []), ops).pending) == [7]
            && Flat(Survivors([[]], ops)) == []
  {
    var a := View(0, [1, 2], []);
    var b := View(0, [1], [Change(7, 2)]);
    assert Queue(a, [Flush(7), Release, RollbackTop]) == Queue(b, [RollbackTop]);
    assert Step(b, RollbackTop) == View(0, [], [Change(7, 2)]);
  }

  /** A surviving write is lost when a later savepoint gets its released savepoint's identity and rolls back. */
  lemma ReusedIdentityLosesWrite()
    ensures var v := View(0, [], [Change(7, 1)]);
            && Queue(View(0, [], []), [Begin(1), Flush(7), Release]) == v
            && !FreshIds(v, [Begin(1), RollbackTop])
            && Queue(v, [Begin(1), RollbackTop]).pending == []
            && Survivors([[7]], [Begin(1), RollbackTop]) == [[7]]
  {
    assert Queue(View(0, [1], []), [Flush(7), Release]) == View(0, [], [Change(7, 1)]);
    assert Step(View(0, [1], [Change(7, 1)]), RollbackTop) == View(0, [], []);
  }
}
