/**
 The realtime signals when a savepoint may get the identity of one that is gone:
 the identities of live objects differ, and nothing else is known of them.
 */
module SessionIdentities {
  import opened SessionEvents
  import opened SessionTransactions

  /** A savepoint gets any identity that no open transaction has at that moment. */
  predicate LiveIds(v: View, ops: seq<Op>)
    decreases |ops|
  {
    ops == [] ||
    (&& (ops[0].Begin? ==> ops[0].id != v.root && ops[0].id !in v.nested)
     && LiveIds(Step(v, ops[0]), ops[1..]))
  }

  /** No savepoint rolls back once some savepoint that had added a key was released. */
  predicate NoRollbackAfterRelease(frames: seq<seq<Key>>, released: bool, ops: seq<Op>)
    requires frames != []
    decreases |ops|
  {
    ops == [] ||
    (&& (ops[0].RollbackTop? && |frames| > 1 ==> !released)
     && NoRollbackAfterRelease(Survive(frames, ops[0]), released || ReleasesKey(frames, ops[0]), ops[1..]))
  }

  predicate ReleasesKey(frames: seq<seq<Key>>, op: Op)
    requires frames != []
  {
    op.Release? && |frames| > 1 && AddsKey(frames)
  }

  // ----- enough: whatever the identities -----

  predicate Unmarked(marks: seq<bool>) {
    forall i | 0 <= i < |marks| :: !marks[i]
  }

  lemma StaysUnmarked(frames: seq<seq<Key>>, marks: seq<bool>, op: Op)
    requires |frames| == |marks| > 0 && Unmarked(marks) && !ReleasesKey(frames, op)
    ensures Unmarked(Mark(frames, marks, op))
  {
  }

  /** As long as nothing was released, an identity that is not live is on no pending change either. */
  lemma NotLiveIsUnused(v: View, frames: seq<seq<Key>>, parts: seq<seq<Change>>, marks: seq<bool>, id: int)
    requires Cut(v, frames, parts) && Marked(v, parts, marks) && Unmarked(marks)
    requires id != v.root && id !in v.nested
    ensures Unused(v, id)
  {
    forall c | c in v.pending ensures c.tag != id {
      FlatMembers(parts, c);
      var i :| 0 <= i < |parts| && c in parts[i];
      assert !HasDead(v, parts[i]) && !marks[i];
    }
  }

  /** The cut after one step, while nothing that added a key was released. */
  lemma CutAfterStep(v: View, frames: seq<seq<Key>>, parts: seq<seq<Change>>, marks: seq<bool>, op: Op)
    returns (parts': seq<seq<Change>>)
    requires Cut(v, frames, parts) && Marked(v, parts, marks) && Unmarked(marks)
    requires LiveIds(v, [op])
    ensures Cut(Step(v, op), Survive(frames, op), parts') && Marked(Step(v, op), parts', Mark(frames, marks, op))
  {
    parts' := parts;
    match op {
      case Begin(id) =>
        NotLiveIsUnused(v, frames, parts, marks, id);
        parts' := parts + [[]];
        CutAfterBegin(v, frames, parts, marks, id);
      case Flush(key) =>
        parts' := FlushParts(v, parts, key);
        CutAfterFlush(v, frames, parts, marks, key);
      case Release =>
        if v.nested != [] {
          parts' := ReleaseParts(parts);
          CutAfterRelease(v, frames, parts, marks);
        }
      case RollbackTop =>
        if v.nested != [] {
          assert !marks[|parts| - 1];
          parts' := parts[..|frames| - 1];
          CutAfterRollback(v, frames, parts, marks);
        }
    }
  }

  lemma CutMatches(v: View, frames: seq<seq<Key>>, parts: seq<seq<Change>>)
    requires Cut(v, frames, parts)
    ensures Matches(v, frames)
  {
  }

  lemma {:induction false} NoFurtherRollbackIsExact(v: View, frames: seq<seq<Key>>, ops: seq<Op>)
    requires Matches(v, frames) && NoRollbackAfterRelease(frames, true, ops)
    ensures Keys(Queue(v, ops).pending) == Distinct(Flat(Survivors(frames, ops)))
    decreases |ops|
  {
    if ops != [] {
      ForwardStepKeepsMatch(v, frames, ops[0]);
      NoFurtherRollbackIsExact(Step(v, ops[0]), Survive(frames, ops[0]), ops[1..]);
    }
  }

  lemma {:induction false} UnreleasedRunIsExact(v: View, frames: seq<seq<Key>>, parts: seq<seq<Change>>, marks: seq<bool>,
                                                ops: seq<Op>)
    requires Cut(v, frames, parts) && Marked(v, parts, marks) && Unmarked(marks)
    requires LiveIds(v, ops) && NoRollbackAfterRelease(frames, false, ops)
    ensures Keys(Queue(v, ops).pending) == Distinct(Flat(Survivors(frames, ops)))
    decreases |ops|
  {
    CutMatches(v, frames, parts);
    if ops != [] {
      var v', frames' := Step(v, ops[0]), Survive(frames, ops[0]);
      assert LiveIds(v, [ops[0]]);
      var parts' := CutAfterStep(v, frames, parts, marks, ops[0]);
      if ReleasesKey(frames, ops[0]) {
        CutMatches(v', frames', parts');
        NoFurtherRollbackIsExact(v', frames', ops[1..]);
      } else {
        StaysUnmarked(frames, marks, ops[0]);
        UnreleasedRunIsExact(v', frames', parts', Mark(frames, marks, ops[0]), ops[1..]);
      }
    }
  }

  /** The batch of a transaction that starts with nothing pending: exactly its surviving writes, once each, in order. */
  predicate Exact(root: int, ops: seq<Op>) {
    Keys(Queue(View(root, [], []), ops).pending) == Distinct(Flat(Survivors([[]], ops)))
  }

  /** Whatever is written twice, and whichever identities are used again. */
  lemma TransactionIsExact(root: int, ops: seq<Op>)
    requires LiveIds(View(root, [], []), ops) && NoRollbackAfterRelease([[]], false, ops)
    ensures Exact(root, ops)
  {
    StartIsCut(root);
    UnreleasedRunIsExact(View(root, [], []), [[]], [[]], [false], ops);
  }

  // ----- needed: the same operations under other identities -----

  /** The same operations but for the identities. */
  predicate SameShape(a: seq<Op>, b: seq<Op>) {
    |a| == |b| && forall i | 0 <= i < |a| :: a[i] == b[i] || (a[i].Begin? && b[i].Begin?)
  }

  /** No key is written twice. */
  predicate NoRepeats(ops: seq<Op>) {
    forall i, j | 0 <= i < j < |ops| && ops[i].Flush? && ops[j].Flush? :: ops[i].key != ops[j].key
  }

  /** Neither the reference nor the two conditions look at an identity. */
  lemma {:induction false} ShapeDecides(frames: seq<seq<Key>>, marks: seq<bool>, released: bool, a: seq<Op>, b: seq<Op>)
    requires |frames| == |marks| > 0 && SameShape(a, b)
    ensures Survivors(frames, a) == Survivors(frames, b)
    ensures NoReleasedWriteRollsBack(frames, marks, a) == NoReleasedWriteRollsBack(frames, marks, b)
    ensures NoRollbackAfterRelease(frames, released, a) == NoRollbackAfterRelease(frames, released, b)
    decreases |a|
  {
    if a != [] {
      assert a[0] == b[0] || (a[0].Begin? && b[0].Begin?);
      assert Survive(frames, a[0]) == Survive(frames, b[0]) && Mark(frames, marks, a[0]) == Mark(frames, marks, b[0]);
      ShapeDecides(Survive(frames, a[0]), Mark(frames, marks, a[0]), released || ReleasesKey(frames, a[0]), a[1..], b[1..]);
    }
  }

  /** Numbers the savepoints from `base` on. */
  function Numbered(ops: seq<Op>, base: int): (r: seq<Op>)
    ensures SameShape(ops, r)
  {
    if ops == [] then []
    else [if ops[0].Begin? then Begin(base) else ops[0]] + Numbered(ops[1..], base + 1)
  }

  predicate Below(v: View, base: int) {
    && v.root < base && (forall i | i in v.nested :: i < base) && (forall c | c in v.pending :: c.tag < base)
  }

  lemma StepStaysBelow(v: View, op: Op, base: int)
    requires Below(v, base) && (op.Begin? ==> op.id <= base)
    ensures Below(Step(v, op), base + 1)
  {
    assert v.nested != [] ==> Innermost(v) in v.nested;
    forall c | c in Step(v, op).pending ensures c.tag < base + 1 {
      OldOrQueuedNow(v, op, c);
    }
    forall i | i in Step(v, op).nested ensures i < base + 1 {
      assert i in v.nested || op == Begin(i);
    }
  }

  lemma OldOrQueuedNow(v: View, op: Op, c: Change)
    requires c in Step(v, op).pending
    ensures c in v.pending || (op == Flush(c.key) && c.tag == Innermost(v))
  {
    if op.RollbackTop? && v.nested != [] {
      PruneMembers(v.pending, Innermost(v), c);
    }
  }

  lemma {:induction false} NumberedIsFresh(v: View, ops: seq<Op>, base: int)
    requires Below(v, base)
    ensures FreshIds(v, Numbered(ops, base)) && LiveIds(v, Numbered(ops, base))
    decreases |ops|
  {
    if ops != [] {
      var op := Numbered(ops, base)[0];
      StepStaysBelow(v, op, base);
      NumberedIsFresh(Step(v, op), ops[1..], base + 1);
    }
  }

  lemma {:induction false} WithoutRepeatsNoneIsAbsorbed(v: View, ops: seq<Op>)
    requires NoRepeats(ops) && forall k | k in Keys(v.pending) :: Flush(k) !in ops
    ensures NeverAbsorbed(v, ops)
    decreases |ops|
  {
    if ops != [] {
      var v' := Step(v, ops[0]);
      if ops[0].Flush? {
        assert ops[0] in ops;
      }
      forall k | k in Keys(v'.pending) ensures Flush(k) !in ops[1..] {
        if ops[0] != Flush(k) && k !in Keys(v.pending) {
          GoneStaysGone(v, ops[0], k);
        }
        NotWrittenAgain(ops, k);
      }
      WithoutRepeatsNoneIsAbsorbed(v', ops[1..]);
    }
  }

  lemma NotWrittenAgain(ops: seq<Op>, k: Key)
    requires NoRepeats(ops) && ops != [] && (ops[0] == Flush(k) || Flush(k) !in ops)
    ensures Flush(k) !in ops[1..]
  {
    forall i | 0 <= i < |ops[1..]| ensures ops[1..][i] != Flush(k) {
      assert ops[i + 1] == ops[1..][i] && ops[i + 1] in ops;
    }
  }

  // ----- a key that survives -----

  /** The key is in a frame that was written to by a release, and was new there: it cannot be rolled back. */
  predicate Pinned(frames: seq<seq<Key>>, marks: seq<bool>, k: Key, i: nat) {
    i < |frames| == |marks| && marks[i] && k in frames[i] && k !in Flat(frames[..i])
  }

  /** A release of a savepoint that added the key pins it one frame further out. */
  lemma ReleasePins(frames: seq<seq<Key>>, marks: seq<bool>, k: Key)
    requires |frames| == |marks| > 1 && k in frames[|frames| - 1] && k !in Flat(frames[..|frames| - 1])
    ensures ReleasesKey(frames, Release)
    ensures Pinned(Survive(frames, Release), Mark(frames, marks, Release), k, |frames| - 2)
  {
    var top := |frames| - 1;
    var j :| 0 <= j < |frames[top]| && frames[top][j] == k;
    if k in Flat(frames[..top - 1]) {
      FlatOfPrefix(frames, top - 1, top, k);
    }
    assert Survive(frames, Release)[..top - 1] == frames[..top - 1];
  }

  function PinAfter(frames: seq<seq<Key>>, op: Op, i: nat): nat {
    if op.Release? && i == |frames| - 1 && i > 0 then i - 1 else i
  }

  lemma StepKeepsPinned(frames: seq<seq<Key>>, marks: seq<bool>, op: Op, k: Key, i: nat)
    requires Pinned(frames, marks, k, i) && (op.RollbackTop? && |frames| > 1 ==> !marks[|frames| - 1])
    ensures Pinned(Survive(frames, op), Mark(frames, marks, op), k, PinAfter(frames, op, i))
  {
    if op.Release? && i == |frames| - 1 > 0 {
      ReleasePins(frames, marks, k);
    } else {
      assert Survive(frames, op)[..i] == frames[..i];
    }
  }

  /** All pending changes of the key carry this tag. */
  predicate TaggedWith(v: View, k: Key, tag: int) {
    forall c | c in v.pending && c.key == k :: c.tag == tag
  }

  lemma StepKeepsTag(v: View, op: Op, k: Key, tag: int)
    requires TaggedWith(v, k, tag) && op != Flush(k)
    ensures TaggedWith(Step(v, op), k, tag)
  {
    forall c | c in Step(v, op).pending && c.key == k ensures c.tag == tag {
      OldOrQueuedNow(v, op, c);
    }
  }

  lemma GoneStaysGone(v: View, op: Op, k: Key)
    requires k !in Keys(v.pending) && op != Flush(k)
    ensures k !in Keys(Step(v, op).pending)
  {
    KeysMembers(Step(v, op).pending, k);
    KeysMembers(v.pending, k);
    if c :| c in Step(v, op).pending && c.key == k {
      OldOrQueuedNow(v, op, c);
    }
  }

  // ----- the loss, from its end to its beginning -----

  /** A run whose outcome misses a key that survives. */
  predicate Loses(v: View, frames: seq<seq<Key>>, ops: seq<Op>, k: Key)
    requires frames != []
  {
    LiveIds(v, ops) && k in Flat(Survivors(frames, ops)) && k !in Keys(Queue(v, ops).pending)
  }

  lemma LosesLater(v: View, frames: seq<seq<Key>>, op: Op, rest: seq<Op>, k: Key)
    requires frames != [] && LiveIds(v, [op]) && Loses(Step(v, op), Survive(frames, op), rest, k)
    ensures Loses(v, frames, [op] + rest, k)
  {
    assert ([op] + rest)[1..] == rest;
  }

  /** What all stages know of the key and of the operations that follow. */
  predicate Stage(v: View, frames: seq<seq<Key>>, marks: seq<bool>, ops: seq<Op>, k: Key, i: nat, base: int) {
    && |frames| == |marks| == |v.nested| + 1 && Pinned(frames, marks, k, i)
    && NoReleasedWriteRollsBack(frames, marks, ops) && Flush(k) !in ops && Below(v, base)
  }

  lemma StageAfterStep(v: View, frames: seq<seq<Key>>, marks: seq<bool>, ops: seq<Op>, k: Key, i: nat, base: int, op: Op)
    requires Stage(v, frames, marks, ops, k, i, base) && ops != []
    requires op == ops[0] || (op.Begin? && ops[0].Begin? && op.id <= base)
    requires op.Begin? ==> op.id <= base
    ensures Stage(Step(v, op), Survive(frames, op), Mark(frames, marks, op), ops[1..], k, PinAfter(frames, op, i), base + 1)
    ensures Survive(frames, op) == Survive(frames, ops[0]) && Mark(frames, marks, op) == Mark(frames, marks, ops[0])
  {
    StepKeepsPinned(frames, marks, op, k, i);
    StepStaysBelow(v, op, base);
    assert Flush(k) !in ops[1..];
  }

  /** Once the key is gone from the queue nothing brings it back. */
  lemma {:induction false} GoneStaysLost(v: View, frames: seq<seq<Key>>, marks: seq<bool>, ops: seq<Op>, k: Key, i: nat, base: int)
    requires Stage(v, frames, marks, ops, k, i, base) && k !in Keys(v.pending)
    ensures Loses(v, frames, Numbered(ops, base), k)
    decreases |ops|
  {
    if ops == [] {
      FlatMembers(frames, k);
    } else {
      var op := Numbered(ops, base)[0];
      StageAfterStep(v, frames, marks, ops, k, i, base, op);
      assert ops[0] in ops;
      GoneStaysGone(v, op, k);
      GoneStaysLost(Step(v, op), Survive(frames, op), Mark(frames, marks, op), ops[1..], k, PinAfter(frames, op, i), base + 1);
      LosesLater(v, frames, op, Numbered(ops[1..], base + 1), k);
    }
  }

  /** The first savepoint to roll back is the one with n open inside it. */
  predicate Undone(ops: seq<Op>, n: nat)
    decreases |ops|
  {
    ops != [] &&
    match ops[0]
    case Begin(_) => Undone(ops[1..], n + 1)
    case Flush(_) => Undone(ops[1..], n)
    case Release => n > 0 && Undone(ops[1..], n - 1)
    case RollbackTop => n == 0
  }

  lemma ShapeOfOneMore(op: Op, ops: seq<Op>, rest: seq<Op>)
    requires ops != [] && SameShape(ops[1..], rest) && (op == ops[0] || (op.Begin? && ops[0].Begin?))
    ensures SameShape(ops, [op] + rest)
  {
    forall i | 0 <= i < |ops| ensures ops[i] == ([op] + rest)[i] || (ops[i].Begin? && ([op] + rest)[i].Begin?) {
      if i > 0 {
        assert ops[i] == ops[1..][i - 1];
      }
    }
  }

  lemma PruneDropsKey(v: View, k: Key)
    requires v.nested != [] && TaggedWith(v, k, Innermost(v))
    ensures k !in Keys(Step(v, RollbackTop).pending)
  {
    KeysMembers(Step(v, RollbackTop).pending, k);
    if c :| c in Step(v, RollbackTop).pending && c.key == k {
      PruneMembers(v.pending, Innermost(v), c);
    }
  }

  /** The savepoint with n open inside it. */
  function Outward(v: View, n: nat): int
    requires n < |v.nested|
  {
    v.nested[|v.nested| - 1 - n]
  }

  function DepthAfter(op: Op, n: nat): nat {
    if op.Begin? then n + 1 else if op.Release? && n > 0 then n - 1 else n
  }

  lemma OutwardAfterStep(v: View, op: Op, n: nat)
    requires n < |v.nested| && !op.RollbackTop? && (op.Release? ==> n > 0)
    ensures DepthAfter(op, n) < |Step(v, op).nested| && Outward(Step(v, op), DepthAfter(op, n)) == Outward(v, n)
    ensures |Step(v, op).nested| - DepthAfter(op, n) == |v.nested| - n
  {
  }

  /** The operation under the identity that is chosen for it. */
  function Named(op: Op, id: int): Op {
    if op.Begin? then Begin(id) else op
  }

  /** A savepoint with the identity on the key's change is open, and its rollback takes the change with it. */
  lemma {:induction false} RollbackTakesKey(v: View, frames: seq<seq<Key>>, marks: seq<bool>, ops: seq<Op>,
                                            k: Key, i: nat, n: nat, base: int) returns (ops': seq<Op>)
    requires Stage(v, frames, marks, ops, k, i, base) && Undone(ops, n) && n < |v.nested|
    requires i < |v.nested| - n && TaggedWith(v, k, Outward(v, n))
    ensures SameShape(ops, ops') && Loses(v, frames, ops', k)
    decreases |ops|
  {
    if ops[0].RollbackTop? {
      LastRollbackTakesKey(v, frames, marks, ops, k, i, base);
      ops' := Numbered(ops, base);
      return;
    }
    var op := Named(ops[0], base);
    assert ops[0] in ops;
    StageAfterStep(v, frames, marks, ops, k, i, base, op);
    StepKeepsTag(v, op, k, Outward(v, n));
    OutwardAfterStep(v, op, n);
    var rest := RollbackTakesKey(Step(v, op), Survive(frames, op), Mark(frames, marks, op), ops[1..], k, i,
                                 DepthAfter(op, n), base + 1);
    ops' := [op] + rest;
    ShapeOfOneMore(op, ops, rest);
    LiveIfNotOpen(v, op, base);
    LosesLater(v, frames, op, rest, k);
  }

  lemma LastRollbackTakesKey(v: View, frames: seq<seq<Key>>, marks: seq<bool>, ops: seq<Op>, k: Key, i: nat, base: int)
    requires Stage(v, frames, marks, ops, k, i, base) && ops != [] && ops[0].RollbackTop?
    requires v.nested != [] && TaggedWith(v, k, Innermost(v))
    ensures Loses(v, frames, Numbered(ops, base), k)
  {
    var op := ops[0];
    StageAfterStep(v, frames, marks, ops, k, i, base, op);
    PruneDropsKey(v, k);
    GoneStaysLost(Step(v, op), Survive(frames, op), Mark(frames, marks, op), ops[1..], k, i, base + 1);
    LosesLater(v, frames, op, Numbered(ops[1..], base + 1), k);
  }

  lemma LiveIfNotOpen(v: View, op: Op, id: int)
    requires id != v.root && id !in v.nested && (op.Begin? ==> op.id == id)
    ensures LiveIds(v, [op])
  {
  }

  /** None of the m innermost savepoints is the first to roll back. */
  predicate NotUndone(ops: seq<Op>, m: nat) {
    forall n | 0 <= n < m :: !Undone(ops, n)
  }

  lemma NoneRollsBackYet(frames: seq<seq<Key>>, marks: seq<bool>, ops: seq<Op>, k: Key, i: nat)
    requires Pinned(frames, marks, k, i) && ops != [] && NoReleasedWriteRollsBack(frames, marks, ops)
    requires NotUndone(ops, |frames| - 1 - i)
    ensures !(ops[0].RollbackTop? && |frames| > 1)
  {
    assert i < |frames| - 1 ==> !Undone(ops, 0);
  }

  lemma NotUndoneAfterStep(frames: seq<seq<Key>>, ops: seq<Op>, i: nat)
    requires i < |frames| && ops != [] && NotUndone(ops, |frames| - 1 - i)
    requires !(ops[0].RollbackTop? && |frames| > 1) && !(ops[0].Begin? && Undone(ops[1..], 0))
    ensures NotUndone(ops[1..], |Survive(frames, ops[0])| - 1 - PinAfter(frames, ops[0], i))
  {
    forall n | 0 <= n < |Survive(frames, ops[0])| - 1 - PinAfter(frames, ops[0], i) ensures !Undone(ops[1..], n) {
      var n0 := if ops[0].Begin? then n - 1 else if ops[0].Release? then n + 1 else n;
      assert n0 >= 0 ==> !Undone(ops, n0);
    }
  }

  /** The key's change is tagged with a released savepoint; its identity is given to the next savepoint that rolls back. */
  lemma {:induction false} IdentityComesBack(v: View, frames: seq<seq<Key>>, marks: seq<bool>, ops: seq<Op>,
                                             k: Key, i: nat, tag: int, base: int) returns (ops': seq<Op>)
    requires Stage(v, frames, marks, ops, k, i, base) && TaggedWith(v, k, tag) && tag < base
    requires tag != v.root && tag !in v.nested && NotUndone(ops, |frames| - 1 - i)
    requires !NoRollbackAfterRelease(frames, true, ops)
    ensures SameShape(ops, ops') && Loses(v, frames, ops', k)
    decreases |ops|
  {
    var reused := ops[0].Begin? && Undone(ops[1..], 0);
    var id := if reused then tag else base;
    var op := Named(ops[0], id);
    var v', frames', marks' := Step(v, op), Survive(frames, op), Mark(frames, marks, op);
    assert ops[0] in ops;
    NoneRollsBackYet(frames, marks, ops, k, i);
    StageAfterStep(v, frames, marks, ops, k, i, base, op);
    StepKeepsTag(v, op, k, tag);
    var rest;
    if reused {
      rest := RollbackTakesKey(v', frames', marks', ops[1..], k, i, 0, base + 1);
    } else {
      NotUndoneAfterStep(frames, ops, i);
      rest := IdentityComesBack(v', frames', marks', ops[1..], k, PinAfter(frames, op, i), tag, base + 1);
    }
    ops' := [op] + rest;
    ShapeOfOneMore(op, ops, rest);
    LiveIfNotOpen(v, op, id);
    LosesLater(v, frames, op, rest, k);
  }

  /** While nothing was released, what the innermost savepoint has added carries its identity. */
  lemma AddedKeyHasOwnTag(v: View, frames: seq<seq<Key>>, parts: seq<seq<Change>>, marks: seq<bool>, k: Key)
    requires Cut(v, frames, parts) && Marked(v, parts, marks) && Unmarked(marks)
    requires k !in Flat(frames[..|frames| - 1])
    ensures TaggedWith(v, k, Innermost(v))
  {
    var top := |frames| - 1;
    CutAtTop(v, frames, parts);
    AlignedFront(frames, parts);
    DistinctMembers(Flat(frames[..top]), k);
    KeysMembers(Flat(parts[..top]), k);
    assert !HasDead(v, parts[top]) by {
      assert !marks[top];
    }
    forall c | c in v.pending && c.key == k ensures c.tag == Innermost(v) {
      assert c in parts[top];
    }
  }

  lemma SomeKeyIsPinned(frames: seq<seq<Key>>, marks: seq<bool>) returns (k: Key)
    requires |frames| == |marks| > 0 && ReleasesKey(frames, Release)
    ensures k in Flat(frames) && k !in Flat(frames[..|frames| - 1])
    ensures Pinned(Survive(frames, Release), Mark(frames, marks, Release), k, |frames| - 2)
  {
    var top := |frames| - 1;
    var i :| 0 <= i < |frames[top]| && frames[top][i] !in Flat(frames[..top]);
    k := frames[top][i];
    FlatMembers(frames, k);
    ReleasePins(frames, marks, k);
  }

  /** No key of the frames is written again. */
  predicate NotAgain(frames: seq<seq<Key>>, ops: seq<Op>) {
    forall k | k in Flat(frames) :: Flush(k) !in ops
  }

  lemma StepKeepsNotAgain(frames: seq<seq<Key>>, ops: seq<Op>)
    requires frames != [] && ops != [] && NoRepeats(ops) && NotAgain(frames, ops)
    ensures NoRepeats(ops[1..]) && NotAgain(Survive(frames, ops[0]), ops[1..])
  {
    var frames' := Survive(frames, ops[0]);
    forall k | k in Flat(frames') ensures Flush(k) !in ops[1..] {
      FlatMembers(frames', k);
      FlatMembers(frames, k);
      var i :| 0 <= i < |frames'| && k in frames'[i];
      assert k in Flat(frames) || ops[0] == Flush(k);
      NotWrittenAgain(ops, k);
    }
  }

  /** From the start to the first release that adds a key, and from there to the loss. */
  lemma {:induction false} ReusedIdentityLosesKey(v: View, frames: seq<seq<Key>>, parts: seq<seq<Change>>, marks: seq<bool>,
                                                  ops: seq<Op>, base: int) returns (ops': seq<Op>, k: Key)
    requires Cut(v, frames, parts) && Marked(v, parts, marks) && Unmarked(marks) && Below(v, base)
    requires NoRepeats(ops) && NotAgain(frames, ops)
    requires NoReleasedWriteRollsBack(frames, marks, ops) && !NoRollbackAfterRelease(frames, false, ops)
    ensures SameShape(ops, ops') && Loses(v, frames, ops', k)
    decreases |ops|
  {
    var op := Named(ops[0], base);
    var v', frames', marks' := Step(v, op), Survive(frames, op), Mark(frames, marks, op);
    StepStaysBelow(v, op, base);
    StepKeepsNotAgain(frames, ops);
    LiveIfNotOpen(v, op, base);
    var rest;
    if ReleasesKey(frames, ops[0]) {
      k := SomeKeyIsPinned(frames, marks);
      AddedKeyHasOwnTag(v, frames, parts, marks, k);
      StepKeepsTag(v, op, k, Innermost(v));
      assert ops[0] in ops && Flush(k) !in ops[1..];
      ReleasedIsNotLive(v, frames, parts, base);
      rest := IdentityComesBack(v', frames', marks', ops[1..], k, |frames| - 2, Innermost(v), base + 1);
    } else {
      var parts' := CutAfterStep(v, frames, parts, marks, op);
      StaysUnmarked(frames, marks, op);
      rest, k := ReusedIdentityLosesKey(v', frames', parts', marks', ops[1..], base + 1);
    }
    ops' := [op] + rest;
    ShapeOfOneMore(op, ops, rest);
    LosesLater(v, frames, op, rest, k);
  }

  lemma ReleasedIsNotLive(v: View, frames: seq<seq<Key>>, parts: seq<seq<Change>>, base: int)
    requires Cut(v, frames, parts) && v.nested != [] && Below(v, base)
    ensures Innermost(v) != v.root && Innermost(v) !in Step(v, Release).nested && Innermost(v) < base
  {
    assert Innermost(v) in v.nested;
  }

  // ----- exactly when no choice of identities spoils the batch -----

  /** The batch is exact whichever identities the savepoints get. */
  ghost predicate EveryIdentityIsExact(root: int, ops: seq<Op>) {
    forall ops' | SameShape(ops, ops') && LiveIds(View(root, [], []), ops') :: Exact(root, ops')
  }

  lemma LosingIsNotExact(root: int, ops: seq<Op>, k: Key)
    requires Loses(View(root, [], []), [[]], ops, k)
    ensures !Exact(root, ops)
  {
    DistinctMembers(Flat(Survivors([[]], ops)), k);
  }

  /** Some identities, fresh or used again, make the batch wrong. */
  lemma SpoilingIdentities(root: int, ops: seq<Op>) returns (ops': seq<Op>)
    requires NoRepeats(ops) && !NoRollbackAfterRelease([[]], false, ops)
    ensures SameShape(ops, ops') && LiveIds(View(root, [], []), ops') && !Exact(root, ops')
  {
    var v := View(root, [], []);
    ops' := Numbered(ops, root + 1);
    NumberedIsFresh(v, ops, root + 1);
    if NoReleasedWriteRollsBack([[]], [false], ops) {
      var k;
      StartIsCut(root);
      ops', k := ReusedIdentityLosesKey(v, [[]], [[]], [false], ops, root + 1);
      LosingIsNotExact(root, ops', k);
    } else {
      ShapeDecides([[]], [false], false, ops, ops');
      ShapeKeepsNoRepeats(ops, ops');
      WithoutRepeatsNoneIsAbsorbed(v, ops');
      TransactionIsExactIff(root, ops');
    }
  }

  lemma ShapeKeepsNoRepeats(a: seq<Op>, b: seq<Op>)
    requires SameShape(a, b) && NoRepeats(a)
    ensures NoRepeats(b)
  {
    forall i, j | 0 <= i < j < |b| && b[i].Flush? && b[j].Flush? ensures b[i].key != b[j].key {
      assert a[i] == b[i] && a[j] == b[j];
    }
  }

  /**
   The condition on the operations: the signals are exact under every choice of identities if no savepoint rolls
   back once a savepoint that had added a key was released, and if no key is written twice, only then.
   */
  lemma EveryIdentityIsExactIff(root: int, ops: seq<Op>)
    ensures NoRollbackAfterRelease([[]], false, ops) ==> EveryIdentityIsExact(root, ops)
    ensures NoRepeats(ops) ==> (EveryIdentityIsExact(root, ops) <==> NoRollbackAfterRelease([[]], false, ops))
  {
    if NoRollbackAfterRelease([[]], false, ops) {
      forall ops' | SameShape(ops, ops') && LiveIds(View(root, [], []), ops') ensures Exact(root, ops') {
        ShapeDecides([[]], [false], false, ops, ops');
        TransactionIsExact(root, ops');
      }
    } else if NoRepeats(ops) {
      var ops' := SpoilingIdentities(root, ops);
    }
  }

  // ----- on the session itself -----

  /** A transaction from its first statement to its root commit, on a session with nothing open or pending. */
  method RunTransaction(s: Session, ops: seq<Op>, next: int)
    requires s.nested == [] && s.pending == []
    modifies s
    ensures s.Seen() == View(next, [], [])
    ensures s.published == old(s.published) + Keys(Queue(View(old(s.root), [], []), ops).pending)
    ensures LiveIds(View(old(s.root), [], []), ops) && NoRollbackAfterRelease([[]], false, ops) ==>
      s.published == old(s.published) + Distinct(Flat(Survivors([[]], ops)))
  {
    ghost var start := s.Seen();
    var i := 0;
    while i < |ops|
      invariant 0 <= i <= |ops| && s.published == old(s.published)
      invariant Queue(s.Seen(), ops[i..]) == Queue(start, ops)
    {
      assert ops[i..][0] == ops[i] && ops[i..][1..] == ops[i + 1..];
      match ops[i] {
        case Begin(id) => s.BeginSavepoint(id);
        case Flush(key) =>
          assert FlushAll(s.Seen(), [key]) == Step(s.Seen(), Flush(key));
          s.AfterFlush([key]);
        case Release =>
          if s.nested != [] {
            s.ReleaseSavepoint();
          }
        case RollbackTop =>
          if s.nested != [] {
            s.RollbackSavepoint();
          }
      }
      i := i + 1;
    }
    if LiveIds(start, ops) && NoRollbackAfterRelease([[]], false, ops) {
      TransactionIsExact(start.root, ops);
    }
    s.Commit(next);
  }
}
