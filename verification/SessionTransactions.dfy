/**
 When the realtime signals of a transaction are exact, as a condition on its
 operations: no savepoint rolls back into which one was released that had written.
 */
module SessionTransactions {
  import opened SessionEvents

  predicate AddsTo(outer: seq<Key>, inner: seq<Key>) {
    exists i | 0 <= i < |inner| :: inner[i] !in outer
  }

  /** The innermost savepoint has written a key that nothing outside it has written. */
  predicate AddsKey(frames: seq<seq<Key>>)
    requires frames != []
  {
    AddsTo(Flat(frames[..|frames| - 1]), frames[|frames| - 1])
  }

  /** One mark for each open transaction: a savepoint that added a key was released into it. */
  function Mark(frames: seq<seq<Key>>, marks: seq<bool>, op: Op): seq<bool>
    requires |frames| == |marks| > 0
    ensures |Mark(frames, marks, op)| == |Survive(frames, op)| > 0
  {
    var top := |frames| - 1;
    match op
    case Begin(_) => marks + [false]
    case Flush(_) => marks
    case Release => if top == 0 then marks else marks[..top - 1] + [marks[top - 1] || AddsKey(frames)]
    case RollbackTop => if top == 0 then marks else marks[..top]
  }

  /** No savepoint rolls back into which a savepoint was released that had added a key. */
  predicate NoReleasedWriteRollsBack(frames: seq<seq<Key>>, marks: seq<bool>, ops: seq<Op>)
    requires |frames| == |marks| > 0
    decreases |ops|
  {
    ops == [] ||
    (&& (ops[0].RollbackTop? && |frames| > 1 ==> !marks[|frames| - 1])
     && NoReleasedWriteRollsBack(Survive(frames, ops[0]), Mark(frames, marks, ops[0]), ops[1..]))
  }

  function Owner(v: View, i: nat): int
    requires i <= |v.nested|
  {
    if i == 0 then v.root else v.nested[i - 1]
  }

  predicate Dead(v: View, tag: int) {
    tag != v.root && tag !in v.nested
  }

  /** Frame by frame, the keys of the parts so far are the distinct writes so far. */
  predicate Aligned(frames: seq<seq<Key>>, parts: seq<seq<Change>>)
    decreases |frames|
  {
    && |frames| == |parts|
    && (frames == [] ||
        (&& Keys(Flat(parts)) == Distinct(Flat(frames))
         && Aligned(frames[..|frames| - 1], parts[..|parts| - 1])))
  }

  /** A part holds changes of its own transaction, or of one that was released into it. */
  predicate Tagged(v: View, parts: seq<seq<Change>>)
    requires |parts| == |v.nested| + 1
  {
    forall i, c | 0 <= i < |parts| && c in parts[i] :: c.tag == Owner(v, i) || Dead(v, c.tag)
  }

  predicate LiveIdsDiffer(v: View) {
    v.root !in v.nested && (forall i, j | 0 <= i < j < |v.nested| :: v.nested[i] != v.nested[j])
  }

  /** The queue cut by frame: what each frame added. */
  predicate Cut(v: View, frames: seq<seq<Key>>, parts: seq<seq<Change>>) {
    && |parts| == |frames| == |v.nested| + 1 && Flat(parts) == v.pending
    && Aligned(frames, parts) && Tagged(v, parts) && LiveIdsDiffer(v)
  }

  predicate HasDead(v: View, part: seq<Change>) {
    exists c | c in part :: Dead(v, c.tag)
  }

  predicate Marked(v: View, parts: seq<seq<Change>>, marks: seq<bool>) {
    |marks| == |parts| && forall i | 0 <= i < |parts| :: marks[i] <==> HasDead(v, parts[i])
  }

  lemma KeysOfBoth(a: seq<Change>, b: seq<Change>)
    ensures Keys(a + b) == Keys(a) + Keys(b)
  {
  }

  lemma FlatFront<T>(frames: seq<seq<T>>)
    requires frames != []
    ensures Flat(frames) == Flat(frames[..|frames| - 1]) + frames[|frames| - 1]
  {
  }

  lemma AlignedFront(frames: seq<seq<Key>>, parts: seq<seq<Change>>)
    requires Aligned(frames, parts) && frames != []
    ensures Aligned(frames[..|frames| - 1], parts[..|parts| - 1])
    ensures Keys(Flat(parts[..|parts| - 1])) == Distinct(Flat(frames[..|frames| - 1]))
    ensures Keys(Flat(parts[..|parts| - 1])) + Keys(parts[|parts| - 1]) == Distinct(Flat(frames))
  {
    FlatFront(parts);
    KeysOfBoth(Flat(parts[..|parts| - 1]), parts[|parts| - 1]);
  }

  lemma AlignedPush(frames: seq<seq<Key>>, parts: seq<seq<Change>>, frame: seq<Key>, part: seq<Change>)
    requires Aligned(frames, parts) && Keys(Flat(parts)) + Keys(part) == Distinct(Flat(frames) + frame)
    ensures Aligned(frames + [frame], parts + [part])
  {
    FlatOfTop(frames, frame);
    FlatOfTop(parts, part);
    KeysOfBoth(Flat(parts), part);
    assert (frames + [frame])[..|frames|] == frames && (parts + [part])[..|parts|] == parts;
  }

  /** Where the innermost part lies in the queue. */
  lemma CutAtTop(v: View, frames: seq<seq<Key>>, parts: seq<seq<Change>>)
    requires Cut(v, frames, parts)
    ensures v.pending == Flat(parts[..|parts| - 1]) + parts[|parts| - 1]
    ensures |Flat(parts[..|parts| - 1])| == |Distinct(Flat(frames[..|frames| - 1]))|
  {
    AlignedFront(frames, parts);
    FlatFront(parts);
    assert |Keys(Flat(parts[..|parts| - 1]))| == |Flat(parts[..|parts| - 1])|;
  }

  lemma OlderTagsDiffer(v: View, parts: seq<seq<Change>>, c: Change)
    requires |parts| == |v.nested| + 1 > 1 && Tagged(v, parts) && LiveIdsDiffer(v) && c in Flat(parts[..|parts| - 1])
    ensures c.tag != Innermost(v)
  {
    FlatMembers(parts[..|parts| - 1], c);
    var j :| 0 <= j < |parts| - 1 && c in parts[..|parts| - 1][j];
    assert c in parts[j];
  }

  /** Pruning the innermost savepoint is right exactly when nothing dead is in its part. */
  lemma CleanIffUnmarked(v: View, frames: seq<seq<Key>>, parts: seq<seq<Change>>)
    requires Cut(v, frames, parts) && v.nested != []
    ensures Clean(v, frames) <==> !HasDead(v, parts[|parts| - 1])
  {
    var top := |frames| - 1;
    var older := Flat(parts[..top]);
    CutAtTop(v, frames, parts);
    forall i | 0 <= i < |older| ensures v.pending[i].tag != Innermost(v) {
      assert v.pending[i] == older[i] && older[i] in older;
      OlderTagsDiffer(v, parts, older[i]);
    }
    forall i | |older| <= i < |v.pending| ensures v.pending[i].tag == Innermost(v) <==> !Dead(v, v.pending[i].tag) {
      assert v.pending[i] == parts[top][i - |older|] && v.pending[i] in parts[top];
    }
    if Clean(v, frames) {
      forall c | c in parts[top] ensures !Dead(v, c.tag) {
        var i :| 0 <= i < |parts[top]| && parts[top][i] == c;
        assert v.pending[|older| + i] == c;
      }
    }
  }

  lemma AddsIffLonger(outer: seq<Key>, inner: seq<Key>, added: seq<Key>)
    requires Distinct(outer) + added == Distinct(outer + inner)
    ensures added != [] <==> AddsTo(outer, inner)
  {
    var all := Distinct(outer + inner);
    DistinctHasNoRepeats(outer + inner);
    if added != [] {
      var k := added[0];
      assert all[|Distinct(outer)|] == k;
      assert k !in Distinct(outer) by {
        assert forall i | 0 <= i < |Distinct(outer)| :: Distinct(outer)[i] == all[i];
      }
      DistinctMembers(outer, k);
      DistinctMembers(outer + inner, k);
      var i :| 0 <= i < |inner| && inner[i] == k;
    }
    if AddsTo(outer, inner) {
      var i :| 0 <= i < |inner| && inner[i] !in outer;
      DistinctMembers(outer, inner[i]);
      DistinctMembers(outer + inner, inner[i]);
    }
  }

  /** The innermost part is empty exactly when its savepoint has added no key. */
  lemma PartIsEmptyIffNothingAdded(frames: seq<seq<Key>>, parts: seq<seq<Change>>)
    requires Aligned(frames, parts) && frames != []
    ensures parts[|parts| - 1] != [] <==> AddsKey(frames)
  {
    var top := |frames| - 1;
    AlignedFront(frames, parts);
    FlatFront(frames);
    AddsIffLonger(Flat(frames[..top]), frames[top], Keys(parts[top]));
    assert |Keys(parts[top])| == |parts[top]|;
  }

  lemma CutAfterBegin(v: View, frames: seq<seq<Key>>, parts: seq<seq<Change>>, marks: seq<bool>, id: int)
    requires Cut(v, frames, parts) && Marked(v, parts, marks) && Unused(v, id)
    ensures Cut(Step(v, Begin(id)), Survive(frames, Begin(id)), parts + [[]])
    ensures Marked(Step(v, Begin(id)), parts + [[]], Mark(frames, marks, Begin(id)))
  {
    var v' := Step(v, Begin(id));
    FlatOfTop(parts, []);
    assert Flat(frames) + [] == Flat(frames) && Keys(Flat(parts)) + [] == Keys(Flat(parts));
    AlignedPush(frames, parts, [], []);
    forall i, c | 0 <= i < |parts| && c in parts[i] ensures c.tag != id && (Dead(v', c.tag) <==> Dead(v, c.tag)) {
      FlatMembers(parts, c);
      assert c in v.pending;
    }
    forall i | 0 <= i < |parts| ensures HasDead(v', parts[i]) <==> HasDead(v, parts[i]) {
    }
  }

  // ----- a flush leaves all parts but the innermost -----

  function FlushPart(v: View, part: seq<Change>, key: Key): seq<Change> {
    if key in Keys(v.pending) then part else part + [Change(key, Innermost(v))]
  }

  function FlushParts(v: View, parts: seq<seq<Change>>, key: Key): (parts': seq<seq<Change>>)
    requires parts != []
    ensures |parts'| == |parts|
    ensures forall i | 0 <= i < |parts| - 1 :: parts'[i] == parts[i]
    ensures parts'[|parts| - 1] == FlushPart(v, parts[|parts| - 1], key)
  {
    parts[..|parts| - 1] + [FlushPart(v, parts[|parts| - 1], key)]
  }

  lemma FlushTags(v: View, part: seq<Change>, key: Key)
    ensures
      var v', part' := Step(v, Flush(key)), FlushPart(v, part, key);
      && (HasDead(v', part') <==> HasDead(v, part))
      && forall c | c in part' :: c in part || c.tag == Innermost(v)
  {
    var v', part' := Step(v, Flush(key)), FlushPart(v, part, key);
    if HasDead(v, part) {
      var c :| c in part && Dead(v, c.tag);
      assert c in part' && Dead(v', c.tag);
    }
  }

  lemma FlushKeepsTags(v: View, parts: seq<seq<Change>>, marks: seq<bool>, key: Key)
    requires |parts| == |v.nested| + 1 && Tagged(v, parts) && Marked(v, parts, marks)
    ensures Tagged(Step(v, Flush(key)), FlushParts(v, parts, key))
    ensures Marked(Step(v, Flush(key)), FlushParts(v, parts, key), marks)
  {
    var v', parts' := Step(v, Flush(key)), FlushParts(v, parts, key);
    FlushTags(v, parts[|parts| - 1], key);
    forall i | 0 <= i < |parts'|
      ensures HasDead(v', parts'[i]) <==> HasDead(v, parts[i])
      ensures forall c: Change | c in parts'[i] :: c.tag == Owner(v', i) || Dead(v', c.tag)
    {
    }
  }

  lemma FlushCutsQueue(v: View, parts: seq<seq<Change>>, key: Key)
    requires parts != [] && Flat(parts) == v.pending
    ensures Flat(FlushParts(v, parts, key)) == Step(v, Flush(key)).pending
  {
    var top := |parts| - 1;
    FlatFront(parts);
    FlatOfTop(parts[..top], FlushPart(v, parts[top], key));
  }

  lemma KeysOfOneMore(older: seq<Change>, p: seq<Change>, c: Change)
    ensures Keys(older) + Keys(p + [c]) == Keys(older) + Keys(p) + [c.key]
  {
  }

  lemma AlignedOfOneMore(outer: seq<seq<Key>>, x: seq<Key>, outerParts: seq<seq<Change>>, p: seq<Change>, c: Change)
    requires Aligned(outer + [x], outerParts + [p])
    ensures
      var known := c.key in Keys(Flat(outerParts + [p]));
      Aligned(outer + [x + [c.key]], outerParts + [if known then p else p + [c]])
  {
    AlignedFront(outer + [x], outerParts + [p]);
    assert (outer + [x])[..|outer|] == outer && (outerParts + [p])[..|outerParts|] == outerParts;
    FlatOfTop(outer, x);
    DistinctOfOneMore(Flat(outer) + x, c.key);
    assert Flat(outer) + x + [c.key] == Flat(outer) + (x + [c.key]);
    if c.key in Keys(Flat(outerParts + [p])) {
      AlignedPush(outer, outerParts, x + [c.key], p);
    } else {
      KeysOfOneMore(Flat(outerParts), p, c);
      AlignedPush(outer, outerParts, x + [c.key], p + [c]);
    }
  }

  lemma FlushKeepsAligned(v: View, frames: seq<seq<Key>>, parts: seq<seq<Change>>, key: Key)
    requires frames != [] && Aligned(frames, parts) && Flat(parts) == v.pending
    ensures Aligned(Survive(frames, Flush(key)), FlushParts(v, parts, key))
  {
    var top := |frames| - 1;
    assert frames == frames[..top] + [frames[top]] && parts == parts[..top] + [parts[top]];
    AlignedOfOneMore(frames[..top], frames[top], parts[..top], parts[top], Change(key, Innermost(v)));
  }

  lemma CutAfterFlush(v: View, frames: seq<seq<Key>>, parts: seq<seq<Change>>, marks: seq<bool>, key: Key)
    requires Cut(v, frames, parts) && Marked(v, parts, marks)
    ensures Cut(Step(v, Flush(key)), Survive(frames, Flush(key)), FlushParts(v, parts, key))
    ensures Marked(Step(v, Flush(key)), FlushParts(v, parts, key), Mark(frames, marks, Flush(key)))
  {
    FlushKeepsAligned(v, frames, parts, key);
    FlushCutsQueue(v, parts, key);
    FlushKeepsTags(v, parts, marks, key);
  }

  // ----- a release merges the innermost part into the one below -----

  function ReleaseParts<T>(parts: seq<seq<T>>): (parts': seq<seq<T>>)
    requires |parts| > 1
    ensures |parts'| == |parts| - 1
    ensures forall i | 0 <= i < |parts| - 2 :: parts'[i] == parts[i]
    ensures parts'[|parts| - 2] == parts[|parts| - 2] + parts[|parts| - 1]
  {
    parts[..|parts| - 2] + [parts[|parts| - 2] + parts[|parts| - 1]]
  }

  lemma FlatOfTwo<T>(outer: seq<seq<T>>, x: seq<T>, y: seq<T>)
    ensures Flat(outer + [x] + [y]) == Flat(outer) + (x + y) == Flat(outer + [x + y])
  {
    FlatOfTop(outer + [x], y);
    FlatOfTop(outer, x);
    FlatOfTop(outer, x + y);
    assert Flat(outer) + x + y == Flat(outer) + (x + y);
  }

  lemma AlignedOfTwo(outer: seq<seq<Key>>, x: seq<Key>, y: seq<Key>,
                     outerParts: seq<seq<Change>>, p: seq<Change>, q: seq<Change>)
    requires Aligned(outer + [x] + [y], outerParts + [p] + [q])
    ensures Aligned(outer + [x + y], outerParts + [p + q])
  {
    AlignedFront(outer + [x] + [y], outerParts + [p] + [q]);
    assert (outer + [x] + [y])[..|outer| + 1] == outer + [x];
    assert (outerParts + [p] + [q])[..|outerParts| + 1] == outerParts + [p];
    AlignedFront(outer + [x], outerParts + [p]);
    assert (outer + [x])[..|outer|] == outer && (outerParts + [p])[..|outerParts|] == outerParts;
    FlatOfTwo(outer, x, y);
    FlatOfTwo(outerParts, p, q);
    KeysOfBoth(Flat(outerParts), p + q);
    AlignedPush(outer, outerParts, x + y, p + q);
  }

  lemma LastTwo<T>(parts: seq<seq<T>>)
    requires |parts| > 1
    ensures parts == parts[..|parts| - 2] + [parts[|parts| - 2]] + [parts[|parts| - 1]]
  {
  }

  lemma ReleaseKeepsAligned(frames: seq<seq<Key>>, parts: seq<seq<Change>>)
    requires Aligned(frames, parts) && |frames| > 1
    ensures Aligned(ReleaseParts(frames), ReleaseParts(parts)) && Flat(ReleaseParts(parts)) == Flat(parts)
  {
    var n := |frames| - 2;
    LastTwo(frames);
    LastTwo(parts);
    AlignedOfTwo(frames[..n], frames[n], frames[n + 1], parts[..n], parts[n], parts[n + 1]);
    FlatOfTwo(parts[..n], parts[n], parts[n + 1]);
  }

  lemma ReleaseKeepsTags(v: View, frames: seq<seq<Key>>, parts: seq<seq<Change>>, marks: seq<bool>)
    requires Cut(v, frames, parts) && Marked(v, parts, marks) && v.nested != []
    ensures Tagged(Step(v, Release), ReleaseParts(parts)) && LiveIdsDiffer(Step(v, Release))
    ensures Marked(Step(v, Release), ReleaseParts(parts), Mark(frames, marks, Release))
  {
    var top := |parts| - 1;
    var v', parts' := Step(v, Release), ReleaseParts(parts);
    PartIsEmptyIffNothingAdded(frames, parts);
    forall i | 0 <= i < top
      ensures HasDead(v', parts'[i]) <==> Mark(frames, marks, Release)[i]
      ensures forall c: Change | c in parts'[i] :: c.tag == Owner(v', i) || Dead(v', c.tag)
    {
      DeadAfterRelease(v, parts, i);
    }
  }

  lemma CutAfterRelease(v: View, frames: seq<seq<Key>>, parts: seq<seq<Change>>, marks: seq<bool>)
    requires Cut(v, frames, parts) && Marked(v, parts, marks) && v.nested != []
    ensures Cut(Step(v, Release), Survive(frames, Release), ReleaseParts(parts))
    ensures Marked(Step(v, Release), ReleaseParts(parts), Mark(frames, marks, Release))
  {
    ReleaseKeepsAligned(frames, parts);
    ReleaseKeepsTags(v, frames, parts, marks);
  }

  lemma DeadAfterRelease(v: View, parts: seq<seq<Change>>, i: nat)
    requires |parts| == |v.nested| + 1 > 1 && Tagged(v, parts) && LiveIdsDiffer(v) && i < |parts| - 1
    ensures
      var top, v' := |parts| - 1, Step(v, Release);
      var part' := if i < top - 1 then parts[i] else parts[i] + parts[top];
      && (HasDead(v', part') <==> HasDead(v, parts[i]) || (i == top - 1 && parts[top] != []))
      && forall c: Change | c in part' :: c.tag == Owner(v', i) || Dead(v', c.tag)
  {
    var top, v' := |parts| - 1, Step(v, Release);
    forall c | c in parts[i] ensures Dead(v', c.tag) <==> Dead(v, c.tag) {
      assert c.tag == Owner(v, i) || Dead(v, c.tag);
      assert Owner(v, i) == Owner(v', i);
    }
    forall c | c in parts[top] ensures Dead(v', c.tag) {
      assert c.tag == Owner(v, top) || Dead(v, c.tag);
    }
    if HasDead(v, parts[i]) {
      var c :| c in parts[i] && Dead(v, c.tag);
      assert c in parts[i] + parts[top];
    }
    if parts[top] != [] {
      assert parts[top][0] in parts[top] && parts[top][0] in parts[i] + parts[top];
    }
  }

  lemma CutAfterRollback(v: View, frames: seq<seq<Key>>, parts: seq<seq<Change>>, marks: seq<bool>)
    requires Cut(v, frames, parts) && Marked(v, parts, marks) && v.nested != [] && !HasDead(v, parts[|parts| - 1])
    ensures
      var top := |frames| - 1;
      && Cut(Step(v, RollbackTop), Survive(frames, RollbackTop), parts[..top])
      && Marked(Step(v, RollbackTop), parts[..top], Mark(frames, marks, RollbackTop))
  {
    var top, v' := |frames| - 1, Step(v, RollbackTop);
    AlignedFront(frames, parts);
    PruneCutsTop(v, frames, parts);
    forall i | 0 <= i < top
      ensures HasDead(v', parts[i]) <==> HasDead(v, parts[i])
      ensures forall c: Change | c in parts[i] :: c.tag == Owner(v', i) || Dead(v', c.tag)
    {
      assert Owner(v, i) == Owner(v', i);
      assert forall c: Change | c in parts[i] :: c.tag == Owner(v, i) || Dead(v, c.tag);
    }
  }

  lemma PruneCutsTop(v: View, frames: seq<seq<Key>>, parts: seq<seq<Change>>)
    requires Cut(v, frames, parts) && v.nested != [] && !HasDead(v, parts[|parts| - 1])
    ensures Prune(v.pending, Innermost(v)) == Flat(parts[..|parts| - 1])
  {
    var top, tag := |parts| - 1, Innermost(v);
    var older := Flat(parts[..top]);
    CutAtTop(v, frames, parts);
    PruneSplits(older, parts[top], tag);
    forall c | c in older ensures c.tag != tag {
      OlderTagsDiffer(v, parts, c);
    }
    forall c | c in parts[top] ensures c.tag == tag {
      assert !Dead(v, c.tag) && Owner(v, top) == tag;
    }
    PruneKeepsAll(older, tag);
    PruneDropsAll(parts[top], tag);
  }

  /** The guard on the queue holds along a run exactly when no released write rolls back. */
  lemma {:induction false} AllCleanIffNoReleasedWriteRollsBack(
      v: View, frames: seq<seq<Key>>, parts: seq<seq<Change>>, marks: seq<bool>, ops: seq<Op>)
    requires Cut(v, frames, parts) && Marked(v, parts, marks) && FreshIds(v, ops)
    ensures AllClean(v, frames, ops) <==> NoReleasedWriteRollsBack(frames, marks, ops)
    decreases |ops|
  {
    if ops != [] {
      var op, v', frames' := ops[0], Step(v, ops[0]), Survive(frames, ops[0]);
      var parts' := parts;
      if v.nested != [] {
        CleanIffUnmarked(v, frames, parts);
      }
      if op.Begin? {
        parts' := parts + [[]];
        CutAfterBegin(v, frames, parts, marks, op.id);
      } else if op.Flush? {
        parts' := FlushParts(v, parts, op.key);
        CutAfterFlush(v, frames, parts, marks, op.key);
      } else if op.Release? && v.nested != [] {
        parts' := ReleaseParts(parts);
        CutAfterRelease(v, frames, parts, marks);
      } else if op.RollbackTop? && v.nested != [] {
        if !Clean(v, frames) {
          return;
        }
        parts' := parts[..|frames| - 1];
        CutAfterRollback(v, frames, parts, marks);
      }
      AllCleanIffNoReleasedWriteRollsBack(v', frames', parts', Mark(frames, marks, op), ops[1..]);
    }
  }

  lemma StartIsCut(root: int)
    ensures Cut(View(root, [], []), [[]], [[]]) && Marked(View(root, [], []), [[]], [false])
    ensures Matches(View(root, [], []), [[]])
  {
    var none: seq<seq<Change>> := [[]];
    var nothing: seq<seq<Key>> := [[]];
    assert Flat(none) == [] + [] && Flat(nothing) == [] + [];
    assert none[..0] == [] && nothing[..0] == [];
  }

  /** Whatever is written twice: if no released write rolls back, the root commit publishes exactly the survivors, in order. */
  lemma TransactionIsExactIf(root: int, ops: seq<Op>)
    requires FreshIds(View(root, [], []), ops) && NoReleasedWriteRollsBack([[]], [false], ops)
    ensures Keys(Queue(View(root, [], []), ops).pending) == Distinct(Flat(Survivors([[]], ops)))
  {
    StartIsCut(root);
    AllCleanIffNoReleasedWriteRollsBack(View(root, [], []), [[]], [[]], [false], ops);
    CleanRunPublishesSurvivors(View(root, [], []), [[]], ops);
  }

  /** And if no write repeats a pending one, only then: the condition is read off the transaction alone. */
  lemma TransactionIsExactIff(root: int, ops: seq<Op>)
    requires FreshIds(View(root, [], []), ops) && NeverAbsorbed(View(root, [], []), ops)
    ensures Keys(Queue(View(root, [], []), ops).pending) == Distinct(Flat(Survivors([[]], ops)))
       <==> NoReleasedWriteRollsBack([[]], [false], ops)
  {
    StartIsCut(root);
    AllCleanIffNoReleasedWriteRollsBack(View(root, [], []), [[]], [[]], [false], ops);
    ExactIffAllClean(View(root, [], []), [[]], ops);
  }
}
