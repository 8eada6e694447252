/**
 The export queue: recovery and requests put jobs, one worker takes them in
 order, and shutdown joins the queue, puts a sentinel and waits for the worker.
 */
module ExportQueue {
  import opened Wrappers

  type Job = (int, int)

  /** None is the sentinel. */
  type Item = Option<Job>

  function Jobs(items: seq<Item>): seq<Job> {
    if items == [] then []
    else if items[0].None? then Jobs(items[1..])
    else [items[0].value] + Jobs(items[1..])
  }

  lemma {:induction false} JobsOfBoth(a: seq<Item>, b: seq<Item>)
    ensures Jobs(a + b) == Jobs(a) + Jobs(b)
  {
    if a == [] {
      assert a + b == b;
    } else {
      assert (a + b)[1..] == a[1..] + b;
      JobsOfBoth(a[1..], b);
    }
  }

  // ----- the worker on its own -----

  class Queue {
    var items: seq<Item>
    var unfinished: nat
    var finished: bool
    /** The jobs handed to the generator so far. */
    var attempted: seq<Job>

    /** The event tells whether nothing is unfinished. */
    ghost predicate Valid()
      reads this
    {
      unfinished >= |items| && (finished <==> unfinished == 0)
    }

    method PutNowait(x: Item)
      requires Valid()
      modifies this`items, this`unfinished, this`finished
      ensures Valid() && items == old(items) + [x] && unfinished == old(unfinished) + 1
    {
      items, unfinished, finished := items + [x], unfinished + 1, false;
    }

    method TaskDone()
      requires unfinished > 0 && unfinished > |items| && !finished
      modifies this`unfinished, this`finished
      ensures unfinished == old(unfinished) - 1 && (finished <==> unfinished == 0)
    {
      unfinished := unfinished - 1;
      if unfinished == 0 {
        finished := true;
      }
    }

    /** The worker loop: a job that raises is logged, and the next one is taken. */
    method Consume(raises: Job -> bool, n: nat) returns (failures: seq<Job>)
      requires Valid() && n < |items| && items[n] == None && forall i | 0 <= i < n :: items[i].Some?
      modifies this
      ensures Valid() && items == old(items)[n + 1..] && unfinished == old(unfinished) - (n + 1)
      ensures attempted == old(attempted) + Jobs(old(items)[..n]) && |Jobs(old(items)[..n])| == n
      ensures failures == Failing(Jobs(old(items)[..n]), raises)
    {
      failures := [];
      ghost var i := 0;
      AllAreJobs(items[..n]);
      while true
        invariant i <= n && items == old(items)[i..] && unfinished == old(unfinished) - i && Valid()
        invariant attempted == old(attempted) + Jobs(old(items)[..i])
        invariant failures == Failing(Jobs(old(items)[..i]), raises)
        decreases n - i
      {
        var job := items[0];
        assert job == old(items)[i];
        items := items[1..];
        if job == None {
          TaskDone();
          return;
        }
        OneMoreJob(old(items), i, raises);
        attempted := attempted + [job.value];
        if raises(job.value) {
          failures := failures + [job.value];
        }
        TaskDone();
        i := i + 1;
      }
    }
  }

  /** The jobs whose generation raised, in order. */
  function Failing(jobs: seq<Job>, raises: Job -> bool): seq<Job> {
    if jobs == [] then []
    else (if raises(jobs[0]) then [jobs[0]] else []) + Failing(jobs[1..], raises)
  }

  lemma {:induction false} FailingOfBoth(a: seq<Job>, b: seq<Job>, raises: Job -> bool)
    ensures Failing(a + b, raises) == Failing(a, raises) + Failing(b, raises)
  {
    if a == [] {
      assert a + b == b;
    } else {
      var first := if raises(a[0]) then [a[0]] else [];
      FailingOfBoth(a[1..], b, raises);
      assert (a + b)[1..] == a[1..] + b && (a + b)[0] == a[0];
      assert first + (Failing(a[1..], raises) + Failing(b, raises)) == first + Failing(a[1..], raises) + Failing(b, raises);
    }
  }

  lemma OneMoreJob(items: seq<Item>, i: nat, raises: Job -> bool)
    requires i < |items| && items[i].Some?
    ensures Jobs(items[..i + 1]) == Jobs(items[..i]) + [items[i].value]
    ensures Failing(Jobs(items[..i + 1]), raises) ==
      if raises(items[i].value) then Failing(Jobs(items[..i]), raises) + [items[i].value] else Failing(Jobs(items[..i]), raises)
  {
    var job := items[i];
    assert items[..i + 1] == items[..i] + [job];
    JobsOfBoth(items[..i], [job]);
    assert [job][1..] == [] && [job.value][1..] == [];
    FailingOfBoth(Jobs(items[..i]), [job.value], raises);
    assert Failing([job.value], raises) == if raises(job.value) then [job.value] else [];
  }

  lemma {:induction false} AllAreJobs(items: seq<Item>)
    requires forall i | 0 <= i < |items| :: items[i].Some?
    ensures |Jobs(items)| == |items|
  {
    if items != [] {
      AllAreJobs(items[1..]);
    }
  }

  // ----- the worker, the producers and the shutdown interleaved -----

  /** Joining knows whether the wait was already released; Draining has put the sentinel. */
  datatype Shutdown = Serving | Joining(released: bool) | Draining | Closed

  /** `hand` is what the worker holds; `put` records everything put so far and `taken` how much of it was taken. */
  datatype State = State(queue: seq<Item>, hand: Option<Item>, unfinished: nat, stopped: bool, shutdown: Shutdown,
                         attempted: seq<Job>, put: seq<Item>, taken: nat)

  datatype Step = Put(job: Job) | Get | Finish(raised: bool) | StartJoin | PutSentinel | AwaitWorker

  const START := State([], None, 0, false, Serving, [], [], 0)

  predicate Enabled(s: State, e: Step) {
    match e
    case Put(_) => true
    case Get => !s.stopped && s.hand.None? && s.queue != []
    case Finish(_) => s.hand.Some? && s.unfinished > 0
    case StartJoin => s.shutdown == Serving
    case PutSentinel => s.shutdown == Joining(true)
    case AwaitWorker => s.shutdown == Draining && s.stopped
  }

  function PutItem(s: State, x: Item): State {
    s.(queue := s.queue + [x], unfinished := s.unfinished + 1, put := s.put + [x])
  }

  /** A job is attempted when it is taken; that it raised changes nothing. */
  function Apply(s: State, e: Step): State
    requires Enabled(s, e)
  {
    match e
    case Put(job) => PutItem(s, Some(job))
    case Get =>
      s.(queue := s.queue[1..], hand := Some(s.queue[0]), taken := s.taken + 1,
         attempted := if s.queue[0].Some? then s.attempted + [s.queue[0].value] else s.attempted)
    case Finish(_) =>
      s.(hand := None, unfinished := s.unfinished - 1, stopped := s.stopped || s.hand == Some(None),
         shutdown := if s.shutdown == Joining(false) && s.unfinished == 1 then Joining(true) else s.shutdown)
    case StartJoin => s.(shutdown := Joining(s.unfinished == 0))
    case PutSentinel => PutItem(s, None).(shutdown := Draining)
    case AwaitWorker => s.(shutdown := Closed)
  }

  // ----- what every step keeps -----

  function Held(s: State): nat {
    if s.hand.Some? then 1 else 0
  }

  /** The counter is exact, and the queue and the hand hold the rest of what was put, in order. */
  predicate Accounted(s: State) {
    && s.unfinished == |s.queue| + Held(s)
    && s.taken <= |s.put| && s.queue == s.put[s.taken..]
    && (s.hand.Some? ==> s.taken > 0 && s.hand.value == s.put[s.taken - 1])
    && s.attempted == Jobs(s.put[..s.taken])
  }

  /** There is a sentinel once the join is over, only one, and the worker stops at it. */
  predicate StopsAtSentinel(s: State)
    requires s.taken <= |s.put|
  {
    && ((s.shutdown.Serving? || s.shutdown.Joining?) ==> None !in s.put)
    && ((s.shutdown.Draining? || s.shutdown.Closed?) ==> None in s.put)
    && (forall i, j | 0 <= i < j < |s.put| :: s.put[i].Some? || s.put[j].Some?)
    && (s.stopped ==> s.hand.None? && s.taken > 0 && s.put[s.taken - 1].None?)
    && (!s.stopped ==> forall i | 0 <= i < s.taken - Held(s) :: s.put[i].Some?)
    && (s.shutdown == Joining(false) ==> s.unfinished > 0)
    && (s.shutdown.Closed? ==> s.stopped)
  }

  predicate Inv(s: State) {
    Accounted(s) && StopsAtSentinel(s)
  }

  lemma StepKeepsAccounts(s: State, e: Step)
    requires Inv(s) && Enabled(s, e)
    ensures Accounted(Apply(s, e))
  {
    var t := Apply(s, e);
    if e.Get? {
      assert t.put[..t.taken] == s.put[..s.taken] + [s.queue[0]];
      JobsOfBoth(s.put[..s.taken], [s.queue[0]]);
      assert [s.queue[0]][1..] == [];
    } else if e.Put? || e.PutSentinel? {
      assert t.put[..t.taken] == s.put[..s.taken];
    }
  }

  lemma StepKeepsStopping(s: State, e: Step)
    requires Inv(s) && Enabled(s, e)
    ensures Apply(s, e).taken <= |Apply(s, e).put| && StopsAtSentinel(Apply(s, e))
  {
    var t := Apply(s, e);
    if e.Put? || e.PutSentinel? {
      assert t.put[|s.put|] in t.put && forall i | 0 <= i < |s.put| :: t.put[i] == s.put[i];
      assert None in s.put ==> None in t.put;
    }
  }

  predicate Run(states: seq<State>, steps: seq<Step>) {
    && |states| == |steps| + 1 && states[0] == START
    && forall n | 0 <= n < |steps| :: Enabled(states[n], steps[n]) && states[n + 1] == Apply(states[n], steps[n])
  }

  lemma {:induction false} RunKeepsInv(states: seq<State>, steps: seq<Step>, n: nat)
    requires Run(states, steps) && n <= |steps|
    ensures Inv(states[n])
  {
    if n > 0 {
      RunKeepsInv(states, steps, n - 1);
      StepKeepsAccounts(states[n - 1], steps[n - 1]);
      StepKeepsStopping(states[n - 1], steps[n - 1]);
    }
  }

  // ----- what a run amounts to -----

  /** The jobs put before the sentinel, or all of them while there is none. */
  function BeforeSentinel(put: seq<Item>): seq<Job> {
    if put == [] || put[0].None? then [] else [put[0].value] + BeforeSentinel(put[1..])
  }

  lemma {:induction false} TakenBeforeSentinel(put: seq<Item>, n: nat)
    requires n <= |put| && forall i | 0 <= i < n :: put[i].Some?
    ensures Jobs(put[..n]) <= BeforeSentinel(put)
    ensures |Jobs(put[..n])| == n
    ensures n < |put| && put[n].None? ==> Jobs(put[..n]) == BeforeSentinel(put)
    ensures n < |put| && put[n].None? ==> Jobs(put[..n + 1]) == BeforeSentinel(put)
  {
    if n > 0 {
      assert put[..n][1..] == put[1..][..n - 1];
      TakenBeforeSentinel(put[1..], n - 1);
      if n < |put| { assert put[..n + 1][1..] == put[1..][..n]; }
    } else if put != [] {
      assert put[..1][1..] == [];
    }
  }

  /**
   In every run, attempts are the jobs put before the sentinel, in order, each once, whatever raised; all of
   them once the worker has stopped; and a job put after the sentinel is never attempted.
   */
  lemma AttemptsAreInOrder(states: seq<State>, steps: seq<Step>, n: nat)
    requires Run(states, steps) && n <= |steps|
    ensures states[n].unfinished == |states[n].queue| + Held(states[n])
    ensures states[n].attempted <= BeforeSentinel(states[n].put)
    ensures states[n].stopped ==> states[n].attempted == BeforeSentinel(states[n].put)
    ensures states[n].shutdown == Closed ==> states[n].attempted == BeforeSentinel(states[n].put)
  {
    RunKeepsInv(states, steps, n);
    var s := states[n];
    var m := s.taken - if s.stopped then 1 else Held(s);
    assert forall i | 0 <= i < m :: s.put[i].Some? by {
      if s.stopped {
        forall i | 0 <= i < m ensures s.put[i].Some? {
          assert s.put[s.taken - 1].None?;
        }
      }
    }
    TakenBeforeSentinel(s.put, m);
    if s.hand.Some? && s.put[m].Some? {
      TakenBeforeSentinel(s.put, s.taken);
    }
  }

  /** The join is released only at a moment when everything put so far was taken and finished. */
  lemma JoinIsReleasedWhenEmpty(states: seq<State>, steps: seq<Step>, n: nat)
    requires Run(states, steps) && n < |steps|
    requires states[n + 1].shutdown == Joining(true) && states[n].shutdown != Joining(true)
    ensures states[n + 1].queue == [] && states[n + 1].hand == None
    ensures states[n + 1].attempted == Jobs(states[n + 1].put)
  {
    RunKeepsInv(states, steps, n);
    RunKeepsInv(states, steps, n + 1);
    var s := states[n + 1];
    assert s.put[..|s.put|] == s.put;
  }

  /** A job put between the release and the waiter's turn is pending when the sentinel is put, but still before it. */
  lemma SentinelMayFollowALateJob(job: Job)
    ensures
      var steps := [StartJoin, Put(job), PutSentinel];
      var s1 := Apply(START, StartJoin);
      var s2 := Apply(s1, Put(job));
      var s3 := Apply(s2, PutSentinel);
      Run([START, s1, s2, s3], steps) && s3.unfinished == 2 && BeforeSentinel(s3.put) == [job]
  {
    var s1 := Apply(START, StartJoin);
    var s2 := Apply(s1, Put(job));
    var s3 := Apply(s2, PutSentinel);
    assert s3.put == [Some(job), None];
    assert s3.put[1..] == [None];
  }

  // ----- the worker stops -----

  /** How many items are queued up to and including the sentinel. */
  function Ahead(queue: seq<Item>): nat {
    if None !in queue then 0
    else if queue[0].None? then 1
    else 1 + Ahead(queue[1..])
  }

  /** The worker's own steps that are left: a Get and a Finish for each item up to the sentinel. */
  function StepsLeft(s: State): nat {
    if s.stopped then 0 else 2 * Ahead(s.queue) + Held(s)
  }

  predicate IsWorkerStep(e: Step) {
    e.Get? || e.Finish?
  }

  function WorkerSteps(steps: seq<Step>): nat {
    if steps == [] then 0
    else WorkerSteps(steps[..|steps| - 1]) + if IsWorkerStep(steps[|steps| - 1]) then 1 else 0
  }

  lemma {:induction false} AheadOfMore(queue: seq<Item>, x: Item)
    ensures None in queue ==> Ahead(queue + [x]) == Ahead(queue)
    ensures Ahead(queue) <= |queue|
  {
    if None in queue && queue[0].Some? {
      assert queue == [queue[0]] + queue[1..] && (queue + [x])[1..] == queue[1..] + [x];
      AheadOfMore(queue[1..], x);
    }
  }

  lemma SentinelIsAhead(s: State)
    requires Inv(s) && s.shutdown == Draining && !s.stopped
    ensures None in s.queue || s.hand == Some(None)
  {
    var i :| 0 <= i < |s.put| && s.put[i].None?;
    assert i >= s.taken - Held(s);
    if i >= s.taken {
      assert s.queue[i - s.taken] == None;
    }
  }

  /** After the sentinel each step of the worker uses up one of the steps left, and no late job adds any. */
  lemma StepUsesOne(s: State, e: Step)
    requires Inv(s) && s.shutdown == Draining && Enabled(s, e) && !e.AwaitWorker?
    ensures Inv(Apply(s, e)) && Apply(s, e).shutdown == Draining
    ensures StepsLeft(s) == StepsLeft(Apply(s, e)) + if IsWorkerStep(e) then 1 else 0
    ensures s.stopped ==> Apply(s, e).stopped
  {
    StepKeepsAccounts(s, e);
    StepKeepsStopping(s, e);
    if !s.stopped {
      SentinelIsAhead(s);
      if e.Put? {
        PutUsesNone(s, e.job);
      } else if e.Get? {
        assert s.queue == [s.queue[0]] + s.queue[1..];
      } else if s.hand == Some(None) {
        NoSecondSentinel(s);
      }
    }
  }

  lemma PutUsesNone(s: State, job: Job)
    requires Inv(s) && s.shutdown == Draining && !s.stopped && (None in s.queue || s.hand == Some(None))
    ensures Ahead(s.queue + [Some(job)]) == Ahead(s.queue)
  {
    AheadOfMore(s.queue, Some(job));
    if s.hand == Some(None) {
      NoSecondSentinel(s);
    }
  }

  lemma NoSecondSentinel(s: State)
    requires Inv(s) && s.hand == Some(None)
    ensures None !in s.queue
  {
    forall i | 0 <= i < |s.queue| ensures s.queue[i] != None {
      assert s.put[s.taken + i] == s.queue[i] && s.put[s.taken - 1] == None;
    }
  }

  /** From the sentinel on, and before the shutdown has noticed that the worker is done. */
  predicate DrainingRun(states: seq<State>, steps: seq<Step>) {
    && |states| == |steps| + 1 && states[0].shutdown == Draining
    && forall n | 0 <= n < |steps| ::
      !steps[n].AwaitWorker? && Enabled(states[n], steps[n]) && states[n + 1] == Apply(states[n], steps[n])
  }

  /** The worker can take the next item, or finish the one it holds, raising or not. */
  predicate CanGoOn(s: State) {
    Enabled(s, Get) || (Enabled(s, Finish(true)) && Enabled(s, Finish(false)))
  }

  lemma UnstoppedGoesOn(s: State)
    requires Inv(s) && s.shutdown == Draining && !s.stopped
    ensures CanGoOn(s) && StepsLeft(s) > 0
  {
    SentinelIsAhead(s);
  }

  /**
   In every run after the sentinel, with late jobs put at any moment and jobs raising or not, the worker takes at
   most two steps for each item that was queued and one for its hand; and until it has stopped it can take another.
   */
  lemma {:induction false} EveryDrainIsBounded(states: seq<State>, steps: seq<Step>)
    requires DrainingRun(states, steps) && Inv(states[0])
    ensures Inv(states[|steps|]) && states[|steps|].shutdown == Draining
    ensures WorkerSteps(steps) + StepsLeft(states[|steps|]) == StepsLeft(states[0]) <= 2 * |states[0].queue| + 1
    ensures !states[|steps|].stopped ==> CanGoOn(states[|steps|])
    ensures states[|steps|].stopped <==> WorkerSteps(steps) == StepsLeft(states[0])
    decreases |steps|
  {
    if steps == [] {
      AheadOfMore(states[0].queue, None);
    } else {
      var n := |steps| - 1;
      EveryDrainIsBounded(states[..n + 1], steps[..n]);
      StepUsesOne(states[n], steps[n]);
    }
    if !states[|steps|].stopped {
      UnstoppedGoesOn(states[|steps|]);
    }
  }

  /** What the worker does next: finish what it holds, raising or not, or take the next item. */
  function OwnStep(s: State, raises: Item -> bool): Step {
    if s.hand.Some? then Finish(raises(s.hand.value)) else Get
  }

  lemma OwnStepIsNext(s: State, raises: Item -> bool)
    requires Inv(s) && s.shutdown == Draining && !s.stopped
    ensures
      var e := OwnStep(s, raises);
      && Enabled(s, e) && Inv(Apply(s, e)) && Apply(s, e).shutdown == Draining && Apply(s, e).put == s.put
      && StepsLeft(Apply(s, e)) == StepsLeft(s) - 1
  {
    SentinelIsAhead(s);
    StepUsesOne(s, OwnStep(s, raises));
  }

  /** The worker alone, for one step if it can take one. */
  function Advance(s: State, raises: Item -> bool): State {
    if Enabled(s, OwnStep(s, raises)) then Apply(s, OwnStep(s, raises)) else s
  }

  function Iterate<T>(next: T -> T, s: T, n: nat): T {
    if n == 0 then s else next(Iterate(next, s, n - 1))
  }

  /** A measure that each step lowers by one counts the steps. */
  lemma {:induction false} MeasureCountsSteps<T(!new)>(next: T -> T, kept: T -> bool, left: T -> nat, s: T, n: nat)
    requires kept(s) && n <= left(s)
    requires forall t | kept(t) && left(t) > 0 :: kept(next(t)) && left(next(t)) == left(t) - 1
    ensures kept(Iterate(next, s, n)) && left(Iterate(next, s, n)) == left(s) - n
  {
    if n > 0 {
      MeasureCountsSteps(next, kept, left, s, n - 1);
    }
  }

  /** The worker alone after n steps. */
  function After(s: State, raises: Item -> bool, n: nat): State {
    Iterate(t => Advance(t, raises), s, n)
  }

  lemma WorkerCounts(s: State, raises: Item -> bool, n: nat)
    requires Inv(s) && s.shutdown == Draining && n <= StepsLeft(s)
    ensures
      var t := After(s, raises, n);
      Inv(t) && t.shutdown == Draining && t.put == s.put && StepsLeft(t) == StepsLeft(s) - n
  {
    var kept := (t: State) => Inv(t) && t.shutdown == Draining && t.put == s.put;
    forall t: State | kept(t) && StepsLeft(t) > 0
      ensures kept(Advance(t, raises)) && StepsLeft(Advance(t, raises)) == StepsLeft(t) - 1
    {
      OwnStepIsNext(t, raises);
    }
    MeasureCountsSteps(t => Advance(t, raises), kept, StepsLeft, s, n);
  }

  /**
   The run of the worker alone, whichever jobs raise: before it has used the steps left each state follows by the
   worker's own step, and after exactly those it has stopped, so that the wait for it ends.
   */
  lemma WorkerStops(s: State, raises: Item -> bool, n: nat)
    requires Inv(s) && s.shutdown == Draining && n <= StepsLeft(s)
    ensures After(s, raises, 0) == s && StepsLeft(s) <= 2 * |s.queue| + 1
    ensures n < StepsLeft(s) ==>
      var t := After(s, raises, n);
      !t.stopped && Enabled(t, OwnStep(t, raises)) && After(s, raises, n + 1) == Apply(t, OwnStep(t, raises))
    ensures n == StepsLeft(s) ==>
      var end := After(s, raises, n);
      end.stopped && Enabled(end, AwaitWorker) && end.put == s.put
  {
    AheadOfMore(s.queue, None);
    WorkerCounts(s, raises, n);
    WorkerCounts(s, raises, 0);
    var t := After(s, raises, n);
    if !t.stopped {
      UnstoppedGoesOn(t);
      OwnStepIsNext(t, raises);
    }
  }
}
