/**
 The notification pipeline under every interleaving: publishers raise a subscription's flag,
 any number of checkNotify tasks test it and take it down under the subscription's mutex and
 queue a notification, and one dispatcher reads the front of the queue and pops it later.
 */
module NotifyPipeline {
  import opened Common

  /** The n-th raise of the run has number n. A queued notification carries the number of the
      raise it answers, or none if the flag was down when its task cleared it; the server itself
      only keeps the flag. */
  datatype Entry = Entry(sub: nat, raise: Option<nat>)

  /** Where a checkNotify task is: not started, between test and clear (holding the mutex),
      between clear and queueing, finished. */
  datatype Pc = Start | Tested | Took(raise: Option<nat>) | Finished
  datatype Task = Task(sub: nat, pc: Pc)

  datatype State = State(
    raises: seq<nat>,         // the subscription of every raise so far
    flags: map<nat, nat>,     // raised flags, with the number of the latest raise
    locks: map<nat, nat>,     // held mutexes, with the task that holds them
    tasks: seq<Task>,
    queue: seq<Entry>,
    reading: bool,            // the dispatcher has read the front and not popped it yet
    queued: seq<Entry>,       // history: everything ever queued
    dispatched: seq<Entry>,   // history: everything ever dispatched
    absorbed: set<nat>)       // raises that found the flag up: the earlier one is absorbed

  datatype Step =
    | Raise(sub: nat)
    | Spawn(sub: nat)
    | Test(task: nat)
    | Clear(task: nat)
    | Enqueue(task: nat)
    | ReadFront
    | PopFront

  const INIT := State([], map[], map[], [], [], false, [], [], {})

  predicate Enabled(s: State, step: Step) {
    match step
    case Raise(_) => true
    case Spawn(_) => true
    case Test(t) => t < |s.tasks| && s.tasks[t].pc == Start && s.tasks[t].sub !in s.locks
    case Clear(t) => t < |s.tasks| && s.tasks[t].pc == Tested
    case Enqueue(t) => t < |s.tasks| && s.tasks[t].pc.Took?
    case ReadFront => !s.reading && s.queue != []
    case PopFront => s.reading && s.queue != []
  }

  function Next(s: State, step: Step): State
    requires Enabled(s, step)
  {
    match step
    case Raise(w) =>
      s.(raises := s.raises + [w], flags := s.flags[w := |s.raises|],
         absorbed := s.absorbed + if w in s.flags then {s.flags[w]} else {})
    case Spawn(w) => s.(tasks := s.tasks + [Task(w, Start)])
    case Test(t) =>
      var w := s.tasks[t].sub;
      if w in s.flags
      then s.(tasks := s.tasks[t := Task(w, Tested)], locks := s.locks[w := t])
      else s.(tasks := s.tasks[t := Task(w, Finished)])
    case Clear(t) =>
      var w := s.tasks[t].sub;
      var raise := if w in s.flags then Some(s.flags[w]) else None;
      s.(tasks := s.tasks[t := Task(w, Took(raise))], flags := s.flags - {w}, locks := s.locks - {w})
    case Enqueue(t) =>
      var e := Entry(s.tasks[t].sub, s.tasks[t].pc.raise);
      s.(tasks := s.tasks[t := Task(e.sub, Finished)], queue := s.queue + [e], queued := s.queued + [e])
    case ReadFront => s.(reading := true, dispatched := s.dispatched + [s.queue[0]])
    case PopFront => s.(reading := false, queue := s.queue[1..])
  }

  ghost function After(steps: seq<Step>): State {
    if steps == [] then INIT
    else
      var s, step := After(steps[..|steps| - 1]), steps[|steps| - 1];
      if Enabled(s, step) then Next(s, step) else s
  }

  /** Every step is possible when it is taken. */
  ghost predicate IsRun(steps: seq<Step>) {
    forall n :: 0 <= n < |steps| ==> Enabled(After(steps[..n]), steps[n])
  }

  // ---------- Queue and dispatcher ----------

  /** Everything queued is dispatched or still waiting, once and in order; while the dispatcher
      is between its read and its pop, the front is what it has just dispatched. */
  ghost predicate QueueInv(s: State) {
    && (s.reading ==> s.queue != [] && s.dispatched != [] && s.dispatched[|s.dispatched| - 1] == s.queue[0])
    && s.queued == s.dispatched + s.queue[if s.reading then 1 else 0..]
  }

  lemma {:induction false} QueueStep(s: State, step: Step)
    requires QueueInv(s) && Enabled(s, step)
    ensures QueueInv(Next(s, step))
  {
    match step
    case Enqueue(t) => QueueGrows(s.queued, s.dispatched, s.queue, if s.reading then 1 else 0, Next(s, step).queue[|s.queue|]);
    case ReadFront => FrontRead(s.queued, s.dispatched, s.queue);
    case _ =>
  }

  lemma {:induction false} QueueGrows(queued: seq<Entry>, dispatched: seq<Entry>, queue: seq<Entry>, k: nat, e: Entry)
    requires k <= |queue| && queued == dispatched + queue[k..]
    ensures queued + [e] == dispatched + (queue + [e])[k..]
  {
    assert (queue + [e])[k..] == queue[k..] + [e];
  }

  lemma {:induction false} FrontRead(queued: seq<Entry>, dispatched: seq<Entry>, queue: seq<Entry>)
    requires queue != [] && queued == dispatched + queue[0..]
    ensures queued == dispatched + [queue[0]] + queue[1..]
  {
    assert queue[0..] == [queue[0]] + queue[1..];
  }

  // ---------- Flags and notifications ----------

  /** There is a raise, of subscription `w`. */
  ghost predicate IsRaise(s: State, w: nat, raise: Option<nat>) {
    raise.Some? && raise.value < |s.raises| && s.raises[raise.value] == w
  }

  /** Numbers that have left the flags, by queue position or by task. */
  ghost predicate Distinct(s: State) {
    && (forall i, j :: 0 <= i < j < |s.queued| ==> s.queued[i].raise != s.queued[j].raise)
    && (forall i, j :: 0 <= i < |s.tasks| && 0 <= j < |s.tasks| && i != j && s.tasks[i].pc.Took? && s.tasks[j].pc.Took?
          ==> s.tasks[i].pc.raise != s.tasks[j].pc.raise)
    && (forall i, j :: 0 <= i < |s.queued| && 0 <= j < |s.tasks| && s.tasks[j].pc.Took?
          ==> s.queued[i].raise != s.tasks[j].pc.raise)
  }

  /** Each number belongs to its subscription, and a raised flag's number is still unused. */
  ghost predicate Placed(s: State) {
    && (forall w :: w in s.flags ==> IsRaise(s, w, Some(s.flags[w])))
    && (forall i :: 0 <= i < |s.queued| ==> IsRaise(s, s.queued[i].sub, s.queued[i].raise))
    && (forall j :: 0 <= j < |s.tasks| && s.tasks[j].pc.Took? ==> IsRaise(s, s.tasks[j].sub, s.tasks[j].pc.raise))
    && (forall w, i :: w in s.flags && 0 <= i < |s.queued| ==> s.queued[i].raise != Some(s.flags[w]))
    && (forall w, j :: w in s.flags && 0 <= j < |s.tasks| && s.tasks[j].pc.Took? ==> s.tasks[j].pc.raise != Some(s.flags[w]))
  }

  /** A task between test and clear holds its mutex, and its flag is still up. */
  ghost predicate Locked(s: State) {
    forall j :: 0 <= j < |s.tasks| && s.tasks[j].pc == Tested ==>
      s.tasks[j].sub in s.locks && s.locks[s.tasks[j].sub] == j && s.tasks[j].sub in s.flags
  }

  /** What became of raise `r`. */
  ghost predicate Accounted(s: State, r: nat) {
    || r in s.absorbed
    || (exists w :: w in s.flags && s.flags[w] == r)
    || (exists j :: 0 <= j < |s.tasks| && s.tasks[j].pc == Took(Some(r)))
    || (exists i :: 0 <= i < |s.queued| && s.queued[i].raise == Some(r))
  }

  ghost predicate FlagInv(s: State) {
    Distinct(s) && Placed(s) && Locked(s)
  }

  lemma {:induction false} FlagStep(s: State, step: Step)
    requires FlagInv(s) && Enabled(s, step)
    ensures FlagInv(Next(s, step))
  {
    DistinctStep(s, step);
    PlacedStep(s, step);
    LockedStep(s, step);
  }

  lemma {:induction false} DistinctStep(s: State, step: Step)
    requires FlagInv(s) && Enabled(s, step)
    ensures Distinct(Next(s, step))
  {
    match step
    case Clear(t) => DistinctClear(s, t);
    case Enqueue(t) => DistinctEnqueue(s, t);
    case _ =>
  }

  /** The mutex has kept the flag up since the test, so the task takes a raise nobody else has. */
  lemma {:induction false} DistinctClear(s: State, t: nat)
    requires FlagInv(s) && Enabled(s, Clear(t))
    ensures Distinct(Next(s, Clear(t)))
  {
    assert s.tasks[t].sub in s.flags;
  }

  lemma {:induction false} DistinctEnqueue(s: State, t: nat)
    requires Distinct(s) && Enabled(s, Enqueue(t))
    ensures Distinct(Next(s, Enqueue(t)))
  {
  }

  lemma {:induction false} PlacedStep(s: State, step: Step)
    requires FlagInv(s) && Enabled(s, step)
    ensures Placed(Next(s, step))
  {
    match step
    case Raise(_) => PlacedRaise(s, step);
    case Spawn(_) =>
    case Test(_) =>
    case Clear(t) => PlacedClear(s, t);
    case Enqueue(t) => PlacedEnqueue(s, t);
    case ReadFront =>
    case PopFront =>
  }

  lemma {:induction false} PlacedClear(s: State, t: nat)
    requires Placed(s) && Locked(s) && Enabled(s, Clear(t))
    ensures Placed(Next(s, Clear(t)))
  {
    var s', w := Next(s, Clear(t)), s.tasks[t].sub;
    assert IsRaise(s, w, Some(s.flags[w]));
    forall x, r | IsRaise(s, x, r) ensures IsRaise(s', x, r) {
    }
  }

  lemma {:induction false} PlacedEnqueue(s: State, t: nat)
    requires Placed(s) && Enabled(s, Enqueue(t))
    ensures Placed(Next(s, Enqueue(t)))
  {
    forall x, r | IsRaise(s, x, r) ensures IsRaise(Next(s, Enqueue(t)), x, r) {
    }
  }

  /** The number of a new raise is fresh. */
  lemma {:induction false} PlacedRaise(s: State, step: Step)
    requires Placed(s) && step.Raise?
    ensures Placed(Next(s, step))
  {
    var s' := Next(s, step);
    forall w, r | IsRaise(s, w, r) ensures IsRaise(s', w, r) && r != Some(|s.raises|) {
    }
  }

  lemma {:induction false} LockedStep(s: State, step: Step)
    requires Locked(s) && Enabled(s, step)
    ensures Locked(Next(s, step))
  {
  }

  lemma {:induction false} AccountStep(s: State, step: Step, r: nat)
    requires Enabled(s, step) && r < |Next(s, step).raises|
    requires r < |s.raises| ==> Accounted(s, r)
    ensures Accounted(Next(s, step), r)
  {
    var s' := Next(s, step);
    if r == |s.raises| {
      assert step.Raise? && s'.flags[step.sub] == r;
    } else if r in s.absorbed {
    } else if w :| w in s.flags && s.flags[w] == r {
      match step
      case Clear(t) =>
        if w == s.tasks[t].sub {
          assert s'.tasks[t].pc == Took(Some(r));
        } else {
          assert w in s'.flags && s'.flags[w] == r;
        }
      case Raise(x) => assert x != w ==> w in s'.flags && s'.flags[w] == r;
      case _ => assert w in s'.flags && s'.flags[w] == r;
    } else if j :| 0 <= j < |s.tasks| && s.tasks[j].pc == Took(Some(r)) {
      if step == Enqueue(j) {
        assert s'.queued[|s.queued|].raise == Some(r);
      } else {
        assert s'.tasks[j].pc == Took(Some(r));
      }
    } else {
      var i :| 0 <= i < |s.queued| && s.queued[i].raise == Some(r);
      assert s'.queued[i].raise == Some(r);
    }
  }

  // ---------- Main results ----------

  lemma {:induction false} RunInv(steps: seq<Step>)
    requires IsRun(steps)
    ensures QueueInv(After(steps)) && FlagInv(After(steps))
    ensures forall r: nat :: r < |After(steps).raises| ==> Accounted(After(steps), r)
  {
    if steps != [] {
      var front := steps[..|steps| - 1];
      var s, step := After(front), steps[|steps| - 1];
      assert Enabled(s, step);
      forall n | 0 <= n < |front| ensures Enabled(After(front[..n]), front[n]) {
        assert front[..n] == steps[..n];
      }
      RunInv(front);
      QueueStep(s, step);
      FlagStep(s, step);
      forall r: nat | r < |After(steps).raises| ensures Accounted(After(steps), r) {
        AccountStep(s, step, r);
      }
    }
  }

  /** Every queued notification answers a raise of its own subscription, and no raise is answered
      twice. */
  lemma {:induction false} EachAnswersItsOwnRaise(steps: seq<Step>)
    requires IsRun(steps)
    ensures var s := After(steps);
            && (forall i :: 0 <= i < |s.queued| ==> IsRaise(s, s.queued[i].sub, s.queued[i].raise))
            && (forall i, j :: 0 <= i < j < |s.queued| ==> s.queued[i].raise != s.queued[j].raise)
  {
    RunInv(steps);
  }

  /** The dispatcher hands out a prefix of what was queued, each entry once and in order. */
  lemma {:induction false} DispatchedInOrder(steps: seq<Step>)
    requires IsRun(steps)
    ensures var s := After(steps);
            && s.dispatched <= s.queued
            && |s.queued| == |s.dispatched| + |s.queue| - if s.reading then 1 else 0
  {
    RunInv(steps);
  }

  /** No raise is dropped: once every flag is down and every task is finished, a raise was either
      queued or absorbed by a later one. */
  lemma {:induction false} NoRaiseDropped(steps: seq<Step>, r: nat)
    requires IsRun(steps) && After(steps).flags == map[] && r < |After(steps).raises|
    requires forall j :: 0 <= j < |After(steps).tasks| ==> !After(steps).tasks[j].pc.Took?
    ensures r in After(steps).absorbed ||
      exists i :: 0 <= i < |After(steps).queued| && After(steps).queued[i].raise == Some(r)
  {
    RunInv(steps);
    assert Accounted(After(steps), r);
  }

  // ---------- Something happens ----------

  /** A task that gets to test a raised flag goes on to queue the latest raise and takes the flag
      down. */
  lemma {:induction false} TaskQueues(s: State, t: nat)
    requires Enabled(s, Test(t)) && s.tasks[t].sub in s.flags
    ensures Enabled(Next(s, Test(t)), Clear(t))
    ensures Enabled(Next(Next(s, Test(t)), Clear(t)), Enqueue(t))
    ensures var w := s.tasks[t].sub;
            var s' := Next(Next(Next(s, Test(t)), Clear(t)), Enqueue(t));
            && s'.queued == s.queued + [Entry(w, Some(s.flags[w]))] && s'.queue == s.queue + [Entry(w, Some(s.flags[w]))]
            && s'.flags == s.flags - {w} && s'.locks == s.locks - {w}
            && s'.tasks == s.tasks[t := Task(w, Finished)]
  {
  }

  /** The dispatcher hands out the front of a queue that is not empty, and then removes it. */
  lemma {:induction false} DispatcherTakes(s: State)
    requires QueueInv(s) && !s.reading && s.queue != []
    ensures Enabled(s, ReadFront) && Enabled(Next(s, ReadFront), PopFront)
    ensures var s' := Next(Next(s, ReadFront), PopFront);
            s'.dispatched == s.dispatched + [s.queue[0]] && s'.queue == s.queue[1..] && !s'.reading
  {
  }

  /** The subscriptions raised by a run, in order. */
  function Raised(steps: seq<Step>): seq<nat> {
    if steps == [] then []
    else
      var n := |steps| - 1;
      Raised(steps[..n]) + if steps[n].Raise? then [steps[n].sub] else []
  }

  function CountEnqueues(steps: seq<Step>): nat {
    if steps == [] then 0 else CountEnqueues(steps[..|steps| - 1]) + if steps[|steps| - 1].Enqueue? then 1 else 0
  }

  function CountReads(steps: seq<Step>): nat {
    if steps == [] then 0 else CountReads(steps[..|steps| - 1]) + if steps[|steps| - 1].ReadFront? then 1 else 0
  }

  lemma {:induction false} FrontIsRun(steps: seq<Step>)
    requires IsRun(steps) && steps != []
    ensures IsRun(steps[..|steps| - 1]) && Enabled(After(steps[..|steps| - 1]), steps[|steps| - 1])
  {
    var front := steps[..|steps| - 1];
    forall n | 0 <= n < |front| ensures Enabled(After(front[..n]), front[n]) {
      assert front[..n] == steps[..n];
    }
  }

  /** Every step leaves its mark: raises, queued and dispatched entries are as many as the steps
      that make them. */
  lemma {:induction false} StepsCount(steps: seq<Step>)
    requires IsRun(steps)
    ensures var s := After(steps);
            s.raises == Raised(steps) && |s.queued| == CountEnqueues(steps) && |s.dispatched| == CountReads(steps)
  {
    if steps != [] {
      FrontIsRun(steps);
      StepsCount(steps[..|steps| - 1]);
    }
  }

  /** A check task for `w` has been spawned since the flag of `w` was last raised. */
  function Followed(steps: seq<Step>, w: nat): bool {
    if steps == [] then false
    else
      var n := |steps| - 1;
      if steps[n] == Raise(w) then false else steps[n] == Spawn(w) || Followed(steps[..n], w)
  }

  /** Task `j` will still look at the flag of `w`, or has seen it up. */
  ghost predicate Looking(s: State, w: nat, j: nat) {
    j < |s.tasks| && s.tasks[j].sub == w && (s.tasks[j].pc == Start || s.tasks[j].pc == Tested)
  }

  lemma {:induction false} StillLooking(s: State, step: Step, w: nat, j: nat)
    requires Enabled(s, step) && Looking(s, w, j) && w in s.flags && w in Next(s, step).flags && step != Raise(w)
    ensures Looking(Next(s, step), w, j)
  {
  }

  /** As long as a raised flag has a task spawned after it, some task is still going to clear it. */
  lemma {:induction false} SomebodyLooks(steps: seq<Step>, w: nat)
    requires IsRun(steps) && Followed(steps, w) && w in After(steps).flags
    ensures exists j :: Looking(After(steps), w, j)
  {
    FrontIsRun(steps);
    var n := |steps| - 1;
    var s, step := After(steps[..n]), steps[n];
    if step == Spawn(w) {
      assert Looking(After(steps), w, |s.tasks|);
    } else {
      SomebodyLooks(steps[..n], w);
      var j :| Looking(s, w, j);
      StillLooking(s, step, w, j);
    }
  }

  /** A raise is absorbed only by a later raise of the same flag. */
  ghost predicate AbsorbedLater(s: State) {
    forall r :: r in s.absorbed ==> r < |s.raises| && exists q :: r < q < |s.raises| && s.raises[q] == s.raises[r]
  }

  lemma {:induction false} AbsorbedStep(s: State, step: Step)
    requires AbsorbedLater(s) && Placed(s) && Enabled(s, step)
    ensures AbsorbedLater(Next(s, step))
  {
    var s' := Next(s, step);
    forall r | r in s'.absorbed ensures r < |s'.raises| && exists q :: r < q < |s'.raises| && s'.raises[q] == s'.raises[r] {
      if r in s.absorbed {
        var q :| r < q < |s.raises| && s.raises[q] == s.raises[r];
        assert s'.raises[q] == s'.raises[r];
      } else {
        assert step.Raise? && IsRaise(s, step.sub, Some(r));
        assert s'.raises[|s.raises|] == s'.raises[r];
      }
    }
  }

  lemma {:induction false} AbsorbedRun(steps: seq<Step>)
    requires IsRun(steps)
    ensures AbsorbedLater(After(steps))
  {
    if steps != [] {
      FrontIsRun(steps);
      AbsorbedRun(steps[..|steps| - 1]);
      RunInv(steps[..|steps| - 1]);
      AbsorbedStep(After(steps[..|steps| - 1]), steps[|steps| - 1]);
    }
  }

  /** Raise `r` is the last one of `w`. */
  ghost predicate LastRaise(s: State, w: nat, r: nat) {
    r < |s.raises| && s.raises[r] == w && forall q :: r < q < |s.raises| ==> s.raises[q] != w
  }

  /** Once all tasks are finished, a flag whose last raise was followed by a spawned task is down,
      and that raise has been queued. */
  lemma {:induction false} LastRaiseQueued(steps: seq<Step>, w: nat, r: nat)
    requires IsRun(steps) && Followed(steps, w) && LastRaise(After(steps), w, r)
    requires forall j :: 0 <= j < |After(steps).tasks| ==> After(steps).tasks[j].pc == Finished
    ensures w !in After(steps).flags
    ensures Entry(w, Some(r)) in After(steps).queued
  {
    hide After, IsRun, Followed;
    var s := After(steps);
    if w in s.flags {
      SomebodyLooks(steps, w);
    }
    RunInv(steps);
    AbsorbedRun(steps);
    assert Accounted(s, r);
    assert r !in s.absorbed;
    assert forall x :: x in s.flags ==> IsRaise(s, x, Some(s.flags[x]));
    var i :| 0 <= i < |s.queued| && s.queued[i].raise == Some(r);
    assert IsRaise(s, s.queued[i].sub, s.queued[i].raise);
    assert s.queued[i] == Entry(w, Some(r));
  }
}
