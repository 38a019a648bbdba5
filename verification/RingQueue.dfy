/**
 The bounded log queue: a ring buffer with one spare slot that overruns its oldest item, and
 the multi-producer multi-consumer operations on it as guarded atomic steps.
 */
module RingQueue {
  import opened Common

  /** circular_q */
  class Ring<T(0)> {
    const maxItems: nat
    const v: array<T>
    var head: nat
    var tail: nat
    var overruns: nat

    ghost predicate Valid()
      reads this, v
    {
      v.Length == maxItems >= 1 && head < maxItems && tail < maxItems
    }

    /** The items, oldest first. */
    ghost function Contents(): seq<T>
      requires head < maxItems && tail < maxItems && v.Length == maxItems
      reads this, v
    {
      Window(v[..], head, tail)
    }

    constructor (capacity: nat)
      ensures Valid() && fresh(v) && maxItems == capacity + 1
      ensures Contents() == [] && overruns == 0
    {
      maxItems := capacity + 1;
      v := new T[capacity + 1];
      head, tail, overruns := 0, 0, 0;
    }

    predicate Empty()
      reads this
    {
      tail == head
    }

    predicate Full()
      requires maxItems >= 1
      reads this
    {
      (tail + 1) % maxItems == head
    }

    lemma {:induction false} EmptyFull()
      requires Valid()
      ensures Empty() <==> Contents() == []
      ensures Full() <==> |Contents()| == maxItems - 1
      ensures |Contents()| <= maxItems - 1
    {
      NextIndex(tail, maxItems);
    }

    /** Drops the oldest item when there is no room left. */
    method PushBack(item: T)
      requires Valid()
      modifies this, v
      ensures Valid()
      ensures var full := |old(Contents())| == maxItems - 1;
              && overruns == old(overruns) + (if full then 1 else 0)
              && Contents() == (old(Contents()) + [item])[if full then 1 else 0..]
    {
      ghost var w := v[..];
      NextIndex(tail, maxItems);
      NextIndex(head, maxItems);
      WindowPush(w, head, tail, item);
      v[tail] := item;
      assert v[..] == w[tail := item];
      tail := (tail + 1) % maxItems;
      if tail == head {
        head := (head + 1) % maxItems;
        overruns := overruns + 1;
      }
    }

    method PopFront() returns (item: T)
      requires Valid() && !Empty()
      modifies this
      ensures Valid() && overruns == old(overruns)
      ensures item == old(Contents())[0] && Contents() == old(Contents())[1..]
    {
      NextIndex(head, maxItems);
      WindowPop(v[..], head, tail);
      item := v[head];
      head := (head + 1) % maxItems;
    }
  }

  /** The part of a ring from `head` up to `tail`, around the end if need be. */
  function Window<T>(s: seq<T>, head: nat, tail: nat): seq<T>
    requires head < |s| && tail < |s|
  {
    if head <= tail then s[head..tail] else s[head..] + s[..tail]
  }

  function Wrap(i: nat, n: nat): nat {
    if i + 1 < n then i + 1 else 0
  }

  /** Writing at the tail: with room left, one more item; without, the oldest falls out. */
  lemma {:induction false} WindowPush<T>(s: seq<T>, head: nat, tail: nat, x: T)
    requires head < |s| && tail < |s|
    ensures Wrap(tail, |s|) == head <==> |Window(s, head, tail)| == |s| - 1
    ensures Wrap(tail, |s|) != head ==> Window(s[tail := x], head, Wrap(tail, |s|)) == Window(s, head, tail) + [x]
    ensures Wrap(tail, |s|) == head ==>
      Window(s[tail := x], Wrap(head, |s|), head) == (Window(s, head, tail) + [x])[1..]
  {
    if Wrap(tail, |s|) == head {
      WindowPushFull(s, head, tail, x);
    } else {
      var s' := s[tail := x];
      if head <= tail {
        assert tail + 1 == |s| ==> s'[head..] == s[head..tail] + [x];
      } else {
        assert s'[head..] == s[head..] && s'[..tail + 1] == s[..tail] + [x];
      }
    }
  }

  lemma {:induction false} WindowPushFull<T>(s: seq<T>, head: nat, tail: nat, x: T)
    requires head < |s| && tail < |s| && Wrap(tail, |s|) == head
    ensures Window(s[tail := x], Wrap(head, |s|), head) == (Window(s, head, tail) + [x])[1..]
  {
    var s' := s[tail := x];
    if head == 0 {
      assert Window(s, 0, tail) + [x] == s';
    } else {
      assert s'[..head] == s[..tail] + [x] && s'[head..] == s[head..];
      assert Window(s, head, tail) + [x] == s[head..] + s'[..head];
      assert s'[head + 1..] == s[head..][1..];
    }
  }

  lemma {:induction false} WindowPop<T>(s: seq<T>, head: nat, tail: nat)
    requires head < |s| && tail < |s| && head != tail
    ensures Window(s, head, tail) != [] && Window(s, head, tail)[0] == s[head]
    ensures Window(s, Wrap(head, |s|), tail) == Window(s, head, tail)[1..]
  {
  }

  lemma {:induction false} NextIndex(i: nat, n: nat)
    requires i < n
    ensures (i + 1) % n == Wrap(i, n)
  {
  }

  // ---------- The blocking queue ----------

  /** What a producer or consumer thread does next, under the queue's mutex. */
  datatype Op<T> = Enqueue(item: T) | EnqueueNowait(item: T) | Dequeue

  // ---------- The bounded queue the ring stands for ----------

  /** `items` waits in the queue, oldest first; `pushed` and `taken` are the items that entered
      and that consumers got; `dropped` counts overruns. */
  datatype Fifo<T> = Fifo(items: seq<T>, pushed: seq<T>, taken: seq<T>, dropped: nat)

  /** One step; a step whose wait condition does not hold changes nothing. */
  function Step<T>(f: Fifo<T>, capacity: nat, op: Op<T>): Fifo<T> {
    match op
    case Enqueue(x) =>
      if |f.items| < capacity then f.(items := f.items + [x], pushed := f.pushed + [x]) else f
    case EnqueueNowait(x) =>
      if |f.items| < capacity then f.(items := f.items + [x], pushed := f.pushed + [x])
      else f.(items := (f.items + [x])[1..], pushed := f.pushed + [x], dropped := f.dropped + 1)
    case Dequeue =>
      if f.items == [] then f else f.(items := f.items[1..], taken := f.taken + [f.items[0]])
  }

  function After<T>(capacity: nat, ops: seq<Op<T>>): Fifo<T> {
    if ops == [] then Fifo([], [], [], 0)
    else Step(After(capacity, ops[..|ops| - 1]), capacity, ops[|ops| - 1])
  }

  /** In every run pushes are takes plus overruns plus what is left, the capacity holds, and what
      is left is the newest part of what was pushed. */
  lemma {:induction false} Conserved<T>(capacity: nat, ops: seq<Op<T>>)
    ensures var f := After(capacity, ops);
            && |f.items| <= capacity
            && |f.pushed| == |f.taken| + f.dropped + |f.items|
            && f.items == f.pushed[|f.taken| + f.dropped..]
  {
    if ops != [] {
      Conserved(capacity, ops[..|ops| - 1]);
    }
  }

  predicate OnlyBlocking<T>(ops: seq<Op<T>>) {
    forall i :: 0 <= i < |ops| ==> !ops[i].EnqueueNowait?
  }

  /** With blocking producers only, nothing is lost and items leave exactly once, in order. */
  lemma {:induction false} BlockingLosesNothing<T>(capacity: nat, ops: seq<Op<T>>)
    requires OnlyBlocking(ops)
    ensures var f := After(capacity, ops); f.dropped == 0 && f.pushed == f.taken + f.items
  {
    if ops != [] {
      BlockingLosesNothing(capacity, ops[..|ops| - 1]);
    }
  }

  /** Each taken item has its own position in the push order, and positions increase. */
  ghost predicate TakenInOrder<T>(taken: seq<T>, at: seq<nat>, pushed: seq<T>) {
    && |at| == |taken|
    && (forall j :: 0 <= j < |at| ==> at[j] < |pushed| && taken[j] == pushed[at[j]])
    && forall i, j :: 0 <= i < j < |at| ==> at[i] < at[j]
  }

  lemma {:induction false} OneMoreTaken<T>(taken: seq<T>, at: seq<nat>, pushed: seq<T>, p: nat)
    requires TakenInOrder(taken, at, pushed) && p < |pushed| && (at != [] ==> at[|at| - 1] < p)
    ensures TakenInOrder(taken + [pushed[p]], at + [p], pushed)
  {
    assert forall i :: 0 <= i < |at| ==> at[i] <= at[|at| - 1];
  }

  lemma {:induction false} OneMorePushed<T>(taken: seq<T>, at: seq<nat>, pushed: seq<T>, x: T)
    requires TakenInOrder(taken, at, pushed)
    ensures TakenInOrder(taken, at, pushed + [x])
  {
  }

  /** Overruns included, items leave in push order and at most once. */
  lemma {:induction false} LeaveInOrder<T>(capacity: nat, ops: seq<Op<T>>) returns (at: seq<nat>)
    ensures var f := After(capacity, ops);
            && TakenInOrder(f.taken, at, f.pushed)
            && (at != [] ==> at[|at| - 1] < |f.taken| + f.dropped)
  {
    at := [];
    if ops != [] {
      var before := ops[..|ops| - 1];
      at := LeaveInOrder(capacity, before);
      Conserved(capacity, before);
      at := LeaveStep(After(capacity, before), capacity, ops[|ops| - 1], at);
    }
  }

  lemma {:induction false} LeaveStep<T>(f: Fifo<T>, capacity: nat, op: Op<T>, at: seq<nat>) returns (at': seq<nat>)
    requires |f.pushed| == |f.taken| + f.dropped + |f.items| && f.items == f.pushed[|f.taken| + f.dropped..]
    requires TakenInOrder(f.taken, at, f.pushed) && (at != [] ==> at[|at| - 1] < |f.taken| + f.dropped)
    ensures var f' := Step(f, capacity, op);
            && TakenInOrder(f'.taken, at', f'.pushed)
            && (at' != [] ==> at'[|at'| - 1] < |f'.taken| + f'.dropped)
  {
    hide TakenInOrder;
    at' := at;
    match op
    case Enqueue(x) =>
      OneMorePushed(f.taken, at, f.pushed, x);
    case EnqueueNowait(x) =>
      OneMorePushed(f.taken, at, f.pushed, x);
    case Dequeue =>
      if f.items != [] {
        OneMoreTaken(f.taken, at, f.pushed, |f.taken| + f.dropped);
        at' := at + [|f.taken| + f.dropped];
      }
  }

  // ---------- What goes in and what comes out, by the operations ----------

  function Enqueues<T>(xs: seq<T>): (ops: seq<Op<T>>)
    ensures |ops| == |xs|
  {
    seq(|xs|, i requires 0 <= i < |xs| => Enqueue(xs[i]))
  }

  function EnqueuesNowait<T>(xs: seq<T>): (ops: seq<Op<T>>)
    ensures |ops| == |xs|
  {
    seq(|xs|, i requires 0 <= i < |xs| => EnqueueNowait(xs[i]))
  }

  function Dequeues<T>(n: nat): (ops: seq<Op<T>>)
    ensures |ops| == n
  {
    seq(n, _ => Dequeue)
  }

  lemma {:induction false} AfterMore<T>(capacity: nat, ops: seq<Op<T>>, op: Op<T>)
    ensures After(capacity, ops + [op]) == Step(After(capacity, ops), capacity, op)
  {
    assert (ops + [op])[..|ops|] == ops;
  }

  /** As long as there is room, what producers enqueue goes in, in order, and nothing falls out. */
  lemma {:induction false} RoomTakesAll<T>(capacity: nat, ops: seq<Op<T>>, xs: seq<T>)
    requires |After(capacity, ops).items| + |xs| <= capacity
    ensures var f, f' := After(capacity, ops), After(capacity, ops + Enqueues(xs));
            && f'.items == f.items + xs && f'.pushed == f.pushed + xs
            && f'.taken == f.taken && f'.dropped == f.dropped
    decreases |xs|
  {
    if xs == [] {
      assert ops + Enqueues(xs) == ops;
    } else {
      var n := |xs| - 1;
      RoomTakesAll(capacity, ops, xs[..n]);
      assert ops + Enqueues(xs) == ops + Enqueues(xs[..n]) + [Enqueue(xs[n])];
      AfterMore(capacity, ops + Enqueues(xs[..n]), Enqueue(xs[n]));
      assert xs == xs[..n] + [xs[n]];
    }
  }

  /** A blocking producer waits at a full queue. */
  lemma {:induction false} FullWaits<T>(capacity: nat, ops: seq<Op<T>>, x: T)
    requires |After(capacity, ops).items| >= capacity
    ensures After(capacity, ops + [Enqueue(x)]) == After(capacity, ops)
  {
    AfterMore(capacity, ops, Enqueue(x));
  }

  /** The last `capacity` items, or all if there are not more. */
  function Newest<T>(all: seq<T>, capacity: nat): seq<T> {
    all[Excess(all, capacity)..]
  }

  function Excess<T>(all: seq<T>, capacity: nat): (n: nat)
    ensures n <= |all|
  {
    if |all| > capacity then |all| - capacity else 0
  }

  lemma {:induction false} NewestStep<T>(all: seq<T>, x: T, capacity: nat)
    ensures var kept := Newest(all, capacity);
            if |kept| < capacity
            then Newest(all + [x], capacity) == kept + [x] && Excess(all + [x], capacity) == Excess(all, capacity)
            else Newest(all + [x], capacity) == (kept + [x])[1..] && Excess(all + [x], capacity) == Excess(all, capacity) + 1
  {
  }

  /** Without waiting everything goes in, and the newest items stay. */
  lemma {:induction false} NowaitKeepsNewest<T>(capacity: nat, ops: seq<Op<T>>, xs: seq<T>)
    ensures var f, f' := After(capacity, ops), After(capacity, ops + EnqueuesNowait(xs));
            && f'.items == Newest(f.items + xs, capacity) && f'.pushed == f.pushed + xs
            && f'.taken == f.taken && f'.dropped == f.dropped + Excess(f.items + xs, capacity)
    decreases |xs|
  {
    Conserved(capacity, ops);
    var f := After(capacity, ops);
    if xs == [] {
      assert ops + EnqueuesNowait(xs) == ops && f.items + xs == f.items && f.pushed + xs == f.pushed;
    } else {
      hide After, Newest, Excess;
      var n := |xs| - 1;
      NowaitKeepsNewest(capacity, ops, xs[..n]);
      assert ops + EnqueuesNowait(xs) == ops + EnqueuesNowait(xs[..n]) + [EnqueueNowait(xs[n])];
      AfterMore(capacity, ops + EnqueuesNowait(xs[..n]), EnqueueNowait(xs[n]));
      NewestStep(f.items + xs[..n], xs[n], capacity);
      OneLonger(f.items, xs);
      OneLonger(f.pushed, xs);
    }
  }

  lemma {:induction false} OneLonger<T>(a: seq<T>, xs: seq<T>)
    requires xs != []
    ensures a + xs == a + xs[..|xs| - 1] + [xs[|xs| - 1]]
  {
  }

  /** Consumers take the oldest items, one each, until none is left. */
  lemma {:induction false} ConsumersTake<T>(capacity: nat, ops: seq<Op<T>>, n: nat)
    ensures var f, f' := After(capacity, ops), After(capacity, ops + Dequeues(n));
            var k := if n <= |f.items| then n else |f.items|;
            && f'.taken == f.taken + f.items[..k] && f'.items == f.items[k..]
            && f'.pushed == f.pushed && f'.dropped == f.dropped
  {
    var f := After(capacity, ops);
    if n == 0 {
      assert ops + Dequeues(n) == ops && f.taken + f.items[..0] == f.taken;
    } else {
      hide After;
      ConsumersTake(capacity, ops, n - 1);
      assert ops + Dequeues(n) == ops + Dequeues(n - 1) + [Dequeue];
      AfterMore(capacity, ops + Dequeues(n - 1), Dequeue);
      if n <= |f.items| {
        OneFurther(f.taken, f.items, n);
      }
    }
  }

  lemma {:induction false} OneFurther<T>(taken: seq<T>, items: seq<T>, n: nat)
    requires 0 < n <= |items|
    ensures items[n - 1..] != [] && items[n - 1..][1..] == items[n..]
    ensures taken + items[..n - 1] + [items[n - 1..][0]] == taken + items[..n]
  {
  }

  /** What goes through an empty queue comes out as it went in. */
  lemma {:induction false} ThroughTheQueue<T>(capacity: nat, xs: seq<T>)
    requires |xs| <= capacity
    ensures After(capacity, Enqueues(xs) + Dequeues(|xs|)) == Fifo([], xs, xs, 0)
  {
    var none: seq<Op<T>> := [];
    assert After(capacity, none) == Fifo([], [], [], 0);
    hide After;
    RoomTakesAll(capacity, none, xs);
    assert none + Enqueues(xs) == Enqueues(xs);
    ConsumersTake(capacity, Enqueues(xs), |xs|);
    assert [] + xs == xs && xs[..|xs|] == xs && xs[|xs|..] == [];
  }

  /** The items that enter in a run: all that do not wait, and those that find room. */
  function Entering<T>(capacity: nat, ops: seq<Op<T>>): seq<T> {
    if ops == [] then []
    else
      var n := |ops| - 1;
      var enters := ops[n].EnqueueNowait? || (ops[n].Enqueue? && |After(capacity, ops[..n]).items| < capacity);
      Entering(capacity, ops[..n]) + if enters then [ops[n].item] else []
  }

  function CountDequeues<T>(ops: seq<Op<T>>): nat {
    if ops == [] then 0 else CountDequeues(ops[..|ops| - 1]) + if ops[|ops| - 1].Dequeue? then 1 else 0
  }

  function CountNowait<T>(ops: seq<Op<T>>): nat {
    if ops == [] then 0 else CountNowait(ops[..|ops| - 1]) + if ops[|ops| - 1].EnqueueNowait? then 1 else 0
  }

  /** Over every run: exactly these items entered; every dequeue took an item unless it found the
      queue empty; and only an enqueue that does not wait can have dropped one. */
  lemma {:induction false} Throughput<T>(capacity: nat, ops: seq<Op<T>>)
    ensures var f := After(capacity, ops);
            && f.pushed == Entering(capacity, ops)
            && |f.taken| <= CountDequeues(ops) && f.dropped <= CountNowait(ops)
            && (|f.taken| == CountDequeues(ops) <==>
                forall j :: 0 <= j < |ops| && ops[j].Dequeue? ==> After(capacity, ops[..j]).items != [])
  {
    if ops != [] {
      var n := |ops| - 1;
      var front := ops[..n];
      Throughput(capacity, front);
      assert forall j :: 0 <= j < n ==> front[j] == ops[j] && front[..j] == ops[..j];
      assert After(capacity, ops) == Step(After(capacity, front), capacity, ops[n]);
      hide After;
    }
  }

  // ---------- The operations on the ring ----------

  /** One thread's operation as an atomic step under the queue mutex. */
  method Perform<T(0)>(q: Ring<T>, op: Op<T>, ghost f: Fifo<T>) returns (out: Option<T>)
    requires q.Valid() && q.Contents() == f.items && q.overruns == f.dropped
    modifies q, q.v
    ensures q.Valid()
    ensures var f' := Step(f, q.maxItems - 1, op);
            && q.Contents() == f'.items && q.overruns == f'.dropped
            && f'.taken == f.taken + if out.Some? then [out.value] else []
  {
    q.EmptyFull();
    out := None;
    match op
    case Enqueue(item) =>
      if !q.Full() {
        q.PushBack(item);
      }
    case EnqueueNowait(item) =>
      q.PushBack(item);
    case Dequeue =>
      if !q.Empty() {
        var item := q.PopFront();
        out := Some(item);
      }
  }

  /** Any interleaving of producers and consumers on the ring is a run of the bounded queue. */
  method Run<T(0)>(capacity: nat, ops: seq<Op<T>>) returns (taken: seq<T>, left: seq<T>, overruns: nat)
    ensures var f := After(capacity, ops); taken == f.taken && left == f.items && overruns == f.dropped
  {
    hide Window;
    var q := new Ring<T>(capacity);
    taken := [];
    for i := 0 to |ops|
      invariant q.Valid() && fresh(q) && fresh(q.v) && q.maxItems == capacity + 1
      invariant var f := After(capacity, ops[..i]);
                q.Contents() == f.items && q.overruns == f.dropped && taken == f.taken
    {
      assert ops[..i + 1][..i] == ops[..i];
      var out := Perform(q, ops[i], After(capacity, ops[..i]));
      if out.Some? {
        taken := taken + [out.value];
      }
    }
    assert ops[..|ops|] == ops;
    overruns := q.overruns;
    left := Window(q.v[..], q.head, q.tail);
  }
}
