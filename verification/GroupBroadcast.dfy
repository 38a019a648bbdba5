/**
 The broadcast of one published event over the server groups: ranks give roles and groups,
 and a server forwards according to its role and the message's source tag. A broadcast is a
 bag of messages in flight that are delivered, or lost, in any order.
 */
module GroupBroadcast {
  import opened Common
  import opened Arith

  /** `groups` and `size` are the group count and group size of the start-up parameters, `total`
      the number of servers, `recorded` the coordinators that have a subscription record of the
      event, `propagate` whether in-group propagation is on. */
  datatype Net = Net(groups: nat, size: nat, total: nat, propagate: bool, recorded: set<nat>)

  datatype Status = Coordinator | Worker | FreePool
  datatype Source = FromClient | InGroup | BetweenGroups
  datatype Msg = Msg(to: nat, source: Source)

  ghost predicate Sane(net: Net) {
    net.groups >= 1 && net.size >= 1
  }

  // ---------- Roles ----------

  function StatusOf(net: Net, rank: nat): Status {
    if rank < net.groups then Coordinator
    else if rank < net.groups * net.size then Worker
    else FreePool
  }

  function ClusterOf(net: Net, rank: nat): nat
    requires net.groups >= 1
  {
    rank % net.groups
  }

  function Workers(net: Net, g: nat): set<nat>
    requires net.groups >= 1
  {
    set r | 0 <= r < net.total && StatusOf(net, r) == Worker && ClusterOf(net, r) == g
  }

  function Coordinators(net: Net): set<nat> {
    set r | 0 <= r < net.total && StatusOf(net, r) == Coordinator
  }

  /** Ranks from `groups` up to `groups * s` that fall into cluster `g`. */
  function Class(n: nat, s: nat, g: nat): set<nat>
    requires n >= 1
  {
    set r | n <= r < n * s && r % n == g
  }

  lemma {:induction false} ClassSize(n: nat, s: nat, g: nat)
    requires n >= 1 && s >= 1 && g < n
    ensures |Class(n, s, g)| == s - 1
  {
    if s == 1 {
      assert Class(n, s, g) == {};
    } else {
      ClassSize(n, s - 1, g);
      var x := n * (s - 1) + g;
      DivMod(x, n, s - 1, g);
      assert n * s == n * (s - 1) + n;
      Multiple(n, s - 1);
      forall r | r in Class(n, s, g) ensures r == x || r in Class(n, s - 1, g) {
        if r >= n * (s - 1) {
          DivMod(r, n, s - 1, r - n * (s - 1));
        }
      }
      assert Class(n, s, g) == Class(n, s - 1, g) + {x};
    }
  }

  /** With enough servers, every group has exactly one coordinator and size - 1 workers. */
  lemma {:induction false} GroupShape(net: Net, g: nat)
    requires Sane(net) && net.groups * net.size <= net.total && g < net.groups
    ensures forall r :: r in Coordinators(net) && ClusterOf(net, r) == g <==> r == g
    ensures |Workers(net, g)| == net.size - 1
    ensures Workers(net, g) !! Coordinators(net)
    ensures forall h: nat :: h < net.groups && h != g ==> Workers(net, g) !! Workers(net, h)
  {
    Multiple(net.groups, net.size);
    ClassSize(net.groups, net.size, g);
    assert Workers(net, g) == Class(net.groups, net.size, g);
    forall r: nat | r < net.groups ensures ClusterOf(net, r) == r {
      DivMod(r, net.groups, 0, r);
    }
  }

  lemma {:induction false} WorkersAtMost(net: Net, g: nat)
    requires Sane(net) && g < net.groups
    ensures |Workers(net, g)| <= net.size - 1
  {
    ClassSize(net.groups, net.size, g);
    SubsetSize(Workers(net, g), Class(net.groups, net.size, g));
  }

  // ---------- Forwarding ----------

  /** The workers of group g are the servers g + groups, g + 2 * groups and so on, below the bound. */
  lemma {:induction false} WorkersAre(net: Net, g: nat, x: nat)
    requires Sane(net) && g < net.groups
    ensures x in Workers(net, g) <==> x < net.total && exists q: nat :: 1 <= q < net.size && x == g + q * net.groups
  {
    var n := net.groups;
    if x in Workers(net, g) {
      var q := x / n;
      assert x == n * q + g;
      assert n * q == n * net.size + n * (q - net.size);
      if q > net.size {
        Multiple(n, q - net.size);
      }
      assert q * n == n * q && x == g + q * n;
    }
    if q: nat :| 1 <= q < net.size && x == g + q * n {
      assert q * n == n * q;
      DivMod(x, n, q, g);
      Multiple(n, q);
      Multiple(n, net.size - q);
      assert n * net.size == n * q + n * (net.size - q);
    }
  }

  function Others(addrs: set<nat>, self: nat, source: Source): set<Msg> {
    set a | a in addrs && a != self :: Msg(a, source)
  }

  /** publishMultiServer: to all workers of the own cluster but oneself. */
  function ToWorkers(net: Net, self: nat): set<Msg>
    requires net.groups >= 1
  {
    Others(Workers(net, ClusterOf(net, self)), self, InGroup)
  }

  /** publishMultiGroup: to all coordinators but oneself. */
  function ToCoordinators(net: Net, self: nat): set<Msg> {
    Others(Coordinators(net), self, BetweenGroups)
  }

  /** The messages a server sends when it handles a publish with the given source tag. */
  function Forwards(net: Net, self: nat, source: Source): set<Msg>
    requires net.groups >= 1
  {
    (if net.propagate && source == FromClient then ToWorkers(net, self) else {}) +
    (if StatusOf(net, self) == Coordinator && (source == InGroup || source == FromClient)
     then ToCoordinators(net, self) else {}) +
    (if StatusOf(net, self) == Coordinator && source == BetweenGroups && self in net.recorded
     then ToWorkers(net, self) else {})
  }

  // ---------- Runs ----------

  datatype State = State(inFlight: multiset<Msg>, processed: multiset<Msg>, lost: multiset<Msg>)

  function Start(r0: nat): State {
    State(multiset{Msg(r0, FromClient)}, multiset{}, multiset{})
  }

  datatype Step = Deliver(m: Msg) | Lose(m: Msg)

  ghost function Next(net: Net, s: State, step: Step): State
    requires Sane(net)
  {
    match step
    case Deliver(m) =>
      State(s.inFlight - multiset{m} + multiset(Forwards(net, m.to, m.source)), s.processed + multiset{m}, s.lost)
    case Lose(m) => State(s.inFlight - multiset{m}, s.processed, s.lost + multiset{m})
  }

  ghost predicate IsRun(net: Net, r0: nat, steps: seq<Step>)
    requires Sane(net)
  {
    steps != [] ==>
      var n := |steps| - 1;
      IsRun(net, r0, steps[..n]) && steps[n].m in After(net, r0, steps[..n]).inFlight
  }

  ghost function After(net: Net, r0: nat, steps: seq<Step>): State
    requires Sane(net)
  {
    if steps == [] then Start(r0) else Next(net, After(net, r0, steps[..|steps| - 1]), steps[|steps| - 1])
  }

  // ---------- Who is reached, by whom, and how ----------

  /** The servers a publish at `r0` is meant for. */
  ghost predicate Reached(net: Net, r0: nat, x: nat)
    requires Sane(net)
  {
    || x == r0
    || (net.propagate && x in Workers(net, ClusterOf(net, r0)))
    || (StatusOf(net, r0) == Coordinator &&
        (|| x in Coordinators(net)
         || (StatusOf(net, x) == Worker && x < net.total && ClusterOf(net, x) != r0 && ClusterOf(net, x) in net.recorded)))
  }

  ghost function Audience(net: Net, r0: nat): set<nat>
    requires Sane(net)
  {
    set x | x in {r0} + Below(net.total) && Reached(net, r0, x)
  }

  /** The tag of the only message a server gets. */
  ghost function TagOf(net: Net, r0: nat, x: nat): Source {
    if x == r0 then FromClient else if StatusOf(net, x) == Coordinator then BetweenGroups else InGroup
  }

  ghost function MsgFor(net: Net, r0: nat, x: nat): Msg {
    Msg(x, TagOf(net, r0, x))
  }

  /** The server that sends it. */
  ghost function CauseOf(net: Net, r0: nat, x: nat): nat
    requires Sane(net)
  {
    if StatusOf(net, r0) != Coordinator || StatusOf(net, x) == Coordinator || ClusterOf(net, x) == r0 then r0
    else ClusterOf(net, x)
  }

  lemma {:induction false} OwnCluster(net: Net, x: nat)
    requires Sane(net)
    ensures x < net.groups ==> ClusterOf(net, x) == x
    ensures ClusterOf(net, x) < net.groups && net.groups <= net.groups * net.size
  {
    Multiple(net.groups, net.size);
    if x < net.groups {
      DivMod(x, net.groups, 0, x);
    }
  }

  lemma {:induction false} InAudience(net: Net, r0: nat, x: nat)
    requires Sane(net)
    ensures x in Audience(net, r0) <==> (x == r0 || x < net.total) && Reached(net, r0, x)
  {
  }

  /** Handling the message for `r` sends exactly the messages of the servers it causes. */
  lemma {:induction false} ForwardsTo(net: Net, r0: nat, r: nat, m: Msg)
    requires Sane(net) && r in Audience(net, r0)
    ensures m in Forwards(net, r, TagOf(net, r0, r)) <==>
      m.to != r0 && m.to in Audience(net, r0) && CauseOf(net, r0, m.to) == r && m == MsgFor(net, r0, m.to)
  {
    hide Audience, ClusterOf;
    InAudience(net, r0, r);
    InAudience(net, r0, m.to);
    OwnCluster(net, r0);
    OwnCluster(net, r);
    OwnCluster(net, m.to);
  }

  lemma {:induction false} ForwardsAre(net: Net, r0: nat, r: nat)
    requires Sane(net) && r in Audience(net, r0)
    ensures forall m :: m in Forwards(net, r, TagOf(net, r0, r)) <==>
      m.to != r0 && m.to in Audience(net, r0) && CauseOf(net, r0, m.to) == r && m == MsgFor(net, r0, m.to)
  {
    hide Forwards, TagOf, CauseOf, Audience;
    forall m
      ensures m in Forwards(net, r, TagOf(net, r0, r)) <==>
        m.to != r0 && m.to in Audience(net, r0) && CauseOf(net, r0, m.to) == r && m == MsgFor(net, r0, m.to)
    {
      ForwardsTo(net, r0, r, m);
    }
  }

  // ---------- What holds in every state ----------

  /** The servers that have processed their message. */
  ghost function DoneBy(net: Net, r0: nat, s: State): set<nat>
    requires Sane(net)
  {
    set x | x in Audience(net, r0) && MsgFor(net, r0, x) in s.processed
  }

  /** All messages that exist once the servers in `done` have processed theirs. */
  ghost function Wave(net: Net, r0: nat, done: set<nat>): set<Msg>
    requires Sane(net)
  {
    set x | x in Audience(net, r0) && (x == r0 || CauseOf(net, r0, x) in done) :: MsgFor(net, r0, x)
  }

  /** Every message that was ever sent exists once, and nothing else does. */
  ghost predicate Inv(net: Net, r0: nat, s: State)
    requires Sane(net)
  {
    s.inFlight + s.processed + s.lost == multiset(Wave(net, r0, DoneBy(net, r0, s)))
  }

  lemma {:induction false} StartInv(net: Net, r0: nat)
    requires Sane(net)
    ensures Inv(net, r0, Start(r0))
  {
    assert Wave(net, r0, {}) == {Msg(r0, FromClient)} by {
      assert MsgFor(net, r0, r0) == Msg(r0, FromClient);
    }
    assert DoneBy(net, r0, Start(r0)) == {};
  }

  /** A message in flight is the one its target gets, and the target has not processed it yet. */
  lemma {:induction false} InFlightIs(net: Net, r0: nat, s: State, m: Msg)
    requires Sane(net) && Inv(net, r0, s) && m in s.inFlight
    ensures m.to in Audience(net, r0) && m == MsgFor(net, r0, m.to) && m.to !in DoneBy(net, r0, s)
  {
    hide Reached, TagOf, CauseOf;
    var wave := Wave(net, r0, DoneBy(net, r0, s));
    assert (s.inFlight + s.processed + s.lost)[m] == multiset(wave)[m];
    assert m in wave;
  }

  lemma {:induction false} LoseInv(net: Net, r0: nat, s: State, m: Msg)
    requires Sane(net) && Inv(net, r0, s) && m in s.inFlight
    ensures Inv(net, r0, Next(net, s, Lose(m)))
  {
    hide Reached, TagOf, CauseOf, Wave;
    var s' := Next(net, s, Lose(m));
    assert DoneBy(net, r0, s') == DoneBy(net, r0, s);
    assert s'.inFlight + s'.processed + s'.lost == s.inFlight + s.processed + s.lost;
  }

  lemma {:induction false} DeliverInv(net: Net, r0: nat, s: State, m: Msg)
    requires Sane(net) && Inv(net, r0, s) && m in s.inFlight
    ensures Inv(net, r0, Next(net, s, Deliver(m)))
  {
    hide Reached, TagOf, CauseOf, Forwards, Audience;
    var s' := Next(net, s, Deliver(m));
    var done, r := DoneBy(net, r0, s), m.to;
    InFlightIs(net, r0, s, m);
    var wave, out := Wave(net, r0, done), Forwards(net, r, m.source);
    ForwardsAre(net, r0, r);
    assert DoneBy(net, r0, s') == done + {r};
    assert Wave(net, r0, done + {r}) == wave + out;
    assert wave !! out;
    assert s'.inFlight + s'.processed + s'.lost == (s.inFlight + s.processed + s.lost) + multiset(out);
    assert multiset(wave + out) == multiset(wave) + multiset(out);
  }

  lemma {:induction false} RunInv(net: Net, r0: nat, steps: seq<Step>)
    requires Sane(net) && IsRun(net, r0, steps)
    ensures Inv(net, r0, After(net, r0, steps))
  {
    if steps == [] {
      StartInv(net, r0);
    } else {
      RunInv(net, r0, steps[..|steps| - 1]);
      var s, step := After(net, r0, steps[..|steps| - 1]), steps[|steps| - 1];
      match step
      case Deliver(m) => DeliverInv(net, r0, s, m);
      case Lose(m) => LoseInv(net, r0, s, m);
    }
  }

  // ---------- Main results ----------

  lemma {:induction false} AudienceSize(net: Net, r0: nat)
    requires Sane(net)
    ensures |Audience(net, r0)| <= net.groups * net.size
  {
    var g := ClusterOf(net, r0);
    if StatusOf(net, r0) == FreePool {
      WorkersAtMost(net, g);
      SubsetSize(Audience(net, r0), {r0} + Workers(net, g));
      Multiple(net.size, net.groups);
    } else {
      Multiple(net.groups, net.size);
      var below := Below(net.groups * net.size);
      SubsetSize(Audience(net, r0), below);
    }
  }

  function Below(n: nat): (s: set<nat>)
    ensures forall x: nat :: x in s <==> x < n
    ensures |s| == n
  {
    if n == 0 then {} else Below(n - 1) + {n - 1}
  }

  lemma {:induction false} WaveSize(net: Net, r0: nat, done: set<nat>)
    requires Sane(net)
    ensures |Wave(net, r0, done)| <= |Audience(net, r0)|
  {
    var wave := Wave(net, r0, done);
    var targets := set x | x in Audience(net, r0) && (x == r0 || CauseOf(net, r0, x) in done);
    SubsetSize(targets, Audience(net, r0));
    ImageSize(net, r0, targets, wave);
  }

  lemma {:induction false} ImageSize(net: Net, r0: nat, xs: set<nat>, ms: set<Msg>)
    requires ms == set x | x in xs :: MsgFor(net, r0, x)
    ensures |ms| == |xs|
  {
    if xs != {} {
      var x :| x in xs;
      var ms' := ms - {MsgFor(net, r0, x)};
      assert ms' == set y | y in xs - {x} :: MsgFor(net, r0, y);
      ImageSize(net, r0, xs - {x}, ms');
    }
  }

  /** One client publish, whatever is delivered or lost and in whatever order: no server processes
      it twice, and fewer than groups * size messages are ever sent between servers. */
  lemma {:induction false} AtMostOnce(net: Net, r0: nat, steps: seq<Step>)
    requires Sane(net) && IsRun(net, r0, steps)
    ensures var s := After(net, r0, steps);
            && (forall m :: s.processed[m] <= 1)
            && (forall m, m' :: m in s.processed && m' in s.processed && m.to == m'.to ==> m == m')
            && (forall m :: m in s.processed ==> m.to in Audience(net, r0))
            && |s.inFlight + s.processed + s.lost| - 1 < net.groups * net.size
  {
    hide Reached, CauseOf, TagOf, IsRun, After;
    var s := After(net, r0, steps);
    RunInv(net, r0, steps);
    var wave := Wave(net, r0, DoneBy(net, r0, s));
    assert multiset(wave) == s.inFlight + s.processed + s.lost;
    assert forall m :: m in s.processed ==> m in multiset(wave);
    assert forall m :: s.processed[m] <= multiset(wave)[m];
    WaveSize(net, r0, DoneBy(net, r0, s));
    AudienceSize(net, r0);
  }

  /** Every run ends: it has at most groups * size steps. */
  lemma {:induction false} RunsEnd(net: Net, r0: nat, steps: seq<Step>)
    requires Sane(net) && IsRun(net, r0, steps)
    ensures |steps| <= net.groups * net.size
  {
    StepsCount(net, r0, steps);
    AtMostOnce(net, r0, steps);
  }

  lemma {:induction false} StepsCount(net: Net, r0: nat, steps: seq<Step>)
    requires Sane(net) && IsRun(net, r0, steps)
    ensures |After(net, r0, steps).processed + After(net, r0, steps).lost| == |steps|
  {
    if steps != [] {
      StepsCount(net, r0, steps[..|steps| - 1]);
    }
  }

  /** When nothing is lost and nothing is in flight any more, exactly the audience has processed
      the publish. */
  lemma {:induction false} ReachesExactly(net: Net, r0: nat, steps: seq<Step>)
    requires Sane(net) && IsRun(net, r0, steps)
    requires After(net, r0, steps).inFlight == multiset{} && After(net, r0, steps).lost == multiset{}
    ensures forall x :: x in Audience(net, r0) <==> exists m :: m in After(net, r0, steps).processed && m.to == x
  {
    hide Reached, CauseOf, TagOf, IsRun, After, Audience;
    var s := After(net, r0, steps);
    RunInv(net, r0, steps);
    var done := DoneBy(net, r0, s);
    var wave := Wave(net, r0, done);
    assert s.processed == multiset(wave);
    assert forall m :: m in s.processed <==> m in wave;
    forall x ensures x in done <==> x in Audience(net, r0) && (x == r0 || CauseOf(net, r0, x) in done) {
      assert MsgFor(net, r0, x) in wave <==> x in Audience(net, r0) && (x == r0 || CauseOf(net, r0, x) in done);
    }
    AllDone(net, r0, done);
    forall x | x in Audience(net, r0) ensures exists m :: m in s.processed && m.to == x {
      assert MsgFor(net, r0, x) in s.processed && MsgFor(net, r0, x).to == x;
    }
  }

  /** A set of servers closed under causation is the whole audience. */
  lemma {:induction false} AllDone(net: Net, r0: nat, done: set<nat>)
    requires Sane(net)
    requires forall x :: x in done <==> x in Audience(net, r0) && (x == r0 || CauseOf(net, r0, x) in done)
    ensures done == Audience(net, r0)
  {
    hide Reached, CauseOf;
    InAudience(net, r0, r0);
    assert r0 in Audience(net, r0) by {
      SelfReached(net, r0);
    }
    forall x | x in Audience(net, r0) ensures x in done {
      CauseIsReached(net, r0, x);
      assert CauseOf(net, r0, x) in done;
    }
  }

  lemma {:induction false} SelfReached(net: Net, r0: nat)
    requires Sane(net)
    ensures Reached(net, r0, r0)
  {
  }

  lemma {:induction false} CauseIsReached(net: Net, r0: nat, x: nat)
    requires Sane(net) && x in Audience(net, r0)
    ensures CauseOf(net, r0, x) in Audience(net, r0)
    ensures CauseOf(net, r0, CauseOf(net, r0, x)) == r0
  {
    hide ClusterOf;
    OwnCluster(net, r0);
    OwnCluster(net, x);
    OwnCluster(net, CauseOf(net, r0, x));
  }

  /** A publish sent to a coordinator reaches its own group, all other coordinators, and the
      workers of the groups whose coordinator recorded the event. */
  lemma {:induction false} CoordinatorAudience(net: Net, r0: nat, x: nat)
    requires Sane(net) && net.propagate && r0 < net.groups && net.groups * net.size <= net.total
    ensures x in Audience(net, r0) <==>
      || x < net.groups
      || (x in Workers(net, ClusterOf(net, x)) && (ClusterOf(net, x) == r0 || ClusterOf(net, x) in net.recorded))
  {
    Multiple(net.groups, net.size);
    DivMod(r0, net.groups, 0, r0);
  }

  /** Without propagation a coordinator keeps the event from the workers of its own group. */
  lemma {:induction false} AudienceUnpropagated(net: Net, r0: nat, x: nat)
    requires Sane(net) && !net.propagate
    ensures StatusOf(net, r0) != Coordinator ==> (x in Audience(net, r0) <==> x == r0)
    ensures r0 < net.groups <= net.total ==>
      (x in Audience(net, r0) <==>
        || x < net.groups
        || (x in Workers(net, ClusterOf(net, x)) && ClusterOf(net, x) != r0 && ClusterOf(net, x) in net.recorded))
  {
    OwnCluster(net, x);
  }

  /** A publish sent to a worker or a free server reaches that server and the workers of its
      cluster only: no coordinator gets it. */
  lemma {:induction false} WorkerAudience(net: Net, r0: nat, x: nat)
    requires Sane(net) && net.propagate && StatusOf(net, r0) != Coordinator
    ensures x in Audience(net, r0) <==> x == r0 || x in Workers(net, ClusterOf(net, r0))
    ensures x in Audience(net, r0) && x != r0 ==> StatusOf(net, x) != Coordinator
  {
  }

  /** In no run, wherever the publish starts, is a message from inside a group sent to a
      coordinator. */
  lemma {:induction false} NoneFromInside(net: Net, r0: nat, steps: seq<Step>)
    requires Sane(net) && IsRun(net, r0, steps)
    ensures var s := After(net, r0, steps);
            forall m :: m in s.inFlight + s.processed + s.lost && StatusOf(net, m.to) == Coordinator ==> m.source != InGroup
  {
    RunInv(net, r0, steps);
    var s := After(net, r0, steps);
    var wave := Wave(net, r0, DoneBy(net, r0, s));
    forall m | m in s.inFlight + s.processed + s.lost && StatusOf(net, m.to) == Coordinator ensures m.source != InGroup {
      assert m in multiset(wave);
      assert m in wave;
    }
  }

  // ---------- The loops of the servers ----------

  /** The directory of one cluster, or of the free pool; an entry is a server's address. */
  datatype Directory = Directory(coordinator: set<nat>, worker: set<nat>)

  /** The directories once the servers below `rank` have recorded themselves. */
  ghost predicate RecordedUpTo(net: Net, rank: nat, clusters: map<nat, Directory>, freePool: set<nat>)
    requires Sane(net)
  {
    && clusters.Keys == Below(net.groups)
    && (forall g :: g in clusters ==> clusters[g].worker == Workers(net.(total := rank), g))
    && (forall g :: g in clusters ==> clusters[g].coordinator == if g < rank then {g} else {})
    && (forall r: nat :: r in freePool <==> r < rank && StatusOf(net, r) == FreePool)
  }

  /** recordIPortIntoClusterDir on server `rank`. */
  method RecordOne(net: Net, rank: nat, clusters: map<nat, Directory>, freePool: set<nat>)
    returns (clusters': map<nat, Directory>, freePool': set<nat>)
    requires Sane(net) && RecordedUpTo(net, rank, clusters, freePool)
    ensures RecordedUpTo(net, rank + 1, clusters', freePool')
  {
    hide Workers, ClusterOf, Below;
    OwnCluster(net, rank);
    var g := ClusterOf(net, rank);
    assert g in Below(net.groups);
    clusters', freePool' := clusters, freePool;
    var dir := clusters[g];
    var bound := net.groups * net.size;
    if rank < net.groups {
      clusters' := clusters[g := Directory(dir.coordinator + {rank}, dir.worker)];
    } else if rank >= net.groups && rank < bound {
      clusters' := clusters[g := Directory(dir.coordinator, dir.worker + {rank})];
    } else {
      freePool' := freePool + {rank};
    }
    forall h | h in clusters' ensures clusters'[h].worker == Workers(net.(total := rank + 1), h) {
      WorkersGrow(net, rank, h);
    }
  }

  /** Start-up: every server in turn. */
  method RecordAll(net: Net) returns (clusters: map<nat, Directory>, freePool: set<nat>)
    requires Sane(net)
    ensures RecordedUpTo(net, net.total, clusters, freePool)
  {
    clusters := map g | g in Below(net.groups) :: Directory({}, {});
    freePool := {};
    forall g: nat ensures Workers(net.(total := 0), g) == {} {
      NoWorkers(net, g);
    }
    for rank := 0 to net.total
      invariant RecordedUpTo(net, rank, clusters, freePool)
    {
      clusters, freePool := RecordOne(net, rank, clusters, freePool);
    }
  }

  lemma {:induction false} NoWorkers(net: Net, g: nat)
    requires Sane(net)
    ensures Workers(net.(total := 0), g) == {}
  {
  }

  lemma {:induction false} WorkersGrow(net: Net, rank: nat, g: nat)
    requires Sane(net)
    ensures Workers(net.(total := rank + 1), g)
         == Workers(net.(total := rank), g) + if StatusOf(net, rank) == Worker && ClusterOf(net, rank) == g then {rank} else {}
  {
  }

  /** updateCoordinatorAddr: one coordinator per cluster directory that has any. */
  method UpdateCoordinatorAddr(net: Net, clusters: map<nat, Directory>) returns (coordinatorAddrSet: set<nat>)
    requires Sane(net)
    requires clusters.Keys == Below(net.groups)
    requires forall g :: g in clusters ==> clusters[g].coordinator == if g < net.total then {g} else {}
    ensures coordinatorAddrSet == Coordinators(net)
  {
    coordinatorAddrSet := {};
    var todo := clusters.Keys;
    while todo != {}
      invariant todo <= clusters.Keys
      invariant forall c: nat :: c in coordinatorAddrSet <==> c in clusters && c !in todo && c < net.total
    {
      ghost var some := Member(todo);
      assert some in todo;
      var g: nat :| g in todo;
      if clusters[g].coordinator != {} {
        ghost var one := Member(clusters[g].coordinator);
        assert one in clusters[g].coordinator;
        var c: nat :| c in clusters[g].coordinator;
        coordinatorAddrSet := coordinatorAddrSet + {c};
      }
      todo := todo - {g};
    }
  }

  lemma {:induction false} OthersStep(done: set<nat>, a: nat, self: nat, source: Source)
    requires a !in done
    ensures multiset(Others(done + {a}, self, source))
         == multiset(Others(done, self, source)) + if a != self then multiset{Msg(a, source)} else multiset{}
  {
    if a != self {
      assert Others(done + {a}, self, source) == Others(done, self, source) + {Msg(a, source)};
    } else {
      assert Others(done + {a}, self, source) == Others(done, self, source);
    }
  }

  /** publishMultiServer and publishMultiGroup: one message to every listed address but one's own. */
  method SendToOthers(addrs: set<nat>, self: nat, source: Source) returns (sent: multiset<Msg>)
    ensures sent == multiset(Others(addrs, self, source))
  {
    sent := multiset{};
    var todo := addrs;
    ghost var done: set<nat> := {};
    while todo != {}
      invariant todo <= addrs && done == addrs - todo
      invariant sent == multiset(Others(done, self, source))
    {
      ghost var some := Member(todo);
      assert some in todo;
      var a: nat :| a in todo;
      OthersStep(done, a, self, source);
      if a != self {
        sent := sent + multiset{Msg(a, source)};
      }
      todo, done := todo - {a}, done + {a};
    }
    assert done == addrs;
  }

  /** The forwarding part of the publish handler on server `self`. */
  method ForwardPublish(net: Net, self: nat, source: Source, workerDir: set<nat>, coordinatorAddrSet: set<nat>)
    returns (sent: multiset<Msg>)
    requires Sane(net) && workerDir == Workers(net, ClusterOf(net, self)) && coordinatorAddrSet == Coordinators(net)
    ensures sent == multiset(Forwards(net, self, source))
  {
    hide Workers, Coordinators, ClusterOf;
    sent := multiset{};
    ghost var all: set<Msg> := {};
    if net.propagate && source == FromClient {
      sent := SendToOthers(workerDir, self, InGroup);
      all := ToWorkers(net, self);
    }
    if StatusOf(net, self) == Coordinator {
      if source == InGroup || source == FromClient {
        var more := SendToOthers(coordinatorAddrSet, self, BetweenGroups);
        assert multiset(all + ToCoordinators(net, self)) == multiset(all) + multiset(ToCoordinators(net, self));
        sent := sent + more;
        all := all + ToCoordinators(net, self);
      }
      if source == BetweenGroups {
        if self in net.recorded {
          sent := SendToOthers(workerDir, self, InGroup);
          all := ToWorkers(net, self);
        }
      }
    }
    assert all == Forwards(net, self, source);
  }

  /** The message of every server in the audience. */
  ghost function Everyone(net: Net, r0: nat): set<Msg>
    requires Sane(net)
  {
    set x | x in Audience(net, r0) :: MsgFor(net, r0, x)
  }

  lemma {:induction false} FinishedIs(net: Net, r0: nat, steps: seq<Step>)
    requires Sane(net) && IsRun(net, r0, steps)
    requires After(net, r0, steps).inFlight == multiset{} && After(net, r0, steps).lost == multiset{}
    ensures After(net, r0, steps).processed == multiset(Everyone(net, r0))
  {
    hide Reached, CauseOf, TagOf, IsRun, After, Audience;
    var s := After(net, r0, steps);
    RunInv(net, r0, steps);
    ReachesExactly(net, r0, steps);
    var wave := Wave(net, r0, DoneBy(net, r0, s));
    assert s.processed == multiset(wave);
    forall x | x in Audience(net, r0) ensures MsgFor(net, r0, x) in wave {
      var m :| m in s.processed && m.to == x;
      assert m in wave;
    }
    assert wave == Everyone(net, r0);
  }

  lemma {:induction false} OneMoreStep(net: Net, r0: nat, steps: seq<Step>, step: Step)
    requires Sane(net) && IsRun(net, r0, steps) && step.m in After(net, r0, steps).inFlight
    ensures IsRun(net, r0, steps + [step])
    ensures After(net, r0, steps + [step]) == Next(net, After(net, r0, steps), step)
  {
    assert (steps + [step])[..|steps|] == steps;
  }

  lemma {:induction false} OwnDirectory(net: Net, clusters: map<nat, Directory>, freePool: set<nat>, self: nat)
    requires Sane(net) && RecordedUpTo(net, net.total, clusters, freePool)
    ensures var g := ClusterOf(net, self);
            g in clusters && clusters[g].worker == Workers(net, g)
    ensures clusters.Keys == Below(net.groups)
    ensures forall g :: g in clusters ==> clusters[g].coordinator == if g < net.total then {g} else {}
  {
    OwnCluster(net, self);
    assert net.(total := net.total) == net;
  }

  /** A whole broadcast: the servers record themselves, every message is forwarded from the
      directories, in any order, and none is lost. It ends, and exactly the audience has processed
      the event, each server once. */
  method Broadcast(net: Net, r0: nat) returns (processed: multiset<Msg>)
    requires Sane(net)
    ensures processed == multiset(Everyone(net, r0))
  {
    hide Forwards, Everyone, RecordedUpTo, Coordinators, Workers, ClusterOf, IsRun, After;
    var clusters, freePool := RecordAll(net);
    OwnDirectory(net, clusters, freePool, r0);
    var coordinatorAddrSet := UpdateCoordinatorAddr(net, clusters);
    var inFlight := multiset{Msg(r0, FromClient)};
    processed := multiset{};
    ghost var steps: seq<Step> := [];
    NoStep(net, r0);
    while inFlight != multiset{}
      invariant IsRun(net, r0, steps) && After(net, r0, steps) == State(inFlight, processed, multiset{})
      decreases net.groups * net.size - |steps|
    {
      var m :| m in inFlight;
      OwnDirectory(net, clusters, freePool, m.to);
      var sent := ForwardPublish(net, m.to, m.source, clusters[ClusterOf(net, m.to)].worker, coordinatorAddrSet);
      OneMoreStep(net, r0, steps, Deliver(m));
      steps := steps + [Deliver(m)];
      RunsEnd(net, r0, steps);
      inFlight, processed := inFlight - multiset{m} + sent, processed + multiset{m};
    }
    FinishedIs(net, r0, steps);
  }

  lemma {:induction false} NoStep(net: Net, r0: nat)
    requires Sane(net)
    ensures IsRun(net, r0, []) && After(net, r0, []) == Start(r0)
  {
  }
}
